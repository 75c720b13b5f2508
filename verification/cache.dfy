/**
 * The listing cache of the web front end (`get_jobs_cached` and the manual refresh).
 * `ReadCache` is the transition a read makes; the class `JobCache` holds the state and
 * its methods are tied to that transition. The clock reading and the outcome of the
 * aggregation are parameters: a read that does not refresh ignores the outcome, which is
 * how the model says that the aggregator is not called.
 */
module Cache {
  import opened Wrappers
  import opened Listings
  import opened Fetcher
  import opened Scraper
  import opened Aggregator

  /** Seconds a cached list stays fresh. */
  const Ttl := 1800

  /** The cached listings, if any, and the time they were stored. */
  datatype CacheState = CacheState(jobs: Option<seq<Listing>>, ts: int)

  /** The state at start-up and after a manual refresh. */
  const Cleared := CacheState(None, 0)

  /** The cache never holds an empty list. */
  predicate WellFormed(s: CacheState) {
    s.jobs.Some? ==> s.jobs.value != []
  }

  /** Title, company, location, link, duration and stipend of placeholder listing `i`. */
  function MockRow(i: nat): (string, string, string, string, string, string)
    requires i < 12
  {
    match i
      case 0 => ("Python Backend Developer Intern, Data Analyst", "TechCorp Solutions", "Remote, Mumbai",
                  "https://internshala.com/internship/python-backend-developer-intern",
                  "6 months", "₹15,000 - ₹25,000 per month")
      case 1 => ("Django Web Development Intern", "StartupHub India", "Work From Home",
                  "https://internshala.com/internship/django-web-development-intern",
                  "3 months", "₹8,000 - ₹12,000 per month")
      case 2 => ("Flask API Developer Intern", "InnovateTech", "Remote, Bangalore",
                  "https://internshala.com/internship/flask-api-developer-intern",
                  "4 months", "₹10,000 - ₹18,000 per month")
      case 3 => ("Python Data Science Intern", "DataAnalytics Pro", "Hybrid, Delhi",
                  "https://internshala.com/internship/python-data-science-intern",
                  "6 months", "₹20,000 - ₹30,000 per month")
      case 4 => ("Full Stack Python Developer", "WebSolutions Ltd", "Remote, Pune",
                  "https://internshala.com/internship/full-stack-python-developer",
                  "5 months", "₹12,000 - ₹22,000 per month")
      case 5 => ("Python Automation Intern", "AutoTech Systems", "Work From Home",
                  "https://internshala.com/internship/python-automation-intern",
                  "3 months", "₹6,000 - ₹10,000 per month")
      case 6 => ("Django Frontend Developer", "CreativeWeb Studio", "Remote, Chennai",
                  "https://internshala.com/internship/django-frontend-developer",
                  "4 months", "₹9,000 - ₹15,000 per month")
      case 7 => ("Python Machine Learning Intern", "AI Innovations", "Hybrid, Hyderabad",
                  "https://internshala.com/internship/python-machine-learning-intern",
                  "6 months", "₹25,000 - ₹35,000 per month")
      case 8 => ("Flask Microservices Developer", "CloudTech Solutions", "Remote, Kolkata",
                  "https://internshala.com/internship/flask-microservices-developer",
                  "5 months", "₹15,000 - ₹25,000 per month")
      case 9 => ("Python Testing Intern", "QualityAssurance Pro", "Work From Home",
                  "https://internshala.com/internship/python-testing-intern",
                  "3 months", "₹7,000 - ₹12,000 per month")
      case 10 => ("Django E-commerce Developer", "ShopTech Solutions", "Remote, Ahmedabad",
                  "https://internshala.com/internship/django-ecommerce-developer",
                  "4 months", "₹11,000 - ₹19,000 per month")
      case _ => ("Python DevOps Intern", "DevOps Masters", "Hybrid, Jaipur",
                  "https://internshala.com/internship/python-devops-intern",
                  "6 months", "₹18,000 - ₹28,000 per month")
  }

  /** One placeholder listing, tagged as placeholder data and stamped. */
  function MockJob(i: nat, stamp: string): (j: Listing)
    requires i < 12
    ensures j.source == MockSource && j.scrapedAt == stamp
  {
    var row := MockRow(i);
    Listing(row.0, row.1, row.2, row.3, row.4, row.5, MockSource, stamp)
  }

  /** The twelve placeholder listings, in their order in the source. */
  function MockJobs(stamp: string): (r: seq<Listing>)
    ensures |r| == 12
    ensures forall j :: j in r ==> j.source == MockSource && j.scrapedAt == stamp
  {
    seq(12, i requires 0 <= i < 12 => MockJob(i, stamp))
  }

  /** A read must refresh: nothing is cached, or the cached list is older than the TTL (strictly). */
  predicate IsStale(s: CacheState, now: int) {
    s.jobs.None? || now - s.ts > Ttl
  }

  /** What one read serves, the state it leaves, and whether it ran the aggregation. */
  datatype Read = Read(served: seq<Listing>, next: CacheState, refreshed: bool)

  /** The cached list, or the placeholder data when there is none. */
  function Serve(s: CacheState, stamp: string): seq<Listing> {
    if s.jobs.Some? && s.jobs.value != [] then s.jobs.value else MockJobs(stamp)
  }

  /**
   * One call of `get_jobs_cached` at time `now`. When it refreshes: a non-empty result is
   * stored; an empty one is replaced by the placeholder data, which is stored too; an
   * exception leaves the state alone and serves the old list, or the placeholder data
   * (not stored) when there is none.
   */
  function ReadCache(s: CacheState, now: int, stamp: string, aggregate: Result<seq<Listing>, string>): (r: Read)
    ensures r.refreshed <==> IsStale(s, now)
    ensures !r.refreshed ==> r.next == s
    ensures r.served != []
  {
    if !IsStale(s, now) then Read(Serve(s, stamp), s, false)
    else
      match aggregate
      case Success(jobs) =>
        var next := CacheState(Some(if jobs == [] then MockJobs(stamp) else jobs), now);
        Read(Serve(next, stamp), next, true)
      case Failure(_) =>
        if s.jobs.None? then Read(MockJobs(stamp), s, true) else Read(Serve(s, stamp), s, true)
  }

  // ---------------------------------------------------------------------------
  // Properties of a read

  /** A read refreshes exactly when the state is stale; otherwise it serves the cached list and changes nothing. */
  lemma RefreshIffStale(s: CacheState, now: int, stamp: string, aggregate: Result<seq<Listing>, string>)
    requires WellFormed(s)
    ensures var r := ReadCache(s, now, stamp, aggregate);
            && (r.refreshed <==> s.jobs.None? || now - s.ts > Ttl)
            && (!r.refreshed ==> r.next == s && r.served == s.jobs.value)
  {
  }

  /** Within the TTL, boundary included, a read serves the cached list whatever the aggregation would give. */
  lemma FreshWithinTtl(s: CacheState, now: int, stamp: string, a1: Result<seq<Listing>, string>, a2: Result<seq<Listing>, string>)
    requires WellFormed(s) && s.jobs.Some?
    requires now <= s.ts + Ttl
    ensures ReadCache(s, now, stamp, a1) == ReadCache(s, now, stamp, a2) == Read(s.jobs.value, s, false)
  {
  }

  /** A refresh with a non-empty result stores exactly that list, stamped `now`, and serves it. */
  lemma RefreshStoresResult(s: CacheState, now: int, stamp: string, jobs: seq<Listing>)
    requires IsStale(s, now) && jobs != []
    ensures ReadCache(s, now, stamp, Success(jobs)) == Read(jobs, CacheState(Some(jobs), now), true)
  {
  }

  /**
   * A refresh with an empty result stores and serves the placeholder data, every listing
   * tagged as such, replacing whatever was cached before.
   */
  lemma EmptyRefreshStoresMock(s: CacheState, now: int, stamp: string)
    requires IsStale(s, now)
    ensures var r := ReadCache(s, now, stamp, Success([]));
            && r.next == CacheState(Some(MockJobs(stamp)), now)
            && r.served == MockJobs(stamp) && |r.served| == 12
            && forall j :: j in r.served ==> j.source == MockSource
  {
  }

  /** A refresh that raises leaves the state alone and serves the old list, or unstored placeholder data. */
  lemma FailedRefreshKeepsState(s: CacheState, now: int, stamp: string, error: string)
    requires WellFormed(s) && IsStale(s, now)
    ensures var r := ReadCache(s, now, stamp, Failure(error));
            && r.next == s && r.refreshed
            && r.served == (if s.jobs.Some? then s.jobs.value else MockJobs(stamp))
  {
  }

  /** Reads keep the cache well formed and never serve an empty list. */
  lemma ReadKeepsWellFormed(s: CacheState, now: int, stamp: string, aggregate: Result<seq<Listing>, string>)
    requires WellFormed(s)
    ensures WellFormed(ReadCache(s, now, stamp, aggregate).next)
    ensures ReadCache(s, now, stamp, aggregate).served != []
  {
  }

  /** After a manual refresh the next read always runs the aggregation. */
  lemma ClearedIsStale(now: int)
    ensures IsStale(Cleared, now)
  {
  }

  /**
   * The TTL as seen by three reads: a read at `t0` after start-up refreshes; a read at
   * `t0 + Ttl - 1`, or exactly at `t0 + Ttl`, serves the same list without refreshing;
   * a read at `t0 + Ttl + 1` refreshes again.
   */
  lemma TtlTimeline(t0: int, stamp: string, jobs: seq<Listing>, a: Result<seq<Listing>, string>)
    requires jobs != []
    ensures var first := ReadCache(Cleared, t0, stamp, Success(jobs));
            && first.refreshed && first.served == jobs
            && ReadCache(first.next, t0 + Ttl - 1, stamp, a) == Read(jobs, first.next, false)
            && ReadCache(first.next, t0 + Ttl, stamp, a) == Read(jobs, first.next, false)
            && ReadCache(first.next, t0 + Ttl + 1, stamp, a).refreshed
  {
    var first := ReadCache(Cleared, t0, stamp, Success(jobs));
    ClearedIsStale(t0);
    RefreshStoresResult(Cleared, t0, stamp, jobs);
    FreshWithinTtl(first.next, t0 + Ttl - 1, stamp, a, a);
    FreshWithinTtl(first.next, t0 + Ttl, stamp, a, a);
  }

  /**
   * Fed by the repository's own pipeline, a refresh always stores the harvested
   * listings: the placeholder data is never stored, because the fixture adapters
   * always contribute.
   */
  lemma HarvestedRefreshStoresHarvest(s: CacheState, now: int, stamp: string,
                                      pages: seq<PageAttempts>, reply: GithubReply)
    requires IsStale(s, now)
    ensures var harvest := Harvest(pages, reply, stamp);
            ReadCache(s, now, stamp, Success(harvest)) == Read(harvest, CacheState(Some(harvest), now), true)
  {
  }

  // ---------------------------------------------------------------------------
  // The cache object

  class JobCache {
    var jobs: Option<seq<Listing>>
    var ts: int

    function State(): CacheState
      reads this
    {
      CacheState(jobs, ts)
    }

    ghost predicate Valid()
      reads this
    {
      WellFormed(State())
    }

    constructor ()
      ensures State() == Cleared && Valid()
    {
      jobs, ts := None, 0;
    }

    /** `get_jobs_cached`: serves the listings, refreshing the cache first when it is stale. */
    method GetJobsCached(now: int, stamp: string, aggregate: Result<seq<Listing>, string>)
      returns (served: seq<Listing>, refreshed: bool)
      requires Valid()
      modifies this
      ensures Valid()
      ensures var r := ReadCache(old(State()), now, stamp, aggregate);
              served == r.served && State() == r.next && refreshed == r.refreshed
    {
      var mock := MockJobs(stamp);
      refreshed := jobs.None? || now - ts > Ttl;
      if refreshed {
        match aggregate
        case Success(fetched) =>
          jobs, ts := Some(if fetched == [] then mock else fetched), now;
        case Failure(_) =>
          // the exception is logged; the old state is kept
          if jobs.None? {
            return mock, true;
          }
      }
      served := if jobs.Some? && jobs.value != [] then jobs.value else mock;
      assert served == Serve(State(), stamp);
    }

    /** The cache reset of the manual refresh. */
    method Clear()
      modifies this
      ensures State() == Cleared && Valid()
    {
      jobs, ts := None, 0;
    }

    /** `refresh_data`: clears the cache, whatever its age, then reads it, which always runs the aggregation. */
    method RefreshData(now: int, stamp: string, aggregate: Result<seq<Listing>, string>) returns (served: seq<Listing>)
      modifies this
      ensures Valid()
      ensures var r := ReadCache(Cleared, now, stamp, aggregate);
              served == r.served && State() == r.next && r.refreshed
    {
      Clear();
      var refreshed;
      served, refreshed := GetJobsCached(now, stamp, aggregate);
    }
  }
}
