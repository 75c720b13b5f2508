/**
 * `get_internships`: runs the four adapters in a fixed order, each isolated so that one
 * that raises contributes nothing, concatenates their results, and drops every listing
 * whose (title, company) key was already seen. Also `get_jobs_with_metadata`.
 */
module Aggregator {
  import opened Wrappers
  import opened Seqs
  import opened Listings
  import opened Fetcher
  import opened Scraper

  /** What calling one adapter gives: its listings, or the exception it raised. */
  type AdapterRun = Result<seq<Listing>, string>

  /** What an adapter adds to the aggregate: an adapter that raised adds nothing. */
  function Contribution(run: AdapterRun): seq<Listing> {
    match run
    case Success(jobs) => jobs
    case Failure(_) => []
  }

  /** The concatenation step: Internshala, then GitHub Jobs, then Indeed, then LinkedIn. */
  method CollectAll(internshala: AdapterRun, github: AdapterRun, indeed: AdapterRun, linkedin: AdapterRun)
    returns (all: seq<Listing>)
    ensures all == Contribution(internshala) + Contribution(github) + Contribution(indeed) + Contribution(linkedin)
    ensures |all| == |Contribution(internshala)| + |Contribution(github)| + |Contribution(indeed)| + |Contribution(linkedin)|
  {
    all := [];
    // each adapter runs in its own try block: one that raises is logged and skipped
    if internshala.Success? {
      all := all + internshala.value;
    }
    if github.Success? {
      all := all + github.value;
    }
    if indeed.Success? {
      all := all + indeed.value;
    }
    if linkedin.Success? {
      all := all + linkedin.value;
    }
  }

  /** The deduplication loop with its `seen` set of keys. */
  method RemoveDuplicates(all: seq<Listing>) returns (unique: seq<Listing>)
    ensures unique == FirstOccurrences(all, Key)
  {
    unique := [];
    var seen: set<(string, string)> := {};
    for i := 0 to |all|
      invariant unique == FirstOccurrences(all[..i], Key)
      invariant forall k :: k in seen <==> HasKey(unique, Key, k)
    {
      assert all[..i + 1][..i] == all[..i];
      var job := all[i];
      var key := Key(job);
      if key !in seen {
        seen := seen + {key};
        ghost var before := unique;
        unique := unique + [job];
        forall k ensures HasKey(unique, Key, k) <==> HasKey(before, Key, k) || k == key {
          if HasKey(unique, Key, k) {
            var j :| 0 <= j < |unique| && Key(unique[j]) == k;
            if j < |before| {
              assert Key(before[j]) == k;
            }
          }
          if HasKey(before, Key, k) {
            var j :| 0 <= j < |before| && Key(before[j]) == k;
            assert Key(unique[j]) == k;
          }
          assert Key(unique[|before|]) == key;
        }
      }
    }
    assert all[..|all|] == all;
  }

  /** The aggregate after deduplication. */
  function Internships(internshala: AdapterRun, github: AdapterRun, indeed: AdapterRun, linkedin: AdapterRun): (r: seq<Listing>)
    ensures var all := Contribution(internshala) + Contribution(github) + Contribution(indeed) + Contribution(linkedin);
            |r| <= |all| && forall j :: j in r ==> j in all
    ensures DistinctKeys(r, Key)
  {
    var all := Contribution(internshala) + Contribution(github) + Contribution(indeed) + Contribution(linkedin);
    FirstOccurrencesFromInput(all, Key);
    FirstOccurrencesDistinct(all, Key);
    FirstOccurrences(all, Key)
  }

  /** `get_internships`, given what each adapter call gives. */
  method GetInternships(internshala: AdapterRun, github: AdapterRun, indeed: AdapterRun, linkedin: AdapterRun)
    returns (unique: seq<Listing>)
    ensures unique == Internships(internshala, github, indeed, linkedin)
  {
    var all := CollectAll(internshala, github, indeed, linkedin);
    unique := RemoveDuplicates(all);
  }

  /**
   * What deduplication promises: no more listings than went in, pairwise distinct keys,
   * every input key still present, each survivor the first listing with its key in
   * aggregation order, and a second pass changes nothing.
   */
  lemma DeduplicationProperties(internshala: AdapterRun, github: AdapterRun, indeed: AdapterRun, linkedin: AdapterRun)
    ensures var all := Contribution(internshala) + Contribution(github) + Contribution(indeed) + Contribution(linkedin);
            var unique := Internships(internshala, github, indeed, linkedin);
            && |unique| <= |all|
            && DistinctKeys(unique, Key)
            && (forall k :: HasKey(unique, Key, k) <==> HasKey(all, Key, k))
            && unique == Firsts(all, Key, |all|)
            && FirstOccurrences(unique, Key) == unique
  {
    var all := Contribution(internshala) + Contribution(github) + Contribution(indeed) + Contribution(linkedin);
    FirstOccurrencesDistinct(all, Key);
    forall k ensures HasKey(FirstOccurrences(all, Key), Key, k) <==> HasKey(all, Key, k) {
      FirstOccurrencesKeys(all, Key, k);
    }
    FirstOccurrencesAreFirsts(all, Key);
    FirstOccurrencesIdempotent(all, Key);
  }

  /**
   * Three adapters answering `[a, b]`, raising, and `[b2, c]` where `b2` has the key of
   * `b`, with the last adapter returning nothing: the result is `[a, b, c]`.
   */
  lemma EndToEndExample(a: Listing, b: Listing, b2: Listing, c: Listing)
    requires Key(a) != Key(b) && Key(a) != Key(c) && Key(b) != Key(c)
    requires Key(b2) == Key(b)
    ensures Internships(Success([a, b]), Failure("unreachable"), Success([b2, c]), Success([])) == [a, b, c]
  {
    var all := [a, b] + [] + [b2, c] + [];
    assert all == [a, b, b2, c];
    assert all[..3] == [a, b, b2] && all[..3][..2] == [a, b] && [a, b][..1] == [a];
    assert [a][..0] == [];
    assert FirstOccurrences([a], Key) == [a];
    assert !HasKey([a], Key, Key(b));
    assert FirstOccurrences([a, b], Key) == [a, b];
    assert HasKey([a, b], Key, Key(b2)) by {
      assert Key([a, b][1]) == Key(b2);
    }
    assert FirstOccurrences([a, b, b2], Key) == [a, b];
    assert !HasKey([a, b], Key, Key(c));
  }

  // ---------------------------------------------------------------------------
  // The whole acquisition pipeline

  /**
   * The four adapters as the repository wires them, each given what it reads from the
   * outside world. The fixture adapters never fail, so the pipeline never yields an empty
   * list: the placeholder data of the cache is reached only when aggregation itself raises.
   */
  function Harvest(pages: seq<PageAttempts>, reply: GithubReply, stamp: string): (r: seq<Listing>)
    ensures |r| > 0
  {
    var all := InternshalaListings(pages, stamp) + GithubJobs(reply, stamp) + IndeedListings(stamp) + LinkedInListings(stamp);
    var j := IndeedListings(stamp)[0];
    assert all[|InternshalaListings(pages, stamp)| + |GithubJobs(reply, stamp)|] == j;
    FirstOccurrencesKeys(all, Key, Key(j));
    Internships(Success(InternshalaListings(pages, stamp)), Success(GithubJobs(reply, stamp)),
                Success(IndeedListings(stamp)), Success(LinkedInListings(stamp)))
  }

  /** Every harvested listing carries the tag of one of the four adapters. */
  lemma HarvestSources(pages: seq<PageAttempts>, reply: GithubReply, stamp: string)
    ensures forall j :: j in Harvest(pages, reply, stamp) ==>
              j.source in {InternshalaSource, GithubSource, IndeedSource, LinkedInSource} && j.scrapedAt == stamp
  {
    var all := InternshalaListings(pages, stamp) + GithubJobs(reply, stamp) + IndeedListings(stamp) + LinkedInListings(stamp);
    InternshalaListingsComplete(pages, stamp);
    FirstOccurrencesFromInput(all, Key);
  }

  /** What `get_jobs_with_metadata` reports beside the listings. */
  datatype Metadata = Metadata(
    totalJobs: nat,
    sources: set<string>,
    lastUpdated: string,
    locations: set<string>,
    companies: set<string>)

  function MetadataOf(jobs: seq<Listing>, stamp: string): (m: Metadata)
    ensures m.totalJobs == |jobs| && m.lastUpdated == stamp
    ensures forall s :: s in m.sources <==> exists j :: j in jobs && j.source == s
    ensures forall l :: l in m.locations <==> exists j :: j in jobs && j.location == l
    ensures forall c :: c in m.companies <==> exists j :: j in jobs && j.company == c
  {
    Metadata(|jobs|, set j | j in jobs :: j.source, stamp,
             set j | j in jobs :: j.location, set j | j in jobs :: j.company)
  }

  /** `get_jobs_with_metadata`: the harvest together with its summary. */
  function JobsWithMetadata(pages: seq<PageAttempts>, reply: GithubReply, stamp: string): (r: (seq<Listing>, Metadata))
    ensures r.0 == Harvest(pages, reply, stamp)
    ensures r.1.totalJobs == |r.0| > 0
    ensures r.1.sources <= {InternshalaSource, GithubSource, IndeedSource, LinkedInSource}
  {
    var jobs := Harvest(pages, reply, stamp);
    HarvestSources(pages, reply, stamp);
    (jobs, MetadataOf(jobs, stamp))
  }
}
