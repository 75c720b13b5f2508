/**
 * The source adapters. The HTML documents and the CSS selector engine are abstract: a
 * selector lookup is a `Probe` outcome, a job card is the list of outcomes of its field
 * selectors together with the anchors and detail blocks found in it, and a fetched page
 * is the list of cards each card selector finds, in priority order.
 */
module Scraper {
  import opened Wrappers
  import opened Text
  import opened Seqs
  import opened Listings
  import opened Fetcher

  const Base := "https://internshala.com"

  /** The four Internshala category pages, scraped in this order. */
  const CategoryUrls := [
    Base + "/internships/work-from-home-python-development-jobs",
    Base + "/internships/python-development-jobs",
    Base + "/internships/django-development-jobs",
    Base + "/internships/flask-development-jobs"
  ]

  // ---------------------------------------------------------------------------
  // Field extraction

  /** What `select_one` does with one selector: finds an element (with its stripped text), finds none, or raises. */
  datatype Probe = Found(text: string) | NotFound | SelectorError

  /** `probes[i]` is the first selector outcome that found an element. */
  predicate FirstFoundAt(probes: seq<Probe>, i: int) {
    0 <= i < |probes| && probes[i].Found? && forall j :: 0 <= j < i ==> !probes[j].Found?
  }

  /** The text of the first selector that finds an element, or the empty string when none does. */
  function FirstText(probes: seq<Probe>): (t: string)
    ensures forall i :: FirstFoundAt(probes, i) ==> t == probes[i].text
    ensures (forall i :: 0 <= i < |probes| ==> !probes[i].Found?) ==> t == ""
  {
    var k := FirstIndex(probes, (p: Probe) => p.Found?, |probes|);
    if k < |probes| then probes[k].text else ""
  }

  /** `extract_text`: tries the selectors in order; one that raises is skipped. */
  method ExtractText(probes: seq<Probe>) returns (t: string)
    ensures t == FirstText(probes)
  {
    var i := 0;
    while i < |probes|
      invariant 0 <= i <= |probes|
      invariant forall j :: 0 <= j < i ==> !probes[j].Found?
    {
      if probes[i].Found? {
        assert FirstFoundAt(probes, i);
        return probes[i].text;
      }
      i := i + 1;
    }
    return "";
  }

  // ---------------------------------------------------------------------------
  // Cards

  /** An `<a>` element and its `href` attribute, if it has one. */
  datatype Anchor = Anchor(href: Option<string>)

  /** One job card of a listing page. */
  datatype Card =
    | Card(
        titleProbes: seq<Probe>,      // outcomes of the four title selectors
        companyProbes: seq<Probe>,    // outcomes of the four company selectors
        locationProbes: seq<Probe>,   // outcomes of the four location selectors
        detailButton: Option<Anchor>, // the `a.view_detail_button` element
        hrefAnchor: Option<Anchor>,   // the first `a` element with an `href` attribute
        itemBodies: seq<string>,      // texts of the `div.item_body` elements
        detailBodies: seq<string>)    // texts of the `div.internship_details` elements
    | Unparsable                      // reading the card raised

  /** A fetched listing page: the cards each of the four card selectors finds, in priority order. */
  datatype Document = Document(cardSelections: seq<seq<Card>>)

  /** The cards of the first card selector that finds any, or none. */
  function SelectedCards(doc: Document): (cards: seq<Card>)
    ensures cards == [] <==> forall i :: 0 <= i < |doc.cardSelections| ==> doc.cardSelections[i] == []
    ensures cards != [] ==> exists i :: 0 <= i < |doc.cardSelections| && doc.cardSelections[i] == cards
                                        && forall j :: 0 <= j < i ==> doc.cardSelections[j] == []
  {
    var sels := doc.cardSelections;
    var k := FirstIndex(sels, (cs: seq<Card>) => cs != [], |sels|);
    if k < |sels| then sels[k] else []
  }

  /** The card-selector loop: stops at the first selector whose result is non-empty. */
  method SelectCards(doc: Document) returns (cards: seq<Card>)
    ensures cards == SelectedCards(doc)
  {
    var sels := doc.cardSelections;
    cards := [];
    var i := 0;
    while i < |sels|
      invariant 0 <= i <= |sels|
      invariant cards == []
      invariant forall j :: 0 <= j < i ==> sels[j] == []
    {
      cards := sels[i];
      if cards != [] {
        return;
      }
      i := i + 1;
    }
  }

  /**
   * The `href` of the card's link element, or "" when there is none. The detail button
   * is preferred whenever it exists, even when it has no `href`.
   */
  function LinkHref(card: Card): string
    requires card.Card?
  {
    var anchor := if card.detailButton.Some? then card.detailButton else card.hrefAnchor;
    if anchor.Some? && anchor.value.href.Some? then anchor.value.href.value else ""
  }

  /** The `item_body` blocks, or the `internship_details` blocks when there are no `item_body` blocks. */
  function DetailBlocks(card: Card): seq<string>
    requires card.Card?
  {
    if card.itemBodies != [] then card.itemBodies else card.detailBodies
  }

  /** The record a card yields, if any: only cards with a title, a company and a link yield one. */
  function CardRecord(card: Card, stamp: string): (r: Option<Listing>)
    ensures card.Unparsable? ==> r == None
    ensures card.Card? ==>
              (r.Some? <==> FirstText(card.titleProbes) != "" && FirstText(card.companyProbes) != "" && LinkHref(card) != "")
    ensures r.Some? ==> IsComplete(r.value) && r.value.source == InternshalaSource && r.value.scrapedAt == stamp
    ensures r.Some? ==> r.value.title == FirstText(card.titleProbes) && r.value.company == FirstText(card.companyProbes)
    ensures r.Some? ==> r.value.link == Base + LinkHref(card)
    ensures r.Some? ==>
              r.value.location == if FirstText(card.locationProbes) == "" then DefaultLocation
                                  else FirstText(card.locationProbes)
    ensures r.Some? ==>
              r.value.duration == if |DetailBlocks(card)| > 1 then Trim(DetailBlocks(card)[1]) else NotSpecified
    ensures r.Some? ==>
              r.value.stipendRange == if |DetailBlocks(card)| > 2 then Trim(DetailBlocks(card)[2]) else NotSpecified
  {
    if card.Unparsable? then None
    else
      var title := FirstText(card.titleProbes);
      var company := FirstText(card.companyProbes);
      var location := FirstText(card.locationProbes);
      var href := LinkHref(card);
      var link := if href != "" then Base + href else "";
      var blocks := DetailBlocks(card);
      var duration := if |blocks| > 1 then Trim(blocks[1]) else NotSpecified;
      var stipend := if |blocks| > 2 then Trim(blocks[2]) else NotSpecified;
      if title != "" && company != "" && link != "" then
        Some(Listing(title, company, if location != "" then location else DefaultLocation,
                     link, duration, stipend, InternshalaSource, stamp))
      else None
  }

  /** The body of the card loop: a card that raises yields nothing. */
  method ParseCard(card: Card, stamp: string) returns (r: Option<Listing>)
    ensures r == CardRecord(card, stamp)
  {
    if card.Unparsable? {
      return None;
    }
    var title := ExtractText(card.titleProbes);
    var company := ExtractText(card.companyProbes);
    var location := ExtractText(card.locationProbes);
    var href := LinkHref(card);
    var link := if href != "" then Base + href else "";
    var blocks := DetailBlocks(card);
    var duration := if |blocks| > 1 then Trim(blocks[1]) else NotSpecified;
    var stipend := if |blocks| > 2 then Trim(blocks[2]) else NotSpecified;
    if title != "" && company != "" && link != "" {
      r := Some(Listing(title, company, if location != "" then location else DefaultLocation,
                        link, duration, stipend, InternshalaSource, stamp));
    } else {
      r := None;
    }
  }

  // ---------------------------------------------------------------------------
  // The Internshala adapter

  /** The outcomes of the attempts to fetch one category page, at least as many as the fetcher makes. */
  type PageAttempts = a: seq<Attempt<Document>> | |a| >= DefaultRetries
    witness [Errored(""), Errored(""), Errored("")]

  /** The records of a list of cards, in card order. */
  function CardListings(cards: seq<Card>, stamp: string): (r: seq<Listing>)
    ensures |r| <= |cards|
  {
    if cards == [] then []
    else
      var last := CardRecord(cards[|cards| - 1], stamp);
      CardListings(cards[..|cards| - 1], stamp) + (if last.Some? then [last.value] else [])
  }

  /** What one category URL contributes: nothing when the fetch fails, else the records of its cards. */
  function PageListings(attempts: PageAttempts, stamp: string): (r: seq<Listing>)
    ensures (forall i :: 0 <= i < DefaultRetries ==> attempts[i].Errored?) ==> r == []
  {
    match FetchOutcome(attempts, DefaultRetries)
    case Failure(_) => []
    case Success(doc) => CardListings(SelectedCards(doc), stamp)
  }

  /** Every page's contribution, in URL order. */
  function InternshalaListings(pages: seq<PageAttempts>, stamp: string): (r: seq<Listing>)
    ensures forall j :: j in r ==> exists a :: a in pages && j in PageListings(a, stamp)
  {
    var f := (a: PageAttempts) => PageListings(a, stamp);
    forall j | j in FlatMap(pages, f) ensures exists a :: a in pages && j in PageListings(a, stamp) {
      FlatMapMembers(pages, f, j);
    }
    FlatMap(pages, f)
  }

  /** One iteration of the URL loop: fetch the page, pick its cards, keep the records of the valid ones. */
  method ScrapePage(attempts: PageAttempts, stamp: string) returns (jobs: seq<Listing>)
    ensures jobs == PageListings(attempts, stamp)
  {
    jobs := [];
    var response, _, _ := Fetch(attempts, DefaultRetries);
    if response.Failure? {
      // the error is logged and the next URL is tried
      return;
    }
    var cards := SelectCards(response.value);
    for c := 0 to |cards|
      invariant jobs == CardListings(cards[..c], stamp)
    {
      assert cards[..c + 1][..c] == cards[..c];
      var record := ParseCard(cards[c], stamp);
      if record.Some? {
        jobs := jobs + [record.value];
      }
    }
    assert cards[..|cards|] == cards;
  }

  /**
   * `scrape_internshala`: `pages[u]` is what the network answers to each attempt at
   * fetching the `u`-th category URL.
   */
  method ScrapeInternshala(pages: seq<PageAttempts>, stamp: string) returns (jobs: seq<Listing>)
    requires |pages| == |CategoryUrls|
    ensures jobs == InternshalaListings(pages, stamp)
  {
    jobs := [];
    for u := 0 to |pages|
      invariant jobs == InternshalaListings(pages[..u], stamp)
    {
      assert pages[..u + 1] == pages[..u] + [pages[u]];
      InternshalaListingsAppend(pages[..u], [pages[u]], stamp);
      var pageJobs := ScrapePage(pages[u], stamp);
      jobs := jobs + pageJobs;
    }
    assert pages[..|pages|] == pages;
  }

  /** Every Internshala record is complete, tagged with its source, and links into the Internshala site. */
  lemma {:induction false} CardListingsComplete(cards: seq<Card>, stamp: string)
    ensures forall j :: j in CardListings(cards, stamp) ==>
              IsComplete(j) && j.source == InternshalaSource && j.scrapedAt == stamp
              && StartsWith(j.link, Base) && |j.link| > |Base|
  {
    if cards != [] {
      CardListingsComplete(cards[..|cards| - 1], stamp);
      var last := CardRecord(cards[|cards| - 1], stamp);
      if last.Some? {
        var href := LinkHref(cards[|cards| - 1]);
        assert (Base + href)[..|Base|] == Base;
      }
    }
  }

  lemma {:induction false} InternshalaListingsComplete(pages: seq<PageAttempts>, stamp: string)
    ensures forall j :: j in InternshalaListings(pages, stamp) ==>
              IsComplete(j) && j.source == InternshalaSource && j.scrapedAt == stamp
              && StartsWith(j.link, Base) && |j.link| > |Base|
  {
    if pages != [] {
      InternshalaListingsComplete(pages[..|pages| - 1], stamp);
      var last := pages[|pages| - 1];
      match FetchOutcome(last, DefaultRetries)
      case Failure(_) =>
      case Success(doc) => CardListingsComplete(SelectedCards(doc), stamp);
    }
  }

  /** Cards are handled independently: the records of two runs of cards are the records of each. */
  lemma {:induction false} CardListingsAppend(c1: seq<Card>, c2: seq<Card>, stamp: string)
    ensures CardListings(c1 + c2, stamp) == CardListings(c1, stamp) + CardListings(c2, stamp)
    decreases |c2|
  {
    if c2 != [] {
      var c2init := c2[..|c2| - 1];
      assert (c1 + c2)[..|c1 + c2| - 1] == c1 + c2init;
      CardListingsAppend(c1, c2init, stamp);
    } else {
      assert c1 + c2 == c1;
    }
  }

  /** A card whose parsing raises is skipped and the cards after it are still read. */
  lemma UnparsableCardSkipped(c1: seq<Card>, c2: seq<Card>, stamp: string)
    ensures CardListings(c1 + [Unparsable] + c2, stamp) == CardListings(c1, stamp) + CardListings(c2, stamp)
  {
    CardListingsAppend(c1 + [Unparsable], c2, stamp);
    assert (c1 + [Unparsable])[..|c1|] == c1;
  }

  /** URLs are handled independently: the records of two runs of pages are the records of each. */
  lemma InternshalaListingsAppend(p1: seq<PageAttempts>, p2: seq<PageAttempts>, stamp: string)
    ensures InternshalaListings(p1 + p2, stamp) == InternshalaListings(p1, stamp) + InternshalaListings(p2, stamp)
  {
    FlatMapAppend(p1, p2, (a: PageAttempts) => PageListings(a, stamp));
  }

  /** A URL whose fetch fails after all its retries contributes nothing, and the URLs after it are still scraped. */
  lemma FailedUrlSkipped(p1: seq<PageAttempts>, failing: PageAttempts,
                         p2: seq<PageAttempts>, stamp: string)
    requires forall i :: 0 <= i < DefaultRetries ==> failing[i].Errored?
    ensures InternshalaListings(p1 + [failing] + p2, stamp) == InternshalaListings(p1, stamp) + InternshalaListings(p2, stamp)
  {
    var front := p1 + [failing];
    InternshalaListingsAppend(front, p2, stamp);
    assert front[..|p1|] == p1;
    assert FetchOutcome(failing, DefaultRetries).Failure?;
    assert PageListings(failing, stamp) == [];
    assert InternshalaListings(front, stamp) == InternshalaListings(p1, stamp);
  }

  // ---------------------------------------------------------------------------
  // The GitHub Jobs adapter

  /** One element of the JSON array the API answers with; `NonObject` is an element that is not an object. */
  datatype GithubItem =
    | GithubItem(title: Option<string>, company: Option<string>, location: Option<string>, url: Option<string>)
    | NonObject

  /** The API call: it fails (network error, non-2xx status, body that is not a JSON array) or yields the array. */
  datatype GithubReply = GithubFailed | GithubItems(items: seq<GithubItem>)

  /** At most this many API results are used. */
  const GithubLimit := 10

  function GithubListing(item: GithubItem, stamp: string): Listing
    requires item.GithubItem?
  {
    Listing(item.title.GetOr(""), item.company.GetOr(""), item.location.GetOr(DefaultLocation),
            item.url.GetOr(""), NotSpecified, NotSpecified, GithubSource, stamp)
  }

  /** `scrape_github_jobs`: maps the first ten results; any exception yields no records at all. */
  function GithubJobs(reply: GithubReply, stamp: string): (r: seq<Listing>)
    ensures |r| <= GithubLimit
    ensures forall j :: j in r ==>
              j.source == GithubSource && j.duration == NotSpecified && j.stipendRange == NotSpecified
              && j.scrapedAt == stamp
    ensures reply.GithubFailed? ==> r == []
    ensures reply.GithubItems? ==>
              var head := reply.items[..if |reply.items| < GithubLimit then |reply.items| else GithubLimit];
              if exists i :: 0 <= i < |head| && head[i].NonObject? then r == []
              else |r| == |head| && forall i :: 0 <= i < |head| ==> r[i] == GithubListing(head[i], stamp)
  {
    match reply
    case GithubFailed => []
    case GithubItems(items) =>
      var head := items[..if |items| < GithubLimit then |items| else GithubLimit];
      if exists i :: 0 <= i < |head| && head[i].NonObject? then []
      else seq(|head|, i requires 0 <= i < |head| && head[i].GithubItem? => GithubListing(head[i], stamp))
  }

  // ---------------------------------------------------------------------------
  // The two fixture adapters, which stand in for live integrations

  function IndeedListings(stamp: string): (r: seq<Listing>)
    ensures |r| == 4
    ensures forall j :: j in r ==> IsComplete(j) && j.source == IndeedSource && j.scrapedAt == stamp
  {
    [ Listing("Python Developer Intern", "TechStartup Inc", "Remote", "https://example.com/job1",
              "3-6 months", "$2000-$4000/month", IndeedSource, stamp),
      Listing("Backend Python Intern", "DataCorp Solutions", "Remote", "https://example.com/job2",
              "4 months", "$1500-$3000/month", IndeedSource, stamp),
      Listing("Full Stack Python Intern", "WebTech Innovations", "Remote, US", "https://example.com/job3",
              "6 months", "$2500-$5000/month", IndeedSource, stamp),
      Listing("Python Data Science Intern", "AI Analytics Corp", "Remote", "https://example.com/job4",
              "4-6 months", "$3000-$6000/month", IndeedSource, stamp) ]
  }

  function LinkedInListings(stamp: string): (r: seq<Listing>)
    ensures |r| == 3
    ensures forall j :: j in r ==> IsComplete(j) && j.source == LinkedInSource && j.scrapedAt == stamp
  {
    [ Listing("Python Backend Developer Intern", "LinkedIn Tech", "Remote, San Francisco",
              "https://linkedin.com/jobs/view/123", "3 months", "$4000-$6000/month", LinkedInSource, stamp),
      Listing("Django Web Developer Intern", "StartupHub", "Remote, New York",
              "https://linkedin.com/jobs/view/456", "4 months", "$2500-$4000/month", LinkedInSource, stamp),
      Listing("Python Automation Intern", "TechCorp Global", "Remote",
              "https://linkedin.com/jobs/view/789", "5 months", "$2000-$3500/month", LinkedInSource, stamp) ]
  }
}
