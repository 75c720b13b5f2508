/**
 * What the listing page computes from the served listings: the four-way filter, the
 * pagination, the filter facets, the rows of the CSV export and the check of the
 * subscription form.
 */
module Query {
  import opened Text
  import opened Seqs
  import opened Listings

  // ---------------------------------------------------------------------------
  // filtering

  /** The query parameters of the listing page as received; an empty one filters nothing. */
  datatype Filters = Filters(search: string, location: string, duration: string, stipend: string)

  const NoFilters := Filters("", "", "", "")

  /**
   * The page's test: the lowercased search is a substring of the lowercased title, the
   * location parameter a case-sensitive substring of the location, and duration and
   * stipend are equal to the listing's.
   */
  predicate Matches(j: Listing, f: Filters)
    ensures f.search == "" && f.location == "" && f.duration == "" && f.stipend == "" ==> Matches(j, f)
    ensures Matches(j, f) ==> |f.location| <= |j.location|
  {
    var query := Lower(f.search);
    && (query == "" || Contains(Lower(j.title), query))
    && (f.location == "" || Contains(j.location, f.location))
    && (f.duration == "" || f.duration == j.duration)
    && (f.stipend == "" || f.stipend == j.stipendRange)
  }

  /** The listings that match, in their served order. */
  function Filtered(jobs: seq<Listing>, f: Filters): (r: seq<Listing>)
    ensures |r| <= |jobs|
    ensures forall j :: j in r ==> j in jobs && Matches(j, f)
  {
    if jobs == [] then []
    else Filtered(jobs[..|jobs| - 1], f) + (if Matches(jobs[|jobs| - 1], f) then [jobs[|jobs| - 1]] else [])
  }

  /** The filtering loop of the listing page. */
  method FilterJobs(jobs: seq<Listing>, f: Filters) returns (filtered: seq<Listing>)
    ensures filtered == Filtered(jobs, f)
  {
    var query := Lower(f.search);
    filtered := [];
    for i := 0 to |jobs|
      invariant filtered == Filtered(jobs[..i], f)
    {
      assert jobs[..i + 1][..i] == jobs[..i];
      var job := jobs[i];
      if query != "" && !Contains(Lower(job.title), query) {
        continue;
      }
      if f.location != "" && !Contains(job.location, f.location) {
        continue;
      }
      if f.duration != "" && f.duration != job.duration {
        continue;
      }
      if f.stipend != "" && f.stipend != job.stipendRange {
        continue;
      }
      filtered := filtered + [job];
    }
    assert jobs[..|jobs|] == jobs;
  }

  /** A listing is kept exactly when it is served and matches; nothing is added. */
  lemma {:induction false} FilteredMembers(jobs: seq<Listing>, f: Filters)
    ensures |Filtered(jobs, f)| <= |jobs|
    ensures forall j :: j in Filtered(jobs, f) <==> j in jobs && Matches(j, f)
  {
    if jobs != [] {
      var init := jobs[..|jobs| - 1];
      FilteredMembers(init, f);
      assert jobs == init + [jobs[|jobs| - 1]];
    }
  }

  /** Filtering works listing by listing, so it keeps the served order. */
  lemma {:induction false} FilteredAppend(a: seq<Listing>, b: seq<Listing>, f: Filters)
    ensures Filtered(a + b, f) == Filtered(a, f) + Filtered(b, f)
  {
    if b != [] {
      var init := b[..|b| - 1];
      assert (a + b)[..|a + b| - 1] == a + init;
      FilteredAppend(a, init, f);
    } else {
      assert a + b == a;
    }
  }

  /** Without parameters every served listing is shown. */
  lemma {:induction false} FilteredNoFilters(jobs: seq<Listing>)
    ensures Filtered(jobs, NoFilters) == jobs
  {
    if jobs != [] {
      FilteredNoFilters(jobs[..|jobs| - 1]);
      assert jobs == jobs[..|jobs| - 1] + [jobs[|jobs| - 1]];
    }
  }

  /** Filtering the filtered list again changes nothing. */
  lemma {:induction false} FilteredIdempotent(jobs: seq<Listing>, f: Filters)
    ensures Filtered(Filtered(jobs, f), f) == Filtered(jobs, f)
  {
    if jobs != [] {
      var init, last := jobs[..|jobs| - 1], jobs[|jobs| - 1];
      assert init == jobs[..|jobs| - 1];
      FilteredIdempotent(init, f);
      if Matches(last, f) {
        assert Filtered(jobs, f) == Filtered(init, f) + [last];
        FilteredAppend(Filtered(init, f), [last], f);
        assert Filtered([last], f) == [last] by {
          assert [last][..0] == [];
        }
      } else {
        assert Filtered(jobs, f) == Filtered(init, f);
      }
    }
  }

  /** Lowering is idempotent, so the case of the search parameter never matters. */
  lemma SearchIgnoresCase(j: Listing, f: Filters)
    ensures Matches(j, f) <==> Matches(j, f.(search := Lower(f.search)))
  {
    assert Lower(Lower(f.search)) == Lower(f.search);
  }

  /** The search "python" finds a listing titled "Python Intern". */
  lemma SearchExample(j: Listing)
    requires j.title == "Python Intern"
    ensures Matches(j, Filters("python", "", "", ""))
  {
    var t := Lower(j.title);
    assert Lower("python") == "python";
    assert t[..6] == "python";
  }

  /** The search "java" does not find a listing titled "Python Intern". */
  lemma SearchMissExample(j: Listing)
    requires j.title == "Python Intern"
    ensures !Matches(j, Filters("java", "", "", ""))
  {
    var t := Lower(j.title);
    assert Lower("java") == "java";
    assert 'j' !in t;
    if Contains(t, "java") {
      ContainsFirstChar(t, "java");
    }
  }

  /** The location "Mumbai" finds a listing located in "Remote, Mumbai". */
  lemma LocationExample(j: Listing)
    requires j.location == "Remote, Mumbai"
    ensures Matches(j, Filters("", "Mumbai", "", ""))
  {
    var loc := j.location;
    ContainsAt(loc, "Mumbai");
    assert loc[8..14] == "Mumbai";
    assert OccursAt(loc, "Mumbai", 8);
  }

  /** The location "Delhi" does not find a listing located in "Remote, Mumbai". */
  lemma LocationMissExample(j: Listing)
    requires j.location == "Remote, Mumbai"
    ensures !Matches(j, Filters("", "Delhi", "", ""))
  {
    var loc := j.location;
    assert 'D' !in loc;
    if Contains(loc, "Delhi") {
      ContainsFirstChar(loc, "Delhi");
    }
  }

  // ---------------------------------------------------------------------------
  // pagination

  const PerPage := 10

  /** The number of pages: the least `t` with `n <= t * PerPage`. */
  function TotalPages(n: nat): (t: nat)
    ensures n <= t * PerPage < n + PerPage
  {
    (n + PerPage - 1) / PerPage
  }

  function Min(a: int, b: int): int {
    if a < b then a else b
  }

  /** The slice of page `page`, counted from 1: at most `PerPage` consecutive listings starting at `(page - 1) * PerPage`. */
  function PageOf<T>(xs: seq<T>, page: int): (r: seq<T>)
    requires page >= 1
    ensures |r| <= PerPage
    ensures |r| == if |xs| <= (page - 1) * PerPage then 0 else Min(PerPage, |xs| - (page - 1) * PerPage)
    ensures forall k :: 0 <= k < |r| ==> r[k] == xs[(page - 1) * PerPage + k]
  {
    xs[Min((page - 1) * PerPage, |xs|)..Min(page * PerPage, |xs|)]
  }

  /** A page past the last one is empty. */
  lemma PageBeyondTotal<T>(xs: seq<T>, page: int)
    requires page > TotalPages(|xs|)
    ensures PageOf(xs, page) == []
  {
  }

  /** Every page up to the last is non-empty, and every page before the last is full. */
  lemma PageWithinTotal<T>(xs: seq<T>, page: int)
    requires 1 <= page <= TotalPages(|xs|)
    ensures PageOf(xs, page) != []
    ensures page < TotalPages(|xs|) ==> |PageOf(xs, page)| == PerPage
  {
  }

  /** Pages 1 to `k` one after the other. */
  function FirstPages<T>(xs: seq<T>, k: nat): seq<T> {
    if k == 0 then [] else FirstPages(xs, k - 1) + PageOf(xs, k)
  }

  lemma {:induction false} FirstPagesPrefix<T>(xs: seq<T>, k: nat)
    ensures FirstPages(xs, k) == xs[..Min(k * PerPage, |xs|)]
  {
    if k > 0 {
      FirstPagesPrefix(xs, k - 1);
      var lo, hi := Min((k - 1) * PerPage, |xs|), Min(k * PerPage, |xs|);
      assert xs[..lo] + xs[lo..hi] == xs[..hi];
    }
  }

  /** The pages, read in order, hold every filtered listing exactly once. */
  lemma PagesCoverAll<T>(xs: seq<T>)
    ensures FirstPages(xs, TotalPages(|xs|)) == xs
  {
    FirstPagesPrefix(xs, TotalPages(|xs|));
    assert xs[..|xs|] == xs;
  }

  /** Twenty-three listings make three pages; the third holds three listings and the fourth none. */
  lemma PaginationExample<T>(xs: seq<T>)
    requires |xs| == 23
    ensures TotalPages(|xs|) == 3
    ensures PageOf(xs, 3) == xs[20..] && |PageOf(xs, 3)| == 3
    ensures PageOf(xs, 4) == []
  {
  }

  // ---------------------------------------------------------------------------
  // filter facets

  /** The stripped pieces of `parts`. */
  function TrimAll(parts: seq<string>): (r: seq<string>)
    ensures |r| == |parts| && forall k :: 0 <= k < |r| ==> r[k] == Trim(parts[k])
  {
    seq(|parts|, k requires 0 <= k < |parts| => Trim(parts[k]))
  }

  /** The comma-separated pieces of a listing's location, each stripped. */
  function Pieces(j: Listing): (r: seq<string>)
    ensures |r| == |Split(j.location, ',')|
    ensures forall k :: 0 <= k < |r| ==> r[k] == Trim(Split(j.location, ',')[k])
  {
    TrimAll(Split(j.location, ','))
  }

  /** Every piece of every location, in order. */
  function LocationPieces(jobs: seq<Listing>): seq<string> {
    FlatMap(jobs, Pieces)
  }

  /** The inner loop of `extract_all_locations`: adds the stripped pieces of one location to the sorted set. */
  method AddPieces(locations: seq<string>, pieces: seq<string>) returns (r: seq<string>)
    requires StrictlySorted(locations)
    ensures StrictlySorted(r)
    ensures forall y :: y in r <==> y in locations || y in pieces
  {
    r := locations;
    for k := 0 to |pieces|
      invariant StrictlySorted(r)
      invariant forall y :: y in r <==> y in locations || y in pieces[..k]
    {
      assert pieces[..k + 1] == pieces[..k] + [pieces[k]];
      r := InsertSorted(pieces[k], r);
    }
    assert pieces[..|pieces|] == pieces;
  }

  /** `extract_all_locations`: the pieces are gathered into a set, then sorted. */
  method ExtractAllLocations(jobs: seq<Listing>) returns (locations: seq<string>)
    ensures locations == SortedSet(LocationPieces(jobs))
  {
    locations := [];
    for i := 0 to |jobs|
      invariant StrictlySorted(locations)
      invariant forall y :: y in locations <==> y in LocationPieces(jobs[..i])
    {
      assert jobs[..i + 1][..i] == jobs[..i];
      locations := AddPieces(locations, Pieces(jobs[i]));
    }
    assert jobs[..|jobs|] == jobs;
    SortedUnique(locations, SortedSet(LocationPieces(jobs)));
  }

  /** The location facets are exactly the pieces of the served locations. */
  lemma LocationPiecesMembers(jobs: seq<Listing>, y: string)
    ensures y in LocationPieces(jobs) <==> exists j :: j in jobs && y in Pieces(j)
  {
    FlatMapMembers(jobs, Pieces, y);
  }

  /** Stripping keeps only characters of the stripped string. */
  lemma TrimKeepsOut(s: string, c: char)
    requires c !in s
    ensures c !in Trim(s)
  {
    var r := Trim(s);
    var i :| StrippedAt(s, r, i);
    forall k | 0 <= k < |r| ensures r[k] != c {
      assert r[k] == s[i..i + |r|][k] == s[i + k];
    }
  }

  /** A stripped piece contains no comma and carries no whitespace at either end. */
  lemma PieceClean(j: Listing, y: string)
    requires y in Pieces(j)
    ensures ',' !in y && (y == "" || (!IsSpace(y[0]) && !IsSpace(y[|y| - 1])))
  {
    var parts := Split(j.location, ',');
    var k :| 0 <= k < |Pieces(j)| && Pieces(j)[k] == y;
    assert y == Trim(parts[k]);
    TrimKeepsOut(parts[k], ',');
  }

  /** Location facets contain no comma and carry no whitespace at either end. */
  lemma LocationFacetsClean(jobs: seq<Listing>)
    ensures forall y :: y in SortedSet(LocationPieces(jobs)) ==>
              ',' !in y && (y == "" || (!IsSpace(y[0]) && !IsSpace(y[|y| - 1])))
  {
    forall y | y in SortedSet(LocationPieces(jobs))
      ensures ',' !in y && (y == "" || (!IsSpace(y[0]) && !IsSpace(y[|y| - 1])))
    {
      assert y in LocationPieces(jobs);
      LocationPiecesMembers(jobs, y);
      var j :| j in jobs && y in Pieces(j);
      PieceClean(j, y);
    }
  }

  /** The values of one field, listing by listing. */
  function Column(jobs: seq<Listing>, field: Listing -> string): (r: seq<string>)
    ensures forall v :: v in r <==> exists j :: j in jobs && field(j) == v
  {
    if jobs == [] then []
    else
      var r := Column(jobs[..|jobs| - 1], field) + [field(jobs[|jobs| - 1])];
      assert jobs == jobs[..|jobs| - 1] + [jobs[|jobs| - 1]];
      r
  }

  /** `extract_durations`: the distinct durations, sorted. */
  function ExtractDurations(jobs: seq<Listing>): (r: seq<string>)
    ensures StrictlySorted(r)
    ensures forall d :: d in r <==> exists j :: j in jobs && j.duration == d
  {
    SortedSet(Column(jobs, (j: Listing) => j.duration))
  }

  /** `extract_stipends`: the distinct stipend ranges, sorted. */
  function ExtractStipends(jobs: seq<Listing>): (r: seq<string>)
    ensures StrictlySorted(r)
    ensures forall s :: s in r <==> exists j :: j in jobs && j.stipendRange == s
  {
    SortedSet(Column(jobs, (j: Listing) => j.stipendRange))
  }

  // ---------------------------------------------------------------------------
  // CSV export

  const CsvHeader := "Title,Company,Location,Link\n"

  /** One exported line: commas in title, company and location become spaces; the link is written as it is. */
  function CsvRow(j: Listing): (r: string)
    ensures |r| == |j.title| + |j.company| + |j.location| + |j.link| + 4
    ensures r[|r| - 1] == '\n'
  {
    ReplaceChar(j.title, ',', ' ') + "," + ReplaceChar(j.company, ',', ' ') + ","
    + ReplaceChar(j.location, ',', ' ') + "," + j.link + "\n"
  }

  /** The lines the export streams: the header, then one row per served listing. */
  function CsvLines(jobs: seq<Listing>): (r: seq<string>)
    ensures |r| == |jobs| + 1 && r[0] == CsvHeader
    ensures forall i :: 0 <= i < |jobs| ==> r[i + 1] == CsvRow(jobs[i])
  {
    [CsvHeader] + seq(|jobs|, i requires 0 <= i < |jobs| => CsvRow(jobs[i]))
  }

  /**
   * A row read back as comma-separated values has the four columns of the header, the
   * first three being the scrubbed fields, which keep their length, whenever the link
   * has no comma.
   */
  lemma {:induction false} CsvRowFields(j: Listing)
    requires ',' !in j.link
    ensures var row := CsvRow(j);
            var title, company, location := ReplaceChar(j.title, ',', ' '), ReplaceChar(j.company, ',', ' '), ReplaceChar(j.location, ',', ' ');
            && row[|row| - 1] == '\n'
            && Split(row[..|row| - 1], ',') == [title, company, location, j.link]
            && |title| == |j.title| && |company| == |j.company| && |location| == |j.location|
  {
    var row := CsvRow(j);
    var title, company, location := ReplaceChar(j.title, ',', ' '), ReplaceChar(j.company, ',', ' '), ReplaceChar(j.location, ',', ' ');
    assert row[..|row| - 1] == title + [','] + (company + [','] + (location + [','] + j.link));
    SplitAfterField(title, company + [','] + (location + [','] + j.link), ',');
    SplitAfterField(company, location + [','] + j.link, ',');
    SplitAfterField(location, j.link, ',');
    SplitNoSep(j.link, ',');
  }

  /** A title "Foo, Bar" is exported as "Foo  Bar". */
  lemma CsvScrubExample()
    ensures ReplaceChar("Foo, Bar", ',', ' ') == "Foo  Bar"
  {
  }

  /** The header names the four columns. */
  lemma CsvHeaderFields()
    ensures Split(CsvHeader[..|CsvHeader| - 1], ',') == ["Title", "Company", "Location", "Link"]
  {
    assert CsvHeader[..|CsvHeader| - 1] == "Title" + [','] + ("Company" + [','] + ("Location" + [','] + "Link"));
    SplitAfterField("Title", "Company" + [','] + ("Location" + [','] + "Link"), ',');
    SplitAfterField("Company", "Location" + [','] + "Link", ',');
    SplitAfterField("Location", "Link", ',');
    SplitNoSep("Link", ',');
  }

  // ---------------------------------------------------------------------------
  // subscription form

  /** What the form check decides: a message to send to `recipient`, or the reason it is refused. */
  datatype Subscription = MissingEmail | InvalidEmail | Accepted(recipient: string, body: string)

  /** The lines of the confirmation message: a heading, then the four saved criteria. */
  function AlertLines(search: string, location: string, duration: string, stipend: string): seq<string> {
    ["You're subscribed for alerts with:", "Search: " + search, "Location: " + location,
     "Duration: " + duration, "Stipend: " + stipend]
  }

  /** The confirmation message: its lines separated by line breaks. */
  function AlertBody(search: string, location: string, duration: string, stipend: string): string {
    Join(AlertLines(search, location, duration, stipend), '\n')
  }

  /** The form check: the stripped address must be non-empty and contain both `@` and `.`. */
  function Subscribe(email: string, search: string, location: string, duration: string, stipend: string): (r: Subscription)
    ensures r.MissingEmail? <==> Trim(email) == ""
    ensures r.InvalidEmail? <==> Trim(email) != "" && ('@' !in Trim(email) || '.' !in Trim(email))
    ensures r.Accepted? ==> r.recipient == Trim(email) && '@' in r.recipient && '.' in r.recipient
    ensures r.Accepted? ==> r.body == AlertBody(search, location, duration, stipend)
  {
    var address := Trim(email);
    if address == "" then MissingEmail
    else if '@' !in address || '.' !in address then InvalidEmail
    else Accepted(address, AlertBody(search, location, duration, stipend))
  }

  /** The confirmation message reads back as its five lines whenever no criterion holds a line break. */
  lemma AlertBodyLines(search: string, location: string, duration: string, stipend: string)
    requires '\n' !in search && '\n' !in location && '\n' !in duration && '\n' !in stipend
    ensures Split(AlertBody(search, location, duration, stipend), '\n') == AlertLines(search, location, duration, stipend)
  {
    assert '\n' !in "Search: " + search;
    assert '\n' !in "Location: " + location;
    assert '\n' !in "Duration: " + duration;
    assert '\n' !in "Stipend: " + stipend;
    SplitJoin(AlertLines(search, location, duration, stipend), '\n');
  }
}
