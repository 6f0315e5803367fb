/**
 * The administrator's review queue: rows from the store are normalised into
 * submissions, shown under a status filter and counted per status.
 */
module AdminDashboard {
  import opened Wrappers
  import opened Lists

  // ---------------------------------------------------------------------------
  // Rows

  /** A submission row as the store returns it, joined with its author's email. */
  datatype RawRow = RawRow(
    id: string,
    authEmail: Option<string>,
    age: int,
    gender: string,
    region: string,
    clubAffiliation: Option<string>,
    pullUpCount: nat,
    actualPullUpCount: Option<nat>,
    videoUrl: string,
    createdAt: string,
    status: string)

  /** A row of the queue. The status is text: whatever the store holds, capitalised. */
  datatype AdminRow = AdminRow(
    id: string,
    fullName: string,
    email: string,
    age: int,
    gender: string,
    region: string,
    clubAffiliation: string,
    pullUpCount: nat,
    actualPullUpCount: Option<nat>,
    videoLink: string,
    submissionDate: string,
    status: string,
    featured: bool)

  function UpperAscii(c: char): char
  {
    if 'a' <= c <= 'z' then (c as int - 32) as char else c
  }

  function LowerAscii(c: char): char
  {
    if 'A' <= c <= 'Z' then (c as int + 32) as char else c
  }

  /** `s.charAt(0).toUpperCase() + s.slice(1)`. */
  function Capitalize(s: string): (r: string)
    ensures |r| == |s|
    ensures s != [] ==> r[0] == UpperAscii(s[0]) && r[1..] == s[1..]
  {
    if s == [] then "" else [UpperAscii(s[0])] + s[1..]
  }

  /** `s.toLowerCase()`. */
  function Lower(s: string): (r: string)
    ensures |r| == |s|
    ensures forall i :: 0 <= i < |s| ==> r[i] == LowerAscii(s[i])
  {
    seq(|s|, i requires 0 <= i < |s| => LowerAscii(s[i]))
  }

  /** Capitalising never changes what a lower-case comparison sees. */
  lemma LowerOfCapitalize(s: string)
    ensures Lower(Capitalize(s)) == Lower(s)
  {
    if s != [] {
      var c := Capitalize(s);
      forall i | 0 <= i < |s| ensures Lower(c)[i] == Lower(s)[i] {
        if i > 0 {
          assert c[i] == c[1..][i - 1] == s[1..][i - 1] == s[i];
        }
      }
    }
  }

  /** `s.split('@')[0]`: the text before the first '@', or all of it. */
  function BeforeAt(s: string): (r: string)
    ensures |r| <= |s| && r == s[..|r|]
    ensures '@' !in r
    ensures |r| < |s| ==> s[|r|] == '@'
  {
    if s == [] || s[0] == '@' then ""
    else [s[0]] + BeforeAt(s[1..])
  }

  /** `email?.split('@')[0] || 'Unknown'`. */
  function DisplayName(email: Option<string>): (name: string)
    ensures email.None? ==> name == "Unknown"
    ensures email.Some? && BeforeAt(email.value) != "" ==> name == BeforeAt(email.value)
    ensures email.Some? && BeforeAt(email.value) == "" ==> name == "Unknown"
  {
    if email.None? || BeforeAt(email.value) == "" then "Unknown" else BeforeAt(email.value)
  }

  /** `value || fallback` for a text that may be null. */
  function OrDefault(o: Option<string>, fallback: string): (s: string)
    ensures o.Some? && o.value != "" ==> s == o.value
    ensures o.None? || o.value == "" ==> s == fallback
  {
    if o.Some? && o.value != "" then o.value else fallback
  }

  /** The mapping of one fetched row onto the page's record. */
  function Normalise(raw: RawRow): (row: AdminRow)
    ensures row.status == Capitalize(raw.status)
    ensures row.featured <==> raw.status == "approved"
    ensures row.fullName == DisplayName(raw.authEmail)
    ensures row.email == OrDefault(raw.authEmail, "Unknown")
    ensures row.clubAffiliation == OrDefault(raw.clubAffiliation, "None")
    ensures row.id == raw.id && row.pullUpCount == raw.pullUpCount && row.actualPullUpCount == raw.actualPullUpCount
  {
    AdminRow(
      raw.id,
      DisplayName(raw.authEmail),
      OrDefault(raw.authEmail, "Unknown"),
      raw.age,
      raw.gender,
      raw.region,
      OrDefault(raw.clubAffiliation, "None"),
      raw.pullUpCount,
      raw.actualPullUpCount,
      raw.videoUrl,
      raw.createdAt,
      Capitalize(raw.status),
      raw.status == "approved")
  }

  /** The statuses the store writes come out as the names the counters look for. */
  lemma StoredStatusesNormalise()
    ensures Capitalize("pending") == "Pending"
    ensures Capitalize("approved") == "Approved"
    ensures Capitalize("rejected") == "Rejected"
  {
    assert "pending"[1..] == "ending";
    assert "approved"[1..] == "pproved";
    assert "rejected"[1..] == "ejected";
  }

  /**
   * A featured row always shows 'Approved'; the converse needs the stored
   * status in lower case, since 'featured' tests the raw text exactly.
   */
  lemma FeaturedMeansApproved(raw: RawRow)
    ensures Normalise(raw).featured ==> Normalise(raw).status == "Approved"
    ensures Normalise(raw).status == "Approved" && raw.status != "Approved" ==> Normalise(raw).featured
    ensures raw.status == "Approved" ==> Normalise(raw).status == "Approved" && !Normalise(raw).featured
  {
    if Normalise(raw).status == "Approved" {
      var c := Capitalize(raw.status);
      assert raw.status[1..] == c[1..] == "pproved";
      assert raw.status == [raw.status[0]] + raw.status[1..];
    }
  }

  function NormaliseAll(raws: seq<RawRow>): (rows: seq<AdminRow>)
    ensures |rows| == |raws|
    ensures forall i :: 0 <= i < |raws| ==> rows[i] == Normalise(raws[i])
  {
    seq(|raws|, i requires 0 <= i < |raws| => Normalise(raws[i]))
  }

  // ---------------------------------------------------------------------------
  // The status filter and the counters

  datatype FilterStatus = All | PendingOnly | ApprovedOnly | RejectedOnly

  function FilterName(f: FilterStatus): string
  {
    match f
    case All => "all"
    case PendingOnly => "pending"
    case ApprovedOnly => "approved"
    case RejectedOnly => "rejected"
  }

  /** The test of `filteredSubmissions`: 'all' passes everything, a status compares in lower case. */
  predicate ShownUnder(f: FilterStatus, x: AdminRow)
  {
    f == All || Lower(x.status) == FilterName(f)
  }

  /** `filteredSubmissions`. */
  function FilteredSubmissions(rows: seq<AdminRow>, f: FilterStatus): (r: seq<AdminRow>)
    ensures f == All ==> r == rows
    ensures f != All ==> forall x :: x in r <==> x in rows && Lower(x.status) == FilterName(f)
  {
    if f == All then
      FilterAll(rows, x => ShownUnder(f, x));
      Filter(rows, x => ShownUnder(f, x))
    else
      Filter(rows, x => ShownUnder(f, x))
  }

  lemma FilteredInOrder(rows: seq<AdminRow>, f: FilterStatus)
    ensures IsSubsequence(FilteredSubmissions(rows, f), rows)
  {
    FilterIsSubsequence(rows, x => ShownUnder(f, x));
  }

  /** A normalised row passes a status filter exactly when its stored status does, ignoring case. */
  lemma FilterSeesStoredStatus(raw: RawRow, f: FilterStatus)
    requires f != All
    ensures Lower(Normalise(raw).status) == FilterName(f) <==> Lower(raw.status) == FilterName(f)
  {
    LowerOfCapitalize(raw.status);
  }

  /** The statuses of the rows, in order. */
  function Statuses(rows: seq<AdminRow>): (r: seq<string>)
    ensures |r| == |rows| && forall i :: 0 <= i < |rows| ==> r[i] == rows[i].status
  {
    seq(|rows|, i requires 0 <= i < |rows| => rows[i].status)
  }

  /** The number of rows whose status is exactly `status`. */
  function CountStatus(rows: seq<AdminRow>, status: string): (n: nat)
    ensures n <= |rows|
    ensures n == multiset(Statuses(rows))[status]
  {
    CountIsOccurrences(rows, status);
    |Filter(rows, x => HasStatus(status, x))|
  }

  /** Filtering on the status keeps one row per occurrence of that status. */
  lemma {:induction false} CountIsOccurrences(rows: seq<AdminRow>, status: string)
    ensures |Filter(rows, x => HasStatus(status, x))| == multiset(Statuses(rows))[status]
  {
    if rows != [] {
      CountIsOccurrences(rows[1..], status);
      assert Statuses(rows) == [rows[0].status] + Statuses(rows[1..]);
    }
  }

  predicate HasStatus(status: string, x: AdminRow)
  {
    x.status == status
  }

  datatype Counts = Counts(pending: nat, approved: nat, rejected: nat)

  /** `counts`: exact matches on the capitalised names. */
  function CountsOf(rows: seq<AdminRow>): (c: Counts)
    ensures c.pending == multiset(Statuses(rows))["Pending"]
    ensures c.approved == multiset(Statuses(rows))["Approved"]
    ensures c.rejected == multiset(Statuses(rows))["Rejected"]
  {
    Counts(CountStatus(rows, "Pending"), CountStatus(rows, "Approved"), CountStatus(rows, "Rejected"))
  }

  predicate KnownStatus(x: AdminRow)
  {
    x.status == "Pending" || x.status == "Approved" || x.status == "Rejected"
  }

  /** When every status is one of the three names, the counters add up to the 'All' total. */
  lemma {:induction false} CountsAddUp(rows: seq<AdminRow>)
    requires forall i :: 0 <= i < |rows| ==> KnownStatus(rows[i])
    ensures CountsOf(rows).pending + CountsOf(rows).approved + CountsOf(rows).rejected == |rows|
  {
    if rows != [] {
      CountsAddUp(rows[1..]);
    }
  }

  /** A counter never exceeds its tab: the tab also matches other spellings of the same status. */
  lemma CountBelowTab(rows: seq<AdminRow>, f: FilterStatus)
    requires f != All
    ensures CountStatus(rows, Capitalize(FilterName(f))) <= |FilteredSubmissions(rows, f)|
  {
    var name := FilterName(f);
    LowerOfCapitalize(name);
    assert Lower(name) == name;
    FilterLengthMonotone(rows, x => HasStatus(Capitalize(name), x), x => ShownUnder(f, x));
  }

  // ---------------------------------------------------------------------------
  // The page's state

  const FetchFailed := "Failed to fetch submissions"

  class Page {
    var submissions: seq<AdminRow>
    var currentFilter: FilterStatus
    var isLoading: bool
    var loadingError: Option<string>

    /** The first render: nothing loaded yet, the pending tab selected, loading under way. */
    constructor()
      ensures submissions == [] && currentFilter == PendingOnly && isLoading && loadingError.None?
    {
      submissions := [];
      currentFilter := PendingOnly;
      isLoading := true;
      loadingError := None;
    }

    /** The rows the page lists. */
    function Visible(): (r: seq<AdminRow>)
      reads this
      ensures currentFilter == All ==> r == submissions
      ensures currentFilter != All ==>
        forall x :: x in r <==> x in submissions && Lower(x.status) == FilterName(currentFilter)
      ensures IsSubsequence(r, submissions)
    {
      FilteredInOrder(submissions, currentFilter);
      FilteredSubmissions(submissions, currentFilter)
    }

    /** A tab click. */
    method SetFilter(f: FilterStatus)
      modifies this
      ensures currentFilter == f
      ensures submissions == old(submissions) && isLoading == old(isLoading) && loadingError == old(loadingError)
    {
      currentFilter := f;
    }

    /**
     * `fetchSubmissions`, with the query's outcome as a parameter: the rows
     * on success, what was thrown otherwise.
     */
    method FetchSubmissions(outcome: Result<seq<RawRow>, Thrown>)
      modifies this
      ensures outcome.Ok? ==> submissions == NormaliseAll(outcome.value) && loadingError.None?
      ensures outcome.Err? ==>
        submissions == old(submissions) && loadingError == Some(MessageOr(outcome.error, FetchFailed))
      ensures currentFilter == old(currentFilter) && !isLoading
    {
      isLoading := true;
      loadingError := None;
      match outcome {
        case Ok(data) =>
          submissions := NormaliseAll(data);
        case Err(thrown) =>
          loadingError := Some(MessageOr(thrown, FetchFailed));
      }
      isLoading := false;
    }
  }
}
