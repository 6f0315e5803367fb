/**
 * The home page preview: the five approved records with the highest
 * claimed counts, numbered from 1.
 */
module LeaderboardPreview {
  import opened Wrappers
  import opened Types
  import opened Lists
  import opened Sorting
  import opened MockData

  /** The preview's comparator: claimed count, highest first. */
  function ClaimedCompare(a: Submission, b: Submission): int
  {
    b.pullUpCount - a.pullUpCount
  }

  lemma ClaimedCompareConsistent()
    ensures Consistent(ClaimedCompare)
  {
  }

  predicate IsApproved(s: Submission)
  {
    s.status == Approved
  }

  /** Every approved record, sorted by claimed count. */
  function PreviewOrder(all: seq<Submission>): seq<Submission>
  {
    SortBy(Filter(all, IsApproved), ClaimedCompare)
  }

  /** `topSubmissions`: filter, sort, then keep at most the first five. */
  function TopSubmissions(all: seq<Submission>): (top: seq<Submission>)
    ensures |top| <= 5
    ensures forall x :: x in top ==> x in all && x.status == Approved
  {
    var sorted := PreviewOrder(all);
    var shown := if |sorted| <= 5 then sorted else sorted[..5];
    forall x | x in shown ensures x in all && x.status == Approved {
      assert x in multiset(sorted);
      assert x in Filter(all, IsApproved);
    }
    shown
  }

  /** The preview is the sorted list cut after five rows. */
  lemma TopIsCut(all: seq<Submission>)
    ensures TopSubmissions(all) == Cut(PreviewOrder(all))
  {
  }

  /** At most the first five rows. */
  function Cut(xs: seq<Submission>): (r: seq<Submission>)
    ensures |r| == if |xs| <= 5 then |xs| else 5
    ensures r == xs[..|r|]
  {
    if |xs| <= 5 then xs else xs[..5]
  }

  /** Facts about the sorted list the preview is cut from. */
  lemma PreviewOrderSpec(all: seq<Submission>)
    ensures multiset(PreviewOrder(all)) == multiset(Filter(all, IsApproved))
    ensures forall i, j :: 0 <= i < j < |PreviewOrder(all)| ==>
      PreviewOrder(all)[i].pullUpCount >= PreviewOrder(all)[j].pullUpCount
    ensures TopSubmissions(all) == PreviewOrder(all)[..if |PreviewOrder(all)| <= 5 then |PreviewOrder(all)| else 5]
  {
    ClaimedCompareConsistent();
    SortBySorted(Filter(all, IsApproved), ClaimedCompare);
  }

  /** The preview is ordered by claimed count, highest first. */
  lemma TopOrdered(all: seq<Submission>)
    ensures forall i, j :: 0 <= i < j < |TopSubmissions(all)| ==>
      TopSubmissions(all)[i].pullUpCount >= TopSubmissions(all)[j].pullUpCount
  {
    PreviewOrderSpec(all);
  }

  /** With five rows shown, no approved record left out claims more than the fifth row. */
  lemma OmittedDoNotOutrank(all: seq<Submission>, x: Submission)
    requires |TopSubmissions(all)| == 5
    requires x in all && x.status == Approved && x !in TopSubmissions(all)
    ensures x.pullUpCount <= TopSubmissions(all)[4].pullUpCount
  {
    PreviewOrderSpec(all);
    var sorted := PreviewOrder(all);
    assert x in Filter(all, IsApproved);
    assert x in multiset(sorted);
    var k :| 0 <= k < |sorted| && sorted[k] == x;
    var shown := sorted[..5];
    assert shown == TopSubmissions(all);
    assert forall i :: 0 <= i < 5 ==> shown[i] in shown && shown[i] == sorted[i];
    assert 5 <= k;
    assert sorted[4] == shown[4];
  }

  /** With fewer than five rows, every approved record is shown. */
  lemma ShortPreviewShowsAll(all: seq<Submission>)
    requires |TopSubmissions(all)| < 5
    ensures multiset(TopSubmissions(all)) == multiset(Filter(all, IsApproved))
  {
    PreviewOrderSpec(all);
  }

  /** A record with its reviewed count erased. */
  function ClaimView(s: Submission): (v: Submission)
    ensures v.actualPullUpCount.None?
    ensures v.(actualPullUpCount := s.actualPullUpCount) == s
  {
    s.(actualPullUpCount := None)
  }

  function ClaimViews(xs: seq<Submission>): (r: seq<Submission>)
    ensures |r| == |xs|
    ensures forall i :: 0 <= i < |xs| ==> r[i] == ClaimView(xs[i])
  {
    if xs == [] then [] else [ClaimView(xs[0])] + ClaimViews(xs[1..])
  }

  lemma {:induction false} ClaimViewsFilter(xs: seq<Submission>)
    ensures ClaimViews(Filter(xs, IsApproved)) == Filter(ClaimViews(xs), IsApproved)
  {
    if xs != [] {
      ClaimViewsFilter(xs[1..]);
      assert ClaimViews(xs)[1..] == ClaimViews(xs[1..]);
    }
  }

  lemma {:induction false} ClaimViewsInsert(x: Submission, s: seq<Submission>)
    ensures ClaimViews(Insert(x, s, ClaimedCompare)) == Insert(ClaimView(x), ClaimViews(s), ClaimedCompare)
  {
    if s != [] && ClaimedCompare(x, s[0]) > 0 {
      ClaimViewsInsert(x, s[1..]);
      assert ClaimViews(s)[1..] == ClaimViews(s[1..]);
    }
  }

  lemma {:induction false} ClaimViewsSort(s: seq<Submission>)
    ensures ClaimViews(SortBy(s, ClaimedCompare)) == SortBy(ClaimViews(s), ClaimedCompare)
  {
    if s != [] {
      ClaimViewsSort(s[1..]);
      ClaimViewsInsert(s[0], SortBy(s[1..], ClaimedCompare));
      assert ClaimViews(s)[1..] == ClaimViews(s[1..]);
    }
  }

  /**
   * The reviewed count plays no part: erasing every reviewed count before
   * building the preview gives the same rows as erasing it afterwards.
   */
  lemma ReviewNotConsulted(all: seq<Submission>)
    ensures TopSubmissions(ClaimViews(all)) == ClaimViews(TopSubmissions(all))
  {
    OrderIgnoresReview(all);
    TopIsCut(all);
    TopIsCut(ClaimViews(all));
    ClaimViewsCut(PreviewOrder(all));
  }

  /** Sorting the approved records commutes with erasing the reviewed counts. */
  lemma OrderIgnoresReview(all: seq<Submission>)
    ensures PreviewOrder(ClaimViews(all)) == ClaimViews(PreviewOrder(all))
  {
    ClaimViewsFilter(all);
    ClaimViewsSort(Filter(all, IsApproved));
  }

  /** So does cutting after five rows. */
  lemma ClaimViewsCut(xs: seq<Submission>)
    ensures Cut(ClaimViews(xs)) == ClaimViews(Cut(xs))
  {
    if |xs| > 5 {
      assert ClaimViews(xs)[..5] == ClaimViews(xs[..5]);
    }
  }

  /** One preview row: its rank, the claimed count it displays and the badges beside it. */
  datatype PreviewRow = PreviewRow(rank: nat, submission: Submission, shownCount: nat, badges: seq<Badge>)

  /** The rows as rendered: rank is position plus one, the count shown is the claimed count. */
  function PreviewRows(all: seq<Submission>): (rows: seq<PreviewRow>)
    ensures |rows| == |TopSubmissions(all)| <= 5
    ensures forall i :: 0 <= i < |rows| ==> 1 <= rows[i].rank <= |rows|
    ensures forall i, j :: 0 <= i < j < |rows| ==> rows[i].rank < rows[j].rank
    ensures forall i :: 0 <= i < |rows| ==>
      rows[i].submission == TopSubmissions(all)[i] && rows[i].shownCount == rows[i].submission.pullUpCount
  {
    var top := TopSubmissions(all);
    seq(|top|, i requires 0 <= i < |top| =>
      PreviewRow(i + 1, top[i], top[i].pullUpCount, GetBadgesForSubmission(top[i])))
  }
}
