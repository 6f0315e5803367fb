/**
 * The leaderboard page: only featured, approved records reach the table, and
 * the filter bar replaces the table's filter record as a whole.
 */
module LeaderboardPage {
  import opened Wrappers
  import opened Types
  import opened Lists
  import opened Sorting
  import opened LeaderboardTable

  /** A record the public leaderboard shows. */
  predicate OnLeaderboard(s: Submission)
  {
    s.status == Approved && s.featured
  }

  /** `approvedSubmissions`: the approved and featured records, in their original order. */
  function ApprovedSubmissions(all: seq<Submission>): (r: seq<Submission>)
    ensures |r| <= |all|
    ensures forall x :: x in r <==> x in all && x.status == Approved && x.featured
  {
    Filter(all, OnLeaderboard)
  }

  /** The page's list keeps the source order and drops only records it does not show. */
  lemma ApprovedKeepsOrder(all: seq<Submission>)
    ensures IsSubsequence(ApprovedSubmissions(all), all)
  {
    FilterIsSubsequence(all, OnLeaderboard);
  }

  /** The page holds the filter record the table receives. */
  class Page {
    var filters: LeaderboardFilters

    /** The filters start as the empty record. */
    constructor()
      ensures filters == NoFilters
    {
      filters := NoFilters;
    }

    /** `handleFilterChange`: the new record replaces the old one as a whole. */
    method HandleFilterChange(newFilters: LeaderboardFilters)
      modifies this
      ensures filters == newFilters
    {
      filters := newFilters;
    }

    /** The table the page shows for `all` under the current filters. */
    method Table(all: seq<Submission>) returns (table: Result<seq<CountGroup>, FilterError>)
      ensures table.Err? <==> FilterSubmissions(Dedupe(ApprovedSubmissions(all)), filters).Err?
      ensures table.Ok? ==>
        Flatten(table.value) == SortBy(Keep(Dedupe(ApprovedSubmissions(all)), filters), RankCompare)
      ensures table.Ok? ==> WellGrouped(table.value)
      ensures table.Ok? ==>
        RanksFrom(table.value, 0) == seq(|Keep(Dedupe(ApprovedSubmissions(all)), filters)|, i => i + 1)
    {
      table := BuildLeaderboard(ApprovedSubmissions(all), filters);
    }
  }

  /** Before any filter change the table applies no criterion: it shows every member's best record. */
  lemma InitialTableUnfiltered(all: seq<Submission>)
    ensures FilterSubmissions(Dedupe(ApprovedSubmissions(all)), NoFilters) == Ok(Dedupe(ApprovedSubmissions(all)))
    ensures Keep(Dedupe(ApprovedSubmissions(all)), NoFilters) == Dedupe(ApprovedSubmissions(all))
  {
    var d := Dedupe(ApprovedSubmissions(all));
    NoFiltersKeepAll(d);
    FilterSubmissionsSpec(d, NoFilters);
  }
}
