/**
 * The leaderboard table: keep each member's best record, filter, sort by
 * count then date, group equal counts and number the rows.
 */
module LeaderboardTable {
  import opened Wrappers
  import opened Types
  import opened MockData
  import opened Sorting
  import opened Lists

  // ---------------------------------------------------------------------------
  // Keeping the best record per email

  /** Position of the first record with email `e`, or `|acc|` when there is none. */
  function FirstWithEmail(acc: seq<Submission>, e: string): (i: nat)
    ensures i <= |acc|
    ensures i < |acc| ==> acc[i].email == e
    ensures forall j :: 0 <= j < i ==> acc[j].email != e
  {
    if acc == [] then 0
    else if acc[0].email == e then 0
    else 1 + FirstWithEmail(acc[1..], e)
  }

  /** One step of the reduce: append a new email, or replace the kept record when `curr` counts strictly more. */
  function DedupeStep(acc: seq<Submission>, curr: Submission): seq<Submission>
  {
    var i := FirstWithEmail(acc, curr.email);
    if i == |acc| then acc + [curr]
    else if EffectiveCount(curr) > EffectiveCount(acc[i]) then acc[i := curr]
    else acc
  }

  /** The reduce over the whole list, from the left. */
  function Dedupe(s: seq<Submission>): seq<Submission>
  {
    if s == [] then [] else DedupeStep(Dedupe(s[..|s| - 1]), s[|s| - 1])
  }

  /**
   * `highestSubmissions`: the reduce with an accumulator array that is pushed to
   * and overwritten in place.
   */
  method HighestSubmissions(submissions: seq<Submission>) returns (highest: seq<Submission>)
    ensures highest == Dedupe(submissions)
  {
    var acc := new Submission[|submissions|](i requires 0 <= i < |submissions| => submissions[i]);
    var len := 0;
    var n := 0;
    while n < |submissions|
      invariant 0 <= len <= n <= |submissions|
      invariant acc[..len] == Dedupe(submissions[..n])
    {
      len := Absorb(acc, len, submissions[n]);
      assert submissions[..n + 1][..n] == submissions[..n];
      n := n + 1;
    }
    assert submissions[..n] == submissions;
    highest := acc[..len];
  }

  /**
   * The reduce callback on the accumulator `acc[..len]`: finds the kept record
   * with the same email, then pushes `curr` or overwrites that record in place.
   */
  method Absorb(acc: array<Submission>, len: nat, curr: Submission) returns (newLen: nat)
    requires len < acc.Length
    modifies acc
    ensures newLen <= len + 1
    ensures acc[..newLen] == DedupeStep(old(acc[..len]), curr)
  {
    ghost var before := acc[..len];
    var j := 0;
    while j < len && acc[j].email != curr.email
      invariant 0 <= j <= len
      invariant forall k :: 0 <= k < j ==> acc[k].email != curr.email
    {
      j := j + 1;
    }
    assert j == FirstWithEmail(before, curr.email);
    if j == len {
      acc[len] := curr;
      newLen := len + 1;
      assert acc[..newLen] == before + [curr];
    } else if EffectiveCount(curr) > EffectiveCount(acc[j]) {
      acc[j] := curr;
      newLen := len;
      assert acc[..newLen] == before[j := curr];
    } else {
      newLen := len;
    }
  }

  /** No two records share an email. */
  ghost predicate DistinctEmails(r: seq<Submission>)
  {
    forall i, j :: 0 <= i < j < |r| ==> r[i].email != r[j].email
  }

  /** The emails of a list, in order. */
  function Emails(r: seq<Submission>): (es: seq<string>)
    ensures |es| == |r| && forall i :: 0 <= i < |r| ==> es[i] == r[i].email
  {
    if r == [] then [] else Emails(r[..|r| - 1]) + [r[|r| - 1].email]
  }

  /** Each distinct email once, in order of first occurrence. */
  function FirstOccurrences(s: seq<Submission>): seq<string>
  {
    if s == [] then []
    else
      var prev := FirstOccurrences(s[..|s| - 1]);
      if s[|s| - 1].email in prev then prev else prev + [s[|s| - 1].email]
  }

  /** `r` is the record kept for its email in `s`: it occurs in `s`, and every earlier record with that email counts strictly less. */
  ghost predicate EarliestBest(s: seq<Submission>, r: Submission)
  {
    exists k :: 0 <= k < |s| && s[k] == r &&
      forall j :: 0 <= j < k && s[j].email == r.email ==> EffectiveCount(s[j]) < EffectiveCount(r)
  }

  /** A step appends exactly the emails not yet present. */
  lemma StepEmails(r: seq<Submission>, c: Submission)
    ensures Emails(DedupeStep(r, c)) == if c.email in Emails(r) then Emails(r) else Emails(r) + [c.email]
  {
    var i := FirstWithEmail(r, c.email);
    if i < |r| {
      assert Emails(r)[i] == c.email;
    } else {
      assert c.email !in Emails(r);
    }
  }

  lemma {:induction false} FirstOccurrencesMembers(s: seq<Submission>, e: string)
    ensures e in FirstOccurrences(s) <==> exists k :: 0 <= k < |s| && s[k].email == e
  {
    if s != [] {
      var p := s[..|s| - 1];
      FirstOccurrencesMembers(p, e);
      if e in FirstOccurrences(s) && !(e in FirstOccurrences(p)) {
        assert s[|s| - 1].email == e;
      }
      if exists k :: 0 <= k < |s| && s[k].email == e {
        var k :| 0 <= k < |s| && s[k].email == e;
        if k < |s| - 1 {
          assert p[k].email == e;
        }
      }
    }
  }

  lemma {:induction false} FirstOccurrencesDistinct(s: seq<Submission>)
    ensures forall i, j :: 0 <= i < j < |FirstOccurrences(s)| ==> FirstOccurrences(s)[i] != FirstOccurrences(s)[j]
  {
    if s != [] {
      FirstOccurrencesDistinct(s[..|s| - 1]);
    }
  }

  /** The kept records' emails are the input's distinct emails, in order of first occurrence. */
  lemma {:induction false} DedupeEmails(s: seq<Submission>)
    ensures Emails(Dedupe(s)) == FirstOccurrences(s)
    ensures DistinctEmails(Dedupe(s))
  {
    if s != [] {
      var p := s[..|s| - 1];
      DedupeEmails(p);
      StepEmails(Dedupe(p), s[|s| - 1]);
    }
    FirstOccurrencesDistinct(s);
    var r := Dedupe(s);
    forall i, j | 0 <= i < j < |r| ensures r[i].email != r[j].email {
      assert Emails(r)[i] == r[i].email && Emails(r)[j] == r[j].email;
    }
  }

  /** Every input email is kept, and every kept record is an input record. */
  lemma DedupeCovers(s: seq<Submission>)
    ensures forall k :: 0 <= k < |s| ==> s[k].email in Emails(Dedupe(s))
    ensures forall x :: x in Dedupe(s) ==> x in s
  {
    DedupeEmails(s);
    forall k | 0 <= k < |s| ensures s[k].email in Emails(Dedupe(s)) {
      FirstOccurrencesMembers(s, s[k].email);
    }
    DedupeEarliest(s);
  }

  /** No record of `s` counts more than the record kept for its email in `r`. */
  ghost predicate KeptBest(s: seq<Submission>, r: seq<Submission>)
  {
    forall i, k :: 0 <= i < |r| && 0 <= k < |s| && s[k].email == r[i].email ==>
      EffectiveCount(s[k]) <= EffectiveCount(r[i])
  }

  /** Every record of `r` is the earliest best of its email in `s`. */
  ghost predicate KeptEarliest(s: seq<Submission>, r: seq<Submission>)
  {
    forall i :: 0 <= i < |r| ==> EarliestBest(s, r[i])
  }

  /** An email absent from the kept list is absent from the input. */
  lemma AbsentEmail(p: seq<Submission>, r: seq<Submission>, e: string)
    requires Emails(r) == FirstOccurrences(p)
    requires FirstWithEmail(r, e) == |r|
    ensures forall k :: 0 <= k < |p| ==> p[k].email != e
  {
    assert e !in Emails(r);
    FirstOccurrencesMembers(p, e);
  }

  /** A record of `p + [c]` other than `c` itself is a record of `p`. */
  lemma SnocIndex(p: seq<Submission>, c: Submission)
    ensures forall k :: 0 <= k < |p| ==> (p + [c])[k] == p[k]
    ensures (p + [c])[|p|] == c
  {
  }

  /** The step's new list when `c` brings a new email. */
  lemma StepBestAppend(p: seq<Submission>, c: Submission, r: seq<Submission>)
    requires KeptBest(p, r) && FirstWithEmail(r, c.email) == |r|
    requires forall k :: 0 <= k < |p| ==> p[k].email != c.email
    ensures KeptBest(p + [c], r + [c])
  {
    var s := p + [c];
    var r' := r + [c];
    SnocIndex(p, c);
    forall j, k | 0 <= j < |r'| && 0 <= k < |s| && s[k].email == r'[j].email
      ensures EffectiveCount(s[k]) <= EffectiveCount(r'[j])
    {
      if j < |r| && k < |p| {
        assert r'[j] == r[j];
      }
    }
  }

  /** The step's new list when `c` replaces the kept record at `i`. */
  lemma StepBestReplace(p: seq<Submission>, c: Submission, r: seq<Submission>, i: nat)
    requires KeptBest(p, r) && DistinctEmails(r)
    requires i < |r| && r[i].email == c.email && EffectiveCount(c) > EffectiveCount(r[i])
    ensures KeptBest(p + [c], r[i := c])
  {
    var s := p + [c];
    var r' := r[i := c];
    SnocIndex(p, c);
    forall j, k | 0 <= j < |r'| && 0 <= k < |s| && s[k].email == r'[j].email
      ensures EffectiveCount(s[k]) <= EffectiveCount(r'[j])
    {
      if k < |p| {
        if j == i {
          assert p[k].email == r[i].email;
        } else {
          assert r'[j] == r[j];
        }
      }
    }
  }

  /** The step's list is unchanged when `c` does not beat the kept record at `i`. */
  lemma StepBestKeep(p: seq<Submission>, c: Submission, r: seq<Submission>, i: nat)
    requires KeptBest(p, r) && DistinctEmails(r)
    requires i < |r| && r[i].email == c.email && EffectiveCount(c) <= EffectiveCount(r[i])
    ensures KeptBest(p + [c], r)
  {
    var s := p + [c];
    SnocIndex(p, c);
    forall j, k | 0 <= j < |r| && 0 <= k < |s| && s[k].email == r[j].email
      ensures EffectiveCount(s[k]) <= EffectiveCount(r[j])
    {
    }
  }

  lemma StepBest(p: seq<Submission>, c: Submission, r: seq<Submission>)
    requires KeptBest(p, r) && DistinctEmails(r)
    requires FirstWithEmail(r, c.email) == |r| ==> forall k :: 0 <= k < |p| ==> p[k].email != c.email
    ensures KeptBest(p + [c], DedupeStep(r, c))
  {
    var i := FirstWithEmail(r, c.email);
    if i == |r| {
      StepBestAppend(p, c, r);
    } else if EffectiveCount(c) > EffectiveCount(r[i]) {
      StepBestReplace(p, c, r, i);
    } else {
      StepBestKeep(p, c, r, i);
    }
  }

  /** A record kept from before the step is still the earliest best in the longer input. */
  lemma EarliestExtends(p: seq<Submission>, c: Submission, x: Submission)
    requires EarliestBest(p, x)
    ensures EarliestBest(p + [c], x)
  {
    var k :| 0 <= k < |p| && p[k] == x &&
      forall m :: 0 <= m < k && p[m].email == x.email ==> EffectiveCount(p[m]) < EffectiveCount(x);
    SnocIndex(p, c);
    assert (p + [c])[k] == x;
  }

  /** The record `c`, when the step keeps it, is the earliest best in `p + [c]`. */
  lemma EarliestNew(p: seq<Submission>, c: Submission, r: seq<Submission>)
    requires KeptBest(p, r)
    requires FirstWithEmail(r, c.email) == |r| ==> forall k :: 0 <= k < |p| ==> p[k].email != c.email
    requires FirstWithEmail(r, c.email) < |r| ==> EffectiveCount(c) > EffectiveCount(r[FirstWithEmail(r, c.email)])
    ensures EarliestBest(p + [c], c)
  {
    var s := p + [c];
    var i := FirstWithEmail(r, c.email);
    SnocIndex(p, c);
    forall m | 0 <= m < |p| && s[m].email == c.email ensures EffectiveCount(s[m]) < EffectiveCount(c) {
      assert i < |r|;
      assert EffectiveCount(p[m]) <= EffectiveCount(r[i]);
    }
    assert s[|p|] == c;
  }

  lemma StepEarliest(p: seq<Submission>, c: Submission, r: seq<Submission>)
    requires KeptEarliest(p, r) && KeptBest(p, r)
    requires FirstWithEmail(r, c.email) == |r| ==> forall k :: 0 <= k < |p| ==> p[k].email != c.email
    ensures KeptEarliest(p + [c], DedupeStep(r, c))
  {
    var i := FirstWithEmail(r, c.email);
    var r' := DedupeStep(r, c);
    forall j | 0 <= j < |r'| ensures EarliestBest(p + [c], r'[j]) {
      if j < |r| && r'[j] == r[j] {
        EarliestExtends(p, c, r[j]);
      } else {
        EarliestNew(p, c, r);
      }
    }
  }

  /** The step's precondition, from what the reduce over `p` already kept. */
  lemma StepPremise(p: seq<Submission>, c: Submission)
    ensures DistinctEmails(Dedupe(p))
    ensures FirstWithEmail(Dedupe(p), c.email) == |Dedupe(p)| ==> forall k :: 0 <= k < |p| ==> p[k].email != c.email
  {
    DedupeEmails(p);
    if FirstWithEmail(Dedupe(p), c.email) == |Dedupe(p)| {
      AbsentEmail(p, Dedupe(p), c.email);
    }
  }

  /** No input record with the same email counts more than the kept one. */
  lemma {:induction false} DedupeBest(s: seq<Submission>)
    ensures KeptBest(s, Dedupe(s))
  {
    if s != [] {
      var p := s[..|s| - 1];
      var c := s[|s| - 1];
      DedupeBest(p);
      StepPremise(p, c);
      StepBest(p, c, Dedupe(p));
      assert p + [c] == s;
    }
  }

  /** Each kept record is the earliest input record reaching its email's best count. */
  lemma {:induction false} DedupeEarliest(s: seq<Submission>)
    ensures KeptEarliest(s, Dedupe(s))
  {
    if s != [] {
      var p := s[..|s| - 1];
      var c := s[|s| - 1];
      DedupeEarliest(p);
      DedupeBest(p);
      StepPremise(p, c);
      StepEarliest(p, c, Dedupe(p));
      assert p + [c] == s;
    }
  }

  /** On a list whose emails are already distinct the reduce changes nothing. */
  lemma {:induction false} DedupeOfDistinct(s: seq<Submission>)
    requires DistinctEmails(s)
    ensures Dedupe(s) == s
  {
    if s != [] {
      var p := s[..|s| - 1];
      DedupeOfDistinct(p);
      assert FirstWithEmail(p, s[|s| - 1].email) == |p|;
      assert p + [s[|s| - 1]] == s;
    }
  }

  /** Keeping the best record twice is the same as keeping it once. */
  lemma DedupeIdempotent(s: seq<Submission>)
    ensures Dedupe(Dedupe(s)) == Dedupe(s)
  {
    DedupeEmails(s);
    DedupeOfDistinct(Dedupe(s));
  }

  // ---------------------------------------------------------------------------
  // Filtering

  /** A filter field counts only when it is present and not the empty string. */
  predicate IsSet(criterion: Option<string>)
  {
    criterion.Some? && criterion.value != ""
  }

  /** The inclusive bounds of an age-group label; none for a label the table does not know. */
  datatype AgeBracket = AgeBracket(min: int, max: int)

  function AgeRange(group: string): (bounds: Option<AgeBracket>)
    ensures bounds.Some? <==> group in GetAgeGroups()
  {
    if group == "Under 18" then Some(AgeBracket(0, 17))
    else if group == "18-24" then Some(AgeBracket(18, 24))
    else if group == "25-29" then Some(AgeBracket(25, 29))
    else if group == "30-39" then Some(AgeBracket(30, 39))
    else if group == "40-49" then Some(AgeBracket(40, 49))
    else if group == "50+" then Some(AgeBracket(50, 200))
    else None
  }

  /** Looking up an unknown label yields `undefined`, and destructuring it throws. */
  datatype FilterError = UnknownAgeGroup(group: string)

  /** The filter callback, with its checks in source order. */
  function Passes(x: Submission, f: LeaderboardFilters): Result<bool, FilterError>
  {
    if IsSet(f.club) && x.clubAffiliation != f.club.value then Ok(false)
    else if IsSet(f.gender) && GenderName(x.gender) != f.gender.value then Ok(false)
    else if IsSet(f.region) && x.region != f.region.value then Ok(false)
    else if IsSet(f.ageGroup) && AgeRange(f.ageGroup.value).None? then Err(UnknownAgeGroup(f.ageGroup.value))
    else if IsSet(f.ageGroup) && (x.age < AgeRange(f.ageGroup.value).value.min || x.age > AgeRange(f.ageGroup.value).value.max) then Ok(false)
    else if IsSet(f.badge) && !(exists b :: b in GetBadgesForSubmission(x) && b.id == f.badge.value) then Ok(false)
    else Ok(true)
  }

  /** `filteredSubmissions`: the callback applied left to right; the first throw ends the filter. */
  function FilterSubmissions(xs: seq<Submission>, f: LeaderboardFilters): Result<seq<Submission>, FilterError>
  {
    if xs == [] then Ok([])
    else
      match Passes(xs[0], f)
      case Err(e) => Err(e)
      case Ok(keep) =>
        match FilterSubmissions(xs[1..], f)
        case Err(e) => Err(e)
        case Ok(rest) => Ok(if keep then [xs[0]] + rest else rest)
  }

  /** Each criterion on its own: it holds when unset. */
  predicate ClubOk(x: Submission, f: LeaderboardFilters) { IsSet(f.club) ==> x.clubAffiliation == f.club.value }
  predicate GenderOk(x: Submission, f: LeaderboardFilters) { IsSet(f.gender) ==> GenderName(x.gender) == f.gender.value }
  predicate RegionOk(x: Submission, f: LeaderboardFilters) { IsSet(f.region) ==> x.region == f.region.value }
  predicate AgeOk(x: Submission, f: LeaderboardFilters)
  {
    IsSet(f.ageGroup) ==>
      AgeRange(f.ageGroup.value).Some? &&
      AgeRange(f.ageGroup.value).value.min <= x.age <= AgeRange(f.ageGroup.value).value.max
  }
  predicate BadgeOk(x: Submission, f: LeaderboardFilters)
  {
    IsSet(f.badge) ==> SubmissionTier(x).Some? && TierId(SubmissionTier(x).value) == f.badge.value
  }

  /** The reference definition: a record is shown when every set criterion holds. */
  predicate Accepts(x: Submission, f: LeaderboardFilters)
  {
    ClubOk(x, f) && GenderOk(x, f) && RegionOk(x, f) && AgeOk(x, f) && BadgeOk(x, f)
  }

  /** The age label is unset or known, so the callback cannot throw. */
  predicate KnownAgeGroup(f: LeaderboardFilters)
  {
    IsSet(f.ageGroup) ==> AgeRange(f.ageGroup.value).Some?
  }

  /** A record reaches the age lookup when the club, gender and region checks let it through. */
  predicate ReachesAgeCheck(x: Submission, f: LeaderboardFilters)
  {
    ClubOk(x, f) && GenderOk(x, f) && RegionOk(x, f)
  }

  /** The callback agrees with the conjunction, and throws exactly when a record reaches an unknown label. */
  lemma PassesIsConjunction(x: Submission, f: LeaderboardFilters)
    ensures Passes(x, f).Err? <==> !KnownAgeGroup(f) && ReachesAgeCheck(x, f)
    ensures Passes(x, f).Ok? ==> Passes(x, f).value == Accepts(x, f)
  {
    BadgeCount(x);
    if IsSet(f.badge) && SubmissionTier(x).Some? && TierId(SubmissionTier(x).value) == f.badge.value {
      assert GetBadgesForSubmission(x)[0] in GetBadgesForSubmission(x);
    }
  }

  /** The filter, written as a filter by the reference predicate. */
  function Keep(xs: seq<Submission>, f: LeaderboardFilters): seq<Submission>
  {
    Filter(xs, x => Accepts(x, f))
  }

  /** The filter keeps exactly the accepted records, in order, unless some record reaches an unknown age label. */
  lemma {:induction false} FilterSubmissionsSpec(xs: seq<Submission>, f: LeaderboardFilters)
    ensures FilterSubmissions(xs, f).Err? <==> !KnownAgeGroup(f) && exists i :: 0 <= i < |xs| && ReachesAgeCheck(xs[i], f)
    ensures FilterSubmissions(xs, f).Ok? ==> FilterSubmissions(xs, f).value == Keep(xs, f)
  {
    if xs != [] {
      PassesIsConjunction(xs[0], f);
      FilterSubmissionsSpec(xs[1..], f);
      if exists i :: 0 <= i < |xs| && ReachesAgeCheck(xs[i], f) {
        var i :| 0 <= i < |xs| && ReachesAgeCheck(xs[i], f);
        if i > 0 {
          assert xs[1..][i - 1] == xs[i];
        }
      }
      if exists i :: 0 <= i < |xs[1..]| && ReachesAgeCheck(xs[1..][i], f) {
        var i :| 0 <= i < |xs[1..]| && ReachesAgeCheck(xs[1..][i], f);
        assert xs[i + 1] == xs[1..][i];
      }
    }
  }

  /** The filtered list is a subsequence of its input, holding exactly the accepted records. */
  lemma KeepIsSubsequence(xs: seq<Submission>, f: LeaderboardFilters)
    ensures IsSubsequence(Keep(xs, f), xs)
    ensures forall x :: x in Keep(xs, f) <==> x in xs && Accepts(x, f)
  {
    FilterIsSubsequence(xs, x => Accepts(x, f));
  }

  /** The empty filter record keeps everything and cannot throw. */
  lemma NoFiltersKeepAll(xs: seq<Submission>)
    ensures FilterSubmissions(xs, NoFilters) == Ok(xs)
  {
    FilterSubmissionsSpec(xs, NoFilters);
    FilterAll(xs, x => Accepts(x, NoFilters));
  }

  /** Two filter records with no criterion in common. */
  predicate Disjoint(f: LeaderboardFilters, g: LeaderboardFilters)
  {
    !(IsSet(f.club) && IsSet(g.club)) && !(IsSet(f.ageGroup) && IsSet(g.ageGroup)) &&
    !(IsSet(f.gender) && IsSet(g.gender)) && !(IsSet(f.badge) && IsSet(g.badge)) &&
    !(IsSet(f.region) && IsSet(g.region))
  }

  /** The criteria of both records together. */
  function Merge(f: LeaderboardFilters, g: LeaderboardFilters): LeaderboardFilters
  {
    LeaderboardFilters(
      if IsSet(f.club) then f.club else g.club,
      if IsSet(f.ageGroup) then f.ageGroup else g.ageGroup,
      if IsSet(f.gender) then f.gender else g.gender,
      if IsSet(f.badge) then f.badge else g.badge,
      if IsSet(f.region) then f.region else g.region)
  }

  /** Criteria compose: filtering by both at once is filtering by one and then the other. */
  lemma FilterComposes(xs: seq<Submission>, f: LeaderboardFilters, g: LeaderboardFilters)
    requires Disjoint(f, g)
    ensures Keep(xs, Merge(f, g)) == Keep(Keep(xs, f), g)
  {
    forall x ensures Accepts(x, Merge(f, g)) == (Accepts(x, f) && Accepts(x, g)) {
      MergeAccepts(x, f, g);
    }
    FilterTwice(xs, x => Accepts(x, f), x => Accepts(x, g), x => Accepts(x, Merge(f, g)));
  }

  /** A record meets merged criteria exactly when it meets both halves. */
  lemma MergeAccepts(x: Submission, f: LeaderboardFilters, g: LeaderboardFilters)
    requires Disjoint(f, g)
    ensures Accepts(x, Merge(f, g)) == (Accepts(x, f) && Accepts(x, g))
  {
  }

  /** The age brackets are inclusive at both ends. */
  lemma AgeBracketsInclusive(x: Submission, group: string)
    requires AgeRange(group).Some?
    requires x.age == AgeRange(group).value.min || x.age == AgeRange(group).value.max
    ensures AgeOk(x, NoFilters.(ageGroup := Some(group)))
  {
  }

  /** "50+" admits 50 and not 49. */
  lemma FiftyPlusBoundary(x: Submission)
    ensures AgeOk(x, NoFilters.(ageGroup := Some("50+"))) <==> 50 <= x.age <= 200
  {
  }

  /** Only a reviewed count decides: the claimed count changes no filter outcome once a reviewed count exists. */
  lemma FilterIgnoresClaim(x: Submission, claimed: nat, f: LeaderboardFilters)
    requires x.actualPullUpCount.Some?
    ensures Passes(x.(pullUpCount := claimed), f) == Passes(x, f)
  {
    ReviewedCountDecides(x, claimed);
  }

  // ---------------------------------------------------------------------------
  // Sorting

  /** The table's comparator: higher effective count first, then the later submission first. */
  function RankCompare(a: Submission, b: Submission): int
  {
    var aCount := EffectiveCount(a);
    var bCount := EffectiveCount(b);
    if bCount != aCount then bCount - aCount
    else b.submissionDate - a.submissionDate
  }

  /** `a` may be listed before `b`: it counts more, or counts the same and is not older. */
  predicate RankedBefore(a: Submission, b: Submission)
  {
    EffectiveCount(a) > EffectiveCount(b) ||
    (EffectiveCount(a) == EffectiveCount(b) && a.submissionDate >= b.submissionDate)
  }

  lemma RankCompareMeaning(a: Submission, b: Submission)
    ensures RankCompare(a, b) <= 0 <==> RankedBefore(a, b)
  {
  }

  lemma RankCompareConsistent()
    ensures Consistent(RankCompare)
  {
    forall a, b, c | RankCompare(a, b) <= 0 && RankCompare(b, c) <= 0 ensures RankCompare(a, c) <= 0 {
      RankCompareMeaning(a, b);
      RankCompareMeaning(b, c);
      RankCompareMeaning(a, c);
    }
  }

  /** `sortedSubmissions`: a permutation of the filtered list, by count descending, then date descending. */
  lemma SortedSubmissionsSpec(filtered: seq<Submission>)
    ensures multiset(SortBy(filtered, RankCompare)) == multiset(filtered)
    ensures |SortBy(filtered, RankCompare)| == |filtered|
    ensures forall i, j :: 0 <= i < j < |filtered| ==>
      RankedBefore(SortBy(filtered, RankCompare)[i], SortBy(filtered, RankCompare)[j])
  {
    RankCompareConsistent();
    SortBySorted(filtered, RankCompare);
    var r := SortBy(filtered, RankCompare);
    forall i, j | 0 <= i < j < |filtered| ensures RankedBefore(r[i], r[j]) {
      RankCompareMeaning(r[i], r[j]);
    }
  }

  // ---------------------------------------------------------------------------
  // Grouping by count

  /** The grouping reduce over the whole list: each record is pushed onto its count's list. */
  function GroupMap(s: seq<Submission>): map<nat, seq<Submission>>
  {
    if s == [] then map[]
    else
      var m := GroupMap(s[..|s| - 1]);
      var x := s[|s| - 1];
      var count := EffectiveCount(x);
      m[count := (if count in m then m[count] else []) + [x]]
  }

  /** `groupedSubmissions`: the reduce onto a mutable object keyed by count. */
  method GroupByCount(sorted: seq<Submission>) returns (groups: map<nat, seq<Submission>>)
    ensures groups == GroupMap(sorted)
  {
    groups := map[];
    var n := 0;
    while n < |sorted|
      invariant 0 <= n <= |sorted|
      invariant groups == GroupMap(sorted[..n])
    {
      var submission := sorted[n];
      var count := EffectiveCount(submission);
      if count !in groups {
        groups := groups[count := []];
      }
      groups := groups[count := groups[count] + [submission]];
      assert sorted[..n + 1][..n] == sorted[..n];
      n := n + 1;
    }
    assert sorted[..n] == sorted;
  }

  /** The records with a given effective count, in list order. */
  function WithCount(s: seq<Submission>, count: nat): seq<Submission>
  {
    Filter(s, x => EffectiveCount(x) == count)
  }

  /** Each count present in the list has one entry, holding exactly that count's records in list order. */
  lemma {:induction false} GroupMapIsPartition(s: seq<Submission>)
    ensures forall k :: k in GroupMap(s) <==> WithCount(s, k) != []
    ensures forall k :: k in GroupMap(s) ==> GroupMap(s)[k] == WithCount(s, k)
  {
    if s != [] {
      var p := s[..|s| - 1];
      var x := s[|s| - 1];
      GroupMapIsPartition(p);
      assert p + [x] == s;
      forall k ensures WithCount(s, k) == WithCount(p, k) + (if EffectiveCount(x) == k then [x] else []) {
        FilterConcat(p, [x], y => EffectiveCount(y) == k);
      }
    }
  }

  /** The greatest element of a non-empty set of counts. */
  function MaxKey(keys: set<nat>): (k: nat)
    requires keys != {}
    ensures k in keys && forall j :: j in keys ==> j <= k
  {
    MaxExists(keys);
    var k :| k in keys && forall j :: j in keys ==> j <= k;
    k
  }

  lemma MaxExists(keys: set<nat>)
    requires keys != {}
    ensures exists k :: k in keys && forall j :: j in keys ==> j <= k
  {
    var x :| x in keys;
    if keys != {x} {
      MaxExists(keys - {x});
      var k :| k in keys - {x} && forall j :: j in keys - {x} ==> j <= k;
      var best := if x > k then x else k;
      forall j | j in keys ensures j <= best {
        if j != x {
          assert j in keys - {x};
        }
      }
    } else {
      assert forall j :: j in keys ==> j <= x;
    }
  }

  datatype CountGroup = CountGroup(pullUpCount: nat, submissions: seq<Submission>)

  /** `groupsArray`: the entries of the grouping object, highest count first. */
  function GroupsArray(m: map<nat, seq<Submission>>): seq<CountGroup>
    decreases |m|
  {
    if m == map[] then []
    else
      assert m.Keys != {} by {
        var k :| k in m;
      }
      var top := MaxKey(m.Keys);
      [CountGroup(top, m[top])] + GroupsArray(m - {top})
  }

  /** All records of the groups, in display order. */
  function Flatten(groups: seq<CountGroup>): seq<Submission>
  {
    if groups == [] then [] else groups[0].submissions + Flatten(groups[1..])
  }

  /** Groups are non-empty, share one count each, and their counts strictly decrease. */
  ghost predicate WellGrouped(groups: seq<CountGroup>)
  {
    && (forall g :: 0 <= g < |groups| ==> groups[g].submissions != [])
    && (forall g, x :: 0 <= g < |groups| && x in groups[g].submissions ==> EffectiveCount(x) == groups[g].pullUpCount)
    && (forall g, h :: 0 <= g < h < |groups| ==> groups[g].pullUpCount > groups[h].pullUpCount)
  }

  /** Sorted by effective count, highest first. */
  ghost predicate CountDescending(s: seq<Submission>)
  {
    forall i, j :: 0 <= i < j < |s| ==> EffectiveCount(s[i]) >= EffectiveCount(s[j])
  }

  /** The entries of a map describing the count classes of `s`. */
  ghost predicate Describes(m: map<nat, seq<Submission>>, s: seq<Submission>)
  {
    && (forall k :: k in m <==> WithCount(s, k) != [])
    && (forall k :: k in m ==> m[k] == WithCount(s, k))
  }

  /** The first `n` records share the first record's count and all later ones count less. */
  lemma LeadingRun(s: seq<Submission>) returns (n: nat)
    requires s != [] && CountDescending(s)
    ensures 1 <= n <= |s|
    ensures forall i :: 0 <= i < n ==> EffectiveCount(s[i]) == EffectiveCount(s[0])
    ensures forall i :: n <= i < |s| ==> EffectiveCount(s[i]) < EffectiveCount(s[0])
  {
    n := 1;
    while n < |s| && EffectiveCount(s[n]) == EffectiveCount(s[0])
      invariant 1 <= n <= |s|
      invariant forall i :: 0 <= i < n ==> EffectiveCount(s[i]) == EffectiveCount(s[0])
    {
      n := n + 1;
    }
  }

  /** Cutting a list after its leading run of count `top` splits its count classes there. */
  lemma CountClassesSplit(s: seq<Submission>, n: nat, top: nat)
    requires 1 <= n <= |s|
    requires forall i :: 0 <= i < n ==> EffectiveCount(s[i]) == top
    requires forall i :: n <= i < |s| ==> EffectiveCount(s[i]) < top
    ensures WithCount(s, top) == s[..n]
    ensures WithCount(s[n..], top) == []
    ensures forall k :: k != top ==> WithCount(s, k) == WithCount(s[n..], k)
  {
    var head, rest := s[..n], s[n..];
    assert s == head + rest;
    FilterConcat(head, rest, x => EffectiveCount(x) == top);
    FilterAll(head, x => EffectiveCount(x) == top);
    FilterNone(rest, x => EffectiveCount(x) == top);
    forall k | k != top ensures WithCount(s, k) == WithCount(rest, k) {
      FilterConcat(head, rest, x => EffectiveCount(x) == k);
      FilterNone(head, x => EffectiveCount(x) == k);
    }
  }

  /** In a list sorted by count, the first record's count is the greatest key of its classes. */
  lemma FirstCountIsMaxKey(s: seq<Submission>, m: map<nat, seq<Submission>>)
    requires s != [] && CountDescending(s) && Describes(m, s)
    ensures EffectiveCount(s[0]) in m && MaxKey(m.Keys) == EffectiveCount(s[0])
  {
    var top := EffectiveCount(s[0]);
    assert s[0] in WithCount(s, top);
    forall k | k in m ensures k <= top {
      var w := WithCount(s, k);
      assert w[0] in w;
      var i :| 0 <= i < |s| && s[i] == w[0];
    }
  }

  /** The highest count's entry is the leading run of a sorted list; the other entries describe the rest. */
  lemma SplitFirstGroup(s: seq<Submission>, m: map<nat, seq<Submission>>) returns (n: nat)
    requires s != [] && CountDescending(s) && Describes(m, s)
    ensures 1 <= n <= |s|
    ensures EffectiveCount(s[0]) in m && MaxKey(m.Keys) == EffectiveCount(s[0])
    ensures m[EffectiveCount(s[0])] == s[..n]
    ensures forall x :: x in s[..n] ==> EffectiveCount(x) == EffectiveCount(s[0])
    ensures CountDescending(s[n..]) && Describes(m - {EffectiveCount(s[0])}, s[n..])
  {
    var top := EffectiveCount(s[0]);
    n := LeadingRun(s);
    CountClassesSplit(s, n, top);
    FirstCountIsMaxKey(s, m);
  }

  /** Each group is an entry of the map, and the counts strictly decrease. */
  lemma {:induction false} GroupsArrayEntries(m: map<nat, seq<Submission>>)
    ensures forall g :: 0 <= g < |GroupsArray(m)| ==>
      GroupsArray(m)[g].pullUpCount in m && m[GroupsArray(m)[g].pullUpCount] == GroupsArray(m)[g].submissions
    ensures forall g, h :: 0 <= g < h < |GroupsArray(m)| ==> GroupsArray(m)[g].pullUpCount > GroupsArray(m)[h].pullUpCount
    decreases |m|
  {
    if m != map[] {
      assert m.Keys != {} by {
        var k :| k in m;
      }
      var top := MaxKey(m.Keys);
      var m' := m - {top};
      GroupsArrayEntries(m');
      var groups := GroupsArray(m);
      assert groups == [CountGroup(top, m[top])] + GroupsArray(m');
      forall g | 0 < g < |groups| ensures groups[g] == GroupsArray(m')[g - 1] && groups[g].pullUpCount < top {
        assert groups[g] == GroupsArray(m')[g - 1];
        assert groups[g].pullUpCount in m';
      }
    }
  }

  /** On a list sorted by count, the groups read in order give back the list. */
  lemma {:induction false} GroupsArrayFlattens(s: seq<Submission>, m: map<nat, seq<Submission>>)
    requires CountDescending(s) && Describes(m, s)
    ensures Flatten(GroupsArray(m)) == s
    decreases |s|
  {
    if s == [] {
      assert forall k :: |WithCount(s, k)| == 0;
      assert m.Keys == {};
      return;
    }
    var top := EffectiveCount(s[0]);
    var n := SplitFirstGroup(s, m);
    var m' := m - {top};
    GroupsArrayHead(m, top);
    GroupsArrayFlattens(s[n..], m');
    assert s[..n] + s[n..] == s;
  }

  /** The first group is the entry of the greatest count. */
  lemma GroupsArrayHead(m: map<nat, seq<Submission>>, top: nat)
    requires top in m && MaxKey(m.Keys) == top
    ensures GroupsArray(m) == [CountGroup(top, m[top])] + GroupsArray(m - {top})
  {
    assert m != map[];
  }

  /** The groups of a map describing a list are non-empty, single-count and strictly descending. */
  lemma GroupsArrayWellGrouped(s: seq<Submission>, m: map<nat, seq<Submission>>)
    requires Describes(m, s)
    ensures WellGrouped(GroupsArray(m))
  {
    GroupsArrayEntries(m);
  }

  // ---------------------------------------------------------------------------
  // Ranks

  /** Number of records in the groups (the `slice(0, i).reduce` sum). */
  function TotalSize(groups: seq<CountGroup>): nat
  {
    if groups == [] then 0 else TotalSize(groups[..|groups| - 1]) + |groups[|groups| - 1].submissions|
  }

  /** `currentRank`: one more than the number of records in earlier groups. */
  function CurrentRank(groups: seq<CountGroup>, gi: nat): nat
    requires gi <= |groups|
  {
    TotalSize(groups[..gi]) + 1
  }

  /** The last rank of a group's range, `currentRank + length - 1`. */
  function RangeEnd(groups: seq<CountGroup>, gi: nat): int
    requires gi < |groups|
  {
    CurrentRank(groups, gi) + |groups[gi].submissions| - 1
  }

  /** The rank printed on a row of a group. */
  function RowRank(groups: seq<CountGroup>, gi: nat, index: nat): nat
    requires gi < |groups|
  {
    if |groups[gi].submissions| > 1 then CurrentRank(groups, gi) + index else CurrentRank(groups, gi)
  }

  /** The rank column from group `gi` on, in display order. */
  function RanksFrom(groups: seq<CountGroup>, gi: nat): seq<nat>
    requires gi <= |groups|
    decreases |groups| - gi
  {
    if gi == |groups| then []
    else seq(|groups[gi].submissions|, i requires 0 <= i => RowRank(groups, gi, i)) + RanksFrom(groups, gi + 1)
  }

  lemma {:induction false} RanksFromCount(groups: seq<CountGroup>, gi: nat)
    requires gi <= |groups|
    ensures TotalSize(groups[..gi]) <= TotalSize(groups)
    ensures RanksFrom(groups, gi) == seq(TotalSize(groups) - TotalSize(groups[..gi]), i => TotalSize(groups[..gi]) + 1 + i)
    decreases |groups| - gi
  {
    assert groups[..|groups|] == groups;
    SizePrefixMonotone(groups, gi);
    if gi < |groups| {
      RanksFromCount(groups, gi + 1);
      assert groups[..gi + 1][..gi] == groups[..gi];
      SizePrefixMonotone(groups, gi + 1);
    }
  }

  lemma {:induction false} SizePrefixMonotone(groups: seq<CountGroup>, gi: nat)
    requires gi <= |groups|
    ensures TotalSize(groups[..gi]) <= TotalSize(groups)
    decreases |groups| - gi
  {
    assert groups[..|groups|] == groups;
    if gi < |groups| {
      SizePrefixMonotone(groups, gi + 1);
      assert groups[..gi + 1][..gi] == groups[..gi];
    }
  }

  lemma {:induction false} TotalSizeIsLength(groups: seq<CountGroup>)
    ensures TotalSize(groups) == |Flatten(groups)|
  {
    if groups != [] {
      var last := |groups| - 1;
      TotalSizeIsLength(groups[..last]);
      FlattenSnoc(groups[..last], groups[last]);
      assert groups[..last] + [groups[last]] == groups;
    }
  }

  lemma {:induction false} FlattenSnoc(groups: seq<CountGroup>, g: CountGroup)
    ensures Flatten(groups + [g]) == Flatten(groups) + g.submissions
  {
    if groups == [] {
      assert [g][1..] == [];
    } else {
      assert (groups + [g])[1..] == groups[1..] + [g];
      FlattenSnoc(groups[1..], g);
    }
  }

  /** Row ranks across all groups are exactly 1..N, with no gap and no repeat. */
  lemma RanksAreContiguous(groups: seq<CountGroup>)
    ensures RanksFrom(groups, 0) == seq(|Flatten(groups)|, i => i + 1)
  {
    RanksFromCount(groups, 0);
    TotalSizeIsLength(groups);
  }

  /** A group's range starts after all earlier rows and ends at its start plus its size minus one. */
  lemma GroupRange(groups: seq<CountGroup>, gi: nat)
    requires gi < |groups| && groups[gi].submissions != []
    ensures CurrentRank(groups, gi) == |Flatten(groups[..gi])| + 1
    ensures RangeEnd(groups, gi) == CurrentRank(groups, gi + 1) - 1
    ensures RowRank(groups, gi, 0) == CurrentRank(groups, gi)
    ensures RowRank(groups, gi, |groups[gi].submissions| - 1) == RangeEnd(groups, gi)
  {
    TotalSizeIsLength(groups[..gi]);
    assert groups[..gi + 1][..gi] == groups[..gi];
  }

  // ---------------------------------------------------------------------------
  // The whole table

  /** The table: best record per email, filtered, sorted and grouped; or the filter's throw. */
  method BuildLeaderboard(submissions: seq<Submission>, filters: LeaderboardFilters)
    returns (table: Result<seq<CountGroup>, FilterError>)
    ensures table.Err? <==> FilterSubmissions(Dedupe(submissions), filters).Err?
    ensures table.Ok? ==> Flatten(table.value) == SortBy(Keep(Dedupe(submissions), filters), RankCompare)
    ensures table.Ok? ==> WellGrouped(table.value)
    ensures table.Ok? ==> RanksFrom(table.value, 0) == seq(|Keep(Dedupe(submissions), filters)|, i => i + 1)
  {
    var highest := HighestSubmissions(submissions);
    var filtered := FilterSubmissions(highest, filters);
    if filtered.Err? {
      return Err(filtered.error);
    }
    FilterSubmissionsSpec(highest, filters);
    var sorted := SortBy(filtered.value, RankCompare);
    SortedSubmissionsSpec(filtered.value);
    var grouped := GroupByCount(sorted);
    GroupMapIsPartition(sorted);
    forall i, j | 0 <= i < j < |sorted| ensures EffectiveCount(sorted[i]) >= EffectiveCount(sorted[j]) {
    }
    GroupsArrayFlattens(sorted, grouped);
    GroupsArrayWellGrouped(sorted, grouped);
    var groups := GroupsArray(grouped);
    RanksAreContiguous(groups);
    table := Ok(groups);
  }
}
