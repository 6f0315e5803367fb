/** The badge ladder, the status labels and the age-group labels. */
module MockData {
  import opened Wrappers
  import opened Types

  datatype Criteria = Criteria(kind: string, value: int)

  datatype Badge = Badge(id: string, name: string, description: string, imageUrl: string, criteria: Criteria)

  /** The five tiers, lowest first. */
  datatype Tier = Recruit | Proven | Hardened | Operator | Elite

  /** Position of a tier in the order Recruit < Proven < Hardened < Operator < Elite. */
  function TierRank(t: Tier): nat
  {
    match t
    case Recruit => 0
    case Proven => 1
    case Hardened => 2
    case Operator => 3
    case Elite => 4
  }

  function TierId(t: Tier): string
  {
    match t
    case Recruit => "recruit"
    case Proven => "proven"
    case Hardened => "hardened"
    case Operator => "operator"
    case Elite => "elite"
  }

  /** The shared badge table, in its declared order. */
  const Badges: seq<Badge> := [
    Badge("recruit", "Recruit", "Achieved 5-9 pull-ups",
      "https://cdn.shopify.com/s/files/1/0567/5237/3945/files/Recruit.png?v=1746488886", Criteria("pullUps", 5)),
    Badge("proven", "Proven", "Achieved 10-14 pull-ups",
      "https://cdn.shopify.com/s/files/1/0567/5237/3945/files/Proven.png?v=1746488886", Criteria("pullUps", 10)),
    Badge("hardened", "Hardened", "Achieved 15-19 pull-ups",
      "https://cdn.shopify.com/s/files/1/0567/5237/3945/files/Hardened.png?v=1746488887", Criteria("pullUps", 15)),
    Badge("operator", "Operator", "Achieved 20-24 pull-ups",
      "https://cdn.shopify.com/s/files/1/0567/5237/3945/files/Operator.png?v=1746488886", Criteria("pullUps", 20)),
    Badge("elite", "Elite", "Achieved 25+ pull-ups",
      "https://cdn.shopify.com/s/files/1/0567/5237/3945/files/Elite.png?v=1746488886", Criteria("pullUps", 25))
  ]

  /** Image variants shown to female members, keyed by badge id. */
  const FemaleBadgeUrls: map<string, string> := map[
    "recruit" := "https://cdn.shopify.com/s/files/1/0567/5237/3945/files/Recruit_-_Female.png?v=1747583270",
    "proven" := "https://cdn.shopify.com/s/files/1/0567/5237/3945/files/Proven_-_Female.png?v=1747583270",
    "hardened" := "https://cdn.shopify.com/s/files/1/0567/5237/3945/files/Hardened_1_-_Female.png?v=1747583270",
    "operator" := "https://cdn.shopify.com/s/files/1/0567/5237/3945/files/Operator_-_Female.png?v=1747583270",
    "elite" := "https://cdn.shopify.com/s/files/1/0567/5237/3945/files/Elite_Female.png?v=1747583270"
  ]

  /** The threshold ladder: the tier a count earns, checked from the top down. */
  function TierFor(count: int): (t: Option<Tier>)
    ensures t.None? <==> count < 5
    ensures t == Some(Elite) <==> 25 <= count
    ensures t == Some(Operator) <==> 20 <= count < 25
    ensures t == Some(Hardened) <==> 15 <= count < 20
    ensures t == Some(Proven) <==> 10 <= count < 15
    ensures t == Some(Recruit) <==> 5 <= count < 10
  {
    if count >= 25 then Some(Elite)
    else if count >= 20 then Some(Operator)
    else if count >= 15 then Some(Hardened)
    else if count >= 10 then Some(Proven)
    else if count >= 5 then Some(Recruit)
    else None
  }

  /** `badges.find(b => b.id === id)`: the first table entry with that id. */
  function FindById(table: seq<Badge>, id: string): (r: Option<Badge>)
    ensures r.Some? ==> r.value in table && r.value.id == id
    ensures r.None? ==> forall b :: b in table ==> b.id != id
  {
    if table == [] then None
    else if table[0].id == id then Some(table[0])
    else FindById(table[1..], id)
  }

  /** Every tier has its entry in the table, and the entry's threshold is the tier's lower band. */
  lemma TableHasTier(t: Tier)
    ensures FindById(Badges, TierId(t)) == Some(Badges[TierRank(t)])
    ensures Badges[TierRank(t)].criteria.value == 5 * (TierRank(t) + 1)
  {
  }

  /** The table entry of a tier. */
  function BaseBadge(t: Tier): (b: Badge)
    ensures b == Badges[TierRank(t)] && b.id == TierId(t)
  {
    TableHasTier(t);
    FindById(Badges, TierId(t)).value
  }

  /** `getBadgesForSubmission`: the badge earned by the effective count, with the image chosen by gender. */
  function GetBadgesForSubmission(s: Submission): (r: seq<Badge>)
    ensures |r| <= 1
  {
    match TierFor(EffectiveCount(s))
    case None => []
    case Some(t) =>
      var badge := BaseBadge(t);
      if s.gender == Female && badge.id in FemaleBadgeUrls
      then [badge.(imageUrl := FemaleBadgeUrls[badge.id])]
      else [badge]
  }

  /** The tier of a submission, or none below 5. */
  function SubmissionTier(s: Submission): Option<Tier>
  {
    TierFor(EffectiveCount(s))
  }

  /** Zero badges below 5, exactly one from 5 on, and it is the badge of the earned tier. */
  lemma BadgeCount(s: Submission)
    ensures |GetBadgesForSubmission(s)| == 0 <==> EffectiveCount(s) < 5
    ensures |GetBadgesForSubmission(s)| == 1 <==> EffectiveCount(s) >= 5
    ensures EffectiveCount(s) >= 5 ==> GetBadgesForSubmission(s)[0].id == TierId(SubmissionTier(s).value)
  {
  }

  /** The returned badge equals the table entry in everything but the image; only a female member gets the variant. */
  lemma GenderOnlyChangesImage(s: Submission)
    requires EffectiveCount(s) >= 5
    ensures var b := GetBadgesForSubmission(s)[0];
      var base := BaseBadge(SubmissionTier(s).value);
      && b.id == base.id && b.name == base.name && b.description == base.description
      && b.criteria == base.criteria
      && (s.gender == Female ==> b.imageUrl == FemaleBadgeUrls[base.id])
      && (s.gender != Female ==> b.imageUrl == base.imageUrl)
  {
  }

  /** Changing only the gender leaves the earned badge the same apart from its image. */
  lemma GenderNeverChangesTier(s: Submission, g: Gender)
    ensures |GetBadgesForSubmission(s.(gender := g))| == |GetBadgesForSubmission(s)|
    ensures EffectiveCount(s) >= 5 ==>
      GetBadgesForSubmission(s.(gender := g))[0].(imageUrl := "") == GetBadgesForSubmission(s)[0].(imageUrl := "")
  {
  }

  /** A larger effective count never earns a lower tier. */
  lemma TierMonotone(a: int, b: int)
    requires a <= b
    ensures TierFor(a).Some? ==> TierFor(b).Some? && TierRank(TierFor(a).value) <= TierRank(TierFor(b).value)
  {
  }

  /** The earned badge's threshold is the largest threshold in the table not above the count. */
  lemma ThresholdIsLargestBelow(s: Submission)
    requires EffectiveCount(s) >= 5
    ensures var v := GetBadgesForSubmission(s)[0].criteria.value;
      && v <= EffectiveCount(s)
      && (exists i :: 0 <= i < |Badges| && Badges[i].criteria.value == v)
      && forall i :: 0 <= i < |Badges| && Badges[i].criteria.value <= EffectiveCount(s) ==> Badges[i].criteria.value <= v
  {
    var t := SubmissionTier(s).value;
    GenderOnlyChangesImage(s);
    TableHasTier(t);
    Thresholds();
  }

  /** The table's thresholds are 5, 10, 15, 20 and 25, in order. */
  lemma Thresholds()
    ensures |Badges| == 5
    ensures forall i :: 0 <= i < |Badges| ==> Badges[i].criteria.value == 5 * (i + 1)
  {
  }

  /** A reviewed count decides the badge; the claimed count then does not matter. */
  lemma ReviewedCountDecides(s: Submission, claimed: nat)
    requires s.actualPullUpCount.Some?
    ensures GetBadgesForSubmission(s.(pullUpCount := claimed)) == GetBadgesForSubmission(s)
  {
  }

  /** Claimed 18 but reviewed 20 earns Operator, not Hardened. */
  lemma ReviewedTwentyIsOperator(s: Submission)
    requires s.pullUpCount == 18 && s.actualPullUpCount == Some(20)
    ensures GetBadgesForSubmission(s)[0].id == "operator"
  {
  }

  datatype StatusInfo = StatusInfo(text: string, color: string)

  /** `getStatusInfo`: the label and colour of a status. */
  function GetStatusInfo(status: Status): (info: StatusInfo)
    ensures status == Approved ==> info == StatusInfo("Approved", "bg-green-500")
    ensures status == Rejected ==> info == StatusInfo("Rejected", "bg-red-500")
    ensures status == Pending ==> info == StatusInfo("Pending Review", "bg-yellow-500")
  {
    match status
    case Approved => StatusInfo("Approved", "bg-green-500")
    case Rejected => StatusInfo("Rejected", "bg-red-500")
    case _ => StatusInfo("Pending Review", "bg-yellow-500")
  }

  /** `getAgeGroups`: the labels offered by the age filter, each offered once. */
  function GetAgeGroups(): (labels: seq<string>)
    ensures |labels| == 6 && labels[0] == "Under 18" && labels[5] == "50+"
    ensures forall i, j :: 0 <= i < j < |labels| ==> labels[i] != labels[j]
  {
    ["Under 18", "18-24", "25-29", "30-39", "40-49", "50+"]
  }
}
