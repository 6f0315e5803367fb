/** The records shared by every page: a pull-up submission and the leaderboard filter record. */
module Types {
  import opened Wrappers

  datatype Gender = Male | Female | Other

  datatype Status = Pending | Approved | Rejected

  /** One attempt. `submissionDate` is the instant in milliseconds since the epoch. */
  datatype Submission = Submission(
    id: string,
    fullName: string,
    email: string,
    phone: Option<string>,
    age: int,
    gender: Gender,
    region: string,
    clubAffiliation: string,
    pullUpCount: nat,
    actualPullUpCount: Option<nat>,
    videoLink: string,
    submissionDate: int,
    status: Status,
    featured: bool,
    socialHandle: Option<string>)

  /** The filter record of the leaderboard; every field is optional. */
  datatype LeaderboardFilters = LeaderboardFilters(
    club: Option<string>,
    ageGroup: Option<string>,
    gender: Option<string>,
    badge: Option<string>,
    region: Option<string>)

  /** `{}`: no criterion at all. */
  const NoFilters := LeaderboardFilters(None, None, None, None, None)

  /** The text of a gender value, as compared with a filter string. */
  function GenderName(g: Gender): string
  {
    match g
    case Male => "Male"
    case Female => "Female"
    case Other => "Other"
  }

  /** The text of a status value. */
  function StatusName(s: Status): string
  {
    match s
    case Pending => "Pending"
    case Approved => "Approved"
    case Rejected => "Rejected"
  }

  /** `actualPullUpCount ?? pullUpCount`: the reviewed count when there is one, else the claimed one. */
  function EffectiveCount(s: Submission): (n: nat)
    ensures s.actualPullUpCount.Some? ==> n == s.actualPullUpCount.value
    ensures s.actualPullUpCount.None? ==> n == s.pullUpCount
  {
    match s.actualPullUpCount
    case Some(actual) => actual
    case None => s.pullUpCount
  }

  /** A reviewed count makes the claimed count irrelevant. */
  lemma EffectiveCountIgnoresClaim(s: Submission, claimed: nat)
    requires s.actualPullUpCount.Some?
    ensures EffectiveCount(s.(pullUpCount := claimed)) == EffectiveCount(s)
  {
  }
}
