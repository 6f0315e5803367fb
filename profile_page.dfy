/**
 * The member's profile page: their own submissions, their best one, the
 * elite badge, and the personal-information form.
 */
module ProfilePage {
  import opened Wrappers
  import opened Types
  import opened Lists
  import opened MockData

  // ---------------------------------------------------------------------------
  // Submissions and badges

  /**
   * `userSubmissions`: the records carrying the signed-in user's email, in
   * order. Without a user the comparison is against `undefined` and keeps nothing.
   */
  function UserSubmissions(all: seq<Submission>, userEmail: Option<string>): (mine: seq<Submission>)
    ensures userEmail.None? ==> mine == []
    ensures userEmail.Some? ==> forall x :: x in mine <==> x in all && x.email == userEmail.value
  {
    match userEmail
    case None => []
    case Some(e) => Filter(all, (x: Submission) => x.email == e)
  }

  lemma UserSubmissionsInOrder(all: seq<Submission>, userEmail: Option<string>)
    ensures IsSubsequence(UserSubmissions(all, userEmail), all)
  {
    match userEmail
    case None =>
      FilterNone(all, (x: Submission) => false);
      FilterIsSubsequence(all, (x: Submission) => false);
    case Some(e) =>
      FilterIsSubsequence(all, (x: Submission) => x.email == e);
  }

  /** One step of the `highestSubmission` reduce: replace only on a strictly larger count. */
  function HighestStep(highest: Option<Submission>, current: Submission): Option<Submission>
  {
    var highestCount := if highest.Some? then EffectiveCount(highest.value) else 0;
    if EffectiveCount(current) > highestCount then Some(current) else highest
  }

  /**
   * `highestSubmission`: absent when every count is 0; otherwise a record with
   * the largest count, and the earliest one to reach it.
   */
  function HighestSubmission(subs: seq<Submission>): (h: Option<Submission>)
    ensures h.None? <==> forall i :: 0 <= i < |subs| ==> EffectiveCount(subs[i]) == 0
    ensures h.Some? ==> forall i :: 0 <= i < |subs| ==> EffectiveCount(subs[i]) <= EffectiveCount(h.value)
    ensures h.Some? ==> exists i :: 0 <= i < |subs| && subs[i] == h.value
                                   && forall j :: 0 <= j < i ==> EffectiveCount(subs[j]) < EffectiveCount(h.value)
  {
    if subs == [] then None
    else
      var prefix := subs[..|subs| - 1];
      var last := subs[|subs| - 1];
      var before := HighestSubmission(prefix);
      assert forall i :: 0 <= i < |prefix| ==> subs[i] == prefix[i];
      var h := HighestStep(before, last);
      if h == before && before.Some? then
        var k :| 0 <= k < |prefix| && prefix[k] == before.value
                 && forall j :: 0 <= j < k ==> EffectiveCount(prefix[j]) < EffectiveCount(before.value);
        assert subs[k] == h.value;
        h
      else
        h
  }

  /** `userBadges`: the badge of the best submission, if any. */
  function UserBadges(subs: seq<Submission>): (badges: seq<Badge>)
    ensures |badges| <= 1
  {
    match HighestSubmission(subs)
    case None => []
    case Some(h) => GetBadgesForSubmission(h)
  }

  /** `eliteBadge`: the badge with id 'elite' among the user's badges. */
  function EliteBadge(subs: seq<Submission>): Option<Badge>
  {
    FindById(UserBadges(subs), "elite")
  }

  /** A single record earns the elite badge exactly from 25 on. */
  lemma EliteOfSubmission(s: Submission)
    ensures FindById(GetBadgesForSubmission(s), "elite").Some? <==> EffectiveCount(s) >= 25
  {
    BadgeCount(s);
    var badges := GetBadgesForSubmission(s);
    if EffectiveCount(s) >= 5 {
      assert badges == [badges[0]];
      assert badges[0].id == "elite" <==> SubmissionTier(s).value == Elite;
    }
  }

  /** The elite badge is held exactly when the best submission counts 25 or more. */
  lemma EliteBadgeIff(subs: seq<Submission>)
    ensures EliteBadge(subs).Some? <==>
      HighestSubmission(subs).Some? && EffectiveCount(HighestSubmission(subs).value) >= 25
  {
    var h := HighestSubmission(subs);
    if h.Some? {
      EliteOfSubmission(h.value);
    }
  }

  /** Equivalently, exactly when some submission counts 25 or more. */
  lemma EliteBadgeFromAnyRecord(subs: seq<Submission>)
    ensures EliteBadge(subs).Some? <==> exists i :: 0 <= i < |subs| && EffectiveCount(subs[i]) >= 25
  {
    EliteBadgeIff(subs);
  }

  // ---------------------------------------------------------------------------
  // The social-media validator

  /** The characters `String.prototype.trim` removes: ECMAScript white space and line terminators. */
  predicate IsJsWhitespace(c: char)
  {
    || c == '\U{0009}' || c == '\U{000A}' || c == '\U{000B}' || c == '\U{000C}' || c == '\U{000D}'
    || c == ' ' || c == '\U{00A0}' || c == '\U{1680}'
    || ('\U{2000}' <= c <= '\U{200A}')
    || c == '\U{2028}' || c == '\U{2029}' || c == '\U{202F}' || c == '\U{205F}' || c == '\U{3000}'
    || c == '\U{FEFF}'
  }

  predicate AllWhitespace(s: string)
  {
    forall i :: 0 <= i < |s| ==> IsJsWhitespace(s[i])
  }

  /** `trimStart`: drops leading white space. */
  function TrimStart(s: string): (r: string)
    ensures |r| <= |s|
  {
    if s != [] && IsJsWhitespace(s[0]) then TrimStart(s[1..]) else s
  }

  /** `trimEnd`: drops trailing white space. */
  function TrimEnd(s: string): (r: string)
    ensures |r| <= |s|
  {
    if s != [] && IsJsWhitespace(s[|s| - 1]) then TrimEnd(s[..|s| - 1]) else s
  }

  /** `value.trim()`: the value without leading and trailing white space. */
  function Trim(s: string): (r: string)
    ensures |r| <= |s|
  {
    TrimEnd(TrimStart(s))
  }

  /** `TrimStart` removes exactly the leading white space: a suffix remains, which does not start with white space. */
  lemma {:induction false} TrimStartSpec(s: string)
    ensures TrimStart(s) == s[|s| - |TrimStart(s)|..]
    ensures AllWhitespace(s[..|s| - |TrimStart(s)|])
    ensures TrimStart(s) != [] ==> !IsJsWhitespace(TrimStart(s)[0])
  {
    if s != [] && IsJsWhitespace(s[0]) {
      TrimStartSpec(s[1..]);
      var r := TrimStart(s[1..]);
      assert s[..|s| - |r|] == [s[0]] + s[1..][..|s| - 1 - |r|];
      assert s[1..][|s| - 1 - |r|..] == s[|s| - |r|..];
    }
  }

  /** `TrimEnd` removes exactly the trailing white space: a prefix remains, which does not end with white space. */
  lemma {:induction false} TrimEndSpec(s: string)
    ensures TrimEnd(s) == s[..|TrimEnd(s)|]
    ensures AllWhitespace(s[|TrimEnd(s)|..])
    ensures TrimEnd(s) != [] ==> !IsJsWhitespace(TrimEnd(s)[|TrimEnd(s)| - 1])
  {
    if s != [] && IsJsWhitespace(s[|s| - 1]) {
      TrimEndSpec(s[..|s| - 1]);
      var r := TrimEnd(s[..|s| - 1]);
      assert s[..|s| - 1][..|r|] == s[..|r|];
      assert forall i :: |r| <= i < |s| - 1 ==> s[i] == s[..|s| - 1][i];
    }
  }

  /** `Trim` leaves a slice with only white space around it, which neither starts nor ends with white space. */
  lemma TrimSpec(s: string)
    ensures exists i, j :: 0 <= i <= j <= |s| && Trim(s) == s[i..j] && AllWhitespace(s[..i]) && AllWhitespace(s[j..])
    ensures Trim(s) != [] ==> !IsJsWhitespace(Trim(s)[0]) && !IsJsWhitespace(Trim(s)[|Trim(s)| - 1])
  {
    var t := TrimStart(s);
    TrimStartSpec(s);
    TrimEndSpec(t);
    var r := TrimEnd(t);
    var i := |s| - |t|;
    assert r == s[i..i + |r|];
    assert s[i + |r|..] == t[|r|..];
    if r != [] {
      assert r[0] == t[0];
    }
  }

  /** Trimming leaves nothing exactly when every character is white space. */
  lemma TrimEmptyIff(value: string)
    ensures Trim(value) == "" <==> AllWhitespace(value)
  {
    var r := Trim(value);
    TrimSpec(value);
    var i, j :| 0 <= i <= j <= |value| && r == value[i..j] && AllWhitespace(value[..i]) && AllWhitespace(value[j..]);
    if r == "" {
      assert forall k :: 0 <= k < |value| ==> (k < i ==> value[k] == value[..i][k]) && (k >= j ==> value[k] == value[j..][k - j]);
    } else {
      assert value[i] == r[0];
    }
  }

  /** `validateSocialMedia`: fails exactly when the value is only white space (or empty). */
  function ValidateSocialMedia(value: string): (ok: bool)
    ensures ok <==> !AllWhitespace(value)
  {
    TrimEmptyIff(value);
    Trim(value) != ""
  }

  // ---------------------------------------------------------------------------
  // The personal-information form

  datatype FormData = FormData(
    socialMedia: string,
    streetAddress: string,
    apartment: string,
    city: string,
    state: string,
    zipCode: string,
    country: string)

  const EmptyForm := FormData("", "", "", "", "", "", "")

  /** The `name` attribute of each input of the form. */
  datatype FormField = SocialMedia | StreetAddress | Apartment | City | State | ZipCode | Country

  function FieldValue(f: FormData, field: FormField): string
  {
    match field
    case SocialMedia => f.socialMedia
    case StreetAddress => f.streetAddress
    case Apartment => f.apartment
    case City => f.city
    case State => f.state
    case ZipCode => f.zipCode
    case Country => f.country
  }

  /** `{ ...prev, [name]: value }`. */
  function WithField(f: FormData, field: FormField, value: string): (g: FormData)
    ensures FieldValue(g, field) == value
    ensures forall other :: other != field ==> FieldValue(g, other) == FieldValue(f, other)
  {
    match field
    case SocialMedia => f.(socialMedia := value)
    case StreetAddress => f.(streetAddress := value)
    case Apartment => f.(apartment := value)
    case City => f.(city := value)
    case State => f.(state := value)
    case ZipCode => f.(zipCode := value)
    case Country => f.(country := value)
  }

  /** Two forms that agree on every field are the same form. */
  lemma FormExtensional(f: FormData, g: FormData)
    requires forall field :: FieldValue(f, field) == FieldValue(g, field)
    ensures f == g
  {
    assert FieldValue(f, SocialMedia) == FieldValue(g, SocialMedia);
    assert FieldValue(f, StreetAddress) == FieldValue(g, StreetAddress);
    assert FieldValue(f, Apartment) == FieldValue(g, Apartment);
    assert FieldValue(f, City) == FieldValue(g, City);
    assert FieldValue(f, State) == FieldValue(g, State);
    assert FieldValue(f, ZipCode) == FieldValue(g, ZipCode);
    assert FieldValue(f, Country) == FieldValue(g, Country);
  }

  /** Writing back the value a field already holds changes nothing. */
  lemma WithFieldSameValue(f: FormData, field: FormField)
    ensures WithField(f, field, FieldValue(f, field)) == f
  {
    FormExtensional(WithField(f, field, FieldValue(f, field)), f);
  }

  /** The stored profile; every field may be null. */
  datatype Profile = Profile(
    socialMedia: Option<string>,
    streetAddress: Option<string>,
    apartment: Option<string>,
    city: Option<string>,
    state: Option<string>,
    zipCode: Option<string>,
    country: Option<string>)

  /** `value || ''`. */
  function OrEmpty(o: Option<string>): (s: string)
    ensures o.Some? ==> s == o.value
    ensures o.None? ==> s == ""
  {
    if o.Some? then o.value else ""
  }

  /** The form filled from a stored profile, nulls becoming empty text. */
  function FormFromProfile(p: Profile): (f: FormData)
    ensures FieldValue(f, SocialMedia) == OrEmpty(p.socialMedia)
    ensures FieldValue(f, StreetAddress) == OrEmpty(p.streetAddress)
    ensures FieldValue(f, Apartment) == OrEmpty(p.apartment)
    ensures FieldValue(f, City) == OrEmpty(p.city)
    ensures FieldValue(f, State) == OrEmpty(p.state)
    ensures FieldValue(f, ZipCode) == OrEmpty(p.zipCode)
    ensures FieldValue(f, Country) == OrEmpty(p.country)
  {
    FormData(OrEmpty(p.socialMedia), OrEmpty(p.streetAddress), OrEmpty(p.apartment),
             OrEmpty(p.city), OrEmpty(p.state), OrEmpty(p.zipCode), OrEmpty(p.country))
  }

  datatype Tab = Submissions | Rankings | Personal

  const SocialRequired := "Social media handle is required"
  const SaveFailed := "Failed to save profile"

  /** The page's state: the form, the error line, the saving flag and the open tab. */
  class Page {
    var formData: FormData
    var error: Option<string>
    var isSaving: bool
    var activeTab: Tab

    /** The first render, after the first-login effect: the personal tab opens on a first login. */
    constructor(isFirstLogin: bool)
      ensures formData == EmptyForm && error.None? && !isSaving
      ensures activeTab == if isFirstLogin then Personal else Submissions
    {
      formData := EmptyForm;
      error := None;
      isSaving := false;
      activeTab := Submissions;
      if isFirstLogin {
        activeTab := Personal;
      }
    }

    /** The profile effect: a loaded profile replaces the whole form. */
    method LoadProfile(profile: Option<Profile>)
      modifies this
      ensures profile.Some? ==> formData == FormFromProfile(profile.value)
      ensures profile.None? ==> formData == old(formData)
      ensures error == old(error) && isSaving == old(isSaving) && activeTab == old(activeTab)
    {
      if profile.Some? {
        formData := FormFromProfile(profile.value);
      }
    }

    /** `handleInputChange`: the named field takes the new value, the others keep theirs. */
    method HandleInputChange(field: FormField, value: string)
      modifies this
      ensures formData == WithField(old(formData), field, value)
      ensures error == old(error) && isSaving == old(isSaving) && activeTab == old(activeTab)
    {
      formData := WithField(formData, field, value);
    }

    /**
     * `handleSavePersonalInfo`. The update call is a parameter: `saveFailure`
     * is what it threw, if anything. Returns the form sent to the store, or
     * nothing when validation stopped the save.
     */
    method HandleSavePersonalInfo(isFirstLogin: bool, saveFailure: Option<Thrown>) returns (sent: Option<FormData>)
      modifies this
      ensures !ValidateSocialMedia(old(formData).socialMedia) ==>
        sent.None? && error == Some(SocialRequired) && activeTab == old(activeTab)
      ensures ValidateSocialMedia(old(formData).socialMedia) ==> sent == Some(old(formData))
      ensures ValidateSocialMedia(old(formData).socialMedia) && saveFailure.Some? ==>
        error == Some(MessageOr(saveFailure.value, SaveFailed)) && activeTab == old(activeTab)
      ensures ValidateSocialMedia(old(formData).socialMedia) && saveFailure.None? ==>
        error.None? && activeTab == (if isFirstLogin then Submissions else old(activeTab))
      ensures formData == old(formData) && !isSaving
    {
      var valid := ValidateSocialMedia(formData.socialMedia);
      isSaving := true;
      error := None;
      if !valid {
        error := Some(SocialRequired);
        sent := None;
      } else {
        sent := Some(formData);
        if saveFailure.Some? {
          error := Some(MessageOr(saveFailure.value, SaveFailed));
        } else if isFirstLogin {
          activeTab := Submissions;
        }
      }
      isSaving := false;
    }
  }
}
