/**
 * The account-creation page reached after checkout: the email comes from
 * the checkout, and the password must meet every rule before sign-up.
 */
module CreateAccountPage {
  import opened Wrappers
  import opened Credentials

  const EmailRequired := "Email is required"

  class Page {
    var email: string
    var password: string
    var isLoading: bool
    var error: string

    /** The first render, before the stored checkout email is read. */
    constructor()
      ensures email == "" && password == "" && !isLoading && error == ""
    {
      email := "";
      password := "";
      isLoading := false;
      error := "";
    }

    method SetPassword(value: string)
      modifies this
      ensures password == value
      ensures email == old(email) && isLoading == old(isLoading) && error == old(error)
    {
      password := value;
    }

    /** The page renders nothing while the email is empty. */
    predicate Renders()
      reads this
    {
      email != ""
    }

    /** The Create Account button is disabled while the password breaks a rule. */
    predicate ButtonDisabled()
      reads this
    {
      !PasswordValid(password)
    }

    /**
     * `handleSubmit`. The sign-up call is a parameter: `failure` is what it
     * threw, if anything. Returns the call reached and whether the page
     * navigated to the profile.
     */
    method HandleSubmit(failure: Option<Thrown>) returns (call: AuthCall, navigated: bool)
      modifies this
      ensures old(email) == "" ==> call == NoCall && error == EmailRequired
      ensures old(email) != "" && !PasswordValid(old(password)) ==> call == NoCall && error == RequirementsMessage
      ensures old(email) != "" && PasswordValid(old(password)) ==> call == SignUp(old(email), old(password))
      ensures old(Renders() && !ButtonDisabled()) ==> call != NoCall
      ensures call != NoCall && failure.None? ==> navigated && error == ""
      ensures call != NoCall && failure.Some? ==> !navigated && error == MessageOr(failure.value, DefaultError)
      ensures call == NoCall ==> !navigated
      ensures email == old(email) && password == old(password) && !isLoading
    {
      isLoading := true;
      error := "";
      var thrown: Option<Thrown>;
      navigated := false;
      if email == "" {
        call := NoCall;
        thrown := Some(ErrorInstance(EmailRequired));
      } else if !PasswordValid(password) {
        call := NoCall;
        thrown := Some(ErrorInstance(RequirementsMessage));
      } else {
        call := SignUp(email, password);
        thrown := failure;
      }
      if thrown.None? {
        navigated := true;
      } else {
        error := MessageOr(thrown.value, DefaultError);
      }
      isLoading := false;
    }
  }

  /** The button is disabled exactly when the checklist shows an unmet line. */
  lemma DisabledMatchesChecklist(page: Page)
    ensures page.ButtonDisabled() <==> exists i :: 0 <= i < 4 && !Checklist(page.password)[i].met
  {
    var r := Checklist(page.password);
    assert PasswordValid(page.password) <==> forall i :: 0 <= i < |r| ==> r[i].met;
  }
}
