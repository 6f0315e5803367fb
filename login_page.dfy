/**
 * The sign-in / sign-up page: the password rule applies only to sign-up,
 * and a failure message is mapped onto the text the page shows.
 */
module LoginPage {
  import opened Wrappers
  import opened Credentials

  const InvalidCredentialsText := "Invalid email or password. Please try again."
  const NotConfirmedText :=
    "Your email has not been confirmed. Please check your inbox for a confirmation link or contact support."
  const InvalidEmailText := "Please enter a valid email address."

  /** The message mapping of the `catch` block, tried in order. */
  function ErrorText(message: string): (text: string)
    ensures Contains(message, "invalid_credentials") ==> text == InvalidCredentialsText
    ensures !Contains(message, "invalid_credentials") && Contains(message, "email_not_confirmed") ==>
      text == NotConfirmedText
    ensures (!Contains(message, "invalid_credentials") && !Contains(message, "email_not_confirmed")
             && Contains(message, "email")) ==> text == InvalidEmailText
    ensures !Contains(message, "invalid_credentials") && !Contains(message, "email") ==> text == message
  {
    NotConfirmedImpliesEmail(message);
    if Contains(message, "invalid_credentials") then InvalidCredentialsText
    else if Contains(message, "email_not_confirmed") then NotConfirmedText
    else if Contains(message, "email") then InvalidEmailText
    else message
  }

  /** 'email_not_confirmed' contains 'email', so the third test covers the second. */
  lemma NotConfirmedImpliesEmail(message: string)
    ensures Contains(message, "email_not_confirmed") ==> Contains(message, "email")
  {
    if Contains(message, "email_not_confirmed") {
      ContainsPiece(message, "email_not_confirmed", 0, 5);
      assert "email_not_confirmed"[0..5] == "email";
    }
  }

  /** A message is replaced only when it mentions 'email' or 'invalid_credentials'; otherwise it is shown as is. */
  lemma ReplacedOnlyForKnownCodes(message: string)
    ensures ErrorText(message) != message ==>
      Contains(message, "email") || Contains(message, "invalid_credentials")
  {
    NotConfirmedImpliesEmail(message);
  }

  /** The requirements message carries no error code and is shown as written. */
  lemma RequirementsShownAsWritten()
    ensures ErrorText(RequirementsMessage) == RequirementsMessage
  {
    RequirementsMessageHasNoEmail();
    RequirementsMessageHasNoCredentialsCode();
  }

  /** So is the fallback for a thrown value that is not an `Error`. */
  lemma DefaultShownAsWritten()
    ensures ErrorText(DefaultError) == DefaultError
  {
    assert 'm' !in DefaultError;
    AbsentChar(DefaultError, "email", 'm');
    AbsentChar(DefaultError, "invalid_credentials", 'v');
  }

  class Page {
    var email: string
    var password: string
    var isLoading: bool
    var error: string
    var isSignUp: bool

    /** The page opens in sign-in mode with every field empty. */
    constructor()
      ensures email == "" && password == "" && !isLoading && error == "" && !isSignUp
    {
      email := "";
      password := "";
      isLoading := false;
      error := "";
      isSignUp := false;
    }

    method SetEmail(value: string)
      modifies this
      ensures email == value
      ensures password == old(password) && isLoading == old(isLoading) && error == old(error) && isSignUp == old(isSignUp)
    {
      email := value;
    }

    method SetPassword(value: string)
      modifies this
      ensures password == value
      ensures email == old(email) && isLoading == old(isLoading) && error == old(error) && isSignUp == old(isSignUp)
    {
      password := value;
    }

    /** The submit button is disabled in sign-up mode while the password breaks a rule. */
    predicate SubmitDisabled()
      reads this
    {
      isSignUp && !PasswordValid(password)
    }

    /**
     * `handleSubmit`. The authentication call is a parameter: `failure` is what
     * it threw, if anything. Returns the call reached and whether the page
     * navigated to the profile.
     */
    method HandleSubmit(failure: Option<Thrown>) returns (call: AuthCall, navigated: bool)
      modifies this
      ensures old(isSignUp) && !PasswordValid(old(password)) ==>
        call == NoCall && error == ErrorText(RequirementsMessage)
      ensures old(isSignUp) && PasswordValid(old(password)) ==> call == SignUp(old(email), old(password))
      ensures !old(isSignUp) ==> call == SignIn(old(email), old(password))
      ensures old(!SubmitDisabled()) ==> call != NoCall
      ensures call != NoCall && failure.None? ==> navigated && error == ""
      ensures call != NoCall && failure.Some? ==>
        !navigated && error == ErrorText(MessageOr(failure.value, DefaultError))
      ensures call == NoCall ==> !navigated
      ensures email == old(email) && password == old(password) && isSignUp == old(isSignUp) && !isLoading
    {
      isLoading := true;
      error := "";
      var thrown: Option<Thrown> := None;
      navigated := false;
      if isSignUp {
        if !PasswordValid(password) {
          call := NoCall;
          thrown := Some(ErrorInstance(RequirementsMessage));
        } else {
          call := SignUp(email, password);
          thrown := failure;
        }
      } else {
        call := SignIn(email, password);
        thrown := failure;
      }
      if thrown.None? {
        navigated := true;
      } else {
        error := ErrorText(MessageOr(thrown.value, DefaultError));
      }
      isLoading := false;
    }

    /** The mode link: flips the mode, clears the error and the password, keeps the email. */
    method ToggleMode()
      modifies this
      ensures isSignUp == !old(isSignUp) && error == "" && password == ""
      ensures email == old(email) && isLoading == old(isLoading)
    {
      isSignUp := !isSignUp;
      error := "";
      password := "";
    }
  }

  /** The button is disabled exactly when sign-up mode shows an unmet line of the checklist. */
  lemma DisabledMatchesChecklist(page: Page)
    ensures page.SubmitDisabled() <==> page.isSignUp && exists i :: 0 <= i < 4 && !Checklist(page.password)[i].met
  {
    var r := Checklist(page.password);
    assert PasswordValid(page.password) <==> forall i :: 0 <= i < |r| ==> r[i].met;
  }
}
