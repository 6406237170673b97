/** The sign-up page's submit handler. */
module SignupPage {
  import opened Common
  import opened Credentials

  datatype SignupErrors = SignupErrors(email: Option<string>, password: Option<string>,
                                       confirmPassword: Option<string>)

  const NoErrors := SignupErrors(None, None, None)
  const ConfirmRequired := "Please confirm your password"
  const PasswordsDiffer := "Passwords do not match"
  const AccountCreated := "Account created successfully! Welcome aboard."

  /** The confirmation field's error: required first, then equality with the password. */
  function ConfirmError(password: string, confirm: string): (r: Option<string>)
    ensures r == Some(ConfirmRequired) <==> confirm == ""
    ensures r == Some(PasswordsDiffer) <==> confirm != "" && confirm != password
    ensures r == None <==> confirm != "" && confirm == password
  {
    if confirm == "" then Some(ConfirmRequired)
    else if password != confirm then Some(PasswordsDiffer)
    else None
  }

  /** The error object the handler builds for the three fields. */
  function FieldErrors(email: string, password: string, confirm: string): (r: SignupErrors)
    ensures r.email.None? <==> ValidEmail(email)
    ensures r.password.None? <==> ValidPassword(password)
    ensures r.confirmPassword.None? <==> confirm != "" && confirm == password
    ensures r.email == Some(EmailRequired) <==> email == ""
    ensures r.password == Some(PasswordRequired) <==> password == ""
  {
    SignupErrors(EmailError(email), PasswordError(password), ConfirmError(password, confirm))
  }

  /** `Object.keys(newErrors).length > 0`: some field holds a message. */
  predicate HasErrors(errors: SignupErrors)
    ensures HasErrors(errors) <==> errors != NoErrors
  {
    errors.email.Some? || errors.password.Some? || errors.confirmPassword.Some?
  }

  /**
   * The form goes through exactly when the email is well formed, the password has at least 8
   * characters and the confirmation repeats it.
   */
  lemma SignupAccepts(email: string, password: string, confirm: string)
    ensures !HasErrors(FieldErrors(email, password, confirm)) <==>
              ValidEmail(email) && ValidPassword(password) && confirm == password
  {
    if ValidPassword(password) && confirm == password {
      assert confirm != "";
    }
  }

  /** The state of the sign-up page. */
  class SignupForm {
    var email: string
    var password: string
    var confirmPassword: string
    var errors: SignupErrors
    var isLoading: bool
    var successMessage: string

    constructor()
      ensures email == "" && password == "" && confirmPassword == ""
      ensures errors == NoErrors && !isLoading && successMessage == ""
    {
      email, password, confirmPassword := "", "", "";
      errors := NoErrors;
      isLoading := false;
      successMessage := "";
    }

    /**
     * Clears the errors and the message, builds the errors field by field, and stops with
     * them when there is any; otherwise the account is created and the success message shown.
     * The simulated request always resolves, and only its end state is modelled.
     */
    method HandleSubmit() returns (submitted: bool)
      modifies this
      ensures email == old(email) && password == old(password) && confirmPassword == old(confirmPassword)
      ensures submitted <==> !HasErrors(FieldErrors(email, password, confirmPassword))
      ensures errors == if submitted then NoErrors else FieldErrors(email, password, confirmPassword)
      ensures successMessage == if submitted then AccountCreated else ""
      ensures isLoading == (if submitted then false else old(isLoading))
    {
      errors := NoErrors;
      successMessage := "";
      var newErrors := NoErrors;
      if email == "" {
        newErrors := newErrors.(email := Some(EmailRequired));
      } else if !ValidEmail(email) {
        newErrors := newErrors.(email := Some(EmailInvalid));
      }
      if password == "" {
        newErrors := newErrors.(password := Some(PasswordRequired));
      } else if !ValidPassword(password) {
        newErrors := newErrors.(password := Some(PasswordTooShort));
      }
      if confirmPassword == "" {
        newErrors := newErrors.(confirmPassword := Some(ConfirmRequired));
      } else if password != confirmPassword {
        newErrors := newErrors.(confirmPassword := Some(PasswordsDiffer));
      }
      if HasErrors(newErrors) {
        errors := newErrors;
        return false;
      }
      isLoading := true;
      successMessage := AccountCreated;
      isLoading := false;
      return true;
    }
  }
}

/** The sign-in page's submit handler. */
module SigninPage {
  import opened Common
  import opened Credentials

  datatype SigninErrors = SigninErrors(email: Option<string>, password: Option<string>)

  const NoErrors := SigninErrors(None, None)
  const SignedIn := "Sign in successful! Welcome back."

  /** The error object the handler builds for the two fields. */
  function FieldErrors(email: string, password: string): (r: SigninErrors)
    ensures r.email.None? <==> ValidEmail(email)
    ensures r.password.None? <==> ValidPassword(password)
    ensures r.email == Some(EmailRequired) <==> email == ""
    ensures r.password == Some(PasswordRequired) <==> password == ""
  {
    SigninErrors(EmailError(email), PasswordError(password))
  }

  /** `Object.keys(newErrors).length > 0`: some field holds a message. */
  predicate HasErrors(errors: SigninErrors)
    ensures HasErrors(errors) <==> errors != NoErrors
  {
    errors.email.Some? || errors.password.Some?
  }

  /** The form goes through exactly when the email is well formed and the password long enough. */
  lemma SigninAccepts(email: string, password: string)
    ensures !HasErrors(FieldErrors(email, password)) <==> ValidEmail(email) && ValidPassword(password)
  {
  }

  /** The state of the sign-in page. */
  class SigninForm {
    var email: string
    var password: string
    var errors: SigninErrors
    var isLoading: bool
    var successMessage: string

    constructor()
      ensures email == "" && password == "" && errors == NoErrors && !isLoading && successMessage == ""
    {
      email, password := "", "";
      errors := NoErrors;
      isLoading := false;
      successMessage := "";
    }

    /**
     * Clears the errors and the message, builds the errors field by field, and stops with
     * them when there is any; otherwise signs in and shows the success message.  The
     * simulated request always resolves, and only its end state is modelled.
     */
    method HandleSubmit() returns (submitted: bool)
      modifies this
      ensures email == old(email) && password == old(password)
      ensures submitted <==> !HasErrors(FieldErrors(email, password))
      ensures errors == if submitted then NoErrors else FieldErrors(email, password)
      ensures successMessage == if submitted then SignedIn else ""
      ensures isLoading == (if submitted then false else old(isLoading))
    {
      errors := NoErrors;
      successMessage := "";
      var newErrors := NoErrors;
      if email == "" {
        newErrors := newErrors.(email := Some(EmailRequired));
      } else if !ValidEmail(email) {
        newErrors := newErrors.(email := Some(EmailInvalid));
      }
      if password == "" {
        newErrors := newErrors.(password := Some(PasswordRequired));
      } else if !ValidPassword(password) {
        newErrors := newErrors.(password := Some(PasswordTooShort));
      }
      if HasErrors(newErrors) {
        errors := newErrors;
        return false;
      }
      isLoading := true;
      successMessage := SignedIn;
      isLoading := false;
      return true;
    }
  }
}
