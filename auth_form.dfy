/**
 * The sign-in / sign-up form (components/auth-form.tsx): per-field
 * validation in login and register mode, the mode toggle, and the call
 * made on a valid submit.
 */
module AuthForm {

  import opened Wrappers
  import opened Strings

  const UsernameRequired := "Username is required"
  const UsernameTooShort := "Username must be at least 3 characters"
  const FullNameRequired := "Full name is required"
  const FullNameTooShort := "Full name must be at least 2 characters"
  const PasswordRequired := "Password is required"
  const PasswordTooShort := "Password must be at least 6 characters"

  /** The `errors` object; a field holds at most one message. */
  datatype AuthErrors = AuthErrors(username: Option<string>, fullName: Option<string>, password: Option<string>)

  const NoErrors := AuthErrors(None, None, None)

  predicate IsEmpty(e: AuthErrors) {
    e.username.None? && e.fullName.None? && e.password.None?
  }

  /** Blank is checked on the trimmed name, the length on the name as typed. */
  function UsernameError(username: string): (e: Option<string>)
    ensures e == Some(UsernameRequired) <==> IsBlank(username)
    ensures e == Some(UsernameTooShort) <==> !IsBlank(username) && |username| < 3
    ensures e.None? <==> !IsBlank(username) && |username| >= 3
  {
    if IsBlank(username) then Some(UsernameRequired)
    else if |username| < 3 then Some(UsernameTooShort)
    else None
  }

  /** Only register mode asks for a full name. */
  function FullNameError(isLogin: bool, fullName: string): (e: Option<string>)
    ensures isLogin ==> e.None?
    ensures e == Some(FullNameRequired) <==> !isLogin && IsBlank(fullName)
    ensures e == Some(FullNameTooShort) <==> !isLogin && !IsBlank(fullName) && |fullName| < 2
    ensures e.None? <==> isLogin || (!IsBlank(fullName) && |fullName| >= 2)
  {
    if !isLogin && IsBlank(fullName) then Some(FullNameRequired)
    else if !isLogin && |fullName| < 2 then Some(FullNameTooShort)
    else None
  }

  /** The password must be non-empty (not trimmed); register mode also wants six characters. */
  function PasswordError(isLogin: bool, password: string): (e: Option<string>)
    ensures e == Some(PasswordRequired) <==> password == ""
    ensures e == Some(PasswordTooShort) <==> !isLogin && password != "" && |password| < 6
    ensures isLogin && password != "" ==> e.None?
    ensures e.None? <==> password != "" && (isLogin || |password| >= 6)
  {
    if password == "" then Some(PasswordRequired)
    else if !isLogin && |password| < 6 then Some(PasswordTooShort)
    else None
  }

  /** `validateForm`: the form is valid iff every field passes its own rule. */
  function Validation(isLogin: bool, username: string, fullName: string, password: string): (r: AuthErrors)
    ensures IsEmpty(r) <==>
      && !IsBlank(username) && |username| >= 3
      && (isLogin || (!IsBlank(fullName) && |fullName| >= 2))
      && password != "" && (isLogin || |password| >= 6)
  {
    AuthErrors(UsernameError(username), FullNameError(isLogin, fullName), PasswordError(isLogin, password))
  }

  /** What a valid form passes on. */
  datatype AuthCall = Login(username: string, password: string) | Register(username: string, password: string, fullName: string)

  /** Whatever register mode accepts, login mode accepts too. */
  lemma RegisterStricterThanLogin(username: string, fullName: string, password: string)
    requires IsEmpty(Validation(false, username, fullName, password))
    ensures IsEmpty(Validation(true, username, fullName, password))
  {
  }

  /** Surrounding spaces count toward the length: "  a" is long enough, although it trims to one letter. */
  lemma PaddedUsernameAccepted()
    ensures UsernameError("  a").None?
  {
    assert !IsWhitespace("  a"[2]);
  }

  /** A password of spaces is not blank for the password rule. */
  lemma SpacePasswordAccepted()
    ensures PasswordError(true, " ").None?
  {
  }

  class AuthFormState {
    var isLogin: bool
    var username: string
    var fullName: string
    var password: string
    var errors: AuthErrors

    constructor ()
      ensures isLogin && username == "" && fullName == "" && password == "" && errors == NoErrors
    {
      isLogin := true;
      username := "";
      fullName := "";
      password := "";
      errors := NoErrors;
    }

    /** The "switch" button; the shown errors stay. */
    method ToggleMode()
      modifies this
      ensures isLogin == !old(isLogin)
      ensures username == old(username) && fullName == old(fullName) && password == old(password)
      ensures errors == old(errors)
    {
      isLogin := !isLogin;
    }

    /** The field inputs. */
    method EditFields(username: string, fullName: string, password: string)
      modifies this
      ensures this.username == username && this.fullName == fullName && this.password == password
      ensures isLogin == old(isLogin) && errors == old(errors)
    {
      this.username := username;
      this.fullName := fullName;
      this.password := password;
    }

    /** `validateForm()`: stores the errors and reports whether there are none. */
    method ValidateForm() returns (valid: bool)
      modifies this
      ensures errors == Validation(isLogin, username, fullName, password)
      ensures valid <==> IsEmpty(errors)
      ensures isLogin == old(isLogin) && username == old(username)
      ensures fullName == old(fullName) && password == old(password)
    {
      var newErrors := NoErrors;
      if IsBlank(username) {
        newErrors := newErrors.(username := Some(UsernameRequired));
      } else if |username| < 3 {
        newErrors := newErrors.(username := Some(UsernameTooShort));
      }
      if !isLogin && IsBlank(fullName) {
        newErrors := newErrors.(fullName := Some(FullNameRequired));
      } else if !isLogin && |fullName| < 2 {
        newErrors := newErrors.(fullName := Some(FullNameTooShort));
      }
      if password == "" {
        newErrors := newErrors.(password := Some(PasswordRequired));
      } else if !isLogin && |password| < 6 {
        newErrors := newErrors.(password := Some(PasswordTooShort));
      }
      errors := newErrors;
      valid := IsEmpty(errors);
    }

    /**
     * `handleSubmit`: an invalid form makes no call; a valid one clears the
     * errors and calls login or register with the fields as typed.
     */
    method HandleSubmit() returns (call: Option<AuthCall>)
      modifies this
      ensures call.Some? <==> IsEmpty(Validation(isLogin, username, fullName, password))
      ensures call.None? ==> errors == Validation(isLogin, username, fullName, password)
      ensures call.Some? ==> errors == NoErrors
      ensures call.Some? && isLogin ==> call.value == Login(username, password)
      ensures call.Some? && !isLogin ==> call.value == Register(username, password, fullName)
      ensures isLogin == old(isLogin) && username == old(username)
      ensures fullName == old(fullName) && password == old(password)
    {
      var valid := ValidateForm();
      if !valid {
        return None;
      }
      errors := NoErrors;
      call := Some(if isLogin then Login(username, password) else Register(username, password, fullName));
    }
  }
}
