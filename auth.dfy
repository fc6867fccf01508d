/** The sign-in page (`/auth`): the login and sign-up forms, their validation rules, the
    mapping of the provider's error texts to Spanish messages, and the navigation to the back
    office once a call succeeds. Whether a text is a well-formed e-mail address is left to the
    caller as the predicate `isEmail`. */
module Auth {
  import opened Entities
  import opened Forms
  import Session
  import Text

  const AdminPath: string := "/admin"

  const InvalidEmailMessage: string := "Email inválido"
  const ShortPasswordMessage: string := "La contraseña debe tener al menos 6 caracteres"
  const ShortNameMessage: string := "El nombre debe tener al menos 2 caracteres"
  const MinPassword: nat := 6
  const MinName: nat := 2

  const ValidationTitle: string := "Error de validación"
  const LoginFailedTitle: string := "Error al iniciar sesión"
  const SignupFailedTitle: string := "Error al registrarse"
  const InvalidCredentials: string := "Invalid login credentials"
  const InvalidCredentialsMessage: string := "Credenciales inválidas"
  const AlreadyRegistered: string := "already registered"
  const AlreadyRegisteredMessage: string := "Este email ya está registrado"

  const WelcomeToast: Toast := Toast("Bienvenido", Some("Has iniciado sesión correctamente"), false)
  const AccountCreatedToast: Toast := Toast("Cuenta creada", Some("Tu cuenta ha sido creada exitosamente"), false)

  datatype LoginForm = LoginForm(email: string, password: string)
  datatype SignupForm = SignupForm(email: string, password: string, fullName: string)

  /** The issues of `loginSchema`, in the order of its fields. */
  function LoginIssues(f: LoginForm, isEmail: string -> bool): seq<string>
  {
    (if isEmail(f.email) then [] else [InvalidEmailMessage]) +
    (if |f.password| >= MinPassword then [] else [ShortPasswordMessage])
  }

  /** The issues of `signupSchema`: those of `loginSchema`, then the name rule. */
  function SignupIssues(f: SignupForm, isEmail: string -> bool): seq<string>
  {
    LoginIssues(LoginForm(f.email, f.password), isEmail) +
    (if |f.fullName| >= MinName then [] else [ShortNameMessage])
  }

  /** The message a failed parse shows: the first issue, if any. */
  function FirstIssue(issues: seq<string>): (r: Option<string>)
    ensures r.None? <==> issues == []
    ensures r.Some? ==> r.value == issues[0]
  {
    if issues == [] then None else Some(issues[0])
  }

  /** `loginSchema.parse`: a well-formed e-mail and a password of at least 6 characters pass;
      otherwise the e-mail rule is reported before the password rule. */
  function ValidateLogin(f: LoginForm, isEmail: string -> bool): (r: Option<string>)
    ensures r.None? <==> isEmail(f.email) && |f.password| >= MinPassword
    ensures r == Some(InvalidEmailMessage) <==> !isEmail(f.email)
    ensures r == Some(ShortPasswordMessage) <==> isEmail(f.email) && |f.password| < MinPassword
  {
    FirstIssue(LoginIssues(f, isEmail))
  }

  /** `signupSchema.parse`: the login rules, then a name of at least 2 characters. */
  function ValidateSignup(f: SignupForm, isEmail: string -> bool): (r: Option<string>)
    ensures r.None? <==> isEmail(f.email) && |f.password| >= MinPassword && |f.fullName| >= MinName
    ensures r == Some(InvalidEmailMessage) <==> !isEmail(f.email)
    ensures r == Some(ShortPasswordMessage) <==> isEmail(f.email) && |f.password| < MinPassword
    ensures r == Some(ShortNameMessage) <==>
      isEmail(f.email) && |f.password| >= MinPassword && |f.fullName| < MinName
  {
    FirstIssue(SignupIssues(f, isEmail))
  }

  /** The sign-up schema extends the login schema: whenever the login fields fail, sign-up
      reports the same message, and sign-up passes only where login passes. */
  lemma SignupExtendsLogin(f: SignupForm, isEmail: string -> bool)
    ensures ValidateLogin(LoginForm(f.email, f.password), isEmail).Some? ==>
      ValidateSignup(f, isEmail) == ValidateLogin(LoginForm(f.email, f.password), isEmail)
    ensures ValidateSignup(f, isEmail).None? ==> ValidateLogin(LoginForm(f.email, f.password), isEmail).None?
  {
  }

  /** The login error text shown: only the exact credentials message is translated. */
  function LoginErrorMessage(message: string): (r: string)
    ensures message == InvalidCredentials ==> r == InvalidCredentialsMessage
    ensures message != InvalidCredentials ==> r == message
  {
    if message == InvalidCredentials then InvalidCredentialsMessage else message
  }

  /** The sign-up error text shown: any message mentioning `already registered` is translated. */
  function SignupErrorMessage(message: string): (r: string)
    ensures Text.Contains(message, AlreadyRegistered) ==> r == AlreadyRegisteredMessage
    ensures !Text.Contains(message, AlreadyRegistered) ==> r == message
  {
    if Text.Contains(message, AlreadyRegistered) then AlreadyRegisteredMessage else message
  }

  /** A provider message that merely contains the credentials text is shown unchanged, while any
      message that contains `already registered` is translated on sign-up. */
  lemma ExactVersusContains(prefix: string)
    requires prefix != ""
    ensures LoginErrorMessage(prefix + InvalidCredentials) == prefix + InvalidCredentials
    ensures SignupErrorMessage(prefix + AlreadyRegistered) == AlreadyRegisteredMessage
  {
    assert |prefix + InvalidCredentials| != |InvalidCredentials|;
    Text.ContainsSuffix(prefix, AlreadyRegistered);
  }

  /** The page is on screen: no user (with a user it renders nothing). */
  predicate FormShown(app: Session.App)
    reads app
  {
    app.user.None?
  }

  /** Rendering the page: with a user present it navigates to the back office. */
  method RenderAuth(app: Session.App) returns (shown: bool)
    modifies app`location
    ensures shown <==> app.user.None?
    ensures app.user.Some? ==> app.location == AdminPath
    ensures app.user.None? ==> app.location == old(app.location)
  {
    shown := app.user.None?;
    if !shown {
      app.Navigate(AdminPath);
    }
  }

  /** `handleLogin` up to the `await`. A click on the disabled button, or with a `required`
      field empty, does not reach the handler. A form the schema rejects shows its first
      message and calls nothing. Otherwise the page turns busy and `signIn` is called. */
  method HandleLogin(app: Session.App, f: LoginForm, isEmail: string -> bool) returns (toast: Option<Toast>)
    requires app.Valid()
    modifies app`authBusy, app`pending, app`calls
    ensures app.Valid()
    ensures old(app.authBusy) || !FormShown(app) || f.email == "" || f.password == "" ==>
      toast.None? && app.calls == old(app.calls) && app.authBusy == old(app.authBusy) && app.pending == old(app.pending)
    ensures !old(app.authBusy) && FormShown(app) && f.email != "" && f.password != "" ==>
      var issue := ValidateLogin(f, isEmail);
      && (issue.Some? ==>
            toast == Some(ErrorToast(ValidationTitle, issue.value)) && app.calls == old(app.calls) && !app.authBusy)
      && (issue.None? ==>
            toast.None? && app.calls == old(app.calls) + [Session.SignIn(f.email, f.password)] && app.authBusy)
  {
    toast := None;
    if app.authBusy || !FormShown(app) || f.email == "" || f.password == "" {
      return;
    }
    var issue := ValidateLogin(f, isEmail);
    if issue.Some? {
      toast := Some(ErrorToast(ValidationTitle, issue.value));
      return;
    }
    app.authBusy := true;
    app.pending := Some(Session.SignIn(f.email, f.password));
    app.calls := app.calls + [Session.SignIn(f.email, f.password)];
  }

  /** `handleLogin` after `signIn` answered: the page is no longer busy; an error is shown
      (translated by `LoginErrorMessage`) and nobody moves; success greets and navigates to the
      back office. */
  method LoginReturned(app: Session.App, error: Option<string>) returns (toast: Toast)
    requires app.Valid() && app.pending.Some? && app.pending.value.SignIn?
    modifies app`authBusy, app`pending, app`location
    ensures app.Valid() && !app.authBusy
    ensures error.Some? ==>
      toast == ErrorToast(LoginFailedTitle, LoginErrorMessage(error.value)) && app.location == old(app.location)
    ensures error.None? ==> toast == WelcomeToast && app.location == AdminPath
  {
    app.authBusy := false;
    app.pending := None;
    if error.Some? {
      toast := ErrorToast(LoginFailedTitle, LoginErrorMessage(error.value));
    } else {
      toast := WelcomeToast;
      app.Navigate(AdminPath);
    }
  }

  /** `handleSignup` up to the `await`, with the same gates as `HandleLogin` and the name rule. */
  method HandleSignup(app: Session.App, f: SignupForm, isEmail: string -> bool) returns (toast: Option<Toast>)
    requires app.Valid()
    modifies app`authBusy, app`pending, app`calls
    ensures app.Valid()
    ensures old(app.authBusy) || !FormShown(app) || f.email == "" || f.password == "" || f.fullName == "" ==>
      toast.None? && app.calls == old(app.calls) && app.authBusy == old(app.authBusy) && app.pending == old(app.pending)
    ensures !old(app.authBusy) && FormShown(app) && f.email != "" && f.password != "" && f.fullName != "" ==>
      var issue := ValidateSignup(f, isEmail);
      && (issue.Some? ==>
            toast == Some(ErrorToast(ValidationTitle, issue.value)) && app.calls == old(app.calls) && !app.authBusy)
      && (issue.None? ==>
            toast.None? && app.calls == old(app.calls) + [Session.SignUp(f.email, f.password, f.fullName)] && app.authBusy)
  {
    toast := None;
    if app.authBusy || !FormShown(app) || f.email == "" || f.password == "" || f.fullName == "" {
      return;
    }
    var issue := ValidateSignup(f, isEmail);
    if issue.Some? {
      toast := Some(ErrorToast(ValidationTitle, issue.value));
      return;
    }
    app.authBusy := true;
    app.pending := Some(Session.SignUp(f.email, f.password, f.fullName));
    app.calls := app.calls + [Session.SignUp(f.email, f.password, f.fullName)];
  }

  /** `handleSignup` after `signUp` answered. */
  method SignupReturned(app: Session.App, error: Option<string>) returns (toast: Toast)
    requires app.Valid() && app.pending.Some? && app.pending.value.SignUp?
    modifies app`authBusy, app`pending, app`location
    ensures app.Valid() && !app.authBusy
    ensures error.Some? ==>
      toast == ErrorToast(SignupFailedTitle, SignupErrorMessage(error.value)) && app.location == old(app.location)
    ensures error.None? ==> toast == AccountCreatedToast && app.location == AdminPath
  {
    app.authBusy := false;
    app.pending := None;
    if error.Some? {
      toast := ErrorToast(SignupFailedTitle, SignupErrorMessage(error.value));
    } else {
      toast := AccountCreatedToast;
      app.Navigate(AdminPath);
    }
  }

  /** A second submit while the first call is outstanding calls nothing: at most one provider
      call is in flight. */
  method DoubleSubmit(app: Session.App, f: LoginForm, isEmail: string -> bool)
    requires app.Valid() && !app.authBusy && app.user.None?
    requires f.email != "" && isEmail(f.email) && |f.password| >= MinPassword
    modifies app
    ensures app.calls == old(app.calls) + [Session.SignIn(f.email, f.password)]
    ensures app.authBusy
  {
    var first := HandleLogin(app, f, isEmail);
    var second := HandleLogin(app, f, isEmail);
  }
}
