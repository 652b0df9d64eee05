/** The login page: where it sends an authenticated user, and how a submit
    moves the error and loading flags around the mock `login`. */
module LoginPage {
  import opened Wrappers
  import opened PageCommon
  import AppContext

  datatype LoginPageState = LoginPageState(
    username: string,
    password: string,
    showPassword: bool,
    error: string,
    isLoading: bool)

  function InitialState(): (r: LoginPageState)
    ensures r.error == "" && !r.isLoading && !r.showPassword
  {
    LoginPageState("", "", false, "", false)
  }

  /** `location.state?.from?.pathname || "/"`: the remembered pathname, or
      the root when there is none. */
  function RedirectTarget(from: Option<string>): (r: string)
    ensures r != ""
    ensures Truthy(from) ==> r == from.value
    ensures !Truthy(from) ==> r == "/"
  {
    if Truthy(from) then from.value else "/"
  }

  /** What the page renders: a redirect once authenticated, else the form. */
  datatype LoginView = RedirectTo(path: string) | LoginForm

  function View(isAuthenticated: bool, from: Option<string>): (r: LoginView)
    ensures r.RedirectTo? <==> isAuthenticated
    ensures isAuthenticated ==> r.path == RedirectTarget(from)
  {
    if isAuthenticated then RedirectTo(RedirectTarget(from)) else LoginForm
  }

  /** A submit: the state while `login` runs, the settled state, and what
      `login` did. */
  datatype Submit = Submit(atCall: LoginPageState, settled: LoginPageState, login: AppContext.LoginResult)

  /** `handleSubmit`: the error is cleared and loading set before `login`
      is called; once it resolves loading is off, and the invalid-credentials
      message is shown iff it resolved to false. */
  function HandleSubmit(st: LoginPageState, loc: AppContext.Locale, session: AppContext.Session,
                        freshId: string): (r: Submit)
    ensures r.atCall == st.(error := "", isLoading := true)
    ensures r.login == AppContext.Login(session, st.username, st.password, freshId)
    ensures !r.settled.isLoading
    ensures r.settled.error == if r.login.success then "" else AppContext.T(loc, "invalidCredentials")
    ensures r.settled.username == st.username && r.settled.password == st.password
  {
    var atCall := st.(error := "", isLoading := true);
    var result := AppContext.Login(session, st.username, st.password, freshId);
    var settled := atCall.(isLoading := false);
    Submit(atCall, if result.success then settled else settled.(error := AppContext.T(loc, "invalidCredentials")), result)
  }

  /** An error is left showing exactly when the credentials were refused, so
      a successful retry always clears an earlier error. */
  lemma ErrorIffRefused(st: LoginPageState, loc: AppContext.Locale, session: AppContext.Session, freshId: string)
    ensures var r := HandleSubmit(st, loc, session, freshId);
            r.settled.error != "" <==> !r.login.success
    ensures var r := HandleSubmit(st, loc, session, freshId);
            r.login.success ==> r.login.session.isAuthenticated && View(true, None) == RedirectTo("/")
  {
  }
}
