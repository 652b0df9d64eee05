/** The application shell: which page or redirect each path renders for a
    signed-in or signed-out user, the chrome around it, and where a chain
    of redirects comes to rest. Paths are matched exactly. */
module AppRoutes {
  import opened Wrappers
  import LoginPage

  datatype Page =
    | EncryptPg | DecryptPg | VaultsPg | ActivityLogPg | KeyGeneratorPg
    | SecureShredderPg | SettingsPg | DocumentationPg | LoginPg

  /** The pages behind `ProtectedRoute`, by path. */
  function ProtectedPage(path: string): (r: Option<Page>)
    ensures r.Some? ==> r.value != LoginPg
    ensures r.Some? <==> path in {"/", "/decrypt", "/vaults", "/activity-log", "/key-generator",
                                  "/secure-shredder", "/settings", "/documentation"}
  {
    if path == "/" then Some(EncryptPg)
    else if path == "/decrypt" then Some(DecryptPg)
    else if path == "/vaults" then Some(VaultsPg)
    else if path == "/activity-log" then Some(ActivityLogPg)
    else if path == "/key-generator" then Some(KeyGeneratorPg)
    else if path == "/secure-shredder" then Some(SecureShredderPg)
    else if path == "/settings" then Some(SettingsPg)
    else if path == "/documentation" then Some(DocumentationPg)
    else None
  }

  /** The path each page lives at. */
  function PathOf(p: Page): (r: string)
    ensures p != LoginPg ==> ProtectedPage(r) == Some(p)
  {
    match p
    case EncryptPg => "/"
    case DecryptPg => "/decrypt"
    case VaultsPg => "/vaults"
    case ActivityLogPg => "/activity-log"
    case KeyGeneratorPg => "/key-generator"
    case SecureShredderPg => "/secure-shredder"
    case SettingsPg => "/settings"
    case DocumentationPg => "/documentation"
    case LoginPg => "/login"
  }

  /** What a route renders: a page, or a redirect carrying the remembered
      pathname when it has one. */
  datatype Rendered = Show(page: Page) | Redirect(to: string, from: Option<string>)

  /** `ProtectedRoute`: the page when signed in, else a replace-redirect to
      the login page remembering where the user was going. */
  function Protected(page: Page, path: string, isAuthenticated: bool): (r: Rendered)
    ensures isAuthenticated ==> r == Show(page)
    ensures !isAuthenticated ==> r == Redirect("/login", Some(path))
  {
    if isAuthenticated then Show(page) else Redirect("/login", Some(path))
  }

  /** The route table as written. `from` is the pathname remembered in the
      location state. */
  function Resolve(path: string, from: Option<string>, isAuthenticated: bool): (r: Rendered)
    ensures path == "/login" ==> r == if isAuthenticated then Redirect("/", None) else Show(LoginPg)
    ensures ProtectedPage(path).Some? ==> r == Protected(ProtectedPage(path).value, path, isAuthenticated)
    ensures path != "/login" && ProtectedPage(path).None? ==>
              r == Redirect(if isAuthenticated then "/" else "/login", None)
  {
    if path == "/login" then (if isAuthenticated then Redirect("/", None) else Show(LoginPg))
    else if ProtectedPage(path).Some? then Protected(ProtectedPage(path).value, path, isAuthenticated)
    else Redirect(if isAuthenticated then "/" else "/login", None)
  }

  /** The route table with the login route deferring to the login page's
      own redirect, so a signed-in user returns where they were going. */
  function ResolveIntended(path: string, from: Option<string>, isAuthenticated: bool): (r: Rendered)
    ensures path == "/login" && isAuthenticated ==> r == Redirect(LoginPage.RedirectTarget(from), None)
    ensures path != "/login" || !isAuthenticated ==> r == Resolve(path, from, isAuthenticated)
  {
    if path == "/login" && isAuthenticated then Redirect(LoginPage.RedirectTarget(from), None)
    else Resolve(path, from, isAuthenticated)
  }

  /** Follows redirects, at most `fuel` of them, to the page that is shown. */
  function Land(path: string, from: Option<string>, isAuthenticated: bool, intended: bool, fuel: nat): (r: Option<Page>)
    ensures r.Some? && !isAuthenticated ==> r.value == LoginPg
    ensures r.Some? && isAuthenticated ==> r.value != LoginPg
    // one redirect settles the route table for a guest, and whenever nothing
    // is remembered; the login page's own redirect can add a second
    ensures fuel >= 1 && (!intended || !isAuthenticated || from.None?) ==> r.Some?
    ensures fuel >= 2 ==> r.Some?
    decreases fuel
  {
    var r := if intended then ResolveIntended(path, from, isAuthenticated) else Resolve(path, from, isAuthenticated);
    match r
    case Show(page) => Some(page)
    case Redirect(to, next) => if fuel == 0 then None else Land(to, next, isAuthenticated, intended, fuel - 1)
  }

  /** Two redirects are always enough: a signed-out user comes to rest on
      the login page, a signed-in one on a protected page. */
  lemma EveryPathLands(path: string, from: Option<string>, isAuthenticated: bool)
    ensures var p := Land(path, from, isAuthenticated, false, 2);
            && p.Some?
            && (!isAuthenticated ==> p == Some(LoginPg))
            && (isAuthenticated ==> p.value != LoginPg)
    ensures isAuthenticated && ProtectedPage(path).Some? ==> Land(path, from, true, false, 0) == ProtectedPage(path)
  {
  }

  /** A signed-out visit to a protected page redirects to the login page and
      remembers the page's path. */
  lemma ProtectedRemembersPath(page: Page, from: Option<string>)
    requires page != LoginPg
    ensures Resolve(PathOf(page), from, false) == Redirect("/login", Some(PathOf(page)))
  {
  }

  /** As written, the remembered path is lost: after signing in on the login
      page the user always lands on the encrypt page, even when they were
      sent there from the vaults page. */
  lemma RememberedPathIsLost(from: Option<string>)
    ensures Land("/login", from, true, false, 2) == Some(EncryptPg)
    ensures Resolve(PathOf(VaultsPg), None, false) == Redirect("/login", Some("/vaults"))
    ensures Land("/login", Some("/vaults"), true, false, 2) != Some(VaultsPg)
  {
  }

  /** With the login route deferring to the login page, signing in returns
      the user to the protected page they asked for. */
  lemma IntendedReturnsToPage(page: Page)
    requires page != LoginPg
    ensures var r := Resolve(PathOf(page), None, false);
            && r == Redirect("/login", Some(PathOf(page)))
            && Land(r.to, r.from, true, true, 1) == Some(page)
  {
  }

  /** Header, sidebar and footer, and the main area's offsets. */
  datatype Chrome = Chrome(header: bool, sidebar: bool, footer: bool, mainClass: string)

  function Layout(isAuthenticated: bool): (r: Chrome)
    ensures r.header <==> isAuthenticated
    ensures r.sidebar <==> isAuthenticated
    ensures r.footer <==> isAuthenticated
  {
    Chrome(isAuthenticated, isAuthenticated, isAuthenticated, if isAuthenticated then "ml-64 pt-16" else "ml-0 pt-0")
  }

  /** The login page is only ever shown without the chrome around it. */
  lemma LoginShownWithoutChrome(path: string, from: Option<string>, isAuthenticated: bool)
    requires Resolve(path, from, isAuthenticated) == Show(LoginPg)
    ensures !Layout(isAuthenticated).header && !Layout(isAuthenticated).sidebar && !Layout(isAuthenticated).footer
  {
  }
}
