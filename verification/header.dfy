/** The header: the theme and language toggles, the right-to-left flag,
    the language badge and the welcome line. */
module Header {
  import opened Wrappers
  import opened Types
  import AppContext
  import Text

  /** `toggleTheme`: dark becomes light, anything else dark. */
  function ToggleTheme(t: Theme): (r: Theme)
    ensures r != t
    ensures r == Light <==> t == Dark
  {
    if t == Dark then Light else Dark
  }

  /** `toggleLanguage`: English becomes Arabic, anything else English. */
  function ToggleLanguage(l: Language): (r: Language)
    ensures r != l
    ensures r == Arabic <==> l == English
  {
    if l == English then Arabic else English
  }

  /** Each toggle undoes itself. */
  lemma TogglesAreInvolutions(t: Theme, l: Language)
    ensures ToggleTheme(ToggleTheme(t)) == t
    ensures ToggleLanguage(ToggleLanguage(l)) == l
  {
  }

  /** `language === 'ar'`. */
  predicate IsRTL(l: Language) {
    LanguageTag(l) == "ar"
  }

  /** The layout is right-to-left exactly for Arabic, and toggling the
      language always flips the direction. */
  lemma RTLIffArabic(l: Language)
    ensures IsRTL(l) <==> l == Arabic
    ensures IsRTL(ToggleLanguage(l)) <==> !IsRTL(l)
  {
  }

  /** The badge on the language button. */
  function Badge(l: Language): (r: string)
    ensures r == "AR" <==> l == English
    ensures r == "EN" <==> l != English
  {
    if l == English then "AR" else "EN"
  }

  /** The badge names the language the button switches to. */
  lemma BadgeNamesTarget(l: Language)
    ensures Badge(l) == if ToggleLanguage(l) == Arabic then "AR" else "EN"
  {
  }

  /** The welcome line: shown only to a signed-in user, with the user's
      name substituted into the `welcomeBack` text. */
  function Welcome(s: AppContext.Session, loc: AppContext.Locale): (r: Option<string>)
    ensures r.Some? <==> s.isAuthenticated && s.currentUser.Some?
    ensures r.Some? ==> r.value == AppContext.Translate(loc, "welcomeBack", [s.currentUser.value.username])
  {
    if s.isAuthenticated && s.currentUser.Some?
    then Some(AppContext.Translate(loc, "welcomeBack", [s.currentUser.value.username]))
    else None
  }

  /** After logout there is no welcome line; after a successful login it
      greets the trimmed username. */
  lemma WelcomeFollowsSession(s: AppContext.Session, username: string, password: string, freshId: string,
                              loc: AppContext.Locale)
    ensures Welcome(AppContext.Logout(s).0, loc).None?
    ensures var l := AppContext.Login(s, username, password, freshId);
            l.success ==>
              Welcome(l.session, loc) == Some(AppContext.Translate(loc, "welcomeBack", [Text.Trim(username)]))
  {
  }

  /** For a template `t0{0}t1` with no other brace, the line is the
      template with the username in place of `{0}`. */
  lemma WelcomeShowsName(s: AppContext.Session, loc: AppContext.Locale, t0: string, t1: string)
    requires s.isAuthenticated && s.currentUser.Some?
    requires AppContext.Lookup(loc, "welcomeBack") == t0 + AppContext.Placeholder(0) + t1
    requires AppContext.NoChar(t0, '{') && AppContext.NoChar(t1, '{')
    requires AppContext.NoChar(s.currentUser.value.username, '{')
    ensures Welcome(s, loc) == Some(t0 + s.currentUser.value.username + t1)
  {
    AppContext.TranslateFillsPlaceholder(loc, "welcomeBack", [s.currentUser.value.username], t0, t1, 0);
  }

  /** The header's `translate` expands `$` patterns in the username; for a
      name without `$` that is the same line. */
  lemma WelcomeAsWrittenAgrees(s: AppContext.Session, loc: AppContext.Locale)
    requires s.isAuthenticated && s.currentUser.Some?
    requires AppContext.NoChar(s.currentUser.value.username, '$')
    ensures Welcome(s, loc) == Some(AppContext.TranslateAsWritten(loc, "welcomeBack", [s.currentUser.value.username]))
  {
    AppContext.TranslateAgreesWithoutDollar(loc, "welcomeBack", [s.currentUser.value.username]);
  }
}
