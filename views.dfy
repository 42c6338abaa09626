/** i18nurl/views.py: the view that redirects to the default page and the
    view that stores a chosen language. */
module Views {
  import opened Wrappers
  import opened Config
  import opened Routing
  import opened Translation
  import opened Http

  /** `GuessLanguageView.get`: a temporary redirect to the configured default
      route, reversed in the active language; a `NoReverseMatch` escapes, and
      an empty path would make `RedirectView` answer 410 Gone. */
  function GuessLanguage(routes: Routes, activeLanguage: string, cfg: Settings): (r: Result<ResponseKind, NoReverseMatch>)
    ensures r.Err? <==> routes(BareQuery(activeLanguage, cfg.redirectUrlName)).None?
    ensures r.Err? ==> r.error == NotFound(BareQuery(activeLanguage, cfg.redirectUrlName))
    ensures var target := routes(BareQuery(activeLanguage, cfg.redirectUrlName));
      target.Some? && target.value != "" ==> r == Ok(Redirect(target.value, false))
    ensures routes(BareQuery(activeLanguage, cfg.redirectUrlName)) == Some("") <==> r == Ok(Gone)
    ensures r.Ok? ==> r.value.Redirect? || r.value.Gone?
  {
    match Reverse(routes, BareQuery(activeLanguage, cfg.redirectUrlName))
    case Err(e) => Err(e)
    case Ok(url) => if url != "" then Ok(Redirect(url, false)) else Ok(Gone)
  }

  /** The cleaned data of `LanguageSelectionForm`. */
  datatype LanguageForm = LanguageForm(language: string, next: string, temporary: bool)

  /** Which stores `form_valid` writes the chosen language to. */
  datatype Writes = Writes(profile: bool, session: bool, cookie: bool)

  /** The persistence decision: nothing for a temporary choice; otherwise the
      user's profile when it has a `language_code` that differs, and in any
      case the session when there is one, else a cookie. */
  function Persistence(form: LanguageForm, hasLanguageCode: bool, userLanguage: Option<string>, hasSession: bool)
    : (w: Writes)
    ensures form.temporary ==> !w.profile && !w.session && !w.cookie
    ensures !form.temporary ==> w.session || w.cookie
    ensures !(w.session && w.cookie)
    ensures w.session ==> hasSession
    ensures w.cookie ==> !hasSession
    ensures w.profile <==> !form.temporary && hasLanguageCode && userLanguage != Some(form.language)
  {
    var remember := !form.temporary;
    Writes(remember && hasLanguageCode && userLanguage != Some(form.language),
           remember && hasSession,
           remember && !hasSession)
  }

  /** Where `form_valid` redirects: `next` when non-empty, otherwise the
      default route reversed with the chosen language in effect. */
  function RedirectTarget(routes: Routes, form: LanguageForm, cfg: Settings): (r: Result<string, NoReverseMatch>)
    ensures form.next != "" ==> r == Ok(form.next)
    ensures form.next == "" ==> (r.Ok? <==> routes(BareQuery(form.language, cfg.redirectUrlName)).Some?)
    ensures form.next == "" && r.Ok? ==> routes(BareQuery(form.language, cfg.redirectUrlName)) == Some(r.value)
  {
    if form.next != "" then Ok(form.next)
    else Reverse(routes, BareQuery(form.language, cfg.redirectUrlName))
  }

  /** `SetLanguageView.form_valid`: computes the redirect target (under
      `override(language)` when `next` is empty), then, unless the choice is
      temporary, writes it to the user's profile (and saves it) when needed,
      and to the session or, without a session, to a cookie of the redirect. */
  method FormValid(form: LanguageForm, req: Request, t: TranslationState, routes: Routes, cfg: Settings)
    returns (r: Result<Response, NoReverseMatch>)
    modifies req`session, req.user`languageCode, req.user`saves, t`active
    ensures t.GetLanguage() == old(t.GetLanguage())
    ensures RedirectTarget(routes, form, cfg).Err? ==>
      r == Err(RedirectTarget(routes, form, cfg).error) && req.session == old(req.session)
      && req.user.languageCode == old(req.user.languageCode) && req.user.saves == old(req.user.saves)
    ensures RedirectTarget(routes, form, cfg).Ok? ==>
      r.Ok? && fresh(r.value) && r.value.kind == Redirect(RedirectTarget(routes, form, cfg).value, false)
      && r.value.headers == map[] && r.value.vary == []
    ensures var w := Persistence(form, req.user.hasLanguageCode, old(req.user.languageCode), old(req.session).Some?);
      RedirectTarget(routes, form, cfg).Ok? ==>
        && req.user.languageCode == (if w.profile then Some(form.language) else old(req.user.languageCode))
        && req.user.saves == old(req.user.saves) + (if w.profile then 1 else 0)
        && req.session == (if w.session then Some(old(req.session).value[SessionLanguageKey := form.language])
                           else old(req.session))
        && r.value.cookies == (if w.cookie then map[cfg.cookieName := form.language] else map[])
  {
    var redirectUrl := form.next;
    var remember := !form.temporary;
    if redirectUrl == "" {
      var current := t.GetLanguage();
      t.Activate(form.language);
      var target := Reverse(routes, BareQuery(t.GetLanguage(), cfg.redirectUrlName));
      t.Activate(current);
      if target.Err? {
        return Err(target.error);
      }
      redirectUrl := target.value;
    }
    var response := new Response(Redirect(redirectUrl, false));
    if remember {
      var user := req.user;
      if user.hasLanguageCode && user.languageCode != Some(form.language) {
        user.languageCode := Some(form.language);
        user.saves := user.saves + 1;
      }
      if req.session.Some? {
        req.session := Some(req.session.value[SessionLanguageKey := form.language]);
      } else {
        response.cookies := response.cookies[cfg.cookieName := form.language];
      }
    }
    r := Ok(response);
  }
}
