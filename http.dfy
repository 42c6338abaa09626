/** The request, user and response objects the package reads and writes. Only
    the attributes the package touches are kept. */
module Http {
  import opened Wrappers

  /** `request.user`. `hasLanguageCode` says whether the user class has a
      `language_code` attribute at all; `saves` counts calls to `user.save()`. */
  class User {
    const hasLanguageCode: bool
    var languageCode: Option<string>
    var saves: nat

    constructor (hasLanguageCode: bool, languageCode: Option<string>)
      ensures this.hasLanguageCode == hasLanguageCode && this.languageCode == languageCode && saves == 0
    {
      this.hasLanguageCode := hasLanguageCode;
      this.languageCode := languageCode;
      saves := 0;
    }
  }

  /** What the language strategies can see of a request: `path_info`,
      `COOKIES`, the session (None when the request has no `session`
      attribute), the parsed `Accept-Language` tags in preference order, and
      the user's `language_code` (None when absent or None). */
  datatype RequestSignals = RequestSignals(
    pathInfo: string,
    cookies: map<string, string>,
    session: Option<map<string, string>>,
    acceptLanguage: seq<string>,
    userLanguage: Option<string>)

  class Request {
    /** `request.LANGUAGE_CODE`; None while the attribute is not set. */
    var languageCode: Option<string>
    /** `request.session`; None when the request has no session. */
    var session: Option<map<string, string>>
    const pathInfo: string
    const cookies: map<string, string>
    /** `parse_accept_lang_header(HTTP_ACCEPT_LANGUAGE)`, the tags only. */
    const acceptLanguage: seq<string>
    const user: User

    constructor (pathInfo: string, cookies: map<string, string>, session: Option<map<string, string>>,
                 acceptLanguage: seq<string>, user: User)
      ensures languageCode == None && this.session == session && this.pathInfo == pathInfo
      ensures this.cookies == cookies && this.acceptLanguage == acceptLanguage && this.user == user
    {
      languageCode := None;
      this.session := session;
      this.pathInfo := pathInfo;
      this.cookies := cookies;
      this.acceptLanguage := acceptLanguage;
      this.user := user;
    }

    function Signals(): RequestSignals
      reads this, user
    {
      RequestSignals(pathInfo, cookies, session, acceptLanguage,
                     if user.hasLanguageCode then user.languageCode else None)
    }
  }

  /** The kinds of response the package produces or passes through. */
  datatype ResponseKind = Redirect(location: string, permanent: bool) | Gone | Page

  class Response {
    const kind: ResponseKind
    /** Headers by lower-case name, as `HttpResponse` stores them. */
    var headers: map<string, string>
    /** The header names listed in `Vary`, in order. */
    var vary: seq<string>
    /** Cookies set with `set_cookie`. */
    var cookies: map<string, string>

    constructor (kind: ResponseKind)
      ensures this.kind == kind && headers == map[] && vary == [] && cookies == map[]
    {
      this.kind := kind;
      headers := map[];
      vary := [];
      cookies := map[];
    }
  }
}
