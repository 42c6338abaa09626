/** i18nurl/middleware.py: the language-resolution strategies and the
    request/response hooks that activate the chosen language. */
module Middleware {
  import opened Wrappers
  import opened Text
  import opened Config
  import opened Utils
  import opened Http
  import opened Translation

  /** The middleware classes, one per way of finding a language. */
  datatype Strategy =
    | DefaultLanguage
    | UrlPrefixLanguage
    | CookieLanguage
    | SessionLanguage
    | HttpAcceptLanguage
    | UserLanguage

  // ---------------------------------------------------------------------
  // The url-prefix pattern  ^/(?P<language>c1|c2|...)(?P<path>/.*|)$

  /** `(?P<path>/.*|)$` on what follows the code, as Python's `re` reads it:
      `.` stops at a newline, and `$` also matches just before a final newline. */
  predicate PathTailMatches(rest: string)
  {
    rest == "" || rest == "\n" ||
    (rest[0] == '/' && ('\n' !in rest[1..] || (rest[|rest| - 1] == '\n' && '\n' !in rest[1..|rest| - 1])))
  }

  /** The whole pattern matches `path` with `code` as the language group. */
  predicate PrefixMatches(path: string, code: string)
  {
    |path| >= 1 + |code| && path[0] == '/' && path[1..1 + |code|] == code && PathTailMatches(path[1 + |code|..])
  }

  /** The language group of the match: the alternatives are tried in the order
      of `LANGUAGES`, and the first one for which the rest of the pattern
      matches is taken. With no configured code at all, Python's group is
      empty and matches the empty code; the model answers None instead, which
      `UrlPrefixLanguageCode` cannot tell apart, since the support check
      refuses an empty code. */
  function PrefixCode(codes: seq<string>, path: string): (r: Option<string>)
    ensures r.Some? ==> r.value in codes && PrefixMatches(path, r.value)
    ensures r.None? ==> forall c :: c in codes ==> !PrefixMatches(path, c)
  {
    if codes == [] then None
    else if PrefixMatches(path, codes[0]) then Some(codes[0])
    else PrefixCode(codes[1..], path)
  }

  /** Alternation takes the first configured code that matches, even when a
      later one (a longer code sharing its start, say) would match too. */
  lemma {:induction false} PrefixCodeFirstMatch(codes: seq<string>, path: string, i: nat)
    requires i < |codes| && PrefixMatches(path, codes[i])
    requires forall k :: 0 <= k < i ==> !PrefixMatches(path, codes[k])
    ensures PrefixCode(codes, path) == Some(codes[i])
  {
    if i > 0 {
      assert !PrefixMatches(path, codes[0]);
      assert forall k :: 0 <= k < i - 1 ==> codes[1..][k] == codes[k + 1];
      PrefixCodeFirstMatch(codes[1..], path, i - 1);
    }
  }

  // ---------------------------------------------------------------------
  // The strategies: get_language_from_request of each middleware class

  /** `DefaultLanguageMiddleware`: `settings.LANGUAGE_CODE`, unchecked. */
  function DefaultLanguageCode(cfg: Settings): (r: Option<string>)
    ensures r == Some(cfg.languageCode)
  {
    Some(cfg.languageCode)
  }

  /** `UrlPrefixLanguageMiddleware`: the code that prefixes `path_info`,
      filtered through `is_language_supported`. */
  function UrlPrefixLanguageCode(cfg: Settings, loc: Locale, path: string): (r: Option<string>)
    ensures (forall c :: c in cfg.languages ==> !PrefixMatches(path, c)) ==> r.None?
    ensures r.Some? ==>
      exists c :: c in cfg.languages && PrefixMatches(path, c) && r == IsLanguageSupported(loc, Supported(cfg), Some(c))
    ensures PrefixCode(cfg.languages, path).Some? ==>
      r == IsLanguageSupported(loc, Supported(cfg), PrefixCode(cfg.languages, path))
    ensures r.Some? ==> Lower(r.value) in Supported(cfg)
  {
    match PrefixCode(cfg.languages, path)
    case Some(code) => IsLanguageSupported(loc, Supported(cfg), Some(code))
    case None => None
  }

  /** `CookieLanguageMiddleware`: the language cookie, if set, filtered. */
  function CookieLanguageCode(cfg: Settings, loc: Locale, cookies: map<string, string>): (r: Option<string>)
    ensures cfg.cookieName !in cookies ==> r.None?
    ensures cfg.cookieName in cookies ==> r == IsLanguageSupported(loc, Supported(cfg), Some(cookies[cfg.cookieName]))
    ensures r.Some? ==> Lower(r.value) in Supported(cfg)
  {
    IsLanguageSupported(loc, Supported(cfg),
                        if cfg.cookieName in cookies then Some(cookies[cfg.cookieName]) else None)
  }

  /** `SessionLanguageMiddleware`: the session's `django_language`, filtered;
      nothing when the request has no session. */
  function SessionLanguageCode(cfg: Settings, loc: Locale, session: Option<map<string, string>>): (r: Option<string>)
    ensures session.None? || SessionLanguageKey !in session.value ==> r.None?
    ensures session.Some? && SessionLanguageKey in session.value ==>
      r == IsLanguageSupported(loc, Supported(cfg), Some(session.value[SessionLanguageKey]))
    ensures r.Some? ==> Lower(r.value) in Supported(cfg)
  {
    if session.Some? then
      IsLanguageSupported(loc, Supported(cfg),
                          if SessionLanguageKey in session.value then Some(session.value[SessionLanguageKey]) else None)
    else None
  }

  /** `UserLanguageMiddleware`: the user's `language_code`, filtered; an empty
      outcome counts as none. */
  function UserLanguageCode(cfg: Settings, loc: Locale, userLanguage: Option<string>): (r: Option<string>)
    ensures userLanguage.None? ==> r.None?
    ensures r.Some? ==> r.value != "" && r == IsLanguageSupported(loc, Supported(cfg), userLanguage)
    ensures var v := IsLanguageSupported(loc, Supported(cfg), userLanguage);
      v.Some? && v.value != "" ==> r == v
    ensures r.Some? ==> Lower(r.value) in Supported(cfg)
  {
    var language := IsLanguageSupported(loc, Supported(cfg), userLanguage);
    if language.Some? && language.value != "" then language else None
  }

  // ---------------------------------------------------------------------
  // HttpAcceptLanguageMiddleware

  /** An `Accept-Language` tag the walk looks at: it has a non-empty alias entry. */
  predicate Aliased(loc: Locale, tag: string)
  {
    loc.toLocale(tag) in loc.alias && loc.alias[loc.toLocale(tag)] != ""
  }

  /** A lower-cased code the walk accepts: supported and with a catalogue. */
  predicate Acceptable(supported: set<string>, loc: Locale, code: string)
  {
    code in supported && loc.available(code)
  }

  /** What one tag offers: the whole tag, else its primary subtag (before the
      first `-`), each lower-cased. */
  function TagChoice(supported: set<string>, loc: Locale, tag: string): (r: Option<string>)
    ensures r.Some? ==> r.value == Lower(tag) || r.value == Lower(BeforeFirst(tag, '-'))
    ensures r.Some? ==> Acceptable(supported, loc, r.value)
    ensures Acceptable(supported, loc, Lower(tag)) ==> r == Some(Lower(tag))
    ensures r.None? ==> !Acceptable(supported, loc, Lower(tag)) && !Acceptable(supported, loc, Lower(BeforeFirst(tag, '-')))
  {
    if Acceptable(supported, loc, Lower(tag)) then Some(Lower(tag))
    else if Acceptable(supported, loc, Lower(BeforeFirst(tag, '-'))) then Some(Lower(BeforeFirst(tag, '-')))
    else None
  }

  /** The walk over the tags in preference order: `*` ends it with nothing,
      a tag without alias entry is skipped, and the first tag that offers an
      acceptable code decides. */
  function AcceptLanguageCode(supported: set<string>, loc: Locale, tags: seq<string>): (r: Option<string>)
    ensures r.Some? ==> Acceptable(supported, loc, r.value) && Lower(r.value) == r.value
  {
    if tags == [] || tags[0] == "*" then None
    else if !Aliased(loc, tags[0]) then AcceptLanguageCode(supported, loc, tags[1..])
    else
      var choice := TagChoice(supported, loc, tags[0]);
      if choice.Some? then
        LowerIdempotent(tags[0]);
        LowerIdempotent(BeforeFirst(tags[0], '-'));
        choice
      else AcceptLanguageCode(supported, loc, tags[1..])
  }

  /** No tag before position `i` is `*` or offers a code. */
  predicate NoOfferBefore(supported: set<string>, loc: Locale, tags: seq<string>, i: int)
    requires i <= |tags|
  {
    forall j :: 0 <= j < i ==> tags[j] != "*" && (Aliased(loc, tags[j]) ==> TagChoice(supported, loc, tags[j]).None?)
  }

  /** Tag `i` is no `*`, is aliased, offers `r`, and is the first tag that
      could decide. */
  predicate FirstOfferAt(supported: set<string>, loc: Locale, tags: seq<string>, i: int, r: Option<string>)
  {
    0 <= i < |tags| && tags[i] != "*" && Aliased(loc, tags[i]) && TagChoice(supported, loc, tags[i]) == r
    && NoOfferBefore(supported, loc, tags, i)
  }

  /** A first offer after a tag that neither stops nor decides the walk is
      the first offer of the longer list. */
  lemma FirstOfferShift(supported: set<string>, loc: Locale, tags: seq<string>, i: int, r: Option<string>)
    requires tags != [] && tags[0] != "*"
    requires Aliased(loc, tags[0]) ==> TagChoice(supported, loc, tags[0]).None?
    requires FirstOfferAt(supported, loc, tags[1..], i, r)
    ensures FirstOfferAt(supported, loc, tags, i + 1, r)
  {
    assert tags[i + 1] == tags[1..][i];
    forall j | 1 <= j < i + 1
      ensures tags[j] != "*" && (Aliased(loc, tags[j]) ==> TagChoice(supported, loc, tags[j]).None?)
    {
      assert tags[j] == tags[1..][j - 1];
    }
  }

  /** The code the walk returns comes from the first aliased tag that offers
      one, and no `*` stands before that tag. */
  lemma {:induction false} AcceptLanguageFirstOffer(supported: set<string>, loc: Locale, tags: seq<string>)
    ensures AcceptLanguageCode(supported, loc, tags).Some? ==>
      exists i :: FirstOfferAt(supported, loc, tags, i, AcceptLanguageCode(supported, loc, tags))
  {
    var r := AcceptLanguageCode(supported, loc, tags);
    if r.Some? {
      if Aliased(loc, tags[0]) && TagChoice(supported, loc, tags[0]).Some? {
        assert FirstOfferAt(supported, loc, tags, 0, r);
      } else {
        AcceptLanguageFirstOffer(supported, loc, tags[1..]);
        var i :| FirstOfferAt(supported, loc, tags[1..], i, r);
        FirstOfferShift(supported, loc, tags, i, r);
      }
    }
  }

  /** Conversely, the first aliased tag that offers a code, with no `*` before
      it, decides the walk. */
  lemma {:induction false} FirstOfferDecides(supported: set<string>, loc: Locale, tags: seq<string>, i: int, r: Option<string>)
    requires r.Some? && FirstOfferAt(supported, loc, tags, i, r)
    ensures AcceptLanguageCode(supported, loc, tags) == r
  {
    if i > 0 {
      assert tags[0] != "*" && (Aliased(loc, tags[0]) ==> TagChoice(supported, loc, tags[0]).None?);
      assert tags[1..][i - 1] == tags[i];
      forall j | 0 <= j < i - 1
        ensures tags[1..][j] != "*" && (Aliased(loc, tags[1..][j]) ==> TagChoice(supported, loc, tags[1..][j]).None?)
      {
        assert tags[1..][j] == tags[j + 1];
      }
      FirstOfferDecides(supported, loc, tags[1..], i - 1, r);
    }
  }

  /** When no tag before the first `*` (or before the end) offers a code, the
      walk returns None. */
  lemma {:induction false} NoOfferNoCode(supported: set<string>, loc: Locale, tags: seq<string>, k: int)
    requires 0 <= k <= |tags| && NoOfferBefore(supported, loc, tags, k) && (k == |tags| || tags[k] == "*")
    ensures AcceptLanguageCode(supported, loc, tags).None?
  {
    if k > 0 {
      assert tags[0] != "*" && (Aliased(loc, tags[0]) ==> TagChoice(supported, loc, tags[0]).None?);
      assert k < |tags| ==> tags[1..][k - 1] == tags[k];
      forall j | 0 <= j < k - 1
        ensures tags[1..][j] != "*" && (Aliased(loc, tags[1..][j]) ==> TagChoice(supported, loc, tags[1..][j]).None?)
      {
        assert tags[1..][j] == tags[j + 1];
      }
      NoOfferNoCode(supported, loc, tags[1..], k - 1);
    }
  }

  /** Everything after a `*` is ignored. */
  lemma {:induction false} StarEndsWalk(supported: set<string>, loc: Locale, tags: seq<string>, k: nat)
    requires k < |tags| && tags[k] == "*"
    ensures AcceptLanguageCode(supported, loc, tags) == AcceptLanguageCode(supported, loc, tags[..k])
  {
    if k > 0 {
      assert tags[0] != "*" ==> tags[1..][k - 1] == "*";
      if tags[0] != "*" {
        StarEndsWalk(supported, loc, tags[1..], k - 1);
        assert tags[..k][1..] == tags[1..][..k - 1];
      }
    }
  }

  /** A tag with no alias entry changes nothing, wherever it stands. */
  lemma {:induction false} UnaliasedTagIgnored(supported: set<string>, loc: Locale, tags: seq<string>, k: nat)
    requires k < |tags| && tags[k] != "*" && !Aliased(loc, tags[k])
    ensures AcceptLanguageCode(supported, loc, tags) == AcceptLanguageCode(supported, loc, tags[..k] + tags[k + 1..])
  {
    if k == 0 {
      assert tags[..0] + tags[1..] == tags[1..];
    } else if tags[0] != "*" {
      UnaliasedTagIgnored(supported, loc, tags[1..], k - 1);
      var rest := tags[..k] + tags[k + 1..];
      assert rest[0] == tags[0];
      assert rest[1..] == tags[1..][..k - 1] + tags[1..][k..];
    } else {
      var rest := tags[..k] + tags[k + 1..];
      assert rest[0] == "*";
    }
  }

  /** `HttpAcceptLanguageMiddleware.get_language_from_request`: the loop over
      the parsed header, with its `break`, `continue` and early return. */
  method AcceptLanguage(supported: set<string>, loc: Locale, tags: seq<string>) returns (r: Option<string>)
    ensures r == AcceptLanguageCode(supported, loc, tags)
    ensures r.Some? ==> r.value in supported && loc.available(r.value)
  {
    var i := 0;
    while i < |tags|
      invariant 0 <= i <= |tags|
      invariant AcceptLanguageCode(supported, loc, tags) == AcceptLanguageCode(supported, loc, tags[i..])
    {
      var tag := tags[i];
      if tag == "*" {
        assert tags[i..][0] == "*";
        break;
      }
      assert tags[i..][1..] == tags[i + 1..];
      assert tags[i..][0] == tag;
      if !Aliased(loc, tag) {
        i := i + 1;
        continue;
      }
      var candidates := [tag, BeforeFirst(tag, '-')];
      var j := 0;
      while j < 2
        invariant 0 <= j <= 2
        invariant forall m :: 0 <= m < j ==> !Acceptable(supported, loc, Lower(candidates[m]))
      {
        var code := Lower(candidates[j]);
        if code in supported && loc.available(code) {
          assert candidates[0] == tag && candidates[1] == BeforeFirst(tag, '-');
          assert TagChoice(supported, loc, tag) == Some(code);
          assert tags[i..][0] == tag;
          assert AcceptLanguageCode(supported, loc, tags[i..]) == TagChoice(supported, loc, tag);
          return Some(code);
        }
        j := j + 1;
      }
      assert candidates[0] == tag && candidates[1] == BeforeFirst(tag, '-');
      assert TagChoice(supported, loc, tag).None?;
      assert tags[i..][0] == tag;
      i := i + 1;
    }
    return None;
  }

  // ---------------------------------------------------------------------
  // BaseLanguageMiddleware

  /** The strategy of one middleware class applied to a request. */
  function LanguageFromRequest(s: Strategy, cfg: Settings, loc: Locale, sig: RequestSignals): (r: Option<string>)
    ensures s != DefaultLanguage && r.Some? ==> Lower(r.value) in Supported(cfg)
    ensures s == HttpAcceptLanguage && r.Some? ==> loc.available(r.value)
  {
    match s
    case DefaultLanguage => DefaultLanguageCode(cfg)
    case UrlPrefixLanguage => UrlPrefixLanguageCode(cfg, loc, sig.pathInfo)
    case CookieLanguage => CookieLanguageCode(cfg, loc, sig.cookies)
    case SessionLanguage => SessionLanguageCode(cfg, loc, sig.session)
    case HttpAcceptLanguage => AcceptLanguageCode(Supported(cfg), loc, sig.acceptLanguage)
    case UserLanguage => UserLanguageCode(cfg, loc, sig.userLanguage)
  }

  /** `get_language_from_request`, dispatched on the middleware class. */
  method GetLanguageFromRequest(s: Strategy, cfg: Settings, loc: Locale, req: Request) returns (r: Option<string>)
    ensures r == LanguageFromRequest(s, cfg, loc, req.Signals())
  {
    if s == HttpAcceptLanguage {
      r := AcceptLanguage(Supported(cfg), loc, req.acceptLanguage);
    } else {
      r := LanguageFromRequest(s, cfg, loc, req.Signals());
    }
  }

  /** `request.LANGUAGE_CODE` together with the active language. */
  datatype LanguageState = LanguageState(bound: Option<string>, active: Option<string>)

  /** A strategy that has an opinion: it yields a non-empty code. */
  predicate Yields(s: Strategy, cfg: Settings, loc: Locale, sig: RequestSignals)
  {
    var c := LanguageFromRequest(s, cfg, loc, sig);
    c.Some? && c.value != ""
  }

  /** What one `process_request` does to the request's code and the active
      language. */
  function Step(s: Strategy, cfg: Settings, loc: Locale, sig: RequestSignals, st: LanguageState): (r: LanguageState)
    ensures st.bound.Some? || !Yields(s, cfg, loc, sig) ==> r == st
    ensures st.bound.None? && Yields(s, cfg, loc, sig) ==>
      r.bound == r.active == LanguageFromRequest(s, cfg, loc, sig) && r.bound.value != ""
  {
    if st.bound.Some? then st
    else if Yields(s, cfg, loc, sig) then
      var code := LanguageFromRequest(s, cfg, loc, sig).value;
      LanguageState(Some(code), Some(code))
    else st
  }

  /** `process_request`: when the request carries no `LANGUAGE_CODE` yet, ask
      the strategy; a non-empty answer is activated and bound to the request. */
  method ProcessRequest(s: Strategy, cfg: Settings, loc: Locale, req: Request, t: TranslationState)
    modifies req`languageCode, t`active
    ensures LanguageState(req.languageCode, t.active)
      == Step(s, cfg, loc, req.Signals(), LanguageState(old(req.languageCode), old(t.active)))
    ensures old(req.languageCode).Some? ==> req.languageCode == old(req.languageCode) && t.active == old(t.active)
    ensures old(req.languageCode).None? && Yields(s, cfg, loc, req.Signals()) ==>
      req.languageCode == t.active == LanguageFromRequest(s, cfg, loc, req.Signals())
    ensures !Yields(s, cfg, loc, req.Signals()) ==> req.languageCode == old(req.languageCode) && t.active == old(t.active)
  {
    var languageCode := req.languageCode;
    if languageCode.None? {
      var code := GetLanguageFromRequest(s, cfg, loc, req);
      if code.Some? && code.value != "" {
        t.Activate(code.value);
        req.languageCode := code;
      }
    }
  }

  /** A second `process_request` with the same strategy changes nothing. */
  lemma ProcessRequestIdempotent(s: Strategy, cfg: Settings, loc: Locale, sig: RequestSignals, st: LanguageState)
    ensures Step(s, cfg, loc, sig, Step(s, cfg, loc, sig, st)) == Step(s, cfg, loc, sig, st)
  {
  }

  /** Several middleware classes run one after another on the same request. */
  function Chain(ss: seq<Strategy>, cfg: Settings, loc: Locale, sig: RequestSignals, st: LanguageState): (r: LanguageState)
    ensures st.bound.Some? ==> r == st
    ensures r.bound.None? ==> r == st
    ensures st.bound.None? && r.bound.Some? ==> r.active == r.bound && r.bound.value != ""
  {
    if ss == [] then st else Chain(ss[1..], cfg, loc, sig, Step(ss[0], cfg, loc, sig, st))
  }

  /** When no strategy in the chain has an opinion, nothing changes. */
  lemma {:induction false} ChainWithoutOpinion(ss: seq<Strategy>, cfg: Settings, loc: Locale, sig: RequestSignals, st: LanguageState)
    requires forall i :: 0 <= i < |ss| ==> !Yields(ss[i], cfg, loc, sig)
    ensures Chain(ss, cfg, loc, sig, st) == st
  {
    if ss != [] {
      assert !Yields(ss[0], cfg, loc, sig);
      assert forall i :: 0 <= i < |ss| - 1 ==> ss[1..][i] == ss[i + 1];
      ChainWithoutOpinion(ss[1..], cfg, loc, sig, st);
    }
  }

  /** In a chain, the first strategy with an opinion decides both the
      request's code and the active language. */
  lemma {:induction false} ChainFirstWins(ss: seq<Strategy>, cfg: Settings, loc: Locale, sig: RequestSignals,
                                          st: LanguageState, i: nat)
    requires st.bound.None? && i < |ss| && Yields(ss[i], cfg, loc, sig)
    requires forall j :: 0 <= j < i ==> !Yields(ss[j], cfg, loc, sig)
    ensures Chain(ss, cfg, loc, sig, st)
      == LanguageState(LanguageFromRequest(ss[i], cfg, loc, sig), LanguageFromRequest(ss[i], cfg, loc, sig))
  {
    if i > 0 {
      assert !Yields(ss[0], cfg, loc, sig);
      assert ss[1..][i - 1] == ss[i];
      assert forall j :: 0 <= j < i - 1 ==> ss[1..][j] == ss[j + 1];
      ChainFirstWins(ss[1..], cfg, loc, sig, st, i - 1);
    }
  }

  // ---------------------------------------------------------------------
  // process_response

  /** `patch_vary_headers(response, (header,))`: the header is appended unless
      `Vary` already names it, compared without case. */
  function PatchVary(vary: seq<string>, header: string): (r: seq<string>)
    ensures vary <= r && |r| <= |vary| + 1
    ensures exists h :: h in r && Lower(h) == Lower(header)
    ensures (exists h :: h in vary && Lower(h) == Lower(header)) ==> r == vary
    ensures (forall h :: h in vary ==> Lower(h) != Lower(header)) ==> r == vary + [header]
  {
    if exists h :: h in vary && Lower(h) == Lower(header) then vary
    else
      assert header in vary + [header];
      vary + [header]
  }

  /** `process_response`: adds `Accept-Language` to `Vary`, fills in
      `Content-Language` with the active language unless the response has
      one, deactivates the language and hands back the same response. */
  method ProcessResponse(req: Request, response: Response, t: TranslationState) returns (r: Response)
    modifies response`headers, response`vary, t`active
    ensures r == response
    ensures response.vary == PatchVary(old(response.vary), "Accept-Language")
    ensures "content-language" in old(response.headers) ==> response.headers == old(response.headers)
    ensures "content-language" !in old(response.headers) ==>
      response.headers == old(response.headers)["content-language" := old(t.GetLanguage())]
    ensures response.cookies == old(response.cookies)
    ensures t.active == None
  {
    response.vary := PatchVary(response.vary, "Accept-Language");
    if "content-language" !in response.headers {
      response.headers := response.headers["content-language" := t.GetLanguage()];
    }
    t.Deactivate();
    r := response;
  }
}
