/** i18nurl/__init__.py: `reverse_i18n`, a route lookup run with a chosen
    language active and the previous language put back afterwards. */
module I18nReverse {
  import opened Wrappers
  import opened Routing
  import opened Translation

  /** What `reverse_i18n(name, language, args=args, kwargs=kwargs)` yields: the
      lookup with the arguments if it succeeds, otherwise the bare-name lookup,
      whose `NoReverseMatch` is the one that escapes. Both run in `language`. */
  function ReverseIn(routes: Routes, language: string, name: string, args: seq<string>, kwargs: map<string, string>)
    : (r: Result<string, NoReverseMatch>)
    ensures routes(RouteQuery(language, name, args, kwargs)).Some? ==>
      r == Ok(routes(RouteQuery(language, name, args, kwargs)).value)
    ensures r.Ok? <==> routes(RouteQuery(language, name, args, kwargs)).Some? || routes(BareQuery(language, name)).Some?
    ensures r.Ok? && routes(RouteQuery(language, name, args, kwargs)).None? ==> r == Ok(routes(BareQuery(language, name)).value)
    ensures r.Err? ==> r.error == NotFound(BareQuery(language, name))
  {
    match Reverse(routes, RouteQuery(language, name, args, kwargs))
    case Ok(path) => Ok(path)
    case Err(_) => Reverse(routes, BareQuery(language, name))
  }

  /** `reverse_i18n`: remembers `get_language()`, activates `language`, looks
      the route up (retrying with the bare name on any failure) and, on every
      exit path, activates the remembered language again. */
  method ReverseI18n(t: TranslationState, routes: Routes, name: string, language: string,
                     args: seq<string>, kwargs: map<string, string>) returns (r: Result<string, NoReverseMatch>)
    modifies t`active
    ensures r == ReverseIn(routes, language, name, args, kwargs)
    ensures t.GetLanguage() == old(t.GetLanguage())
    ensures t.active == Some(old(t.GetLanguage()))
  {
    var current := t.GetLanguage();
    t.Activate(language);
    var first := routes(RouteQuery(t.GetLanguage(), name, args, kwargs));
    if first.Some? {
      r := Ok(first.value);
    } else {
      var bare := routes(BareQuery(t.GetLanguage(), name));
      r := if bare.Some? then Ok(bare.value) else Err(NotFound(BareQuery(t.GetLanguage(), name)));
    }
    t.Activate(current);
  }
}
