/** i18n_url/templatetags/i18nurl.py: the older copy of the template tags.
    Its `URLNode.render` does its own activate/restore around Django's
    `reverse` (with no argument-less retry), and hands `activate` the
    language expression as compiled, not its resolved value. Its
    `CurrentURLNode` has no `as NAME` form and no project-qualified retry. */
module LegacyTemplateTags {
  import opened Wrappers
  import opened Text
  import opened Routing
  import opened Translation
  import opened I18nReverse
  import TemplateTags

  /** A compiled `current_i18nurl` tag of this version. */
  datatype CurrentURLNode = CurrentURLNode(language: string)

  /** `i18nurl`: the same compilation as the newer tag, token for token. */
  method I18nUrlTag(tokens: seq<string>) returns (r: Result<TemplateTags.URLNode, TemplateTags.TagError>)
    requires |tokens| >= 1
    ensures r == TemplateTags.ParseI18nUrl(tokens)
    ensures |tokens| < 3 <==> r == Err(TemplateTags.TooFewArguments(tokens[0]))
  {
    r := TemplateTags.I18nUrlTag(tokens);
  }

  /** `current_i18nurl`: exactly one argument after the tag name. */
  function CurrentI18nUrlTag(tokens: seq<string>): (r: Result<CurrentURLNode, TemplateTags.TagError>)
    requires |tokens| >= 1
    ensures r.Ok? <==> |tokens| == 2
    ensures r.Ok? ==> r.value.language == tokens[1]
    ensures r.Err? ==> r.error == TemplateTags.WrongArgumentCount(tokens[0])
  {
    if |tokens| != 2 then Err(TemplateTags.WrongArgumentCount(tokens[0]))
    else Ok(CurrentURLNode(tokens[1]))
  }

  /** The lookup this version's `URLNode.render` makes, all with `language`
      active: Django's `reverse` of the name with its arguments, then of the
      project-qualified name. */
  function LegacyUrlFor(routes: Routes, viewName: string, language: string, args: seq<string>,
                        kwargs: map<string, string>, settingsModule: string): (r: Result<string, NoReverseMatch>)
    ensures r.Err? ==> r == Err(NotFound(RouteQuery(language, viewName, args, kwargs)))
    ensures routes(RouteQuery(language, viewName, args, kwargs)).Some? ==>
      r == Ok(routes(RouteQuery(language, viewName, args, kwargs)).value)
    ensures r.Ok? ==>
      routes(RouteQuery(language, viewName, args, kwargs)) == Some(r.value) ||
      (settingsModule != "" &&
       routes(RouteQuery(language, TemplateTags.ProjectName(settingsModule) + "." + viewName, args, kwargs)) == Some(r.value))
    ensures var qualified := RouteQuery(language, TemplateTags.ProjectName(settingsModule) + "." + viewName, args, kwargs);
      routes(RouteQuery(language, viewName, args, kwargs)).None? && settingsModule != "" && routes(qualified).Some? ==>
      r == Ok(routes(qualified).value)
    ensures var qualified := RouteQuery(language, TemplateTags.ProjectName(settingsModule) + "." + viewName, args, kwargs);
      r.Ok? <==> (routes(RouteQuery(language, viewName, args, kwargs)).Some? || (settingsModule != "" && routes(qualified).Some?))
  {
    TemplateTags.PickUrl(
      Reverse(routes, RouteQuery(language, viewName, args, kwargs)),
      if settingsModule != "" then
        Some(Reverse(routes, RouteQuery(language, TemplateTags.ProjectName(settingsModule) + "." + viewName, args, kwargs)))
      else None)
  }

  /** `URLNode.render`: an empty view name is refused before anything else;
      otherwise the active language is remembered, the node's language
      expression is activated, both lookups run, and the remembered language
      is activated again whatever the outcome. */
  method RenderURLNode(node: TemplateTags.URLNode, t: TranslationState, ctx: TemplateTags.Context, routes: Routes,
                       resolve: string -> string, settingsModule: string) returns (r: Result<string, NoReverseMatch>)
    modifies t`active, ctx`vars
    ensures t.GetLanguage() == old(t.GetLanguage())
    ensures resolve(node.viewName) == "" ==>
      r == Err(EmptyViewName) && ctx.vars == old(ctx.vars) && t.active == old(t.active)
    ensures resolve(node.viewName) != "" ==>
      var picked := LegacyUrlFor(routes, resolve(node.viewName), node.language,
                                 TemplateTags.ResolveArgs(node.args, resolve),
                                 TemplateTags.ResolveKwargs(node.kwargs, resolve), settingsModule);
      r == TemplateTags.Rendered(picked, node.asvar) && ctx.vars == TemplateTags.Stored(old(ctx.vars), picked, node.asvar)
  {
    var args := TemplateTags.ResolveArgs(node.args, resolve);
    var kwargs := TemplateTags.ResolveKwargs(node.kwargs, resolve);
    var viewName := resolve(node.viewName);
    if viewName == "" {
      return Err(EmptyViewName);
    }
    var url := "";
    var failure: Option<NoReverseMatch> := None;
    var current := t.GetLanguage();
    t.Activate(node.language);
    var first := Reverse(routes, RouteQuery(t.GetLanguage(), viewName, args, kwargs));
    if first.Ok? {
      url := first.value;
    } else if settingsModule != "" {
      var projectName := BeforeFirst(settingsModule, '.');
      var second := Reverse(routes, RouteQuery(t.GetLanguage(), projectName + "." + viewName, args, kwargs));
      if second.Ok? {
        url := second.value;
      } else if node.asvar.None? {
        failure := Some(first.error);
      }
    } else if node.asvar.None? {
      failure := Some(first.error);
    }
    t.Activate(current);
    if failure.Some? {
      return Err(failure.value);
    }
    if node.asvar.Some? && node.asvar.value != "" {
      ctx.vars := ctx.vars[node.asvar.value := url];
      return Ok("");
    }
    return Ok(url);
  }

  /** The view name this version rebuilds: always `app_name:url_name`, even
      outside a namespace (`None:home`, or `:home` for an empty namespace). */
  function LegacyViewName(m: TemplateTags.ResolverMatch): (r: string)
    ensures ':' in r
    ensures r == TemplateTags.Format(m.appName) + ":" + TemplateTags.Format(m.urlName)
  {
    var r := TemplateTags.Format(m.appName) + ":" + TemplateTags.Format(m.urlName);
    assert r[|TemplateTags.Format(m.appName)|] == ':';
    r
  }

  /** `CurrentURLNode.render`: `''` without a matched route; otherwise
      `reverse_i18n` of the rebuilt name in the node's language expression,
      whose error escapes. */
  method RenderCurrentURLNode(node: CurrentURLNode, t: TranslationState, routes: Routes,
                              resolverMatch: Option<TemplateTags.ResolverMatch>) returns (r: Result<string, NoReverseMatch>)
    modifies t`active
    ensures t.GetLanguage() == old(t.GetLanguage())
    ensures resolverMatch.None? ==> r == Ok("") && t.active == old(t.active)
    ensures resolverMatch.Some? ==>
      var m := resolverMatch.value;
      r == ReverseIn(routes, node.language, LegacyViewName(m), m.args, m.kwargs)
  {
    if resolverMatch.None? {
      return Ok("");
    }
    var m := resolverMatch.value;
    r := ReverseI18n(t, routes, TemplateTags.Format(m.appName) + ":" + TemplateTags.Format(m.urlName),
                     node.language, m.args, m.kwargs);
  }
}
