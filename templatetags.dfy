/** i18nurl/templatetags/i18nurl.py: the `i18nurl` and `current_i18nurl`
    template tags. A tag is compiled from its tokens into a node; rendering the
    node reverses a route in a language, falling back to a name qualified by
    the project package. Template expressions are kept as their token text and
    resolved at render time by a given function. */
module TemplateTags {
  import opened Wrappers
  import opened Text
  import opened Routing
  import opened Translation
  import opened I18nReverse

  /** The `TemplateSyntaxError`s the parsers raise. */
  datatype TagError =
    | TooFewArguments(tag: string)
    | MalformedArguments
    | WrongArgumentCount(tag: string)

  /** One argument token, as `kwarg_re` reads it. */
  datatype Arg = Keyword(name: string, value: string) | Positional(value: string)

  /** A compiled `i18nurl` tag (`URLNode`); all fields are unresolved expressions
      except `asvar`. */
  datatype URLNode = URLNode(viewName: string, language: string, args: seq<string>,
                             kwargs: map<string, string>, asvar: Option<string>)

  /** A compiled `current_i18nurl` tag (`CurrentURLNode`). */
  datatype CurrentURLNode = CurrentURLNode(language: string, asvar: Option<string>)

  /** `request.resolver_match`: the matched route's namespace, name (either may
      be None) and arguments. */
  datatype ResolverMatch = ResolverMatch(appName: Option<string>, urlName: Option<string>,
                                         args: seq<string>, kwargs: map<string, string>)

  /** The template context's variables, written by `context[asvar] = url`. */
  class Context {
    var vars: map<string, string>

    constructor (vars: map<string, string>)
      ensures this.vars == vars
    {
      this.vars := vars;
    }
  }

  // ---------------------------------------------------------------------
  // Compiling the tag

  /** `kwarg_re = (?:(\w+)=)?(.+)` applied with `match`: `name=value` when the
      token starts with a `\w` run, `=` and at least one more character on the
      line; otherwise the whole token, up to a newline, is positional. */
  function KwargMatch(bit: string): Option<Arg>
  {
    var n := WordPrefixLength(bit);
    if 0 < n && n + 1 < |bit| && bit[n] == '=' && bit[n + 1] != '\n' then
      Some(Keyword(bit[..n], BeforeFirst(bit[n + 1..], '\n')))
    else if bit != [] && bit[0] != '\n' then Some(Positional(BeforeFirst(bit, '\n')))
    else None
  }

  /** The token is a keyword argument whose name is its first `n`
      characters: a non-empty `\w` run, then `=`, then a character that is
      not a newline. */
  predicate KeywordAt(bit: string, n: int)
  {
    0 < n && n + 1 < |bit| && (forall i :: 0 <= i < n ==> IsWordChar(bit[i]))
    && bit[n] == '=' && bit[n + 1] != '\n'
  }

  /** Whenever a token has the keyword form, the match reads it as that
      keyword, its value running to the first newline; so `KeywordAt` at some
      `n` is exactly what makes a token a keyword. */
  lemma KeywordWhen(bit: string, n: int)
    requires KeywordAt(bit, n)
    ensures KwargMatch(bit) == Some(Keyword(bit[..n], BeforeFirst(bit[n + 1..], '\n')))
  {
    assert !IsWordChar(bit[n]);
  }

  /** What a match reads: no match only for an empty token or one that starts
      with a newline; a keyword has the keyword form at its name's length and
      a non-empty value running from after the `=` to the first newline; a
      positional value is the token up to its first newline. */
  lemma KwargMatchShape(bit: string)
    ensures KwargMatch(bit).None? <==> bit == [] || bit[0] == '\n'
    ensures KwargMatch(bit).Some? && KwargMatch(bit).value.Keyword? ==>
      var a := KwargMatch(bit).value;
      KeywordAt(bit, |a.name|) && a.value != [] && a.name + "=" + a.value <= bit
      && a.value == BeforeFirst(bit[|a.name| + 1..], '\n')
    ensures KwargMatch(bit).Some? && KwargMatch(bit).value.Positional? ==>
      var a := KwargMatch(bit).value;
      a.value != [] && a.value == BeforeFirst(bit, '\n')
  {
    var n := WordPrefixLength(bit);
    if 0 < n && n + 1 < |bit| && bit[n] == '=' && bit[n + 1] != '\n' {
      var value := BeforeFirst(bit[n + 1..], '\n');
      assert KwargMatch(bit) == Some(Keyword(bit[..n], value));
      assert value != [] by {
        assert bit[n + 1..][0] != '\n';
      }
      assert KeywordAt(bit, n);
      KeywordPrefix(bit, n, value);
    } else if bit != [] && bit[0] != '\n' {
      assert KwargMatch(bit) == Some(Positional(BeforeFirst(bit, '\n')));
    }
  }

  /** A name, `=` and a prefix of what follows the `=` form a prefix of the token. */
  lemma KeywordPrefix(bit: string, n: nat, value: string)
    requires n < |bit| && bit[n] == '=' && value <= bit[n + 1..]
    ensures bit[..n] + "=" + value <= bit
  {
    var m := n + 1 + |value|;
    assert bit[n + 1..m] == value;
    assert bit[..m] == bit[..n] + [bit[n]] + bit[n + 1..m];
  }

  /** A trailing `as NAME` taken off the tokens: the rest and the name. */
  function SplitAsVar(bits: seq<string>): (r: (seq<string>, Option<string>))
    ensures r.1.Some? <==> |bits| >= 2 && bits[|bits| - 2] == "as"
    ensures r.1.None? ==> r.0 == bits
    ensures r.1.Some? ==> r.0 + ["as", r.1.value] == bits
  {
    if |bits| >= 2 && bits[|bits| - 2] == "as" then
      assert bits[..|bits| - 2] + ["as", bits[|bits| - 1]] == bits;
      (bits[..|bits| - 2], Some(bits[|bits| - 1]))
    else (bits, None)
  }

  /** The argument loop's outcome after the given tokens: positional values
      appended in order, keyword values stored by name (a later one replacing
      an earlier one), the first malformed token an error. */
  function SplitArgs(bits: seq<string>): Result<(seq<string>, map<string, string>), TagError>
  {
    if bits == [] then Ok(([], map[]))
    else
      match SplitArgs(bits[..|bits| - 1])
      case Err(e) => Err(e)
      case Ok(sofar) => AddArg(sofar, bits[|bits| - 1])
  }

  /** One pass of the argument loop: a keyword is stored by name, a positional
      value appended, a token that does not match refused. */
  function AddArg(sofar: (seq<string>, map<string, string>), bit: string): Result<(seq<string>, map<string, string>), TagError>
  {
    match KwargMatch(bit)
    case None => Err(MalformedArguments)
    case Some(Keyword(name, value)) => Ok((sofar.0, sofar.1[name := value]))
    case Some(Positional(value)) => Ok((sofar.0 + [value], sofar.1))
  }

  /** The loop's outcome after `i + 1` tokens, from its outcome after `i`. */
  lemma SplitArgsPrefix(bits: seq<string>, i: nat)
    requires i < |bits|
    ensures SplitArgs(bits[..i + 1]) ==
      match SplitArgs(bits[..i])
      case Err(e) => Err(e)
      case Ok(sofar) => AddArg(sofar, bits[i])
  {
    assert bits[..i + 1][..i] == bits[..i];
  }

  /** The name of a keyword token, if it is one. */
  function KeywordName(bit: string): Option<string>
  {
    match KwargMatch(bit)
    case Some(Keyword(name, _)) => Some(name)
    case _ => None
  }

  /** The positional values among the tokens, left to right. */
  function Positionals(bits: seq<string>): seq<string>
  {
    if bits == [] then []
    else
      (match KwargMatch(bits[0]) case Some(Positional(v)) => [v] case _ => [])
      + Positionals(bits[1..])
  }

  lemma {:induction false} PositionalsSnoc(bits: seq<string>, bit: string)
    ensures Positionals(bits + [bit]) == Positionals(bits) + Positionals([bit])
  {
    if bits != [] {
      assert (bits + [bit])[1..] == bits[1..] + [bit];
      PositionalsSnoc(bits[1..], bit);
    } else {
      assert bits + [bit] == [bit];
    }
  }

  /** The argument loop fails exactly when some token is malformed, and then
      with `MalformedArguments`. */
  lemma {:induction false} SplitArgsFails(bits: seq<string>)
    ensures SplitArgs(bits).Err? <==> exists i :: 0 <= i < |bits| && KwargMatch(bits[i]).None?
    ensures SplitArgs(bits).Err? ==> SplitArgs(bits).error == MalformedArguments
  {
    if bits != [] {
      var front := bits[..|bits| - 1];
      SplitArgsFails(front);
      assert forall i :: 0 <= i < |front| ==> bits[i] == front[i];
    }
  }

  /** When the loop succeeds, the positional arguments are the positional
      tokens in their order. */
  lemma {:induction false} SplitArgsPositionals(bits: seq<string>)
    ensures SplitArgs(bits).Ok? ==> SplitArgs(bits).value.0 == Positionals(bits)
  {
    if bits != [] {
      var front := bits[..|bits| - 1];
      var last := bits[|bits| - 1];
      SplitArgsPositionals(front);
      assert bits == front + [last];
      PositionalsSnoc(front, last);
    }
  }

  /** Some token names keyword `name`. */
  predicate NamedIn(bits: seq<string>, name: string)
  {
    exists i :: 0 <= i < |bits| && KeywordName(bits[i]) == Some(name)
  }

  /** A token names `name` exactly when one of the earlier tokens does or the
      last one does. */
  lemma NamedInFront(bits: seq<string>, name: string)
    requires bits != []
    ensures NamedIn(bits, name) <==> NamedIn(bits[..|bits| - 1], name) || KeywordName(bits[|bits| - 1]) == Some(name)
  {
    var front := bits[..|bits| - 1];
    if NamedIn(front, name) {
      var i :| 0 <= i < |front| && KeywordName(front[i]) == Some(name);
      assert bits[i] == front[i];
      assert NamedIn(bits, name);
    }
    if KeywordName(bits[|bits| - 1]) == Some(name) {
      assert NamedIn(bits, name);
    }
    if NamedIn(bits, name) {
      var i :| 0 <= i < |bits| && KeywordName(bits[i]) == Some(name);
      if i < |front| {
        assert KeywordName(front[i]) == Some(name);
        assert NamedIn(front, name);
      }
    }
  }

  /** One more token adds its keyword name, if it has one, and no other. */
  lemma SplitArgsKeysStep(bits: seq<string>, name: string)
    requires bits != [] && SplitArgs(bits).Ok?
    ensures SplitArgs(bits[..|bits| - 1]).Ok?
    ensures name in SplitArgs(bits).value.1 <==>
      name in SplitArgs(bits[..|bits| - 1]).value.1 || KeywordName(bits[|bits| - 1]) == Some(name)
  {
  }

  /** When the loop succeeds, the keyword names are exactly the names the
      tokens use. */
  lemma {:induction false} SplitArgsKeywordNames(bits: seq<string>, name: string)
    requires SplitArgs(bits).Ok?
    ensures name in SplitArgs(bits).value.1 <==> NamedIn(bits, name)
  {
    if bits != [] {
      SplitArgsKeysStep(bits, name);
      SplitArgsKeywordNames(bits[..|bits| - 1], name);
      NamedInFront(bits, name);
    }
  }

  /** Token `i` sets keyword `name` to `value` and no later token names it. */
  predicate LastSetAt(bits: seq<string>, i: int, name: string, value: string)
  {
    0 <= i < |bits| && KwargMatch(bits[i]) == Some(Keyword(name, value)) &&
    forall j :: i < j < |bits| ==> KeywordName(bits[j]) != Some(name)
  }

  /** When the loop succeeds, each keyword holds the value of the last token
      that names it: a later duplicate overwrites an earlier one. */
  lemma {:induction false} SplitArgsLastWins(bits: seq<string>, name: string)
    requires SplitArgs(bits).Ok? && name in SplitArgs(bits).value.1
    ensures exists i :: LastSetAt(bits, i, name, SplitArgs(bits).value.1[name])
  {
    var front := bits[..|bits| - 1];
    var last := bits[|bits| - 1];
    var oldKwargs := SplitArgs(front).value.1;
    var kwargs := SplitArgs(bits).value.1;
    match KwargMatch(last) {
      case Some(Keyword(n, v)) =>
        assert kwargs == oldKwargs[n := v];
        if n == name {
          assert LastSetAt(bits, |bits| - 1, name, kwargs[name]);
        } else {
          SplitArgsLastWins(front, name);
          LastSetAtExtends(front, last, name, oldKwargs[name]);
          assert front + [last] == bits;
        }
      case Some(Positional(v)) =>
        assert kwargs == oldKwargs;
        SplitArgsLastWins(front, name);
        LastSetAtExtends(front, last, name, oldKwargs[name]);
        assert front + [last] == bits;
    }
  }

  /** A token that does not name `name` leaves its last setting where it was. */
  lemma LastSetAtExtends(front: seq<string>, last: string, name: string, value: string)
    requires KeywordName(last) != Some(name)
    requires exists i :: LastSetAt(front, i, name, value)
    ensures exists i :: LastSetAt(front + [last], i, name, value)
  {
    var bits := front + [last];
    var i :| LastSetAt(front, i, name, value);
    forall j | i < j < |bits|
      ensures KeywordName(bits[j]) != Some(name)
    {
      if j < |front| {
        assert bits[j] == front[j];
      }
    }
    assert bits[i] == front[i];
    assert LastSetAt(bits, i, name, value);
  }

  /** What compiling `{% i18nurl view language arg... [as NAME] %}` yields. */
  function ParseI18nUrl(tokens: seq<string>): (r: Result<URLNode, TagError>)
    requires |tokens| >= 1
    ensures |tokens| < 3 ==> r == Err(TooFewArguments(tokens[0]))
    ensures r.Ok? ==> r.value.viewName == tokens[1] && r.value.language == tokens[2]
    ensures r.Ok? && r.value.asvar.Some? ==> tokens[|tokens| - 2] == "as" && tokens[|tokens| - 1] == r.value.asvar.value
    ensures |tokens| >= 5 && tokens[|tokens| - 2] == "as" && r.Ok? ==> r.value.asvar == Some(tokens[|tokens| - 1])
    ensures |tokens| >= 3 && r.Err? ==> r.error == MalformedArguments
    ensures |tokens| >= 3 ==>
      var rest := SplitAsVar(tokens[3..]).0;
      (r.Ok? <==> forall i :: 0 <= i < |rest| ==> KwargMatch(rest[i]).Some?)
  {
    if |tokens| < 3 then Err(TooFewArguments(tokens[0]))
    else
      var (bits, asvar) := SplitAsVar(tokens[3..]);
      SplitArgsFails(bits);
      match SplitArgs(bits)
      case Err(e) => Err(e)
      case Ok((args, kwargs)) => Ok(URLNode(tokens[1], tokens[2], args, kwargs, asvar))
  }

  /** The arguments a compiled tag holds: the positional tokens in order, as
      keywords exactly the names the tokens use, each with the value of the
      last token naming it, and the `as NAME` taken off the end. */
  lemma ParseI18nUrlArguments(tokens: seq<string>, name: string)
    requires |tokens| >= 3 && ParseI18nUrl(tokens).Ok?
    ensures var rest := SplitAsVar(tokens[3..]).0;
      var node := ParseI18nUrl(tokens).value;
      node.args == Positionals(rest) && node.asvar == SplitAsVar(tokens[3..]).1
      && (name in node.kwargs <==> NamedIn(rest, name))
      && (name in node.kwargs ==> exists i :: LastSetAt(rest, i, name, node.kwargs[name]))
  {
    var rest := SplitAsVar(tokens[3..]).0;
    SplitArgsPositionals(rest);
    SplitArgsKeywordNames(rest, name);
    if name in SplitArgs(rest).value.1 {
      SplitArgsLastWins(rest, name);
    }
  }

  /** The `i18nurl` compilation function: rejects fewer than three tokens,
      strips a trailing `as NAME`, then sorts the remaining tokens into
      positional and keyword arguments in one loop. */
  method I18nUrlTag(tokens: seq<string>) returns (r: Result<URLNode, TagError>)
    requires |tokens| >= 1
    ensures r == ParseI18nUrl(tokens)
  {
    if |tokens| < 3 {
      return Err(TooFewArguments(tokens[0]));
    }
    var viewName := tokens[1];
    var language := tokens[2];
    var args: seq<string> := [];
    var kwargs: map<string, string> := map[];
    var asvar: Option<string> := None;
    var bits := tokens[3..];
    if |bits| >= 2 && bits[|bits| - 2] == "as" {
      asvar := Some(bits[|bits| - 1]);
      bits := bits[..|bits| - 2];
    }
    assert (bits, asvar) == SplitAsVar(tokens[3..]);
    var i := 0;
    while i < |bits|
      invariant 0 <= i <= |bits|
      invariant SplitArgs(bits[..i]) == Ok((args, kwargs))
    {
      SplitArgsPrefix(bits, i);
      match KwargMatch(bits[i]) {
        case None =>
          SplitArgsFails(bits);
          return Err(MalformedArguments);
        case Some(Keyword(name, value)) =>
          kwargs := kwargs[name := value];
        case Some(Positional(value)) =>
          args := args + [value];
      }
      i := i + 1;
    }
    assert bits[..i] == bits;
    r := Ok(URLNode(viewName, language, args, kwargs, asvar));
  }

  /** `current_i18nurl` as written: it checks for at least two tokens but
      looks for `as NAME` in the tokens from the fourth on, so the form
      `{% current_i18nurl lang as NAME %}` loses its `NAME`. */
  function CurrentI18nUrlTagAsWritten(tokens: seq<string>): (r: Result<CurrentURLNode, TagError>)
    requires |tokens| >= 1
    ensures |tokens| < 2 <==> r.Err?
    ensures r.Err? ==> r.error == TooFewArguments(tokens[0])
    ensures r.Ok? ==> r.value.language == tokens[1]
    ensures r.Ok? ==> (r.value.asvar.Some? <==> |tokens| >= 5 && tokens[|tokens| - 2] == "as")
    ensures r.Ok? && r.value.asvar.Some? ==> r.value.asvar.value == tokens[|tokens| - 1]
  {
    if |tokens| < 2 then Err(TooFewArguments(tokens[0]))
    else
      var bits := if |tokens| >= 3 then tokens[3..] else [];
      Ok(CurrentURLNode(tokens[1], SplitAsVar(bits).1))
  }

  /** `current_i18nurl` as evidently intended: `as NAME` is looked for in the
      tokens after the language. Extra tokens are ignored, as in the source. */
  function CurrentI18nUrlTag(tokens: seq<string>): (r: Result<CurrentURLNode, TagError>)
    requires |tokens| >= 1
    ensures |tokens| < 2 <==> r.Err?
    ensures r.Err? ==> r.error == TooFewArguments(tokens[0])
    ensures r.Ok? ==> r.value.language == tokens[1]
    ensures r.Ok? ==> (r.value.asvar.Some? <==> |tokens| >= 4 && tokens[|tokens| - 2] == "as")
    ensures r.Ok? && r.value.asvar.Some? ==> r.value.asvar.value == tokens[|tokens| - 1]
  {
    if |tokens| < 2 then Err(TooFewArguments(tokens[0]))
    else Ok(CurrentURLNode(tokens[1], SplitAsVar(tokens[2..]).1))
  }

  /** The shortest `as` form shows the difference: the source drops the
      variable name, the corrected parser keeps it. */
  lemma CurrentTagAsVarLost()
    ensures CurrentI18nUrlTagAsWritten(["current_i18nurl", "lang", "as", "link"]) == Ok(CurrentURLNode("lang", None))
    ensures CurrentI18nUrlTag(["current_i18nurl", "lang", "as", "link"]) == Ok(CurrentURLNode("lang", Some("link")))
  {
    var tokens := ["current_i18nurl", "lang", "as", "link"];
    assert tokens[2..] == ["as", "link"];
    assert tokens[3..] == ["link"];
  }

  // ---------------------------------------------------------------------
  // Rendering

  /** `settings.SETTINGS_MODULE.split('.')[0]`, the guessed project package. */
  function ProjectName(settingsModule: string): (r: string)
    ensures r <= settingsModule && '.' !in r
    ensures |r| < |settingsModule| ==> settingsModule[|r|] == '.'
  {
    BeforeFirst(settingsModule, '.')
  }

  /** The two-stage lookup: the first attempt if it succeeds, else the
      project-qualified attempt (made only when a settings module is set);
      when both fail, the error is always the first attempt's. */
  function PickUrl(first: Result<string, NoReverseMatch>, qualified: Option<Result<string, NoReverseMatch>>)
    : (r: Result<string, NoReverseMatch>)
    ensures first.Ok? ==> r == first
    ensures r.Err? ==> r == first
    ensures r.Ok? && first.Err? ==> qualified == Some(r)
    ensures qualified.None? ==> r == first
    ensures first.Err? && qualified.Some? && qualified.value.Ok? ==> r == qualified.value
  {
    if first.Ok? then first
    else if qualified.Some? && qualified.value.Ok? then qualified.value
    else first
  }

  /** The url a lookup leaves in the `url` variable: its path, or `''`. */
  function UrlOrEmpty(picked: Result<string, NoReverseMatch>): string
  {
    if picked.Ok? then picked.value else ""
  }

  /** What the node renders: without `as NAME`, the url or the error; with
      it, never an error, and `''` (unless the name is empty). */
  function Rendered(picked: Result<string, NoReverseMatch>, asvar: Option<string>): (r: Result<string, NoReverseMatch>)
    ensures r.Err? <==> picked.Err? && asvar.None?
    ensures asvar.None? ==> r == picked
    ensures asvar.Some? && asvar.value != "" ==> r == Ok("")
    ensures asvar == Some("") ==> r == Ok(UrlOrEmpty(picked))
    ensures r.Err? ==> r == picked
  {
    if picked.Err? && asvar.None? then picked
    else if asvar.Some? && asvar.value != "" then Ok("")
    else Ok(UrlOrEmpty(picked))
  }

  /** The context after rendering: `context[asvar] = url` when `asvar` is a
      non-empty name, untouched otherwise. */
  function Stored(vars: map<string, string>, picked: Result<string, NoReverseMatch>, asvar: Option<string>)
    : (r: map<string, string>)
    ensures asvar.Some? && asvar.value != "" ==> r == vars[asvar.value := UrlOrEmpty(picked)]
    ensures asvar.None? || asvar.value == "" ==> r == vars
  {
    if asvar.Some? && asvar.value != "" then vars[asvar.value := UrlOrEmpty(picked)] else vars
  }

  /** The lookup both i18nurl nodes make: `reverse_i18n` of the name (with
      its arguments, then bare), then, when it fails and a settings module is
      set, of the project-qualified name. */
  function UrlFor(routes: Routes, viewName: string, language: string, args: seq<string>,
                  kwargs: map<string, string>, settingsModule: string): (r: Result<string, NoReverseMatch>)
    ensures ReverseIn(routes, language, viewName, args, kwargs).Ok? ==>
      r == ReverseIn(routes, language, viewName, args, kwargs)
    ensures var qualified := ReverseIn(routes, language, ProjectName(settingsModule) + "." + viewName, args, kwargs);
      ReverseIn(routes, language, viewName, args, kwargs).Err? && settingsModule != "" && qualified.Ok? ==>
      r == qualified
    ensures var qualified := ReverseIn(routes, language, ProjectName(settingsModule) + "." + viewName, args, kwargs);
      r.Ok? <==> (ReverseIn(routes, language, viewName, args, kwargs).Ok? || (settingsModule != "" && qualified.Ok?))
    ensures r.Err? ==> r == ReverseIn(routes, language, viewName, args, kwargs)
  {
    PickUrl(ReverseIn(routes, language, viewName, args, kwargs),
            if settingsModule != "" then
              Some(ReverseIn(routes, language, ProjectName(settingsModule) + "." + viewName, args, kwargs))
            else None)
  }

  /** The tail shared by both `render` methods: two `reverse_i18n` attempts,
      the choice of error, and the `asvar` store. */
  method ReverseAndStore(t: TranslationState, ctx: Context, routes: Routes, viewName: string, language: string,
                         args: seq<string>, kwargs: map<string, string>, settingsModule: string,
                         asvar: Option<string>) returns (r: Result<string, NoReverseMatch>)
    modifies t`active, ctx`vars
    ensures r == Rendered(UrlFor(routes, viewName, language, args, kwargs, settingsModule), asvar)
    ensures ctx.vars == Stored(old(ctx.vars), UrlFor(routes, viewName, language, args, kwargs, settingsModule), asvar)
    ensures t.GetLanguage() == old(t.GetLanguage())
  {
    var url := "";
    var first := ReverseI18n(t, routes, viewName, language, args, kwargs);
    if first.Ok? {
      url := first.value;
    } else if settingsModule != "" {
      var projectName := BeforeFirst(settingsModule, '.');
      var second := ReverseI18n(t, routes, projectName + "." + viewName, language, args, kwargs);
      if second.Ok? {
        url := second.value;
      } else if asvar.None? {
        return first;
      }
    } else if asvar.None? {
      return first;
    }
    if asvar.Some? && asvar.value != "" {
      ctx.vars := ctx.vars[asvar.value := url];
      return Ok("");
    }
    return Ok(url);
  }

  /** The template expressions of a node's arguments, resolved. */
  function ResolveArgs(args: seq<string>, resolve: string -> string): (r: seq<string>)
    ensures |r| == |args| && forall i :: 0 <= i < |args| ==> r[i] == resolve(args[i])
  {
    seq(|args|, i requires 0 <= i < |args| => resolve(args[i]))
  }

  function ResolveKwargs(kwargs: map<string, string>, resolve: string -> string): (r: map<string, string>)
    ensures r.Keys == kwargs.Keys && forall k :: k in kwargs ==> r[k] == resolve(kwargs[k])
  {
    map k | k in kwargs :: resolve(kwargs[k])
  }

  /** `URLNode.render`: an empty view name is refused before any lookup;
      otherwise the two-stage lookup runs in the resolved language, and the
      active language is the same afterwards. */
  method RenderURLNode(node: URLNode, t: TranslationState, ctx: Context, routes: Routes,
                       resolve: string -> string, settingsModule: string) returns (r: Result<string, NoReverseMatch>)
    modifies t`active, ctx`vars
    ensures t.GetLanguage() == old(t.GetLanguage())
    ensures resolve(node.viewName) == "" ==> r == Err(EmptyViewName) && ctx.vars == old(ctx.vars)
    ensures resolve(node.viewName) != "" ==>
      var picked := UrlFor(routes, resolve(node.viewName), resolve(node.language),
                           ResolveArgs(node.args, resolve), ResolveKwargs(node.kwargs, resolve), settingsModule);
      r == Rendered(picked, node.asvar) && ctx.vars == Stored(old(ctx.vars), picked, node.asvar)
  {
    var args := ResolveArgs(node.args, resolve);
    var kwargs := ResolveKwargs(node.kwargs, resolve);
    var viewName := resolve(node.viewName);
    var language := resolve(node.language);
    if viewName == "" {
      return Err(EmptyViewName);
    }
    r := ReverseAndStore(t, ctx, routes, viewName, language, args, kwargs, settingsModule, node.asvar);
  }

  /** `str.format` of an attribute that may be None. */
  function Format(value: Option<string>): string
  {
    if value.Some? then value.value else "None"
  }

  /** The view name `CurrentURLNode.render` rebuilds: `app:url` inside a
      namespace, the bare url name otherwise. */
  function CurrentViewName(m: ResolverMatch): (r: string)
    ensures m.appName.Some? && m.appName.value != "" ==> r == m.appName.value + ":" + Format(m.urlName)
    ensures m.appName.None? || m.appName.value == "" ==> r == Format(m.urlName)
  {
    if m.appName.Some? && m.appName.value != "" then m.appName.value + ":" + Format(m.urlName)
    else Format(m.urlName)
  }

  /** `CurrentURLNode.render`: `''` when the request has no matched route
      (nothing is stored then); otherwise the current route's name and
      arguments go through the same two-stage lookup. */
  method RenderCurrentURLNode(node: CurrentURLNode, t: TranslationState, ctx: Context, routes: Routes,
                              resolve: string -> string, settingsModule: string, resolverMatch: Option<ResolverMatch>)
    returns (r: Result<string, NoReverseMatch>)
    modifies t`active, ctx`vars
    ensures t.GetLanguage() == old(t.GetLanguage())
    ensures resolverMatch.None? ==> r == Ok("") && ctx.vars == old(ctx.vars) && t.active == old(t.active)
    ensures resolverMatch.Some? ==>
      var m := resolverMatch.value;
      var picked := UrlFor(routes, CurrentViewName(m), resolve(node.language), m.args, m.kwargs, settingsModule);
      r == Rendered(picked, node.asvar) && ctx.vars == Stored(old(ctx.vars), picked, node.asvar)
  {
    if resolverMatch.None? {
      return Ok("");
    }
    var m := resolverMatch.value;
    var language := resolve(node.language);
    var viewName := if m.appName.Some? && m.appName.value != "" then m.appName.value + ":" + Format(m.urlName)
                    else Format(m.urlName);
    r := ReverseAndStore(t, ctx, routes, viewName, language, m.args, m.kwargs, settingsModule, node.asvar);
  }

  /** When the lookup under the bare name fails, the error that escapes names
      the bare view name in the requested language, never the
      project-qualified one. */
  lemma {:induction false} FirstErrorEscapes(routes: Routes, viewName: string, language: string, args: seq<string>,
                                             kwargs: map<string, string>, settingsModule: string)
    ensures var picked := UrlFor(routes, viewName, language, args, kwargs, settingsModule);
      picked.Err? ==> picked.error == NotFound(BareQuery(language, viewName))
    ensures var picked := UrlFor(routes, viewName, language, args, kwargs, settingsModule);
      picked.Err? ==>
        routes(BareQuery(language, viewName)).None? &&
        routes(RouteQuery(language, viewName, args, kwargs)).None? &&
        (settingsModule != "" ==>
          routes(RouteQuery(language, ProjectName(settingsModule) + "." + viewName, args, kwargs)).None? &&
          routes(BareQuery(language, ProjectName(settingsModule) + "." + viewName)).None?)
  {
    var first := ReverseIn(routes, language, viewName, args, kwargs);
    if first.Err? && settingsModule != "" {
      var second := ReverseIn(routes, language, ProjectName(settingsModule) + "." + viewName, args, kwargs);
      assert second.Err? ==> routes(BareQuery(language, ProjectName(settingsModule) + "." + viewName)).None?;
    }
  }
}
