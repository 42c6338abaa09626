# django-i18nurl, modelled in Dafny

A model of django-i18nurl, a small Django application that puts the active
language into URLs. The model covers:

- how a request's language is found, through a chain of middleware classes:
  url prefix, cookie, session, `Accept-Language`, user profile and default;
- how a language code is checked against the configured `LANGUAGES` through
  Python's `locale.locale_alias` table;
- `reverse_i18n`, a route lookup run with a chosen language active, with the
  previous language restored afterwards;
- the `i18nurl` and `current_i18nurl` template tags, in both shipped copies
  (`i18nurl/` and the older `i18n_url/`): compilation from tokens, and
  rendering with its fallback to a project-qualified view name;
- the view that stores a chosen language in the user's profile, the session
  or a cookie, and the view that redirects to the default page.

Django itself is taken as given:

- The routing table is a function from (active language, view name,
  arguments, keyword arguments) to an optional path (`Routing.Routes`).
  `NoReverseMatch` is an error value that records which lookup failed.
- Python's `locale.locale_alias`, Django's `to_locale(code, True)` and
  Django's `check_for_language` are fields of `Utils.Locale`.
- The ambient active language is one mutable field of
  `Translation.TranslationState`. `get_language()` falls back to
  `settings.LANGUAGE_CODE` when nothing is active.
- Requests, users, responses and template contexts are classes whose fields
  the code updates in place. A parsed `Accept-Language` header is a sequence
  of tags in preference order.

Modules, one per source file, plus shared definitions:

| file | module | models |
|---|---|---|
| wrappers.dfy | `Wrappers` | `Option` and `Result` |
| text.dfy | `Text` | the `str` operations used: ASCII `lower()`, `split(c)[0]`, `\w` |
| config.dfy | `Config` | the settings the code reads |
| translation.dfy | `Translation` | `activate`, `deactivate`, `get_language` |
| routing.dfy | `Routing` | Django's `reverse` over an abstract routing table |
| http.dfy | `Http` | request, user and response objects |
| utils.dfy | `Utils` | i18nurl/utils.py |
| middleware.dfy | `Middleware` | i18nurl/middleware.py |
| reverse.dfy | `I18nReverse` | i18nurl/__init__.py |
| templatetags.dfy | `TemplateTags` | i18nurl/templatetags/i18nurl.py |
| legacy_templatetags.dfy | `LegacyTemplateTags` | i18n_url/templatetags/i18nurl.py |
| views.dfy | `Views` | i18nurl/views.py |
| scenarios.dfy | `Scenarios` | worked cases on a small locale table |

Three behaviours of the code are easy to misread, and the model states them
as the code has them:

- `reverse_i18n` restores the previous language by activating what
  `get_language()` returned before the call. When nothing was active, that is
  the settings default, so the "nothing active" state is not restored as
  such. `I18nReverse.ReverseI18n` states both facts.
- A choice marked `temporary` is written nowhere, not even to the session
  (`Views.Persistence`, `Scenarios.TemporaryChoiceExample`).
- The profile is written in addition to the session or cookie, not instead
  of them.

## Model

| member | source | states |
|---|---|---|
| Text.Lower | i18nurl/utils.py:22 | `lower()` keeps the length and lower-cases each ASCII letter, leaving every other character alone |
| Text.LowerIdempotent | i18nurl/middleware.py:94 | lower-casing twice is lower-casing once, so a code the `Accept-Language` walk returns is already lower-case |
| Text.LowerKeepsNonLetter | i18nurl/utils.py:22 | lower-casing neither creates nor removes a non-letter such as `-` |
| Text.BeforeFirst | i18nurl/utils.py:20-21 | `s.split(c)[0]` is a prefix of `s`, holds no `c`, and is followed in `s` by a `c` when shorter than `s` |
| Text.BeforeFirstAt | i18nurl/utils.py:20-21 | any `c`-free prefix that ends at a `c` or at the end of `s` is `s.split(c)[0]`, so the contract above determines the result |
| Utils.NormalizeLanguage | i18nurl/utils.py:6-7 | the alias entry of the locale form of the code, and None exactly when the table has no such key |
| Utils.IsLanguageSupported | i18nurl/utils.py:10-24 | falsy input or no alias entry gives None. A result, lower-cased, is supported. It is the entry cut at `.` or that cut again at `_`, with the entry's casing kept. The full form wins when supported; the base form comes back only when the full form is unsupported; None means neither is supported |
| Utils.DashedCodeNeverReturned | i18nurl/utils.py:16-23 | when no alias entry holds `-` before its encoding, no result holds `-`, so a configured code such as `pt-br` is never returned; a `-` in the encoding (`ISO8859-1`) does not matter |
| Middleware.PrefixCode | i18nurl/middleware.py:46-51 | the `language` group of the url-prefix pattern under Python's `re`: a configured code that matches the path, and None only when no configured code matches (with no configured code at all, Python matches the empty code, which the strategy refuses anyway) |
| Middleware.PrefixCodeFirstMatch | i18nurl/middleware.py:46-51 | the alternation takes the first configured code that matches, even when a later one matches too |
| Middleware.DefaultLanguageCode | i18nurl/middleware.py:37-39 | `LANGUAGE_CODE`, with no support check |
| Middleware.UrlPrefixLanguageCode | i18nurl/middleware.py:44-53 | None when no configured code prefixes the path; otherwise exactly the support check of the code the pattern matched; a result is supported |
| Middleware.CookieLanguageCode | i18nurl/middleware.py:57-59 | None without the language cookie; otherwise the support check of its value |
| Middleware.SessionLanguageCode | i18nurl/middleware.py:63-67 | None without a session or without `django_language`; otherwise the support check of that value |
| Middleware.UserLanguageCode | i18nurl/middleware.py:101-109 | None when the user has no `language_code`; a non-empty support-check result of the user's code is returned as is, and any other outcome is None |
| Middleware.TagChoice | i18nurl/middleware.py:93-96 | one tag offers the lower-cased whole tag if acceptable, else its lower-cased primary subtag if acceptable; an offer is supported and has a catalogue |
| Middleware.AcceptLanguageCode | i18nurl/middleware.py:71-97 | the walk's result is supported, has a catalogue and is lower-case |
| Middleware.FirstOfferShift | i18nurl/middleware.py:74-96 | a tag that neither stops nor decides the walk moves the first offer one place along |
| Middleware.AcceptLanguageFirstOffer | i18nurl/middleware.py:74-96 | a result is what the first aliased, non-`*` tag offering a code offers; no `*` and no offering aliased tag stands before it |
| Middleware.FirstOfferDecides | i18nurl/middleware.py:74-96 | conversely, whenever some aliased non-`*` tag offers a code and no `*` or offering aliased tag stands before it, the walk returns that code |
| Middleware.NoOfferNoCode | i18nurl/middleware.py:74-97 | when no aliased tag before the first `*` (or the end) offers a code, the walk returns None |
| Middleware.StarEndsWalk | i18nurl/middleware.py:75-76 | tags after a `*` have no influence |
| Middleware.UnaliasedTagIgnored | i18nurl/middleware.py:87-89 | removing a tag without alias entry changes nothing |
| Middleware.AcceptLanguage | i18nurl/middleware.py:71-97 | the loop with `break`, `continue` and early return computes the walk; its result is supported and has a catalogue |
| Middleware.LanguageFromRequest | i18nurl/middleware.py:37-109 | each middleware class's `get_language_from_request`; every answer except the default's is a supported code, and an `Accept-Language` answer has a catalogue |
| Middleware.GetLanguageFromRequest | i18nurl/middleware.py:15-16 | each middleware class's strategy applied to the request |
| Middleware.ProcessRequest | i18nurl/middleware.py:18-25 | with a code already on the request, nothing changes. Otherwise a non-empty strategy answer becomes both `request.LANGUAGE_CODE` and the active language. An empty or missing answer changes neither |
| Middleware.Step | i18nurl/middleware.py:18-25 | one `process_request` as a step on (request code, active language): with a code bound, or without a non-empty answer, nothing changes; otherwise both become the answer |
| Middleware.ProcessRequestIdempotent | i18nurl/middleware.py:18-24 | a second `process_request` of the same class changes nothing |
| Middleware.Chain | i18nurl/middleware.py:18-25 | several middleware classes in a row: a bound code makes the rest a no-op; a chain that ends unbound changed nothing; one that binds a code from an unbound start activates that same non-empty code |
| Middleware.ChainWithoutOpinion | i18nurl/middleware.py:21-22 | when no strategy in a chain has a non-empty answer, nothing changes |
| Middleware.ChainFirstWins | i18nurl/middleware.py:18-25 | in a chain starting with no bound code, the first strategy with a non-empty answer sets both the request's code and the active language |
| Middleware.PatchVary | i18nurl/middleware.py:28 | `Vary` keeps its entries and gains `Accept-Language`, exactly as written, unless it already names it, compared without case |
| Middleware.ProcessResponse | i18nurl/middleware.py:27-32 | `Vary` is patched, `Content-Language` is set to the active language only when absent, nothing else changes, the language is deactivated and the same response is returned |
| I18nReverse.ReverseIn | i18nurl/__init__.py:11-14 | the lookup with arguments wins; when it fails, the bare-name lookup decides; when both fail, the bare lookup's error escapes |
| I18nReverse.ReverseI18n | i18nurl/__init__.py:6-17 | the result is that lookup made in the target language, and `get_language()` afterwards equals `get_language()` before, on success and on failure |
| TemplateTags.KwargMatchShape | i18nurl/templatetags/i18nurl.py:103-106 | `kwarg_re.match` (`KwargMatch`): no match only for an empty token or one that starts with a newline. A keyword is read exactly at the keyword form (a `\w` name, `=`, a non-newline), its value running to the first newline; a positional value is the token up to its first newline |
| TemplateTags.KeywordWhen | i18nurl/templatetags/i18nurl.py:103-107 | every token of the keyword form is read as that keyword, so `a=b` is never positional |
| TemplateTags.SplitAsVar | i18nurl/templatetags/i18nurl.py:96-99 | a trailing `as NAME` is taken off exactly when the second-to-last token is `as`, and the rest plus `as NAME` gives back the tokens |
| TemplateTags.SplitArgsFails | i18nurl/templatetags/i18nurl.py:101-105 | the argument loop fails exactly when some token does not match, and then with `Malformed arguments` |
| TemplateTags.SplitArgsPositionals | i18nurl/templatetags/i18nurl.py:109-110 | the positional arguments are the positional tokens in their order |
| TemplateTags.SplitArgsPrefix | i18nurl/templatetags/i18nurl.py:102-110 | the loop's outcome after one more token is its outcome so far extended by that token, and an error stays an error |
| TemplateTags.NamedInFront | i18nurl/templatetags/i18nurl.py:102-108 | a token names a keyword exactly when an earlier token or the last one does |
| TemplateTags.SplitArgsKeysStep | i18nurl/templatetags/i18nurl.py:106-108 | one more token adds its own keyword name, if any, and no other |
| TemplateTags.SplitArgsKeywordNames | i18nurl/templatetags/i18nurl.py:106-108 | a name is a keyword argument exactly when some token uses it as a keyword name |
| TemplateTags.SplitArgsLastWins | i18nurl/templatetags/i18nurl.py:106-108 | each keyword holds the value of the last token that names it |
| TemplateTags.LastSetAtExtends | i18nurl/templatetags/i18nurl.py:102-108 | a token that does not name a keyword leaves the keyword's last setting in place |
| TemplateTags.ParseI18nUrl | i18nurl/templatetags/i18nurl.py:80-112 | fewer than three tokens are refused, naming the tag. With three or more, compilation succeeds exactly when every argument token matches `kwarg_re`, and fails otherwise with a malformed-argument error. The view and language are tokens 1 and 2. `as NAME` is taken from the end |
| TemplateTags.ParseI18nUrlArguments | i18nurl/templatetags/i18nurl.py:93-112 | a compiled tag holds the positional tokens in order, as keywords exactly the names the tokens use, each with the last value given, and the trailing `as NAME` |
| TemplateTags.I18nUrlTag | i18nurl/templatetags/i18nurl.py:80-112 | the compilation loop computes `ParseI18nUrl` |
| TemplateTags.CurrentI18nUrlTagAsWritten | i18nurl/templatetags/i18nurl.py:181-194 | as written: fewer than two tokens are refused, naming the tag; `as NAME` is taken exactly when there are at least five tokens and the second-to-last is `as`, and then `NAME` is the last token |
| TemplateTags.CurrentI18nUrlTag | i18nurl/templatetags/i18nurl.py:181-194 | as intended: fewer than two tokens refused, and `as NAME` after the language is kept exactly when present |
| TemplateTags.CurrentTagAsVarLost | i18nurl/templatetags/i18nurl.py:189-192 | on `current_i18nurl lang as link`, the code as written drops `link` and the corrected parser keeps it |
| TemplateTags.ProjectName | i18nurl/templatetags/i18nurl.py:44 | the project package is the dot-free prefix of the settings module that ends at its first `.` or at its end |
| TemplateTags.PickUrl | i18nurl/templatetags/i18nurl.py:38-58 | the first lookup wins; after it fails, a successful project-qualified lookup is used; that lookup is made only when a settings module is set; a failure is always the first lookup's error |
| TemplateTags.Rendered | i18nurl/templatetags/i18nurl.py:50-64 | an error escapes exactly when the lookups fail and there is no `as`; with a non-empty `as NAME` the tag renders `''`; otherwise, an empty name included, it renders the url (or `''` after a failure) |
| TemplateTags.Stored | i18nurl/templatetags/i18nurl.py:60-62 | with a non-empty `as NAME`, the url (or `''`) is stored under `NAME`; otherwise the context is untouched |
| TemplateTags.UrlFor | i18nurl/templatetags/i18nurl.py:38-58 | `reverse_i18n` of the name (with arguments, then bare) decides when it succeeds; otherwise a set settings module brings in the project-qualified `reverse_i18n`, whose success is the result; it succeeds exactly when one of the two does, and its error is the first one's |
| TemplateTags.ReverseAndStore | i18nurl/templatetags/i18nurl.py:37-64 | the shared render tail returns `Rendered` and stores `Stored` of the two-stage lookup, and the active language is unchanged |
| TemplateTags.ResolveArgs | i18nurl/templatetags/i18nurl.py:21 | each positional expression is resolved, in order |
| TemplateTags.ResolveKwargs | i18nurl/templatetags/i18nurl.py:22-23 | each keyword expression is resolved, under the same names |
| TemplateTags.RenderURLNode | i18nurl/templatetags/i18nurl.py:20-64 | an empty view name fails before any lookup and stores nothing. Otherwise rendering is the two-stage lookup in the resolved language. The active language is the same afterwards |
| TemplateTags.CurrentViewName | i18nurl/templatetags/i18nurl.py:132-136 | `app:url` inside a non-empty namespace, the url name alone otherwise, with None written `None` |
| TemplateTags.RenderCurrentURLNode | i18nurl/templatetags/i18nurl.py:120-169 | without a matched route it renders `''` and changes nothing. Otherwise it does the two-stage lookup of the current route's name and arguments. The active language is the same afterwards |
| TemplateTags.FirstErrorEscapes | i18nurl/templatetags/i18nurl.py:42-58 | when rendering fails, the error names the bare view name in the requested language, and every lookup made, the project-qualified ones included, failed |
| LegacyTemplateTags.I18nUrlTag | i18n_url/templatetags/i18nurl.py:82-114 | compiles exactly like the newer tag; fewer than three tokens are refused |
| LegacyTemplateTags.CurrentI18nUrlTag | i18n_url/templatetags/i18nurl.py:145-152 | accepted exactly when there are two tokens; any other count is refused, naming the tag |
| LegacyTemplateTags.LegacyUrlFor | i18n_url/templatetags/i18nurl.py:40-58 | Django's `reverse` with arguments, then, when that fails and a settings module is set, with the project-qualified name, whose success is the result; no bare retry; it succeeds exactly when one of them does; a failure is the first lookup's error |
| LegacyTemplateTags.RenderURLNode | i18n_url/templatetags/i18nurl.py:20-66 | an empty view name fails at once with the state untouched. Otherwise the lookups run with the node's language expression active, and the previous language is back afterwards whatever the outcome. Output and store are as in the newer tag |
| LegacyTemplateTags.LegacyViewName | i18n_url/templatetags/i18nurl.py:131-132 | the rebuilt name always contains `:`, even outside a namespace |
| LegacyTemplateTags.RenderCurrentURLNode | i18n_url/templatetags/i18nurl.py:121-133 | renders `''` and changes nothing without a matched route; otherwise it is `reverse_i18n` of `app:url`, with the active language the same afterwards |
| Views.GuessLanguage | i18nurl/views.py:12-25 | fails exactly when the default route has no path in the active language. A non-empty path gives a non-permanent redirect to it; an empty path, and only that, gives 410 Gone |
| Views.Persistence | i18nurl/views.py:42-60 | a temporary choice is written nowhere. Otherwise it goes to the session or to a cookie, never both, the session exactly when there is one. The profile is written exactly when remembering and the user has a different `language_code` |
| Views.RedirectTarget | i18nurl/views.py:41-45 | a non-empty `next` is the target; otherwise the default route's path in the chosen language, and an error when it has none |
| Views.FormValid | i18nurl/views.py:37-61 | a failed lookup escapes with nothing written. Otherwise: a fresh non-permanent redirect to the target; the profile updated and saved once, the session key `django_language` set, or the cookie set, as `Persistence` decides. The active language is unchanged |
| Scenarios.PrefixBeatsCookie | i18nurl/middleware.py:18-25 | with url-prefix then cookie middleware, a url prefix that yields a code decides, whatever the cookie says |
| Scenarios.PrefixCodeExample | i18nurl/middleware.py:46-51 | `/en/home/` is matched with `en` |
| Scenarios.EnglishFormsExample | i18nurl/utils.py:20-21 | `en_US.ISO8859-1` cuts to `en_US` and `en` |
| Scenarios.EnglishEntryExample | i18nurl/utils.py:16-18 | the example table's entry for `en` is `en_US.ISO8859-1` |
| Scenarios.EnglishSupportedExample | i18nurl/utils.py:10-24 | with `LANGUAGES` `en`, `fr`, the code `en` is supported as `en`, through the base form |
| Scenarios.TableNeverDashed | i18nurl/utils.py:16-23 | on the example table, whose entries carry `-` only in their encodings, no returned code holds a `-` |
| Scenarios.PrefixExample | i18nurl/middleware.py:44-53 | the url-prefix strategy on `/en/home/` gives `en` |
| Scenarios.PrefixBeatsCookieExample | i18nurl/middleware.py:18-25 | `/en/home/` with a `fr` cookie resolves to `en` |
| Scenarios.AcceptLanguageExample | i18nurl/middleware.py:71-97 | `Accept-Language: fr-ch, en` resolves to `fr` through the primary subtag |
| Scenarios.WildcardFallsThrough | i18nurl/middleware.py:75-76 | a leading `*` selects nothing |
| Scenarios.ProjectPackageExample | i18nurl/templatetags/i18nurl.py:44 | `demo.settings` names the package `demo` |
| Scenarios.ProjectNameExample | i18nurl/templatetags/i18nurl.py:44-46 | the example site qualifies `home` as `demo.home` |
| Scenarios.BareLookupFails | i18nurl/__init__.py:11-14 | in `fr`, `home` has no route with or without arguments |
| Scenarios.QualifiedLookupSucceeds | i18nurl/__init__.py:11-14 | in `fr`, `demo.home` reverses to `/fr/home/` |
| Scenarios.QualifiedFallbackExample | i18nurl/templatetags/i18nurl.py:42-49 | when only `demo.home` is routed, `home` in `fr` reverses through the project-qualified name |
| Scenarios.TemporaryChoiceExample | i18nurl/views.py:41-47 | a temporary choice of `fr` with an empty `next` writes nothing and redirects to the default route in `fr` |

## Left out

- Django's URL resolver: routes are an abstract function. The round trip
  "reverse, then resolve back to the same route" is about the resolver and is
  not modelled.
- `kwarg_re` is Django's pattern `(?:(\w+)=)?(.+)`, modelled with Python 2's
  ASCII `\w`. `compile_filter` and `FilterExpression.resolve` are a given
  function from token text to value. A compile-time error from
  `compile_filter` is not modelled.
- `TemplateTags.ParseI18nUrl`, `TemplateTags.I18nUrlTag`,
  `TemplateTags.CurrentI18nUrlTag`,
  `TemplateTags.CurrentI18nUrlTagAsWritten`,
  `LegacyTemplateTags.I18nUrlTag` and `LegacyTemplateTags.CurrentI18nUrlTag`
  require at least one token, because `split_contents` always yields the
  tag's own name.
- `Middleware.UserLanguageCode` takes the user's `language_code` as an
  `Option`, so every request has a user. The source reads `request.user`,
  which raises `AttributeError` when the authentication middleware has not
  run; that error is not modelled.
- `context.current_app` is not modelled. It reaches the first lookup of
  `reverse_i18n` and both legacy `reverse` calls. It does not reach
  `reverse_i18n`'s bare retry or the legacy `CurrentURLNode`'s lookup, so
  for a namespaced name such as `app:url` the retry could pick a different
  application instance than the first attempt; the model cannot show this.
  A template context without a `request` entry raises `KeyError`;
  the model takes the request's `resolver_match` as an `Option`.
- `LegacyTemplateTags.RenderURLNode` and
  `LegacyTemplateTags.RenderCurrentURLNode` use the node's language as its
  token text. The source hands the compiled expression object, unresolved, to
  `activate` (directly, or through `reverse_i18n`), and what `activate` makes
  of a non-string is not modelled.
- `LegacyTemplateTags.RenderCurrentURLNode` passes the route's arguments as
  lookup arguments. The source passes `args` and `kwargs` positionally, so
  Django's `reverse` would bind them to `urlconf` and `args`; URL configuration
  modules are not modelled.
- `LegacyTemplateTags` imports `reverse_i18n` from its own package,
  i18n_url/templatetags/__init__.py, which is not part of this model. It is
  taken to be the same as the one in i18nurl/__init__.py.
- `Middleware.AcceptLanguageCode`: the walk's `normalized.split('.')[0]` is
  computed but never used, so only the alias lookup's success is modelled.
  Header parsing (`parse_accept_lang_header`, its lower-casing and its
  quality sort) is the given input sequence.
- `Middleware.PrefixCode` treats each configured code as literal text. A code
  holding a regular-expression metacharacter would change the pattern.
- `Text.Lower` lower-cases ASCII letters only; Python's `str.lower()` also
  folds other scripts.
- Response headers are keyed by lower-case name, standing for Django's
  case-insensitive header access. Cookie attributes and serialisation are not
  modelled.
- `user.save()` is a counter of saves on the user; persistence is not
  modelled. `HttpResponseRedirect`'s check for unsafe schemes is not modelled.
- `activate(code)` is taken to make `get_language()` return `code` itself.
  Django's thread-local storage, catalogue loading and code normalisation
  are not modelled.
- The configuration modules (forms, settings, urls, context processor),
  packaging and the demo project hold no logic and are not modelled.

## Findings

| source | as written | input that shows it | evidently intended | confidence | as-written member | corrected member |
|---|---|---|---|---|---|---|
| i18nurl/templatetags/i18nurl.py:189 | `current_i18nurl` keeps the tokens from the fourth on (`bits[3:]`) before looking for `as NAME`, so the language token's successor is skipped | `{% current_i18nurl lang as link %}` compiles with no variable, and the tag renders the url instead of storing it under `link` | look for `as NAME` in the tokens after the language (`bits[2:]`) | high, not executed | TemplateTags.CurrentI18nUrlTagAsWritten | TemplateTags.CurrentI18nUrlTag |
