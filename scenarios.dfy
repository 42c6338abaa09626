/** Worked cases of the behaviour the project documents, on a small locale
    table in the shape of Python's: keys are lower-case locale names,
    entries carry a territory and an encoding. */
module Scenarios {
  import opened Wrappers
  import opened Text
  import opened Config
  import opened Utils
  import opened Routing
  import opened Http
  import opened Middleware
  import opened TemplateTags
  import opened Views
  import opened I18nReverse

  /** `to_locale(code, True)` on the codes used below. */
  function ToLocale(code: string): string
  {
    if code == "fr-ch" then "fr_ch" else code
  }

  const Table: Locale := Locale(map["en" := "en_US.ISO8859-1", "fr" := "fr_FR.ISO8859-1", "fr_ch" := "fr_CH.ISO8859-1"],
                                ToLocale, _ => true)

  const Site: Settings := Settings(["en", "fr"], "en", "django_language", "demo.settings", DefaultRedirectUrlName)

  /** Whatever the cookie says, a url prefix that yields a code decides, and
      it decides for the rest of the chain. */
  lemma PrefixBeatsCookie(cfg: Settings, loc: Locale, sig: RequestSignals)
    requires Yields(UrlPrefixLanguage, cfg, loc, sig)
    ensures Chain([UrlPrefixLanguage, CookieLanguage], cfg, loc, sig, LanguageState(None, None))
      == LanguageState(UrlPrefixLanguageCode(cfg, loc, sig.pathInfo), UrlPrefixLanguageCode(cfg, loc, sig.pathInfo))
  {
    ChainFirstWins([UrlPrefixLanguage, CookieLanguage], cfg, loc, sig, LanguageState(None, None), 0);
  }

  /** Of the configured codes, `/en/home/` is prefixed by `en`, the first. */
  lemma PrefixCodeExample()
    ensures PrefixCode(Site.languages, "/en/home/") == Some("en")
  {
    assert PrefixMatches("/en/home/", "en") by {
      assert "/en/home/"[1..3] == "en";
      assert "/en/home/"[3..] == "/home/";
      assert '\n' !in "/home/"[1..];
    }
    PrefixCodeFirstMatch(Site.languages, "/en/home/", 0);
  }

  /** The alias entry of `en` cut at its encoding and at its territory. */
  lemma EnglishFormsExample()
    ensures FullForm("en_US.ISO8859-1") == "en_US" && BaseForm("en_US.ISO8859-1") == "en"
  {
    BeforeFirstAt("en_US.ISO8859-1", '.', 5);
    BeforeFirstAt("en_US", '_', 2);
  }

  /** The supported set of the example site. */
  lemma SiteSupported()
    ensures Supported(Site) == {"en", "fr"}
  {
  }

  /** The two forms lower-cased: `en_us`, unsupported, and `en`, supported. */
  lemma EnglishLowerExample()
    ensures Lower("en_US") == "en_us" && Lower("en") == "en"
  {
  }

  /** The example table writes territories with `_`: no full form holds a
      `-`, though every encoding does. */
  lemma TableFullFormsUndashed()
    ensures forall k :: k in Table.alias ==> '-' !in FullForm(Table.alias[k])
  {
    forall k | k in Table.alias
      ensures '-' !in FullForm(Table.alias[k])
    {
      UndashedFullForm(Table.alias[k]);
    }
  }

  /** An entry of the example table's shape: five characters of language,
      `_` and territory, then the encoding. */
  lemma UndashedFullForm(entry: string)
    requires entry in {"en_US.ISO8859-1", "fr_FR.ISO8859-1", "fr_CH.ISO8859-1"}
    ensures '-' !in FullForm(entry)
  {
    assert entry[5] == '.' && '.' !in entry[..5] && '-' !in entry[..5];
    BeforeFirstAt(entry, '.', 5);
  }

  /** So on the example table no code with a `-` is ever returned. */
  lemma TableNeverDashed(supported: set<string>, language: Option<string>)
    ensures var r := IsLanguageSupported(Table, supported, language);
      r.Some? ==> '-' !in Lower(r.value)
  {
    TableFullFormsUndashed();
    DashedCodeNeverReturned(Table, supported, language);
  }

  /** `en` is looked up as `en_US`, which is not supported, then as its base
      `en`, which is. */
  lemma EnglishSupportedExample()
    ensures IsLanguageSupported(Table, Supported(Site), Some("en")) == Some("en")
  {
    EnglishFormsExample();
    EnglishLowerExample();
    SiteSupported();
    EnglishEntryExample();
    assert "en_us" !in Supported(Site);
  }

  /** The locale table's entry for `en`. */
  lemma EnglishEntryExample()
    ensures HasEntry(Table, Some("en")) && Entry(Table, Some("en")) == "en_US.ISO8859-1"
  {
  }

  /** The url-prefix strategy on `/en/home/` gives `en`. */
  lemma PrefixExample()
    ensures UrlPrefixLanguageCode(Site, Table, "/en/home/") == Some("en")
  {
    PrefixCodeExample();
    EnglishSupportedExample();
  }

  /** `/en/home/` with a `fr` cookie resolves to `en`. */
  lemma PrefixBeatsCookieExample(sig: RequestSignals)
    requires sig == RequestSignals("/en/home/", map["django_language" := "fr"], None, [], None)
    ensures Chain([UrlPrefixLanguage, CookieLanguage], Site, Table, sig, LanguageState(None, None))
      == LanguageState(Some("en"), Some("en"))
  {
    PrefixExample();
    assert LanguageFromRequest(UrlPrefixLanguage, Site, Table, sig) == Some("en");
    PrefixBeatsCookie(Site, Table, sig);
  }

  /** `Accept-Language: fr-CH, en` resolves to `fr`: the whole tag is not
      supported, its primary subtag is. */
  lemma AcceptLanguageExample()
    ensures AcceptLanguageCode(Supported(Site), Table, ["fr-ch", "en"]) == Some("fr")
  {
    assert Aliased(Table, "fr-ch");
    assert Lower("fr-ch") == "fr-ch";
    assert BeforeFirst("fr-ch", '-') == "fr";
    assert Lower("fr") == "fr";
    assert TagChoice(Supported(Site), Table, "fr-ch") == Some("fr");
  }

  /** A `*` before any usable tag leaves the request to the next strategy. */
  lemma WildcardFallsThrough(tags: seq<string>)
    ensures AcceptLanguageCode(Supported(Site), Table, ["*"] + tags).None?
  {
  }

  /** A routing table in which only `demo.home` exists, in every language. */
  function ProjectRoutes(q: RouteQuery): Option<string>
  {
    if q.name == "demo.home" && q.args == [] && q.kwargs == map[] then Some("/" + q.language + "/home/")
    else None
  }

  /** The project package of `demo.settings` and the name qualified by it. */
  lemma ProjectNameExample()
    ensures ProjectName(Site.settingsModule) + "." + "home" == "demo.home"
  {
    ProjectPackageExample();
    QualifiedNameExample();
  }

  /** The project-qualified name of `home`. */
  lemma QualifiedNameExample()
    ensures "demo" + "." + "home" == "demo.home"
  {
    assert "demo" + "." == "demo.";
  }

  /** `demo.settings` names the package `demo`. */
  lemma ProjectPackageExample()
    ensures ProjectName("demo.settings") == "demo"
  {
    BeforeFirstAt("demo.settings", '.', 4);
  }

  /** In `fr`, `home` has no route, with or without arguments. */
  lemma BareLookupFails()
    ensures ReverseIn(ProjectRoutes, "fr", "home", [], map[]).Err?
  {
    assert ProjectRoutes(BareQuery("fr", "home")).None?;
  }

  /** In `fr`, `demo.home` is routed to `/fr/home/`. */
  lemma QualifiedLookupSucceeds()
    ensures ReverseIn(ProjectRoutes, "fr", "demo.home", [], map[]) == Ok("/fr/home/")
  {
    assert "/" + "fr" + "/home/" == "/fr/home/";
    assert ProjectRoutes(BareQuery("fr", "demo.home")) == Some("/fr/home/");
  }

  /** `home` in `fr`, when only `demo.home` is routed: the attempts with and
      without arguments fail, the project-qualified one succeeds. */
  lemma QualifiedFallbackExample()
    ensures UrlFor(ProjectRoutes, "home", "fr", [], map[], Site.settingsModule) == Ok("/fr/home/")
  {
    ProjectNameExample();
    BareLookupFails();
    QualifiedLookupSucceeds();
  }

  /** A routing table with a `home` page per language. */
  function HomeRoutes(q: RouteQuery): Option<string>
  {
    if q.name == "home" then Some("/" + q.language + "/") else None
  }

  /** A temporary choice is written nowhere, even with a session, and with an
      empty `next` the redirect goes to the default route in the chosen
      language. */
  lemma TemporaryChoiceExample()
    ensures Persistence(LanguageForm("fr", "", true), false, None, true) == Writes(false, false, false)
    ensures RedirectTarget(HomeRoutes, LanguageForm("fr", "", true), Site) == Ok("/fr/")
  {
    assert "/" + "fr" + "/" == "/fr/";
    assert HomeRoutes(BareQuery("fr", "home")) == Some("/fr/");
  }
}
