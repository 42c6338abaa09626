/** i18nurl/utils.py: turning a language code into the form the project
    supports, through Python's `locale.locale_alias` table. */
module Utils {
  import opened Wrappers
  import opened Text

  /** The locale tables the checks consult, taken as given: Python's
      `locale.locale_alias`, Django's `to_locale(code, True)` and Django's
      `check_for_language` (which looks for message catalogues on disk). */
  datatype Locale = Locale(alias: map<string, string>, toLocale: string -> string, available: string -> bool)

  /** `normalize_language`: the alias-table entry for the locale form of `language`. */
  function NormalizeLanguage(loc: Locale, language: string): (r: Option<string>)
    ensures r.Some? <==> loc.toLocale(language) in loc.alias
    ensures r.Some? ==> r.value == loc.alias[loc.toLocale(language)]
  {
    var key := loc.toLocale(language);
    if key in loc.alias then Some(loc.alias[key]) else None
  }

  /** An alias entry without its encoding suffix (`fr_FR.ISO8859-1` gives `fr_FR`). */
  function FullForm(entry: string): string
  {
    BeforeFirst(entry, '.')
  }

  /** The full form without its territory (`fr_FR` gives `fr`). */
  function BaseForm(entry: string): string
  {
    BeforeFirst(FullForm(entry), '_')
  }

  /** The non-empty alias entry for `language`, the only case in which
      `is_language_supported` looks at the supported set at all. */
  predicate HasEntry(loc: Locale, language: Option<string>)
  {
    language.Some? && language.value != "" && loc.toLocale(language.value) in loc.alias
    && loc.alias[loc.toLocale(language.value)] != ""
  }

  function Entry(loc: Locale, language: Option<string>): string
    requires HasEntry(loc, language)
  {
    loc.alias[loc.toLocale(language.value)]
  }

  /** `is_language_supported(language, supported)`: the full form of the alias
      entry if its lower-cased form is supported, else the base form on the
      same test, else None. The membership test lower-cases; the value returned
      keeps the alias table's own casing. */
  function IsLanguageSupported(loc: Locale, supported: set<string>, language: Option<string>): (r: Option<string>)
    ensures language.None? || language.value == "" ==> r.None?
    ensures language.Some? && loc.toLocale(language.value) !in loc.alias ==> r.None?
    ensures r.Some? ==> HasEntry(loc, language) && Lower(r.value) in supported
    ensures r.Some? ==> r.value <= Entry(loc, language)
    ensures r.Some? ==> r.value == FullForm(Entry(loc, language)) || r.value == BaseForm(Entry(loc, language))
    ensures HasEntry(loc, language) && Lower(FullForm(Entry(loc, language))) in supported
      ==> r == Some(FullForm(Entry(loc, language)))
    ensures r.Some? && r.value != FullForm(Entry(loc, language)) ==> Lower(FullForm(Entry(loc, language))) !in supported
    ensures HasEntry(loc, language) && r.None? ==>
      Lower(FullForm(Entry(loc, language))) !in supported && Lower(BaseForm(Entry(loc, language))) !in supported
  {
    if language.None? || language.value == "" then None
    else
      match NormalizeLanguage(loc, language.value)
      case None => None
      case Some(normalized) =>
        if normalized == "" then None
        else
          var full := BeforeFirst(normalized, '.');
          var base := BeforeFirst(full, '_');
          if Lower(full) in supported then Some(full)
          else if Lower(base) in supported then Some(base)
          else None
  }

  /** Since the result is cut from the alias entry before its encoding, a
      supported code holding a `-` (Django writes `pt-br`, `zh-hans`) can never
      come out when the alias table, as Python's does, writes territories with
      `_`; a `-` in the encoding (`ISO8859-1`) does not matter. */
  lemma DashedCodeNeverReturned(loc: Locale, supported: set<string>, language: Option<string>)
    requires forall k :: k in loc.alias ==> '-' !in FullForm(loc.alias[k])
    ensures var r := IsLanguageSupported(loc, supported, language);
      r.Some? ==> '-' !in Lower(r.value) && Lower(r.value) in supported
  {
    var r := IsLanguageSupported(loc, supported, language);
    if r.Some? {
      var full := FullForm(Entry(loc, language));
      assert r.value <= full;
      assert r.value == full[..|r.value|];
      LowerKeepsNonLetter(r.value, '-');
    }
  }
}
