/** The Django settings the package reads, as one read-only value. */
module Config {

  /** `LANGUAGES` (its codes, in order), `LANGUAGE_CODE`, `LANGUAGE_COOKIE_NAME`,
      `SETTINGS_MODULE` (empty when unset) and `I18N_REDIRECT_URL_NAME`. */
  datatype Settings = Settings(
    languages: seq<string>,
    languageCode: string,
    cookieName: string,
    settingsModule: string,
    redirectUrlName: string)

  /** `I18N_REDIRECT_URL_NAME` when the project does not set it. */
  const DefaultRedirectUrlName: string := "home"

  /** The key under which sessions store the chosen language. */
  const SessionLanguageKey: string := "django_language"

  /** `dict(settings.LANGUAGES).keys()`. */
  function Supported(cfg: Settings): set<string>
  {
    set c | c in cfg.languages
  }
}
