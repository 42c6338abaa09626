/** The ambient translation state of `django.utils.translation`: one mutable
    field holding the activated language, if any. */
module Translation {
  import opened Wrappers

  class TranslationState {
    /** The language `activate` last set; `None` after `deactivate`. */
    var active: Option<string>
    /** `settings.LANGUAGE_CODE`, what `get_language` reports when nothing is active. */
    const fallback: string

    constructor (fallback: string)
      ensures active == None && this.fallback == fallback
    {
      active := None;
      this.fallback := fallback;
    }

    /** `translation.get_language()`. */
    function GetLanguage(): string
      reads this
    {
      if active.Some? then active.value else fallback
    }

    /** `translation.activate(language)`. */
    method Activate(language: string)
      modifies this`active
      ensures active == Some(language)
    {
      active := Some(language);
    }

    /** `translation.deactivate()`. */
    method Deactivate()
      modifies this`active
      ensures active == None
    {
      active := None;
    }
  }
}
