/**
 * The translation context (components/intl-provider.tsx): the current
 * language, starting as English, and `t`, which looks a key up in that
 * language's table and falls back to the key itself.
 */
module IntlProvider {

  import opened Wrappers
  import opened Translations

  /** `translations[language][key] || key`: a missing or empty entry gives the key. */
  function T(lang: Language, key: string): (r: string)
    ensures Table(lang, key).Some? && Table(lang, key).value != "" ==> r == Table(lang, key).value
    ensures Table(lang, key).None? || Table(lang, key).value == "" ==> r == key
  {
    match Table(lang, key)
    case Some(text) => if text != "" then text else key
    case None => key
  }

  /** Both tables define the same keys. */
  lemma SameKeys(key: string)
    ensures English(key).Some? <==> German(key).Some?
  {
  }

  /** A key falls back to itself in one language exactly when it does in the other. */
  lemma FallbackInBoth(key: string)
    ensures English(key).None? ==> T(En, key) == key && T(De, key) == key
  {
    SameKeys(key);
  }

  /** The header's `change_language` is in neither table and shows as the key. */
  lemma ChangeLanguageFallsBack(lang: Language)
    ensures T(lang, "change_language") == "change_language"
  {
    assert English("change_language").None?;
    FallbackInBoth("change_language");
  }

  /** A defined key shows its text: `title` in both languages. */
  lemma TitleTranslated()
    ensures T(En, "title") == "Title" && T(De, "title") == "Titel"
  {
  }

  /** The provider's state: the current language. */
  class Intl {
    var language: Language

    constructor ()
      ensures language == En
    {
      language := En;
    }

    /** `setLanguage(lang)`: later lookups use the new table. */
    method SetLanguage(lang: Language)
      modifies this
      ensures language == lang
      ensures forall key :: Translate(key) == T(lang, key)
    {
      language := lang;
    }

    /** `t(key)` in the current language. */
    function Translate(key: string): (r: string)
      reads this
      ensures Table(language, key).Some? && Table(language, key).value != "" ==> r == Table(language, key).value
      ensures Table(language, key).None? || Table(language, key).value == "" ==> r == key
    {
      T(language, key)
    }
  }
}
