/**
 * Model of i18n.py: the translation lookup with its two fallbacks, and the
 * display names of the languages. The translation tables, which the source
 * loads from JSON files, are a parameter; `str.format` is a parameter too.
 */
module I18n {
  import opened Wrappers

  const SUPPORTED: seq<string> := ["ru", "en", "es", "de"]
  const DEFAULT_LANG: string := "en"

  type Translations = map<string, map<string, string>>
  /** Python's `str.format(**kwargs)`, which the model does not spell out. */
  type Formatter = (string, map<string, string>) -> string

  /** The language whose table is consulted first: `lang` if supported, else "en". */
  function EffectiveLang(lang: string): (l: string)
    ensures l in SUPPORTED
    ensures lang in SUPPORTED ==> l == lang
    ensures lang !in SUPPORTED ==> l == DEFAULT_LANG
  {
    if lang in SUPPORTED then lang else DEFAULT_LANG
  }

  /** `translations.get(lang, {}).get(key)` */
  function Lookup(translations: Translations, lang: string, key: string): Option<string> {
    if lang in translations && key in translations[lang] then Some(translations[lang][key])
    else None
  }

  /** The text before formatting: chosen language, then the default table, then the key itself. */
  function RawText(translations: Translations, key: string, lang: string): (text: string)
    ensures
      var first := Lookup(translations, EffectiveLang(lang), key);
      var fallback := Lookup(translations, DEFAULT_LANG, key);
      && (first.Some? && first.value != "" ==> text == first.value)
      && ((first.None? || first.value == "") && fallback.Some? ==> text == fallback.value)
      && ((first.None? || first.value == "") && fallback.None? ==> text == key)
  {
    var l := EffectiveLang(lang);
    var first := Lookup(translations, l, key);
    if first.Some? && first.value != "" then first.value
    else if DEFAULT_LANG in translations && key in translations[DEFAULT_LANG] then translations[DEFAULT_LANG][key]
    else key
  }

  /** I18n.get: the raw text, formatted only when keyword arguments are given. */
  function Get(translations: Translations, key: string, lang: string,
               kwargs: map<string, string>, format: Formatter): (text: string)
    ensures kwargs == map[] ==> text == RawText(translations, key, lang)
    ensures kwargs != map[] ==> text == format(RawText(translations, key, lang), kwargs)
  {
    var raw := RawText(translations, key, lang);
    if kwargs != map[] then format(raw, kwargs) else raw
  }

  /** An unsupported language reads exactly like the default one. */
  lemma UnsupportedReadsAsDefault(translations: Translations, key: string, lang: string,
                                  kwargs: map<string, string>, format: Formatter)
    requires lang !in SUPPORTED
    ensures Get(translations, key, lang, kwargs, format) == Get(translations, key, DEFAULT_LANG, kwargs, format)
  {
  }

  /** A key that neither the chosen table nor the default table holds comes back unchanged. */
  lemma MissingKeyIsEchoed(translations: Translations, key: string, lang: string)
    requires Lookup(translations, EffectiveLang(lang), key).None?
    requires Lookup(translations, DEFAULT_LANG, key).None?
    ensures Get(translations, key, lang, map[], (t, k) => t) == key
  {
  }

  /** I18n.get_language_name: the display name of a supported code, else the code itself. */
  function LanguageName(code: string): (name: string)
    ensures code !in SUPPORTED ==> name == code
    ensures code in SUPPORTED ==> name != code
    ensures code == "ru" ==> name == "🇷🇺 Русский"
    ensures code == "en" ==> name == "🇺🇸 English"
    ensures code == "es" ==> name == "🇪🇸 Español"
    ensures code == "de" ==> name == "🇩🇪 Deutsch"
  {
    var names := map[
      "ru" := "🇷🇺 Русский",
      "en" := "🇺🇸 English",
      "es" := "🇪🇸 Español",
      "de" := "🇩🇪 Deutsch"];
    if code in names then names[code] else code
  }

  /** No two supported languages share a display name, so the settings menu tells them apart. */
  lemma LanguageNamesDistinct(a: string, b: string)
    requires a in SUPPORTED && b in SUPPORTED
    requires LanguageName(a) == LanguageName(b)
    ensures a == b
  {
  }
}
