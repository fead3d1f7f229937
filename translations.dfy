/**
  The translation look-up of lib/translations.py: language-code
  normalisation, the fallback chain to English and to the key itself, the
  languages offered, and the writing direction.

  The table of texts is a parameter (a map from language code to a map
  from key to text); the only thing the model needs of it is that it has an
  English part, and, for the offered languages, which codes it has.
*/
module Translations {
  import opened Text

  type Table = map<string, map<string, string>>

  /** The language codes the application's table has. */
  const Languages: set<string> := {"en", "ny", "be", "fr", "pt", "ar"}

  /** English variants ("en-us", "en-gb", …) read as "en"; a code the table lacks reads as "en". */
  function Resolved(t: Table, language: string): (l: string)
    requires "en" in t
    ensures l in t
    ensures l == language || l == "en"
  {
    var l := if StartsWith(language, "en-") then "en" else language;
    if l in t then l else "en"
  }

  /** `get_translation`: the chosen language's text, else the English text, else the key. */
  function Translate(t: Table, key: string, language: string): string
    requires "en" in t
  {
    var l := Resolved(t, language);
    if key in t[l] then t[l][key]
    else if key in t["en"] then t["en"][key]
    else key
  }

  /** A key the chosen language has is given in that language. */
  lemma TranslateIn(t: Table, key: string, language: string)
    requires "en" in t && language in t && !StartsWith(language, "en-") && key in t[language]
    ensures Translate(t, key, language) == t[language][key]
  {
  }

  /** A key the chosen language lacks falls back to English, and then to the key itself. */
  lemma TranslateFallsBack(t: Table, key: string, language: string)
    requires "en" in t && key !in t[Resolved(t, language)]
    ensures key in t["en"] ==> Translate(t, key, language) == t["en"][key]
    ensures key !in t["en"] ==> Translate(t, key, language) == key
  {
  }

  /** Every English variant, and every code the table lacks, reads exactly as English. */
  lemma TranslateAsEnglish(t: Table, key: string, language: string)
    requires "en" in t
    requires StartsWith(language, "en-") || language !in t
    ensures Translate(t, key, language) == Translate(t, key, "en")
    ensures Translate(t, key, language) == if key in t["en"] then t["en"][key] else key
  {
    assert !StartsWith("en", "en-");
  }

  /** Whatever the language, the text is the table's text for the key, or the key. */
  lemma TranslateTotal(t: Table, key: string, language: string)
    requires "en" in t
    ensures var r := Translate(t, key, language);
            r == key || exists l :: l in t && key in t[l] && t[l][key] == r
  {
  }

  // ----- the languages offered -----

  datatype Choice = Choice(code: string, name: string, flag: string)

  /** `get_available_languages`, in the order the menu lists them. */
  const Available: seq<Choice> := [
    Choice("en-us", "English (US)", "\U{1F1FA}\U{1F1F8}"),
    Choice("en-gb", "English (UK)", "\U{1F1EC}\U{1F1E7}"),
    Choice("fr", "Fran\U{E7}ais", "\U{1F1EB}\U{1F1F7}"),
    Choice("pt", "Portugu\U{EA}s", "\U{1F1F5}\U{1F1F9}"),
    Choice("ar", "\U{627}\U{644}\U{639}\U{631}\U{628}\U{64A}\U{629}", "\U{1F1F8}\U{1F1E6}"),
    Choice("ny", "Chichewa", "\U{1F1F2}\U{1F1FC}"),
    Choice("be", "Bemba", "\U{1F1FF}\U{1F1F2}")]

  /**
    Against the application's table, every offered code resolves to a part of
    the table without falling back: the English variants to "en", the others
    to themselves.
  */
  lemma AvailableResolve(t: Table, i: nat)
    requires t.Keys == Languages && i < |Available|
    ensures Resolved(t, Available[i].code) == (if i < 2 then "en" else Available[i].code)
    ensures Resolved(t, Available[i].code) in Languages
  {
    assert StartsWith("en-us", "en-") && StartsWith("en-gb", "en-");
  }

  // ----- writing direction -----

  /** `is_rtl_language`: Arabic, Hebrew, Persian and Urdu are written right to left. */
  predicate IsRtl(code: string) {
    code in ["ar", "he", "fa", "ur"]
  }

  /** `get_text_direction`. */
  function Direction(code: string): (d: string)
    ensures d == "rtl" <==> IsRtl(code)
    ensures d == "rtl" || d == "ltr"
  {
    if IsRtl(code) then "rtl" else "ltr"
  }

  /** Of the offered languages only Arabic is written right to left. */
  lemma OnlyArabicOfferedRtl(i: nat)
    requires i < |Available|
    ensures IsRtl(Available[i].code) <==> Available[i].code == "ar"
  {
  }
}
