/**
 * Translation: a table of Spanish and French strings keyed by their
 * English text, and the choice of a default language from the stored
 * preference and the browser's list.
 */
module I18n {
  import opened Wrappers
  import opened Collections

  datatype Language = En | Es | Fr

  /** The language's key: "en", "es" or "fr". */
  function Code(lang: Language): string
  {
    match lang
    case En => "en"
    case Es => "es"
    case Fr => "fr"
  }

  /** The language keyed by `code`, if any (`languageKeys.includes`). */
  function LanguageOf(code: string): (r: Option<Language>)
    ensures r.Some? <==> code in {"en", "es", "fr"}
    ensures r.Some? ==> Code(r.value) == code
  {
    if code == "en" then Some(En) else if code == "es" then Some(Es) else if code == "fr" then Some(Fr) else None
  }

  /** The translations; English is the key itself and has no entries. */
  const Translations: map<string, map<Language, string>> := map[
    "Language" := map[Es := "Idioma", Fr := "Langue"],
    "Daily challenge" := map[Es := "Desafío del día", Fr := "Défi du jour"],
    "Minesweeper" := map[Es := "Buscaminas", Fr := "Démineur"],
    "Beginner" := map[Es := "Principiante", Fr := "Débutant"],
    "Intermediate" := map[Es := "Intermedio", Fr := "Intermédiaire"],
    "Expert" := map[Es := "Experto"],
    "mines" := map[Es := "minas"],
    "Back to main menu" := map[Es := "Regresar al menú principal", Fr := "Retour au menu principal"],
    "Share replay" := map[Es := "Compartir repetición", Fr := "Partager la reprise"],
    "Restart replay" := map[Es := "Reiniciar repetición", Fr := "Redémarrer la reprise"],
    "New game" := map[Es := "Nueva parte", Fr := "Nouvelle partie"],
    "Try again" := map[Es := "Volver a intentar", Fr := "Réessayer"],
    "You won in" := map[Es := "Ganaste en", Fr := "Vous avez gagné en"],
    "You lost in" := map[Es := "Perdiste en", Fr := "Vous avez perdu en"]
  ]

  /**
   * `t`: English returns the key; another language returns the table's
   * entry, or the key when the entry is missing or empty. A key missing
   * from the table cannot be looked up in another language.
   */
  function T(key: string, lang: Language): (r: string)
    requires lang == En || key in Translations
    ensures lang == En ==> r == key
    ensures lang != En && lang in Translations[key] && Translations[key][lang] != "" ==> r == Translations[key][lang]
    ensures lang != En && (lang !in Translations[key] || Translations[key][lang] == "") ==> r == key
  {
    if lang == En then key
    else if lang in Translations[key] && Translations[key][lang] != "" then Translations[key][lang]
    else key
  }

  /** "Expert" and "mines" have no French entry and fall back to the key. */
  lemma MissingFrenchFallsBack()
    ensures T("Expert", Fr) == "Expert" && T("mines", Fr) == "mines"
  {
  }

  /** Entries that exist are used: Spanish "Expert" and French "Beginner". */
  lemma TranslationExamples()
    ensures T("Expert", Es) == "Experto" && T("Beginner", Fr) == "Débutant"
  {
  }

  /** English is the key itself, whatever the key. */
  lemma EnglishIsKey()
    ensures forall key :: T(key, En) == key
  {
  }

  /** `toLowerCase` on ASCII letters. */
  function Lower(s: string): (r: string)
    ensures |r| == |s|
    ensures forall k :: 0 <= k < |s| ==> r[k] == if 'A' <= s[k] <= 'Z' then (s[k] as int + 32) as char else s[k]
  {
    seq(|s|, k requires 0 <= k < |s| => if 'A' <= s[k] <= 'Z' then (s[k] as int + 32) as char else s[k])
  }

  /** `language.substring(0, 2).toLowerCase()`. */
  function Normalize(s: string): string
  {
    Lower(if |s| < 2 then s else s[..2])
  }

  /** A candidate that `isTruthy` keeps: present and not empty. */
  predicate Truthy(candidate: Option<string>)
  {
    candidate.Some? && candidate.value != ""
  }

  /** The candidates: the stored language, then the browser's languages. */
  function Candidates(stored: Option<string>, navigatorLanguages: seq<string>): (r: seq<Option<string>>)
    ensures |r| == |navigatorLanguages| + 1 && r[0] == stored
    ensures forall k :: 0 <= k < |navigatorLanguages| ==> r[k + 1] == Some(navigatorLanguages[k])
  {
    [stored] + seq(|navigatorLanguages|, k requires 0 <= k < |navigatorLanguages| => Some(navigatorLanguages[k]))
  }

  /** The first string that names a language (`find`). */
  function FindLanguage(codes: seq<string>): Option<Language>
  {
    if codes == [] then None
    else if LanguageOf(codes[0]).Some? then LanguageOf(codes[0])
    else FindLanguage(codes[1..])
  }

  function NormalizeAll(candidates: seq<Option<string>>): (r: seq<string>)
    requires forall k :: 0 <= k < |candidates| ==> candidates[k].Some?
    ensures |r| == |candidates|
    ensures forall k :: 0 <= k < |r| ==> r[k] == Normalize(candidates[k].value)
  {
    seq(|candidates|, k requires 0 <= k < |candidates| => Normalize(candidates[k].value))
  }

  /** `getDefaultLanguage`: filter, normalise, find, and English when nothing matches. */
  function GetDefaultLanguage(stored: Option<string>, navigatorLanguages: seq<string>): Language
  {
    var kept := Filter(Candidates(stored, navigatorLanguages), Truthy);
    match FindLanguage(NormalizeAll(kept))
    case Some(lang) => lang
    case None => En
  }

  /**
   * The reference choice, candidate by candidate: the first truthy
   * candidate whose normalised text names a language, else English.
   */
  function FirstKnown(candidates: seq<Option<string>>): Language
  {
    if candidates == [] then En
    else if Truthy(candidates[0]) && LanguageOf(Normalize(candidates[0].value)).Some? then
      LanguageOf(Normalize(candidates[0].value)).value
    else FirstKnown(candidates[1..])
  }

  /** The filter/map/find pipeline picks what the reference choice picks. */
  lemma {:induction false} PipelineIsFirstKnown(candidates: seq<Option<string>>)
    ensures (match FindLanguage(NormalizeAll(Filter(candidates, Truthy))) case Some(l) => l case None => En)
      == FirstKnown(candidates)
  {
    if candidates != [] {
      var c0 := candidates[0];
      var rest := Filter(candidates[1..], Truthy);
      PipelineIsFirstKnown(candidates[1..]);
      if Truthy(c0) {
        assert Filter(candidates, Truthy) == [c0] + rest;
        FindNormalizedCons(c0.value, rest);
      } else {
        assert Filter(candidates, Truthy) == rest;
      }
    }
  }

  /** Finding in the normalised list looks at the first candidate, then at the rest. */
  lemma FindNormalizedCons(first: string, rest: seq<Option<string>>)
    requires forall k :: 0 <= k < |rest| ==> rest[k].Some?
    ensures FindLanguage(NormalizeAll([Some(first)] + rest)) ==
      if LanguageOf(Normalize(first)).Some? then LanguageOf(Normalize(first)) else FindLanguage(NormalizeAll(rest))
  {
    var n := NormalizeAll([Some(first)] + rest);
    assert n[0] == Normalize(first);
    assert n[1..] == NormalizeAll(rest);
  }

  /**
   * The default language: a stored preference that names a language wins;
   * otherwise the first browser language that names one; otherwise English.
   * Names are compared by their first two characters, lower-cased.
   */
  lemma DefaultLanguageChoice(stored: Option<string>, navigatorLanguages: seq<string>)
    ensures var r := GetDefaultLanguage(stored, navigatorLanguages);
      && r == FirstKnown(Candidates(stored, navigatorLanguages))
      && (Truthy(stored) && LanguageOf(Normalize(stored.value)).Some? ==>
            r == LanguageOf(Normalize(stored.value)).value)
      && (!(Truthy(stored) && LanguageOf(Normalize(stored.value)).Some?) ==>
            (forall k :: 0 <= k < |navigatorLanguages| ==> LanguageOf(Normalize(navigatorLanguages[k])).None?) ==>
            r == En)
      && Code(r) in {"en", "es", "fr"}
  {
    var c := Candidates(stored, navigatorLanguages);
    PipelineIsFirstKnown(c);
    if !(Truthy(stored) && LanguageOf(Normalize(stored.value)).Some?) {
      NoneKnown(c[1..], navigatorLanguages);
    }
  }

  lemma {:induction false} NoneKnown(c: seq<Option<string>>, langs: seq<string>)
    requires |c| == |langs| && forall k :: 0 <= k < |langs| ==> c[k] == Some(langs[k])
    ensures (forall k :: 0 <= k < |langs| ==> LanguageOf(Normalize(langs[k])).None?) ==> FirstKnown(c) == En
  {
    if c != [] {
      NoneKnown(c[1..], langs[1..]);
    }
  }
}
