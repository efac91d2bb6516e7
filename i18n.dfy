/**
 * The interface language: the supported language codes, the choice made at start-up from
 * the saved setting and the browser's language tag, and the switch that remembers a choice.
 */
module I18n {
  import opened Wrappers

  /** The values of `LANGUAGES`, in declaration order. */
  const Languages: seq<string> := [
    "en", "ja", "ko", "de", "ar", "el", "es", "fr", "it", "la", "ms", "ru", "zh", "hi",
    "pt", "id", "bn", "tr", "ur", "sw", "vi", "ta", "fa", "pa", "mr", "te", "wuu", "jv"
  ]

  /** The language codes the translation resources are registered under. */
  const ResourceCodes: set<string> := {
    "en", "ja", "ko", "de", "ar", "el", "es", "fr", "it", "la", "ms", "ru", "zh", "hi",
    "pt", "id", "bn", "tr", "ur", "sw", "vi", "ta", "fa", "pa", "mr", "te", "wuu", "jv"
  }

  /** `fallbackLng`, also the last resort of the start-up choice. */
  const Fallback: string := "en"

  /** The `Language` type: one of the supported codes. */
  type Language = s: string | s in Languages witness "en"

  /** The key the choice is saved under in local storage. */
  const StorageKey: string := "language"

  /** There are 28 supported languages, each listed once, each with its resources. */
  lemma LanguagesWellFormed()
    ensures |Languages| == 28
    ensures forall i, j :: 0 <= i < j < |Languages| ==> Languages[i] != Languages[j]
    ensures (set l | l in Languages) == ResourceCodes
    ensures Fallback in Languages
  {
  }

  /** `tag.split("-")[0]`: the tag up to its first hyphen. */
  function PrimarySubtag(tag: string): (r: string)
    ensures r <= tag
    ensures '-' !in r
    ensures |r| < |tag| ==> tag[|r|] == '-'
  {
    if tag == [] || tag[0] == '-' then [] else [tag[0]] + PrimarySubtag(tag[1..])
  }

  /** The first piece of the split is the only hyphen-free prefix that ends at a hyphen or the end. */
  lemma {:induction false} PrimarySubtagUnique(tag: string, p: string)
    requires p <= tag && '-' !in p
    requires |p| < |tag| ==> tag[|p|] == '-'
    ensures p == PrimarySubtag(tag)
  {
    if p != [] {
      assert p[0] == tag[0] && p[0] in p;
      assert p[1..] <= tag[1..];
      assert forall ch :: ch in p[1..] ==> ch in p;
      PrimarySubtagUnique(tag[1..], p[1..]);
      assert p == [p[0]] + p[1..];
    }
  }

  /** The saved setting as `localStorage.getItem` returns it: `null` when the key is absent. */
  function Saved(storage: map<string, string>): (r: Option<string>)
    ensures r.Some? <==> StorageKey in storage
    ensures r.Some? ==> r.value == storage[StorageKey]
  {
    if StorageKey in storage then Some(storage[StorageKey]) else None
  }

  /**
   * `getUserLanguage`: a supported saved choice first, else the browser tag's primary
   * subtag when supported, else English. The result is always a supported code, and is
   * one of those three candidates.
   */
  function GetUserLanguage(saved: Option<string>, browserTag: string): (r: string)
    ensures r in Languages
    ensures (saved.Some? && r == saved.value) || r == PrimarySubtag(browserTag) || r == Fallback
  {
    if saved.Some? && saved.value != "" && saved.value in Languages then saved.value
    else
      var browser := PrimarySubtag(browserTag);
      if browser in Languages then browser else Fallback
  }

  /** A supported saved choice wins over whatever the browser says. */
  lemma SavedChoiceWins(l: string, browserTag: string)
    requires l in Languages
    ensures GetUserLanguage(Some(l), browserTag) == l
  {
    NoEmptyCode();
  }

  /** The empty string, which `savedLanguage &&` rejects, is not a code anyway. */
  lemma NoEmptyCode()
    ensures "" !in Languages
  {
    forall i | 0 <= i < |Languages|
      ensures Languages[i] != ""
    {
      assert |Languages[i]| >= 2;
    }
  }

  /**
   * A missing or unsupported saved value defers to the browser tag, then to English: the
   * choice depends only on whether the saved value is supported.
   */
  lemma UnsupportedSavedDefers(saved: Option<string>, browserTag: string)
    requires saved.None? || saved.value !in Languages
    ensures GetUserLanguage(saved, browserTag) ==
      if PrimarySubtag(browserTag) in Languages then PrimarySubtag(browserTag) else Fallback
  {
  }

  /** A regional browser tag such as "ja-JP" or "pt-BR" picks its language. */
  lemma RegionalTagPicksLanguage(l: string, region: string, saved: Option<string>)
    requires l in Languages
    requires saved.None? || saved.value !in Languages
    ensures GetUserLanguage(saved, l + "-" + region) == l
  {
    var tag := l + "-" + region;
    assert tag[|l|] == '-';
    assert l <= tag;
    assert '-' !in l;
    PrimarySubtagUnique(tag, l);
  }

  /** The language i18next renders and the browser's local storage. */
  class LanguageSettings {
    var storage: map<string, string>
    var language: string

    /** Initialisation: the start-up choice from the saved setting and the browser tag. */
    constructor (storage: map<string, string>, browserTag: string)
      ensures this.storage == storage
      ensures language == GetUserLanguage(Saved(storage), browserTag)
      ensures language in Languages
    {
      this.storage := storage;
      language := GetUserLanguage(Saved(storage), browserTag);
    }

    /** `changeLanguage`: switch the rendered language and remember it. */
    method ChangeLanguage(l: Language)
      modifies this
      ensures language == l
      ensures storage == old(storage)[StorageKey := l]
    {
      language := l;
      storage := storage[StorageKey := l];
    }
  }

  /** A remembered choice is the one the next start-up makes, whatever the browser says. */
  lemma ChoiceSurvivesReload(storage: map<string, string>, l: Language, browserTag: string)
    ensures GetUserLanguage(Saved(storage[StorageKey := l]), browserTag) == l
  {
    SavedChoiceWins(l, browserTag);
  }
}
