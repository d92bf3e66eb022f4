/** The site's language context (src/i18n/LanguageContext.js): the dotted-key
    translation lookup `t` with its French fallback, the French/English
    toggle, and the choice of the initial language from the saved value or
    the browser's language. Browser storage is a map from keys to strings. */
module Language {
  import opened Wrappers
  import opened Text

  /** A translation table: a leaf text, or a dictionary of named entries. */
  datatype Translation =
    | Leaf(text: string)
    | Dict(entries: map<string, Translation>)

  /** The storage key under which the chosen language is kept. */
  const StorageKey: string := "language"

  // ---------------------------------------------------------------------
  // Lookup

  /** One step of the walk, `value[k]` guarded by `value &&` and
      `!== undefined`: only a dictionary holding `k` has a child there. */
  function Child(value: Option<Translation>, k: string): (r: Option<Translation>)
    ensures r.Some? <==> value.Some? && value.value.Dict? && k in value.value.entries
    ensures r.Some? ==> r.value == value.value.entries[k]
  {
    if value.Some? && value.value.Dict? && k in value.value.entries
    then Some(value.value.entries[k])
    else None
  }

  /** The value reached from `start` by following `keys` in order, or None
      once a step has no child. */
  function Walk(start: Option<Translation>, keys: seq<string>): Option<Translation>
  {
    if keys == [] then start
    else Child(Walk(start, keys[..|keys| - 1]), keys[|keys| - 1])
  }

  /** What `t(key)` evaluates to: the value at the dotted path in the
      current language's table; failing that, in the French table; failing
      that, the key itself. */
  function Lookup(translations: map<string, Translation>, language: string, key: string): (r: Translation)
    ensures || Walk(Get(translations, language), Split(key, '.')) == Some(r)
            || Walk(Get(translations, "fr"), Split(key, '.')) == Some(r)
            || r == Leaf(key)
  {
    var keys := Split(key, '.');
    var here := Walk(Get(translations, language), keys);
    if here.Some? then here.value
    else
      var fr := Walk(Get(translations, "fr"), keys);
      if fr.Some? then fr.value else Leaf(key)
  }

  /** Walking a concatenation of paths walks the first, then the second. */
  lemma {:induction false} WalkAppend(start: Option<Translation>, a: seq<string>, b: seq<string>)
    ensures Walk(start, a + b) == Walk(Walk(start, a), b)
    decreases |b|
  {
    if b == [] {
      assert a + b == a;
    } else {
      var b' := b[..|b| - 1];
      assert (a + b)[..|a + b| - 1] == a + b';
      assert (a + b)[|a + b| - 1] == b[|b| - 1];
      WalkAppend(start, a, b');
    }
  }

  /** Nothing is reached from nothing. */
  lemma {:induction false} WalkFromNone(keys: seq<string>)
    ensures Walk(None, keys) == None
    decreases |keys|
  {
    if keys != [] {
      WalkFromNone(keys[..|keys| - 1]);
    }
  }

  /** A walk that fails on a prefix of the path fails on the whole path. */
  lemma WalkFailsAfterPrefix(start: Option<Translation>, keys: seq<string>, i: nat)
    requires i <= |keys|
    requires Walk(start, keys[..i]) == None
    ensures Walk(start, keys) == None
  {
    assert keys == keys[..i] + keys[i..];
    WalkAppend(start, keys[..i], keys[i..]);
    WalkFromNone(keys[i..]);
  }

  /** A walk over a non-empty path that succeeds on a dictionary step. */
  lemma WalkStep(start: Option<Translation>, keys: seq<string>, i: nat)
    requires i < |keys|
    ensures Walk(start, keys[..i + 1]) == Child(Walk(start, keys[..i]), keys[i])
  {
    assert keys[..i + 1][..i] == keys[..i];
  }

  /** `t(key)`: the walk over the current language's table, restarted over
      the French table at the first missing segment. */
  method T(translations: map<string, Translation>, language: string, key: string) returns (r: Translation)
    ensures r == Lookup(translations, language, key)
  {
    var keys := Split(key, '.');
    ghost var start := Get(translations, language);
    var value := Get(translations, language);
    var i := 0;
    while i < |keys|
      invariant 0 <= i <= |keys|
      invariant value == Walk(start, keys[..i])
      invariant i > 0 ==> value.Some?
    {
      var k := keys[i];
      WalkStep(start, keys, i);
      if value.Some? && value.value.Dict? && k in value.value.entries {
        value := Some(value.value.entries[k]);
      } else {
        WalkFailsAfterPrefix(start, keys, i + 1);
        ghost var frStart := Get(translations, "fr");
        value := Get(translations, "fr");
        var j := 0;
        while j < |keys|
          invariant 0 <= j <= |keys|
          invariant value == Walk(frStart, keys[..j])
          invariant j > 0 ==> value.Some?
        {
          var fk := keys[j];
          WalkStep(frStart, keys, j);
          if value.Some? && value.value.Dict? && fk in value.value.entries {
            value := Some(value.value.entries[fk]);
          } else {
            WalkFailsAfterPrefix(frStart, keys, j + 1);
            return Leaf(key);
          }
          j := j + 1;
        }
        assert keys[..j] == keys;
        return value.value;
      }
      i := i + 1;
    }
    assert keys[..i] == keys;
    r := value.value;
  }

  /** A key every segment of which resolves in the current language gives
      that language's value. */
  lemma CurrentLanguageHit(translations: map<string, Translation>, language: string, key: string)
    requires Walk(Get(translations, language), Split(key, '.')).Some?
    ensures Lookup(translations, language, key) == Walk(Get(translations, language), Split(key, '.')).value
  {
  }

  /** A key missing in the current language is looked up again, with all
      its segments, in the French table; missing there too, it is its own
      translation. */
  lemma FrenchFallback(translations: map<string, Translation>, language: string, key: string)
    requires Walk(Get(translations, language), Split(key, '.')) == None
    ensures var fr := Walk(Get(translations, "fr"), Split(key, '.'));
      Lookup(translations, language, key) == (if fr.Some? then fr.value else Leaf(key))
  {
  }

  /** The value reached by a dotted key is the value of its last segment in
      the dictionary reached by the other segments. */
  lemma WalkLastSegment(start: Option<Translation>, keys: seq<string>, d: map<string, Translation>, k: string)
    requires Walk(start, keys) == Some(Dict(d)) && k in d
    ensures Walk(start, keys + [k]) == Some(d[k])
  {
    WalkAppend(start, keys, [k]);
    assert [k][..0] == [];
  }

  /** A language without a table behaves like French. */
  lemma UnknownLanguageIsFrench(translations: map<string, Translation>, language: string, key: string)
    requires language !in translations
    ensures Lookup(translations, language, key) == Lookup(translations, "fr", key)
  {
    WalkFromNone(Split(key, '.'));
    var fr := Walk(Get(translations, "fr"), Split(key, '.'));
    if fr.Some? {
      CurrentLanguageHit(translations, "fr", key);
    } else {
      FrenchFallback(translations, "fr", key);
    }
  }

  /** A key that is missing everywhere comes back as it is. */
  lemma MissingKeyIsItself(translations: map<string, Translation>, language: string, key: string)
    requires "fr" !in translations && language !in translations
    ensures Lookup(translations, language, key) == Leaf(key)
  {
    WalkFromNone(Split(key, '.'));
  }

  // ---------------------------------------------------------------------
  // Toggle and initial choice

  /** `toggleLanguage`: French becomes English, anything else French. */
  function ToggleLanguage(prev: string): (next: string)
    ensures next == "en" <==> prev == "fr"
    ensures next == "fr" || next == "en"
  {
    if prev == "fr" then "en" else "fr"
  }

  /** Toggling twice gives back either language. */
  lemma ToggleInvolution(lang: string)
    requires lang == "fr" || lang == "en"
    ensures ToggleLanguage(ToggleLanguage(lang)) == lang
    ensures ToggleLanguage(lang) != lang
  {
  }

  /** The initial `language`: a non-empty saved value (`if (saved)`),
      otherwise English iff the browser language's part before the first
      "-" is "en", and French in every other case. */
  function InitialLanguage(saved: Option<string>, browserLanguage: string): (l: string)
    ensures l != ""
    ensures l == "en" || l == "fr" || (saved.Some? && l == saved.value)
  {
    if saved.Some? && saved.value != "" then saved.value
    else if Split(browserLanguage, '-')[0] == "en" then "en"
    else "fr"
  }

  /** Without a saved value the choice is English exactly for the browser
      languages "en" and "en-..." ("en-GB", "en-US", ...). */
  lemma InitialLanguageFromBrowser(saved: Option<string>, browserLanguage: string)
    requires saved.None? || saved.value == ""
    ensures InitialLanguage(saved, browserLanguage) == "en" <==>
      browserLanguage == "en" || StartsWith(browserLanguage, "en-")
    ensures InitialLanguage(saved, browserLanguage) == "en" || InitialLanguage(saved, browserLanguage) == "fr"
  {
    var s := browserLanguage;
    var first := Split(s, '-')[0];
    FirstPartOfSplit(s, '-');
    assert '-' !in first;
    if first == "en" {
      if |s| > 2 {
        assert s[2] == '-';
        assert StartsWith(s, "en-");
      } else {
        assert s == first;
      }
    }
    if s == "en" || StartsWith(s, "en-") {
      assert s[0] == 'e' && s[1] == 'n';
      if |first| < 2 {
        assert false;
      }
      if s != "en" {
        PrefixStopsBefore(s, first, 2);
      }
      assert first == s[..2];
    }
  }

  /** A prefix that lacks the character at position `i` ends before `i`. */
  lemma PrefixStopsBefore(s: string, first: string, i: nat)
    requires StartsWith(s, first) && i < |s| && s[i] !in first
    ensures |first| <= i
  {
  }

  /** A non-empty saved value always wins over the browser language. */
  lemma SavedLanguageWins(saved: string, browserLanguage: string)
    requires saved != ""
    ensures InitialLanguage(Some(saved), browserLanguage) == saved
  {
  }

  /** The effect that stores the current language under "language". */
  function Persist(storage: map<string, string>, language: string): (r: map<string, string>)
    ensures r.Keys == storage.Keys + {StorageKey}
    ensures forall key :: key in storage && key != StorageKey ==> r[key] == storage[key]
    ensures r[StorageKey] == language
  {
    storage[StorageKey := language]
  }

  /** What was stored is what the next start chooses, whatever the browser's
      language, as long as it is not empty. */
  lemma PersistRoundTrip(storage: map<string, string>, language: string, browserLanguage: string)
    requires language != ""
    ensures InitialLanguage(Get(Persist(storage, language), StorageKey), browserLanguage) == language
  {
  }
}
