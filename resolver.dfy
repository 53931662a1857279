/**
 * The three-tier fallback resolver of the string catalog: a key is looked up
 * in the primary language's dictionary, then in the secondary (parent)
 * language's dictionary when there is one, then in the process-wide fallback
 * dictionary; when every tier misses, the key itself is the answer.
 * Plural variants are looked up under `key + canonicalSuffix(form)`.
 */
module Resolver {
  import opened Utf16

  /** The six plural categories, in `rawValue` order 0..5. */
  datatype PluralizationForm = Zero | One | Two | Few | Many | Other

  function RawValue(form: PluralizationForm): (n: nat)
    ensures n < 6
  {
    match form
    case Zero => 0
    case One => 1
    case Two => 2
    case Few => 3
    case Many => 4
    case Other => 5
  }

  /** `PluralizationForm(rawValue:)` for the raw values the catalog uses. */
  function FormOfRawValue(n: nat): (form: PluralizationForm)
    requires n < 6
    ensures RawValue(form) == n
  {
    if n == 0 then Zero
    else if n == 1 then One
    else if n == 2 then Two
    else if n == 3 then Few
    else if n == 4 then Many
    else Other
  }

  /** The key suffix under which a plural variant is stored. */
  function CanonicalSuffix(form: PluralizationForm): (suffix: Text)
    ensures |suffix| >= 2 && suffix[0] == Underscore
  {
    match form
    case Zero => Ascii("_0")
    case One => Ascii("_1")
    case Two => Ascii("_2")
    case Few => Ascii("_3_10")
    case Many => Ascii("_many")
    case Other => Ascii("_any")
  }

  /** One language's strings and metadata; never changed after construction. */
  datatype PresentationStringsComponent = PresentationStringsComponent(
    languageCode: Text,
    localizedName: Text,
    pluralizationRulesCode: Option<Text>,
    dict: map<Text, Text>)

  /** Whether some tier has an entry for `key`. */
  predicate InSomeTier(primary: PresentationStringsComponent, secondary: Option<PresentationStringsComponent>,
                       fallback: map<Text, Text>, key: Text)
  {
    key in primary.dict || (secondary.Some? && key in secondary.value.dict) || key in fallback
  }

  /**
   * Resolves `key`: primary first, then secondary, then the fallback
   * dictionary, and the key itself when no tier has it.
   */
  function GetValue(primary: PresentationStringsComponent, secondary: Option<PresentationStringsComponent>,
                    fallback: map<Text, Text>, key: Text): (value: Text)
    ensures key in primary.dict ==> value == primary.dict[key]
    ensures key !in primary.dict && secondary.Some? && key in secondary.value.dict ==> value == secondary.value.dict[key]
    ensures key !in primary.dict && (secondary.None? || key !in secondary.value.dict) && key in fallback
            ==> value == fallback[key]
    ensures !InSomeTier(primary, secondary, fallback, key) ==> value == key
  {
    if key in primary.dict then primary.dict[key]
    else if secondary.Some? && key in secondary.value.dict then secondary.value.dict[key]
    else if key in fallback then fallback[key]
    else key
  }

  /**
   * Resolves the plural variant `key + CanonicalSuffix(form)` through the same
   * three tiers; when no tier has the suffixed key, the bare `key` is returned.
   */
  function GetValueWithForm(primary: PresentationStringsComponent, secondary: Option<PresentationStringsComponent>,
                            fallback: map<Text, Text>, key: Text, form: PluralizationForm): (value: Text)
    ensures InSomeTier(primary, secondary, fallback, key + CanonicalSuffix(form))
            ==> value == GetValue(primary, secondary, fallback, key + CanonicalSuffix(form))
    ensures !InSomeTier(primary, secondary, fallback, key + CanonicalSuffix(form)) ==> value == key
  {
    var builtKey := key + CanonicalSuffix(form);
    if builtKey in primary.dict then primary.dict[builtKey]
    else if secondary.Some? && builtKey in secondary.value.dict then secondary.value.dict[builtKey]
    else if builtKey in fallback then fallback[builtKey]
    else key
  }

  /** The tiers `GetValue` consults, in order. */
  function Tiers(primary: PresentationStringsComponent, secondary: Option<PresentationStringsComponent>,
                 fallback: map<Text, Text>): seq<map<Text, Text>>
  {
    [primary.dict] + (if secondary.Some? then [secondary.value.dict] else []) + [fallback]
  }

  /** An independent statement of "first match wins": the first tier that has `key`, else `otherwise`. */
  function FirstHit(tiers: seq<map<Text, Text>>, key: Text, otherwise: Text): Text
  {
    if tiers == [] then otherwise
    else if key in tiers[0] then tiers[0][key]
    else FirstHit(tiers[1..], key, otherwise)
  }

  /** The value comes from the earliest tier holding the key; no later tier can shadow it. */
  lemma FirstHitIsEarliest(tiers: seq<map<Text, Text>>, key: Text, otherwise: Text, j: nat)
    requires j < |tiers| && key in tiers[j]
    requires forall i | 0 <= i < j :: key !in tiers[i]
    ensures FirstHit(tiers, key, otherwise) == tiers[j][key]
    decreases j
  {
    if j > 0 {
      FirstHitIsEarliest(tiers[1..], key, otherwise, j - 1);
    }
  }

  /** When no tier holds the key, the default comes out. */
  lemma {:induction false} FirstHitMiss(tiers: seq<map<Text, Text>>, key: Text, otherwise: Text)
    requires forall i | 0 <= i < |tiers| :: key !in tiers[i]
    ensures FirstHit(tiers, key, otherwise) == otherwise
    decreases |tiers|
  {
    if tiers != [] {
      assert key !in tiers[0];
      FirstHitMiss(tiers[1..], key, otherwise);
    }
  }

  /** `GetValue` is the first-hit search over its tiers with the key itself as the last resort. */
  lemma GetValueIsFirstHit(primary: PresentationStringsComponent, secondary: Option<PresentationStringsComponent>,
                           fallback: map<Text, Text>, key: Text)
    ensures GetValue(primary, secondary, fallback, key) == FirstHit(Tiers(primary, secondary, fallback), key, key)
  {
    var tiers: seq<map<Text, Text>> := Tiers(primary, secondary, fallback);
    if secondary.Some? {
      assert tiers[1..] == [secondary.value.dict, fallback];
      assert tiers[1..][1..] == [fallback];
      assert |tiers[1..][1..][1..]| == 0;
      assert FirstHit(tiers[1..][1..], key, key) == if key in fallback then fallback[key] else key;
      assert FirstHit(tiers[1..], key, key) == GetValue(primary.(dict := map[]), secondary, fallback, key);
    } else {
      assert tiers == [primary.dict, fallback];
      assert tiers[1..] == [fallback];
      assert |tiers[1..][1..]| == 0;
      assert FirstHit(tiers[1..], key, key) == if key in fallback then fallback[key] else key;
    }
  }

  /** The six suffixes are pairwise distinct. */
  lemma SuffixesDistinct(f: PluralizationForm, g: PluralizationForm)
    requires f != g
    ensures CanonicalSuffix(f) != CanonicalSuffix(g)
  {
    var a, b := CanonicalSuffix(f), CanonicalSuffix(g);
    if |a| == |b| {
      assert a[1] != b[1];
    }
  }

  /** Hence one prefix gives six different lookup keys, one per form. */
  lemma SuffixedKeysDistinct(key: Text, f: PluralizationForm, g: PluralizationForm)
    requires f != g
    ensures key + CanonicalSuffix(f) != key + CanonicalSuffix(g)
  {
    var a, b := CanonicalSuffix(f), CanonicalSuffix(g);
    SuffixesDistinct(f, g);
    assert (key + a)[|key|..] == a && (key + b)[|key|..] == b;
  }
}
