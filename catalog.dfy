/**
 * The string catalog itself: `PresentationStrings` resolves every key of the
 * key mapping once, at construction, into three tables indexed by the
 * generated accessor ids, and records a 32-bit fingerprint of the language
 * code for the plural-rule selector.
 */
module Catalog {
  import opened Utf16
  import opened Resolver
  import opened Placeholders
  import opened Formatting
  import Mapping

  /** The language whose plural rules apply: the component's rules code, else its language code. */
  function RulesCode(primary: PresentationStringsComponent): Text {
    primary.pluralizationRulesCode.GetOr(primary.languageCode)
  }

  /** The code cut at the first `_`, then at the first `-`, then lower-cased. */
  function RawCode(code: Text): (raw: Text)
    ensures |raw| <= |code|
    ensures forall i | 0 <= i < |raw| :: raw[i] != Underscore && raw[i] != Hyphen
    ensures exists k | 0 <= k <= |code| ::
              && raw == LowercasedAscii(code[..k])
              && (k == |code| || code[k] == Underscore || code[k] == Hyphen)
              && forall i | 0 <= i < k :: code[i] != Underscore && code[i] != Hyphen
  {
    var t1 := TruncatedAt(code, Underscore);
    var t2 := TruncatedAt(t1, Hyphen);
    assert t2 == code[..|t2|];
    assert |t2| < |t1| ==> code[|t2|] == Hyphen;
    LowercasedAscii(t2)
  }

  /** One step of the fingerprint: `(lc << 8) + c` on a `UInt32` (the shift drops the top byte). */
  function ShiftIn(lc: nat, c: CodeUnit): nat {
    lc * 0x100 % Mapping.TwoTo32 + c
  }

  /** The fingerprint of a code: its units shifted in one by one, first unit first. */
  function Fold(code: Text): nat
  {
    if code == [] then 0 else ShiftIn(Fold(code[..|code| - 1]), code[|code| - 1])
  }

  /**
   * No step of the fold overflows: `+` on `UInt32` stops the program when
   * the sum does not fit.
   */
  predicate FoldFits(code: Text) {
    code == [] || (FoldFits(code[..|code| - 1]) && ShiftIn(Fold(code[..|code| - 1]), code[|code| - 1]) < Mapping.TwoTo32)
  }

  lemma FoldFitsBound(code: Text)
    requires FoldFits(code)
    ensures Fold(code) < Mapping.TwoTo32
  {
  }

  /** A code that fits has prefixes that fit. */
  lemma {:induction false} FoldFitsPrefix(code: Text, n: nat)
    requires n <= |code| && FoldFits(code)
    ensures FoldFits(code[..n])
    decreases |code|
  {
    if n < |code| {
      var init := code[..|code| - 1];
      FoldFitsPrefix(init, n);
      assert init[..n] == code[..n];
    } else {
      assert code[..n] == code;
    }
  }

  /** Codes made of units below 256 never overflow: the shift leaves the low byte empty. */
  lemma {:induction false} ByteCodesFit(code: Text)
    requires forall i | 0 <= i < |code| :: code[i] < 0x100
    ensures FoldFits(code)
    decreases |code|
  {
    if code != [] {
      var init := code[..|code| - 1];
      ByteCodesFit(init);
      var x := Fold(init);
      var shifted := x * 0x100 % Mapping.TwoTo32;
      var q := x - 0x100_0000 * (x * 0x100 / Mapping.TwoTo32);
      assert shifted == 0x100 * q;
      assert q < 0x100_0000;
      assert shifted + code[|code| - 1] < Mapping.TwoTo32;
    }
  }

  /** 256 to the power `n`. */
  function Pow256(n: nat): nat
  {
    if n == 0 then 1 else 0x100 * Pow256(n - 1)
  }

  /** Units below 256, none of them zero: the codes whose fingerprint is a plain packing. */
  predicate LatinCode(code: Text) {
    forall i | 0 <= i < |code| :: 0 < code[i] < 0x100
  }

  /** Up to four such units are packed big-endian, without wrapping. */
  lemma {:induction false} FoldPacks(code: Text)
    requires |code| <= 4 && LatinCode(code)
    ensures Fold(code) < Pow256(|code|)
    ensures code != [] ==> Fold(code) == 0x100 * Fold(code[..|code| - 1]) + code[|code| - 1]
    decreases |code|
  {
    if code != [] {
      var init := code[..|code| - 1];
      FoldPacks(init);
      assert Pow256(|init|) <= 0x100_0000 by {
        assert |init| <= 3;
        Pow256Monotone(|init|, 3);
      }
      assert Fold(init) * 0x100 < Mapping.TwoTo32;
      assert Pow256(|code|) == 0x100 * Pow256(|init|);
    }
  }

  lemma {:induction false} Pow256Monotone(m: nat, n: nat)
    requires m <= n
    ensures Pow256(m) <= Pow256(n)
    decreases n
  {
    if m < n {
      Pow256Monotone(m, n - 1);
    }
  }

  /**
   * The fingerprint tells codes apart: two codes of at most four non-zero
   * units below 256 with the same fingerprint are the same code.
   */
  lemma {:induction false} FingerprintInjective(a: Text, b: Text)
    requires |a| <= 4 && |b| <= 4 && LatinCode(a) && LatinCode(b)
    requires Fold(a) == Fold(b)
    ensures a == b
    decreases |a|
  {
    FoldPacks(a);
    FoldPacks(b);
    if a != [] && b != [] {
      var ia, ib := a[..|a| - 1], b[..|b| - 1];
      Mapping.Split256(Fold(a), Fold(ia), a[|a| - 1]);
      Mapping.Split256(Fold(b), Fold(ib), b[|b| - 1]);
      FingerprintInjective(ia, ib);
      assert a == ia + [a[|a| - 1]] && b == ib + [b[|b| - 1]];
    }
  }

  /** The three places a key is looked up in, in order. */
  datatype Sources = Sources(primary: PresentationStringsComponent, secondary: Option<PresentationStringsComponent>,
                             fallback: map<Text, Text>)

  function Resolve(src: Sources, key: Text): Text {
    GetValue(src.primary, src.secondary, src.fallback, key)
  }

  function ResolveForm(src: Sources, key: Text, form: PluralizationForm): Text {
    GetValueWithForm(src.primary, src.secondary, src.fallback, key, form)
  }

  /** `_s` after the first `n` records: each id maps to its key's resolved value, later records winning. */
  function StringTable(src: Sources, ids: seq<int>, keys: seq<Text>, n: nat): (t: map<int, Text>)
    requires n <= |ids| && |keys| == |ids|
    ensures t.Keys == set i | 0 <= i < n :: ids[i]
    decreases n
  {
    if n == 0 then map[]
    else
      var i := n - 1;
      StringTable(src, ids, keys, i)[ids[i] := Resolve(src, keys[i])]
  }

  /** The entry of an id is the value of the last record with that id. */
  lemma {:induction false} StringTableLookup(src: Sources, ids: seq<int>, keys: seq<Text>, n: nat, j: nat)
    requires j < n <= |ids| && |keys| == |ids|
    requires forall k | j < k < n :: ids[k] != ids[j]
    ensures StringTable(src, ids, keys, n)[ids[j]] == Resolve(src, keys[j])
    decreases n
  {
    var i := n - 1;
    if j < i {
      StringTableLookup(src, ids, keys, i, j);
    }
  }

  /** `_r` after the first `n` argument ids: each maps to the placeholder ranges of its string. */
  function RangeTable(strings: map<int, Text>, argIds: seq<int>, n: nat): (t: map<int, seq<ArgumentRange>>)
    requires n <= |argIds| && forall i | 0 <= i < n :: argIds[i] in strings
    ensures forall id :: id in t <==> AmongFirst(argIds, n, id)
    ensures forall id | id in t :: id in strings && t[id] == ArgumentRanges(strings[id])
    decreases n
  {
    if n == 0 then map[]
    else
      var i := n - 1;
      RangeTable(strings, argIds, i)[argIds[i] := ArgumentRanges(strings[argIds[i]])]
  }

  /** The number of plural forms, the stride of `_ps`. */
  const FormCount: nat := 6

  /** The `_ps` slot of plural id `id` in form `f`. */
  function Slot(id: int, f: nat): int {
    id * 6 + f
  }

  /** A slot names its id and its form back: the id is the quotient by six, the form the remainder. */
  lemma SlotParts(id: int, f: nat)
    requires f < 6
    ensures Slot(id, f) / 6 == id && Slot(id, f) % 6 == f
  {
    var x := Slot(id, f);
    assert x == 6 * id + f;
  }

  /** Different ids or different forms never share a slot. */
  lemma SlotInjective(a: int, f: nat, b: int, g: nat)
    requires f < 6 && g < 6 && Slot(a, f) == Slot(b, g)
    ensures a == b && f == g
  {
    SlotParts(a, f);
    SlotParts(b, g);
  }

  /** The raw value names the form back. */
  lemma FormRoundTrip(form: PluralizationForm)
    ensures FormOfRawValue(RawValue(form)) == form
  {
  }

  /** `t` with the first `f` forms of plural id `id` filled in. */
  function PluralRow(src: Sources, t: map<int, Text>, id: int, key: Text, f: nat): (row: map<int, Text>)
    requires f <= 6
    decreases f
  {
    if f == 0 then t
    else
      var g := f - 1;
      PluralRow(src, t, id, key, g)[Slot(id, g) := ResolveForm(src, key, FormOfRawValue(g))]
  }

  /** Whether some of the first `n` plural ids is `id`. */
  predicate AmongFirst(ids: seq<int>, n: nat, id: int)
    requires n <= |ids|
  {
    exists i | 0 <= i < n :: ids[i] == id
  }

  /** `_ps` after the first `n` plural records: exactly the six slots of each of their ids. */
  function PluralTable(src: Sources, ids: seq<int>, keys: seq<Text>, n: nat): (t: map<int, Text>)
    requires n <= |ids| && |keys| == |ids|
    decreases n
  {
    if n == 0 then map[]
    else
      var i := n - 1;
      PluralRow(src, PluralTable(src, ids, keys, i), ids[i], keys[i], FormCount)
  }

  /** The row adds exactly the first `f` slots of `id` to `t`. */
  lemma {:induction false} PluralRowKeys(src: Sources, t: map<int, Text>, id: int, key: Text, f: nat, x: int)
    requires f <= 6
    ensures x in PluralRow(src, t, id, key, f) <==> x in t || (x / 6 == id && x % 6 < f)
    decreases f
  {
    if f > 0 {
      var g := f - 1;
      PluralRowKeys(src, t, id, key, g, x);
      SlotParts(id, g);
      if x / 6 == id && x % 6 == g {
        assert x == Slot(id, g);
      }
    }
  }

  lemma AmongFirstStep(ids: seq<int>, i: nat, n: nat, y: int)
    requires n == i + 1 <= |ids|
    ensures AmongFirst(ids, n, y) <==> AmongFirst(ids, i, y) || ids[i] == y
  {
    if AmongFirst(ids, n, y) && ids[i] != y {
      var k :| 0 <= k < n && ids[k] == y;
      assert k < i;
    }
  }

  /** `_ps` holds a slot exactly when its quotient by six is the id of one of the first `n` records. */
  lemma {:induction false} PluralTableKeys(src: Sources, ids: seq<int>, keys: seq<Text>, n: nat, x: int)
    requires n <= |ids| && |keys| == |ids|
    ensures x in PluralTable(src, ids, keys, n) <==> AmongFirst(ids, n, x / 6)
    decreases n
  {
    if n > 0 {
      var i := n - 1;
      var before := PluralTable(src, ids, keys, i);
      PluralTableKeys(src, ids, keys, i, x);
      PluralRowKeys(src, before, ids[i], keys[i], FormCount, x);
      AmongFirstStep(ids, i, n, x / 6);
    }
  }

  /** A filled slot holds the form it was filled for. */
  lemma {:induction false} PluralRowLookup(src: Sources, t: map<int, Text>, id: int, key: Text, f: nat, g: nat)
    requires g < f <= 6
    ensures Slot(id, g) in PluralRow(src, t, id, key, f)
    ensures PluralRow(src, t, id, key, f)[Slot(id, g)] == ResolveForm(src, key, FormOfRawValue(g))
    decreases f
  {
    var h := f - 1;
    SlotParts(id, g);
    if g < h {
      PluralRowLookup(src, t, id, key, h, g);
      SlotParts(id, h);
    }
  }

  /** Slots of other ids keep what they held. */
  lemma {:induction false} PluralRowKeeps(src: Sources, t: map<int, Text>, id: int, key: Text, f: nat, x: int)
    requires f <= 6 && x in t && x / 6 != id
    ensures x in PluralRow(src, t, id, key, f) && PluralRow(src, t, id, key, f)[x] == t[x]
    decreases f
  {
    if f > 0 {
      var g := f - 1;
      PluralRowKeeps(src, t, id, key, g, x);
      SlotParts(id, g);
    }
  }

  /** The slot of a plural id and raw form holds that form of the last record with that id. */
  lemma {:induction false} PluralTableLookup(src: Sources, ids: seq<int>, keys: seq<Text>, n: nat, j: nat, g: nat)
    requires j < n <= |ids| && |keys| == |ids| && g < 6
    requires forall k | j < k < n :: ids[k] != ids[j]
    ensures Slot(ids[j], g) in PluralTable(src, ids, keys, n)
    ensures PluralTable(src, ids, keys, n)[Slot(ids[j], g)] == ResolveForm(src, keys[j], FormOfRawValue(g))
    decreases n
  {
    var i := n - 1;
    var before := PluralTable(src, ids, keys, i);
    PluralTableStep(src, ids, keys, i, n);
    if j < i {
      PluralTableLookup(src, ids, keys, i, j, g);
      SlotParts(ids[j], g);
      PluralRowKeeps(src, before, ids[i], keys[i], FormCount, Slot(ids[j], g));
    } else {
      PluralRowLookup(src, before, ids[i], keys[i], FormCount, g);
    }
  }

  /** Every record's id has an entry, the value of the last record with that id. */
  lemma StringTableHas(src: Sources, ids: seq<int>, keys: seq<Text>, id: int)
    requires |keys| == |ids| && id in ids
    ensures var t := StringTable(src, ids, keys, |ids|);
            id in t && exists j | 0 <= j < |ids| :: ids[j] == id && t[id] == Resolve(src, keys[j])
  {
    var j := LastIndex(ids, id);
    StringTableLookup(src, ids, keys, |ids|, j);
  }

  /** Every form of every plural record has a slot, holding that form of the last record with the id. */
  lemma PluralTableHas(src: Sources, ids: seq<int>, keys: seq<Text>, p: int, form: PluralizationForm)
    requires |keys| == |ids| && p in ids
    ensures var t := PluralTable(src, ids, keys, |ids|);
            Slot(p, RawValue(form)) in t
            && exists j | 0 <= j < |ids| :: ids[j] == p && t[Slot(p, RawValue(form))] == ResolveForm(src, keys[j], form)
  {
    var j := LastIndex(ids, p);
    PluralTableLookup(src, ids, keys, |ids|, j, RawValue(form));
    FormRoundTrip(form);
  }

  /** The fingerprint loop of `init`. */
  method Fingerprint(rawCode: Text) returns (lc: nat)
    requires FoldFits(rawCode)
    ensures lc == Fold(rawCode) && lc < Mapping.TwoTo32
  {
    lc := 0;
    for i := 0 to |rawCode|
      invariant lc == Fold(rawCode[..i])
    {
      FoldPrefix(rawCode, i);
      FoldFitsPrefix(rawCode, i + 1);
      assert lc * 0x100 % Mapping.TwoTo32 + rawCode[i] < Mapping.TwoTo32;
      lc := lc * 0x100 % Mapping.TwoTo32 + rawCode[i];
    }
    assert rawCode[..|rawCode|] == rawCode;
    FoldFitsBound(rawCode);
  }

  lemma StringTableStep(src: Sources, ids: seq<int>, keys: seq<Text>, i: nat, n: nat)
    requires n == i + 1 <= |ids| && |keys| == |ids|
    ensures StringTable(src, ids, keys, n) == StringTable(src, ids, keys, i)[ids[i] := Resolve(src, keys[i])]
  {
  }

  lemma RangeTableStep(strings: map<int, Text>, argIds: seq<int>, i: nat, n: nat)
    requires n == i + 1 <= |argIds| && forall k | 0 <= k < n :: argIds[k] in strings
    ensures RangeTable(strings, argIds, n) == RangeTable(strings, argIds, i)[argIds[i] := ArgumentRanges(strings[argIds[i]])]
  {
  }

  lemma PluralTableStep(src: Sources, ids: seq<int>, keys: seq<Text>, i: nat, n: nat)
    requires n == i + 1 <= |ids| && |keys| == |ids|
    ensures PluralTable(src, ids, keys, n) == PluralRow(src, PluralTable(src, ids, keys, i), ids[i], keys[i], FormCount)
  {
  }

  lemma PluralRowStep(src: Sources, t: map<int, Text>, id: int, key: Text, f: nat, g: nat)
    requires g == f + 1 <= 6
    ensures PluralRow(src, t, id, key, g) == PluralRow(src, t, id, key, f)[id * 6 + f := ResolveForm(src, key, FormOfRawValue(f))]
  {
    assert Slot(id, f) == id * 6 + f;
  }

  /** The first loop of `init`: `_s[id] = getValue(key)` for each string record. */
  method ResolveStrings(src: Sources, sIdList: seq<int>, sKeyList: seq<Text>) returns (strings: map<int, Text>)
    requires |sKeyList| == |sIdList|
    ensures strings == StringTable(src, sIdList, sKeyList, |sIdList|)
  {
    strings := map[];
    var i := 0;
    while i < |sIdList|
      invariant i <= |sIdList| && strings == StringTable(src, sIdList, sKeyList, i)
    {
      var next := i + 1;
      StringTableStep(src, sIdList, sKeyList, i, next);
      strings := strings[sIdList[i] := GetValue(src.primary, src.secondary, src.fallback, sKeyList[i])];
      i := next;
    }
  }

  /** The second loop of `init`: `_r[id] = extractArgumentRanges(_s[id]!)` for each argument id. */
  method ExtractAllRanges(strings: map<int, Text>, sArgIdList: seq<int>) returns (ranges: map<int, seq<ArgumentRange>>)
    requires forall i | 0 <= i < |sArgIdList| :: sArgIdList[i] in strings
    ensures ranges == RangeTable(strings, sArgIdList, |sArgIdList|)
  {
    ranges := map[];
    var i := 0;
    while i < |sArgIdList|
      invariant i <= |sArgIdList| && ranges == RangeTable(strings, sArgIdList, i)
    {
      var next := i + 1;
      RangeTableStep(strings, sArgIdList, i, next);
      var extracted := ExtractArgumentRanges(strings[sArgIdList[i]]);
      ranges := ranges[sArgIdList[i] := extracted];
      i := next;
    }
  }

  /** The inner loop of the third loop of `init`: the six forms of one plural record. */
  method ResolveRow(src: Sources, before: map<int, Text>, id: int, key: Text) returns (row: map<int, Text>)
    ensures row == PluralRow(src, before, id, key, FormCount)
  {
    row := before;
    var form := 0;
    while form < FormCount
      invariant form <= FormCount && row == PluralRow(src, before, id, key, form)
    {
      var nextForm := form + 1;
      PluralRowStep(src, before, id, key, form, nextForm);
      row := row[id * 6 + form := GetValueWithForm(src.primary, src.secondary, src.fallback, key, FormOfRawValue(form))];
      form := nextForm;
    }
  }

  /** The third loop of `init`: `_ps[id * 6 + form] = getValueWithForm(key, form)` for each plural record and form. */
  method ResolvePlurals(src: Sources, pIdList: seq<int>, pKeyList: seq<Text>) returns (plurals: map<int, Text>)
    requires |pKeyList| == |pIdList|
    ensures plurals == PluralTable(src, pIdList, pKeyList, |pIdList|)
  {
    plurals := map[];
    var i := 0;
    while i < |pIdList|
      invariant i <= |pIdList| && plurals == PluralTable(src, pIdList, pKeyList, i)
    {
      var next := i + 1;
      PluralTableStep(src, pIdList, pKeyList, i, next);
      plurals := ResolveRow(src, plurals, pIdList[i], pKeyList[i]);
      i := next;
    }
  }

  /**
   * The catalog for one language (with an optional parent language),
   * built once from the key mapping; nothing in it changes afterwards.
   * `s`, `r` and `ps` are the original's `_s`, `_r` and `_ps`.
   */
  class PresentationStrings {
    const lc: nat
    const primaryComponent: PresentationStringsComponent
    const secondaryComponent: Option<PresentationStringsComponent>
    const baseLanguageCode: Text
    const s: map<int, Text>
    const r: map<int, seq<ArgumentRange>>
    const ps: map<int, Text>

    /** Where the tables came from: the lookup tiers and the key mapping. */
    ghost const sources: Sources
    ghost const keyMapping: Mapping.KeyMapping

    /** The tables are the ones the key mapping and the tiers determine. */
    ghost predicate Valid() {
      && Mapping.WellFormed(keyMapping)
      && sources.primary == primaryComponent && sources.secondary == secondaryComponent
      && s == StringTable(sources, keyMapping.sIds, keyMapping.sKeys, |keyMapping.sIds|)
      && (forall i | 0 <= i < |keyMapping.sArgIds| :: keyMapping.sArgIds[i] in s)
      && r == RangeTable(s, keyMapping.sArgIds, |keyMapping.sArgIds|)
      && ps == PluralTable(sources, keyMapping.pIds, keyMapping.pKeys, |keyMapping.pIds|)
    }

    constructor (primaryComponent: PresentationStringsComponent, secondaryComponent: Option<PresentationStringsComponent>,
                 fallback: map<Text, Text>, keyMapping: Mapping.KeyMapping)
      requires Mapping.WellFormed(keyMapping)
      requires FoldFits(RawCode(RulesCode(primaryComponent)))
      ensures Valid()
      ensures this.keyMapping == keyMapping && sources == Sources(primaryComponent, secondaryComponent, fallback)
      ensures lc == Fold(RawCode(RulesCode(primaryComponent))) && lc < Mapping.TwoTo32
      ensures baseLanguageCode == if secondaryComponent.Some? then secondaryComponent.value.languageCode
                                  else primaryComponent.languageCode
    {
      var src := Sources(primaryComponent, secondaryComponent, fallback);
      var fingerprint := Fingerprint(RawCode(RulesCode(primaryComponent)));
      var strings := ResolveStrings(src, keyMapping.sIds, keyMapping.sKeys);
      forall i | 0 <= i < |keyMapping.sArgIds|
        ensures keyMapping.sArgIds[i] in strings
      {
        StringTableHas(src, keyMapping.sIds, keyMapping.sKeys, keyMapping.sArgIds[i]);
      }
      var ranges := ExtractAllRanges(strings, keyMapping.sArgIds);
      var plurals := ResolvePlurals(src, keyMapping.pIds, keyMapping.pKeys);
      this.lc := fingerprint;
      this.primaryComponent := primaryComponent;
      this.secondaryComponent := secondaryComponent;
      this.baseLanguageCode := if secondaryComponent.Some? then secondaryComponent.value.languageCode
                               else primaryComponent.languageCode;
      this.s := strings;
      this.r := ranges;
      this.ps := plurals;
      this.sources := src;
      this.keyMapping := keyMapping;
    }

    /**
     * A plain accessor (`self._s[id]!`): the value that the lookup tiers give
     * for the key of a record with this id.
     */
    function PlainString(id: int): (value: Text)
      requires Valid() && id in keyMapping.sIds
      ensures exists j | 0 <= j < |keyMapping.sIds| ::
                keyMapping.sIds[j] == id && value == Resolve(sources, keyMapping.sKeys[j])
    {
      StringTableHas(sources, keyMapping.sIds, keyMapping.sKeys, id);
      s[id]
    }

    /**
     * A formatting accessor (`formatWithArgumentRanges(self._s[id]!,
     * self._r[id]!, arguments)`): the string with its placeholders replaced
     * by the arguments, and where each argument landed.
     */
    method FormattedString(id: int, arguments: seq<Text>) returns (result: Text, ranges: seq<ArgumentRange>)
      requires Valid() && id in keyMapping.sArgIds && IndicesValid(ArgumentRanges(s[id]), |arguments|)
      ensures result == Rendered(s[id], ArgumentRanges(s[id]), arguments, 0, 0)
      ensures ranges == Landed(s[id], ArgumentRanges(s[id]), arguments, 0, 0, 0)
    {
      assert id in r;
      ArgumentRangesPlaced(s[id]);
      result, ranges := FormatWithArgumentRanges(s[id], r[id], arguments);
    }

    /**
     * A plural accessor (`self._ps[p * 6 + Int(form.rawValue)]!`, where the
     * form is what the plural-rule selector `pluralizationForm` picks for the
     * fingerprint and the quantity): that form of the key of a record with
     * plural id `p`.
     */
    function PluralTemplate(p: int, value: int, pluralizationForm: (nat, int) -> PluralizationForm): (template: Text)
      requires Valid() && p in keyMapping.pIds
      ensures exists j | 0 <= j < |keyMapping.pIds| ::
                && keyMapping.pIds[j] == p
                && template == ResolveForm(sources, keyMapping.pKeys[j], pluralizationForm(lc, value))
    {
      var form := pluralizationForm(lc, value);
      PluralTableHas(sources, keyMapping.pIds, keyMapping.pKeys, p, form);
      ps[Slot(p, RawValue(form))]
    }
  }

  /** The fold over one more unit, when it fits. */
  lemma FoldPrefix(code: Text, i: nat)
    requires i < |code|
    ensures code[..i + 1][..i] == code[..i]
    ensures Fold(code[..i + 1]) == Fold(code[..i]) * 0x100 % Mapping.TwoTo32 + code[i]
  {
    assert code[..i + 1][..i] == code[..i];
  }

  /** The position of the last occurrence of `x`. */
  ghost function LastIndex(xs: seq<int>, x: int): (j: nat)
    requires x in xs
    ensures j < |xs| && xs[j] == x && forall k | j < k < |xs| :: xs[k] != x
  {
    if xs[|xs| - 1] == x then |xs| - 1 else LastIndex(xs[..|xs| - 1], x)
  }
}
