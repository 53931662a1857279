/**
 * Argument substitution. The template is rebuilt left to right: literal text
 * before each placeholder is copied, the placeholder is replaced by its
 * argument, and the place where the argument landed in the output is
 * recorded so that callers can style it afterwards.
 */
module Formatting {
  import opened Utf16
  import opened Placeholders

  /** Every range names one of `count` arguments. */
  predicate IndicesValid(ranges: seq<ArgumentRange>, count: nat) {
    forall k | 0 <= k < |ranges| :: 0 <= ranges[k].index < count
  }

  /** Every range from the `i`-th on starts at or after offset `cur`. */
  predicate FromAt(ranges: seq<ArgumentRange>, i: nat, cur: nat) {
    forall k | i <= k < |ranges| :: cur <= ranges[k].range.location
  }

  /** `text[from..to]` where that is a valid slice, and nothing otherwise. */
  function Between(text: Text, from: nat, to: nat): (t: Text)
    ensures from <= to <= |text| ==> t == text[from..to]
    ensures !(from <= to <= |text|) ==> t == []
  {
    if from <= to <= |text| then text[from..to] else []
  }

  /** The literal text copied before a placeholder at `location` when the cursor is at `cur`. */
  function Gap(value: Text, cur: nat, location: nat): (g: Text)
    ensures cur < location <= |value| ==> g == value[cur..location]
    ensures location <= cur ==> g == []
    ensures |g| == GapLength(cur, location, |value|)
  {
    if cur < location then Between(value, cur, location) else []
  }

  /** How long `Gap` is in a template of length `n`. */
  function GapLength(cur: nat, location: nat, n: nat): nat {
    if cur < location <= n then location - cur else 0
  }

  /** The argument a placeholder names (nothing for an index out of range, which callers exclude). */
  function Argument(arguments: seq<Text>, index: int): (a: Text)
    ensures 0 <= index < |arguments| ==> a == arguments[index]
    ensures |a| == ArgumentLength(arguments, index)
  {
    if 0 <= index < |arguments| then arguments[index] else []
  }

  /** How long `Argument` is. */
  function ArgumentLength(arguments: seq<Text>, index: int): nat {
    if 0 <= index < |arguments| then |arguments[index]| else 0
  }

  /**
   * The text built from the `i`-th placeholder and cursor `cur` on: gaps,
   * arguments, and whatever follows the last placeholder.
   */
  function Rendered(value: Text, ranges: seq<ArgumentRange>, arguments: seq<Text>, i: nat, cur: nat): Text
    decreases |ranges| - i
  {
    if i >= |ranges| then Between(value, cur, |value|)
    else
      Gap(value, cur, ranges[i].range.location) + Argument(arguments, ranges[i].index)
      + Rendered(value, ranges, arguments, i + 1, End(ranges[i]))
  }

  /**
   * Where the arguments of the placeholders from the `i`-th on land when the
   * output built so far has length `base`.
   */
  function Landed(value: Text, ranges: seq<ArgumentRange>, arguments: seq<Text>, i: nat, cur: nat, base: nat): (l: seq<ArgumentRange>)
    ensures |l| == if i < |ranges| then |ranges| - i else 0
    decreases |ranges| - i
  {
    if i >= |ranges| then []
    else
      var at := base + GapLength(cur, ranges[i].range.location, |value|);
      var width := ArgumentLength(arguments, ranges[i].index);
      [ArgumentRange(ranges[i].index, NSRange(at, width))]
      + Landed(value, ranges, arguments, i + 1, End(ranges[i]), Past(value, arguments, ranges[i], cur, base))
  }

  /** The output length past the gap and the argument of placeholder `r`, from `cur` in the template and `base` in the output. */
  function Past(value: Text, arguments: seq<Text>, r: ArgumentRange, cur: nat, base: nat): nat {
    base + GapLength(cur, r.range.location, |value|) + ArgumentLength(arguments, r.index)
  }

  /**
   * One step of `Rendered`: the gap, the first argument, then the rest. The
   * next index `i'` is a parameter so that callers name it once.
   */
  lemma RenderedStep(value: Text, ranges: seq<ArgumentRange>, arguments: seq<Text>, i: nat, i': nat, cur: nat, prefix: Text)
    requires i < |ranges| && i' == i + 1
    ensures prefix + Rendered(value, ranges, arguments, i, cur)
            == (prefix + Gap(value, cur, ranges[i].range.location) + Argument(arguments, ranges[i].index))
               + Rendered(value, ranges, arguments, i', End(ranges[i]))
  {
    var g := Gap(value, cur, ranges[i].range.location);
    var a := Argument(arguments, ranges[i].index);
    var rest := Rendered(value, ranges, arguments, i', End(ranges[i]));
    assert Rendered(value, ranges, arguments, i, cur) == g + a + rest;
    assert prefix + (g + a + rest) == (prefix + g + a) + rest;
  }

  /** One step of `Landed`: the first argument lands after its gap, the rest past it. */
  lemma LandedStep(value: Text, ranges: seq<ArgumentRange>, arguments: seq<Text>, i: nat, i': nat, cur: nat, base: nat)
    requires i < |ranges| && i' == i + 1
    ensures Landed(value, ranges, arguments, i, cur, base)
            == [ArgumentRange(ranges[i].index, NSRange(base + GapLength(cur, ranges[i].range.location, |value|),
                                                       ArgumentLength(arguments, ranges[i].index)))]
               + Landed(value, ranges, arguments, i', End(ranges[i]), Past(value, arguments, ranges[i], cur, base))
  {
  }

  /** Each range ends no later than the next one starts. */
  predicate Adjacent(rs: seq<ArgumentRange>) {
    forall k | 0 < k < |rs| :: End(rs[k - 1]) <= rs[k].range.location
  }

  /** Ranges whose neighbours are in order are in order pairwise. */
  lemma AdjacentApart(rs: seq<ArgumentRange>)
    requires Adjacent(rs)
    ensures Apart(rs)
  {
    forall i, j | 0 <= i < j < |rs| ensures End(rs[i]) <= rs[j].range.location {
      AdjacentReach(rs, i, j);
    }
  }

  lemma {:induction false} AdjacentReach(rs: seq<ArgumentRange>, i: nat, j: nat)
    requires Adjacent(rs) && i < j < |rs|
    ensures End(rs[i]) <= rs[j].range.location
    decreases j - i
  {
    if i + 1 < j {
      AdjacentReach(rs, i, j - 1);
      assert End(rs[j - 1]) <= rs[j].range.location;
    }
  }

  /** The landed ranges start after the output built so far, each ending before the next starts. */
  lemma {:induction false} LandedAdjacent(value: Text, ranges: seq<ArgumentRange>, arguments: seq<Text>, i: nat, cur: nat, base: nat)
    requires i <= |ranges|
    ensures var landed := Landed(value, ranges, arguments, i, cur, base);
            FromAt(landed, 0, base) && Adjacent(landed)
    decreases |ranges| - i
  {
    if i < |ranges| {
      var i' := i + 1;
      var next := Past(value, arguments, ranges[i], cur, base);
      var first := ArgumentRange(ranges[i].index, NSRange(base + GapLength(cur, ranges[i].range.location, |value|),
                                                          ArgumentLength(arguments, ranges[i].index)));
      LandedStep(value, ranges, arguments, i, i', cur, base);
      LandedAdjacent(value, ranges, arguments, i', End(ranges[i]), next);
      AdjacentCons(first, Landed(value, ranges, arguments, i', End(ranges[i]), next), base);
    }
  }

  /** A range placed before ranges that start after it keeps them starting after `base` and in order. */
  lemma AdjacentCons(x: ArgumentRange, tail: seq<ArgumentRange>, base: nat)
    requires base <= x.range.location
    requires FromAt(tail, 0, End(x)) && Adjacent(tail)
    ensures FromAt([x] + tail, 0, base) && Adjacent([x] + tail)
  {
    var xs := [x] + tail;
    forall k | 0 <= k < |xs| ensures base <= xs[k].range.location {
      if k > 0 {
        assert xs[k] == tail[k - 1];
      }
    }
    forall k | 0 < k < |xs| ensures End(xs[k - 1]) <= xs[k].range.location {
      assert xs[k] == tail[k - 1];
      if k > 1 {
        assert xs[k - 1] == tail[k - 2];
      }
    }
  }

  /** The first landed range: after the gap, as long as the argument. */
  lemma LandedFirst(value: Text, ranges: seq<ArgumentRange>, arguments: seq<Text>, i: nat, cur: nat, base: nat)
    requires i < |ranges|
    ensures Landed(value, ranges, arguments, i, cur, base)[0]
            == ArgumentRange(ranges[i].index, NSRange(base + GapLength(cur, ranges[i].range.location, |value|),
                                                      ArgumentLength(arguments, ranges[i].index)))
  {
  }

  /** The later landed ranges are those of the next placeholder on, past the first gap and argument. */
  lemma LandedNext(value: Text, ranges: seq<ArgumentRange>, arguments: seq<Text>, i: nat, i': nat, cur: nat, base: nat, m: nat, m': nat)
    requires i' == i + 1 && m == m' + 1 && i + m < |ranges|
    ensures Landed(value, ranges, arguments, i, cur, base)[m]
            == Landed(value, ranges, arguments, i', End(ranges[i]), Past(value, arguments, ranges[i], cur, base))[m']
  {
    LandedStep(value, ranges, arguments, i, i', cur, base);
  }

  /** Each landed range keeps its placeholder's index and is as long as its argument. */
  lemma {:induction false} LandedShape(value: Text, ranges: seq<ArgumentRange>, arguments: seq<Text>, i: nat, cur: nat, base: nat,
                                       j: nat, m: nat)
    requires j < |ranges| && i + m == j
    ensures Landed(value, ranges, arguments, i, cur, base)[m].index == ranges[j].index
    ensures Landed(value, ranges, arguments, i, cur, base)[m].range.length == ArgumentLength(arguments, ranges[j].index)
    decreases m
  {
    if m == 0 {
      LandedFirst(value, ranges, arguments, i, cur, base);
    } else {
      var next := Past(value, arguments, ranges[i], cur, base);
      var m' := m - 1;
      var i' := i + 1;
      LandedShape(value, ranges, arguments, i', End(ranges[i]), next, j, m');
      LandedNext(value, ranges, arguments, i, i', cur, base, m, m');
    }
  }

  /** A range right after `p` and as long as `a` holds `a` in `p + a + rest`. */
  lemma MiddleHolds(p: Text, a: Text, rest: Text, x: ArgumentRange)
    requires x.range.location == |p| && x.range.length == |a|
    ensures Holds(p + a + rest, x, a)
  {
    var s := p + a + rest;
    assert forall j | 0 <= j < |a| :: s[|p|..|p| + |a|][j] == a[j];
  }

  /** `range` lies inside `out` and covers exactly `argument` there. */
  predicate Holds(out: Text, range: ArgumentRange, argument: Text) {
    End(range) <= |out| && Between(out, range.range.location, End(range)) == argument
  }

  /**
   * The `k`-th landed range lies inside the output and holds exactly the
   * argument of the `k`-th placeholder there.
   */
  lemma {:induction false} LandedHolds(value: Text, ranges: seq<ArgumentRange>, arguments: seq<Text>, i: nat, cur: nat,
                                       prefix: Text, base: nat, j: nat, m: nat, out: Text, landed: seq<ArgumentRange>)
    requires j < |ranges| && i + m == j && base == |prefix|
    requires out == prefix + Rendered(value, ranges, arguments, i, cur)
    requires landed == Landed(value, ranges, arguments, i, cur, base)
    ensures Holds(out, landed[m], Argument(arguments, ranges[j].index))
    decreases m, 1
  {
    if m == 0 {
      LandedHoldsFirst(value, ranges, arguments, i, cur, prefix, base, j, m, out, landed);
    } else {
      LandedHoldsLater(value, ranges, arguments, i, cur, prefix, base, j, m, out, landed);
    }
  }

  /** `LandedHolds` for the first remaining placeholder: its argument follows its gap. */
  lemma LandedHoldsFirst(value: Text, ranges: seq<ArgumentRange>, arguments: seq<Text>, i: nat, cur: nat,
                         prefix: Text, base: nat, j: nat, m: nat, out: Text, landed: seq<ArgumentRange>)
    requires j < |ranges| && i + m == j && m == 0 && base == |prefix|
    requires out == prefix + Rendered(value, ranges, arguments, i, cur)
    requires landed == Landed(value, ranges, arguments, i, cur, base)
    ensures Holds(out, landed[m], Argument(arguments, ranges[j].index))
  {
    var g := Gap(value, cur, ranges[i].range.location);
    var a := Argument(arguments, ranges[i].index);
    var i' := i + 1;
    var rest := Rendered(value, ranges, arguments, i', End(ranges[i]));
    RenderedStep(value, ranges, arguments, i, i', cur, prefix);
    LandedFirst(value, ranges, arguments, i, cur, base);
    MiddleHolds(prefix + g, a, rest, landed[0]);
    assert landed[m] == landed[0] && ranges[j] == ranges[i];
  }

  /** `LandedHolds` for a later placeholder: the same holds of the rest of the rendering. */
  lemma {:induction false} LandedHoldsLater(value: Text, ranges: seq<ArgumentRange>, arguments: seq<Text>, i: nat, cur: nat,
                                            prefix: Text, base: nat, j: nat, m: nat, out: Text, landed: seq<ArgumentRange>)
    requires j < |ranges| && i + m == j && 0 < m && base == |prefix|
    requires out == prefix + Rendered(value, ranges, arguments, i, cur)
    requires landed == Landed(value, ranges, arguments, i, cur, base)
    ensures Holds(out, landed[m], Argument(arguments, ranges[j].index))
    decreases m, 0
  {
    var m' := m - 1;
    var i' := i + 1;
    RenderedStep(value, ranges, arguments, i, i', cur, prefix);
    LandedNext(value, ranges, arguments, i, i', cur, base, m, m');
    LandedHolds(value, ranges, arguments, i', End(ranges[i]),
                prefix + Gap(value, cur, ranges[i].range.location) + Argument(arguments, ranges[i].index),
                Past(value, arguments, ranges[i], cur, base),
                j, m', out,
                Landed(value, ranges, arguments, i', End(ranges[i]), Past(value, arguments, ranges[i], cur, base)));
  }

  /** Ranges in order and apart: the `i`-th starts at or after `cur`, the later ones after it. */
  lemma NextFrom(ranges: seq<ArgumentRange>, n: nat, i: nat, i': nat, cur: nat)
    requires Placed(ranges, n) && FromAt(ranges, i, cur) && i < |ranges| && i' == i + 1
    ensures cur <= ranges[i].range.location && End(ranges[i]) <= n
    ensures FromAt(ranges, i', End(ranges[i]))
    ensures ranges[i..][0] == ranges[i] && ranges[i..][1..] == ranges[i'..]
  {
  }

  /** The sum of the placeholders' lengths. */
  function PlaceholderWidth(ranges: seq<ArgumentRange>): nat
    decreases |ranges|
  {
    if ranges == [] then 0 else ranges[0].range.length + PlaceholderWidth(ranges[1..])
  }

  /** The sum of the lengths of the arguments the placeholders name, one term per placeholder. */
  function ArgumentWidth(ranges: seq<ArgumentRange>, arguments: seq<Text>): nat
    decreases |ranges|
  {
    if ranges == [] then 0 else |Argument(arguments, ranges[0].index)| + ArgumentWidth(ranges[1..], arguments)
  }

  /**
   * With placeholders in order and apart, the output is as long as the
   * template, minus the placeholders, plus the arguments put in their place.
   */
  lemma {:induction false} RenderedLength(value: Text, ranges: seq<ArgumentRange>, arguments: seq<Text>, i: nat, cur: nat)
    requires i <= |ranges| && cur <= |value| && Placed(ranges, |value|) && FromAt(ranges, i, cur)
    ensures |Rendered(value, ranges, arguments, i, cur)|
            == |value| - cur - PlaceholderWidth(ranges[i..]) + ArgumentWidth(ranges[i..], arguments)
    decreases |ranges| - i
  {
    if i < |ranges| {
      var i' := i + 1;
      NextFrom(ranges, |value|, i, i', cur);
      RenderedLength(value, ranges, arguments, i', End(ranges[i]));
      RenderedStep(value, ranges, arguments, i, i', cur, []);
    }
  }

  /**
   * The text with the given ranges cut out, from offset `cur` on: what lies
   * between consecutive ranges and after the last one.
   */
  function Literals(text: Text, ranges: seq<ArgumentRange>, cur: nat): Text
    decreases |ranges|
  {
    if ranges == [] then Between(text, cur, |text|)
    else Between(text, cur, ranges[0].range.location) + Literals(text, ranges[1..], End(ranges[0]))
  }

  /** A range that lands right after `prefix + g` removes what follows `g` from the literal text. */
  lemma LiteralsPeel(out: Text, prefix: Text, g: Text, a: Text, first: ArgumentRange, tail: seq<ArgumentRange>, base: nat, next: nat)
    requires base == |prefix| && first.range.location == base + |g| && first.range.length == |a| && next == End(first)
    requires |prefix + g + a| <= |out| && out[..|prefix + g + a|] == prefix + g + a
    ensures Literals(out, [first] + tail, base) == g + Literals(out, tail, next)
  {
    var xs := [first] + tail;
    assert xs[0] == first && xs[1..] == tail;
    var built := prefix + g + a;
    assert out[base..base + |g|] == built[base..base + |g|];
    assert built[base..base + |g|] == g;
    assert Between(out, base, first.range.location) == g;
  }

  /** Cutting the landed ranges out of the output peels off one gap at a time. */
  lemma LiteralsOfOutputStep(value: Text, ranges: seq<ArgumentRange>, arguments: seq<Text>, i: nat, i': nat, cur: nat,
                              prefix: Text, base: nat)
    requires i < |ranges| && i' == i + 1 && base == |prefix|
    ensures Literals(prefix + Rendered(value, ranges, arguments, i, cur), Landed(value, ranges, arguments, i, cur, base), base)
            == Gap(value, cur, ranges[i].range.location)
               + Literals(prefix + Gap(value, cur, ranges[i].range.location) + Argument(arguments, ranges[i].index)
                          + Rendered(value, ranges, arguments, i', End(ranges[i])),
                          Landed(value, ranges, arguments, i', End(ranges[i]), Past(value, arguments, ranges[i], cur, base)),
                          Past(value, arguments, ranges[i], cur, base))
  {
    var g := Gap(value, cur, ranges[i].range.location);
    var a := Argument(arguments, ranges[i].index);
    var next := Past(value, arguments, ranges[i], cur, base);
    var first := ArgumentRange(ranges[i].index, NSRange(base + GapLength(cur, ranges[i].range.location, |value|),
                                                        ArgumentLength(arguments, ranges[i].index)));
    var tail := Landed(value, ranges, arguments, i', End(ranges[i]), next);
    var out := prefix + Rendered(value, ranges, arguments, i, cur);
    RenderedStep(value, ranges, arguments, i, i', cur, prefix);
    LandedStep(value, ranges, arguments, i, i', cur, base);
    LiteralsPeel(out, prefix, g, a, first, tail, base, next);
  }

  /**
   * Text outside the placeholders is copied verbatim: cutting the landed
   * arguments out of the output leaves what cutting the placeholders out of
   * the template leaves, trailing text included.
   */
  lemma {:induction false} LiteralsKept(value: Text, ranges: seq<ArgumentRange>, arguments: seq<Text>, i: nat, cur: nat,
                                        prefix: Text, base: nat)
    requires i <= |ranges| && cur <= |value| && Placed(ranges, |value|) && FromAt(ranges, i, cur) && base == |prefix|
    ensures Literals(prefix + Rendered(value, ranges, arguments, i, cur), Landed(value, ranges, arguments, i, cur, base), base)
            == Literals(value, ranges[i..], cur)
    decreases |ranges| - i
  {
    if i == |ranges| {
      assert (prefix + value[cur..])[base..] == value[cur..];
    } else {
      var i' := i + 1;
      NextFrom(ranges, |value|, i, i', cur);
      LiteralsOfOutputStep(value, ranges, arguments, i, i', cur, prefix, base);
      LiteralsKept(value, ranges, arguments, i', End(ranges[i]),
                   prefix + Gap(value, cur, ranges[i].range.location) + Argument(arguments, ranges[i].index),
                   Past(value, arguments, ranges[i], cur, base));
    }
  }

  /**
   * The text the formatting loop ends with when it has built `result` and
   * stands at template position `cur` before placeholder `i`: the remaining
   * gaps and arguments, then the text after the last placeholder.
   */
  function FinishText(value: Text, ranges: seq<ArgumentRange>, arguments: seq<Text>, result: Text, cur: nat, i: nat): Text
    decreases |ranges| - i
  {
    if i >= |ranges| then result + Between(value, cur, |value|)
    else
      FinishText(value, ranges, arguments,
                 result + Gap(value, cur, ranges[i].range.location) + Argument(arguments, ranges[i].index),
                 End(ranges[i]), i + 1)
  }

  /**
   * The ranges the formatting loop ends with when it has recorded `landed`,
   * built `length` code units of output and stands at template position `cur`
   * before placeholder `i`.
   */
  function FinishRanges(value: Text, ranges: seq<ArgumentRange>, arguments: seq<Text>,
                        landed: seq<ArgumentRange>, length: nat, cur: nat, i: nat): seq<ArgumentRange>
    decreases |ranges| - i
  {
    if i >= |ranges| then landed
    else
      var at := length + GapLength(cur, ranges[i].range.location, |value|);
      var width := ArgumentLength(arguments, ranges[i].index);
      FinishRanges(value, ranges, arguments, landed + [ArgumentRange(ranges[i].index, NSRange(at, width))],
                   Past(value, arguments, ranges[i], cur, length), End(ranges[i]), i + 1)
  }

  /** One iteration of the loop, as `FinishText` sees it. */
  lemma FinishTextStep(value: Text, ranges: seq<ArgumentRange>, arguments: seq<Text>, result: Text, cur: nat, i: nat, i': nat)
    requires i < |ranges| && i' == i + 1
    ensures FinishText(value, ranges, arguments, result, cur, i)
            == FinishText(value, ranges, arguments,
                          result + Gap(value, cur, ranges[i].range.location) + Argument(arguments, ranges[i].index),
                          End(ranges[i]), i')
  {
  }

  /** One iteration of the loop, as `FinishRanges` sees it. */
  lemma FinishRangesStep(value: Text, ranges: seq<ArgumentRange>, arguments: seq<Text>,
                         landed: seq<ArgumentRange>, length: nat, cur: nat, i: nat, i': nat, landed': seq<ArgumentRange>, length': nat)
    requires i < |ranges| && i' == i + 1
    requires landed' == landed + [ArgumentRange(ranges[i].index, NSRange(length + GapLength(cur, ranges[i].range.location, |value|),
                                                                         ArgumentLength(arguments, ranges[i].index)))]
    requires length' == Past(value, arguments, ranges[i], cur, length)
    ensures FinishRanges(value, ranges, arguments, landed, length, cur, i)
            == FinishRanges(value, ranges, arguments, landed', length', End(ranges[i]), i')
  {
  }

  /** Whatever the loop has built so far, it goes on to append exactly what `Rendered` gives from placeholder `i` on. */
  lemma {:induction false} FinishTextRenders(value: Text, ranges: seq<ArgumentRange>, arguments: seq<Text>,
                                             result: Text, cur: nat, i: nat)
    ensures FinishText(value, ranges, arguments, result, cur, i) == result + Rendered(value, ranges, arguments, i, cur)
    decreases |ranges| - i
  {
    if i < |ranges| {
      var i' := i + 1;
      FinishTextStep(value, ranges, arguments, result, cur, i, i');
      FinishTextRenders(value, ranges, arguments,
                        result + Gap(value, cur, ranges[i].range.location) + Argument(arguments, ranges[i].index),
                        End(ranges[i]), i');
      RenderedStep(value, ranges, arguments, i, i', cur, result);
    }
  }

  /** Likewise it goes on to record exactly the ranges `Landed` gives from placeholder `i` on. */
  lemma {:induction false} FinishRangesLand(value: Text, ranges: seq<ArgumentRange>, arguments: seq<Text>,
                                            landed: seq<ArgumentRange>, length: nat, cur: nat, i: nat)
    ensures FinishRanges(value, ranges, arguments, landed, length, cur, i) == landed + Landed(value, ranges, arguments, i, cur, length)
    decreases |ranges| - i
  {
    if i >= |ranges| {
      assert landed + [] == landed;
    } else {
      var i' := i + 1;
      var x := ArgumentRange(ranges[i].index, NSRange(length + GapLength(cur, ranges[i].range.location, |value|),
                                                      ArgumentLength(arguments, ranges[i].index)));
      var next := Past(value, arguments, ranges[i], cur, length);
      var rest := Landed(value, ranges, arguments, i', End(ranges[i]), next);
      calc {
        FinishRanges(value, ranges, arguments, landed, length, cur, i);
        { FinishRangesStep(value, ranges, arguments, landed, length, cur, i, i', landed + [x], next); }
        FinishRanges(value, ranges, arguments, landed + [x], next, End(ranges[i]), i');
        { FinishRangesLand(value, ranges, arguments, landed + [x], next, End(ranges[i]), i'); }
        (landed + [x]) + rest;
        landed + ([x] + rest);
        { LandedStep(value, ranges, arguments, i, i', cur, length); }
        landed + Landed(value, ranges, arguments, i, cur, length);
      }
    }
  }

  /**
   * Where the arguments land: one landed range per placeholder, in order
   * and apart inside the output, each naming the placeholder's argument and
   * covering exactly that argument's text.
   */
  lemma FormatPlacesArguments(value: Text, ranges: seq<ArgumentRange>, arguments: seq<Text>)
    requires IndicesValid(ranges, |arguments|)
    ensures var result := Rendered(value, ranges, arguments, 0, 0);
            var landed := Landed(value, ranges, arguments, 0, 0, 0);
            && |landed| == |ranges| && Placed(landed, |result|)
            && forall k | 0 <= k < |ranges| ::
                 && landed[k].index == ranges[k].index
                 && landed[k].range.length == |arguments[ranges[k].index]|
                 && result[landed[k].range.location..End(landed[k])] == arguments[ranges[k].index]
  {
    var result := Rendered(value, ranges, arguments, 0, 0);
    var landed := Landed(value, ranges, arguments, 0, 0, 0);
    LandedAdjacent(value, ranges, arguments, 0, 0, 0);
    AdjacentApart(landed);
    forall k | 0 <= k < |ranges|
      ensures && End(landed[k]) <= |result|
              && landed[k].index == ranges[k].index
              && landed[k].range.length == |arguments[ranges[k].index]|
              && result[landed[k].range.location..End(landed[k])] == arguments[ranges[k].index]
    {
      LandedShape(value, ranges, arguments, 0, 0, 0, k, k);
      assert [] + result == result;
      LandedHolds(value, ranges, arguments, 0, 0, [], 0, k, k, result, landed);
    }
  }

  /**
   * The output is as long as the template, less the placeholders, plus the
   * arguments put in their place.
   */
  lemma FormatLength(value: Text, ranges: seq<ArgumentRange>, arguments: seq<Text>)
    requires Placed(ranges, |value|)
    ensures |Rendered(value, ranges, arguments, 0, 0)|
            == |value| - PlaceholderWidth(ranges) + ArgumentWidth(ranges, arguments)
  {
    RenderedLength(value, ranges, arguments, 0, 0);
    assert ranges[0..] == ranges;
  }

  /** Outside the landed ranges the output is the template's literal text, verbatim and in order. */
  lemma FormatKeepsLiterals(value: Text, ranges: seq<ArgumentRange>, arguments: seq<Text>)
    requires Placed(ranges, |value|)
    ensures Literals(Rendered(value, ranges, arguments, 0, 0), Landed(value, ranges, arguments, 0, 0, 0), 0)
            == Literals(value, ranges, 0)
  {
    LiteralsKept(value, ranges, arguments, 0, 0, [], 0);
    assert [] + Rendered(value, ranges, arguments, 0, 0) == Rendered(value, ranges, arguments, 0, 0);
  }

  /** A template without placeholders comes back unchanged, with no ranges. */
  lemma FormatWithoutRanges(value: Text, arguments: seq<Text>)
    ensures Rendered(value, [], arguments, 0, 0) == value
    ensures Landed(value, [], arguments, 0, 0, 0) == []
  {
    assert value[0..|value|] == value;
  }

  /** One pass of the loop in `FormatWithArgumentRanges`, in terms of both folds. */
  lemma FormatStep(value: Text, ranges: seq<ArgumentRange>, arguments: seq<Text>, i: nat, i': nat, cur: nat,
                   before: Text, mid: Text, result: Text, recorded: seq<ArgumentRange>, resultingRanges: seq<ArgumentRange>)
    requires i < |ranges| && i' == i + 1 && 0 <= ranges[i].index < |arguments|
    requires mid == before + Gap(value, cur, ranges[i].range.location)
    requires result == mid + arguments[ranges[i].index]
    requires resultingRanges == recorded + [ArgumentRange(ranges[i].index, NSRange(|mid|, |arguments[ranges[i].index]|))]
    ensures FinishText(value, ranges, arguments, before, cur, i)
            == FinishText(value, ranges, arguments, result, End(ranges[i]), i')
    ensures FinishRanges(value, ranges, arguments, recorded, |before|, cur, i)
            == FinishRanges(value, ranges, arguments, resultingRanges, |result|, End(ranges[i]), i')
  {
    assert result == before + Gap(value, cur, ranges[i].range.location) + Argument(arguments, ranges[i].index);
    FinishTextStep(value, ranges, arguments, before, cur, i, i');
    FinishRangesStep(value, ranges, arguments, recorded, |before|, cur, i, i', resultingRanges, |result|);
  }

  /** What the loop of `FormatWithArgumentRanges` has built once every range is consumed. */
  lemma FormatDone(value: Text, ranges: seq<ArgumentRange>, arguments: seq<Text>,
                   result: Text, resultingRanges: seq<ArgumentRange>, cur: nat)
    requires cur <= |value|
    requires FinishText(value, ranges, arguments, result, cur, |ranges|) == FinishText(value, ranges, arguments, [], 0, 0)
    requires FinishRanges(value, ranges, arguments, resultingRanges, |result|, cur, |ranges|)
             == FinishRanges(value, ranges, arguments, [], 0, 0, 0)
    ensures result + value[cur..] == Rendered(value, ranges, arguments, 0, 0)
    ensures cur == |value| ==> result == Rendered(value, ranges, arguments, 0, 0)
    ensures resultingRanges == Landed(value, ranges, arguments, 0, 0, 0)
  {
    FinishTextRenders(value, ranges, arguments, [], 0, 0);
    FinishRangesLand(value, ranges, arguments, [], 0, 0, 0);
    assert [] + Rendered(value, ranges, arguments, 0, 0) == Rendered(value, ranges, arguments, 0, 0);
    assert [] + Landed(value, ranges, arguments, 0, 0, 0) == Landed(value, ranges, arguments, 0, 0, 0);
    assert cur == |value| ==> result + value[cur..] == result;
  }

  /**
   * `formatWithArgumentRanges`: copies the gap before each placeholder,
   * appends the argument, records where it landed, and finally copies the
   * text after the last placeholder. What the output then satisfies is
   * `FormatPlacesArguments`, `FormatLength` and `FormatKeepsLiterals`.
   */
  method FormatWithArgumentRanges(value: Text, ranges: seq<ArgumentRange>, arguments: seq<Text>)
    returns (result: Text, resultingRanges: seq<ArgumentRange>)
    requires Within(ranges, |value|) && IndicesValid(ranges, |arguments|)
    ensures result == Rendered(value, ranges, arguments, 0, 0)
    ensures resultingRanges == Landed(value, ranges, arguments, 0, 0, 0)
  {
    result, resultingRanges := [], [];
    var currentLocation: nat := 0;
    var i := 0;
    while i < |ranges|
      invariant 0 <= i <= |ranges|
      invariant currentLocation <= |value|
      invariant FinishText(value, ranges, arguments, result, currentLocation, i) == FinishText(value, ranges, arguments, [], 0, 0)
      invariant FinishRanges(value, ranges, arguments, resultingRanges, |result|, currentLocation, i)
                == FinishRanges(value, ranges, arguments, [], 0, 0, 0)
    {
      var r := ranges[i];
      ghost var before, recorded, cur := result, resultingRanges, currentLocation;
      // the literal text before the placeholder, when there is any
      result := result + Gap(value, currentLocation, r.range.location);
      ghost var mid := result;
      resultingRanges := resultingRanges + [ArgumentRange(r.index, NSRange(|result|, |arguments[r.index]|))];
      result := result + arguments[r.index];
      currentLocation := End(r);
      var next := i + 1;
      FormatStep(value, ranges, arguments, i, next, cur, before, mid, result, recorded, resultingRanges);
      i := next;
    }
    FormatDone(value, ranges, arguments, result, resultingRanges, currentLocation);
    if currentLocation != |value| {
      result := result + value[currentLocation..];
    }
  }

  /**
   * Formatting a template with the ranges extracted from it: every argument
   * lands where its placeholder was, the output length is the template's
   * minus the placeholders plus the arguments, and the literal text survives.
   */
  lemma ExtractThenFormat(template: Text, arguments: seq<Text>)
    requires IndicesValid(ArgumentRanges(template), |arguments|)
    ensures var ranges := ArgumentRanges(template);
            && Within(ranges, |template|) && Placed(ranges, |template|)
            && var result := Rendered(template, ranges, arguments, 0, 0);
               && |result| == |template| - PlaceholderWidth(ranges) + ArgumentWidth(ranges, arguments)
               && Placed(Landed(template, ranges, arguments, 0, 0, 0), |result|)
               && Literals(result, Landed(template, ranges, arguments, 0, 0, 0), 0) == Literals(template, ranges, 0)
  {
    var ranges := ArgumentRanges(template);
    ArgumentRangesPlaced(template);
    FormatPlacesArguments(template, ranges, arguments);
    FormatLength(template, ranges, arguments);
    FormatKeepsLiterals(template, ranges, arguments);
  }
}
