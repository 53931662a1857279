/**
 * Worked examples of extraction and substitution: a template whose
 * positional placeholders reorder the arguments, and one that uses a
 * single argument three times.
 */
module Scenarios {
  import opened Utf16
  import opened Placeholders
  import opened Formatting

  /** `%2$@ and %1$@` */
  const Reordered: Text := [0x25, 0x32, 0x24, 0x40, 0x20, 0x61, 0x6E, 0x64, 0x20, 0x25, 0x31, 0x24, 0x40]

  /** `%1$@-%1$@-%1$@` */
  const Repeated: Text := [0x25, 0x31, 0x24, 0x40, 0x2D, 0x25, 0x31, 0x24, 0x40, 0x2D, 0x25, 0x31, 0x24, 0x40]

  /** A `%N$@` token with a one-digit `N` at `p` is matched whole, with that `N`. */
  lemma OneDigitTokenAt(t: Text, p: nat, digit: CodeUnit)
    requires p + 4 <= |t| && IsAsciiDigit(digit)
    requires t[p] == Percent && t[p + 1] == digit && t[p + 2] == Dollar && t[p + 3] == AtSign
    ensures MatchAt(t, p) == Some(Match(p, 4, Some(digit - DigitZero)))
  {
    assert DigitRun(t, p + 2) == 0;
    assert DigitRun(t, p + 1) == 1;
    assert t[p + 1..p + 2] == [digit];
    assert DecimalValue([digit]) == digit - DigitZero by {
      assert [digit][..0] == [];
    }
  }

  lemma ReorderedTail()
    ensures Scan(Reordered, 4) == [Match(9, 4, Some(1))]
  {
    var t := Reordered;
    OneDigitTokenAt(t, 9, 0x31);
    ScanTake(t, 9);
    assert Scan(t, 13) == [];
    ScanSkip(t, 8, 9);
    ScanSkip(t, 7, 8);
    ScanSkip(t, 6, 7);
    ScanSkip(t, 5, 6);
    ScanSkip(t, 4, 5);
  }

  /** Extraction reads `%2$@` as argument 1 and `%1$@` as argument 0, in template order. */
  lemma ReorderedRanges()
    ensures ArgumentRanges(Reordered) == [ArgumentRange(1, NSRange(0, 4)), ArgumentRange(0, NSRange(9, 4))]
  {
    OneDigitTokenAt(Reordered, 0, 0x32);
    ScanTake(Reordered, 0);
    ReorderedTail();
  }

  /** Substitution of `A`, `B` at the two placeholders of `%2$@ and %1$@`. */
  lemma ReorderedSubstitution(ranges: seq<ArgumentRange>, args: seq<Text>)
    requires ranges == [ArgumentRange(1, NSRange(0, 4)), ArgumentRange(0, NSRange(9, 4))]
    requires args == [[0x41], [0x42]]
    ensures Rendered(Reordered, ranges, args, 0, 0) == [0x42, 0x20, 0x61, 0x6E, 0x64, 0x20, 0x41]
    ensures Landed(Reordered, ranges, args, 0, 0, 0) == [ArgumentRange(1, NSRange(0, 1)), ArgumentRange(0, NSRange(6, 1))]
  {
    assert Reordered[13..13] == [];
    assert Rendered(Reordered, ranges, args, 2, 13) == [];
    assert Reordered[4..9] == [0x20, 0x61, 0x6E, 0x64, 0x20];
    assert Rendered(Reordered, ranges, args, 1, 4) == [0x20, 0x61, 0x6E, 0x64, 0x20, 0x41];
    assert Landed(Reordered, ranges, args, 1, 4, 1) == [ArgumentRange(0, NSRange(6, 1))];
  }

  /**
   * `%2$@ and %1$@` with `A`, `B` gives `B and A`; `B` lands at offset 0 as
   * argument 1, `A` at offset 6 as argument 0.
   */
  lemma ReorderedFormat()
    ensures var args: seq<Text> := [[0x41], [0x42]];
            var ranges := ArgumentRanges(Reordered);
            && Rendered(Reordered, ranges, args, 0, 0) == [0x42, 0x20, 0x61, 0x6E, 0x64, 0x20, 0x41]
            && Landed(Reordered, ranges, args, 0, 0, 0) == [ArgumentRange(1, NSRange(0, 1)), ArgumentRange(0, NSRange(6, 1))]
  {
    ReorderedRanges();
    ReorderedSubstitution(ArgumentRanges(Reordered), [[0x41], [0x42]]);
  }

  lemma RepeatedTail()
    ensures Scan(Repeated, 4) == [Match(5, 4, Some(1)), Match(10, 4, Some(1))]
  {
    var t := Repeated;
    OneDigitTokenAt(t, 10, 0x31);
    ScanTake(t, 10);
    assert Scan(t, 14) == [];
    ScanSkip(t, 9, 10);
    OneDigitTokenAt(t, 5, 0x31);
    ScanTake(t, 5);
    ScanSkip(t, 4, 5);
  }

  /** Each of the three `%1$@` is its own entry, all for argument 0. */
  lemma RepeatedRanges()
    ensures ArgumentRanges(Repeated)
            == [ArgumentRange(0, NSRange(0, 4)), ArgumentRange(0, NSRange(5, 4)), ArgumentRange(0, NSRange(10, 4))]
  {
    OneDigitTokenAt(Repeated, 0, 0x31);
    ScanTake(Repeated, 0);
    RepeatedTail();
  }

  /** Substitution of `x` at the three placeholders of `%1$@-%1$@-%1$@`. */
  lemma RepeatedSubstitution(ranges: seq<ArgumentRange>, args: seq<Text>)
    requires ranges == [ArgumentRange(0, NSRange(0, 4)), ArgumentRange(0, NSRange(5, 4)), ArgumentRange(0, NSRange(10, 4))]
    requires args == [[0x78]]
    ensures Rendered(Repeated, ranges, args, 0, 0) == [0x78, 0x2D, 0x78, 0x2D, 0x78]
    ensures Landed(Repeated, ranges, args, 0, 0, 0)
            == [ArgumentRange(0, NSRange(0, 1)), ArgumentRange(0, NSRange(2, 1)), ArgumentRange(0, NSRange(4, 1))]
  {
    assert Repeated[14..14] == [];
    assert Rendered(Repeated, ranges, args, 3, 14) == [];
    assert Repeated[9..10] == [0x2D];
    assert Rendered(Repeated, ranges, args, 2, 9) == [0x2D, 0x78];
    assert Repeated[4..5] == [0x2D];
    assert Rendered(Repeated, ranges, args, 1, 4) == [0x2D, 0x78, 0x2D, 0x78];
    assert Landed(Repeated, ranges, args, 2, 9, 3) == [ArgumentRange(0, NSRange(4, 1))];
    assert Landed(Repeated, ranges, args, 1, 4, 1) == [ArgumentRange(0, NSRange(2, 1)), ArgumentRange(0, NSRange(4, 1))];
  }

  /** `%1$@-%1$@-%1$@` with `x` gives `x-x-x`, with one range per occurrence at offsets 0, 2 and 4. */
  lemma RepeatedFormat()
    ensures var args: seq<Text> := [[0x78]];
            var ranges := ArgumentRanges(Repeated);
            && Rendered(Repeated, ranges, args, 0, 0) == [0x78, 0x2D, 0x78, 0x2D, 0x78]
            && Landed(Repeated, ranges, args, 0, 0, 0)
               == [ArgumentRange(0, NSRange(0, 1)), ArgumentRange(0, NSRange(2, 1)), ArgumentRange(0, NSRange(4, 1))]
  {
    RepeatedRanges();
    RepeatedSubstitution(ArgumentRanges(Repeated), [[0x78]]);
  }
}
