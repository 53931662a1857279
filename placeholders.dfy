/**
 * Placeholder extraction. A template holds tokens `%@`, `%d`, `%f` and their
 * positional forms `%N$@`, `%N$d`, `%N$f`, found by the regular expression
 * `%(((\d+)\$)?)([@df])` with leftmost, non-overlapping matching. Each token
 * becomes an argument range: the argument it stands for and where it sits.
 */
module Placeholders {
  import opened Utf16

  /** Swift's `NSRange`, in UTF-16 code units. */
  datatype NSRange = NSRange(location: nat, length: nat)

  /** An entry `(Int, NSRange)`: argument index and range. */
  datatype ArgumentRange = ArgumentRange(index: int, range: NSRange)

  function End(r: ArgumentRange): nat {
    r.range.location + r.range.length
  }

  predicate IsSpecifier(c: CodeUnit) {
    c == AtSign || c == LowerD || c == LowerF
  }

  /**
   * The token syntax itself, independent of how it is searched for:
   * `%` then either nothing or one or more ASCII digits and `$`, then a specifier.
   */
  predicate IsToken(s: Text) {
    && |s| >= 2
    && s[0] == Percent
    && IsSpecifier(s[|s| - 1])
    && (|s| == 2 || (|s| >= 4 && s[|s| - 2] == Dollar && forall i | 1 <= i < |s| - 2 :: IsAsciiDigit(s[i])))
  }

  /** Whether a token of length `len` starts at offset `p` of `t`. */
  predicate IsTokenAt(t: Text, p: nat, len: nat) {
    p + len <= |t| && IsToken(t[p..p + len])
  }

  /** The `N` of a `%N$` token, or nothing for a plain one. */
  function TokenPosition(s: Text): Option<nat>
    requires IsToken(s)
  {
    if |s| == 2 then None
    else
      var digits := s[1..|s| - 2];
      assert forall i | 0 <= i < |digits| :: digits[i] == s[i + 1];
      Some(DecimalValue(digits))
  }

  /**
   * The argument a placeholder stands for when it is the `ordinal`-th match:
   * `N - 1` when it carries `N$`, otherwise the ordinal.
   */
  function ArgumentIndex(position: Option<nat>, ordinal: nat): int {
    match position
    case Some(n) => n - 1
    case None => ordinal
  }

  /** One match: where it starts, how long it is, and the `N` of `N$` when there is one. */
  datatype Match = Match(location: nat, length: nat, position: Option<nat>)

  /** The offset just past a match, where the search resumes. */
  function MatchEnd(m: Match): nat {
    m.location + m.length
  }

  /** The number of ASCII digits in the run starting at `p`. */
  function DigitRun(t: Text, p: nat): (n: nat)
    requires p <= |t|
    ensures p + n <= |t|
    ensures forall i | p <= i < p + n :: IsAsciiDigit(t[i])
    ensures p + n == |t| || !IsAsciiDigit(t[p + n])
    decreases |t| - p
  {
    if p < |t| && IsAsciiDigit(t[p]) then 1 + DigitRun(t, p + 1) else 0
  }

  /**
   * The match of the pattern that starts exactly at `p`, if any. After `%`,
   * the greedy `\d+` takes the whole digit run; it must be followed by `$`
   * and a specifier, or else the optional group is dropped and a specifier
   * must follow `%` directly.
   */
  function MatchAt(t: Text, p: nat): (m: Option<Match>)
    requires p <= |t|
    ensures m.Some? ==> m.value.location == p && 2 <= m.value.length && p + m.value.length <= |t|
  {
    if p < |t| && t[p] == Percent then
      var n := DigitRun(t, p + 1);
      if n > 0 && p + n + 2 < |t| && t[p + n + 1] == Dollar && IsSpecifier(t[p + n + 2]) then
        Some(Match(p, n + 3, Some(DecimalValue(t[p + 1..p + 1 + n]))))
      else if p + 1 < |t| && IsSpecifier(t[p + 1]) then
        Some(Match(p, 2, None))
      else
        None
    else
      None
  }

  /** What the matcher finds is a token, and the `N` it reports is the token's. */
  lemma MatchAtIsToken(t: Text, p: nat)
    requires p <= |t| && MatchAt(t, p).Some?
    ensures var m := MatchAt(t, p).value;
            IsTokenAt(t, p, m.length) && m.position == TokenPosition(t[p..p + m.length])
  {
    var m := MatchAt(t, p).value;
    var s := t[p..p + m.length];
    if m.length > 2 {
      var n := m.length - 3;
      assert n == DigitRun(t, p + 1);
      var digits, run := s[1..n + 1], t[p + 1..p + 1 + n];
      forall k | 0 <= k < n ensures digits[k] == run[k] {
        assert s[k + 1] == t[p + 1 + k];
      }
      assert digits == run;
    }
  }

  /** The matcher finds every token that starts at `p`, with its full length. */
  lemma MatchAtFindsToken(t: Text, p: nat, len: nat)
    requires IsTokenAt(t, p, len)
    ensures MatchAt(t, p) == Some(Match(p, len, TokenPosition(t[p..p + len])))
  {
    if len == 2 {
      MatchAtFindsPlain(t, p);
    } else {
      MatchAtFindsPositional(t, p, len);
    }
  }

  /** A plain token `%@`, `%d` or `%f`: no digits follow the `%`. */
  lemma MatchAtFindsPlain(t: Text, p: nat)
    requires IsTokenAt(t, p, 2)
    ensures MatchAt(t, p) == Some(Match(p, 2, None))
  {
    var s := t[p..p + 2];
    assert t[p] == s[0] && t[p + 1] == s[1];
    assert DigitRun(t, p + 1) == 0;
  }

  /** A positional token `%N$x`: the digit run stops at the `$`. */
  lemma MatchAtFindsPositional(t: Text, p: nat, len: nat)
    requires len > 2 && IsTokenAt(t, p, len)
    ensures MatchAt(t, p) == Some(Match(p, len, TokenPosition(t[p..p + len])))
  {
    var s := t[p..p + len];
    assert t[p] == s[0];
    forall i | p + 1 <= i < p + len - 2 ensures IsAsciiDigit(t[i]) {
      assert t[i] == s[i - p];
    }
    assert t[p + len - 2] == s[len - 2];
    assert t[p + len - 1] == s[len - 1];
    DigitRunStops(t, p + 1, len - 3);
    var n := DigitRun(t, p + 1);
    assert n == len - 3;
    var digits, run := s[1..len - 2], t[p + 1..p + 1 + n];
    forall k | 0 <= k < n ensures digits[k] == run[k] {
      assert s[k + 1] == t[p + 1 + k];
    }
    assert digits == run;
  }

  /** A digit run followed by a non-digit has exactly that length. */
  lemma {:induction false} DigitRunStops(t: Text, q: nat, k: nat)
    requires q + k < |t|
    requires forall i | q <= i < q + k :: IsAsciiDigit(t[i])
    requires !IsAsciiDigit(t[q + k])
    ensures DigitRun(t, q) == k
    decreases k
  {
    if k > 0 {
      DigitRunStops(t, q + 1, k - 1);
    }
  }

  /**
   * All matches in `t[p..]`, leftmost first and non-overlapping: the search
   * resumes after each match, or one unit further on when nothing starts here.
   */
  function Scan(t: Text, p: nat): (ms: seq<Match>)
    requires p <= |t|
    ensures forall k | 0 <= k < |ms| ::
              p <= ms[k].location <= |t| && MatchAt(t, ms[k].location) == Some(ms[k])
    ensures forall i, j | 0 <= i < j < |ms| :: MatchEnd(ms[i]) <= ms[j].location
    decreases |t| - p
  {
    if p == |t| then []
    else match MatchAt(t, p)
      case Some(m) => [m] + Scan(t, MatchEnd(m))
      case None => Scan(t, p + 1)
  }

  /** `Scan` where nothing matches at `p`: the search moves on to `p'`, one unit further. */
  lemma ScanSkip(t: Text, p: nat, p': nat)
    requires p < |t| && MatchAt(t, p).None? && p' == p + 1
    ensures Scan(t, p) == Scan(t, p')
  {
  }

  /** `Scan` where a match starts at `p`: it comes first, and the search resumes just after it. */
  lemma ScanTake(t: Text, p: nat)
    requires p < |t| && MatchAt(t, p).Some?
    ensures Scan(t, p) == [MatchAt(t, p).value] + Scan(t, MatchEnd(MatchAt(t, p).value))
  {
  }

  /** Whether offset `q` lies inside one of the matches. */
  predicate Covered(ms: seq<Match>, q: nat) {
    exists k | 0 <= k < |ms| :: ms[k].location <= q < MatchEnd(ms[k])
  }

  /** Leftmost matching misses nothing: every offset where a token starts lies inside a match. */
  lemma {:induction false} ScanMissesNothing(t: Text, p: nat, q: nat)
    requires p <= q < |t|
    requires MatchAt(t, q).Some?
    ensures Covered(Scan(t, p), q)
    decreases |t| - p
  {
    if MatchAt(t, p).None? {
      var p' := p + 1;
      ScanSkip(t, p, p');
      ScanMissesNothing(t, p', q);
    } else {
      var m := MatchAt(t, p).value;
      var p' := MatchEnd(m);
      ScanTake(t, p);
      if q < p' {
        assert Scan(t, p)[0] == m;
      } else {
        ScanMissesNothing(t, p', q);
        CoveredCons(m, Scan(t, p'), q);
      }
    }
  }

  /** A match put in front keeps every covered offset covered. */
  lemma CoveredCons(m: Match, rest: seq<Match>, q: nat)
    requires Covered(rest, q)
    ensures Covered([m] + rest, q)
  {
    var k :| 0 <= k < |rest| && rest[k].location <= q < MatchEnd(rest[k]);
    assert ([m] + rest)[k + 1] == rest[k];
  }

  /** The entry recorded for the `ordinal`-th match. */
  function Entry(m: Match, ordinal: nat): ArgumentRange {
    ArgumentRange(ArgumentIndex(m.position, ordinal), NSRange(m.location, m.length))
  }

  /** The entries the extractor returns for a template: one per match, in match order. */
  function ArgumentRanges(t: Text): seq<ArgumentRange> {
    var ms := Scan(t, 0);
    seq(|ms|, k requires 0 <= k < |ms| => Entry(ms[k], k))
  }

  /** Every range lies inside a text of length `n`. */
  predicate Within(rs: seq<ArgumentRange>, n: nat) {
    forall k | 0 <= k < |rs| :: End(rs[k]) <= n
  }

  /** Each range ends no later than any later one starts. */
  predicate Apart(rs: seq<ArgumentRange>) {
    forall i, j | 0 <= i < j < |rs| :: End(rs[i]) <= rs[j].range.location
  }

  /** Ranges lie inside a text of length `n`, in order and without overlapping. */
  predicate Placed(rs: seq<ArgumentRange>, n: nat) {
    Within(rs, n) && Apart(rs)
  }

  /** Strictly ascending by location, the order `sort` is asked for. */
  predicate StrictlyAscending(rs: seq<ArgumentRange>) {
    forall i, j | 0 <= i < j < |rs| :: rs[i].range.location < rs[j].range.location
  }

  /** Ascending by location, the only thing a sort by location guarantees. */
  predicate Ascending(rs: seq<ArgumentRange>) {
    forall i, j | 0 <= i < j < |rs| :: rs[i].range.location <= rs[j].range.location
  }

  /** The extracted ranges are in bounds, disjoint and strictly ascending. */
  lemma ArgumentRangesPlaced(t: Text)
    ensures Placed(ArgumentRanges(t), |t|) && StrictlyAscending(ArgumentRanges(t))
  {
    var ms := Scan(t, 0);
    var rs := ArgumentRanges(t);
    forall k | 0 <= k < |rs| ensures End(rs[k]) <= |t| && rs[k].range.length >= 2 {
      assert MatchAt(t, ms[k].location) == Some(ms[k]);
    }
  }

  /**
   * The `k`-th extracted entry covers a token of the template, and its index
   * is `N - 1` for `%N$` and otherwise `k`, the entry's ordinal among all
   * matches, positional ones included.
   */
  lemma ArgumentRangeIsToken(t: Text, k: nat)
    requires k < |ArgumentRanges(t)|
    ensures var r := ArgumentRanges(t)[k];
            && IsTokenAt(t, r.range.location, r.range.length)
            && r.index == ArgumentIndex(TokenPosition(t[r.range.location..End(r)]), k)
  {
    var m := Scan(t, 0)[k];
    assert MatchAt(t, m.location) == Some(m);
    MatchAtIsToken(t, m.location);
  }

  /** Every token in the template lies inside one of the extracted ranges. */
  lemma ArgumentRangesComplete(t: Text, q: nat, len: nat)
    requires IsTokenAt(t, q, len)
    ensures exists k | 0 <= k < |ArgumentRanges(t)| ::
              ArgumentRanges(t)[k].range.location <= q < End(ArgumentRanges(t)[k])
  {
    var ms := Scan(t, 0);
    var rs := ArgumentRanges(t);
    MatchAtFindsToken(t, q, len);
    ScanMissesNothing(t, 0, q);
    var k :| 0 <= k < |ms| && ms[k].location <= q < MatchEnd(ms[k]);
    assert rs[k].range.location <= q < End(rs[k]);
  }

  /**
   * A sort by location cannot reorder a strictly ascending list: its only
   * ascending permutation is itself. So the final `sort` returns the matches
   * in the order the regular expression produced them.
   */
  lemma {:induction false} SortedPermutationIsIdentity(a: seq<ArgumentRange>, b: seq<ArgumentRange>)
    requires StrictlyAscending(a) && Ascending(b)
    requires multiset(a) == multiset(b)
    ensures a == b
    decreases |a|
  {
    assert |a| == |multiset(a)| == |multiset(b)| == |b|;
    if |a| > 0 {
      HeadsAgree(a, b);
      TailsPermute(a, b);
      var a', b' := a[1..], b[1..];
      SortedPermutationIsIdentity(a', b');
      assert a == [a[0]] + a' && b == [b[0]] + b';
    }
  }

  /** Both lists start with the element of least location: `a`'s first. */
  lemma HeadsAgree(a: seq<ArgumentRange>, b: seq<ArgumentRange>)
    requires StrictlyAscending(a) && Ascending(b) && multiset(a) == multiset(b)
    requires 0 < |a| == |b|
    ensures a[0] == b[0]
  {
    assert a[0] in multiset(b);
    var j :| 0 <= j < |b| && b[j] == a[0];
    assert b[0].range.location <= a[0].range.location;
    assert b[0] in multiset(a);
    var i :| 0 <= i < |a| && a[i] == b[0];
    assert i == 0;
  }

  /** Equal heads leave permuted tails. */
  lemma TailsPermute(a: seq<ArgumentRange>, b: seq<ArgumentRange>)
    requires 0 < |a| && 0 < |b| && a[0] == b[0] && multiset(a) == multiset(b)
    ensures multiset(a[1..]) == multiset(b[1..])
  {
    assert a == [a[0]] + a[1..];
    assert b == [b[0]] + b[1..];
    assert multiset(a) == multiset{a[0]} + multiset(a[1..]);
    assert multiset(b) == multiset{b[0]} + multiset(b[1..]);
    assert multiset(a[1..]) == multiset(a) - multiset{a[0]};
    assert multiset(b[1..]) == multiset(b) - multiset{b[0]};
  }

  /**
   * `extractArgumentRanges`: walks the matches with an ordinal counter and
   * appends `(index, range)` for each. The final sort by location is left
   * out because it leaves the list as it is (`SortedPermutationIsIdentity`).
   */
  method ExtractArgumentRanges(value: Text) returns (result: seq<ArgumentRange>)
    ensures result == ArgumentRanges(value)
  {
    var matches := Scan(value, 0);
    result := [];
    var index := 0;
    while index < |matches|
      invariant 0 <= index <= |matches|
      invariant |result| == index
      invariant forall k | 0 <= k < index :: result[k] == Entry(matches[k], k)
    {
      var match_ := matches[index];
      var currentIndex := index;
      if match_.position.Some? {
        currentIndex := match_.position.value - 1;
      }
      result := result + [ArgumentRange(currentIndex, NSRange(match_.location, match_.length))];
      index := index + 1;
    }
  }
}
