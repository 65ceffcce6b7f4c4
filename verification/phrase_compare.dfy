/** The comparisons the rules apply once phrases are pitch sequences:
    matching over the common prefix, equality up to a tolerance, and
    transposition by a number of semitones.
 */
module PhraseCompare {

  function Min(a: nat, b: nat): nat {
    if a <= b then a else b
  }

  /** The number of positions of the common prefix of `s` and `x` at which
      they agree; positions past the shorter sequence are never scored. */
  function MatchCount<T(==)>(s: seq<T>, x: seq<T>): (n: nat)
    ensures n <= |s| && n <= |x|
    decreases |s|
  {
    var m := Min(|s|, |x|);
    if m == 0 then 0
    else MatchCount(s[..m - 1], x[..m - 1]) + (if s[m - 1] == x[m - 1] then 1 else 0)
  }

  /** The counting loop of `IsEqualToExceptFor`: one pass over the common
      prefix, adding one for every position where the two agree. */
  method CountMatches<T(==)>(s: seq<T>, x: seq<T>) returns (counter: nat)
    ensures counter == MatchCount(s, x)
  {
    var m := Min(|s|, |x|);
    counter := 0;
    for i := 0 to m
      invariant counter == MatchCount(s[..i], x[..i])
    {
      assert s[..i + 1][..i] == s[..i] && x[..i + 1][..i] == x[..i];
      if s[i] == x[i] {
        counter := counter + 1;
      }
    }
    MatchCountCommonPrefix(s, x);
  }

  /** Only the common prefix matters to the count. */
  lemma {:induction false} MatchCountCommonPrefix<T>(s: seq<T>, x: seq<T>)
    ensures MatchCount(s, x) == MatchCount(s[..Min(|s|, |x|)], x[..Min(|s|, |x|)])
  {
    var m := Min(|s|, |x|);
    if m > 0 {
      assert s[..m][..m - 1] == s[..m - 1] && x[..m][..m - 1] == x[..m - 1];
    }
  }

  /** Notes appended to a subject at least as long as the reference are
      never scored. */
  lemma {:induction false} MatchCountIgnoresTail<T>(s: seq<T>, tail: seq<T>, x: seq<T>)
    requires |s| >= |x|
    ensures MatchCount(s + tail, x) == MatchCount(s, x)
  {
    MatchCountCommonPrefix(s + tail, x);
    MatchCountCommonPrefix(s, x);
    assert (s + tail)[..|x|] == s[..|x|];
  }

  /** Over equal lengths, every position matches exactly when the two
      sequences are equal. */
  lemma {:induction false} MatchCountFullIffEqual<T>(s: seq<T>, x: seq<T>)
    requires |s| == |x|
    ensures MatchCount(s, x) == |x| <==> s == x
  {
    if |s| > 0 {
      var m := |s|;
      MatchCountFullIffEqual(s[..m - 1], x[..m - 1]);
      assert s == s[..m - 1] + [s[m - 1]] && x == x[..m - 1] + [x[m - 1]];
    }
  }

  /** Two pairs of sequences whose positions agree in the same places have
      the same count. */
  lemma {:induction false} MatchCountCongruent<T, U>(s: seq<T>, x: seq<T>, s': seq<U>, x': seq<U>)
    requires |s| == |s'| && |x| == |x'|
    requires forall i :: 0 <= i < |s| && i < |x| ==> (s[i] == x[i] <==> s'[i] == x'[i])
    ensures MatchCount(s, x) == MatchCount(s', x')
  {
    var m := Min(|s|, |x|);
    if m > 0 {
      MatchCountCongruent(s[..m - 1], x[..m - 1], s'[..m - 1], x'[..m - 1]);
    }
  }

  /** `IsEqualToExceptFor` on pitch sequences: at least `|x| - k` positions
      of the common prefix agree. The bound is not clamped, so it may be
      negative or exceed what the common prefix can supply. */
  predicate EqualExceptFor<T(==)>(s: seq<T>, x: seq<T>, k: nat) {
    MatchCount(s, x) >= |x| - k
  }

  /** A tolerance covering the whole reference accepts every subject. */
  lemma EqualExceptForWholeTolerance<T>(s: seq<T>, x: seq<T>, k: nat)
    requires k >= |x|
    ensures EqualExceptFor(s, x, k)
  {
  }

  /** A subject shorter than `|x| - k` is never accepted. */
  lemma EqualExceptForShortSubject<T>(s: seq<T>, x: seq<T>, k: nat)
    requires |s| < |x| - k
    ensures !EqualExceptFor(s, x, k)
  {
  }

  /** Raising the tolerance never turns acceptance into rejection. */
  lemma EqualExceptForMonotone<T>(s: seq<T>, x: seq<T>, k: nat, k': nat)
    requires k <= k' && EqualExceptFor(s, x, k)
    ensures EqualExceptFor(s, x, k')
  {
  }

  /** With no tolerance and equal lengths, the rule is plain equality. */
  lemma {:induction false} EqualExceptForZeroIsEquality<T>(s: seq<T>, x: seq<T>)
    requires |s| == |x|
    ensures EqualExceptFor(s, x, 0) <==> s == x
  {
    MatchCountFullIffEqual(s, x);
  }

  /** Every pitch raised by `y` semitones. */
  function Shift(p: seq<int>, y: int): (r: seq<int>)
    ensures |r| == |p|
  {
    seq(|p|, i requires 0 <= i < |p| => p[i] + y)
  }

  /** `s` is `x` transposed up by `y` semitones: same length, and every
      subject pitch minus `y` is the reference pitch. */
  predicate IsTransposition(s: seq<int>, x: seq<int>, y: int) {
    |s| == |x| && forall i :: 0 <= i < |s| ==> s[i] - y == x[i]
  }

  /** A transposition by `y` is the reference shifted by `y`. */
  lemma TranspositionIsShift(s: seq<int>, x: seq<int>, y: int)
    ensures IsTransposition(s, x, y) <==> s == Shift(x, y)
  {
    if s == Shift(x, y) {
      assert forall i :: 0 <= i < |s| ==> s[i] == x[i] + y;
    }
  }

  /** Transposing by zero semitones is equality. */
  lemma TranspositionByZero(s: seq<int>, x: seq<int>)
    ensures IsTransposition(s, x, 0) <==> s == x
  {
  }

  /** Transposition is invertible: `s` is `x` up `y` exactly when `x` is
      `s` down `y`. */
  lemma TranspositionInverse(s: seq<int>, x: seq<int>, y: int)
    ensures IsTransposition(s, x, y) <==> IsTransposition(x, s, -y)
  {
  }

  /** `IsTranspositionOfExceptFor` as evidently intended: at least `|x| - k`
      positions of the common prefix are transposed by `y`. */
  predicate TranspositionExceptFor(s: seq<int>, x: seq<int>, y: int, k: nat) {
    EqualExceptFor(Shift(s, -y), x, k)
  }

  /** With no tolerance and equal lengths, the intended rule is exactly a
      transposition. */
  lemma {:induction false} TranspositionExceptForZero(s: seq<int>, x: seq<int>, y: int)
    requires |s| == |x|
    ensures TranspositionExceptFor(s, x, y, 0) <==> IsTransposition(s, x, y)
  {
    EqualExceptForZeroIsEquality(Shift(s, -y), x);
    if Shift(s, -y) == x {
      assert forall i :: 0 <= i < |s| ==> s[i] - y == Shift(s, -y)[i];
    }
  }

  /** Transposing by zero, the intended rule is `EqualExceptFor`. */
  lemma {:induction false} TranspositionExceptForByZero(s: seq<int>, x: seq<int>, k: nat)
    ensures TranspositionExceptFor(s, x, 0, k) <==> EqualExceptFor(s, x, k)
  {
    assert Shift(s, -0) == s;
  }
}
