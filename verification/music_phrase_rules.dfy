/** The five music-phrase rules: each grades a submitted `subject` phrase
    against the reference phrase `x`, with a tolerance `k` (a non-negative
    number of notes) and a transposition `y` (a number of semitones) where
    the rule takes them. A rule yields `Ok(verdict)` or the `Fault` its
    evaluation raises; conversions happen in the order each rule performs
    them, so when both phrases are faulty the first one converted decides
    the fault.
 */
module MusicPhraseRules {
  import opened Outcomes
  import opened NoteTable
  import opened MidiConversion
  import opened PhraseCompare

  /** `Equals`: both phrases convert to the same pitch sequence. */
  function Equals(subject: Phrase, x: Phrase): (r: Result<bool>)
    ensures ConvertSequence(subject).Err? ==> r == Err(ConvertSequence(subject).error)
    ensures ConvertSequence(subject).Ok? && ConvertSequence(x).Err? ==> r == Err(ConvertSequence(x).error)
    ensures r.Ok? <==> ConvertSequence(subject).Ok? && ConvertSequence(x).Ok?
    ensures r.Ok? ==>
              (r.value <==> |subject| == |x|
                            && forall i :: 0 <= i < |x| ==> MidiValue(subject[i]) == MidiValue(x[i]))
  {
    var s :- ConvertSequence(subject);
    var t :- ConvertSequence(x);
    assert s == t <==> |s| == |t| && forall i :: 0 <= i < |s| ==> s[i] == t[i];
    Ok(s == t)
  }

  /** Every phrase that converts equals itself. */
  lemma EqualsReflexive(p: Phrase)
    requires ConvertSequence(p).Ok?
    ensures Equals(p, p) == Ok(true)
  {
  }

  /** Phrases of different lengths are never equal. */
  lemma EqualsNeedsSameLength(subject: Phrase, x: Phrase)
    requires |subject| != |x|
    ensures Equals(subject, x) != Ok(true)
  {
  }

  /** Over recognised phrases, `Equals` holds exactly when the two phrases
      name the same notes in the same order. */
  lemma {:induction false} EqualsIffSameNames(subject: Phrase, x: Phrase)
    requires Recognised(subject) && Recognised(x)
    ensures Equals(subject, x) == Ok(Names(subject) == Names(x))
  {
    if |subject| == |x| {
      forall i | 0 <= i < |x|
        ensures MidiValue(subject[i]) == MidiValue(x[i]) <==> Names(subject)[i] == Names(x)[i]
      {
        SamePitchIffSameName(subject[i], x[i]);
      }
    }
  }

  /** Phrases of the same length made only of names the table does not
      know are judged equal whatever the names, because every one of them
      looks up to `None`. */
  lemma UnknownNotesCompareEqual(subject: Phrase, x: Phrase)
    requires |subject| == |x|
    requires forall i :: 0 <= i < |subject| ==> HasName(subject[i]) && !IsRecognised(subject[i])
    requires forall i :: 0 <= i < |x| ==> HasName(x[i]) && !IsRecognised(x[i])
    ensures Equals(subject, x) == Ok(true)
  {
  }

  /** `IsLongerSequence`: the subject has more notes than the reference;
      pitches play no part once both phrases convert. */
  function IsLongerSequence(subject: Phrase, x: Phrase): (r: Result<bool>)
    ensures ConvertSequence(subject).Err? ==> r == Err(ConvertSequence(subject).error)
    ensures ConvertSequence(subject).Ok? && ConvertSequence(x).Err? ==> r == Err(ConvertSequence(x).error)
    ensures r.Ok? <==> ConvertSequence(subject).Ok? && ConvertSequence(x).Ok?
    ensures r.Ok? ==> (r.value <==> |subject| > |x|)
  {
    var s :- ConvertSequence(subject);
    var t :- ConvertSequence(x);
    Ok(|s| > |t|)
  }

  /** No phrase is longer than itself. */
  lemma IsLongerSequenceIrreflexive(p: Phrase)
    ensures IsLongerSequence(p, p) != Ok(true)
  {
  }

  /** `IsEqualToExceptFor`: at least `|x| - k` positions of the common
      prefix carry the same lookup result. The reference is converted
      first. */
  function IsEqualToExceptFor(subject: Phrase, x: Phrase, k: nat): (r: Result<bool>)
    ensures ConvertSequence(x).Err? ==> r == Err(ConvertSequence(x).error)
    ensures ConvertSequence(x).Ok? && ConvertSequence(subject).Err? ==> r == Err(ConvertSequence(subject).error)
    ensures r.Ok? <==> ConvertSequence(subject).Ok? && ConvertSequence(x).Ok?
    ensures r.Ok? && k >= |x| ==> r.value
    ensures r.Ok? && |subject| < |x| - k ==> !r.value
  {
    var t :- ConvertSequence(x);
    var s :- ConvertSequence(subject);
    Ok(EqualExceptFor(s, t, k))
  }

  /** Over recognised phrases, `IsEqualToExceptFor` counts the positions
      of the common prefix that name the same note. */
  lemma {:induction false} IsEqualToExceptForByNames(subject: Phrase, x: Phrase, k: nat)
    requires Recognised(subject) && Recognised(x)
    ensures IsEqualToExceptFor(subject, x, k) == Ok(EqualExceptFor(Names(subject), Names(x), k))
  {
    ConvertRecognised(subject);
    ConvertRecognised(x);
    var s, t := Known(Pitches(subject)), Known(Pitches(x));
    forall i | 0 <= i < |s| && i < |t|
      ensures s[i] == t[i] <==> Names(subject)[i] == Names(x)[i]
    {
      SamePitchIffSameName(subject[i], x[i]);
    }
    MatchCountCongruent(s, t, Names(subject), Names(x));
  }

  /** With no tolerance and equal lengths, `IsEqualToExceptFor` agrees with
      `Equals`: both fail on a faulty phrase (possibly with different
      faults, as they convert in different orders) and otherwise give the
      same verdict. */
  lemma {:induction false} IsEqualToExceptForZeroIsEquals(subject: Phrase, x: Phrase)
    requires |subject| == |x|
    ensures IsEqualToExceptFor(subject, x, 0).Ok? <==> Equals(subject, x).Ok?
    ensures Equals(subject, x).Ok? ==> IsEqualToExceptFor(subject, x, 0) == Equals(subject, x)
  {
    if Equals(subject, x).Ok? {
      EqualExceptForZeroIsEquality(ConvertSequence(subject).value, ConvertSequence(x).value);
    }
  }

  /** The transposition test of `IsTranspositionOf` from position `from` on:
      it stops with `false` at the first position where the subject pitch
      less `y` is not the reference pitch, and faults where the subject
      pitch is `None`. */
  function ScanTransposition(s: seq<Option<int>>, t: seq<Option<int>>, y: int, from: nat): (r: Result<bool>)
    requires |s| == |t| && from <= |s|
    ensures r == Ok(true) <==>
              forall j :: from <= j < |s| ==> s[j].Some? && t[j] == Some(s[j].value - y)
    ensures (forall j :: from <= j < |s| ==> s[j].Some?) ==> r.Ok?
    ensures r.Err? ==>
              && r.error.NoneOperand?
              && from <= r.error.position < |s|
              && s[r.error.position].None?
              && forall j :: from <= j < r.error.position ==> s[j].Some? && t[j] == Some(s[j].value - y)
    decreases |s| - from
  {
    if from == |s| then Ok(true)
    else if s[from].None? then Err(NoneOperand(from))
    else if t[from] != Some(s[from].value - y) then Ok(false)
    else ScanTransposition(s, t, y, from + 1)
  }

  /** `IsTranspositionOf`: raw lengths are compared before anything is
      converted, then the reference and the subject are converted and
      scanned. */
  function IsTranspositionOf(subject: Phrase, x: Phrase, y: int): (r: Result<bool>)
    ensures |subject| != |x| ==> r == Ok(false)
    ensures |subject| == |x| && ConvertSequence(x).Err? ==> r == Err(ConvertSequence(x).error)
    ensures |subject| == |x| && ConvertSequence(x).Ok? && ConvertSequence(subject).Err? ==>
              r == Err(ConvertSequence(subject).error)
    ensures r == Ok(true) ==> Recognised(subject)
  {
    if |subject| != |x| then Ok(false)
    else
      var t :- ConvertSequence(x);
      var s :- ConvertSequence(subject);
      ScanTransposition(s, t, y, 0)
  }

  /** Over recognised phrases, `IsTranspositionOf` decides exactly whether
      the subject's pitches are the reference's transposed by `y`. */
  lemma {:induction false} IsTranspositionOfRecognised(subject: Phrase, x: Phrase, y: int)
    requires Recognised(subject) && Recognised(x)
    ensures IsTranspositionOf(subject, x, y) == Ok(IsTransposition(Pitches(subject), Pitches(x), y))
  {
    if |subject| == |x| {
      var sp, tp := Pitches(subject), Pitches(x);
      assert IsTranspositionOf(subject, x, y) == ScanTransposition(Known(sp), Known(tp), y, 0) by {
        ConvertRecognised(subject);
        ConvertRecognised(x);
      }
      ScanKnown(sp, tp, y);
    }
  }

  /** On known pitches the scan never faults and decides transposition. */
  lemma {:induction false} ScanKnown(sp: seq<int>, tp: seq<int>, y: int)
    requires |sp| == |tp|
    ensures ScanTransposition(Known(sp), Known(tp), y, 0) == Ok(IsTransposition(sp, tp, y))
  {
    var r := ScanTransposition(Known(sp), Known(tp), y, 0);
    assert forall j :: 0 <= j < |sp| ==> Known(sp)[j].Some?;
    assert r.Ok?;
    assert r.value <==> IsTransposition(sp, tp, y) by {
      assert forall j :: 0 <= j < |sp| ==>
        (Known(tp)[j] == Some(Known(sp)[j].value - y) <==> sp[j] - y == tp[j]);
    }
  }

  /** Over recognised phrases, transposing by zero is `Equals`. */
  lemma {:induction false} IsTranspositionOfByZeroIsEquals(subject: Phrase, x: Phrase)
    requires Recognised(subject) && Recognised(x)
    ensures IsTranspositionOf(subject, x, 0) == Equals(subject, x)
  {
    IsTranspositionOfRecognised(subject, x, 0);
    TranspositionByZero(Pitches(subject), Pitches(x));
    ConvertRecognised(subject);
    ConvertRecognised(x);
    assert Pitches(subject) == Pitches(x) <==> Known(Pitches(subject)) == Known(Pitches(x)) by {
      if Known(Pitches(subject)) == Known(Pitches(x)) {
        assert forall i :: 0 <= i < |subject| ==> Known(Pitches(subject))[i] == Some(Pitches(subject)[i]);
      }
    }
  }

  /** Over recognised phrases, `subject` is `x` up `y` exactly when `x` is
      `subject` down `y`. */
  lemma {:induction false} IsTranspositionOfInverse(subject: Phrase, x: Phrase, y: int)
    requires Recognised(subject) && Recognised(x)
    ensures IsTranspositionOf(subject, x, y).Ok? && IsTranspositionOf(x, subject, -y).Ok?
    ensures IsTranspositionOf(subject, x, y).value == IsTranspositionOf(x, subject, -y).value
  {
    IsTranspositionOfRecognised(subject, x, y);
    IsTranspositionOfRecognised(x, subject, -y);
    TranspositionInverse(Pitches(subject), Pitches(x), y);
  }

  /** The scoring loop of `IsTranspositionOfExceptFor` run over positions
      `0..n-1`: the number of positions where the subject pitch less `y` is
      the reference pitch, or the fault of the first position that has no
      subject pitch (`IndexOutOfRange`) or a `None` one (`NoneOperand`). */
  function ScoreTransposed(s: seq<Option<int>>, t: seq<Option<int>>, y: int, n: nat): (r: Result<nat>)
    requires n <= |t|
    ensures r.Ok? <==> n <= |s| && forall j :: 0 <= j < n ==> s[j].Some?
    ensures r.Ok? ==> r.value <= n
    ensures r.Err? && r.error.IndexOutOfRange? ==>
              r.error.position == |s| < n && forall j :: 0 <= j < |s| ==> s[j].Some?
    ensures r.Err? && r.error.NoneOperand? ==>
              r.error.position < n && r.error.position < |s| && s[r.error.position].None?
              && forall j :: 0 <= j < r.error.position ==> s[j].Some?
    ensures r.Err? ==> r.error.IndexOutOfRange? || r.error.NoneOperand?
  {
    if n == 0 then Ok(0)
    else
      var before :- ScoreTransposed(s, t, y, n - 1);
      var i := n - 1;
      if i >= |s| then Err(IndexOutOfRange(i))
      else if s[i].None? then Err(NoneOperand(i))
      else Ok(before + (if t[i] == Some(s[i].value - y) then 1 else 0))
  }

  /** On known pitches, scoring the first `n` positions counts the matches
      of the subject shifted down by `y` against the reference. */
  lemma {:induction false} ScoreTransposedKnown(sp: seq<int>, tp: seq<int>, y: int, n: nat)
    requires n <= |sp| && n <= |tp|
    ensures ScoreTransposed(Known(sp), Known(tp), y, n) == Ok(MatchCount(Shift(sp, -y)[..n], tp[..n]))
  {
    if n > 0 {
      ScoreTransposedKnown(sp, tp, y, n - 1);
      assert Shift(sp, -y)[..n][..n - 1] == Shift(sp, -y)[..n - 1];
      assert tp[..n][..n - 1] == tp[..n - 1];
    }
  }

  /** `IsTranspositionOfExceptFor` as written: after converting the
      reference and then the subject, a subject shorter than `|x| - k` is
      rejected; otherwise, only when the subject has more than one note,
      positions `0..|x|-1` are scored, which faults with `IndexOutOfRange`
      once the subject runs out; the verdict is `count >= |x| - k`. */
  function IsTranspositionOfExceptFor(subject: Phrase, x: Phrase, y: int, k: nat): (r: Result<bool>)
    ensures ConvertSequence(x).Err? ==> r == Err(ConvertSequence(x).error)
    ensures ConvertSequence(x).Ok? && ConvertSequence(subject).Err? ==> r == Err(ConvertSequence(subject).error)
    ensures ConvertSequence(subject).Ok? && ConvertSequence(x).Ok? && |subject| < |x| - k ==> r == Ok(false)
    ensures ConvertSequence(subject).Ok? && ConvertSequence(x).Ok? && |subject| >= |x| - k && |subject| <= 1 ==>
              r == Ok(|x| <= k)
    ensures r.Err? && r.error.IndexOutOfRange? ==> 1 < |subject| < |x|
    ensures r.Ok? && k >= |x| ==> r.value
  {
    var t :- ConvertSequence(x);
    var s :- ConvertSequence(subject);
    var targetLength := |t|;
    if |s| == targetLength || |s| >= targetLength - k then
      var needed := targetLength - k;
      if |s| > 1 then
        var counter :- ScoreTransposed(s, t, y, targetLength);
        Ok(counter >= needed)
      else Ok(0 >= needed)
    else Ok(false)
  }

  /** Where the subject is recognised, has more than one note and is at
      least as long as the reference, the rule as written computes the
      intended verdict. */
  lemma {:induction false} IsTranspositionOfExceptForLongSubject(subject: Phrase, x: Phrase, y: int, k: nat)
    requires Recognised(subject) && Recognised(x)
    requires |subject| >= |x| && |subject| > 1
    ensures IsTranspositionOfExceptFor(subject, x, y, k)
              == Ok(TranspositionExceptFor(Pitches(subject), Pitches(x), y, k))
  {
    var sp, tp := Pitches(subject), Pitches(x);
    assert ScoreTransposed(Known(sp), Known(tp), y, |tp|) == Ok(MatchCount(Shift(sp, -y), tp)) by {
      ScoreTransposedKnown(sp, tp, y, |tp|);
      MatchCountCommonPrefix(Shift(sp, -y), tp);
      assert tp[..|tp|] == tp;
    }
    assert ConvertSequence(subject) == Ok(Known(sp)) && ConvertSequence(x) == Ok(Known(tp)) by {
      ConvertRecognised(subject);
      ConvertRecognised(x);
    }
  }

  /** The rule as written faults whenever a recognised subject of more than
      one note passes the length guard while being shorter than the
      reference: the loop reads position `|subject|`. */
  lemma {:induction false} IsTranspositionOfExceptForIndexFault(subject: Phrase, x: Phrase, y: int, k: nat)
    requires Recognised(subject) && ConvertSequence(x).Ok?
    requires |x| - k <= |subject| < |x| && |subject| > 1
    ensures IsTranspositionOfExceptFor(subject, x, y, k) == Err(IndexOutOfRange(|subject|))
  {
    ConvertRecognised(subject);
  }

  /** `IsTranspositionOfExceptFor` as evidently intended: the same guard
      and bound, but every position of the common prefix is scored,
      whatever the subject's length. */
  function IsTranspositionOfExceptForCorrected(subject: Phrase, x: Phrase, y: int, k: nat): (r: Result<bool>)
    ensures ConvertSequence(x).Err? ==> r == Err(ConvertSequence(x).error)
    ensures ConvertSequence(x).Ok? && ConvertSequence(subject).Err? ==> r == Err(ConvertSequence(subject).error)
    ensures r.Err? ==> r.error.NoneOperand? || ConvertSequence(x).Err? || ConvertSequence(subject).Err?
    ensures ConvertSequence(subject).Ok? && ConvertSequence(x).Ok? && |subject| < |x| - k ==> r == Ok(false)
    ensures r.Ok? && k >= |x| ==> r.value
  {
    var t :- ConvertSequence(x);
    var s :- ConvertSequence(subject);
    var targetLength := |t|;
    if |s| == targetLength || |s| >= targetLength - k then
      var needed := targetLength - k;
      var counter :- ScoreTransposed(s, t, y, Min(|s|, targetLength));
      Ok(counter >= needed)
    else Ok(false)
  }

  /** Over recognised phrases of any lengths, the corrected rule decides
      the intended `TranspositionExceptFor`. */
  lemma {:induction false} IsTranspositionOfExceptForCorrectedRecognised(subject: Phrase, x: Phrase, y: int, k: nat)
    requires Recognised(subject) && Recognised(x)
    ensures IsTranspositionOfExceptForCorrected(subject, x, y, k)
              == Ok(TranspositionExceptFor(Pitches(subject), Pitches(x), y, k))
  {
    var sp, tp := Pitches(subject), Pitches(x);
    var m := Min(|sp|, |tp|);
    assert ScoreTransposed(Known(sp), Known(tp), y, m) == Ok(MatchCount(Shift(sp, -y), tp)) by {
      ScoreTransposedKnown(sp, tp, y, m);
      MatchCountCommonPrefix(Shift(sp, -y), tp);
    }
    assert ConvertSequence(subject) == Ok(Known(sp)) && ConvertSequence(x) == Ok(Known(tp)) by {
      ConvertRecognised(subject);
      ConvertRecognised(x);
    }
  }

  /** With no tolerance, the corrected rule is `IsTranspositionOf` on
      recognised phrases of equal length. */
  lemma {:induction false} IsTranspositionOfExceptForCorrectedZero(subject: Phrase, x: Phrase, y: int)
    requires Recognised(subject) && Recognised(x) && |subject| == |x|
    ensures IsTranspositionOfExceptForCorrected(subject, x, y, 0) == IsTranspositionOf(subject, x, y)
  {
    IsTranspositionOfExceptForCorrectedRecognised(subject, x, y, 0);
    IsTranspositionOfRecognised(subject, x, y);
    TranspositionExceptForZero(Pitches(subject), Pitches(x), y);
  }

  /** Transposing by zero, the corrected rule is `IsEqualToExceptFor` on
      recognised phrases. */
  lemma {:induction false} IsTranspositionOfExceptForCorrectedByZero(subject: Phrase, x: Phrase, k: nat)
    requires Recognised(subject) && Recognised(x)
    ensures IsTranspositionOfExceptForCorrected(subject, x, 0, k) == IsEqualToExceptFor(subject, x, k)
  {
    IsTranspositionOfExceptForCorrectedRecognised(subject, x, 0, k);
    TranspositionExceptForByZero(Pitches(subject), Pitches(x), k);
    ConvertRecognised(subject);
    ConvertRecognised(x);
    var sp, tp := Pitches(subject), Pitches(x);
    MatchCountCongruent(sp, tp, Known(sp), Known(tp));
  }
}
