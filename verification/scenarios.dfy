/** Worked phrases: concrete verdicts of the rules, accepted and rejected,
    and the inputs that exhibit the two defects of the transposition rule
    with a tolerance.
 */
module Scenarios {
  import opened Outcomes
  import opened NoteTable
  import opened MidiConversion
  import opened PhraseCompare
  import opened MusicPhraseRules

  /** A phrase of dict notes with the given names. */
  function Named(names: seq<string>): (p: Phrase)
    ensures |p| == |names|
    ensures forall i :: 0 <= i < |names| ==> HasName(p[i]) && NameOf(p[i]) == names[i]
    ensures (forall i :: 0 <= i < |names| ==> names[i] in NoteMap) ==> Recognised(p)
  {
    seq(|names|, i requires 0 <= i < |names| => Dict(map[NameKey := names[i]]))
  }

  /** A phrase named from `Scale` positions is recognised, with the pitches
      `ScaleMidi` lists at those positions. */
  lemma {:induction false} NamedFromScale(names: seq<string>, at: seq<nat>)
    requires |names| == |at|
    requires forall i :: 0 <= i < |at| ==> at[i] < |Scale| && names[i] == Scale[at[i]]
    ensures Recognised(Named(names))
    ensures |Pitches(Named(names))| == |at|
    ensures forall i :: 0 <= i < |at| ==> Pitches(Named(names))[i] == ScaleMidi[at[i]]
  {
    ScaleListsEntries();
  }

  const PhraseC4: Phrase := Named(["C4"])
  const PhraseC4D4: Phrase := Named(["C4", "D4"])
  const PhraseC4D4E4: Phrase := Named(["C4", "D4", "E4"])
  const PhraseC4D4F4: Phrase := Named(["C4", "D4", "F4"])
  const PhraseC4E4G4: Phrase := Named(["C4", "E4", "G4"])
  const PhraseG4B4D5: Phrase := Named(["G4", "B4", "D5"])
  const PhraseD4F4A4: Phrase := Named(["D4", "F4", "A4"])

  /** One wrong note out of three is within a tolerance of one. */
  lemma EqualExceptOneNote()
    ensures IsEqualToExceptFor(PhraseC4D4F4, PhraseC4D4E4, 1) == Ok(true)
  {
    NamedFromScale(["C4", "D4", "F4"], [0, 1, 3]);
    NamedFromScale(["C4", "D4", "E4"], [0, 1, 2]);
    IsEqualToExceptForByNames(PhraseC4D4F4, PhraseC4D4E4, 1);
    var s, t := Names(PhraseC4D4F4), Names(PhraseC4D4E4);
    assert MatchCount(s, t) >= 2 by {
      assert s[..2] == t[..2];
      MatchCountFullIffEqual(s[..2], t[..2]);
    }
  }

  /** A one-note subject against a three-note reference with no tolerance
      is rejected: only the one common position is scored. */
  lemma ShortSubjectRejected()
    ensures IsEqualToExceptFor(PhraseC4, PhraseC4D4E4, 0) == Ok(false)
  {
    NamedFromScale(["C4"], [0]);
    NamedFromScale(["C4", "D4", "E4"], [0, 1, 2]);
    IsEqualToExceptForByNames(PhraseC4, PhraseC4D4E4, 0);
  }

  /** C4-E4-G4 raised seven semitones is G4-B4-D5. */
  lemma TranspositionBySevenExample()
    ensures IsTranspositionOf(PhraseG4B4D5, PhraseC4E4G4, 7) == Ok(true)
  {
    NamedFromScale(["C4", "E4", "G4"], [0, 2, 4]);
    NamedFromScale(["G4", "B4", "D5"], [4, 6, 8]);
    assert IsTransposition(Pitches(PhraseG4B4D5), Pitches(PhraseC4E4G4), 7);
    IsTranspositionOfRecognised(PhraseG4B4D5, PhraseC4E4G4, 7);
  }

  /** C4-E4-G4 raised two semitones is not D4-F4-A4: F4 lies one semitone
      above E4, not two. */
  lemma TranspositionByTwoExample()
    ensures IsTranspositionOf(PhraseD4F4A4, PhraseC4E4G4, 2) == Ok(false)
  {
    NamedFromScale(["C4", "E4", "G4"], [0, 2, 4]);
    NamedFromScale(["D4", "F4", "A4"], [1, 3, 5]);
    assert Pitches(PhraseD4F4A4)[1] - 2 != Pitches(PhraseC4E4G4)[1];
    IsTranspositionOfRecognised(PhraseD4F4A4, PhraseC4E4G4, 2);
  }

  /** C4-D4 against C4-D4-E4 with a tolerance of one note gets both of the
      two needed notes right, yet the rule as written faults instead of
      accepting; the corrected rule accepts. */
  lemma IndexFaultExample()
    ensures IsTranspositionOfExceptFor(PhraseC4D4, PhraseC4D4E4, 0, 1) == Err(IndexOutOfRange(2))
    ensures IsTranspositionOfExceptForCorrected(PhraseC4D4, PhraseC4D4E4, 0, 1) == Ok(true)
  {
    NamedFromScale(["C4", "D4"], [0, 1]);
    NamedFromScale(["C4", "D4", "E4"], [0, 1, 2]);
    ConvertRecognised(PhraseC4D4E4);
    IsTranspositionOfExceptForIndexFault(PhraseC4D4, PhraseC4D4E4, 0, 1);
    IsTranspositionOfExceptForCorrectedRecognised(PhraseC4D4, PhraseC4D4E4, 0, 1);
    var s, t := Shift(Pitches(PhraseC4D4), -0), Pitches(PhraseC4D4E4);
    assert MatchCount(s, t) == 2 by {
      assert s[..2] == t[..2];
      MatchCountCommonPrefix(s, t);
      MatchCountFullIffEqual(s[..2], t[..2]);
    }
  }

  /** The one-note phrase C4 is a transposition of itself by zero, yet with
      no tolerance the rule as written rejects it, since a one-note subject
      is never scored; the corrected rule accepts. */
  lemma OneNoteExample()
    ensures IsTranspositionOf(PhraseC4, PhraseC4, 0) == Ok(true)
    ensures IsTranspositionOfExceptFor(PhraseC4, PhraseC4, 0, 0) == Ok(false)
    ensures IsTranspositionOfExceptForCorrected(PhraseC4, PhraseC4, 0, 0) == Ok(true)
  {
    NamedFromScale(["C4"], [0]);
    ConvertRecognised(PhraseC4);
    IsTranspositionOfRecognised(PhraseC4, PhraseC4, 0);
    IsTranspositionOfExceptForCorrectedZero(PhraseC4, PhraseC4, 0);
  }
}
