# Music-phrase rules

A Dafny model of the music-phrase answer rules in
`extensions/rules/music_phrase.py`. The rules grade a learner's melody (the
`subject`) against a reference melody `x`. Each note is a dict whose
`readableNoteName` is looked up in a fixed table of thirteen natural notes,
C4 to A5. The table gives each name its MIDI note number, 60 to 81. Five
rules then compare the two pitch sequences:

- `Equals`
- `IsLongerSequence`
- `IsEqualToExceptFor`, with a tolerance of `k` notes
- `IsTranspositionOf`, with an offset of `y` semitones
- `IsTranspositionOfExceptFor`, with both

Modules:

- `Outcomes` holds `Option`, `Result` and `Fault`. `Fault` lists the
  exceptions a rule can raise:
  - the invalid-note exception for a note that is not a dict;
  - `KeyError` for a dict without a name;
  - `TypeError` for `None - y`;
  - `IndexError`.
- `NoteTable` holds the table `NoteMap`, its ascending listing `Scale` and
  `ScaleMidi`, and its inverse `NameOfMidi`.
- `MidiConversion` holds the `Note` datatype, the lookup `MidiValue`
  (`get_midi_note_value`) and the phrase conversion `ConvertSequence`
  (`convert_sequence_to_midi`).
- `PhraseCompare` holds the comparisons on pitch sequences, with reference
  definitions:
  - `MatchCount`, the matches over the common prefix;
  - `EqualExceptFor`;
  - `IsTransposition`;
  - `TranspositionExceptFor`, the intended tolerant transposition.
- `MusicPhraseRules` holds the five rules as written. Each rule returns
  `Ok(verdict)` or `Err(fault)`. Each converts the phrases in the same
  order as the source, so when both phrases are faulty the fault is the
  one the source would raise. The module also holds the corrected
  `IsTranspositionOfExceptFor`.
- `Scenarios` holds worked phrases and the counterexamples for the
  findings.

Conventions:

- A recognised note is a dict whose name the table knows.
- A dict with an unknown name looks up to `None`, as in the source. Two
  different unknown names therefore compare equal.
- `k` is a `nat` and `y` an `int`, because the rule framework checks the
  parameter types before a rule runs.

Two consequences of the code worth stating plainly:

- An unknown note name yields `None`; it does not raise.
- C4-E4-G4 raised two semitones is D4-F#4-A4, so D4-F4-A4 is rejected:
  F4 is 65, and 65 less 2 is 63, not E4's 64
  (`Scenarios.TranspositionByTwoExample`).

## Model

| member | source | states |
|---|---|---|
| NoteTable.ScaleListsTable | extensions/rules/music_phrase.py:24-26 | The table, read along C4, D4, ..., A5, is strictly increasing and bounded by 60 and 81 |
| NoteTable.TableInjective | extensions/rules/music_phrase.py:24-26 | Two table names have the same MIDI number if and only if they are the same name |
| NoteTable.NameOfMidi | extensions/rules/music_phrase.py:24-26 | The inverse table gives a name exactly for the table's numbers, and that name maps back to the number |
| NoteTable.NameOfMidiRoundTrip | extensions/rules/music_phrase.py:24-26 | Name to number to name is the identity on table names; number to name to number is the identity wherever a name exists |
| MidiConversion.MidiValue | extensions/rules/music_phrase.py:29-34 | A non-dict raises the invalid-note fault with its printed form; a dict without a name raises KeyError; a known name gives a number in 60..81 whose inverse is that name; an unknown name gives None |
| MidiConversion.ConvertSequence | extensions/rules/music_phrase.py:37-38 | Conversion succeeds if and only if every note looks up; the result has the phrase's length and element i is note i's lookup; a failure carries the fault of the first note that cannot be looked up |
| MidiConversion.ConvertRecognised | extensions/rules/music_phrase.py:37-38 | A fully recognised phrase converts without fault to its table numbers, in order |
| MidiConversion.SamePitchIffSameName | extensions/rules/music_phrase.py:29-34 | Two recognised notes look up to the same value if and only if their names are equal |
| MidiConversion.UnknownNamesLookAlike | extensions/rules/music_phrase.py:31-32 | Any two dict notes with unknown names both look up to None |
| PhraseCompare.MatchCount | extensions/rules/music_phrase.py:68-70 | The number of matching positions never exceeds either length, so it never exceeds the common-prefix length |
| PhraseCompare.CountMatches | extensions/rules/music_phrase.py:66-70 | The counting loop over range(min(len(x), len(subject))) computes exactly the number of agreeing positions of the common prefix |
| PhraseCompare.MatchCountCommonPrefix | extensions/rules/music_phrase.py:68 | Only positions below min(len(x), len(subject)) affect the count |
| PhraseCompare.MatchCountIgnoresTail | extensions/rules/music_phrase.py:68 | Notes appended to a subject at least as long as the reference never change the count |
| PhraseCompare.MatchCountFullIffEqual | extensions/rules/music_phrase.py:66-71 | Over equal lengths, every position matches if and only if the sequences are equal |
| PhraseCompare.MatchCountCongruent | extensions/rules/music_phrase.py:68-70 | Pairs of sequences that agree at the same positions have the same count |
| PhraseCompare.EqualExceptFor | extensions/rules/music_phrase.py:67-71 | The verdict of IsEqualToExceptFor on pitch sequences: the count of agreeing positions over the common prefix is at least len(x) - k, a bound that is not clamped |
| PhraseCompare.EqualExceptForWholeTolerance | extensions/rules/music_phrase.py:67-71 | Because len(x) - k is not clamped, a tolerance of at least len(x) accepts every subject |
| PhraseCompare.EqualExceptForShortSubject | extensions/rules/music_phrase.py:67-71 | A subject shorter than len(x) - k is never accepted |
| PhraseCompare.EqualExceptForMonotone | extensions/rules/music_phrase.py:67-71 | Raising the tolerance never turns acceptance into rejection |
| PhraseCompare.EqualExceptForZeroIsEquality | extensions/rules/music_phrase.py:66-71 | With k = 0 and equal lengths, equality up to tolerance is plain equality |
| PhraseCompare.IsTransposition | extensions/rules/music_phrase.py:84-87 | Reference definition of a transposition: equal lengths, and every subject pitch less y is the reference pitch at the same position |
| PhraseCompare.TranspositionIsShift | extensions/rules/music_phrase.py:84-87 | A transposition by y is the reference with every pitch raised by y |
| PhraseCompare.TranspositionByZero | extensions/rules/music_phrase.py:84-87 | Transposition by zero is equality |
| PhraseCompare.TranspositionInverse | extensions/rules/music_phrase.py:84-87 | s is x raised by y if and only if x is s lowered by y |
| PhraseCompare.TranspositionExceptFor | extensions/rules/music_phrase.py:104-109 | The intended tolerant transposition: the subject lowered by y agrees with the reference at no fewer than len(x) - k positions of the common prefix |
| PhraseCompare.TranspositionExceptForZero | extensions/rules/music_phrase.py:104-109 | With no tolerance and equal lengths, the intended tolerant transposition is exactly a transposition |
| PhraseCompare.TranspositionExceptForByZero | extensions/rules/music_phrase.py:104-109 | With a zero offset, the intended tolerant transposition is equality up to tolerance |
| MusicPhraseRules.Equals | extensions/rules/music_phrase.py:44-46 | The subject is converted first and its fault wins; once both convert, the verdict holds if and only if the lengths agree and every pair of notes looks up to the same value |
| MusicPhraseRules.EqualsReflexive | extensions/rules/music_phrase.py:44-46 | Every phrase that converts equals itself |
| MusicPhraseRules.EqualsNeedsSameLength | extensions/rules/music_phrase.py:44-46 | Phrases of different lengths are never equal |
| MusicPhraseRules.EqualsIffSameNames | extensions/rules/music_phrase.py:44-46 | Over recognised phrases, Equals holds if and only if the two sequences of note names are equal |
| MusicPhraseRules.UnknownNotesCompareEqual | extensions/rules/music_phrase.py:44-46 | Equal-length phrases made only of unknown names are judged equal, whatever those names are |
| MusicPhraseRules.IsLongerSequence | extensions/rules/music_phrase.py:52-54 | The subject is converted first and its fault wins; once both convert, the verdict is len(subject) > len(x), whatever the pitches |
| MusicPhraseRules.IsLongerSequenceIrreflexive | extensions/rules/music_phrase.py:52-54 | No phrase is longer than itself |
| MusicPhraseRules.IsEqualToExceptFor | extensions/rules/music_phrase.py:61-71 | The reference is converted first and its fault wins; a tolerance of at least len(x) accepts; a subject shorter than len(x) - k is rejected |
| MusicPhraseRules.IsEqualToExceptForByNames | extensions/rules/music_phrase.py:61-71 | Over recognised phrases, the verdict is: at least len(x) - k positions of the common prefix carry the same note name |
| MusicPhraseRules.IsEqualToExceptForZeroIsEquals | extensions/rules/music_phrase.py:44-71 | Relates Equals (:44-46) to IsEqualToExceptFor (:61-71): with k = 0 and equal lengths, IsEqualToExceptFor succeeds exactly when Equals does, and then it gives the same verdict |
| MusicPhraseRules.ScanTransposition | extensions/rules/music_phrase.py:83-87 | The scan accepts if and only if every subject pitch less y is the reference pitch; it faults only at a None subject pitch, and only when all earlier positions matched |
| MusicPhraseRules.IsTranspositionOf | extensions/rules/music_phrase.py:78-89 | Raw lengths are compared before any conversion, so different lengths give false even for invalid notes; otherwise the reference's fault wins, then the subject's; acceptance implies every subject note is recognised |
| MusicPhraseRules.IsTranspositionOfRecognised | extensions/rules/music_phrase.py:78-89 | Over recognised phrases, the verdict is exactly whether the subject's pitches are the reference's raised by y |
| MusicPhraseRules.ScanKnown | extensions/rules/music_phrase.py:83-87 | On known pitches of equal length, the scan never faults and decides transposition |
| MusicPhraseRules.IsTranspositionOfByZeroIsEquals | extensions/rules/music_phrase.py:78-89 | Over recognised phrases, a transposition by zero is Equals |
| MusicPhraseRules.IsTranspositionOfInverse | extensions/rules/music_phrase.py:78-89 | Over recognised phrases, the subject is x raised by y if and only if x is the subject lowered by y |
| MusicPhraseRules.ScoreTransposed | extensions/rules/music_phrase.py:106-108 | Scoring the first n positions succeeds if and only if the subject has them all and none is None; the count is at most n; an IndexError is raised exactly at position len(subject), after every subject pitch was read |
| MusicPhraseRules.ScoreTransposedKnown | extensions/rules/music_phrase.py:106-108 | On known pitches, the score is the number of matches of the subject lowered by y against the reference over the scored positions |
| MusicPhraseRules.IsTranspositionOfExceptFor | extensions/rules/music_phrase.py:97-111 | The reference's fault wins; a subject shorter than len(x) - k is rejected; a subject of at most one note gets verdict len(x) <= k; an IndexError needs 1 < len(subject) < len(x); a tolerance of at least len(x) accepts |
| MusicPhraseRules.IsTranspositionOfExceptForLongSubject | extensions/rules/music_phrase.py:97-111 | For recognised phrases with a subject of more than one note and at least len(x) notes, the rule as written gives the intended verdict |
| MusicPhraseRules.IsTranspositionOfExceptForIndexFault | extensions/rules/music_phrase.py:102-108 | A recognised subject with len(x) - k <= len(subject) < len(x) and more than one note always raises IndexError at position len(subject) |
| MusicPhraseRules.IsTranspositionOfExceptForCorrected | extensions/rules/music_phrase.py:97-111 | Same fault order and guard as the source, but never an IndexError; a subject shorter than len(x) - k is rejected; a tolerance of at least len(x) accepts |
| MusicPhraseRules.IsTranspositionOfExceptForCorrectedRecognised | extensions/rules/music_phrase.py:97-111 | Over recognised phrases of any lengths, the corrected rule decides the intended tolerant transposition over the common prefix |
| MusicPhraseRules.IsTranspositionOfExceptForCorrectedZero | extensions/rules/music_phrase.py:97-111 | With no tolerance and equal lengths, the corrected rule agrees with IsTranspositionOf |
| MusicPhraseRules.IsTranspositionOfExceptForCorrectedByZero | extensions/rules/music_phrase.py:97-111 | With a zero offset, the corrected rule agrees with IsEqualToExceptFor |
| Scenarios.EqualExceptOneNote | extensions/rules/music_phrase.py:61-71 | Subject C4-D4-F4 against reference C4-D4-E4 with k = 1 is accepted (two of three match, two needed) |
| Scenarios.ShortSubjectRejected | extensions/rules/music_phrase.py:61-71 | Subject C4 against reference C4-D4-E4 with k = 0 is rejected (one match, three needed) |
| Scenarios.TranspositionBySevenExample | extensions/rules/music_phrase.py:78-89 | G4-B4-D5 is C4-E4-G4 raised by seven semitones |
| Scenarios.TranspositionByTwoExample | extensions/rules/music_phrase.py:78-89 | D4-F4-A4 is not C4-E4-G4 raised by two semitones |
| Scenarios.IndexFaultExample | extensions/rules/music_phrase.py:102-108 | Subject C4-D4 against reference C4-D4-E4 with y = 0 and k = 1 raises IndexError in the rule as written, and is accepted by the corrected rule |
| Scenarios.OneNoteExample | extensions/rules/music_phrase.py:105 | C4 is a transposition of C4 by zero, yet the rule as written rejects it with k = 0; the corrected rule accepts |

## Left out

- The `base.MusicPhraseRule` superclass and the rule-registration framework (extensions/rules/base.py is not part of this model). Each rule is a function of the subject and its parameters.
- Checking the types of `x`, `k` and `y`. The framework does this before a rule runs. It appears only as the types `k: nat` and `y: int`.
- The `description` templates. They are display text with no behaviour.
- Python values inside a note dict other than strings. A dict whose `readableNoteName` is unhashable would raise `TypeError` at the table lookup; the model gives every dict entry a string value.
- The text of the invalid-note message. `InvalidMusicNote` carries the note's printed form, given as a string, rather than the formatted message.
- Tuple notes. The invalid-note message is built with `%`, so a tuple note of length other than one raises `TypeError` instead, and a one-element tuple prints only its element. Notes arrive as JSON, which has no tuples, so every non-dict note is modelled as raising the invalid-note fault.
- Arbitrary objects as phrases. A phrase is a finite sequence of notes.

## Findings

| source | as written | input that shows it | evidently intended | confidence | as-written member | corrected member |
|---|---|---|---|---|---|---|
| extensions/rules/music_phrase.py:102-108 | The length guard admits a subject with len(x) - k <= len(subject) < len(x), and the loop then reads positions up to len(x) - 1 of that shorter subject | subject C4-D4, x C4-D4-E4, y = 0, k = 1: IndexError at position 2 (`Scenarios.IndexFaultExample`) | Score only the common prefix, as `IsEqualToExceptFor` does; the example is then accepted | high; not executed | MusicPhraseRules.IsTranspositionOfExceptFor | MusicPhraseRules.IsTranspositionOfExceptForCorrected |
| extensions/rules/music_phrase.py:105 | A subject of one note is never scored, so its count stays 0 | subject C4, x C4, y = 0, k = 0: rejected, although `IsTranspositionOf` accepts it (`Scenarios.OneNoteExample`) | Score every position of the common prefix whatever the subject's length; then with k = 0 the rule agrees with `IsTranspositionOf` (`MusicPhraseRules.IsTranspositionOfExceptForCorrectedZero`) | medium; not executed | MusicPhraseRules.IsTranspositionOfExceptFor | MusicPhraseRules.IsTranspositionOfExceptForCorrected |
