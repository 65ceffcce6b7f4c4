/** Notes, the partial lookup of a note's MIDI number
    (`get_midi_note_value`) and its extension to phrases
    (`convert_sequence_to_midi`).
 */
module MidiConversion {
  import opened Outcomes
  import opened NoteTable

  /** The dict key under which a note carries its name. */
  const NameKey: string := "readableNoteName"

  /** A note as the rules receive it: a dict of string entries, or any other
      value, kept only through its printed form for the error message. */
  datatype Note = Dict(fields: map<string, string>) | NonDict(shown: string)

  /** A phrase is an ordered melody; repeated notes are allowed. */
  type Phrase = seq<Note>

  /** A dict note that carries a name, whether the table knows it or not. */
  predicate HasName(note: Note) {
    note.Dict? && NameKey in note.fields
  }

  /** A note whose name the table knows. */
  predicate IsRecognised(note: Note) {
    HasName(note) && note.fields[NameKey] in NoteMap
  }

  function NameOf(note: Note): string
    requires HasName(note)
  {
    note.fields[NameKey]
  }

  /** The lookup of one note: its table number for a known name, `None` for
      an unknown name, and a fault for a value that is not a named dict. */
  function MidiValue(note: Note): (r: Result<Option<int>>)
    ensures r.Ok? <==> HasName(note)
    ensures note.NonDict? ==> r == Err(InvalidMusicNote(note.shown))
    ensures note.Dict? && !HasName(note) ==> r == Err(MissingNoteName)
    ensures r.Ok? && r.value.Some? <==> IsRecognised(note)
    ensures r.Ok? && r.value.Some? ==>
              LowestMidi <= r.value.value <= HighestMidi
              && NameOfMidi(r.value.value) == Some(NameOf(note))
  {
    match note
    case NonDict(shown) => Err(InvalidMusicNote(shown))
    case Dict(fields) =>
      if NameKey !in fields then Err(MissingNoteName)
      else if fields[NameKey] in NoteMap then
        var name := fields[NameKey];
        NameOfMidiRoundTrip(name, NoteMap[name]);
        ScaleListsTable();
        Ok(Some(NoteMap[name]))
      else Ok(None)
  }

  /** The lookup mapped over a phrase, in order: the first note that cannot
      be looked up aborts the conversion with its fault. */
  function ConvertSequence(phrase: Phrase): (r: Result<seq<Option<int>>>)
    ensures r.Ok? <==> forall i :: 0 <= i < |phrase| ==> MidiValue(phrase[i]).Ok?
    ensures r.Ok? ==> |r.value| == |phrase|
    ensures r.Ok? ==> forall i :: 0 <= i < |phrase| ==> r.value[i] == MidiValue(phrase[i]).value
    ensures r.Err? ==>
              exists i :: 0 <= i < |phrase| && MidiValue(phrase[i]) == Err(r.error)
                          && forall j :: 0 <= j < i ==> MidiValue(phrase[j]).Ok?
  {
    if |phrase| == 0 then Ok([])
    else
      var head :- MidiValue(phrase[0]);
      var tail :- ConvertSequence(phrase[1..]);
      Ok([head] + tail)
  }

  /** Every note of the phrase is a dict whose name the table knows. */
  predicate Recognised(phrase: Phrase) {
    forall i :: 0 <= i < |phrase| ==> IsRecognised(phrase[i])
  }

  /** The names of a recognised phrase. */
  function Names(phrase: Phrase): seq<string>
    requires Recognised(phrase)
  {
    seq(|phrase|, i requires 0 <= i < |phrase| => NameOf(phrase[i]))
  }

  /** The table numbers of a recognised phrase. */
  function Pitches(phrase: Phrase): seq<int>
    requires Recognised(phrase)
  {
    seq(|phrase|, i requires 0 <= i < |phrase| => NoteMap[NameOf(phrase[i])])
  }

  /** Pitches seen as lookup results that all succeeded. */
  function Known(pitches: seq<int>): seq<Option<int>>
  {
    seq(|pitches|, i requires 0 <= i < |pitches| => Some(pitches[i]))
  }

  /** A recognised phrase converts without fault to its pitches. */
  lemma {:induction false} ConvertRecognised(phrase: Phrase)
    requires Recognised(phrase)
    ensures ConvertSequence(phrase) == Ok(Known(Pitches(phrase)))
  {
    var r := ConvertSequence(phrase);
    assert r.Ok?;
    assert r.value == Known(Pitches(phrase));
  }

  /** Two recognised notes look up to the same number exactly when they
      carry the same name. */
  lemma {:induction false} SamePitchIffSameName(a: Note, b: Note)
    requires IsRecognised(a) && IsRecognised(b)
    ensures MidiValue(a) == MidiValue(b) <==> NameOf(a) == NameOf(b)
  {
    TableInjective(NameOf(a), NameOf(b));
  }

  /** Two dict notes with names the table does not know both look up to
      `None`, so the rules cannot tell them apart. */
  lemma {:induction false} UnknownNamesLookAlike(a: Note, b: Note)
    requires HasName(a) && HasName(b) && !IsRecognised(a) && !IsRecognised(b)
    ensures MidiValue(a) == MidiValue(b) == Ok(None)
  {
  }
}
