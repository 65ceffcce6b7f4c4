/** The fixed table from natural-note names to MIDI note numbers
    (`NOTE_MAP` in extensions/rules/music_phrase.py), its ascending listing
    and its inverse.
 */
module NoteTable {
  import opened Outcomes

  /** The thirteen natural notes from middle C (C4) up to A5. */
  const NoteMap: map<string, int> :=
    map["C4" := 60, "D4" := 62, "E4" := 64, "F4" := 65, "G4" := 67, "A4" := 69,
        "B4" := 71, "C5" := 72, "D5" := 74, "E5" := 76, "F5" := 77, "G5" := 79,
        "A5" := 81]

  /** The table's names in ascending pitch order. */
  const Scale: seq<string> :=
    ["C4", "D4", "E4", "F4", "G4", "A4", "B4", "C5", "D5", "E5", "F5", "G5", "A5"]

  /** The lowest and highest MIDI numbers the table can produce. */
  const LowestMidi: int := 60
  const HighestMidi: int := 81

  /** The table's numbers in the same ascending order as `Scale`. */
  const ScaleMidi: seq<int> :=
    [60, 62, 64, 65, 67, 69, 71, 72, 74, 76, 77, 79, 81]

  // ScaleListsEntries, ScaleCoversTable and ScaleMidiIncreasing only split
  // the cost of proving ScaleListsTable, which states the listing once.

  /** `Scale` and `ScaleMidi` list the table entry by entry. */
  lemma ScaleListsEntries()
    ensures |Scale| == |ScaleMidi| == 13
    ensures forall i :: 0 <= i < |Scale| ==> Scale[i] in NoteMap && NoteMap[Scale[i]] == ScaleMidi[i]
  {
  }

  /** Every name of the table appears in `Scale`. */
  lemma ScaleCoversTable()
    ensures forall name :: name in NoteMap ==> name in Scale
  {
  }

  /** The listed numbers strictly increase and stay between the lowest and
      highest number. */
  lemma ScaleMidiIncreasing()
    ensures forall i, j :: 0 <= i < j < |ScaleMidi| ==> ScaleMidi[i] < ScaleMidi[j]
    ensures forall i :: 0 <= i < |ScaleMidi| ==> LowestMidi <= ScaleMidi[i] <= HighestMidi
  {
  }

  /** `Scale` lists exactly the table's names in strictly increasing pitch
      order, between the lowest and highest numbers. */
  lemma ScaleListsTable()
    ensures |Scale| == 13
    ensures forall i :: 0 <= i < |Scale| ==> Scale[i] in NoteMap
    ensures forall name :: name in NoteMap ==> name in Scale
    ensures forall i, j :: 0 <= i < j < |Scale| ==> NoteMap[Scale[i]] < NoteMap[Scale[j]]
    ensures forall i :: 0 <= i < |Scale| ==> LowestMidi <= NoteMap[Scale[i]] <= HighestMidi
  {
    ScaleListsEntries();
    ScaleCoversTable();
    ScaleMidiIncreasing();
  }

  /** Every name in the table has its position in `Scale`. */
  function ScaleIndex(name: string): (i: nat)
    requires name in NoteMap
    ensures i < |Scale| && Scale[i] == name
  {
    ScaleListsTable();
    FindInScale(name, 0)
  }

  /** The first position at or after `from` where `Scale` holds `name`. */
  function FindInScale(name: string, from: nat): (i: nat)
    requires from <= |Scale| && name in Scale[from..]
    ensures from <= i < |Scale| && Scale[i] == name
    decreases |Scale| - from
  {
    if Scale[from] == name then from
    else
      assert name in Scale[from + 1..] by {
        assert Scale[from..] == [Scale[from]] + Scale[from + 1..];
      }
      FindInScale(name, from + 1)
  }

  /** The table is injective: two names give the same MIDI number exactly
      when they are the same name. */
  lemma {:induction false} TableInjective(a: string, b: string)
    requires a in NoteMap && b in NoteMap
    ensures NoteMap[a] == NoteMap[b] <==> a == b
  {
    ScaleListsTable();
    var i, j := ScaleIndex(a), ScaleIndex(b);
    if i < j {
      assert NoteMap[Scale[i]] < NoteMap[Scale[j]];
    } else if j < i {
      assert NoteMap[Scale[j]] < NoteMap[Scale[i]];
    }
  }

  /** The name the table gives to a MIDI number, searching `Scale` from
      position `from`; `None` when no name there has that number. */
  function NameOfMidiFrom(midi: int, from: nat): (r: Option<string>)
    requires from <= |Scale|
    ensures r.Some? ==> r.value in NoteMap && NoteMap[r.value] == midi
    ensures r.None? ==> forall i :: from <= i < |Scale| ==> NoteMap[Scale[i]] != midi
    decreases |Scale| - from
  {
    ScaleListsTable();
    if from == |Scale| then None
    else if NoteMap[Scale[from]] == midi then Some(Scale[from])
    else NameOfMidiFrom(midi, from + 1)
  }

  /** The inverse of the table: the name of a MIDI number, if it has one. */
  function NameOfMidi(midi: int): (r: Option<string>)
    ensures r.Some? <==> midi in NoteMap.Values
    ensures r.Some? ==> r.value in NoteMap && NoteMap[r.value] == midi
  {
    ScaleListsTable();
    var r := NameOfMidiFrom(midi, 0);
    if r.None? then
      assert forall name :: name in NoteMap ==> NoteMap[name] != midi by {
        forall name | name in NoteMap
          ensures NoteMap[name] != midi
        {
          var i := ScaleIndex(name);
        }
      }
      r
    else r
  }

  /** Looking a name up and then naming the number gives the name back,
      and naming a number and then looking the name up gives the number. */
  lemma {:induction false} NameOfMidiRoundTrip(name: string, midi: int)
    ensures name in NoteMap ==> NameOfMidi(NoteMap[name]) == Some(name)
    ensures NameOfMidi(midi).Some? ==> NoteMap[NameOfMidi(midi).value] == midi
  {
    if name in NoteMap {
      var r := NameOfMidi(NoteMap[name]);
      TableInjective(r.value, name);
    }
  }
}
