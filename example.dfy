/** A client of the writer: the opening of the `test_simple` demo, a tempo
    of 120 beats per minute, program 0 on channel 0 and one quarter-note
    middle C on track 0, then the bytes of the file. */
module Example {
  import opened Bytes
  import opened VarLenCodec
  import opened Tracks
  import opened Messages
  import opened SmfLayout
  import opened MidiFile

  const Tempo120 := TimedEvent(0, [0xFF, 0x51, 0x03, 0x07, 0xA1, 0x20])
  const Program0 := TimedEvent(0, [0xC0, 0x00])
  const MiddleCOn := TimedEvent(0, [0x90, 0x3C, 0x78])
  const MiddleCOff := TimedEvent(480, [0x80, 0x3C, 0x00])

  const ExamplePayload: seq<Byte> := [
    0x00, 0xFF, 0x51, 0x03, 0x07, 0xA1, 0x20,
    0x00, 0xC0, 0x00,
    0x00, 0x90, 0x3C, 0x78,
    0x83, 0x60, 0x80, 0x3C, 0x00,
    0x00, 0xFF, 0x2F, 0x00]

  lemma AddTempo120()
    ensures BpmOutcome(0, 0, 120) == Added
    ensures AppendedAt(Extended([], 0), 0, [TimedEvent(0, SetTempo(TempoOf(120)))]) == [[Tempo120]]
  {
    assert TempoOf(120) == 500000 && BigEndian(500000, 3) == [0x07, 0xA1, 0x20];
    assert SetTempo(TempoOf(120)) == Tempo120.data;
    var none: seq<seq<TimedEvent>> := [];
    assert Extended(none, 0) == [[]];
    assert [] + [Tempo120] == [Tempo120];
  }

  lemma AddProgram0()
    ensures AppendedAt(Extended([[Tempo120]], 0), 0, [TimedEvent(0, ProgramChange(0, 0))])
         == [[Tempo120, Program0]]
  {
    assert ProgramChange(0, 0) == Program0.data;
    assert [Tempo120] + [Program0] == [Tempo120, Program0];
  }

  lemma AddMiddleC()
    ensures NoteOutcome(0, 0, 0, 480, 120) == Added
    ensures AppendedAt(Extended([[Tempo120, Program0]], 0), 0, NoteEvents(0, 0, 480, 60, 120))
         == [[Tempo120, Program0, MiddleCOn, MiddleCOff]]
  {
    assert NoteEvents(0, 0, 480, 60, 120) == [MiddleCOn, MiddleCOff];
    assert [Tempo120, Program0] + [MiddleCOn, MiddleCOff] == [Tempo120, Program0, MiddleCOn, MiddleCOff];
  }

  /** The note-off's delta of 480 ticks takes two bytes. */
  lemma Delta480()
    ensures VarLen(480) == [0x83, 0x60]
  {
    assert Groups(3, true) == [0x83];
  }

  /** The track is already in tick order, so sorting leaves it alone. */
  lemma MiddleCSorted()
    ensures SortedTracks([[Tempo120, Program0, MiddleCOn, MiddleCOff]])
         == [[Tempo120, Program0, MiddleCOn, MiddleCOff]]
  {
    SortByTickOfSorted([Tempo120, Program0, MiddleCOn, MiddleCOff]);
  }

  lemma MiddleCEvents()
    ensures EventStream([MiddleCOn, MiddleCOff], 0)
         == [0x00, 0x90, 0x3C, 0x78, 0x83, 0x60, 0x80, 0x3C, 0x00]
  {
    VarLenSmall(0);
    Delta480();
    var events := [MiddleCOn, MiddleCOff];
    assert events[1..] == [MiddleCOff] && events[1..][1..] == [];
    assert EventStream([MiddleCOff], 0) == [0x83, 0x60, 0x80, 0x3C, 0x00];
  }

  lemma RenderMiddleC()
    ensures Payload([Tempo120, Program0, MiddleCOn, MiddleCOff]) == ExamplePayload
  {
    var events := [Tempo120, Program0, MiddleCOn, MiddleCOff];
    VarLenSmall(0);
    MiddleCEvents();
    assert events[1..] == [Program0, MiddleCOn, MiddleCOff];
    assert events[1..][1..] == [MiddleCOn, MiddleCOff];
    assert EventStream([Program0, MiddleCOn, MiddleCOff], 0)
        == [0x00] + Program0.data + EventStream([MiddleCOn, MiddleCOff], 0);
    assert EventStream(events, 0) == [0x00] + Tempo120.data + EventStream(events[1..], 0);
  }

  lemma SixteenBitFields()
    ensures BigEndian(0, 2) == [0x00, 0x00] && BigEndian(1, 2) == [0x00, 0x01]
    ensures BigEndian(480, 2) == [0x01, 0xE0]
  {
    assert BigEndian(0, 1) == [0x00] && BigEndian(1, 1) == [0x01];
  }

  lemma LengthSix()
    ensures BigEndian(6, 4) == [0x00, 0x00, 0x00, 0x06]
  {
    assert BigEndian(0, 2) == [0x00, 0x00];
    assert BigEndian(0, 3) == [0x00, 0x00, 0x00];
  }

  lemma OneTrackHeader()
    ensures HeaderChunk(1, 480) ==
      [0x4D, 0x54, 0x68, 0x64, 0x00, 0x00, 0x00, 0x06, 0x00, 0x00, 0x00, 0x01, 0x01, 0xE0]
  {
    SixteenBitFields();
    LengthSix();
  }

  lemma MiddleCChunk()
    ensures |Payload([Tempo120, Program0, MiddleCOn, MiddleCOff])| < 0x1_0000_0000
    ensures TrackChunk([Tempo120, Program0, MiddleCOn, MiddleCOff])
         == [0x4D, 0x54, 0x72, 0x6B, 0x00, 0x00, 0x00, 0x17] + ExamplePayload
  {
    RenderMiddleC();
    assert BigEndian(23, 4) == [0x00, 0x00, 0x00, 0x17];
  }

  lemma MiddleCFile()
    ensures Renderable([[Tempo120, Program0, MiddleCOn, MiddleCOff]])
    ensures SmfBytes([[Tempo120, Program0, MiddleCOn, MiddleCOff]], 480) == [
      0x4D, 0x54, 0x68, 0x64, 0x00, 0x00, 0x00, 0x06,
      0x00, 0x00, 0x00, 0x01, 0x01, 0xE0,
      0x4D, 0x54, 0x72, 0x6B, 0x00, 0x00, 0x00, 0x17] + ExamplePayload
  {
    var events := [Tempo120, Program0, MiddleCOn, MiddleCOff];
    MiddleCChunk();
    OneTrackHeader();
    assert [events][1..] == [];
    assert Chunks([events]) == TrackChunk(events);
  }

  /** `addNote()` with every argument left out: track 0, channel 0, start 0,
      480 ticks long, middle C, velocity 127. */
  method DefaultNote() returns (events: seq<TimedEvent>)
    ensures events == [TimedEvent(0, [0x90, 0x3C, 0x7F]), TimedEvent(480, [0x80, 0x3C, 0x00])]
  {
    var midi := new MidiWriter();
    var added := midi.AddNote();
    assert NoteEvents(0, 0, 480, 60, 127) == [TimedEvent(0, [0x90, 0x3C, 0x7F]), TimedEvent(480, [0x80, 0x3C, 0x00])];
    var none: seq<seq<TimedEvent>> := [];
    assert Extended(none, 0) == [[]];
    assert midi.Contents()[0] == midi.tracks[0].events;
    events := midi.tracks[0].events;
  }

  /** The writer after the demo's tempo, program and first note. */
  method OpeningWriter() returns (midi: MidiWriter)
    ensures fresh(midi) && midi.Valid()
    ensures forall i :: 0 <= i < |midi.tracks| ==> fresh(midi.tracks[i])
    ensures midi.Contents() == [[Tempo120, Program0, MiddleCOn, MiddleCOff]]
  {
    midi := new MidiWriter();
    AddTempo120();
    var tempoAdded := midi.AddBpm(0, 0, 120);
    AddProgram0();
    midi.SetChannel(0, 0);
    AddMiddleC();
    var noteAdded := midi.AddNote(0, 0, 0, 480, 60, 120);
  }

  method SimpleOpening() returns (data: seq<Byte>)
    ensures data == [
      0x4D, 0x54, 0x68, 0x64, 0x00, 0x00, 0x00, 0x06,
      0x00, 0x00, 0x00, 0x01, 0x01, 0xE0,
      0x4D, 0x54, 0x72, 0x6B, 0x00, 0x00, 0x00, 0x17] + ExamplePayload
  {
    var midi := OpeningWriter();
    MiddleCSorted();
    MiddleCFile();
    data := midi.Render();
  }
}
