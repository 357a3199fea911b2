/** `MidiWriter`: the document being built (its tracks, in index order, and
    the program last set on each channel), the operations that add events to
    it, and the computation of the file bytes in `save`. */
module MidiFile {
  import opened Wrappers
  import opened Bytes
  import opened VarLenCodec
  import opened Tracks
  import opened Messages
  import opened SmfLayout

  /** Why `addBPM` or `addNote` printed a warning and returned. */
  datatype Rejection =
    | NegativeTrack
    | NegativeChannel
    | NegativeStart
    | NonPositiveDuration
    | VelocityOutOfRange
    | NonPositiveBpm

  /** What a call did: added its events, was skipped with a warning, or
      raised (`addBPM` only, when `to_bytes(3)` overflows). */
  datatype Outcome = Added | Warned(reason: Rejection) | TempoOverflow

  /** The checks of `addBPM`, in its order; None when all pass. */
  function CheckBpm(track: int, start: int, bpm: int): (r: Option<Rejection>)
    ensures r == None <==> track >= 0 && start >= 0 && bpm > 0
    ensures r == Some(NegativeTrack) <==> track < 0
    ensures r == Some(NegativeStart) <==> track >= 0 && start < 0
    ensures r == Some(NonPositiveBpm) <==> track >= 0 && start >= 0 && bpm <= 0
  {
    if track < 0 then Some(NegativeTrack)
    else if start < 0 then Some(NegativeStart)
    else if bpm <= 0 then Some(NonPositiveBpm)
    else None
  }

  /** The checks of `addNote`, in its order; None when all pass. The pitch
      is never checked. */
  function CheckNote(track: int, channel: int, start: int, duration: int, velocity: int): (r: Option<Rejection>)
    ensures r == None <==>
      track >= 0 && channel >= 0 && start >= 0 && duration > 0 && 0 <= velocity <= 127
    ensures r == Some(NegativeTrack) <==> track < 0
    ensures r == Some(NegativeChannel) <==> track >= 0 && channel < 0
    ensures r == Some(NegativeStart) <==> track >= 0 && channel >= 0 && start < 0
    ensures r == Some(NonPositiveDuration) <==>
      track >= 0 && channel >= 0 && start >= 0 && duration <= 0
    ensures r == Some(VelocityOutOfRange) <==>
      track >= 0 && channel >= 0 && start >= 0 && duration > 0 && !(0 <= velocity <= 127)
  {
    if track < 0 then Some(NegativeTrack)
    else if channel < 0 then Some(NegativeChannel)
    else if start < 0 then Some(NegativeStart)
    else if duration <= 0 then Some(NonPositiveDuration)
    else if !(0 <= velocity <= 127) then Some(VelocityOutOfRange)
    else None
  }

  /** What `addBPM(track, start, bpm)` does. A tempo is added exactly for a valid track and start and at least 4
      beats per minute; 1 to 3 beats per minute raise; otherwise the call is
      skipped with the first reason `CheckBpm` finds. */
  function BpmOutcome(track: int, start: int, bpm: int): (o: Outcome)
    ensures o == Added <==> track >= 0 && start >= 0 && bpm >= 4
    ensures o == TempoOverflow <==> track >= 0 && start >= 0 && 1 <= bpm <= 3
    ensures o.Warned? <==> CheckBpm(track, start, bpm).Some?
  {
    match CheckBpm(track, start, bpm)
    case Some(reason) => Warned(reason)
    case None =>
      TempoFits(bpm);
      if TempoOf(bpm) < 0x100_0000 then Added else TempoOverflow
  }

  /** What `addNote(track, channel, start, duration, pitch, velocity)` does. */
  function NoteOutcome(track: int, channel: int, start: int, duration: int, velocity: int): (o: Outcome)
    ensures o == Added <==>
      track >= 0 && channel >= 0 && start >= 0 && duration > 0 && 0 <= velocity <= 127
    ensures o != TempoOverflow
  {
    match CheckNote(track, channel, start, duration, velocity)
    case Some(reason) => Warned(reason)
    case None => Added
  }

  /** The two events of a note: Note On at `start`, then Note Off at
      `start + duration`, on the same channel and key. */
  function NoteEvents(channel: int, start: int, duration: int, pitch: int, velocity: int)
    : (evs: seq<TimedEvent>)
    ensures |evs| == 2 && evs[0].tick == start && evs[1].tick - evs[0].tick == duration
    ensures |evs[0].data| == 3 && |evs[1].data| == 3
    ensures evs[0].data[0] / 16 == 0x9 && evs[1].data[0] / 16 == 0x8
    ensures evs[0].data[0] % 16 == evs[1].data[0] % 16 && evs[0].data[1] == evs[1].data[1]
  {
    [TimedEvent(start, NoteOn(channel, pitch, velocity)),
     TimedEvent(start + duration, NoteOff(channel, pitch))]
  }

  /** What every event the writer adds satisfies: a tick of at least 0 and
      one framed message. */
  ghost predicate Writable(events: seq<TimedEvent>)
  {
    forall j :: 0 <= j < |events| ==> events[j].tick >= 0 && Framed(events[j].data)
  }

  /** Sorting a track keeps it writable: it only reorders the events. */
  lemma SortByTickWritable(events: seq<TimedEvent>)
    requires Writable(events)
    ensures Writable(SortByTick(events))
  {
    var sorted := SortByTick(events);
    SortByTickPermutes(events);
    forall j | 0 <= j < |sorted| ensures sorted[j].tick >= 0 && Framed(sorted[j].data) {
      assert sorted[j] in multiset(events);
    }
  }

  /** Each track payload of the file `save` writes reads back as that track
      sorted: the same events, in tick order, with their ticks and bytes. */
  lemma SavedPayloadsReadBack(tracks: seq<seq<TimedEvent>>)
    requires forall i :: 0 <= i < |tracks| ==> Writable(tracks[i])
    ensures forall i :: 0 <= i < |tracks| ==>
      ReadEvents(Payload(SortedTracks(tracks)[i]), 0) == Some(SortByTick(tracks[i]))
  {
    forall i | 0 <= i < |tracks|
      ensures ReadEvents(Payload(SortedTracks(tracks)[i]), 0) == Some(SortByTick(tracks[i]))
    {
      SortByTickSorted(tracks[i]);
      SortByTickWritable(tracks[i]);
      PayloadRoundTrip(SortByTick(tracks[i]));
    }
  }

  /** The file `save` writes reads back as its header fields and, track by
      track in index order, the events of the sorted track. */
  lemma SavedFileReadsBack(tracks: seq<seq<TimedEvent>>, division: nat)
    requires Renderable(SortedTracks(tracks)) && division < 0x8000
    requires forall i :: 0 <= i < |tracks| ==> Writable(tracks[i])
    ensures var r := ReadSmf(SmfBytes(SortedTracks(tracks), division));
      r.Some? && r.value.0 == Format(|tracks|) && r.value.1 == |tracks| && r.value.2 == division &&
      |r.value.3| == |tracks| &&
      forall i :: 0 <= i < |tracks| ==> ReadEvents(r.value.3[i], 0) == Some(SortByTick(tracks[i]))
  {
    SmfRoundTrip(SortedTracks(tracks), division);
    SavedPayloadsReadBack(tracks);
  }

  /** `tracks` followed by empty tracks up to `count` tracks in all. */
  function Padded(tracks: seq<seq<TimedEvent>>, count: nat): (r: seq<seq<TimedEvent>>)
    requires |tracks| <= count
    ensures |r| == count && r[..|tracks|] == tracks
    ensures forall k :: |tracks| <= k < count ==> r[k] == []
  {
    tracks + seq(count - |tracks|, _ => [])
  }

  /** One more empty track at the end: one turn of the loop in `_get_track`. */
  lemma PaddedStep(tracks: seq<seq<TimedEvent>>, count: nat)
    requires |tracks| <= count
    ensures Padded(tracks, count + 1) == Padded(tracks, count) + [[]]
  {
  }

  /** The tracks after `_get_track(index)`: as many empty tracks added as
      it takes for `index` to exist. */
  function Extended(tracks: seq<seq<TimedEvent>>, index: nat): (r: seq<seq<TimedEvent>>)
    ensures |r| == if index < |tracks| then |tracks| else index + 1
    ensures r[..|tracks|] == tracks
    ensures forall k :: |tracks| <= k < |r| ==> r[k] == []
  {
    if index < |tracks| then tracks else Padded(tracks, index + 1)
  }

  /** `tracks` with `events` added at the end of track `index`. */
  function AppendedAt(tracks: seq<seq<TimedEvent>>, index: nat, events: seq<TimedEvent>): (r: seq<seq<TimedEvent>>)
    requires index < |tracks|
    ensures |r| == |tracks| && r[index] == tracks[index] + events
    ensures forall k :: 0 <= k < |tracks| && k != index ==> r[k] == tracks[k]
  {
    tracks[index := tracks[index] + events]
  }

  /** The inner loop of `save` for one track: each event's delta-time from
      `prev_tick` and its bytes, then End of Track at delta 0. */
  method EncodeTrackData(events: seq<TimedEvent>) returns (trackData: seq<Byte>)
    ensures trackData == Payload(events)
  {
    trackData := [];
    var prevTick := 0;
    for j := 0 to |events|
      invariant trackData + EventStream(events[j..], prevTick) == EventStream(events, 0)
    {
      var deltaTicks := events[j].tick - prevTick;
      prevTick := events[j].tick;
      var delta := EncodeVarLen(deltaTicks);
      EventStreamAt(events, j, events[j].tick - deltaTicks);
      trackData := trackData + delta + events[j].data;
    }
    assert events[|events|..] == [];
    var endDelta := EncodeVarLen(0);
    trackData := trackData + endDelta + EndOfTrack;
  }

  class MidiWriter {
    const ticksPerQuarter: nat
    var tracks: seq<Track>
    var channelProgram: map<int, int>

    /** Each index holds its own track object, and every event the
        operations add has a tick of at least 0 and is one framed message. */
    ghost predicate Valid()
      reads this, tracks
    {
      ticksPerQuarter == 480 &&
      (forall i, j :: 0 <= i < j < |tracks| ==> tracks[i] != tracks[j]) &&
      (forall i :: 0 <= i < |tracks| ==> Writable(tracks[i].events))
    }

    /** The events of every track, in index order. */
    ghost function Contents(): (c: seq<seq<TimedEvent>>)
      reads this, tracks
      ensures |c| == |tracks|
      ensures forall i :: 0 <= i < |tracks| ==> c[i] == tracks[i].events
    {
      seq(|tracks|, i reads this, tracks requires 0 <= i < |tracks| => tracks[i].events)
    }

    constructor()
      ensures Valid() && fresh(tracks)
      ensures Contents() == [] && channelProgram == map[]
    {
      ticksPerQuarter := 480;
      tracks := [];
      channelProgram := map[];
    }

    /** `addTrack`: appends an empty track and returns its index, the old
        track count. */
    method AddTrack() returns (index: int)
      requires Valid()
      modifies this
      ensures Valid()
      ensures index == old(|tracks|) && |tracks| == index + 1
      ensures tracks == old(tracks) + [tracks[index]] && fresh(tracks[index])
      ensures Contents() == old(Contents()) + [[]]
      ensures channelProgram == old(channelProgram)
    {
      var track := new Track();
      tracks := tracks + [track];
      index := |tracks| - 1;
    }

    /** `_get_track`: adds empty tracks until `index` exists and returns
        that track. Its callers pass 0 or a track index they have checked. */
    method GetTrack(index: int) returns (track: Track)
      requires Valid() && index >= 0
      modifies this
      ensures Valid()
      ensures Contents() == Extended(old(Contents()), index)
      ensures tracks[..old(|tracks|)] == old(tracks)
      ensures forall k :: old(|tracks|) <= k < |tracks| ==> fresh(tracks[k])
      ensures track == tracks[index]
      ensures channelProgram == old(channelProgram)
    {
      ghost var before := Contents();
      ghost var added: seq<Track> := [];
      while index >= |tracks|
        invariant Valid() && tracks == old(tracks) + added
        invariant Contents() == Padded(before, |tracks|)
        invariant |tracks| <= if index < |before| then |before| else index + 1
        invariant forall k :: 0 <= k < |added| ==> fresh(added[k])
        invariant channelProgram == old(channelProgram)
        decreases index - |tracks|
      {
        PaddedStep(before, |tracks|);
        var _ := AddTrack();
        added := added + [tracks[|tracks| - 1]];
      }
      assert tracks[..|before|] == old(tracks);
      track := tracks[index];
    }

    /** `setChannel`: records the program for the channel and adds Program
        Change at tick 0 to track 0, creating it when there is none. Nothing
        is checked: channel and program are masked. */
    method SetChannel(channel: int := 0, program: int := 0)
      requires Valid()
      modifies this, tracks
      ensures Valid()
      ensures channelProgram == old(channelProgram)[channel := program]
      ensures Contents() ==
        AppendedAt(Extended(old(Contents()), 0), 0, [TimedEvent(0, ProgramChange(channel, program))])
      ensures tracks[..old(|tracks|)] == old(tracks)
      ensures forall k :: old(|tracks|) <= k < |tracks| ==> fresh(tracks[k])
    {
      channelProgram := channelProgram[channel := program];
      var track0 := GetTrack(0);
      ghost var extended := Contents();
      track0.AddEvent(0, ProgramChange(channel, program));
      MessagesFramed(channel, 0, 0, program, 0);
      AppendedContents(extended, 0, [TimedEvent(0, ProgramChange(channel, program))]);
    }

    /** `addBPM`: after its checks, adds Set Tempo with the tempo of `bpm`
        at tick `start` to track `track`, creating tracks up to it. A
        rejected call and one that overflows change nothing. */
    method AddBpm(track: int := 0, start: int := 0, bpm: int := 120) returns (outcome: Outcome)
      requires Valid()
      modifies this, tracks
      ensures Valid() && channelProgram == old(channelProgram)
      ensures outcome == BpmOutcome(track, start, bpm)
      ensures outcome != Added ==> tracks == old(tracks) && Contents() == old(Contents())
      ensures outcome == Added ==>
        Contents() == AppendedAt(Extended(old(Contents()), track), track,
                                 [TimedEvent(start, SetTempo(TempoOf(bpm)))]) &&
        tracks[..old(|tracks|)] == old(tracks) &&
        forall k :: old(|tracks|) <= k < |tracks| ==> fresh(tracks[k])
    {
      if track < 0 || start < 0 || bpm <= 0 {
        return Warned(CheckBpm(track, start, bpm).value);
      }
      var tempo := TempoOf(bpm);
      if tempo >= 0x100_0000 {
        return TempoOverflow;
      }
      var metaEvent := SetTempo(tempo);
      var trk := GetTrack(track);
      ghost var extended := Contents();
      trk.AddEvent(start, metaEvent);
      MessagesFramed(0, 0, 0, 0, tempo);
      AppendedContents(extended, track, [TimedEvent(start, metaEvent)]);
      outcome := Added;
    }

    /** `addNote`: after its checks, adds Note On at `start` and Note Off at
        `start + duration` to track `track`, creating tracks up to it. A
        rejected call changes nothing. */
    method AddNote(track: int := 0, channel: int := 0, start: int := 0, duration: int := 480,
                   pitch: int := 60, velocity: int := 127)
      returns (outcome: Outcome)
      requires Valid()
      modifies this, tracks
      ensures Valid() && channelProgram == old(channelProgram)
      ensures outcome == NoteOutcome(track, channel, start, duration, velocity)
      ensures outcome != Added ==> tracks == old(tracks) && Contents() == old(Contents())
      ensures outcome == Added ==>
        Contents() == AppendedAt(Extended(old(Contents()), track), track,
                                 NoteEvents(channel, start, duration, pitch, velocity)) &&
        tracks[..old(|tracks|)] == old(tracks) &&
        forall k :: old(|tracks|) <= k < |tracks| ==> fresh(tracks[k])
    {
      var check := CheckNote(track, channel, start, duration, velocity);
      if check.Some? {
        return Warned(check.value);
      }
      var startTick := start;
      var endTick := start + duration;
      var trk := GetTrack(track);
      ghost var extended := Contents();
      var noteOn := NoteOn(channel, pitch, velocity);
      trk.AddEvent(startTick, noteOn);
      var noteOff := NoteOff(channel, pitch);
      trk.AddEvent(endTick, noteOff);
      MessagesFramed(channel, pitch, velocity, 0, 0);
      AppendedContents(extended, track, NoteEvents(channel, start, duration, pitch, velocity));
      outcome := Added;
    }

    /** The first loop of `save`: `sort_events` on every track. */
    method SortTracks()
      requires Valid()
      modifies tracks
      ensures Valid() && tracks == old(tracks)
      ensures Contents() == SortedTracks(old(Contents()))
    {
      for i := 0 to |tracks|
        invariant Valid()
        invariant forall k :: 0 <= k < i ==> tracks[k].events == SortByTick(old(tracks[k].events))
        invariant forall k :: i <= k < |tracks| ==> tracks[k].events == old(tracks[k].events)
      {
        SortByTickWritable(tracks[i].events);
        tracks[i].SortEvents();
      }
    }

    /** The second loop of `save`: one track chunk per track, in index
        order. */
    method EncodeTrackChunks() returns (trackChunks: seq<Byte>)
      requires PayloadsFit(Contents())
      ensures trackChunks == Chunks(Contents())
    {
      ghost var contents := Contents();
      trackChunks := [];
      for i := 0 to |tracks|
        invariant PayloadsFit(contents[i..])
        invariant trackChunks + Chunks(contents[i..]) == Chunks(contents)
      {
        var trackData := EncodeTrackData(tracks[i].events);
        assert trackData == Payload(contents[i]);
        ChunksSuffix(contents, i);
        var trackChunk := MTrk + BigEndian(|trackData|, 4) + trackData;
        trackChunks := trackChunks + trackChunk;
      }
      assert contents[|tracks|..] == [];
    }

    /** `save` up to the write: sorts every track in place, then builds the
        header chunk and one track chunk per track in index order. */
    method Render() returns (data: seq<Byte>)
      requires Valid() && Renderable(SortedTracks(Contents()))
      modifies tracks
      ensures Valid() && tracks == old(tracks) && channelProgram == old(channelProgram)
      ensures Contents() == SortedTracks(old(Contents()))
      ensures Renderable(Contents()) && data == SmfBytes(Contents(), ticksPerQuarter)
    {
      SortTracks();
      var headerChunk := HeaderChunk(|tracks|, ticksPerQuarter);
      var trackChunks := EncodeTrackChunks();
      data := headerChunk + trackChunks;
    }

    /** What the heap says after events were added to one existing track,
        none of them before tick 0: the document is still valid. */
    lemma AppendedContents(before: seq<seq<TimedEvent>>, index: nat, events: seq<TimedEvent>)
      requires ticksPerQuarter == 480 && (forall i, j :: 0 <= i < j < |tracks| ==> tracks[i] != tracks[j])
      requires index < |before| == |tracks| && Writable(before[index]) && Writable(events)
      requires tracks[index].events == before[index] + events
      requires forall k :: 0 <= k < |tracks| && k != index ==>
        tracks[k].events == before[k] && Writable(before[k])
      ensures Valid() && Contents() == AppendedAt(before, index, events)
    {
    }
  }
}
