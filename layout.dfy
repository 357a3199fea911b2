/** The byte layout `save` builds, following the "Header Chunks" and "Track
    Chunks" sections of the Standard MIDI Files 1.0 specification: a header
    chunk, then one track chunk per track in index order, each track chunk
    holding its events as (delta-time, message) pairs closed by End of Track. */
module SmfLayout {
  import opened Wrappers
  import opened Bytes
  import opened VarLenCodec
  import opened Tracks
  import opened Messages

  const MThd: seq<Byte> := [0x4D, 0x54, 0x68, 0x64]  // "MThd"
  const MTrk: seq<Byte> := [0x4D, 0x54, 0x72, 0x6B]  // "MTrk"

  /** Format 1 (several simultaneous tracks) for more than one track, format
      0 otherwise, no tracks at all included. */
  function Format(numTracks: nat): nat
  {
    if numTracks > 1 then 1 else 0
  }

  /** "MThd", the length 6, then format, track count and division packed
      with `">hhh"`; below 0x8000 these signed fields are the unsigned ones. */
  function HeaderChunk(numTracks: nat, division: nat): (h: seq<Byte>)
    requires numTracks < 0x8000 && division < 0x8000
    ensures |h| == 14
  {
    MThd + BigEndian(6, 4) + BigEndian(Format(numTracks), 2)
      + BigEndian(numTracks, 2) + BigEndian(division, 2)
  }

  /** The header's fields read back: 14 bytes, the chunk type, length 6,
      format 1 exactly for more than one track, the count and the division. */
  lemma HeaderFields(numTracks: nat, division: nat)
    requires numTracks < 0x8000 && division < 0x8000
    ensures var h := HeaderChunk(numTracks, division);
      |h| == 14 && h[..4] == MThd && FromBigEndian(h[4..8]) == 6 &&
      FromBigEndian(h[8..10]) == (if numTracks > 1 then 1 else 0) &&
      FromBigEndian(h[10..12]) == numTracks && FromBigEndian(h[12..14]) == division
  {
    var h := HeaderChunk(numTracks, division);
    var length, format, count, ticks :=
      BigEndian(6, 4), BigEndian(Format(numTracks), 2), BigEndian(numTracks, 2), BigEndian(division, 2);
    assert h == MThd + length + format + count + ticks;
    assert h[4..8] == length;
    assert h[8..10] == format;
    assert h[10..12] == count;
    assert h[12..14] == ticks;
    BigEndianRoundTrip(6, 4);
    BigEndianRoundTrip(Format(numTracks), 2);
    BigEndianRoundTrip(numTracks, 2);
    BigEndianRoundTrip(division, 2);
  }

  /** The delta-time of each event: its tick minus the tick of the event
      before it, the first one's minus `prev`. */
  function Deltas(events: seq<TimedEvent>, prev: int): (d: seq<int>)
    ensures |d| == |events|
  {
    if events == [] then [] else [events[0].tick - prev] + Deltas(events[1..], events[0].tick)
  }

  function Ticks(events: seq<TimedEvent>): (ts: seq<int>)
  {
    if events == [] then [] else [events[0].tick] + Ticks(events[1..])
  }

  /** Running sums of `deltas` from `start`: what a reader of the file adds
      up to get absolute ticks back. */
  function Accumulated(deltas: seq<int>, start: int): seq<int>
  {
    if deltas == [] then [] else [start + deltas[0]] + Accumulated(deltas[1..], start + deltas[0])
  }

  /** Adding the delta-times up from the starting tick gives the ticks. */
  lemma {:induction false} DeltasRoundTrip(events: seq<TimedEvent>, prev: int)
    ensures Accumulated(Deltas(events, prev), prev) == Ticks(events)
  {
    if events != [] {
      DeltasRoundTrip(events[1..], events[0].tick);
    }
  }

  /** With ticks in order and none before `prev`, no delta-time is negative. */
  lemma {:induction false} DeltasNonNegative(events: seq<TimedEvent>, prev: int)
    requires SortedByTick(events)
    requires forall i :: 0 <= i < |events| ==> prev <= events[i].tick
    ensures forall i :: 0 <= i < |events| ==> Deltas(events, prev)[i] >= 0
  {
    if events != [] {
      DeltasNonNegative(events[1..], events[0].tick);
      forall i | 0 <= i < |events| ensures Deltas(events, prev)[i] >= 0 {
        if i > 0 {
          assert Deltas(events, prev)[i] == Deltas(events[1..], events[0].tick)[i - 1];
        }
      }
    }
  }

  /** Each event in turn as its delta-time, counted from `prev`, followed by
      its message bytes. */
  function EventStream(events: seq<TimedEvent>, prev: int): (s: seq<Byte>)
    ensures |s| >= |events|
  {
    if events == [] then []
    else VarLen(events[0].tick - prev) + events[0].data + EventStream(events[1..], events[0].tick)
  }

  /** The stream from event `j` on: event `j`'s delta-time and bytes, then
      the stream of the events after it, counted from event `j`'s tick. */
  lemma EventStreamAt(events: seq<TimedEvent>, j: nat, prev: int)
    requires j < |events|
    ensures EventStream(events[j..], prev)
         == VarLen(events[j].tick - prev) + events[j].data + EventStream(events[j + 1..], events[j].tick)
  {
    assert events[j..][1..] == events[j + 1..];
  }

  /** Each delta-time of `deltas` as a variable-length quantity, followed by
      the bytes of the event at the same position. */
  function Interleaved(deltas: seq<int>, events: seq<TimedEvent>): (s: seq<Byte>)
    requires |deltas| == |events|
    ensures |s| >= |events|
  {
    if events == [] then [] else VarLen(deltas[0]) + events[0].data + Interleaved(deltas[1..], events[1..])
  }

  /** The delta-times in the event stream are exactly `Deltas`: the stream
      writes `Deltas(events, prev)[i]` before the bytes of `events[i]`. */
  lemma {:induction false} EventStreamOfDeltas(events: seq<TimedEvent>, prev: int)
    ensures EventStream(events, prev) == Interleaved(Deltas(events, prev), events)
  {
    if events != [] {
      EventStreamOfDeltas(events[1..], events[0].tick);
      assert Deltas(events, prev)[1..] == Deltas(events[1..], events[0].tick);
    }
  }

  /** A track chunk's contents: the events, then End of Track at delta 0. */
  function Payload(events: seq<TimedEvent>): (p: seq<Byte>)
    ensures |p| >= 4 + |events|
  {
    EventStream(events, 0) + VarLen(0) + EndOfTrack
  }

  /** "MTrk", the payload's length as a 32-bit big-endian field (`">I"`),
      and the payload. */
  function TrackChunk(events: seq<TimedEvent>): (c: seq<Byte>)
    requires |Payload(events)| < 0x1_0000_0000
    ensures |c| == 8 + |Payload(events)|
  {
    MTrk + BigEndian(|Payload(events)|, 4) + Payload(events)
  }

  /** A track chunk read back: its type, a length field equal to the number
      of bytes after it, and the End of Track event at delta 0 last. */
  lemma TrackChunkFields(events: seq<TimedEvent>)
    requires |Payload(events)| < 0x1_0000_0000
    ensures var c := TrackChunk(events);
      |c| >= 12 && c[..4] == MTrk && FromBigEndian(c[4..8]) == |c| - 8 &&
      c[|c| - 4..] == [0x00, 0xFF, 0x2F, 0x00]
  {
    var p := Payload(events);
    var c := TrackChunk(events);
    VarLenSmall(0);
    assert c[4..8] == BigEndian(|p|, 4);
    BigEndianRoundTrip(|p|, 4);
    assert c[|c| - 4..] == p[|p| - 4..];
  }

  /** Every payload fits its 32-bit length field. */
  ghost predicate PayloadsFit(tracks: seq<seq<TimedEvent>>)
  {
    forall i :: 0 <= i < |tracks| ==> |Payload(tracks[i])| < 0x1_0000_0000
  }

  /** What `struct.pack` can write: fewer than 0x8000 tracks (`">h"`) and
      payloads that fit `">I"`. */
  ghost predicate Renderable(tracks: seq<seq<TimedEvent>>)
  {
    |tracks| < 0x8000 && PayloadsFit(tracks)
  }

  /** The track chunks of `tracks`, in index order. */
  function Chunks(tracks: seq<seq<TimedEvent>>): (cs: seq<Byte>)
    requires PayloadsFit(tracks)
    ensures |cs| >= 12 * |tracks|
  {
    if tracks == [] then [] else TrackChunk(tracks[0]) + Chunks(tracks[1..])
  }

  /** The chunks from track `i` on are track `i`'s chunk followed by those
      from track `i + 1` on: the loop of `save` writes them in this order. */
  lemma ChunksSuffix(tracks: seq<seq<TimedEvent>>, i: nat)
    requires PayloadsFit(tracks) && i < |tracks|
    ensures PayloadsFit(tracks[i..]) && PayloadsFit(tracks[i + 1..])
    ensures |Payload(tracks[i])| < 0x1_0000_0000
    ensures Chunks(tracks[i..])
         == MTrk + BigEndian(|Payload(tracks[i])|, 4) + Payload(tracks[i]) + Chunks(tracks[i + 1..])
  {
    assert forall k :: 0 <= k < |tracks[i..]| ==> tracks[i..][k] == tracks[i + k];
    assert tracks[i..][1..] == tracks[i + 1..];
  }

  /** The whole file `save` writes: `header_chunk + track_chunks`. */
  function SmfBytes(tracks: seq<seq<TimedEvent>>, division: nat): (bs: seq<Byte>)
    requires Renderable(tracks) && division < 0x8000
    ensures |bs| >= 14 + 12 * |tracks|
  {
    HeaderChunk(|tracks|, division) + Chunks(tracks)
  }

  /** Every track sorted, as `save` leaves them before writing. */
  function SortedTracks(tracks: seq<seq<TimedEvent>>): (sorted: seq<seq<TimedEvent>>)
    ensures |sorted| == |tracks|
  {
    seq(|tracks|, i requires 0 <= i < |tracks| => SortByTick(tracks[i]))
  }

  /** `save` sorts the tracks in place, so a second `save` with nothing
      added in between sorts sorted tracks and writes the same bytes. */
  lemma SecondSaveIdentical(tracks: seq<seq<TimedEvent>>, division: nat)
    requires Renderable(SortedTracks(tracks)) && division < 0x8000
    ensures SortedTracks(SortedTracks(tracks)) == SortedTracks(tracks)
    ensures SmfBytes(SortedTracks(SortedTracks(tracks)), division)
         == SmfBytes(SortedTracks(tracks), division)
  {
    forall i | 0 <= i < |tracks|
      ensures SortedTracks(SortedTracks(tracks))[i] == SortedTracks(tracks)[i]
    {
      SortByTickIdempotent(tracks[i]);
    }
  }

  /** When no event has a negative tick, every delta-time `save` computes is
      non-negative: each track is sorted, and `prev_tick` starts at 0. */
  lemma SortedDeltasNonNegative(tracks: seq<seq<TimedEvent>>)
    requires forall i, j :: 0 <= i < |tracks| && 0 <= j < |tracks[i]| ==> tracks[i][j].tick >= 0
    ensures forall i, j :: 0 <= i < |tracks| && 0 <= j < |SortedTracks(tracks)[i]| ==>
      Deltas(SortedTracks(tracks)[i], 0)[j] >= 0
  {
    forall i | 0 <= i < |tracks|
      ensures forall j :: 0 <= j < |SortedTracks(tracks)[i]| ==> Deltas(SortedTracks(tracks)[i], 0)[j] >= 0
    {
      var sorted := SortByTick(tracks[i]);
      SortByTickSorted(tracks[i]);
      SortByTickPermutes(tracks[i]);
      forall j | 0 <= j < |sorted| ensures 0 <= sorted[j].tick {
        assert sorted[j] in multiset(tracks[i]);
        var k :| 0 <= k < |tracks[i]| && tracks[i][k] == sorted[j];
      }
      DeltasNonNegative(sorted, 0);
    }
  }

  /** What the next bytes of a payload hold: End of Track, an event that
      takes `used` bytes, or nothing readable. */
  datatype Step = Unreadable | EndReached | EventRead(event: TimedEvent, used: nat)

  /** Reads a delta-time and the message after it, whose length its status
      byte gives; the tick is the delta added to `prev`. End of Track must
      come at delta 0 and end the bytes. */
  function ReadStep(bs: seq<Byte>, prev: int): (r: Step)
    ensures r.EventRead? ==> 0 < r.used <= |bs|
  {
    match ReadVarLen(bs)
    case None => Unreadable
    case Some((delta, k)) =>
      var body := bs[k..];
      if body == EndOfTrack then (if delta == 0 then EndReached else Unreadable)
      else
        var n := MessageLength(body);
        if n == 0 || n > |body| then Unreadable
        else EventRead(TimedEvent(prev + delta, body[..n]), k + n)
  }

  /** Reads a track payload back into its events, step by step, until End
      of Track; None when a quantity or a message is cut short, a status is
      not one the writer emits, or End of Track is missing or misplaced. */
  function ReadEvents(bs: seq<Byte>, prev: int): Option<seq<TimedEvent>>
    decreases |bs|
  {
    match ReadStep(bs, prev)
    case Unreadable => None
    case EndReached => Some([])
    case EventRead(e, used) =>
      match ReadEvents(bs[used..], e.tick)
      case None => None
      case Some(rest) => Some([e] + rest)
  }

  /** Events in tick order, none before `prev`, each one framed message. */
  ghost predicate Readable(events: seq<TimedEvent>, prev: int)
  {
    SortedByTick(events) &&
    forall i :: 0 <= i < |events| ==> prev <= events[i].tick && Framed(events[i].data)
  }

  /** End of Track at delta 0 ends the payload. */
  lemma ReadEventsEnd(prev: int)
    ensures ReadEvents(VarLen(0) + EndOfTrack, prev) == Some([])
  {
    VarLenSmall(0);
    ReadVarLenRoundTrip(0, EndOfTrack);
    assert (VarLen(0) + EndOfTrack)[1..] == EndOfTrack;
  }

  /** A delta-time, then a framed message followed by more than End of
      Track's three bytes, reads as one event. */
  lemma ReadStepEvent(prev: int, e: TimedEvent, tail: seq<Byte>)
    requires prev <= e.tick && Framed(e.data) && |tail| > 3
    ensures ReadStep(VarLen(e.tick - prev) + (e.data + tail), prev)
         == EventRead(e, |VarLen(e.tick - prev)| + |e.data|)
  {
    var delta: nat := e.tick - prev;
    var bs := VarLen(delta) + (e.data + tail);
    var body := e.data + tail;
    ReadVarLenRoundTrip(delta, body);
    assert bs[|VarLen(delta)|..] == body;
    assert body != EndOfTrack by { assert |body| > |EndOfTrack|; }
    FramedPrefix(e.data, tail);
    assert body[..|e.data|] == e.data;
  }

  /** When the next bytes hold an event, the events read are that event
      followed by those read after it. */
  lemma ReadEventsUnfold(bs: seq<Byte>, prev: int, e: TimedEvent, used: nat, rest: seq<Byte>)
    requires ReadStep(bs, prev) == EventRead(e, used) && used <= |bs| && bs[used..] == rest
    ensures ReadEvents(bs, prev) == Prepend(e, ReadEvents(rest, e.tick))
  {
  }

  /** `e` in front of the events read after it, when those could be read. */
  function Prepend(e: TimedEvent, rest: Option<seq<TimedEvent>>): Option<seq<TimedEvent>>
  {
    if rest.None? then None else Some([e] + rest.value)
  }

  lemma DropFront(a: seq<Byte>, b: seq<Byte>, c: seq<Byte>)
    ensures (a + (b + c))[|a| + |b|..] == c
  {
  }

  /** The events read from an event's bytes followed by `tail`: that event,
      then whatever `tail` reads as. */
  lemma ReadEventsCons(prev: int, e: TimedEvent, tail: seq<Byte>)
    requires prev <= e.tick && Framed(e.data) && |tail| > 3
    ensures ReadEvents(VarLen(e.tick - prev) + (e.data + tail), prev)
         == Prepend(e, ReadEvents(tail, e.tick))
  {
    var q := VarLen(e.tick - prev);
    DropFront(q, e.data, tail);
    ReadStepEvent(prev, e, tail);
    ReadEventsUnfold(q + (e.data + tail), prev, e, |q| + |e.data|, tail);
  }

  /** The bytes of a non-empty event list and End of Track: the first
      event's delta-time and message, then the bytes of the rest. */
  lemma StreamFront(events: seq<TimedEvent>, prev: int, tail: seq<Byte>)
    requires events != []
    requires tail == EventStream(events[1..], events[0].tick) + VarLen(0) + EndOfTrack
    ensures |tail| > 3
    ensures EventStream(events, prev) + VarLen(0) + EndOfTrack
         == VarLen(events[0].tick - prev) + (events[0].data + tail)
  {
    VarLenLength(0);
  }

  /** One step of the round trip: when the bytes after an event read back
      as `rest`, the event's bytes and those read back as `[e] + rest`. */
  lemma ReadEventsStep(e: TimedEvent, rest: seq<TimedEvent>, prev: int, tail: seq<Byte>, whole: seq<Byte>)
    requires prev <= e.tick && Framed(e.data) && |tail| > 3
    requires whole == VarLen(e.tick - prev) + (e.data + tail)
    requires ReadEvents(tail, e.tick) == Some(rest)
    ensures ReadEvents(whole, prev) == Some([e] + rest)
  {
    ReadEventsCons(prev, e, tail);
  }

  /** Reading the events and End of Track back gives the events: ticks from
      the delta-times, messages from their status bytes. */
  lemma {:induction false} ReadEventsRoundTrip(events: seq<TimedEvent>, prev: int)
    requires Readable(events, prev)
    ensures ReadEvents(EventStream(events, prev) + VarLen(0) + EndOfTrack, prev) == Some(events)
  {
    if events == [] {
      ReadEventsEnd(prev);
    } else {
      var e := events[0];
      var tail := EventStream(events[1..], e.tick) + VarLen(0) + EndOfTrack;
      StreamFront(events, prev, tail);
      assert Readable(events[1..], e.tick);
      ReadEventsRoundTrip(events[1..], e.tick);
      ReadEventsStep(e, events[1..], prev, tail, EventStream(events, prev) + VarLen(0) + EndOfTrack);
      assert [e] + events[1..] == events;
    }
  }

  /** A track payload `save` writes for a sorted track of framed messages at
      ticks of at least 0 reads back as that track. */
  lemma PayloadRoundTrip(events: seq<TimedEvent>)
    requires Readable(events, 0)
    ensures ReadEvents(Payload(events), 0) == Some(events)
  {
    ReadEventsRoundTrip(events, 0);
  }

  /** Splits a run of track chunks into their payloads by each chunk's type
      and length field; None when a chunk is not "MTrk" or is cut short. */
  function ReadTrackChunks(bs: seq<Byte>): Option<seq<seq<Byte>>>
    decreases |bs|
  {
    if bs == [] then Some([])
    else if |bs| < 8 || bs[..4] != MTrk then None
    else
      var length := FromBigEndian(bs[4..8]);
      if |bs| < 8 + length then None
      else
        match ReadTrackChunks(bs[8 + length..])
        case None => None
        case Some(rest) => Some([bs[8..8 + length]] + rest)
  }

  function Payloads(tracks: seq<seq<TimedEvent>>): (ps: seq<seq<Byte>>)
    ensures |ps| == |tracks|
  {
    seq(|tracks|, i requires 0 <= i < |tracks| => Payload(tracks[i]))
  }

  /** A reader that follows the length fields finds every track's payload. */
  lemma {:induction false} ReadTrackChunksRoundTrip(tracks: seq<seq<TimedEvent>>)
    requires PayloadsFit(tracks)
    ensures ReadTrackChunks(Chunks(tracks)) == Some(Payloads(tracks))
  {
    if tracks != [] {
      var c := TrackChunk(tracks[0]);
      var p := Payload(tracks[0]);
      var bs := Chunks(tracks);
      assert PayloadsFit(tracks[1..]) by {
        assert forall i :: 0 <= i < |tracks| - 1 ==> tracks[1..][i] == tracks[i + 1];
      }
      ReadTrackChunksRoundTrip(tracks[1..]);
      TrackChunkFields(tracks[0]);
      assert bs == c + Chunks(tracks[1..]);
      assert bs[..4] == MTrk && bs[4..8] == c[4..8];
      assert bs[8..8 + |p|] == p;
      assert bs[8 + |p|..] == Chunks(tracks[1..]);
      assert Payloads(tracks) == [p] + Payloads(tracks[1..]);
    }
  }

  /** Reads a file: the header's format, track count and division, and the
      payload of each track chunk; None when the header is not an "MThd"
      chunk of length 6 or the chunks that follow cannot be read. */
  function ReadSmf(bs: seq<Byte>): Option<(nat, nat, nat, seq<seq<Byte>>)>
  {
    if |bs| < 14 || bs[..4] != MThd || FromBigEndian(bs[4..8]) != 6 then None
    else
      match ReadTrackChunks(bs[14..])
      case None => None
      case Some(payloads) =>
        Some((FromBigEndian(bs[8..10]), FromBigEndian(bs[10..12]), FromBigEndian(bs[12..14]), payloads))
  }

  /** Reading the file back gives the format, the number of tracks, the
      division and each track's payload, in index order. */
  lemma SmfRoundTrip(tracks: seq<seq<TimedEvent>>, division: nat)
    requires Renderable(tracks) && division < 0x8000
    ensures ReadSmf(SmfBytes(tracks, division))
         == Some((Format(|tracks|), |tracks|, division, Payloads(tracks)))
  {
    var bs := SmfBytes(tracks, division);
    var h := HeaderChunk(|tracks|, division);
    HeaderFields(|tracks|, division);
    ReadTrackChunksRoundTrip(tracks);
    assert bs[..14] == h;
    assert bs[14..] == Chunks(tracks);
    assert bs[4..8] == h[4..8] && bs[8..10] == h[8..10];
    assert bs[10..12] == h[10..12] && bs[12..14] == h[12..14];
  }
}
