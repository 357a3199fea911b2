# A verified model of the MIDI writer

This project models, in Dafny, the Standard MIDI File encoder of
`midi_writer.py`: the `MidiWriter` class and its nested `Track` class.
A `MidiWriter` holds a list of tracks and a map from channel to program.
Its mutators add time-stamped MIDI messages to the tracks:
- `addTrack` and `_get_track` create tracks;
- `setChannel` adds Program Change;
- `addBPM` adds Set Tempo;
- `addNote` adds Note On and Note Off.

`save` sorts every track by tick and builds the file. The file is an `MThd`
header chunk followed by one `MTrk` chunk per track. Each chunk holds its
events as variable-length delta-times and message bytes, closed by End of
Track.

The specification functions and the source lines they compute:

- `VarLenCodec.Groups` and `VarLen`: the bytes of `encode_var_len`
  (midi_writer.py:76-100).
- `Tracks.InsertByTick` and `SortByTick`: the list that
  `events.sort(key=lambda ev: ev[0])` leaves (midi_writer.py:63).
- `Messages.EndOfTrack`: the bytes `FF 2F 00` (midi_writer.py:264).
- `SmfLayout.HeaderChunk`: `header_chunk` (midi_writer.py:241-249).
- `SmfLayout.EventStream` and `Payload`: `track_data` (midi_writer.py:253-264).
- `SmfLayout.TrackChunk`: `track_chunk` (midi_writer.py:267).
- `SmfLayout.Chunks` and `SmfBytes`: `track_chunks` and the bytes written
  (midi_writer.py:252-271).
- `MidiFile.NoteEvents`: the two events `addNote` adds (midi_writer.py:215-226).
- `MidiFile.BpmOutcome` and `NoteOutcome`: which of its paths a call of
  `addBPM` or `addNote` takes (midi_writer.py:154-176, 197-226).

The modules follow the source's parts:

- `Bytes`: bytes and the big-endian fields written by `struct.pack(">h")`,
  `struct.pack(">I")` and `int.to_bytes(3, "big")`.
- `VarLenCodec`: `encode_var_len`. `Groups`/`VarLen` is the specification,
  and `GroupsValue`/`ReadVarLen` decode it. `EncodeVarLen` is the source's
  two loops, over an integer `buffer` of stacked bytes.
- `Tracks`: the `Track` class, an append-only event list sorted in place.
  `SortByTick` is a stable insertion sort that stands for Python's
  `list.sort`. `StableSortIsSortByTick` shows that any sorted, stable
  ordering equals it.
- `Messages`: the channel voice messages, the tempo computation and the Set
  Tempo and End of Track meta events.
- `SmfLayout`: the file layout as functions (header chunk, delta-times,
  track payload, track chunk, the whole file), with readers that recover the
  header fields, the payloads and, from each payload, the timed events.
- `MidiFile`: the `MidiWriter` class. Its methods mirror the source's
  methods and loops. Each mutator's new state is stated through
  `Contents()`, the events of every track in index order, and through the
  functions `Extended` (auto-extension) and `AppendedAt` (an append to one
  track). Its invariant keeps every event at tick 0 or later and one whole
  message, so `SavedFileReadsBack` shows that the saved file reads back as
  the sorted tracks.
- `Example`: a client that does what the opening of the `test_simple` demo
  does: a tempo of 120, program 0 on channel 0, and one quarter-note middle
  C. It proves the 45 bytes that rendering produces.

Four behaviours of the code that a reader might not expect, which the model
follows:

- `encode_var_len` of a negative value returns one byte, `value % 128`.
  The code masks it and the `while value > 0` loop does not run; it does not
  fail.
- The header's format field is 0 for zero tracks as well as for one; the
  code tests `num_tracks > 1`.
- `addNote`'s default velocity is 127, not the 120 that the class's
  documentation lists; a call that leaves out `velocity` writes `0x7F`.
  The defaults of `setChannel`, `addBPM` and `addNote` are the model's
  default parameter values.
- `addBPM` with 1 to 3 beats per minute is not skipped with a warning.
  `to_bytes(3)` raises after the checks, before any change. The model
  returns `TempoOverflow` and changes nothing.

## Model

| member | source | states |
|---|---|---|
| `Bytes.BigEndianRoundTrip` | midi_writer.py:171 | reading back a `width`-byte big-endian field gives the value written |
| `Bytes.FromBigEndianRoundTrip` | midi_writer.py:171 | every byte sequence is the big-endian form of its value, so the field encoding is a bijection |
| `VarLenCodec.VarLenLength` | midi_writer.py:86-99 | the quantity has at least one byte, and exactly one when the value is below 128 |
| `VarLenCodec.VarLenContinuation` | midi_writer.py:86-99 | bit 7 is set on every byte but the last, and clear on the last |
| `VarLenCodec.VarLenSmall` | midi_writer.py:86-99 | a value from 0 to 127, zero included, is written as that single byte |
| `VarLenCodec.GroupsAtMostFour` | midi_writer.py:86-99 | a value below 2^28 takes at most four bytes |
| `VarLenCodec.Groups` | midi_writer.py:86-91 | the 7-bit groups of a non-negative value, read most significant first, give the value back |
| `VarLenCodec.VarLen` | midi_writer.py:76-100 | the bytes of `encode_var_len(value)`; for a value of at least 0, reading their 7-bit groups most significant first gives the value back |
| `VarLenCodec.ReadVarLenRoundTrip` | midi_writer.py:76-100 | a reader that stops at the first byte with bit 7 clear recovers the value and its length, whatever bytes follow |
| `VarLenCodec.StackGroups` | midi_writer.py:86-91 | the first loop leaves the quantity's bytes stacked in `buffer`, the first byte to write lowest |
| `VarLenCodec.UnstackBytes` | midi_writer.py:92-100 | the second loop takes the stacked bytes off the bottom and stops after the one with bit 7 clear, which returns all of them |
| `VarLenCodec.EncodeVarLen` | midi_writer.py:76-100 | `encode_var_len` returns the variable-length quantity of its argument |
| `Tracks.Track.constructor` | midi_writer.py:43-45 | a new track has no events |
| `Tracks.Track.AddEvent` | midi_writer.py:47-54 | `add_event` appends `(tick, event_bytes)` at the end and leaves the earlier events unchanged |
| `Tracks.Track.SortEvents` | midi_writer.py:56-63 | `sort_events` replaces the events by their stable sort on tick |
| `Tracks.SortByTickPermutes` | midi_writer.py:63 | sorting neither drops nor adds an event: the result is a permutation |
| `Tracks.SortByTickSorted` | midi_writer.py:63 | after sorting, ticks never decrease |
| `Tracks.SortByTickStable` | midi_writer.py:63 | the events of each tick keep their insertion order |
| `Tracks.StableSortIsSortByTick` | midi_writer.py:63 | any ordering that is sorted by tick and stable is the one the model's sort gives, so the model agrees with Python's sort |
| `Tracks.SortByTickIdempotent` | midi_writer.py:56-63 | sorting an already sorted track changes nothing |
| `Messages.NoteOn` | midi_writer.py:221 | Note On is `9n kk vv` with channel, key and velocity masked to 4, 7 and 7 bits |
| `Messages.NoteOff` | midi_writer.py:225 | Note Off is `8n kk 00` with channel and key masked |
| `Messages.ProgramChange` | midi_writer.py:139 | Program Change is `Cn pp` with channel and program masked |
| `Messages.TempoOf` | midi_writer.py:169 | the tempo is the whole part of 60000000 / bpm |
| `Messages.TempoFits` | midi_writer.py:169-171 | the tempo fits three bytes exactly when bpm is at least 4 |
| `Messages.SetTempo` | midi_writer.py:171-173 | Set Tempo is `FF 51 03` followed by the tempo as a 3-byte big-endian field |
| `Messages.MessagesFramed` | midi_writer.py:139-225 | each message the writer adds (Program Change, Set Tempo, Note On, Note Off) is one whole message: its status byte, and for a meta event its length byte, give its exact length |
| `Messages.FramedPrefix` | midi_writer.py:259-260 | a message's length is found from its own bytes, whatever bytes follow it in the track |
| `Bytes.BigEndian` | midi_writer.py:171 | a big-endian field of `width` bytes, as `to_bytes(width, "big")` and `struct.pack` write it, has exactly `width` bytes |
| `SmfLayout.HeaderChunk` | midi_writer.py:241-249 | `header_chunk` is 14 bytes; `HeaderFields` states each field |
| `SmfLayout.HeaderFields` | midi_writer.py:241-249 | the header is 14 bytes: "MThd", length 6, format 1 exactly for more than one track, the track count and the division |
| `SmfLayout.DeltasRoundTrip` | midi_writer.py:255-258 | adding the delta-times up from `prev_tick` gives the absolute ticks back |
| `SmfLayout.DeltasNonNegative` | midi_writer.py:255-258 | with ticks in order and none before `prev_tick`, no delta-time is negative |
| `SmfLayout.SortedDeltasNonNegative` | midi_writer.py:237-258 | once `save` has sorted tracks whose ticks are at least 0, every delta-time it computes is at least 0 |
| `SmfLayout.EventStream` | midi_writer.py:255-260 | each event as its delta-time then its bytes, at least one byte per event |
| `SmfLayout.EventStreamOfDeltas` | midi_writer.py:256-259 | the delta-times in the stream are exactly `Deltas`, the values whose signs `SortedDeltasNonNegative` bounds |
| `SmfLayout.Payload` | midi_writer.py:253-264 | `track_data` is the event stream then End of Track at delta 0, at least 4 bytes more than there are events |
| `SmfLayout.TrackChunk` | midi_writer.py:267 | `track_chunk` is 8 bytes longer than its payload; `TrackChunkFields` states its fields |
| `SmfLayout.Chunks` | midi_writer.py:252-268 | `track_chunks` has at least 12 bytes per track |
| `SmfLayout.SmfBytes` | midi_writer.py:241-271 | the bytes `save` writes: at least the 14-byte header and 12 bytes per track |
| `SmfLayout.TrackChunkFields` | midi_writer.py:262-267 | a track chunk is "MTrk", a length field equal to the bytes after it, and ends with End of Track at delta 0 |
| `SmfLayout.ChunksSuffix` | midi_writer.py:251-268 | the track chunks are written one per track, in index order |
| `SmfLayout.SecondSaveIdentical` | midi_writer.py:237-271 | a second `save` with nothing added sorts nothing and writes the same bytes |
| `SmfLayout.ReadStepEvent` | midi_writer.py:255-260 | after a delta-time written for an event, a reader recovers that event's tick and bytes and the number of bytes it used |
| `SmfLayout.ReadEventsRoundTrip` | midi_writer.py:254-264 | reading sorted, framed events written as delta-times and bytes, up to End of Track, gives back exactly those events |
| `SmfLayout.PayloadRoundTrip` | midi_writer.py:252-264 | a track payload built from sorted, framed events with ticks of at least 0 reads back as those events |
| `SmfLayout.ReadTrackChunksRoundTrip` | midi_writer.py:251-268 | following the length fields splits the track chunks back into each track's payload |
| `SmfLayout.SmfRoundTrip` | midi_writer.py:241-271 | reading the file back gives the format, the track count, the division and every payload in index order |
| `MidiFile.CheckBpm` | midi_writer.py:154-164 | `addBPM` rejects exactly a negative track, a negative start or a bpm of 0 or less, the track check first |
| `MidiFile.CheckNote` | midi_writer.py:197-213 | `addNote` rejects exactly a negative track, channel or start, a duration of 0 or less, or a velocity outside 0 to 127, in that order |
| `MidiFile.BpmOutcome` | midi_writer.py:154-176 | `addBPM` adds a tempo exactly for a valid track and start and at least 4 bpm, raises exactly for 1 to 3 bpm, and otherwise warns exactly when `CheckBpm` finds a reason |
| `MidiFile.NoteOutcome` | midi_writer.py:197-226 | `addNote` adds its events exactly for a non-negative track, channel and start, a positive duration and a velocity from 0 to 127; it never raises |
| `MidiFile.NoteEvents` | midi_writer.py:215-226 | a note is two events: Note On at `start`, then Note Off `duration` ticks later, on the same channel and key |
| `MidiFile.SortByTickWritable` | midi_writer.py:237-239 | sorting a track keeps every tick at 0 or later and every message whole |
| `MidiFile.SavedPayloadsReadBack` | midi_writer.py:237-268 | each track payload `save` writes reads back as the sorted events of that track |
| `MidiFile.SavedFileReadsBack` | midi_writer.py:228-271 | the file `save` writes reads back as its format, track count, division and, track by track, the sorted events |
| `MidiFile.Extended` | midi_writer.py:112-121 | after `_get_track(i)` there are max(old count, i + 1) tracks, the old ones unchanged and the new ones empty |
| `MidiFile.EncodeTrackData` | midi_writer.py:254-264 | the inner loop of `save` builds the track payload: each event's delta-time and bytes, then `00 FF 2F 00` |
| `MidiFile.MidiWriter.constructor` | midi_writer.py:65-74 | a new writer has 480 ticks per quarter, no tracks and no channel programs |
| `MidiFile.MidiWriter.AddTrack` | midi_writer.py:102-110 | `addTrack` appends one new empty track and returns the old track count |
| `MidiFile.MidiWriter.GetTrack` | midi_writer.py:112-121 | `_get_track` extends the tracks with new empty ones up to the index and returns the track at that index |
| `MidiFile.MidiWriter.SetChannel` | midi_writer.py:123-140 | `setChannel` records the program and appends Program Change at tick 0 to track 0, creating it if needed; it never rejects |
| `MidiFile.MidiWriter.AddBpm` | midi_writer.py:142-176 | `addBPM` either changes nothing (rejected or overflowing) or appends exactly one Set Tempo at `start` to the auto-extended track |
| `MidiFile.MidiWriter.AddNote` | midi_writer.py:178-226 | `addNote` either changes nothing or appends exactly Note On at `start` then Note Off at `start + duration` to the auto-extended track |
| `MidiFile.MidiWriter.SortTracks` | midi_writer.py:237-239 | the first loop of `save` sorts every track in place and keeps the same track objects |
| `MidiFile.MidiWriter.EncodeTrackChunks` | midi_writer.py:251-268 | the track loop of `save` produces the track chunks of all tracks in index order |
| `MidiFile.MidiWriter.Render` | midi_writer.py:228-271 | `save` leaves every track sorted and builds the header chunk followed by every track chunk |
| `Example.DefaultNote` | midi_writer.py:178 | `addNote()` with every argument left out adds middle C at tick 0 with velocity 127 and its Note Off 480 ticks later on track 0 |
| `Example.SimpleOpening` | midi_writer.py:287-301 | a writer given tempo 120, program 0 on channel 0 and one quarter-note middle C renders exactly the expected 45 bytes |

## Left out

- The file write in `save` (`open` and `f.write`) is I/O. `Render` returns the bytes instead.
- The warning `print`s on the rejection paths are console output. A rejected call returns `Warned` with the reason and changes nothing.
- The `main` demo compositions, `midi_test.py`, `program_mapping.py` and `drum_mapping.py` only call the encoder or hold name tables. They are not part of this model.
- Arguments are `int`. Float or other non-integer `start`, `duration` and `bpm`, and the `int(...)` coercions of them, are not modelled. For a positive integer `bpm`, `int(60000000 / bpm)` equals integer division, which is what `TempoOf` computes.
- MidiFile.MidiWriter.Render: requires at most 32767 tracks and every payload below 2^32 bytes. Beyond these, `struct.pack(">h")` and `struct.pack(">I")` raise, and the model does not capture those exceptions.
- MidiFile.MidiWriter.GetTrack: requires a non-negative index. Every caller checks its track first or passes 0. With a negative index, Python indexes from the end of the list, or raises IndexError when the index is below `-len(tracks)`, as it is for every negative index while there are no tracks.
- Python's `list.sort` is not modelled directly. It is replaced by `SortByTick`, and `StableSortIsSortByTick` shows that every stable sort by tick gives the same list.
- Aliasing between tracks: the model requires each index to hold its own `Track` object, which every operation preserves. The source never shares a track object between indices.
