/** The bytes of the messages the writer emits: the MIDI 1.0 channel voice
    messages Note On, Note Off and Program Change, and the Set Tempo and End
    of Track meta events of the Standard MIDI Files 1.0 specification.
    `x & 0x0F` and `x & 0x7F` on Python's integers are `x % 16` and
    `x % 128`, negative `x` included; or-ing a channel below 16 into a status
    byte whose low nibble is clear adds it. */
module Messages {
  import opened Bytes

  /** Note On, `9n kk vv`. */
  function NoteOn(channel: int, pitch: int, velocity: int): (m: seq<Byte>)
    ensures |m| == 3 && m[0] / 16 == 0x9 && m[0] % 16 == channel % 16
    ensures m[1] == pitch % 128 && m[2] == velocity % 128
  {
    [0x90 + channel % 16, pitch % 128, velocity % 128]
  }

  /** Note Off, `8n kk 00`. */
  function NoteOff(channel: int, pitch: int): (m: seq<Byte>)
    ensures |m| == 3 && m[0] / 16 == 0x8 && m[0] % 16 == channel % 16
    ensures m[1] == pitch % 128 && m[2] == 0
  {
    [0x80 + channel % 16, pitch % 128, 0]
  }

  /** Program Change, `Cn pp`. */
  function ProgramChange(channel: int, program: int): (m: seq<Byte>)
    ensures |m| == 2 && m[0] / 16 == 0xC && m[0] % 16 == channel % 16
    ensures m[1] == program % 128
  {
    [0xC0 + channel % 16, program % 128]
  }

  /** Microseconds per quarter note at `bpm` beats per minute: the whole
      part of 60000000 / bpm, which is what `int(60000000 / bpm)` gives for
      a positive integer `bpm` (the float quotient is never close enough to
      the next integer to round up to it). */
  function TempoOf(bpm: int): (tempo: nat)
    requires bpm > 0
    ensures tempo * bpm <= 60000000 < (tempo + 1) * bpm
  {
    60000000 / bpm
  }

  /** The tempo fits the three bytes of Set Tempo exactly when there are at
      least 4 beats per minute; for 1 to 3 `to_bytes(3)` overflows. */
  lemma TempoFits(bpm: int)
    requires bpm > 0
    ensures TempoOf(bpm) < 0x100_0000 <==> bpm >= 4
  {
    var tempo := TempoOf(bpm);
    if bpm >= 4 {
      MulMonotone(tempo, 4, bpm);
      assert tempo * 4 <= 60000000;
    } else {
      MulMonotone(tempo + 1, bpm, 3);
      assert 60000000 < (tempo + 1) * 3;
    }
  }

  lemma MulMonotone(a: nat, b: int, c: int)
    requires b <= c
    ensures a * b <= a * c
  {
  }

  /** Set Tempo, `FF 51 03 tt tt tt`. */
  function SetTempo(tempo: nat): (m: seq<Byte>)
    requires tempo < 0x100_0000
    ensures |m| == 6 && m[..3] == [0xFF, 0x51, 0x03] && FromBigEndian(m[3..]) == tempo
  {
    var m := [0xFF, 0x51, 0x03] + BigEndian(tempo, 3);
    BigEndianRoundTrip(tempo, 3);
    assert m[3..] == BigEndian(tempo, 3);
    m
  }

  /** End of Track, `FF 2F 00`. */
  const EndOfTrack: seq<Byte> := [0xFF, 0x2F, 0x00]

  /** The length of the message at the front of `bs`, read from its status
      byte: 3 for Note Off and Note On, 2 for Program Change, and for a meta
      event `FF tt ll` its three leading bytes plus `ll`; 0 when the status
      is none of these. */
  function MessageLength(bs: seq<Byte>): nat
  {
    if bs == [] then 0
    else if bs[0] / 16 == 0x8 || bs[0] / 16 == 0x9 then 3
    else if bs[0] / 16 == 0xC then 2
    else if bs[0] == 0xFF && |bs| >= 3 then 3 + bs[2] as int
    else 0
  }

  /** `bs` is one whole message whose length its own leading bytes give. */
  ghost predicate Framed(bs: seq<Byte>)
  {
    bs != [] && MessageLength(bs) == |bs|
  }

  /** A framed message is recognised whatever bytes follow it. */
  lemma FramedPrefix(bs: seq<Byte>, rest: seq<Byte>)
    requires Framed(bs)
    ensures MessageLength(bs + rest) == |bs|
  {
    assert (bs + rest)[0] == bs[0];
    if |bs| >= 3 {
      assert (bs + rest)[2] == bs[2];
    }
  }

  /** Every message the writer emits is framed. */
  lemma MessagesFramed(channel: int, pitch: int, velocity: int, program: int, tempo: nat)
    requires tempo < 0x100_0000
    ensures Framed(NoteOn(channel, pitch, velocity)) && Framed(NoteOff(channel, pitch))
    ensures Framed(ProgramChange(channel, program)) && Framed(SetTempo(tempo))
  {
  }
}
