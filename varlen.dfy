/** The variable-length quantity of the Standard MIDI Files 1.0 specification,
    in which delta-times are written: the value in 7-bit groups, most
    significant group first, bit 7 set on every byte but the last. */
module VarLenCodec {
  import opened Wrappers
  import opened Bytes

  /** The 7-bit groups of `v`, most significant first, each with bit 7 set
      except the last, whose bit 7 is set only when `more` holds. A negative
      `v` gives its low seven bits alone: `value & 0x7F` is `value % 128` on
      Python's integers, and `value >> 7` stays negative. */
  function Groups(v: int, more: bool): (bs: seq<Byte>)
    ensures v >= 0 ==> GroupsValue(bs) == v
    decreases if v < 0 then 0 else v
  {
    var low := v % 128 + (if more then 0x80 else 0);
    if v < 128 then [low]
    else
      var bs := Groups(v / 128, true) + [low];
      assert bs[..|bs| - 1] == Groups(v / 128, true);
      bs
  }

  /** The bytes `encode_var_len(value)` returns. */
  function VarLen(value: int): (bs: seq<Byte>)
    ensures value >= 0 ==> GroupsValue(bs) == value
  {
    Groups(value, false)
  }

  /** Shape of a group sequence: a single byte exactly for values below 128,
      bit 7 set on every byte but the last, and on the last as `more` says. */
  lemma {:induction false} GroupsShape(v: int, more: bool)
    ensures var bs := Groups(v, more);
      |bs| >= 1 && (|bs| == 1 <==> v < 128) &&
      (forall i :: 0 <= i < |bs| - 1 ==> bs[i] >= 0x80) &&
      (bs[|bs| - 1] >= 0x80 <==> more)
  {
    if v >= 128 {
      GroupsShape(v / 128, true);
    }
  }

  /** `encode_var_len` gives one byte exactly for values below 128. */
  lemma VarLenLength(value: int)
    ensures |VarLen(value)| >= 1
    ensures |VarLen(value)| == 1 <==> value < 128
  {
    GroupsShape(value, false);
  }

  /** Every byte but the last carries the continuation bit; the last does not. */
  lemma VarLenContinuation(value: int)
    ensures var bs := VarLen(value);
      |bs| >= 1 && bs[|bs| - 1] < 0x80 &&
      forall i :: 0 <= i < |bs| - 1 ==> bs[i] >= 0x80
  {
    GroupsShape(value, false);
  }

  /** Values below 128, zero among them, are written as themselves. */
  lemma VarLenSmall(value: int)
    requires 0 <= value < 128
    ensures VarLen(value) == [value]
  {
  }

  /** A quantity of at most 28 bits, the largest the MIDI file format allows,
      takes at most four bytes. */
  lemma {:induction false} GroupsAtMostFour(v: nat, more: bool)
    requires v < 0x1000_0000
    ensures |Groups(v, more)| <= 4
  {
    if v >= 128 {
      GroupsAtMostThree(v / 128);
    }
  }

  lemma {:induction false} GroupsAtMostThree(v: nat)
    requires v < 0x20_0000
    ensures |Groups(v, true)| <= 3
  {
    if v >= 128 {
      var high := v / 128;
      assert high < 0x4000;
      if high >= 128 {
        assert high / 128 < 128;
        assert |Groups(high / 128, true)| == 1;
        assert |Groups(high, true)| == 2;
      }
    }
  }

  /** The value of 7-bit groups read most significant first, bit 7 ignored:
      the decoding that the MIDI file format prescribes. */
  function GroupsValue(bs: seq<Byte>): (n: nat)
  {
    if bs == [] then 0 else GroupsValue(bs[..|bs| - 1]) * 128 + bs[|bs| - 1] % 128
  }

  /** The index of the first byte with bit 7 clear, which ends a quantity
      starting at `bs[0]`; `|bs|` when there is none. */
  function QuantityEnd(bs: seq<Byte>): (k: nat)
    ensures k <= |bs|
    ensures forall i :: 0 <= i < k ==> bs[i] >= 0x80
    ensures k < |bs| ==> bs[k] < 0x80
  {
    if bs == [] || bs[0] < 0x80 then 0 else 1 + QuantityEnd(bs[1..])
  }

  /** Reads one quantity from the front of `bs`: its value and the number of
      bytes it takes, or None when the bytes end inside it. */
  function ReadVarLen(bs: seq<Byte>): Option<(nat, nat)>
  {
    var k := QuantityEnd(bs);
    if k == |bs| then None else Some((GroupsValue(bs[..k + 1]), k + 1))
  }

  /** A reader that stops at the first byte with bit 7 clear recovers the
      value and finds exactly where the quantity ends, whatever follows it. */
  lemma ReadVarLenRoundTrip(value: nat, rest: seq<Byte>)
    ensures ReadVarLen(VarLen(value) + rest) == Some((value, |VarLen(value)|))
  {
    var bs := VarLen(value);
    VarLenContinuation(value);
    var k := QuantityEnd(bs + rest);
    assert forall i :: 0 <= i < |bs| ==> (bs + rest)[i] == bs[i];
    assert k == |bs| - 1;
    assert (bs + rest)[..k + 1] == bs;
  }

  /** The integer whose lowest byte is `bs[0]`, next byte `bs[1]`, and so on:
      how `encode_var_len` stacks the groups in `buffer`. */
  ghost function Packed(bs: seq<Byte>): nat
  {
    if bs == [] then 0 else bs[0] + 256 * Packed(bs[1..])
  }

  /** Stacking a byte below the others: one step of the first loop. */
  lemma PackedPush(b: Byte, bs: seq<Byte>)
    ensures Packed([b] + bs) == b + 256 * Packed(bs)
  {
    assert ([b] + bs)[1..] == bs;
  }

  /** Taking the bottom byte off: one step of the second loop. */
  lemma PackedPop(bs: seq<Byte>)
    requires bs != []
    ensures Packed(bs) % 256 == bs[0] && Packed(bs) / 256 == Packed(bs[1..])
  {
    var n := Packed(bs[1..]);
    assert Packed(bs) == bs[0] + 256 * n;
  }

  /** What remains to stack, before and after one step of the first loop:
      the groups of `v` go below those already stacked. */
  lemma StackStep(value: int, v: int, stacked: seq<Byte>)
    requires v > 0 && VarLen(value) == Groups(v, true) + stacked
    ensures VarLen(value)
         == (if v / 128 > 0 then Groups(v / 128, true) else []) + ([v % 128 + 0x80] + stacked)
  {
  }

  /** Before the first loop: the lowest group is stacked, the rest remain. */
  lemma StackStart(value: int)
    ensures VarLen(value) == (if value / 128 > 0 then Groups(value / 128, true) else []) + [value % 128]
  {
  }

  /** The first loop of `encode_var_len`: stacks the groups of `value` in
      one integer, the least significant group in the highest byte, so that
      the lowest byte of `buffer` is the first byte to write. */
  method StackGroups(value: int) returns (buffer: int, ghost stacked: seq<Byte>)
    ensures stacked == VarLen(value) && buffer == Packed(VarLen(value))
  {
    buffer := value % 128;
    var v := value / 128;
    stacked := [value % 128];
    PackedPush(value % 128, []);
    StackStart(value);
    while v > 0
      invariant buffer == Packed(stacked)
      invariant VarLen(value) == (if v > 0 then Groups(v, true) else []) + stacked
    {
      var group := v % 128 + 0x80;
      StackStep(value, v, stacked);
      PackedPush(group, stacked);
      buffer := buffer * 256 + group;
      stacked := [group] + stacked;
      v := v / 128;
    }
  }

  /** The second loop of `encode_var_len`: takes bytes off the bottom of
      `buffer` up to and including the first with bit 7 clear, which gives
      back every stacked byte when only the last has bit 7 clear. */
  method UnstackBytes(buffer: int, ghost stacked: seq<Byte>) returns (bytes: seq<Byte>)
    requires stacked != [] && buffer == Packed(stacked)
    requires stacked[|stacked| - 1] < 0x80
    requires forall i :: 0 <= i < |stacked| - 1 ==> stacked[i] >= 0x80
    ensures bytes == stacked
  {
    var rest := buffer;
    ghost var unread := stacked;
    bytes := [];
    while true
      invariant unread != [] && bytes + unread == stacked
      invariant rest == Packed(unread)
      decreases |unread|
    {
      PackedPop(unread);
      var low := rest % 256;
      bytes := bytes + [low];
      if low >= 0x80 {
        rest := rest / 256;
        unread := unread[1..];
      } else {
        assert stacked[|bytes| - 1] == low;
        assert |unread| == 1;
        break;
      }
    }
  }

  /** `encode_var_len`: the groups are stacked in an integer, then taken
      off the bottom one byte at a time. */
  method EncodeVarLen(value: int) returns (bytes: seq<Byte>)
    ensures bytes == VarLen(value)
  {
    var buffer;
    ghost var stacked;
    buffer, stacked := StackGroups(value);
    VarLenContinuation(value);
    bytes := UnstackBytes(buffer, stacked);
  }
}
