/**
 * The receiver of the blast transfer (lab6/blastee.py). It acknowledges
 * every well-formed data packet, stores the payload of the first arrival of
 * each sequence number in a fixed buffer of `num` slots, and, once every slot
 * is filled and an output file was given, writes the size-prefixed transfer.
 * An exception in `handle_packet` ends the program; the model records it in
 * `failed`.
 */
module Blastee {
  import opened Wrappers
  import opened Packets
  import opened BlastLayout

  /** Python list indexing: `i` counts from the end when negative; None is an IndexError. */
  function ListIndex(i: int, n: nat): (r: Option<nat>)
    ensures r.Some? <==> -(n as int) <= i < n
    ensures r.Some? ==> r.value < n && (r.value == i || r.value == i + n)
  {
    if 0 <= i < n then Some(i) else if -(n as int) <= i < 0 then Some(i + n) else None
  }

  /** How many slots hold a payload. */
  function Filled(slots: seq<Option<seq<byte>>>): (c: nat)
    ensures c <= |slots|
  {
    if slots == [] then 0 else Filled(slots[..|slots| - 1]) + (if slots[|slots| - 1].Some? then 1 else 0)
  }

  /** Filling an empty slot adds exactly one to the count. */
  lemma {:induction false} FillOne(slots: seq<Option<seq<byte>>>, i: nat, data: seq<byte>)
    requires i < |slots| && slots[i].None?
    ensures Filled(slots[i := Some(data)]) == Filled(slots) + 1
  {
    var last := |slots| - 1;
    var slots' := slots[i := Some(data)];
    assert slots'[..last] == if i == last then slots[..last] else slots[..last][i := Some(data)];
    if i < last {
      FillOne(slots[..last], i, data);
    }
  }

  /** The count reaches the number of slots only when every slot holds a payload. */
  lemma {:induction false} FullMeansAllFilled(slots: seq<Option<seq<byte>>>)
    requires Filled(slots) == |slots|
    ensures forall i :: 0 <= i < |slots| ==> slots[i].Some?
  {
    if slots != [] {
      var last := |slots| - 1;
      FullMeansAllFilled(slots[..last]);
      forall i | 0 <= i < |slots| ensures slots[i].Some? {
        if i < last {
          assert slots[i] == slots[..last][i];
        }
      }
    }
  }

  /** `b''.join(rev_data)` over filled slots, in slot order. */
  function Join(slots: seq<Option<seq<byte>>>): seq<byte>
    requires forall i :: 0 <= i < |slots| ==> slots[i].Some?
  {
    if slots == [] then [] else Join(slots[..|slots| - 1]) + slots[|slots| - 1].value
  }

  /** What the output file receives from the joined data: the bytes after the 4-byte size, up to that size. */
  function Extract(total: seq<byte>): Result<seq<byte>, BlastError> {
    if |total| < 4 then Err(StructError)
    else
      var size := FromBigEndian(total[..4]);
      Ok(total[4..if size + 4 <= |total| then size + 4 else |total|])
  }

  /**
   * The size prefix makes the output exact: data of any length below 2^32,
   * prefixed with its size and followed by any padding, comes out unchanged.
   */
  lemma ExtractRoundTrip(data: seq<byte>, padding: seq<byte>)
    requires |data| < SeqnoLimit
    ensures Extract(BigEndian(|data|, 4) + data + padding) == Ok(data)
  {
    assert Pow256(4) == SeqnoLimit;
    var prefix := BigEndian(|data|, 4);
    BigEndianRoundTrip(|data|, 4);
    PrefixedExtract(prefix, data, padding);
  }

  lemma PrefixedExtract(prefix: seq<byte>, data: seq<byte>, padding: seq<byte>)
    requires |prefix| == 4 && FromBigEndian(prefix) == |data|
    ensures Extract(prefix + data + padding) == Ok(data)
  {
    var total := prefix + data + padding;
    assert total[..4] == prefix;
    assert total[4..|data| + 4] == data;
  }

  /** The receiver's state: the count, the slots, the acknowledgements sent, the output, the final spin and the exception. */
  datatype BlasteeState = BlasteeState(
    acked: nat, revData: seq<Option<seq<byte>>>, sent: seq<seq<byte>>,
    written: Option<seq<byte>>, done: bool, failed: Option<BlastError>)

  /** `acked` counts the filled slots. */
  ghost predicate Inv(st: BlasteeState) {
    st.acked == Filled(st.revData)
  }

  /** The state `__init__` sets up for `num` packets. */
  function Initial(num: nat): (st: BlasteeState)
    ensures Inv(st) && |st.revData| == num
  {
    var st := BlasteeState(0, EmptySlots(num), [], None, false, None);
    EmptyFilled(num);
    st
  }

  /** `[None] * num`. */
  function EmptySlots(num: nat): (slots: seq<Option<seq<byte>>>)
    ensures |slots| == num && forall i :: 0 <= i < num ==> slots[i].None?
  {
    seq(num, i => None)
  }

  lemma {:induction false} EmptyFilled(num: nat)
    ensures Filled(EmptySlots(num)) == 0
  {
    if num > 0 {
      assert EmptySlots(num)[..num - 1] == EmptySlots(num - 1);
      EmptyFilled(num - 1);
    }
  }

  /** The last arrival with an output file: join the slots, write the extracted bytes, spin. */
  function Finish(st: BlasteeState): BlasteeState
    requires forall i :: 0 <= i < |st.revData| ==> st.revData[i].Some?
  {
    match Extract(Join(st.revData))
    case Err(e) => st.(failed := Some(e))
    case Ok(out) => st.(written := Some(out), done := true)
  }

  /** `handle_packet` for a data payload `ctx`; `hasOutput` says whether an output file was given. */
  function ReceiveEffect(hasOutput: bool, st: BlasteeState, ctx: seq<byte>): BlasteeState
    requires Inv(st)
  {
    match ParseData(ctx)
    case Err(e) => st.(failed := Some(e))
    case Ok(h) =>
      var acks := st.sent + [AckBody(ctx)];
      match ListIndex(h.seqno - 1, |st.revData|)
      case None => st.(sent := acks, failed := Some(IndexError))
      case Some(i) =>
        if st.revData[i].Some? then st.(sent := acks)
        else
          var rev := st.revData[i := Some(h.payload)];
          var st1 := st.(sent := acks, acked := st.acked + 1, revData := rev);
          FillOne(st.revData, i, h.payload);
          if st1.acked == |rev| && hasOutput then
            FullMeansAllFilled(rev);
            Finish(st1)
          else st1
  }

  /** Every packet is handled with the count equal to the filled slots, which it keeps. */
  lemma ReceiveKeepsInv(hasOutput: bool, st: BlasteeState, ctx: seq<byte>)
    requires Inv(st)
    ensures var st' := ReceiveEffect(hasOutput, st, ctx);
      Inv(st') && |st'.revData| == |st.revData|
  {
    match ParseData(ctx)
    case Err(_) =>
    case Ok(h) =>
      match ListIndex(h.seqno - 1, |st.revData|)
      case None =>
      case Some(i) =>
        if st.revData[i].None? {
          FillOne(st.revData, i, h.payload);
        }
  }

  /**
   * A malformed payload (a header shorter than 6 bytes, or a length field
   * that disagrees with the payload) is an exception before any
   * acknowledgement; every other packet, duplicates included, gets exactly
   * one 12-byte acknowledgement: its sequence-number bytes and its first 8
   * payload bytes, NUL-padded.
   */
  lemma EveryPacketAcked(hasOutput: bool, st: BlasteeState, ctx: seq<byte>)
    requires Inv(st)
    ensures var st' := ReceiveEffect(hasOutput, st, ctx);
      && (|ctx| < 6 ==> st' == st.(failed := Some(StructError)))
      && (ParseData(ctx).Err? ==> st'.sent == st.sent && st'.failed.Some?)
      && (ParseData(ctx).Ok? ==>
            && st'.sent == st.sent + [ctx[..4] + Fit8(ctx[6..])]
            && |st'.sent[|st.sent|]| == 12)
  {
  }

  /**
   * The first arrival of a sequence number `1..num` stores its payload in
   * slot `seqno - 1` and counts it; a duplicate changes nothing but the
   * acknowledgements. Sequence number 0 reaches the last slot, and one
   * above `num` is an IndexError after its acknowledgement.
   */
  lemma FirstArrivalStored(hasOutput: bool, st: BlasteeState, ctx: seq<byte>)
    requires Inv(st) && ParseData(ctx).Ok?
    ensures var h := ParseData(ctx).value;
      var st' := ReceiveEffect(hasOutput, st, ctx);
      var n := |st.revData|;
      && (1 <= h.seqno <= n && st.revData[h.seqno - 1].Some? ==> st' == st.(sent := st'.sent))
      && (1 <= h.seqno <= n && st.revData[h.seqno - 1].None? ==>
            && st'.revData == st.revData[h.seqno - 1 := Some(h.payload)]
            && st'.acked == st.acked + 1)
      && (h.seqno == 0 && n > 0 && st.revData[n - 1].None? ==> st'.revData == st.revData[n - 1 := Some(h.payload)])
      && (h.seqno > n ==> st'.failed == Some(IndexError) && st'.revData == st.revData)
  {
  }

  /**
   * When the last empty slot is filled and an output file was given, the
   * output is the joined payloads after their 4-byte size prefix, up to that
   * size, and the receiver stops; without an output file it only counts.
   */
  lemma LastArrivalWrites(hasOutput: bool, st: BlasteeState, ctx: seq<byte>)
    requires Inv(st) && ParseData(ctx).Ok?
    requires var s := ParseData(ctx).value.seqno; 1 <= s <= |st.revData| && st.revData[s - 1].None?
    requires st.acked + 1 == |st.revData|
    ensures var h := ParseData(ctx).value;
      var rev := st.revData[h.seqno - 1 := Some(h.payload)];
      var st' := ReceiveEffect(hasOutput, st, ctx);
      && (forall i :: 0 <= i < |rev| ==> rev[i].Some?)
      && (hasOutput && |Join(rev)| >= 4 ==> st'.done && Ok(st'.written.value) == Extract(Join(rev)))
      && (!hasOutput ==> st'.done == st.done && st'.written == st.written)
  {
    var h := ParseData(ctx).value;
    var rev := st.revData[h.seqno - 1 := Some(h.payload)];
    FillOne(st.revData, h.seqno - 1, h.payload);
    FullMeansAllFilled(rev);
  }

  /** The receiver of `start`: its parameters, its slot buffer and its output. */
  class Receiver {
    const hasOutput: bool
    const revData: array<Option<seq<byte>>>
    var acked: nat
    var sent: seq<seq<byte>>
    var written: Option<seq<byte>>
    var done: bool
    var failed: Option<BlastError>

    function Snapshot(): BlasteeState
      reads this, revData
    {
      BlasteeState(acked, revData[..], sent, written, done, failed)
    }

    ghost predicate Valid()
      reads this, revData
    {
      Inv(Snapshot())
    }

    constructor (num: nat, hasOutput: bool)
      ensures Valid() && Snapshot() == Initial(num) && this.hasOutput == hasOutput
    {
      this.hasOutput := hasOutput;
      revData := new Option<seq<byte>>[num](i => None);
      acked := 0;
      sent := [];
      written := None;
      done := false;
      failed := None;
      new;
      assert revData[..] == EmptySlots(num);
      EmptyFilled(num);
    }

    /** `handle_packet` for a data payload `ctx`; nothing more is handled after the spin or an exception. */
    method Receive(ctx: seq<byte>)
      requires Valid() && !done && failed.None?
      modifies this, revData
      ensures Valid()
      ensures Snapshot() == ReceiveEffect(hasOutput, old(Snapshot()), ctx)
    {
      ghost var st0 := Snapshot();
      ReceiveKeepsInv(hasOutput, st0, ctx);
      var parsed := ParseData(ctx);
      if parsed.Err? {
        failed := Some(parsed.error);
        return;
      }
      var h := parsed.value;
      sent := sent + [AckBody(ctx)];
      var slot := ListIndex(h.seqno - 1, revData.Length);
      if slot.None? {
        failed := Some(IndexError);
        return;
      }
      var i := slot.value;
      if revData[i].None? {
        FillOne(revData[..], i, h.payload);
        acked := acked + 1;
        revData[i] := Some(h.payload);
        if acked == revData.Length && hasOutput {
          FullMeansAllFilled(revData[..]);
          var out := Extract(Join(revData[..]));
          if out.Err? {
            failed := Some(out.error);
          } else {
            written := Some(out.value);
            done := true;
          }
        }
      }
    }
  }
}
