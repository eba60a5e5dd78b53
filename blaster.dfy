/**
 * The sliding-window sender of the blast transfer (lab6/blaster.py).
 * Sequence numbers `[lhs, rhs)` are in flight; `acked` holds every number an
 * acknowledgement has named; a coarse timeout moves a resend cursor over the
 * window, one packet per call. Time is an integer `now` in the unit of the
 * timeout, and each sent packet is recorded by its sequence number (its bytes
 * are `BlastLayout.DataPacket`).
 */
module Blaster {
  import opened Packets
  import opened BlastLayout

  /** The command-line parameters: packet count, payload length, window size and timeout. */
  datatype Params = Params(num: nat, length: nat, window: int, timeout: int)

  /** The sender's fields; `sent` lists the sequence numbers of the packets sent, in order; `done` is the spin on completion. */
  datatype BlasterState = BlasterState(
    lhs: int, rhs: int, startTime: int, timer: int, acked: set<int>,
    resendIdx: int, resendNum: nat, timeoutTimes: nat, sent: seq<int>, done: bool)

  /** The state `__init__` sets up. */
  function Initial(): (st: BlasterState)
    ensures st.lhs == st.rhs == 1 && st.acked == {} && st.resendIdx == -1 && st.sent == [] && !st.done
  {
    BlasterState(1, 1, 0, 0, {}, -1, 0, 0, [], false)
  }

  /** The acknowledged numbers at or after `idx`: what `SkipAcked` still has to pass. */
  function Above(acked: set<int>, idx: int): set<int> {
    set x | x in acked && x >= idx
  }

  lemma AboveShrinks(acked: set<int>, idx: int)
    requires idx in acked
    ensures |Above(acked, idx + 1)| < |Above(acked, idx)|
  {
    assert idx !in Above(acked, idx + 1);
    assert Above(acked, idx) == Above(acked, idx + 1) + {idx};
  }

  /** `while idx in acked: idx += 1`: the first number at or after `idx` with no acknowledgement. */
  function SkipAcked(acked: set<int>, idx: int): (r: int)
    ensures idx <= r && r !in acked
    ensures forall k :: idx <= k < r ==> k in acked
    decreases |Above(acked, idx)|
  {
    if idx in acked then
      AboveShrinks(acked, idx);
      SkipAcked(acked, idx + 1)
    else idx
  }

  /** `start_time` and `timer` are set on the first call. */
  function StartClock(st: BlasterState, now: int): BlasterState {
    if st.startTime == 0 then st.(startTime := now, timer := now) else st
  }

  /**
   * When no resend is under way: before the timeout, the next new packet
   * when the window and the count allow; at the timeout, a resend from `lhs`.
   */
  function NewOrTimeout(p: Params, st: BlasterState, now: int): BlasterState {
    if st.resendIdx != -1 then st
    else if now - st.timer < p.timeout then
      if st.rhs - st.lhs <= p.window - 1 && st.rhs <= p.num then st.(sent := st.sent + [st.rhs], rhs := st.rhs + 1)
      else st
    else st.(resendIdx := st.lhs, timer := now, timeoutTimes := st.timeoutTimes + 1)
  }

  /** The cursor skips acknowledged numbers, resends one inside the window, and is parked at -1 once it reaches `rhs`. */
  function ResendPhase(st: BlasterState): BlasterState {
    var idx := SkipAcked(st.acked, st.resendIdx);
    var st1 :=
      if st.lhs <= idx < st.rhs then st.(sent := st.sent + [idx], resendIdx := idx + 1, resendNum := st.resendNum + 1)
      else st.(resendIdx := idx);
    if st1.resendIdx >= st1.rhs then st1.(resendIdx := -1) else st1
  }

  /** `try_to_send` at time `now`. */
  function TrySendEffect(p: Params, st: BlasterState, now: int): BlasterState {
    ResendPhase(NewOrTimeout(p, StartClock(st, now), now))
  }

  /** `handle_ack`: record the number, slide `lhs` past the acknowledged run (the timer restarts when it moves), finish at `num + 1`. */
  function HandleAckEffect(p: Params, st: BlasterState, seqno: int, now: int): BlasterState {
    var acked := st.acked + {seqno};
    var lhs := SkipAcked(acked, st.lhs);
    st.(acked := acked, lhs := lhs, timer := if lhs != st.lhs then now else st.timer, done := lhs == p.num + 1)
  }

  /** `handle_packet`: the acknowledgement's first 4 bytes are the number; no more sending once the transfer is done. */
  function HandlePacketEffect(p: Params, st: BlasterState, ctx: seq<byte>, now: int): BlasterState
    requires |ctx| >= 4
  {
    var st1 := HandleAckEffect(p, st, FromBigEndian(ctx[..4]), now);
    if st1.done then st1 else TrySendEffect(p, st1, now)
  }

  /**
   * The window invariant: `1 <= lhs <= rhs <= num + 1`, at most `window`
   * packets in flight, every acknowledgement names a sent packet, every
   * number below `lhs` is acknowledged and `lhs` is not, and a running resend
   * cursor points at a sent packet.
   */
  ghost predicate Inv(p: Params, st: BlasterState) {
    && 1 <= st.lhs <= st.rhs <= p.num + 1
    && st.rhs - st.lhs <= p.window
    && (forall k :: k in st.acked ==> 1 <= k < st.rhs)
    && AckedBelow(st.acked, st.lhs)
    && (st.resendIdx == -1 || 1 <= st.resendIdx < st.rhs)
  }

  /** Every number below `lhs` is acknowledged and `lhs` is not. */
  ghost predicate AckedBelow(acked: set<int>, lhs: int) {
    (forall k :: 1 <= k < lhs ==> k in acked) && lhs !in acked
  }

  /** Skipping acknowledged numbers from any `start >= 1` never stops below `lhs`, and stops at `lhs` from `start <= lhs`. */
  lemma SkipToLhs(acked: set<int>, lhs: int, start: int)
    requires AckedBelow(acked, lhs) && 1 <= start
    ensures SkipAcked(acked, start) >= lhs
    ensures start <= lhs ==> SkipAcked(acked, start) == lhs
  {
  }

  lemma {:induction false} InitialInv(p: Params)
    requires p.window >= 1
    ensures Inv(p, Initial())
  {
  }

  /** `try_to_send` keeps the window invariant. */
  lemma TrySendKeepsInv(p: Params, st: BlasterState, now: int)
    requires p.window >= 1 && Inv(p, st)
    ensures Inv(p, TrySendEffect(p, st, now))
  {
    var st1 := NewOrTimeout(p, StartClock(st, now), now);
    if st1.resendIdx != -1 {
      SkipToLhs(st1.acked, st1.lhs, st1.resendIdx);
    }
  }

  /**
   * `try_to_send` transmits at most one packet: nothing; or the new packet
   * `rhs`, with `rhs` moving up by one; or a resend of the first
   * unacknowledged number at or after the cursor, which lies in
   * `[lhs, rhs)`, with `resend_num` up by one. The window's left edge and
   * the acknowledgements never change.
   */
  lemma TrySendAtMostOne(p: Params, st: BlasterState, now: int)
    requires p.window >= 1 && Inv(p, st)
    ensures var st' := TrySendEffect(p, st, now);
      && st'.lhs == st.lhs && st'.acked == st.acked
      && ((st'.sent == st.sent && st'.rhs == st.rhs && st'.resendNum == st.resendNum)
          || (st'.sent == st.sent + [st.rhs] && st'.rhs == st.rhs + 1 && st.rhs <= p.num && st'.resendNum == st.resendNum)
          || (exists x :: st'.sent == st.sent + [x] && st.lhs <= x < st.rhs && x !in st.acked
                          && st'.rhs == st.rhs && st'.resendNum == st.resendNum + 1))
  {
    var st0 := StartClock(st, now);
    var st1 := NewOrTimeout(p, st0, now);
    if st1.resendIdx == -1 {
      assert SkipAcked(st1.acked, -1) == -1;
    } else {
      SkipToLhs(st1.acked, st1.lhs, st1.resendIdx);
      var x := SkipAcked(st1.acked, st1.resendIdx);
      if st1.lhs <= x < st1.rhs {
        assert TrySendEffect(p, st, now).sent == st.sent + [x];
      }
    }
  }

  /**
   * At the timeout (no resend running and `now - timer >= timeout`) the
   * sender restarts the timer, counts one more timeout and resends `lhs`,
   * the oldest unacknowledged packet, when one is in flight.
   */
  lemma TimeoutResendsOldest(p: Params, st: BlasterState, now: int)
    requires p.window >= 1 && Inv(p, st) && st.startTime != 0
    requires st.resendIdx == -1 && now - st.timer >= p.timeout
    ensures var st' := TrySendEffect(p, st, now);
      && st'.timer == now && st'.timeoutTimes == st.timeoutTimes + 1
      && (st.lhs < st.rhs ==> st'.sent == st.sent + [st.lhs] && st'.resendNum == st.resendNum + 1)
      && (st.lhs == st.rhs ==> st'.sent == st.sent && st'.resendIdx == -1)
  {
    var st1 := NewOrTimeout(p, st, now);
    SkipToLhs(st1.acked, st1.lhs, st1.lhs);
  }

  /** Before the timeout, with no resend running, a new packet goes out exactly when the window has room and packets remain. */
  lemma NewPacketWhenWindowOpen(p: Params, st: BlasterState, now: int)
    requires p.window >= 1 && Inv(p, st) && st.startTime != 0
    requires st.resendIdx == -1 && now - st.timer < p.timeout
    ensures var st' := TrySendEffect(p, st, now);
      && (st.rhs - st.lhs < p.window && st.rhs <= p.num ==> st'.sent == st.sent + [st.rhs] && st'.rhs == st.rhs + 1)
      && (!(st.rhs - st.lhs < p.window && st.rhs <= p.num) ==> st'.sent == st.sent && st'.rhs == st.rhs)
  {
    assert SkipAcked(st.acked, -1) == -1;
  }

  /**
   * An acknowledgement for a sent packet keeps the window invariant and
   * never moves `lhs` back: the new `lhs` is the first unacknowledged number,
   * the timer restarts exactly when `lhs` moves, and the transfer is done
   * exactly when every packet `1..num` is acknowledged.
   */
  lemma HandleAckKeepsInv(p: Params, st: BlasterState, seqno: int, now: int)
    requires Inv(p, st) && 1 <= seqno < st.rhs
    ensures var st' := HandleAckEffect(p, st, seqno, now);
      && Inv(p, st')
      && st.lhs <= st'.lhs && st'.acked == st.acked + {seqno}
      && (st'.lhs != st.lhs ==> st'.timer == now)
      && (st'.lhs == st.lhs ==> st'.timer == st.timer)
      && (st'.done <==> forall k :: 1 <= k <= p.num ==> k in st'.acked)
  {
    var st' := HandleAckEffect(p, st, seqno, now);
    assert st.rhs !in st'.acked;
    assert st'.lhs <= st.rhs;
  }

  /** The sender of `start`: its parameters and its fields. */
  class Sender {
    const num: nat
    const length: nat
    const window: int
    const timeout: int
    var lhs: int
    var rhs: int
    var startTime: int
    var timer: int
    var acked: set<int>
    var resendIdx: int
    var resendNum: nat
    var timeoutTimes: nat
    var sent: seq<int>
    var done: bool

    function Config(): Params
      reads this
    {
      Params(num, length, window, timeout)
    }

    function Snapshot(): BlasterState
      reads this
    {
      BlasterState(lhs, rhs, startTime, timer, acked, resendIdx, resendNum, timeoutTimes, sent, done)
    }

    constructor (num: nat, length: nat, window: int, timeout: int)
      ensures Config() == Params(num, length, window, timeout) && Snapshot() == Initial()
    {
      this.num := num;
      this.length := length;
      this.window := window;
      this.timeout := timeout;
      lhs, rhs := 1, 1;
      startTime, timer := 0, 0;
      acked := {};
      resendIdx := -1;
      resendNum, timeoutTimes := 0, 0;
      sent := [];
      done := false;
    }

    /** `try_to_send` at time `now`. */
    method TrySend(now: int)
      requires !done
      modifies this
      ensures Snapshot() == TrySendEffect(Config(), old(Snapshot()), now)
    {
      StartOrTimeout(now);
      Resend();
    }

    /** The first half of `try_to_send`: the clock, then a new packet or the timeout. */
    method StartOrTimeout(now: int)
      modifies this
      ensures Snapshot() == NewOrTimeout(Config(), StartClock(old(Snapshot()), now), now)
    {
      if startTime == 0 {
        startTime, timer := now, now;
      }
      if resendIdx == -1 {
        if now - timer < timeout {
          if rhs - lhs <= window - 1 && rhs <= num {
            sent := sent + [rhs];
            rhs := rhs + 1;
          }
        } else {
          resendIdx := lhs;
          timer := now;
          timeoutTimes := timeoutTimes + 1;
        }
      }
    }

    /** The second half of `try_to_send`: the resend cursor. */
    method Resend()
      modifies this
      ensures Snapshot() == ResendPhase(old(Snapshot()))
    {
      var idx := resendIdx;
      while idx in acked
        modifies {}
        invariant SkipAcked(acked, idx) == SkipAcked(acked, resendIdx)
        decreases |Above(acked, idx)|
      {
        AboveShrinks(acked, idx);
        idx := idx + 1;
      }
      resendIdx := idx;
      if lhs <= resendIdx < rhs {
        sent := sent + [resendIdx];
        resendIdx := resendIdx + 1;
        resendNum := resendNum + 1;
      }
      if resendIdx >= rhs {
        resendIdx := -1;
      }
    }

    /** `handle_ack` for the acknowledged number `seqno` at time `now`. */
    method HandleAck(seqno: int, now: int)
      requires !done
      modifies this
      ensures Snapshot() == HandleAckEffect(Config(), old(Snapshot()), seqno, now)
    {
      ghost var st0 := Snapshot();
      acked := acked + {seqno};
      var next := lhs;
      var t := timer;
      while next in acked
        modifies {}
        invariant SkipAcked(acked, next) == SkipAcked(acked, lhs)
        invariant lhs <= next
        invariant t == if next != lhs then now else timer
        decreases |Above(acked, next)|
      {
        AboveShrinks(acked, next);
        next := next + 1;
        t := now;
      }
      assert next == SkipAcked(acked, st0.lhs);
      lhs, timer := next, t;
      done := lhs == num + 1;
    }

    /** `handle_packet` for an acknowledgement payload `ctx` at time `now`. */
    method HandlePacket(ctx: seq<byte>, now: int)
      requires !done && |ctx| >= 4
      modifies this
      ensures Snapshot() == HandlePacketEffect(Config(), old(Snapshot()), ctx, now)
    {
      HandleAck(FromBigEndian(ctx[..4]), now);
      if !done {
        TrySend(now);
      }
    }
  }
}
