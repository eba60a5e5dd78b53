/**
 * The learning switch whose entries go stale after ten seconds
 * (lab2/myswitch_to.py). Each entry records the port and the time the
 * address was last seen; stale entries are ignored, never deleted.
 */
module TimeoutSwitch {
  import opened Wrappers
  import opened Packets
  import opened SwitchCommon

  /** An entry younger than this many seconds is used for forwarding. */
  const StaleAfter: int := 10

  /** `(port, time())` of a learned address. */
  datatype Learned = Learned(port: PortName, seenAt: int)

  /** The switch's state: the table, the output, and whether `main` has returned. */
  datatype SwitchState = SwitchState(table: map<Mac, Learned>, sent: seq<Out>, stopped: bool)

  /** The port to use for `dst` at time `now`: its learned port when the entry is fresh. */
  function FreshPort(table: map<Mac, Learned>, dst: Mac, now: int): Option<PortName> {
    if dst in table && now - table[dst].seenAt < StaleAfter then Some(table[dst].port) else None
  }

  /**
   * One turn of the `main` loop at time `now` for a frame received on `from`
   * (None: no Ethernet header, and `main` returns).
   */
  function ReceiveEffect(ports: seq<Port>, st: SwitchState, from: PortName, frame: Option<Frame>, now: int): SwitchState {
    match frame
    case None => st.(stopped := true)
    case Some(f) =>
      var learned := st.table[f.eth.src := Learned(from, now)];
      match Classify(ports, f.eth.dst)
      case ForMe => st.(table := learned)
      case Broadcast => st.(table := learned, sent := st.sent + Flood(ports, from, f))
      case Unicast => st.(table := learned, sent := st.sent + Deliver(ports, from, f, FreshPort(learned, f.eth.dst, now)))
  }

  /**
   * Every Ethernet frame records (arrival port, now) for its source and
   * changes no other entry; nothing is ever removed from the table.
   */
  lemma ReceiveLearnsSource(ports: seq<Port>, st: SwitchState, from: PortName, f: Frame, now: int)
    ensures var st' := ReceiveEffect(ports, st, from, Some(f), now);
      && st'.table.Keys == st.table.Keys + {f.eth.src}
      && st'.table[f.eth.src] == Learned(from, now)
      && forall m :: m in st.table && m != f.eth.src ==> st'.table[m] == st.table[m]
  {
  }

  /**
   * Forwarding: nothing for a frame to the switch itself; a flood for a
   * broadcast; one send to the learned port for a destination seen less than
   * ten seconds ago; a flood for one never seen or seen ten or more seconds ago.
   */
  lemma ReceiveForwards(ports: seq<Port>, st: SwitchState, from: PortName, f: Frame, now: int)
    ensures var st' := ReceiveEffect(ports, st, from, Some(f), now);
      var table := st.table[f.eth.src := Learned(from, now)];
      var dst := f.eth.dst;
      && (dst in OwnMacs(ports) ==> st'.sent == st.sent)
      && (dst !in OwnMacs(ports) && dst == BroadcastMac ==> st'.sent == st.sent + Flood(ports, from, f))
      && (dst !in OwnMacs(ports) && dst != BroadcastMac && dst in table && now - table[dst].seenAt < StaleAfter ==>
            st'.sent == st.sent + [Out(table[dst].port, f)])
      && (dst !in OwnMacs(ports) && dst != BroadcastMac && (dst !in table || now - table[dst].seenAt >= StaleAfter) ==>
            st'.sent == st.sent + Flood(ports, from, f))
  {
  }

  /** The switch of `main`: its ports, its table and its output. */
  class Switch {
    const ports: seq<Port>
    var table: map<Mac, Learned>
    var sent: seq<Out>
    var stopped: bool

    function Snapshot(): SwitchState
      reads this
    {
      SwitchState(table, sent, stopped)
    }

    constructor (ports: seq<Port>)
      ensures this.ports == ports && Snapshot() == SwitchState(map[], [], false)
    {
      this.ports := ports;
      table := map[];
      sent := [];
      stopped := false;
    }

    /** One turn of the loop in `main` at time `now`; once `main` has returned no further frame is handled. */
    method Receive(from: PortName, frame: Option<Frame>, now: int)
      requires !stopped
      modifies this
      ensures Snapshot() == ReceiveEffect(ports, old(Snapshot()), from, frame, now)
    {
      if frame.None? {
        stopped := true;
        return;
      }
      var f := frame.value;
      table := table[f.eth.src := Learned(from, now)];
      var kind := Classify(ports, f.eth.dst);
      if kind == Broadcast {
        sent := sent + Flood(ports, from, f);
      } else if kind == Unicast {
        if f.eth.dst in table && now - table[f.eth.dst].seenAt < StaleAfter {
          sent := sent + [Out(table[f.eth.dst].port, f)];
        } else {
          sent := sent + Flood(ports, from, f);
        }
      }
    }
  }
}
