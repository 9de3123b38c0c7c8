/** One tracked conversation: the record the flow table keeps, updated in place packet by packet. */
module FlowRecords {
  import opened NetTypes
  import opened RealProducts
  import opened FlowKeys
  import opened TcpHistory

  datatype FlowDirection = LoToHi | HiToLo

  // The parts of a parsed packet the tracker looks at.
  datatype Packet = Packet(
    srcAddr: Addr128, dstAddr: Addr128, srcPort: Port, dstPort: Port, protocol: Byte,
    isTcp: bool, tcpFlags: bv8, capturedLength: nat)

  // A packet as a record absorbs it: filed under its key, with its direction and the time it was handled.
  datatype Observation = Observation(
    key: FlowKey, direction: FlowDirection, dstPort: Port,
    isTcp: bool, tcpFlags: bv8, capturedLength: nat, time: real)

  // Direction follows the addresses alone; ports break ties in the key only.
  function DirectionOf(p: Packet): FlowDirection {
    if p.srcAddr == p.dstAddr || AddrLess(p.srcAddr, p.dstAddr) then LoToHi else HiToLo
  }

  function Observe(p: Packet, now: real): Observation {
    Observation(Make(p.srcAddr, p.dstAddr, p.srcPort, p.dstPort, p.protocol), DirectionOf(p), p.dstPort,
                p.isTcp, p.tcpFlags, p.capturedLength, now)
  }

  ghost predicate Genuine(o: Observation) {
    exists p :: o == Observe(p, o.time)
  }

  const SCAN_WINDOW_SEC := 10.0
  const SYN_WINDOW_SEC := 1.0

  // ---------------------------------------------------------------- what a record says about its packets

  function Packets(os: seq<Observation>, d: FlowDirection): (n: nat)
    ensures n <= |os|
  {
    if os == [] then 0
    else Packets(os[..|os| - 1], d) + (if os[|os| - 1].direction == d then 1 else 0)
  }

  function Bytes(os: seq<Observation>, d: FlowDirection): nat {
    if os == [] then 0
    else
      var o := os[|os| - 1];
      Bytes(os[..|os| - 1], d) + (if o.direction == d then o.capturedLength else 0)
  }

  function TotalBytes(os: seq<Observation>): nat {
    if os == [] then 0 else TotalBytes(os[..|os| - 1]) + os[|os| - 1].capturedLength
  }

  // The flag bytes of the TCP packets, in order.
  function TcpFlags(os: seq<Observation>): (h: seq<bv8>)
    ensures |h| <= |os|
  {
    if os == [] then []
    else
      var h := TcpFlags(os[..|os| - 1]);
      if os[|os| - 1].isTcp then h + [os[|os| - 1].tcpFlags] else h
  }

  function LastSeen(created: real, os: seq<Observation>): real {
    if os == [] then created else os[|os| - 1].time
  }

  datatype ScanWindow = ScanWindow(start: real, ports: set<Port>)
  datatype SynWindow = SynWindow(start: real, count: nat)

  // The tumbling window of destination ports contacted from the low endpoint.
  function ScanWindowOf(created: real, os: seq<Observation>): ScanWindow {
    if os == [] then ScanWindow(created, {})
    else
      var w, o := ScanWindowOf(created, os[..|os| - 1]), os[|os| - 1];
      if !o.isTcp || o.direction != LoToHi || o.dstPort == 0 then w else Contacted(w, o)
  }

  function Contacted(w: ScanWindow, o: Observation): ScanWindow {
    if o.time - w.start >= SCAN_WINDOW_SEC then ScanWindow(o.time, {o.dstPort})
    else ScanWindow(w.start, w.ports + {o.dstPort})
  }

  // The tumbling window of SYN-only packets.
  function SynWindowOf(created: real, os: seq<Observation>): SynWindow {
    if os == [] then SynWindow(created, 0)
    else
      var w, o := SynWindowOf(created, os[..|os| - 1]), os[|os| - 1];
      if !o.isTcp || !SynOnly(o.tcpFlags) then w else Knocked(w, o)
  }

  function Knocked(w: SynWindow, o: Observation): SynWindow {
    if o.time - w.start >= SYN_WINDOW_SEC then SynWindow(o.time, 1) else SynWindow(w.start, w.count + 1)
  }

  // The TCP fields of a record.
  datatype TcpFields = TcpFields(
    state: TcpState, flagsSeen: bv8, syn: nat, synAck: nat, ack: nat, fin: nat, rst: nat, psh: nat, handshakes: nat)

  // Its timing, packet accounting and window fields.
  datatype AccountFields = AccountFields(
    lastSeen: real, packets: nat, bytes: nat, loPackets: nat, loBytes: nat, hiPackets: nat, hiBytes: nat,
    scan: ScanWindow, syn: SynWindow)

  class FlowRecord {
    const key: FlowKey
    const firstSeen: real
    var tcp: TcpFields
    var accounts: AccountFields

    // The flags of every TCP packet, and every packet, this record has absorbed.
    ghost var history: seq<bv8>
    ghost var absorbed: seq<Observation>

    // All fields are functions of the packets absorbed.
    ghost predicate Valid()
      reads this
    {
      && history == TcpFlags(absorbed)
      && tcp == TcpFieldsOf(history)
      && accounts == AccountFieldsOf(firstSeen, absorbed)
    }

    constructor (k: FlowKey, now: real)
      ensures Valid()
      ensures key == k && firstSeen == now && absorbed == []
    {
      key, firstSeen := k, now;
      tcp := TcpFields(Init, 0, 0, 0, 0, 0, 0, 0, 0);
      accounts := AccountFields(now, 0, 0, 0, 0, 0, 0, ScanWindow(now, {}), SynWindow(now, 0));
      history, absorbed := [], [];
    }

    // Absorb one packet of this conversation.
    method UpdateRecord(o: Observation)
      requires Valid()
      modifies this
      ensures Valid()
      ensures absorbed == old(absorbed) + [o]
    {
      AccountsPush(firstSeen, absorbed, o);
      FlagsPush(absorbed, o);
      CountPacket(o);
      if o.isTcp {
        var changed := AdvanceTcpState(o.tcpFlags);
        TrackWindows(o);
      }
      absorbed := absorbed + [o];
    }

    method CountPacket(o: Observation)
      modifies `accounts
      ensures accounts == CountedPacket(old(accounts), o)
    {
      accounts := accounts.(lastSeen := o.time, packets := accounts.packets + 1,
                            bytes := accounts.bytes + o.capturedLength);
      if o.direction == LoToHi {
        accounts := accounts.(loPackets := accounts.loPackets + 1, loBytes := accounts.loBytes + o.capturedLength);
      } else {
        accounts := accounts.(hiPackets := accounts.hiPackets + 1, hiBytes := accounts.hiBytes + o.capturedLength);
      }
    }

    // Destination ports and SYN-only packets, each in its own tumbling window.
    method TrackWindows(o: Observation)
      modifies `accounts
      ensures accounts == Windowed(old(accounts), o)
    {
      if o.direction == LoToHi && o.dstPort != 0 {
        var scan := accounts.scan;
        if o.time - scan.start >= SCAN_WINDOW_SEC {
          scan := ScanWindow(o.time, {});
        }
        accounts := accounts.(scan := scan.(ports := scan.ports + {o.dstPort}));
      }
      if SynOnly(o.tcpFlags) {
        var syn := accounts.syn;
        if o.time - syn.start >= SYN_WINDOW_SEC {
          syn := SynWindow(o.time, 0);
        }
        accounts := accounts.(syn := syn.(count := syn.count + 1));
      }
    }

    // Count the flags and advance the state machine; true when the state changed.
    method AdvanceTcpState(flags: bv8) returns (changed: bool)
      requires tcp == TcpFieldsOf(history)
      modifies `tcp, `history
      ensures tcp == TcpFieldsOf(history)
      ensures history == old(history) + [flags]
      ensures changed <==> StateAfter(history) != StateAfter(old(history))
    {
      FieldsPush(history, flags);
      CountFlags(flags);
      changed := Transition(flags);
      history := history + [flags];
    }

    method CountFlags(flags: bv8)
      modifies `tcp
      ensures tcp == Counted(old(tcp), flags)
    {
      tcp := tcp.(flagsSeen := tcp.flagsSeen | flags);
      if SynOnly(flags) {
        tcp := tcp.(syn := tcp.syn + 1);
      }
      if SynAck(flags) {
        tcp := tcp.(synAck := tcp.synAck + 1);
      }
      if PureAck(flags) {
        tcp := tcp.(ack := tcp.ack + 1);
      }
      if Fin(flags) {
        tcp := tcp.(fin := tcp.fin + 1);
      }
      if Rst(flags) {
        tcp := tcp.(rst := tcp.rst + 1);
      }
      if Psh(flags) {
        tcp := tcp.(psh := tcp.psh + 1);
      }
    }

    // The state machine proper; a reopening SYN restarts the per-session counters.
    method Transition(flags: bv8) returns (changed: bool)
      modifies `tcp
      ensures tcp == Moved(old(tcp), flags)
      ensures changed <==> tcp.state != old(tcp.state)
    {
      var prev := tcp.state;
      if Rst(flags) {
        tcp := tcp.(state := Closed);
        return tcp.state != prev;
      }
      match tcp.state {
        case Init =>
          if SynOnly(flags) {
            tcp := tcp.(state := SynSent);
          }
        case SynSent =>
          if SynAck(flags) {
            tcp := tcp.(state := SynReceived);
          }
        case SynReceived =>
          if PureAck(flags) {
            tcp := tcp.(state := Established, handshakes := tcp.handshakes + 1);
          }
        case Established =>
          if Fin(flags) {
            tcp := tcp.(state := FinWait);
          }
        case FinWait =>
          if Fin(flags) && HasFlag(flags, TCP_FLAG_ACK) {
            tcp := tcp.(state := Closed);
          }
        case Closed =>
          if SynOnly(flags) {
            tcp := tcp.(state := SynSent, syn := 1, synAck := 0, ack := 0, fin := 0, rst := 0);
          }
      }
      changed := tcp.state != prev;
    }
  }

  // What the accounting fields say about all packets absorbed.
  ghost function AccountFieldsOf(created: real, os: seq<Observation>): AccountFields {
    AccountFields(LastSeen(created, os), |os|, TotalBytes(os), Packets(os, LoToHi), Bytes(os, LoToHi),
                Packets(os, HiToLo), Bytes(os, HiToLo), ScanWindowOf(created, os), SynWindowOf(created, os))
  }

  ghost function CountedPacket(a: AccountFields, o: Observation): AccountFields {
    var lo := o.direction == LoToHi;
    a.(lastSeen := o.time, packets := a.packets + 1, bytes := a.bytes + o.capturedLength,
       loPackets := a.loPackets + One(lo), hiPackets := a.hiPackets + One(!lo),
       loBytes := a.loBytes + (if lo then o.capturedLength else 0),
       hiBytes := a.hiBytes + (if lo then 0 else o.capturedLength))
  }

  ghost function Windowed(a: AccountFields, o: Observation): AccountFields {
    a.(scan := if o.direction != LoToHi || o.dstPort == 0 then a.scan else Contacted(a.scan, o),
       syn := if SynOnly(o.tcpFlags) then Knocked(a.syn, o) else a.syn)
  }

  lemma AccountsPush(created: real, os: seq<Observation>, o: Observation)
    ensures var a := CountedPacket(AccountFieldsOf(created, os), o);
      AccountFieldsOf(created, os + [o]) == if o.isTcp then Windowed(a, o) else a
  {
    assert (os + [o])[..|os|] == os;
  }

  lemma FlagsPush(os: seq<Observation>, o: Observation)
    ensures TcpFlags(os + [o]) == TcpFlags(os) + (if o.isTcp then [o.tcpFlags] else [])
  {
    assert (os + [o])[..|os|] == os;
  }

  // ---------------------------------------------------------------- what the fields promise together

  // Totals are conserved between the two directions.
  lemma {:induction false} DirectionsAddUp(os: seq<Observation>)
    ensures Packets(os, LoToHi) + Packets(os, HiToLo) == |os|
    ensures Bytes(os, LoToHi) + Bytes(os, HiToLo) == TotalBytes(os)
  {
    if os != [] {
      DirectionsAddUp(os[..|os| - 1]);
    }
  }

  // The SYN-only share of a record's packets is a ratio.
  lemma SynRatioInUnit(os: seq<Observation>)
    requires os != []
    ensures 0.0 <= TcpFieldsOf(TcpFlags(os)).syn as real / |os| as real <= 1.0
  {
    var syn := TcpFieldsOf(TcpFlags(os)).syn;
    assert syn <= |TcpFlags(os)| <= |os|;
    Share(syn, |os|);
  }

  lemma Share(part: nat, whole: nat)
    requires part <= whole && whole > 0
    ensures 0.0 <= part as real / whole as real <= 1.0
  {
    QuotientAtLeast(part as real, whole as real, 0.0);
    QuotientAtLeast((whole - part) as real, whole as real, 0.0);
    var p, q := part as real / whole as real, (whole - part) as real / whole as real;
    assert p * whole as real == part as real;
    assert q * whole as real == whole as real - part as real;
    assert p > 1.0 ==> p * whole as real > whole as real;
  }

  // The ports a flow is seen to contact are its own ends; just the high end when the addresses differ.
  lemma {:induction false} ContactedPortsAreEnds(created: real, os: seq<Observation>, key: FlowKey)
    requires forall o :: o in os ==> Genuine(o) && o.key == key
    ensures ScanWindowOf(created, os).ports <= {key.loPort, key.hiPort}
    ensures key.loAddr != key.hiAddr ==> ScanWindowOf(created, os).ports <= {key.hiPort}
  {
    if os != [] {
      var o := os[|os| - 1];
      ContactedPortsAreEnds(created, os[..|os| - 1], key);
      assert o in os;
      var p :| o == Observe(p, o.time);
      AddrTrichotomy(p.srcAddr, p.dstAddr);
    }
  }

  // What the TCP fields say about the whole flag history.
  ghost function TcpFieldsOf(h: seq<bv8>): TcpFields {
    var s := SessionStart(h);
    TcpFields(StateAfter(h), FlagsSeen(h),
            CountSince(h, s, SynOnly), CountSince(h, s, SynAck), CountSince(h, s, PureAck),
            CountSince(h, FinsFrom(h), Fin), CountSince(h, s, Rst), CountSince(h, 0, Psh), Handshakes(h))
  }

  function One(b: bool): nat {
    if b then 1 else 0
  }

  ghost function Counted(v: TcpFields, f: bv8): TcpFields {
    v.(flagsSeen := v.flagsSeen | f, syn := v.syn + One(SynOnly(f)), synAck := v.synAck + One(SynAck(f)),
       ack := v.ack + One(PureAck(f)), fin := v.fin + One(Fin(f)), rst := v.rst + One(Rst(f)), psh := v.psh + One(Psh(f)))
  }

  ghost function Moved(v: TcpFields, f: bv8): TcpFields {
    if Reopens(v.state, f) then v.(state := SynSent, syn := 1, synAck := 0, ack := 0, fin := 0, rst := 0)
    else
      var next := Step(v.state, f);
      v.(state := next, handshakes := v.handshakes + One(v.state == SynReceived && next == Established))
  }

  // One step of the fields is one more packet of history.
  lemma FieldsPush(h: seq<bv8>, f: bv8)
    ensures Moved(Counted(TcpFieldsOf(h), f), f) == TcpFieldsOf(h + [f])
  {
    HistoryPush(h, f);
    CountsPush(h, f);
    ReopeningSyn(StateAfter(h), f);
  }

  lemma ReopeningSyn(state: TcpState, f: bv8)
    ensures Reopens(state, f) ==> SynOnly(f) && !SynAck(f) && !PureAck(f) && !Rst(f) && Step(state, f) == SynSent
  {
  }

  // How each history function grows with one packet.
  lemma HistoryPush(h: seq<bv8>, f: bv8)
    ensures var h' := h + [f];
      && StateAfter(h') == Step(StateAfter(h), f)
      && FlagsSeen(h') == FlagsSeen(h) | f
      && (Reopens(StateAfter(h), f) ==> SessionStart(h') == |h| && FinsFrom(h') == |h| + 1)
      && (!Reopens(StateAfter(h), f) ==> SessionStart(h') == SessionStart(h) && FinsFrom(h') == FinsFrom(h))
      && Handshakes(h') == Handshakes(h) + (if StateAfter(h') == Established && StateAfter(h) == SynReceived then 1 else 0)
  {
    assert (h + [f])[..|h|] == h;
    StartBounded(h);
  }

  // How each counter grows with one packet, and what it is right after a reopening one.
  lemma CountsPush(h: seq<bv8>, f: bv8)
    ensures var h', s := h + [f], SessionStart(h + [f]);
      && CountSince(h', s, SynOnly) == (if s == |h| then 0 else CountSince(h, s, SynOnly)) + (if SynOnly(f) then 1 else 0)
      && CountSince(h', s, SynAck) == (if s == |h| then 0 else CountSince(h, s, SynAck)) + (if SynAck(f) then 1 else 0)
      && CountSince(h', s, PureAck) == (if s == |h| then 0 else CountSince(h, s, PureAck)) + (if PureAck(f) then 1 else 0)
      && CountSince(h', s, Rst) == (if s == |h| then 0 else CountSince(h, s, Rst)) + (if Rst(f) then 1 else 0)
      && CountSince(h', 0, Psh) == CountSince(h, 0, Psh) + (if Psh(f) then 1 else 0)
    ensures Reopens(StateAfter(h), f) ==> CountSince(h + [f], FinsFrom(h + [f]), Fin) == 0
    ensures !Reopens(StateAfter(h), f) ==>
      CountSince(h + [f], FinsFrom(h), Fin) == CountSince(h, FinsFrom(h), Fin) + (if Fin(f) then 1 else 0)
  {
    HistoryPush(h, f);
    assert (h + [f])[..|h|] == h;
  }

  lemma {:induction false} StartBounded(h: seq<bv8>)
    ensures Reopened(h) ==> SessionStart(h) < |h|
  {
    if h != [] {
      StartBounded(h[..|h| - 1]);
    }
  }
}
