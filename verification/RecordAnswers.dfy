/** What the fields of a flow record mean, by positions in the packets it has absorbed: flag counts, the two
    tumbling windows, and the direction of a packet. */
module RecordAnswers {
  import opened NetTypes
  import opened FlowKeys
  import opened TcpHistory
  import opened FlowRecords

  // ---------------------------------------------------------------- flag counts

  function Positions(h: seq<bv8>, from: nat, p: bv8 -> bool): set<int> {
    set i | from <= i < |h| && p(h[i])
  }

  lemma {:induction false} CountIsCardinality(h: seq<bv8>, from: nat, p: bv8 -> bool)
    requires from <= |h|
    ensures CountSince(h, from, p) == |Positions(h, from, p)|
  {
    if from == |h| {
      assert Positions(h, from, p) == {};
    } else {
      var n := |h| - 1;
      CountIsCardinality(h[..n], from, p);
      PositionsPush(h, from, p);
    }
  }

  lemma PositionsPush(h: seq<bv8>, from: nat, p: bv8 -> bool)
    requires from < |h|
    ensures var n := |h| - 1; |Positions(h, from, p)| == |Positions(h[..n], from, p)| + (if p(h[n]) then 1 else 0)
  {
    var n := |h| - 1;
    assert Positions(h, from, p) == Positions(h[..n], from, p) + (if p(h[n]) then {n} else {});
  }

  lemma SamePositions(h: seq<bv8>, from: nat, p: bv8 -> bool, q: bv8 -> bool)
    requires forall f :: p(f) <==> q(f)
    ensures Positions(h, from, p) == Positions(h, from, q)
  {
    forall i | from <= i < |h|
      ensures p(h[i]) <==> q(h[i])
    {
      var f := h[i];
      assert p(f) <==> q(f);
    }
  }

  // A packet that reopens a closed connection: SYN without ACK or RST.
  ghost predicate ReopensAt(h: seq<bv8>, i: nat) {
    i < |h| && StateAfter(h[..i]) == Closed && h[i] & 0x02 != 0 && h[i] & 0x10 == 0 && h[i] & 0x04 == 0
  }

  // The session starts with the last such packet, or with the first packet of all.
  lemma {:induction false} SessionStartIs(h: seq<bv8>)
    ensures var s := SessionStart(h);
      && (s == 0 || ReopensAt(h, s)) && (forall i: nat :: s < i < |h| ==> !ReopensAt(h, i))
      && (Reopened(h) <==> s > 0) && (s < |h| || h == [])
  {
    hide StateAfter;
    if h != [] {
      var n := |h| - 1;
      SessionStartIs(h[..n]);
      ReopensByBits(StateAfter(h[..n]), h[n]);
      forall i: nat | i < n
        ensures ReopensAt(h[..n], i) <==> ReopensAt(h, i)
      {
        assert h[..n][..i] == h[..i];
      }
      NeverAtFirst(h);
    }
  }

  lemma ReopensByBits(state: TcpState, f: bv8)
    ensures Reopens(state, f) <==> state == Closed && f & 0x02 != 0 && f & 0x10 == 0 && f & 0x04 == 0
  {
  }

  lemma NeverAtFirst(h: seq<bv8>)
    requires h != []
    ensures StateAfter(h[..0]) != Closed
  {
  }

  // The counters of a record count, since the session started, the packets with these bits; pushes are counted
  // since ever, and FINs from behind a reopening packet on.
  lemma FlagFieldsAre(h: seq<bv8>)
    ensures var s, t := SessionStart(h), TcpFieldsOf(h);
      && t.syn == |Positions(h, s, f => f & 0x02 != 0 && f & 0x10 == 0)|
      && t.synAck == |Positions(h, s, f => f & 0x02 != 0 && f & 0x10 != 0)|
      && t.ack == |Positions(h, s, f => f & 0x02 == 0 && f & 0x10 != 0)|
      && t.rst == |Positions(h, s, f => f & 0x04 != 0)|
      && t.psh == |Positions(h, 0, f => f & 0x08 != 0)|
      && t.fin == |Positions(h, if s > 0 then s + 1 else 0, f => f & 0x01 != 0)|
  {
    hide StateAfter, FlagsSeen, Handshakes, Positions, CountSince;
    var s := SessionStart(h);
    SessionStartIs(h);
    CountIsCardinality(h, s, SynOnly);
    CountIsCardinality(h, s, SynAck);
    CountIsCardinality(h, s, PureAck);
    CountIsCardinality(h, s, Rst);
    CountIsCardinality(h, 0, Psh);
    CountIsCardinality(h, FinsFrom(h), Fin);
    SamePositions(h, s, SynOnly, f => f & 0x02 != 0 && f & 0x10 == 0);
    SamePositions(h, s, SynAck, f => f & 0x02 != 0 && f & 0x10 != 0);
    SamePositions(h, s, PureAck, f => f & 0x02 == 0 && f & 0x10 != 0);
    SamePositions(h, s, Rst, f => f & 0x04 != 0);
    SamePositions(h, 0, Psh, f => f & 0x08 != 0);
    SamePositions(h, FinsFrom(h), Fin, f => f & 0x01 != 0);
  }

  // A pure ACK without RST that found a SYN answered.
  ghost predicate CompletesAt(h: seq<bv8>, i: nat) {
    i < |h| && StateAfter(h[..i]) == SynReceived && h[i] & 0x02 == 0 && h[i] & 0x10 != 0 && h[i] & 0x04 == 0
  }

  ghost function Completions(h: seq<bv8>): set<nat> {
    set i: nat | i < |h| && CompletesAt(h, i)
  }

  // Those are the completed handshakes.
  lemma {:induction false} HandshakesAre(h: seq<bv8>)
    ensures Handshakes(h) == |Completions(h)|
  {
    hide StateAfter;
    if h == [] {
      assert Completions(h) == {};
    } else {
      var n := |h| - 1;
      HandshakesAre(h[..n]);
      CompletionByBits(h);
      forall i: nat | i < n
        ensures CompletesAt(h[..n], i) <==> CompletesAt(h, i)
      {
        assert h[..n][..i] == h[..i];
      }
      hide CompletesAt;
      assert Completions(h) == Completions(h[..n]) + (if CompletesAt(h, n) then {n as nat} else {});
    }
  }

  lemma CompletionByBits(h: seq<bv8>)
    requires h != []
    ensures var n := |h| - 1;
      CompletesAt(h, n) <==> StateAfter(h) == Established && StateAfter(h[..n]) == SynReceived
  {
  }

  // ---------------------------------------------------------------- accounts

  function Going(os: seq<Observation>, d: FlowDirection): set<int> {
    set i | 0 <= i < |os| && os[i].direction == d
  }

  lemma {:induction false} PacketsAre(os: seq<Observation>, d: FlowDirection)
    ensures Packets(os, d) == |Going(os, d)|
  {
    if os == [] {
      assert Going(os, d) == {};
    } else {
      var n := |os| - 1;
      PacketsAre(os[..n], d);
      GoingPush(os, d);
      hide Going;
    }
  }

  lemma GoingPush(os: seq<Observation>, d: FlowDirection)
    requires os != []
    ensures var n := |os| - 1; |Going(os, d)| == |Going(os[..n], d)| + (if os[n].direction == d then 1 else 0)
  {
    var n := |os| - 1;
    assert Going(os, d) == Going(os[..n], d) + (if os[n].direction == d then {n} else {});
  }

  // One more packet adds its bytes to its own direction, and nothing to the other.
  lemma BytesPush(os: seq<Observation>, o: Observation, d: FlowDirection)
    ensures FlowRecords.Bytes(os + [o], d) == FlowRecords.Bytes(os, d) + (if o.direction == d then o.capturedLength else 0)
  {
    assert (os + [o])[..|os|] == os;
  }

  // A packet goes from low to high exactly when it comes from the key's low end, if the addresses differ; and
  // always when they do not.
  lemma DirectionIs(p: Packet, now: real)
    ensures var o := Observe(p, now);
      && (p.srcAddr == p.dstAddr ==> o.direction == LoToHi)
      && (p.srcAddr != p.dstAddr ==> (o.direction == LoToHi <==> o.key.loAddr == p.srcAddr))
      && o.time == now && o.dstPort == p.dstPort && o.capturedLength == p.capturedLength
      && o.isTcp == p.isTcp && o.tcpFlags == p.tcpFlags
  {
    AddrTrichotomy(p.srcAddr, p.dstAddr);
  }

  // ---------------------------------------------------------------- the two windows

  predicate Contacts(o: Observation) {
    o.isTcp && o.direction == LoToHi && o.dstPort != 0
  }

  predicate Knocks(o: Observation) {
    o.isTcp && o.tcpFlags & 0x02 != 0 && o.tcpFlags & 0x10 == 0
  }

  // Destinations contacted from an index on.
  function PortsFrom(os: seq<Observation>, from: nat): set<Port> {
    set i | from <= i < |os| && Contacts(os[i]) :: os[i].dstPort
  }

  function KnocksFrom(os: seq<Observation>, from: nat): set<int> {
    set i | from <= i < |os| && Knocks(os[i])
  }

  // The scan window holds exactly the ports contacted since its opener, all less than ten seconds after its
  // start. The opener came ten seconds or more after the start before it; at first the record's creation
  // stands for it.
  lemma {:induction false} ScanWindowIs(created: real, os: seq<Observation>) returns (opener: nat)
    ensures opener <= |os|
    ensures var w := ScanWindowOf(created, os);
      && w.ports == PortsFrom(os, opener)
      && (opener > 0 || w.start != created ==>
            && opener < |os| && Contacts(os[opener]) && w.start == os[opener].time
            && w.start - ScanWindowOf(created, os[..opener]).start >= 10.0)
      && forall i :: opener <= i < |os| && Contacts(os[i]) ==> os[i].time - w.start < 10.0
  {
    opener := 0;
    if os != [] {
      var n := |os| - 1;
      var o, w := os[n], ScanWindowOf(created, os[..n]);
      opener := ScanWindowIs(created, os[..n]);
      if Contacts(o) && o.time - w.start >= 10.0 {
        opener := n;
        assert PortsFrom(os, n) == {o.dstPort};
      } else {
        assert opener <= n && os[..n][..opener] == os[..opener];
        PortsPush(os, opener);
      }
    }
  }

  lemma PortsPush(os: seq<Observation>, from: nat)
    requires from < |os|
    ensures var n := |os| - 1;
      PortsFrom(os, from) == PortsFrom(os[..n], from) + (if Contacts(os[n]) then {os[n].dstPort} else {})
  {
    hide Contacts;
    var n := |os| - 1;
    assert forall i :: 0 <= i < n ==> os[..n][i] == os[i];
    assert forall i :: from <= i < |os| && Contacts(os[i]) ==> i == n || (i < n && Contacts(os[..n][i]));
  }

  // The SYN window counts exactly the SYN-only packets since its opener, all less than a second after its
  // start.
  lemma {:induction false} SynWindowIs(created: real, os: seq<Observation>) returns (opener: nat)
    ensures opener <= |os|
    ensures var w := SynWindowOf(created, os);
      && w.count == |KnocksFrom(os, opener)|
      && (opener > 0 || w.start != created ==>
            && opener < |os| && Knocks(os[opener]) && w.start == os[opener].time
            && w.start - SynWindowOf(created, os[..opener]).start >= 1.0)
      && forall i :: opener <= i < |os| && Knocks(os[i]) ==> os[i].time - w.start < 1.0
  {
    hide SynOnly;
    opener := 0;
    if os == [] {
      assert KnocksFrom(os, 0) == {};
    } else {
      var n := |os| - 1;
      var o, w := os[n], SynWindowOf(created, os[..n]);
      KnocksByBits(o);
      hide Knocks;
      opener := SynWindowIs(created, os[..n]);
      if Knocks(o) && o.time - w.start >= 1.0 {
        opener := n;
        assert KnocksFrom(os, n) == {n};
      } else {
        assert opener <= n && os[..n][..opener] == os[..opener];
        KnocksPush(os, opener);
      }
    }
  }

  lemma KnocksByBits(o: Observation)
    ensures Knocks(o) <==> o.isTcp && SynOnly(o.tcpFlags)
  {
  }

  lemma KnocksPush(os: seq<Observation>, from: nat)
    requires from < |os|
    ensures var n := |os| - 1; |KnocksFrom(os, from)| == |KnocksFrom(os[..n], from)| + (if Knocks(os[n]) then 1 else 0)
  {
    hide Knocks;
    var n := |os| - 1;
    assert KnocksFrom(os, from) == KnocksFrom(os[..n], from) + (if Knocks(os[n]) then {n} else {});
  }
}
