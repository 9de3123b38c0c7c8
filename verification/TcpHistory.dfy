/** What a flow's TCP state and flag counters say about the flags of all its packets.

    The state machine keeps one state and a few counters. Here they are functions of the complete
    sequence of flag bytes; the state is shown to be the length of the longest prefix of the handshake
    and teardown pattern that occurs, in order, since the connection was last opened. */
module TcpHistory {
  import opened NetTypes

  datatype TcpState = Init | SynSent | SynReceived | Established | FinWait | Closed

  predicate PureAck(flags: bv8) {
    !HasFlag(flags, TCP_FLAG_SYN) && HasFlag(flags, TCP_FLAG_ACK)
  }

  predicate Fin(flags: bv8) {
    HasFlag(flags, TCP_FLAG_FIN)
  }

  predicate Rst(flags: bv8) {
    HasFlag(flags, TCP_FLAG_RST)
  }

  predicate Psh(flags: bv8) {
    HasFlag(flags, TCP_FLAG_PSH)
  }

  // A fresh SYN on a closed connection opens it again.
  predicate Reopens(state: TcpState, flags: bv8) {
    state == Closed && SynOnly(flags) && !Rst(flags)
  }

  function Step(state: TcpState, flags: bv8): TcpState {
    if Rst(flags) then Closed
    else match state
      case Init => if SynOnly(flags) then SynSent else Init
      case SynSent => if SynAck(flags) then SynReceived else SynSent
      case SynReceived => if PureAck(flags) then Established else SynReceived
      case Established => if Fin(flags) then FinWait else Established
      case FinWait => if Fin(flags) && HasFlag(flags, TCP_FLAG_ACK) then Closed else FinWait
      case Closed => if SynOnly(flags) then SynSent else Closed
  }

  function StateAfter(h: seq<bv8>): TcpState {
    if h == [] then Init else Step(StateAfter(h[..|h| - 1]), h[|h| - 1])
  }

  // Index of the packet that last reopened the connection; 0 if it never was reopened.
  function SessionStart(h: seq<bv8>): (s: nat)
    ensures s <= |h|
  {
    if h == [] then 0
    else
      var n := |h| - 1;
      if Reopens(StateAfter(h[..n]), h[n]) then n else SessionStart(h[..n])
  }

  // Whether the current session began with a reopening packet.
  predicate Reopened(h: seq<bv8>) {
    h != [] &&
    (var n := |h| - 1; Reopens(StateAfter(h[..n]), h[n]) || Reopened(h[..n]))
  }

  function CountSince(h: seq<bv8>, from: nat, p: bv8 -> bool): (n: nat)
    requires from <= |h|
    ensures n <= |h| - from
  {
    if |h| == from then 0
    else CountSince(h[..|h| - 1], from, p) + (if p(h[|h| - 1]) then 1 else 0)
  }

  // FIN packets are counted from just after the reopening packet, whose own FIN bit is forgotten.
  function FinsFrom(h: seq<bv8>): (s: nat)
    ensures s <= |h|
  {
    if Reopened(h) && SessionStart(h) < |h| then SessionStart(h) + 1 else SessionStart(h)
  }

  function FlagsSeen(h: seq<bv8>): bv8 {
    if h == [] then 0 else FlagsSeen(h[..|h| - 1]) | h[|h| - 1]
  }

  // Completed three-way handshakes: entries into the established state.
  function Handshakes(h: seq<bv8>): nat {
    if h == [] then 0
    else
      var n := |h| - 1;
      Handshakes(h[..n])
      + (if StateAfter(h) == Established && StateAfter(h[..n]) == SynReceived then 1 else 0)
  }

  // ---------------------------------------------------------------- the state as a longest match

  // The five packets of an orderly connection, in order.
  predicate Pattern(k: nat, flags: bv8) {
    match k
    case 0 => SynOnly(flags)
    case 1 => SynAck(flags)
    case 2 => PureAck(flags)
    case 3 => Fin(flags)
    case 4 => Fin(flags) && HasFlag(flags, TCP_FLAG_ACK)
    case _ => false
  }

  function Level(state: TcpState): nat {
    match state
    case Init => 0
    case SynSent => 1
    case SynReceived => 2
    case Established => 3
    case FinWait => 4
    case Closed => 5
  }

  // The first k pattern packets occur, in order, at or after index s.
  ghost predicate Embeds(k: nat, h: seq<bv8>, s: nat) {
    exists at: seq<int> :: EmbedsAt(at, k, h, s)
  }

  ghost predicate EmbedsAt(at: seq<int>, k: nat, h: seq<bv8>, s: nat) {
    && |at| == k
    && (forall j :: 0 <= j < k ==> s <= at[j] < |h| && Pattern(j, h[at[j]]))
    && (forall i, j :: 0 <= i < j < k ==> at[i] < at[j])
  }

  ghost predicate RstSince(h: seq<bv8>, s: nat) {
    exists i :: s <= i < |h| && Rst(h[i])
  }

  lemma EmbedsPush(k: nat, h: seq<bv8>, f: bv8, s: nat)
    requires s <= |h|
    ensures Embeds(k, h + [f], s) <==> Embeds(k, h, s) || (k > 0 && Pattern(k - 1, f) && Embeds(k - 1, h, s))
  {
    var longer := h + [f];
    if Embeds(k, longer, s) {
      var at :| EmbedsAt(at, k, longer, s);
      if k > 0 && at[k - 1] == |h| {
        assert EmbedsAt(at[..k - 1], k - 1, h, s);
      } else {
        assert forall j :: 0 <= j < k ==> at[j] < |h|;
        assert EmbedsAt(at, k, h, s);
      }
    }
    if Embeds(k, h, s) {
      var at :| EmbedsAt(at, k, h, s);
      assert EmbedsAt(at, k, longer, s);
    }
    if k > 0 && Pattern(k - 1, f) && Embeds(k - 1, h, s) {
      var at :| EmbedsAt(at, k - 1, h, s);
      assert EmbedsAt(at + [|h|], k, longer, s);
    }
  }

  lemma EmbedsNothing(k: nat, h: seq<bv8>)
    ensures Embeds(k, h, |h|) <==> k == 0
  {
    assert EmbedsAt([], 0, h, |h|);
    forall at: seq<int> | |at| == k && k > 0
      ensures !EmbedsAt(at, k, h, |h|)
    {
      assert !(|h| <= at[0] < |h|);
    }
  }

  lemma RstPush(h: seq<bv8>, f: bv8, s: nat)
    requires s <= |h|
    ensures RstSince(h + [f], s) <==> RstSince(h, s) || Rst(f)
  {
    if Rst(f) {
      assert Rst((h + [f])[|h|]);
    }
    if RstSince(h, s) {
      var i :| s <= i < |h| && Rst(h[i]);
      assert Rst((h + [f])[i]);
    }
  }

  // The machine is a longest-match scan: a reset since the session opened means Closed; without one,
  // the state tells exactly how much of the pattern has occurred in order since then.
  lemma {:induction false} StateIsLongestMatch(h: seq<bv8>)
    ensures var s := SessionStart(h);
      && (RstSince(h, s) ==> StateAfter(h) == Closed)
      && (!RstSince(h, s) ==> forall k :: 0 <= k <= 5 ==> (Embeds(k, h, s) <==> k <= Level(StateAfter(h))))
  {
    if h == [] {
      forall k: nat | k <= 5
        ensures Embeds(k, h, 0) <==> k == 0
      {
        EmbedsNothing(k, h);
      }
    } else {
      var n := |h| - 1;
      var pre, f, s := h[..n], h[n], SessionStart(h);
      assert h == pre + [f];
      StateIsLongestMatch(pre);
      if Reopens(StateAfter(pre), f) {
        ReopenedMatch(pre, f);
      } else {
        RstPush(pre, f, s);
        if !RstSince(h, s) {
          LevelStep(StateAfter(pre), f);
          forall k: nat | k <= 5
            ensures Embeds(k, h, s) <==> k <= Level(StateAfter(h))
          {
            EmbedsPush(k, pre, f, s);
            assert k > 0 ==> (Embeds(k - 1, pre, s) <==> k - 1 <= Level(StateAfter(pre)));
          }
        }
      }
    }
  }

  lemma ReopenedMatch(pre: seq<bv8>, f: bv8)
    requires Reopens(StateAfter(pre), f)
    ensures StateAfter(pre + [f]) == SynSent
    ensures forall k: nat :: k <= 5 ==> (Embeds(k, pre + [f], |pre|) <==> k <= 1)
    ensures !RstSince(pre + [f], |pre|)
  {
    assert (pre + [f])[..|pre|] == pre;
    forall k: nat | k <= 5
      ensures Embeds(k, pre + [f], |pre|) <==> k <= 1
    {
      EmbedsPush(k, pre, f, |pre|);
      EmbedsNothing(k, pre);
      if k > 0 {
        EmbedsNothing(k - 1, pre);
      }
    }
  }

  // One packet without a reset moves the level up by one exactly when it is the next of the pattern.
  lemma LevelStep(state: TcpState, f: bv8)
    requires !Rst(f) && !Reopens(state, f)
    ensures Level(Step(state, f)) == Level(state) + (if Pattern(Level(state), f) then 1 else 0)
  {
  }

  // ---------------------------------------------------------------- consequences

  // SYN_RECEIVED, ESTABLISHED and FIN_WAIT are evidence of the packets that lead there, in that order.

  lemma SynReceivedIsEvidence(h: seq<bv8>)
    requires StateAfter(h) == SynReceived
    ensures exists i, j :: SessionStart(h) <= i < j < |h| && SynOnly(h[i]) && SynAck(h[j])
  {
    hide SynOnly, SynAck, PureAck, Fin, SessionStart, StateAfter;
    var at := Witness(h, 2);
    assert SynOnly(h[at[0]]) && SynAck(h[at[1]]);
  }

  lemma EstablishedIsEvidence(h: seq<bv8>)
    requires StateAfter(h) == Established
    ensures exists i, j, k :: SessionStart(h) <= i < j < k < |h| && SynOnly(h[i]) && SynAck(h[j]) && PureAck(h[k])
  {
    hide SynOnly, SynAck, PureAck, Fin, SessionStart, StateAfter;
    var at := Witness(h, 3);
    assert SynOnly(h[at[0]]) && SynAck(h[at[1]]) && PureAck(h[at[2]]);
  }

  lemma FinWaitIsEvidence(h: seq<bv8>)
    requires StateAfter(h) == FinWait
    ensures exists i, j, k, l :: SessionStart(h) <= i < j < k < l < |h|
                                 && SynOnly(h[i]) && SynAck(h[j]) && PureAck(h[k]) && Fin(h[l])
  {
    hide SynOnly, SynAck, PureAck, Fin, SessionStart, StateAfter;
    var at := Witness(h, 4);
    assert SynOnly(h[at[0]]) && SynAck(h[at[1]]) && PureAck(h[at[2]]) && Fin(h[at[3]]);
  }

  lemma Witness(h: seq<bv8>, k: nat) returns (at: seq<int>)
    requires k == Level(StateAfter(h)) < 5
    ensures EmbedsAt(at, k, h, SessionStart(h))
  {
    StateIsLongestMatch(h);
    assert Embeds(k, h, SessionStart(h));
    at :| EmbedsAt(at, k, h, SessionStart(h));
  }

  // CLOSED is evidence of a reset, or of two different FIN packets, since the session opened.
  lemma ClosedIsEvidence(h: seq<bv8>)
    requires StateAfter(h) == Closed
    ensures var s := SessionStart(h);
      RstSince(h, s) || exists i, j :: s <= i < j < |h| && Fin(h[i]) && Fin(h[j])
  {
    var s := SessionStart(h);
    StateIsLongestMatch(h);
    if !RstSince(h, s) {
      assert Embeds(5, h, s);
      var at :| EmbedsAt(at, 5, h, s);
      assert Fin(h[at[3]]) && Fin(h[at[4]]);
    }
  }

  // A handshake takes three packets and at least one more must close the connection before the next.
  lemma {:induction false} HandshakesAreSparse(h: seq<bv8>)
    ensures 4 * Handshakes(h) <= |h| + 1
    ensures StateAfter(h) in {Init, FinWait, Closed} ==> 4 * Handshakes(h) <= |h|
    ensures StateAfter(h) == SynSent ==> 4 * Handshakes(h) <= |h| - 1
    ensures StateAfter(h) == SynReceived ==> 4 * Handshakes(h) <= |h| - 2
  {
    if h != [] {
      HandshakesAreSparse(h[..|h| - 1]);
    }
  }

  // A bit is set in the accumulator exactly when some packet of the flow carried it.
  lemma {:induction false} FlagsSeenIsUnion(h: seq<bv8>, mask: bv8)
    ensures HasFlag(FlagsSeen(h), mask) <==> exists i :: 0 <= i < |h| && HasFlag(h[i], mask)
  {
    if h != [] {
      var n := |h| - 1;
      FlagsSeenIsUnion(h[..n], mask);
      OrFlag(FlagsSeen(h[..n]), h[n], mask);
      if HasFlag(FlagsSeen(h[..n]), mask) {
        var i :| 0 <= i < n && HasFlag(h[..n][i], mask);
        assert HasFlag(h[i], mask);
      }
      if i :| 0 <= i < n && HasFlag(h[i], mask) {
        assert HasFlag(h[..n][i], mask);
      }
    }
  }

  lemma OrFlag(a: bv8, b: bv8, mask: bv8)
    ensures HasFlag(a | b, mask) <==> HasFlag(a, mask) || HasFlag(b, mask)
  {
  }
}
