/** The flow table as one thread sees it: find-or-insert under a size limit, and the eviction sweep. */
module FlowTable {
  import opened NetTypes
  import opened FlowKeys
  import opened TcpHistory
  import opened FlowRecords

  datatype FlowTrackerConfig = FlowTrackerConfig(tcpTimeoutSec: real, udpTimeoutSec: real, maxFlows: nat)

  const CLOSED_GRACE_SEC := 5.0

  // When a sweep that read its clock at `now` removes a flow: closed TCP flows go early.
  predicate Expired(cfg: FlowTrackerConfig, protocol: Byte, state: TcpState, lastSeen: real, now: real) {
    var idle := now - lastSeen;
    if protocol == IPPROTO_TCP then (state == Closed && idle > CLOSED_GRACE_SEC) || idle > cfg.tcpTimeoutSec
    else idle > cfg.udpTimeoutSec
  }

  predicate Doomed(cfg: FlowTrackerConfig, r: FlowRecord, now: real)
    reads r
  {
    Expired(cfg, r.key.protocol, r.tcp.state, r.accounts.lastSeen, now)
  }

  // A record filed under its own key, holding packets of that key only.
  ghost predicate FiledUnder(r: FlowRecord, k: FlowKey)
    reads r
  {
    r.Valid() && r.key == k && r.absorbed != [] && (forall o :: o in r.absorbed ==> Genuine(o) && o.key == k)
  }

  class FlowTracker {
    const cfg: FlowTrackerConfig
    var table: map<FlowKey, FlowRecord>
    var created: nat
    var evicted: nat
    var active: nat

    // Every record is filed under its own key, hence under no other; the counters agree with the table.
    ghost predicate Valid()
      reads this, table.Values
    {
      && |table| <= cfg.maxFlows
      && active == |table|
      && created == active + evicted
      && (forall k :: k in table ==> FiledUnder(table[k], k))
    }

    constructor (cfg: FlowTrackerConfig)
      ensures Valid()
      ensures this.cfg == cfg && table == map[] && created == 0
    {
      this.cfg := cfg;
      table := map[];
      created, evicted, active := 0, 0, 0;
    }

    // Find or insert the flow of one packet and absorb the packet; no record when the table is full.
    method Update(p: Packet, now: real) returns (r: FlowRecord?)
      requires Valid()
      modifies this, table.Values
      ensures Valid()
      ensures var o := Observe(p, now);
        && evicted == old(evicted)
        && (if o.key in old(table)
            then r == old(table)[o.key] && table == old(table) && r.absorbed == old(table[o.key].absorbed) + [o]
            else if |old(table)| >= cfg.maxFlows then r == null && table == old(table)
            else r != null && fresh(r) && table == old(table)[o.key := r] && r.absorbed == [o])
        && (forall k :: k in old(table) && k != o.key ==> table[k].absorbed == old(table[k].absorbed))
    {
      hide FiledUnder, Genuine, Observe;
      var o := Observe(p, now);
      ObserveIsGenuine(p, now);
      if o.key in table {
        r := table[o.key];
        TouchFiled(o);
      } else if |table| >= cfg.maxFlows {
        r := null;
      } else {
        r := Insert(o);
      }
    }

    // The first packet of a flow.
    method Insert(o: Observation) returns (r: FlowRecord)
      requires Valid() && Genuine(o) && o.key !in table && |table| < cfg.maxFlows
      modifies this
      ensures Valid()
      ensures fresh(r) && table == old(table)[o.key := r] && r.absorbed == [o] && evicted == old(evicted)
    {
      hide FiledUnder, Genuine;
      r := NewRecord(o);
      Admit(o.key, r);
    }

    method TouchFiled(o: Observation)
      requires Valid() && Genuine(o) && o.key in table
      modifies table[o.key]
      ensures Valid()
      ensures table[o.key].absorbed == old(table[o.key].absorbed) + [o]
      ensures forall k :: k in table && k != o.key ==> table[k].absorbed == old(table[k].absorbed)
    {
      hide FiledUnder, Genuine;
      DistinctRecords(o.key);
      Touch(table[o.key], o);
    }

    method Admit(key: FlowKey, r: FlowRecord)
      requires Valid() && FiledUnder(r, key)
      requires key !in table && |table| < cfg.maxFlows
      modifies this
      ensures Valid()
      ensures table == old(table)[key := r] && evicted == old(evicted)
    {
      hide FiledUnder;
      table := table[key := r];
      created := created + 1;
      active := active + 1;
    }

    lemma DistinctRecords(key: FlowKey)
      requires Valid() && key in table
      ensures forall k :: k in table && k != key ==> table[k] != table[key]
    {
    }

    // The sweep of the reaper, with the clock it read: exactly the expired flows go.
    method EvictExpiredFlows(now: real)
      requires Valid()
      modifies this
      ensures Valid()
      ensures table == map k | k in old(table) && !Doomed(cfg, old(table)[k], now) :: old(table)[k]
      ensures created == old(created)
      ensures evicted == old(evicted) + |old(table)| - |table|
    {
      hide FiledUnder, Doomed;
      var gone;
      table, gone := Survivors(cfg, table, now);
      active := active - gone;
      if gone > 0 {
        evicted := evicted + gone;
      }
    }
  }

  // The sweep itself: erase the expired flows one by one and count them.
  method Survivors(cfg: FlowTrackerConfig, before: map<FlowKey, FlowRecord>, now: real)
    returns (table: map<FlowKey, FlowRecord>, gone: nat)
    ensures table == map k | k in before && !Doomed(cfg, before[k], now) :: before[k]
    ensures gone + |table| == |before|
  {
    hide Doomed;
    table, gone := before, 0;
    var todo := table.Keys;
    while todo != {}
      invariant todo <= table.Keys <= before.Keys
      invariant forall k :: k in table ==> table[k] == before[k] && (k in todo || !Doomed(cfg, before[k], now))
      invariant forall k :: k in before && k !in table ==> Doomed(cfg, before[k], now)
      invariant gone + |table| == |before|
      decreases |todo|
    {
      var k :| k in todo;
      if Doomed(cfg, table[k], now) {
        assert table.Keys == (table - {k}).Keys + {k};
        table := table - {k};
        gone := gone + 1;
      }
      todo := todo - {k};
    }
  }

  lemma ObserveIsGenuine(p: Packet, now: real)
    ensures Genuine(Observe(p, now))
  {
  }

  method Touch(r: FlowRecord, o: Observation)
    requires Genuine(o) && FiledUnder(r, o.key)
    modifies r
    ensures FiledUnder(r, o.key)
    ensures r.absorbed == old(r.absorbed) + [o]
  {
    hide FlowRecord.Valid, Genuine;
    r.UpdateRecord(o);
  }

  method NewRecord(o: Observation) returns (r: FlowRecord)
    requires Genuine(o)
    ensures fresh(r) && FiledUnder(r, o.key) && r.absorbed == [o]
  {
    hide FlowRecord.Valid, Genuine;
    r := new FlowRecord(o.key, o.time);
    r.UpdateRecord(o);
    assert r.absorbed == [o];
  }

  // A flow expires once idle for longer than the timeout of its protocol; a closed TCP flow after 5 seconds.
  lemma ExpiredIff(cfg: FlowTrackerConfig, protocol: Byte, state: TcpState, lastSeen: real, now: real)
    ensures Expired(cfg, protocol, state, lastSeen, now) <==>
      || now - lastSeen > (if protocol == 6 then cfg.tcpTimeoutSec else cfg.udpTimeoutSec)
      || (protocol == 6 && state == Closed && now - lastSeen > 5.0)
  {
  }
}
