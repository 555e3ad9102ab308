/**
 * A distributed-memory node: a map from entity id to entity, five counters and
 * a running flag. The periodic apoptosis monitor is modelled one tick at a
 * time (MonitorTick); its re-scheduling is left to whoever drives the model.
 */
module DistributedMemory {
  import opened TronEntity

  /** The node's counters. `messagesSent` is never incremented by any operation. */
  datatype Stats = Stats(
    tronsCreated: nat,
    tronsReplicated: nat,
    tronsDeleted: nat,
    messagesSent: nat,
    apoptosisTriggered: nat)

  const ZeroStats: Stats := Stats(0, 0, 0, 0, 0)

  /** The snapshot get_status returns. */
  datatype NodeStatus = NodeStatus(nodeId: string, tronsActive: nat, stats: Stats, running: bool)

  // ----- Specification of one monitor tick -----

  /** What one tick does to a surviving entity: ALIVE and due becomes DYING, anything else is kept. */
  function Tick(t: Tron, now: int): (r: Tron)
    ensures r.state == (if ShouldDie(t, now) && t.state == Alive then Dying else t.state)
    ensures r.(state := t.state) == t
  {
    if ShouldDie(t, now) && t.state == Alive then TriggerApoptosis(t) else t
  }

  /** The entries one tick keeps, each after Tick: exactly the ids that were not DEAD. */
  function SweepMap(m: map<string, Tron>, now: int): (r: map<string, Tron>)
    ensures r.Keys == m.Keys - DeadIds(m)
  {
    map id | id in m && m[id].state != Dead :: Tick(m[id], now)
  }

  /** Ids of the entries a tick moves from ALIVE to DYING. */
  function TriggeredIds(m: map<string, Tron>, now: int): set<string>
  {
    set id | id in m && ShouldDie(m[id], now) && m[id].state == Alive
  }

  /** Ids of the entries a tick removes. */
  function DeadIds(m: map<string, Tron>): set<string>
  {
    set id | id in m && m[id].state == Dead
  }

  /** The counters after a tick over `m`: only the triggered and deleted counts move, and they never fall. */
  function SweepStats(s: Stats, m: map<string, Tron>, now: int): (r: Stats)
    ensures r.tronsCreated == s.tronsCreated && r.tronsReplicated == s.tronsReplicated
    ensures r.messagesSent == s.messagesSent
    ensures r.apoptosisTriggered >= s.apoptosisTriggered && r.tronsDeleted >= s.tronsDeleted
  {
    s.(apoptosisTriggered := s.apoptosisTriggered + |TriggeredIds(m, now)|,
       tronsDeleted := s.tronsDeleted + |DeadIds(m)|)
  }

  /** One visit of the monitor loop to the entry under `id`. */
  function VisitMap(m: map<string, Tron>, id: string, now: int): map<string, Tron>
    requires id in m
  {
    if m[id].state == Dead then m - {id}
    else if ShouldDie(m[id], now) && m[id].state == Alive then m[id := TriggerApoptosis(m[id])]
    else m
  }

  /** The counters after one visit to entry `t`. */
  function VisitStats(s: Stats, t: Tron, now: int): Stats
  {
    if t.state == Dead then s.(tronsDeleted := s.tronsDeleted + 1)
    else if ShouldDie(t, now) && t.state == Alive then s.(apoptosisTriggered := s.apoptosisTriggered + 1)
    else s
  }

  /** Every entry of `m` is stored under its own id. */
  predicate KeyedById(m: map<string, Tron>)
  {
    forall id :: id in m ==> m[id].id == id
  }

  /** Every entry of `m` is DYING or ALIVE. */
  predicate NoDead(m: map<string, Tron>)
  {
    forall id :: id in m ==> m[id].state != Dead
  }

  /** Each entry still present in `m'` is a later snapshot of its entry in `m`. */
  predicate MapEvolves(m: map<string, Tron>, m': map<string, Tron>)
  {
    forall id :: id in m && id in m' ==> Evolves(m[id], m'[id])
  }

  /** Part of a tick: the ids in `done` have been visited, the others not yet. */
  function PartialSweep(m: map<string, Tron>, done: set<string>, now: int): map<string, Tron>
  {
    map id | id in m && (id !in done || m[id].state != Dead) ::
      if id in done then Tick(m[id], now) else m[id]
  }

  /** The forced apoptosis command's effect on one node's map; it keeps every id. */
  function ForceMap(m: map<string, Tron>): (r: map<string, Tron>)
    ensures r.Keys == m.Keys
  {
    map id | id in m :: if m[id].state == Alive then TriggerApoptosis(m[id]) else m[id]
  }

  // ----- Lemmas about the tick -----

  /**
   * A tick removes exactly the DEAD entries, moves every ALIVE entry that
   * should die to DYING, and leaves every other entry untouched.
   */
  lemma SweepEffect(m: map<string, Tron>, now: int, id: string)
    requires id in m
    ensures id in SweepMap(m, now) <==> m[id].state != Dead
    ensures m[id].state == Alive && ShouldDie(m[id], now) ==>
              SweepMap(m, now)[id] == TriggerApoptosis(m[id]) && SweepMap(m, now)[id].state == Dying
    ensures m[id].state != Dead && !(m[id].state == Alive && ShouldDie(m[id], now)) ==>
              SweepMap(m, now)[id] == m[id]
  {
  }

  /** A tick adds no entry, leaves no DEAD entry and moves every entry by at most one lifecycle step. */
  lemma SweepLeavesNoDead(m: map<string, Tron>, now: int)
    ensures SweepMap(m, now).Keys <= m.Keys
    ensures NoDead(SweepMap(m, now))
    ensures MapEvolves(m, SweepMap(m, now))
  {
  }

  /** A tick keeps every entry under its own id. */
  lemma SweepKeyedById(m: map<string, Tron>, now: int)
    requires KeyedById(m)
    ensures KeyedById(SweepMap(m, now))
  {
  }

  /** A delivered ALIVE entry is DYING after the next tick, whatever its TTL. */
  lemma DeliveredDiesNextTick(m: map<string, Tron>, now: int, id: string)
    requires id in m && m[id].delivered && m[id].state == Alive
    ensures id in SweepMap(m, now) && SweepMap(m, now)[id].state == Dying
  {
  }

  /** After a tick the node holds exactly its former entries minus the DEAD ones. */
  lemma SweepCount(m: map<string, Tron>, now: int)
    ensures DeadIds(m) <= m.Keys
    ensures |SweepMap(m, now)| == |m| - |DeadIds(m)|
  {
    var kept := SweepMap(m, now).Keys;
    assert kept == m.Keys - DeadIds(m);
    assert m.Keys == kept + DeadIds(m);
    assert kept !! DeadIds(m);
    assert |m.Keys| == |kept| + |DeadIds(m)|;
  }

  /** A tick leaves a node with no DEAD entry unchanged in size and removes nothing. */
  lemma SweepTwiceKeepsAll(m: map<string, Tron>, now: int)
    ensures SweepMap(SweepMap(m, now), now).Keys == SweepMap(m, now).Keys
    ensures DeadIds(SweepMap(m, now)) == {}
  {
    SweepLeavesNoDead(m, now);
  }

  /**
   * Forced apoptosis turns every ALIVE entry DYING, leaves the others alone,
   * keeps every id and moves every entry by at most one lifecycle step.
   */
  lemma ForceEffect(m: map<string, Tron>)
    ensures ForceMap(m).Keys == m.Keys
    ensures forall id :: id in m ==> ForceMap(m)[id].state == (if m[id].state == Alive then Dying else m[id].state)
    ensures forall id :: id in m && m[id].state != Alive ==> ForceMap(m)[id] == m[id]
    ensures MapEvolves(m, ForceMap(m))
  {
  }

  class MemoryNode {
    const nodeId: string
    var trons: map<string, Tron>
    var running: bool
    var stats: Stats

    /** Every entry is stored under its own id. */
    ghost predicate Valid()
      reads this
    {
      KeyedById(trons)
    }

    constructor (nodeId: string)
      ensures Valid()
      ensures this.nodeId == nodeId && trons == map[] && !running && stats == ZeroStats
    {
      this.nodeId := nodeId;
      trons := map[];
      running := false;
      stats := ZeroStats;
    }

    /** start(): set the running flag; the monitor's first tick runs at once. */
    method Start(now: int)
      requires Valid()
      modifies this
      ensures Valid() && running
      ensures trons == SweepMap(old(trons), now)
      ensures stats == SweepStats(old(stats), old(trons), now)
      ensures NoDead(trons) && MapEvolves(old(trons), trons)
    {
      running := true;
      MonitorTick(now);
    }

    /** stop(): clear the running flag; the next tick then does nothing. */
    method Stop()
      modifies this
      ensures !running && trons == old(trons) && stats == old(stats)
    {
      running := false;
    }

    /**
     * create_tron: store a new ALIVE entity under `id` and count it. An entry
     * already under `id` is overwritten, and the counter still rises.
     */
    method CreateTron(id: string, content: string, valor: int, potencia: real,
                      frequencia: real, ttlSeconds: int, now: int) returns (t: Tron)
      requires Valid()
      modifies this
      ensures Valid()
      ensures t == NewTron(id, content, valor, potencia, frequencia, ttlSeconds, now)
      ensures trons == old(trons)[id := t]
      ensures id !in old(trons) ==> |trons| == |old(trons)| + 1
      ensures stats == old(stats).(tronsCreated := old(stats).tronsCreated + 1)
      ensures running == old(running)
    {
      t := NewTron(id, content, valor, potencia, frequencia, ttlSeconds, now);
      trons := trons[id := t];
      stats := stats.(tronsCreated := stats.tronsCreated + 1);
    }

    /**
     * replicate_tron: add every target to the entity's replica set and count
     * one replication per target, duplicates included. An entity no longer in
     * the map is not visible afterwards, but the counter still rises.
     */
    method ReplicateTron(id: string, targets: seq<string>)
      requires Valid()
      modifies this
      ensures Valid()
      ensures id in old(trons) ==>
                trons == old(trons)[id := old(trons)[id].(replicas := old(trons)[id].replicas + set x | x in targets)]
      ensures id !in old(trons) ==> trons == old(trons)
      ensures MapEvolves(old(trons), trons)
      ensures stats == old(stats).(tronsReplicated := old(stats).tronsReplicated + |targets|)
      ensures running == old(running)
    {
      ghost var m0 := trons;
      var i := 0;
      while i < |targets|
        invariant 0 <= i <= |targets|
        invariant id in m0 ==> id in trons && trons == m0[id := trons[id]]
        invariant id in m0 ==> trons[id] == m0[id].(replicas := m0[id].replicas + set x | x in targets[..i])
        invariant id !in m0 ==> trons == m0
        invariant stats == old(stats).(tronsReplicated := old(stats).tronsReplicated + i)
        invariant running == old(running)
      {
        if id in trons {
          trons := trons[id := trons[id].(replicas := trons[id].replicas + {targets[i]})];
        }
        stats := stats.(tronsReplicated := stats.tronsReplicated + 1);
        assert targets[..i + 1] == targets[..i] + [targets[i]];
        i := i + 1;
      }
      assert targets[..i] == targets;
    }

    /** mark_delivered: a missing id is a silent no-op; otherwise the last writer wins. */
    method MarkDeliveredById(id: string, target: string)
      requires Valid()
      modifies this
      ensures Valid()
      ensures id in old(trons) ==> trons == old(trons)[id := MarkDelivered(old(trons)[id], target)]
      ensures id !in old(trons) ==> trons == old(trons)
      ensures MapEvolves(old(trons), trons)
      ensures stats == old(stats) && running == old(running)
    {
      if id in trons {
        trons := trons[id := MarkDelivered(trons[id], target)];
      }
    }

    /**
     * The timer callback triggerApoptosis schedules: the DYING entity becomes
     * DEAD. The timer belongs to an entity triggerApoptosis made DYING; when
     * the id no longer holds a DYING entity (it was removed, or a new ALIVE
     * entity was stored under it), that entity is not in the map and nothing
     * visible changes.
     */
    method CompleteApoptosisById(id: string)
      requires Valid()
      modifies this
      ensures Valid()
      ensures id in old(trons) && old(trons)[id].state == Dying ==>
                trons == old(trons)[id := CompleteApoptosis(old(trons)[id])]
      ensures !(id in old(trons) && old(trons)[id].state == Dying) ==> trons == old(trons)
      ensures MapEvolves(old(trons), trons)
      ensures stats == old(stats) && running == old(running)
    {
      if id in trons && trons[id].state == Dying {
        trons := trons[id := CompleteApoptosis(trons[id])];
      }
    }

    /**
     * One tick of the apoptosis monitor: nothing on a stopped node; otherwise
     * visit every entry once, trigger apoptosis on each ALIVE entry that
     * should die and remove each DEAD entry, counting both.
     */
    method MonitorTick(now: int)
      requires Valid()
      modifies this
      ensures Valid() && running == old(running)
      ensures !old(running) ==> trons == old(trons) && stats == old(stats)
      ensures old(running) ==> trons == SweepMap(old(trons), now)
      ensures old(running) ==> stats == SweepStats(old(stats), old(trons), now)
      ensures old(running) ==> NoDead(trons)
      ensures MapEvolves(old(trons), trons)
    {
      if !running {
        return;
      }
      ghost var m0, s0 := trons, stats;
      var pending := trons.Keys;
      TickInvariantInit(m0, s0, now);
      while pending != {}
        invariant TickInvariant(m0, s0, pending, now, trons, stats)
        invariant running == old(running)
        decreases pending
      {
        var id :| id in pending;
        TickInvariantStep(m0, s0, pending, id, now, trons, stats);
        VisitEntry(id, now);
        pending := pending - {id};
      }
      TickInvariantDone(m0, s0, now, trons, stats);
      SweepKeyedById(m0, now);
      SweepLeavesNoDead(m0, now);
    }

    /**
     * The body of the monitor loop for the entry under `id`: trigger apoptosis
     * if it is ALIVE and should die, then remove it if it is DEAD.
     */
    method VisitEntry(id: string, now: int)
      requires id in trons
      modifies this
      ensures trons == VisitMap(old(trons), id, now)
      ensures stats == VisitStats(old(stats), old(trons)[id], now)
      ensures running == old(running)
    {
      var t := trons[id];
      if ShouldDie(t, now) && t.state == Alive {
        t := TriggerApoptosis(t);
        trons := trons[id := t];
        stats := stats.(apoptosisTriggered := stats.apoptosisTriggered + 1);
      }
      if t.state == Dead {
        trons := trons - {id};
        stats := stats.(tronsDeleted := stats.tronsDeleted + 1);
      }
    }

    /** get_status: a snapshot of the node; reading it changes nothing. */
    function GetStatus(): (s: NodeStatus)
      reads this
      ensures s.nodeId == nodeId && s.tronsActive == |trons| && s.stats == stats && s.running == running
    {
      NodeStatus(nodeId, |trons|, stats, running)
    }
  }

  /** Visiting one more id of a partial tick is one VisitMap step. */
  lemma PartialSweepStep(m: map<string, Tron>, done: set<string>, id: string, now: int)
    requires id in m && id !in done
    ensures id in PartialSweep(m, done, now) && PartialSweep(m, done, now)[id] == m[id]
    ensures PartialSweep(m, done + {id}, now) == VisitMap(PartialSweep(m, done, now), id, now)
  {
    var p, q := PartialSweep(m, done, now), PartialSweep(m, done + {id}, now);
    if m[id].state == Dead {
      assert q.Keys == p.Keys - {id};
    } else {
      assert q.Keys == p.Keys;
    }
  }

  /**
   * The monitor loop's invariant: with `pending` still to visit, the map is
   * the partial tick over the visited ids and the counters count them.
   */
  ghost predicate TickInvariant(m0: map<string, Tron>, s0: Stats, pending: set<string>, now: int,
                                m: map<string, Tron>, s: Stats)
  {
    && pending <= m0.Keys
    && m == PartialSweep(m0, m0.Keys - pending, now)
    && s == s0.(apoptosisTriggered := s0.apoptosisTriggered + |TriggeredIds(m0, now) * (m0.Keys - pending)|,
                tronsDeleted := s0.tronsDeleted + |DeadIds(m0) * (m0.Keys - pending)|)
  }

  lemma TickInvariantInit(m0: map<string, Tron>, s0: Stats, now: int)
    ensures TickInvariant(m0, s0, m0.Keys, now, m0, s0)
  {
    var none := m0.Keys - m0.Keys;
    assert none == {};
    assert TriggeredIds(m0, now) * none == {} && DeadIds(m0) * none == {};
    assert PartialSweep(m0, none, now) == m0;
  }

  lemma TickInvariantStep(m0: map<string, Tron>, s0: Stats, pending: set<string>, id: string, now: int,
                          m: map<string, Tron>, s: Stats)
    requires TickInvariant(m0, s0, pending, now, m, s) && id in pending
    ensures id in m && m[id] == m0[id]
    ensures TickInvariant(m0, s0, pending - {id}, now, VisitMap(m, id, now), VisitStats(s, m[id], now))
  {
    var done := m0.Keys - pending;
    assert m0.Keys - (pending - {id}) == done + {id};
    PartialSweepStep(m0, done, id, now);
    TickStatsStep(m0, s0, done, id, now, s);
  }

  /** The counters part of the monitor loop's step. */
  lemma TickStatsStep(m0: map<string, Tron>, s0: Stats, done: set<string>, id: string, now: int, s: Stats)
    requires id in m0 && id !in done
    requires s == s0.(apoptosisTriggered := s0.apoptosisTriggered + |TriggeredIds(m0, now) * done|,
                      tronsDeleted := s0.tronsDeleted + |DeadIds(m0) * done|)
    ensures VisitStats(s, m0[id], now) ==
              s0.(apoptosisTriggered := s0.apoptosisTriggered + |TriggeredIds(m0, now) * (done + {id})|,
                  tronsDeleted := s0.tronsDeleted + |DeadIds(m0) * (done + {id})|)
  {
    StepCounts(m0, done, id, now);
  }

  lemma TickInvariantDone(m0: map<string, Tron>, s0: Stats, now: int, m: map<string, Tron>, s: Stats)
    requires TickInvariant(m0, s0, {}, now, m, s)
    ensures m == SweepMap(m0, now) && s == SweepStats(s0, m0, now)
  {
    var all := m0.Keys - {};
    assert all == m0.Keys;
    SweepDone(m0, now);
    assert m == PartialSweep(m0, m0.Keys, now);
    assert TriggeredIds(m0, now) * all == TriggeredIds(m0, now);
    assert DeadIds(m0) * all == DeadIds(m0);
  }

  /** Once every id has been visited, the partial tick is the whole tick. */
  lemma SweepDone(m: map<string, Tron>, now: int)
    ensures PartialSweep(m, m.Keys, now) == SweepMap(m, now)
    ensures TriggeredIds(m, now) * m.Keys == TriggeredIds(m, now)
    ensures DeadIds(m) * m.Keys == DeadIds(m)
  {
  }

  /** Visiting one more id adds it to the triggered and dead counts exactly when it qualifies. */
  lemma StepCounts(m: map<string, Tron>, done: set<string>, id: string, now: int)
    requires id in m && id !in done
    ensures |TriggeredIds(m, now) * (done + {id})| ==
              |TriggeredIds(m, now) * done| + (if ShouldDie(m[id], now) && m[id].state == Alive then 1 else 0)
    ensures |DeadIds(m) * (done + {id})| ==
              |DeadIds(m) * done| + (if m[id].state == Dead then 1 else 0)
  {
    var tr := TriggeredIds(m, now);
    if id in tr {
      assert tr * (done + {id}) == (tr * done) + {id};
    } else {
      assert tr * (done + {id}) == tr * done;
    }
    var dd := DeadIds(m);
    if id in dd {
      assert dd * (done + {id}) == (dd * done) + {id};
    } else {
      assert dd * (done + {id}) == dd * done;
    }
  }
}
