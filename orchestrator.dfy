/**
 * The RAIZ system: three distributed-memory nodes and one gateway, and the
 * commands the page wires to its buttons (start, spawn, forced apoptosis,
 * reset). The delayed stages of a spawn are separate methods; the random
 * choices are parameters, uniform reals in [0, 1) as Math.random yields them,
 * and the id and content of a new entity are parameters too.
 */
module Orchestrator {
  import opened TronEntity
  import opened DistributedMemory
  import opened ModularGateway

  /** The configured node ids, in the order initializeNodes inserts them. */
  const NodeIds: seq<string> := ["node-001", "node-002", "node-003"]

  /** What the delayed stages of one spawn refer to: the origin node and the new entity. */
  datatype Spawned = Spawned(origin: string, tronId: string)

  // ----- Random draws -----

  /** floor(r * n): an index in [0, n) for a draw r in [0, 1). */
  function Draw(r: real, n: nat): (k: nat)
    requires 0.0 <= r < 1.0 && n > 0
    ensures k < n
    ensures k as real <= r * n as real < (k + 1) as real
  {
    assert 0.0 <= r * n as real < n as real by {
      assert r * n as real <= 1.0 * n as real;
    }
    (r * n as real).Floor
  }

  /** floor(r * 3) - 1: one of -1, 0, 1. */
  function SpawnValor(r: real): (v: int)
    requires 0.0 <= r < 1.0
    ensures -1 <= v <= 1
  {
    Draw(r, 3) - 1
  }

  /** r * 9.9 + 0.1, in exact reals. */
  function SpawnPotencia(r: real): (p: real)
    requires 0.0 <= r < 1.0
    ensures 0.1 <= p < 10.0
  {
    r * 9.9 + 0.1
  }

  /** r * 49 + 1, in exact reals. */
  function SpawnFrequencia(r: real): (f: real)
    requires 0.0 <= r < 1.0
    ensures 1.0 <= f < 50.0
  {
    r * 49.0 + 1.0
  }

  /** floor(r * 20) + 10: from 10 to 29 seconds; 30 is never drawn. */
  function SpawnTtl(r: real): (ttl: int)
    requires 0.0 <= r < 1.0
    ensures 10 <= ttl <= 29
    ensures ttl == 10 <==> r < 0.05
  {
    Draw(r, 20) + 10
  }

  // ----- Node ids -----

  /** `ids` without `origin`, order kept (nodeIds.filter(id => id !== origin)). */
  function Without(ids: seq<string>, origin: string): (r: seq<string>)
    ensures forall x :: x in r <==> x in ids && x != origin
    ensures Distinct(ids) ==> Distinct(r)
    ensures Distinct(ids) && origin in ids ==> |r| == |ids| - 1
    ensures origin !in ids ==> r == ids
  {
    if ids == [] then []
    else if ids[0] == origin then Without(ids[1..], origin)
    else
      var rest := Without(ids[1..], origin);
      assert Distinct(ids) ==> ids[0] !in rest && Distinct(ids[1..]);
      assert forall j :: 0 < j <= |rest| ==> ([ids[0]] + rest)[j] == rest[j - 1];
      [ids[0]] + rest
  }

  /** The tail of a list of distinct ids is distinct and does not hold its head. */
  lemma DistinctTail(ids: seq<string>)
    requires Distinct(ids) && ids != []
    ensures Distinct(ids[1..]) && ids[0] !in ids[1..]
  {
    var rest := ids[1..];
    forall j, l | 0 <= j < l < |rest|
      ensures rest[j] != rest[l]
    {
      assert rest[j] == ids[j + 1] && rest[l] == ids[l + 1];
    }
    forall j | 0 <= j < |rest|
      ensures rest[j] != ids[0]
    {
      assert rest[j] == ids[j + 1];
    }
  }

  /** Removing an id that is not at the head keeps the head in front. */
  lemma WithoutCons(ids: seq<string>, origin: string)
    requires ids != [] && ids[0] != origin
    ensures Without(ids, origin) == [ids[0]] + Without(ids[1..], origin)
  {
  }

  /** Cutting out position `i > 0` is cutting out position `i - 1` of the tail. */
  lemma CutCons(ids: seq<string>, i: nat)
    requires 0 < i < |ids|
    ensures ids[..i] + ids[i + 1..] == [ids[0]] + (ids[1..][..i - 1] + ids[1..][i..])
  {
  }

  /**
   * Removing the id at position `i` of a list of distinct ids keeps the ids
   * before it and after it, in their order.
   */
  lemma {:induction false} WithoutAt(ids: seq<string>, i: nat)
    requires Distinct(ids) && i < |ids|
    ensures Without(ids, ids[i]) == ids[..i] + ids[i + 1..]
  {
    DistinctTail(ids);
    if i == 0 {
      WithoutHead(ids);
    } else {
      var rest := ids[1..];
      assert rest[i - 1] == ids[i];
      WithoutAt(rest, i - 1);
      WithoutCons(ids, ids[i]);
      CutCons(ids, i);
    }
  }

  /** Removing the head of a list that holds it once leaves the tail. */
  lemma WithoutHead(ids: seq<string>)
    requires ids != [] && ids[0] !in ids[1..]
    ensures Without(ids, ids[0]) == ids[..0] + ids[1..]
  {
    assert ids[..0] + ids[1..] == ids[1..];
  }

  /** The configured ids are pairwise distinct. */
  lemma NodeIdsDistinct()
    ensures Distinct(NodeIds)
  {
  }

  /** The peers of node `k`: every other configured node, in configured order. */
  function OtherNodes(k: string): (r: seq<string>)
    ensures forall x :: x in r <==> x in NodeIds && x != k
  {
    Without(NodeIds, k)
  }

  /** The set of peers of node `k`. */
  function PeerSet(k: string): set<string>
  {
    set x | x in NodeIds && x != k
  }

  /** The peers of a configured node are the two other configured nodes, each once. */
  lemma OtherNodesOfConfigured(k: string)
    requires k in NodeIds
    ensures |OtherNodes(k)| == |NodeIds| - 1 == 2
    ensures k !in OtherNodes(k) && Distinct(OtherNodes(k))
    ensures (set x | x in OtherNodes(k)) == PeerSet(k)
    ensures |PeerSet(k)| == |NodeIds| - 1
    ensures k == NodeIds[0] ==> OtherNodes(k) == [NodeIds[1], NodeIds[2]]
    ensures k == NodeIds[1] ==> OtherNodes(k) == [NodeIds[0], NodeIds[2]]
    ensures k == NodeIds[2] ==> OtherNodes(k) == [NodeIds[0], NodeIds[1]]
  {
    OtherNodesListed(k);
    var o := OtherNodes(k);
    NodeIdsDistinct();
    assert Distinct(o);
    assert (set x | x in o) == PeerSet(k);
    DistinctCard(o);
  }

  /** The peers of each configured node, written out in configured order. */
  lemma OtherNodesListed(k: string)
    ensures k == NodeIds[0] ==> OtherNodes(k) == [NodeIds[1], NodeIds[2]]
    ensures k == NodeIds[1] ==> OtherNodes(k) == [NodeIds[0], NodeIds[2]]
    ensures k == NodeIds[2] ==> OtherNodes(k) == [NodeIds[0], NodeIds[1]]
  {
    NodeIdsDistinct();
    WithoutOfThree(NodeIds);
  }

  /** Removing each id of a list of three distinct ids leaves the other two, in order. */
  lemma WithoutOfThree(ids: seq<string>)
    requires |ids| == 3 && Distinct(ids)
    ensures Without(ids, ids[0]) == [ids[1], ids[2]]
    ensures Without(ids, ids[1]) == [ids[0], ids[2]]
    ensures Without(ids, ids[2]) == [ids[0], ids[1]]
  {
    CutOfThree(ids, 0);
    CutOfThree(ids, 1);
    CutOfThree(ids, 2);
  }

  /** Removing the id at position `i` of three distinct ids, as a two-element list. */
  lemma CutOfThree(ids: seq<string>, i: nat)
    requires |ids| == 3 && Distinct(ids) && i < 3
    ensures Without(ids, ids[i]) ==
              if i == 0 then [ids[1], ids[2]] else if i == 1 then [ids[0], ids[2]] else [ids[0], ids[1]]
  {
    WithoutAt(ids, i);
    assert ids[..i] + ids[i + 1..] ==
             if i == 0 then [ids[1], ids[2]] else if i == 1 then [ids[0], ids[2]] else [ids[0], ids[1]];
  }

  /** A sequence of distinct ids has as many elements as the set of its elements. */
  lemma {:induction false} DistinctCard(s: seq<string>)
    requires Distinct(s)
    ensures |set x | x in s| == |s|
  {
    if s != [] {
      var rest := s[1..];
      assert forall j :: 0 <= j < |rest| ==> rest[j] == s[j + 1];
      DistinctCard(rest);
      assert (set x | x in s) == (set x | x in rest) + {s[0]};
      assert s[0] !in rest;
    }
  }

  /**
   * The entities of node `k` were replicated and delivered only to peers of
   * `k`: the bookkeeping the spawn pipeline keeps.
   */
  ghost predicate PeerBookkeeping(k: string, m: map<string, Tron>)
  {
    forall id :: id in m ==>
      && m[id].replicas <= PeerSet(k)
      && (m[id].targetNode.Some? ==> m[id].targetNode.value in PeerSet(k))
  }

  /** A node's entity is never replicated to the node itself, and to at most |nodes| - 1 peers. */
  lemma ReplicaBound(k: string, m: map<string, Tron>, id: string)
    requires k in NodeIds && PeerBookkeeping(k, m) && id in m
    ensures k !in m[id].replicas
    ensures |m[id].replicas| <= |NodeIds| - 1
  {
    OtherNodesOfConfigured(k);
    SubsetCard(m[id].replicas, PeerSet(k));
  }

  /** A subset is no larger than its superset. */
  lemma {:induction false} SubsetCard(a: set<string>, b: set<string>)
    requires a <= b
    ensures |a| <= |b|
    decreases a
  {
    if a != {} {
      var x :| x in a;
      SubsetCard(a - {x}, b - {x});
    }
  }

  /** Ticks, forced apoptosis and completion keep the bookkeeping: they change no replica set or target. */
  lemma BookkeepingKept(k: string, m: map<string, Tron>, m': map<string, Tron>)
    requires PeerBookkeeping(k, m)
    requires forall id :: id in m' ==> id in m && m'[id].replicas == m[id].replicas && m'[id].targetNode == m[id].targetNode
    ensures PeerBookkeeping(k, m')
  {
  }

  /** Node `node` keeps its invariant, and the entities it holds as node `k` name only `k`'s peers. */
  ghost predicate NodeOk(k: string, node: MemoryNode)
    reads node
  {
    node.Valid() && PeerBookkeeping(k, node.trons)
  }

  class RaizSystem {
    const nodes: map<string, MemoryNode>
    var gateway: Gateway
    var running: bool

    /**
     * The node table holds the configured ids, each node stored under its own
     * id, so no node is stored twice. Only constants are involved, so no
     * operation can break it.
     */
    ghost predicate Wired()
    {
      && (forall k :: k in nodes <==> k in NodeIds)
      && (forall k :: k in nodes ==> nodes[k].nodeId == k)
    }

    /**
     * The table is wired, each node and the gateway keep their invariants,
     * and each node's entities name only its peers as replicas and delivery
     * targets.
     */
    ghost predicate Valid()
      reads this, nodes.Values, gateway
    {
      && Wired()
      && (forall k :: k in nodes ==> NodeOk(k, nodes[k]))
      && gateway.Valid()
    }

    /** Different configured positions hold different nodes. */
    lemma DistinctNodes()
      requires Wired()
      ensures forall j, l :: 0 <= j < |NodeIds| && 0 <= l < |NodeIds| && j != l ==> nodes[NodeIds[j]] != nodes[NodeIds[l]]
    {
      NodeIdsDistinct();
    }

    /** The constructor: three stopped, empty nodes (initializeNodes) and a fresh gateway. */
    constructor ()
      ensures Valid() && !running
      ensures forall k :: k in nodes ==>
                fresh(nodes[k]) && nodes[k].trons == map[] && !nodes[k].running && nodes[k].stats == ZeroStats
      ensures fresh(gateway) && gateway.protocols == InitialProtocols() && gateway.totalMessages == 0
    {
      var m := InitializeNodes();
      nodes := m;
      gateway := new Gateway();
      running := false;
    }

    /** initializeNodes: one new node per configured id, stored under that id. */
    static method InitializeNodes() returns (m: map<string, MemoryNode>)
      ensures forall k :: k in m <==> k in NodeIds
      ensures forall k :: k in m ==>
                fresh(m[k]) && m[k].nodeId == k && m[k].Valid()
                && m[k].trons == map[] && !m[k].running && m[k].stats == ZeroStats
    {
      m := map[];
      for i := 0 to |NodeIds|
        invariant forall k :: k in m <==> exists j :: 0 <= j < i && NodeIds[j] == k
        invariant forall k :: k in m ==>
                    fresh(m[k]) && m[k].nodeId == k && m[k].Valid()
                    && m[k].trons == map[] && !m[k].running && m[k].stats == ZeroStats
      {
        var node := new MemoryNode(NodeIds[i]);
        m := m[NodeIds[i] := node];
      }
    }

    /** `node` has been started at `now`: it runs, and the first tick has been applied. */
    twostate predicate StartedAt(node: MemoryNode, now: int)
      reads node
    {
      && node.running
      && node.trons == SweepMap(old(node.trons), now)
      && node.stats == SweepStats(old(node.stats), old(node.trons), now)
    }

    /** `node` has been stopped and cleared, as resetSystem leaves every node. */
    predicate Cleared(node: MemoryNode)
      reads node
    {
      !node.running && node.trons == map[] && node.stats == ZeroStats
    }

    /** `node` has had the forced command applied: its ALIVE entities are DYING, nothing else moved. */
    twostate predicate Forced(node: MemoryNode)
      reads node
    {
      && node.trons == ForceMap(old(node.trons))
      && node.stats == old(node.stats) && node.running == old(node.running)
    }

    /**
     * startSystem, its state part: the system runs, and every node starts,
     * which runs one monitor tick at once.
     */
    method StartSystem(now: int)
      requires Valid()
      modifies this, nodes.Values
      ensures Valid() && running && gateway == old(gateway)
      ensures forall k :: k in nodes ==> StartedAt(nodes[k], now)
    {
      DistinctNodes();
      for i := 0 to |NodeIds|
        invariant running == old(running) && gateway == old(gateway)
        invariant forall j :: 0 <= j < i ==> StartedAt(nodes[NodeIds[j]], now) && NodeOk(NodeIds[j], nodes[NodeIds[j]])
        invariant forall j :: i <= j < |NodeIds| ==> unchanged(nodes[NodeIds[j]])
      {
        StartNode(NodeIds[i], now);
      }
      // startSystem sets the flag before the loop; no node reads it, so the order is immaterial.
      running := true;
    }

    /** node.start() for the node under `k`. */
    method StartNode(k: string, now: int)
      requires Wired() && k in nodes && NodeOk(k, nodes[k])
      modifies nodes[k]
      ensures NodeOk(k, nodes[k]) && StartedAt(nodes[k], now)
    {
      var node := nodes[k];
      SweepEffectOnBookkeeping(k, node.trons, now);
      node.Start(now);
    }

    /**
     * spawnTron's guard and birth stage: refused while the system is not
     * running; otherwise the node drawn by `rNode` creates an entity with
     * attributes drawn from the other draws, and the later stages refer to it.
     */
    method SpawnTron(rNode: real, rValor: real, rPotencia: real, rFrequencia: real, rTtl: real,
                     id: string, content: string, now: int) returns (p: Option<Spawned>)
      requires Valid()
      requires 0.0 <= rNode < 1.0 && 0.0 <= rValor < 1.0 && 0.0 <= rPotencia < 1.0
      requires 0.0 <= rFrequencia < 1.0 && 0.0 <= rTtl < 1.0
      modifies nodes.Values
      ensures Valid()
      ensures !running ==> p == None
      ensures running ==> p == Some(Spawned(NodeIds[Draw(rNode, |NodeIds|)], id))
      ensures forall k :: k in nodes && (p == None || k != p.value.origin) ==>
                nodes[k].trons == old(nodes[k].trons) && nodes[k].stats == old(nodes[k].stats)
                && nodes[k].running == old(nodes[k].running)
      ensures p.Some? ==>
                var node := nodes[p.value.origin];
                && node.trons == old(node.trons)[id := NewTron(id, content, SpawnValor(rValor), SpawnPotencia(rPotencia),
                                                               SpawnFrequencia(rFrequencia), SpawnTtl(rTtl), now)]
                && node.stats == old(node.stats).(tronsCreated := old(node.stats).tronsCreated + 1)
                && node.running == old(node.running)
    {
      if !running {
        return None;
      }
      var origin := NodeIds[Draw(rNode, |NodeIds|)];
      var node := nodes[origin];
      var t := node.CreateTron(id, content, SpawnValor(rValor), SpawnPotencia(rPotencia),
                               SpawnFrequencia(rFrequencia), SpawnTtl(rTtl), now);
      p := Some(Spawned(origin, id));
    }

    /** Replication stage: the origin node replicates the entity to every other node. */
    method SpawnReplicate(p: Spawned)
      requires Valid() && p.origin in nodes
      modifies nodes[p.origin]
      ensures Valid()
      ensures var node := nodes[p.origin];
              && (p.tronId in old(node.trons) ==>
                    node.trons == old(node.trons)[p.tronId := old(node.trons)[p.tronId].(
                                    replicas := old(node.trons)[p.tronId].replicas + PeerSet(p.origin))])
              && (p.tronId !in old(node.trons) ==> node.trons == old(node.trons))
              && node.stats == old(node.stats).(tronsReplicated := old(node.stats).tronsReplicated + |NodeIds| - 1)
              && node.running == old(node.running)
    {
      var others := OtherNodes(p.origin);
      OtherNodesOfConfigured(p.origin);
      var node := nodes[p.origin];
      ReplicateKeepsBookkeeping(p.origin, node.trons, p.tronId, others);
      node.ReplicateTron(p.tronId, others);
    }

    /** Propagation stage: the current gateway fans the entity out on every active protocol. */
    method SpawnPropagate(p: Spawned)
      requires Valid()
      modifies gateway
      ensures Valid()
      ensures gateway.protocols == Propagated(old(gateway.protocols), AllProtocols)
      ensures gateway.totalMessages == old(gateway.totalMessages) + ActiveCount(old(gateway.protocols), ProtocolNames)
    {
      gateway.PropagateTron(AllProtocols);
    }

    /**
     * Delivery stage: the origin node marks the entity delivered to the peer
     * drawn by `rTarget`.
     */
    method SpawnDeliver(p: Spawned, rTarget: real) returns (target: string)
      requires Valid() && p.origin in nodes
      requires 0.0 <= rTarget < 1.0
      modifies nodes[p.origin]
      ensures Valid()
      ensures target in NodeIds && target != p.origin
      ensures |OtherNodes(p.origin)| > 0 && target == OtherNodes(p.origin)[Draw(rTarget, |OtherNodes(p.origin)|)]
      ensures var node := nodes[p.origin];
              && (p.tronId in old(node.trons) ==>
                    node.trons == old(node.trons)[p.tronId := MarkDelivered(old(node.trons)[p.tronId], target)])
              && (p.tronId !in old(node.trons) ==> node.trons == old(node.trons))
              && node.stats == old(node.stats) && node.running == old(node.running)
    {
      var others := OtherNodes(p.origin);
      OtherNodesOfConfigured(p.origin);
      target := others[Draw(rTarget, |others|)];
      var node := nodes[p.origin];
      DeliverKeepsBookkeeping(p.origin, node.trons, p.tronId, target);
      node.MarkDeliveredById(p.tronId, target);
    }

    /** One tick of node `k`'s apoptosis monitor. */
    method MonitorTick(k: string, now: int)
      requires Valid() && k in nodes
      modifies nodes[k]
      ensures Valid()
      ensures var node := nodes[k];
              && (old(node.running) ==> (node.trons == SweepMap(old(node.trons), now)
                                         && node.stats == SweepStats(old(node.stats), old(node.trons), now)))
              && (!old(node.running) ==> node.trons == old(node.trons) && node.stats == old(node.stats))
              && node.running == old(node.running)
    {
      var node := nodes[k];
      SweepEffectOnBookkeeping(k, node.trons, now);
      node.MonitorTick(now);
    }

    /**
     * The DYING -> DEAD timer that triggering apoptosis on entity `id` of node
     * `k` set; nothing visible changes unless the id still holds a DYING entity.
     */
    method ApoptosisTimer(k: string, id: string)
      requires Valid() && k in nodes
      modifies nodes[k]
      ensures Valid()
      ensures var node := nodes[k];
              && (id in old(node.trons) && old(node.trons)[id].state == Dying ==>
                    node.trons == old(node.trons)[id := CompleteApoptosis(old(node.trons)[id])])
              && (!(id in old(node.trons) && old(node.trons)[id].state == Dying) ==> node.trons == old(node.trons))
              && node.stats == old(node.stats) && node.running == old(node.running)
              && MapEvolves(old(node.trons), node.trons)
    {
      var node := nodes[k];
      if id in node.trons {
        BookkeepingKept(k, node.trons, node.trons[id := CompleteApoptosis(node.trons[id])]);
      }
      node.CompleteApoptosisById(id);
    }

    /**
     * triggerApoptosis, the forced command: every ALIVE entity of every node
     * becomes DYING; nothing else changes and no counter moves.
     */
    method TriggerApoptosis()
      requires Valid()
      modifies nodes.Values
      ensures Valid()
      ensures forall k :: k in nodes ==> Forced(nodes[k])
    {
      DistinctNodes();
      for i := 0 to |NodeIds|
        invariant Valid()
        invariant forall j :: 0 <= j < i ==> Forced(nodes[NodeIds[j]])
        invariant forall j :: i <= j < |NodeIds| ==> unchanged(nodes[NodeIds[j]])
      {
        ForceNodeAt(NodeIds[i]);
      }
    }

    /** The forced command on the node under `k`. */
    method ForceNodeAt(k: string)
      requires Valid() && k in nodes
      modifies nodes[k]
      ensures Valid() && Forced(nodes[k])
    {
      var node := nodes[k];
      BookkeepingKept(k, node.trons, ForceMap(node.trons));
      ForceNode(node);
    }

    /**
     * resetSystem, its state part: the system stops, every node stops with an
     * empty map and zero counters, and a new gateway replaces the old one.
     */
    method ResetSystem()
      requires Valid()
      modifies this, nodes.Values
      ensures Valid() && !running
      ensures forall k :: k in nodes ==> Cleared(nodes[k])
      ensures fresh(gateway) && gateway.protocols == InitialProtocols() && gateway.totalMessages == 0
    {
      running := false;
      DistinctNodes();
      for i := 0 to |NodeIds|
        invariant Valid() && !running
        invariant forall j :: 0 <= j < i ==> Cleared(nodes[NodeIds[j]])
      {
        ResetNode(NodeIds[i]);
      }
      gateway := new Gateway();
    }

    /** The loop body of resetSystem for the node under `k`: stop it, clear its map and its counters. */
    method ResetNode(k: string)
      requires Valid() && k in nodes
      modifies nodes[k]
      ensures Valid() && Cleared(nodes[k])
    {
      var node := nodes[k];
      node.Stop();
      node.trons := map[];
      node.stats := ZeroStats;
    }
  }

  /** The inner loop of the forced command: every ALIVE entity of `node` becomes DYING. */
  method ForceNode(node: MemoryNode)
    requires node.Valid()
    modifies node
    ensures node.Valid()
    ensures node.trons == ForceMap(old(node.trons))
    ensures node.stats == old(node.stats) && node.running == old(node.running)
  {
    ghost var m0 := node.trons;
    var pending := node.trons.Keys;
    while pending != {}
      invariant pending <= m0.Keys
      invariant node.trons == ForcePartial(m0, m0.Keys - pending)
      invariant node.stats == old(node.stats) && node.running == old(node.running)
      decreases pending
    {
      var id :| id in pending;
      ForcePartialStep(m0, m0.Keys - pending, id);
      if node.trons[id].state == Alive {
        node.trons := node.trons[id := TronEntity.TriggerApoptosis(node.trons[id])];
      }
      assert m0.Keys - (pending - {id}) == (m0.Keys - pending) + {id};
      pending := pending - {id};
    }
    assert ForcePartial(m0, m0.Keys) == ForceMap(m0);
  }

  /** Part of the forced command on one node: the ids in `done` have been visited. */
  function ForcePartial(m: map<string, Tron>, done: set<string>): map<string, Tron>
  {
    map id | id in m :: if id in done && m[id].state == Alive then TronEntity.TriggerApoptosis(m[id]) else m[id]
  }

  /** Visiting one more id triggers its entry if it is ALIVE and leaves the rest. */
  lemma ForcePartialStep(m: map<string, Tron>, done: set<string>, id: string)
    requires id in m && id !in done
    ensures id in ForcePartial(m, done) && ForcePartial(m, done)[id] == m[id]
    ensures m[id].state == Alive ==>
              ForcePartial(m, done + {id}) == ForcePartial(m, done)[id := TronEntity.TriggerApoptosis(m[id])]
    ensures m[id].state != Alive ==> ForcePartial(m, done + {id}) == ForcePartial(m, done)
  {
  }

  /** Replicating an entity of node `k` to some of its peers keeps the bookkeeping. */
  lemma ReplicateKeepsBookkeeping(k: string, m: map<string, Tron>, id: string, targets: seq<string>)
    requires PeerBookkeeping(k, m) && (set x | x in targets) <= PeerSet(k)
    ensures id in m ==> PeerBookkeeping(k, m[id := m[id].(replicas := m[id].replicas + set x | x in targets)])
  {
  }

  /** Delivering an entity of node `k` to one of its peers keeps the bookkeeping. */
  lemma DeliverKeepsBookkeeping(k: string, m: map<string, Tron>, id: string, target: string)
    requires PeerBookkeeping(k, m) && target in PeerSet(k)
    ensures id in m ==> PeerBookkeeping(k, m[id := MarkDelivered(m[id], target)])
  {
  }

  /** A tick keeps the bookkeeping of node `k`. */
  lemma SweepEffectOnBookkeeping(k: string, m: map<string, Tron>, now: int)
    requires PeerBookkeeping(k, m)
    ensures PeerBookkeeping(k, SweepMap(m, now))
  {
    BookkeepingKept(k, m, SweepMap(m, now));
  }
}
