# RAIZ lifecycle model

A Dafny model of the in-memory simulation behind the RAIZ "perfect world"
page (`raiz_perfect_world.js`). It covers four parts:

- **TRONs.** These are ephemeral messages with a three-state lifecycle: ALIVE, then DYING, then DEAD.
- **Distributed-memory nodes.** Each node holds a map from id to TRON, five counters and a running flag, and runs a periodic apoptosis monitor.
- **A modular gateway.** It has a fixed table of four protocols, each with an active flag and a message count, plus a total.
- **The system.** It wires three nodes and one gateway, and implements the page's commands: start, spawn (a four-stage pipeline), forced apoptosis and reset.

The model is organised in four modules, one per file:

| module | file | models |
|---|---|---|
| `TronEntity` | tron.dfy | `TronState` and `RealTronVivo`: the age and TTL getters, `shouldDie`, `triggerApoptosis` |
| `DistributedMemory` | memory_node.dfy | `RealMemoriaDistribuida`: a class whose methods update its map, counters and flag in place |
| `ModularGateway` | gateway.dfy | `RealGatewayModular`: a class with the protocol table and the total |
| `Orchestrator` | orchestrator.dfy | `RealRAIZSystem`: the node table, the gateway, and the command methods |

Some things the source reads from the environment are parameters here:

- Time is an explicit clock reading `now` in milliseconds, in place of `Date.now()`.
- Random draws are reals `r` in [0, 1), like `Math.random()`.
- The id and content of a new TRON are given by the caller.

Each timer the source schedules becomes an explicit call:

- The 2-second DYING to DEAD timer is `CompleteApoptosisById` on the node, or `ApoptosisTimer` on the system.
- One run of the monitor is `MonitorTick`.
- Each delayed stage of a spawn is its own method: `SpawnReplicate`, `SpawnPropagate` and `SpawnDeliver`.

A TRON is a value in the node's map. Operations that change one in place write a new value under the same id.

The main proved facts:

- The remaining TTL is never negative and never increases. It is at most ttl when ttl >= 0 and the clock is not before the creation time.
- Every operation except creating a TRON under an id already in use moves each entry by at most one lifecycle step: it keeps the state, or goes from ALIVE to DYING, or from DYING to DEAD (the `Evolves` relation). So an entry only reaches DEAD through DYING. Creating a TRON under an id in use replaces the entry with a fresh ALIVE one, as `Map.set` does (raiz_perfect_world.js:88); `CreateTron` and `SpawnTron` state that replacement instead.
- After a monitor tick on a running node, no DEAD entry remains. Exactly the ALIVE entries that should die become DYING, and the two counters rise by exactly those counts. A tick on a stopped node changes nothing.
- The gateway total always equals the sum of the protocol counts.
- Replicas and delivery targets of a node's TRONs are always other nodes. As a result, a replica set never contains its origin and has at most two members.
- Reset restores the initial state.

## Model

| member | source | states |
|---|---|---|
| TronEntity.AgeSeconds | raiz_perfect_world.js:37-39 | the age is the floor of elapsed ms / 1000: `age*1000 <= elapsed < (age+1)*1000`, and it is non-negative once the clock has reached the creation time |
| TronEntity.TtlRemaining | raiz_perfect_world.js:41-43 | `max(0, ttl - age)`: never negative; zero exactly when age >= ttl; when positive, age + remaining = ttl; at most ttl for ttl >= 0 and a clock not before creation |
| TronEntity.NewTron | raiz_perfect_world.js:15-29 | a new TRON has the given id, content, valor, potencia, frequencia and TTL, the default hop count, the current creation time, state ALIVE, is undelivered with no death signal, no replicas and no target, age 0 and its full TTL left |
| TronEntity.AgeMonotone | raiz_perfect_world.js:37-39 | the age never decreases as the clock advances |
| TronEntity.TtlRemainingNonIncreasing | raiz_perfect_world.js:41-43 | the remaining TTL never increases as the clock advances |
| TronEntity.TtlExpires | raiz_perfect_world.js:41-51 | ttl whole seconds after creation nothing is left and shouldDie holds |
| TronEntity.ShouldDie | raiz_perfect_world.js:41-51 | shouldDie holds exactly when no TTL is left or the TRON was delivered |
| TronEntity.ShouldDieStays | raiz_perfect_world.js:49-51 | once shouldDie holds it holds at every later time |
| TronEntity.DeliveredShouldDie | raiz_perfect_world.js:104-108 | after mark_delivered, shouldDie holds at any time and the target is the one given |
| TronEntity.TriggerApoptosis | raiz_perfect_world.js:53-54 | the TRON becomes DYING and nothing else about it changes |
| TronEntity.CompleteApoptosis | raiz_perfect_world.js:55-57 | the timer makes the TRON DEAD and nothing else about it changes |
| TronEntity.MarkDelivered | raiz_perfect_world.js:104-108 | the TRON becomes delivered with the given target, and nothing else about it changes |
| TronEntity.DeadOnlyThroughDying | raiz_perfect_world.js:53-57 | two lifecycle steps that take an ALIVE TRON to DEAD pass through DYING |
| TronEntity.TriggerEvolves | raiz_perfect_world.js:53-54 | triggerApoptosis yields DYING and is a lifecycle step exactly when the TRON is not already DEAD |
| TronEntity.CompleteEvolves | raiz_perfect_world.js:55-57 | the timer's DEAD step is a lifecycle step exactly when the TRON is not ALIVE (so ALIVE cannot jump to DEAD), and DEAD has no step to any other state |
| TronEntity.MarkDeliveredEvolves | raiz_perfect_world.js:104-108 | delivery is a lifecycle step that keeps the lifecycle state |
| DistributedMemory.Tick | raiz_perfect_world.js:117-121 | one visit turns the entry DYING exactly when it is ALIVE and should die; nothing else about it changes |
| DistributedMemory.SweepMap | raiz_perfect_world.js:117-128 | the ids after a tick are the old ids minus the DEAD ones |
| DistributedMemory.SweepStats | raiz_perfect_world.js:117-128 | a tick moves only apoptosis_triggered and trons_deleted, and neither falls |
| DistributedMemory.ForceMap | raiz_perfect_world.js:280-286 | the forced command keeps every id |
| DistributedMemory.SweepEffect | raiz_perfect_world.js:117-128 | a tick removes exactly the DEAD entries, turns each ALIVE entry that should die into DYING without removing it, and leaves every other entry untouched |
| DistributedMemory.SweepLeavesNoDead | raiz_perfect_world.js:117-128 | a tick adds no id, leaves no DEAD entry, and every surviving entry is a lifecycle step of its old value |
| DistributedMemory.SweepKeyedById | raiz_perfect_world.js:117-128 | a tick keeps every entry stored under its own id |
| DistributedMemory.DeliveredDiesNextTick | raiz_perfect_world.js:117-122 | a delivered ALIVE entry is DYING and still present after the next tick, whatever its TTL |
| DistributedMemory.SweepCount | raiz_perfect_world.js:124-127 | after a tick the map's size is its old size minus the number of DEAD entries |
| DistributedMemory.SweepTwiceKeepsAll | raiz_perfect_world.js:117-128 | a second tick at the same time removes nothing, because the first left no DEAD entry |
| DistributedMemory.ForceEffect | raiz_perfect_world.js:280-286 | the forced command keeps every id, turns every ALIVE entry DYING, leaves every other entry unchanged, and every entry is a lifecycle step |
| DistributedMemory.MemoryNode.constructor | raiz_perfect_world.js:63-75 | a new node is stopped, with an empty map and all five counters at zero |
| DistributedMemory.MemoryNode.Start | raiz_perfect_world.js:77-80 | start sets the running flag and runs one monitor tick at once: the map and counters are those of a tick, no DEAD entry is left, and every entry moved by at most one lifecycle step |
| DistributedMemory.MemoryNode.Stop | raiz_perfect_world.js:82-84 | stop clears the flag and changes nothing else |
| DistributedMemory.MemoryNode.CreateTron | raiz_perfect_world.js:86-93 | the map gains the new ALIVE TRON under its id, and every other entry is unchanged; the size grows by one for a fresh id; trons_created rises by one; an existing entry under the same id is overwritten |
| DistributedMemory.MemoryNode.ReplicateTron | raiz_perfect_world.js:95-102 | the TRON's replica set becomes the union of the old set and the targets; trons_replicated rises by the number of targets, duplicates included, even when the id is no longer in the map |
| DistributedMemory.MemoryNode.MarkDeliveredById | raiz_perfect_world.js:104-111 | an absent id changes nothing; a present one becomes delivered with the given target, the last writer winning; counters unchanged |
| DistributedMemory.MemoryNode.CompleteApoptosisById | raiz_perfect_world.js:55-57 | the timer turns the TRON DEAD if it is still in the map and DYING, and changes nothing otherwise; every entry moves by at most one lifecycle step |
| DistributedMemory.MemoryNode.MonitorTick | raiz_perfect_world.js:114-129 | a stopped node is unchanged; on a running node the loop over the map yields exactly the tick's map and counters (apoptosis_triggered and trons_deleted rise by the triggered and removed counts) and leaves no DEAD entry; either way every entry moves by at most one lifecycle step |
| DistributedMemory.MemoryNode.VisitEntry | raiz_perfect_world.js:118-128 | one loop iteration: trigger if ALIVE and due, then remove if DEAD, counting each |
| DistributedMemory.MemoryNode.GetStatus | raiz_perfect_world.js:137-144 | the snapshot reports the node id, the map's size, the counters and the flag |
| ModularGateway.ActiveCount | raiz_perfect_world.js:160-166 | the number of active protocols among the names is at most the number of names, and zero exactly when none of them is active |
| ModularGateway.Propagated | raiz_perfect_world.js:159-170 | propagation keeps the set of protocols and every active flag, and no count falls |
| ModularGateway.Fanout | raiz_perfect_world.js:159-170 | propagation sends at most one message per protocol, and at most one message for a named protocol |
| ModularGateway.PropagatedSum | raiz_perfect_world.js:159-170 | propagate raises the sum of the message counts by exactly the number of messages it sends |
| ModularGateway.PropagatedEffect | raiz_perfect_world.js:159-170 | propagate keeps every protocol and active flag. With 'all' it adds one to each active protocol only. With a named active protocol it adds one to that protocol only. An unknown or inactive name changes nothing |
| ModularGateway.Gateway.constructor | raiz_perfect_world.js:149-157 | four active protocols at zero messages and a total of zero, equal to the sum |
| ModularGateway.Gateway.PropagateTron | raiz_perfect_world.js:159-173 | the table becomes `Propagated(old, protocol)` and the total rises by the fan-out, so the total stays equal to the sum of counts |
| ModularGateway.Gateway.FanOutAll | raiz_perfect_world.js:160-166 | the loop over the protocols adds one message to each active protocol and counts each in the total |
| ModularGateway.Gateway.GetStatus | raiz_perfect_world.js:175-180 | the snapshot holds the gateway's own table and total; the total equals the sum of the protocol counts, over exactly the four protocols |
| Orchestrator.Draw | raiz_perfect_world.js:242 | `floor(r*n)` is an index below n, within one of `r*n` |
| Orchestrator.SpawnValor | raiz_perfect_world.js:247 | the valor draw is -1, 0 or 1 |
| Orchestrator.SpawnPotencia | raiz_perfect_world.js:248 | the potencia draw lies in [0.1, 10) |
| Orchestrator.SpawnFrequencia | raiz_perfect_world.js:249 | the frequencia draw lies in [1, 50) |
| Orchestrator.SpawnTtl | raiz_perfect_world.js:250 | the TTL draw lies in 10..29 (30 is never drawn), and it is 10 exactly when r < 0.05 |
| Orchestrator.Without | raiz_perfect_world.js:259 | the filter keeps exactly the ids other than the origin; it keeps distinctness; it drops exactly one element when the origin is present among distinct ids; it changes nothing when the origin is absent |
| Orchestrator.WithoutAt | raiz_perfect_world.js:259 | removing the id at position i of distinct ids leaves the ids before it followed by the ids after it, in their order |
| Orchestrator.WithoutOfThree | raiz_perfect_world.js:259 | removing each of three distinct ids leaves the other two in their order |
| Orchestrator.OtherNodes | raiz_perfect_world.js:259 | the peers of node k are exactly the configured ids other than k |
| Orchestrator.OtherNodesListed | raiz_perfect_world.js:259 | the peers of each configured node, written out in configured order |
| Orchestrator.OtherNodesOfConfigured | raiz_perfect_world.js:259 | the peers of a configured node are the two other configured nodes, each once, in configured order, without the node itself |
| Orchestrator.DistinctCard | raiz_perfect_world.js:259 | a list of distinct ids has as many members as its set |
| Orchestrator.ReplicaBound | raiz_perfect_world.js:258-260 | under the pipeline's bookkeeping a TRON's replica set never contains its origin node and has at most |nodes| - 1 members |
| Orchestrator.SubsetCard | raiz_perfect_world.js:258-260 | a subset of ids is no larger than its superset |
| Orchestrator.BookkeepingKept | raiz_perfect_world.js:278-287 | operations that change no replica set or target keep the bookkeeping |
| Orchestrator.ReplicateKeepsBookkeeping | raiz_perfect_world.js:259-260 | replicating to peers keeps the bookkeeping |
| Orchestrator.DeliverKeepsBookkeeping | raiz_perfect_world.js:270-271 | delivering to a peer keeps the bookkeeping |
| Orchestrator.SweepEffectOnBookkeeping | raiz_perfect_world.js:117-128 | a monitor tick keeps the bookkeeping |
| Orchestrator.RaizSystem.constructor | raiz_perfect_world.js:185-193 | three fresh, stopped, empty nodes with zero counters, a fresh gateway at its initial table, and the system not running |
| Orchestrator.RaizSystem.InitializeNodes | raiz_perfect_world.js:195-201 | one new empty node per configured id, stored under that id |
| Orchestrator.RaizSystem.StartSystem | raiz_perfect_world.js:208-217 | the system runs, and every node has been started, which includes its first monitor tick; the gateway is unchanged |
| Orchestrator.RaizSystem.StartNode | raiz_perfect_world.js:215-217 | one node's start, which keeps its invariant and bookkeeping |
| Orchestrator.RaizSystem.SpawnTron | raiz_perfect_world.js:234-252 | while not running nothing changes and no spawn happens; otherwise the drawn node gains the new TRON with the drawn attributes and counts it, and no other node changes |
| Orchestrator.RaizSystem.SpawnReplicate | raiz_perfect_world.js:258-260 | the origin's TRON gains every other node as a replica, and trons_replicated rises by |nodes| - 1 |
| Orchestrator.RaizSystem.SpawnPropagate | raiz_perfect_world.js:264-265 | the current gateway propagates on 'all': one message per active protocol |
| Orchestrator.RaizSystem.SpawnDeliver | raiz_perfect_world.js:269-271 | the target is the peer list's entry at index floor(r * length), which is another configured node, and the origin's TRON is marked delivered to it (a no-op if it is gone) |
| Orchestrator.RaizSystem.MonitorTick | raiz_perfect_world.js:114-129 | one tick of one node, as on the node, and the system invariant is kept |
| Orchestrator.RaizSystem.ApoptosisTimer | raiz_perfect_world.js:55-57 | the DEAD timer of one node's TRON, as on the node: DEAD only from DYING, every entry moves by at most one lifecycle step, and the system invariant is kept |
| Orchestrator.RaizSystem.TriggerApoptosis | raiz_perfect_world.js:278-287 | every node's map becomes `ForceMap` of its old map, and no counter or flag moves |
| Orchestrator.RaizSystem.ForceNodeAt | raiz_perfect_world.js:280-286 | the forced command on one node keeps the system invariant |
| Orchestrator.ForceNode | raiz_perfect_world.js:281-285 | the inner loop over one node's TRONs turns every ALIVE one DYING and changes nothing else |
| Orchestrator.RaizSystem.ResetSystem | raiz_perfect_world.js:290-310 | the system is not running, every node is stopped with an empty map and zero counters, and a fresh gateway has four active protocols at zero and total 0 |
| Orchestrator.RaizSystem.ResetNode | raiz_perfect_world.js:297-306 | one node is stopped and cleared |

## Left out

- The page's DOM and UI code is not modelled because it is presentation only. This covers status indicators, stage animation, the TRON list, alerts, the welcome modal and button wiring.
- `console.log` calls are not modelled.
- The timer scheduling is not modelled. This covers the monitor's 1-second re-scheduling, UI updates, automatic activity, and the pipeline's 1 s, 1 s and 2 s delays. Each run of a callback is an explicit method call, and the caller decides their order.
- Calling `start()` twice launches a second monitor loop. This is a scheduling effect and is not modelled.
- `Math.random` and the id format (`tron_<timestamp>_<base36>`) are not modelled. Draws, ids and content are parameters.
- `potencia`, `frequencia` and the draws are exact reals, not IEEE doubles.
- The `progress` getter (floating point, used only by the UI) is not modelled.
- The source reads `Date.now()` once per TRON visited. The model uses one `now` for a whole tick.
- TRONs are values, and the pipeline stages find the entity by id. In the source, `replicate_tron` holds the object created at birth, and the 2-second DEAD timer holds the object it was set on. The two differ only when a later spawn reuses the same id and overwrites the entry. For the timer, the by-id step therefore acts only on an entry that is still DYING: otherwise it changes nothing, so an ALIVE entry that replaced the old one under the same id is not turned DEAD.
- The default arguments of `create_tron` (valor 1, potencia 1.0, frequencia 8.0, ttl 30) are not modelled. The only caller in the core, the spawn command, passes every argument, so `CreateTron` takes them all.
- The default protocol 'all' of `propagate_tron` is not modelled as a default. `PropagateTron` takes the protocol explicitly, and the spawn pipeline's `SpawnPropagate` passes 'all', as the source's call does.
- The node's `replicas` map is never used and is left out.
- The `tron` argument of `propagate_tron` is only logged and is left out.
- `get_status` in the source returns the live counter and protocol objects. The model returns a copy.
- DistributedMemory.MemoryNode.ReplicateTron: takes the id of the TRON rather than the TRON object. An entity already removed from the map is therefore not updated, while the counter still rises as in the source.
- Orchestrator.RaizSystem.StartSystem: sets the running flag after starting the nodes rather than before. No node reads the system's flag, so the final state is the same.

Where the code and the design notes disagree, the model follows the code:

- `mark_delivered` on a TRON that is already delivered overwrites the target: the last writer wins.
- `triggerApoptosis` sets DYING unconditionally. Only its callers restrict it to ALIVE TRONs. `TriggerEvolves` states that triggering a DEAD TRON would move it backwards.
