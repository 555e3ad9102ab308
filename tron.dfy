/**
 * The TRON entity: an ephemeral message with identity, payload, numeric
 * attributes and a three-state lifecycle (ALIVE -> DYING -> DEAD).
 *
 * Time is an explicit parameter `now`, the clock reading in milliseconds,
 * instead of a call to the wall clock; the derived values (age, remaining
 * time to live, whether the entity should die) are pure functions of it.
 */
module TronEntity {

  datatype Option<T> = None | Some(value: T)

  /** Lifecycle states, in the only order an entity may pass through them. */
  datatype TronState = Alive | Dying | Dead

  /** Milliseconds per second, the divisor of the age computation. */
  const MsPerSecond: int := 1000

  /** Hop budget of every entity (create_tron never passes one). */
  const DefaultHops: int := 3

  /**
   * One entity. `potencia` and `frequencia` are carried as exact reals and
   * never computed with; `createdAt` is the clock reading at construction.
   */
  datatype Tron = Tron(
    id: string,
    content: string,
    valor: int,
    potencia: real,
    frequencia: real,
    ttlSeconds: int,
    hops: int,
    createdAt: int,
    replicas: set<string>,
    state: TronState,
    delivered: bool,
    deathSignalSent: bool,
    targetNode: Option<string>)

  /** Whole seconds elapsed since creation, rounded down (Math.floor). */
  function AgeSeconds(t: Tron, now: int): (age: int)
    ensures age * MsPerSecond <= now - t.createdAt < (age + 1) * MsPerSecond
    ensures now >= t.createdAt ==> age >= 0
  {
    // Dafny's division is Euclidean, which agrees with floor for a positive divisor.
    (now - t.createdAt) / MsPerSecond
  }

  /** Seconds of life left: max(0, ttl - age). */
  function TtlRemaining(t: Tron, now: int): (r: int)
    ensures r >= 0
    ensures r == 0 <==> AgeSeconds(t, now) >= t.ttlSeconds
    ensures r > 0 ==> AgeSeconds(t, now) + r == t.ttlSeconds
    ensures now >= t.createdAt && t.ttlSeconds >= 0 ==> r <= t.ttlSeconds
  {
    var left := t.ttlSeconds - AgeSeconds(t, now);
    if left > 0 then left else 0
  }

  /** An entity should die once it has outlived its TTL or has been delivered. */
  function ShouldDie(t: Tron, now: int): (b: bool)
    ensures b <==> TtlRemaining(t, now) == 0 || t.delivered
  {
    AgeSeconds(t, now) >= t.ttlSeconds || t.delivered
  }

  /** A freshly constructed entity (the RealTronVivo constructor). */
  function NewTron(id: string, content: string, valor: int, potencia: real,
                   frequencia: real, ttlSeconds: int, now: int): (t: Tron)
    ensures t.id == id && t.createdAt == now && t.ttlSeconds == ttlSeconds
    ensures t.content == content && t.valor == valor && t.potencia == potencia && t.frequencia == frequencia
    ensures t.hops == DefaultHops && !t.deathSignalSent
    ensures t.state == Alive && !t.delivered && t.replicas == {} && t.targetNode == None
    ensures AgeSeconds(t, now) == 0
    ensures TtlRemaining(t, now) == (if ttlSeconds > 0 then ttlSeconds else 0)
  {
    Tron(id, content, valor, potencia, frequencia, ttlSeconds, DefaultHops, now,
         {}, Alive, false, false, None)
  }

  /** triggerApoptosis: enter DYING (the DEAD step is CompleteApoptosis); nothing but the state changes. */
  function TriggerApoptosis(t: Tron): (r: Tron)
    ensures r.state == Dying && r.(state := t.state) == t
  {
    t.(state := Dying)
  }

  /** The callback triggerApoptosis schedules two seconds later: enter DEAD; nothing but the state changes. */
  function CompleteApoptosis(t: Tron): (r: Tron)
    ensures r.state == Dead && r.(state := t.state) == t
  {
    t.(state := Dead)
  }

  /**
   * The effect of mark_delivered on a present entity: delivered, with the
   * given target (the last writer wins); nothing else changes.
   */
  function MarkDelivered(t: Tron, target: string): (r: Tron)
    ensures r.delivered && r.targetNode == Some(target)
    ensures r.(delivered := t.delivered, targetNode := t.targetNode) == t
  {
    t.(delivered := true, targetNode := Some(target))
  }

  /**
   * One lifecycle step: the state is kept, ALIVE becomes DYING, or DYING
   * becomes DEAD. No other move exists.
   */
  predicate StateStep(s: TronState, s': TronState)
  {
    s' == s || (s == Alive && s' == Dying) || (s == Dying && s' == Dead)
  }

  /**
   * `b` is the same entity `a` after one operation: the attributes fixed at
   * creation are unchanged, the state has moved by at most one lifecycle
   * step, delivery is one-way and the replica set has only grown.
   */
  predicate Evolves(a: Tron, b: Tron)
  {
    && b.id == a.id && b.content == a.content && b.valor == a.valor
    && b.potencia == a.potencia && b.frequencia == a.frequencia
    && b.ttlSeconds == a.ttlSeconds && b.hops == a.hops && b.createdAt == a.createdAt
    && StateStep(a.state, b.state)
    && (a.delivered ==> b.delivered)
    && a.replicas <= b.replicas
  }

  // ----- Lemmas about time -----

  /** Age never decreases as the clock advances. */
  lemma AgeMonotone(t: Tron, now1: int, now2: int)
    requires now1 <= now2
    ensures AgeSeconds(t, now1) <= AgeSeconds(t, now2)
  {
    var a1, a2 := AgeSeconds(t, now1), AgeSeconds(t, now2);
    assert a1 * MsPerSecond <= now2 - t.createdAt < (a2 + 1) * MsPerSecond;
  }

  /** The remaining time to live is non-increasing as the clock advances. */
  lemma TtlRemainingNonIncreasing(t: Tron, now1: int, now2: int)
    requires now1 <= now2
    ensures TtlRemaining(t, now2) <= TtlRemaining(t, now1)
  {
    AgeMonotone(t, now1, now2);
  }

  /** ttlSeconds whole seconds after creation the entity has expired. */
  lemma TtlExpires(t: Tron, now: int)
    requires now - t.createdAt >= t.ttlSeconds * MsPerSecond
    ensures TtlRemaining(t, now) == 0 && ShouldDie(t, now)
  {
    var age := AgeSeconds(t, now);
    assert t.ttlSeconds * MsPerSecond < (age + 1) * MsPerSecond;
  }

  /** Once an entity should die it keeps satisfying shouldDie at every later time. */
  lemma ShouldDieStays(t: Tron, now1: int, now2: int)
    requires now1 <= now2 && ShouldDie(t, now1)
    ensures ShouldDie(t, now2)
  {
    AgeMonotone(t, now1, now2);
  }

  /** After mark_delivered, shouldDie holds whatever the time. */
  lemma DeliveredShouldDie(t: Tron, target: string, now: int)
    ensures ShouldDie(MarkDelivered(t, target), now)
    ensures MarkDelivered(t, target).targetNode == Some(target)
  {
  }

  // ----- Lemmas about the lifecycle -----

  /** Every entity that ends DEAD two steps after being ALIVE was DYING in between. */
  lemma DeadOnlyThroughDying(s1: TronState, s2: TronState, s3: TronState)
    requires StateStep(s1, s2) && StateStep(s2, s3) && s1 == Alive && s3 == Dead
    ensures s2 == Dying
  {
  }

  /**
   * Triggering apoptosis is a lifecycle step exactly when the entity is not already
   * DEAD; the callers only trigger ALIVE entities.
   */
  lemma TriggerEvolves(t: Tron)
    ensures Evolves(t, TriggerApoptosis(t)) <==> t.state != Dead
    ensures TriggerApoptosis(t).state == Dying
  {
  }

  /**
   * Completion is a lifecycle step exactly when the entity is not ALIVE (an
   * ALIVE entity cannot skip DYING), and DEAD is final.
   */
  lemma CompleteEvolves(t: Tron)
    ensures Evolves(t, CompleteApoptosis(t)) <==> t.state != Alive
    ensures forall s :: StateStep(CompleteApoptosis(t).state, s) ==> s == Dead
  {
  }

  /** Delivery is a lifecycle step and keeps the lifecycle state. */
  lemma MarkDeliveredEvolves(t: Tron, target: string)
    ensures Evolves(t, MarkDelivered(t, target))
    ensures MarkDelivered(t, target).state == t.state
  {
  }
}
