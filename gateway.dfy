/**
 * The modular gateway: a fixed table of four protocols, each with an active
 * flag and a message count, and a running total of messages sent. Propagating
 * an entity fans one message out to every active protocol, or to one named
 * protocol.
 */
module ModularGateway {

  datatype Channel = Channel(active: bool, messages: nat)

  /** The snapshot get_status returns. */
  datatype GatewayStatus = GatewayStatus(protocols: map<string, Channel>, totalMessages: nat)

  /** The protocol table's keys, in their declaration order. */
  const ProtocolNames: seq<string> := ["udp", "websocket", "ble", "local"]

  /** The protocol argument that selects every active protocol. */
  const AllProtocols: string := "all"

  /** No name occurs twice in `names`. */
  predicate Distinct(names: seq<string>)
  {
    forall i, j :: 0 <= i < j < |names| ==> names[i] != names[j]
  }

  /** The table a new gateway starts with: four active protocols, no messages. */
  function InitialProtocols(): map<string, Channel>
  {
    map n | n in ProtocolNames :: Channel(true, 0)
  }

  /** Sum of the message counts of `names` in `p` (a name missing from `p` counts 0). */
  function MessageSum(p: map<string, Channel>, names: seq<string>): nat
  {
    if names == [] then 0
    else
      var last := names[|names| - 1];
      MessageSum(p, names[..|names| - 1]) + (if last in p then p[last].messages else 0)
  }

  /** How many of `names` are active protocols of `p`. */
  function ActiveCount(p: map<string, Channel>, names: seq<string>): (r: nat)
    ensures r <= |names|
    ensures r == 0 <==> forall n :: n in names ==> !(n in p && p[n].active)
  {
    if names == [] then 0
    else
      var last := names[|names| - 1];
      ActiveCount(p, names[..|names| - 1]) + (if last in p && p[last].active then 1 else 0)
  }

  /** One more message on a channel. */
  function Bump(c: Channel): Channel
  {
    c.(messages := c.messages + 1)
  }

  /** The protocol table after propagate_tron(tron, protocol). */
  function Propagated(p: map<string, Channel>, protocol: string): (r: map<string, Channel>)
    ensures r.Keys == p.Keys
    ensures forall n :: n in r ==> r[n].active == p[n].active && r[n].messages >= p[n].messages
  {
    if protocol == AllProtocols then
      map n | n in p :: if p[n].active then Bump(p[n]) else p[n]
    else if protocol in p && p[protocol].active then
      p[protocol := Bump(p[protocol])]
    else
      p
  }

  /** The number of messages propagate_tron(tron, protocol) sends. */
  function Fanout(p: map<string, Channel>, protocol: string): (r: nat)
    ensures r <= |ProtocolNames|
    ensures protocol != AllProtocols ==> r <= 1
  {
    if protocol == AllProtocols then ActiveCount(p, ProtocolNames)
    else if protocol in p && p[protocol].active then 1
    else 0
  }

  // ----- Lemmas -----

  /** The four protocol names are distinct. */
  lemma ProtocolNamesDistinct()
    ensures Distinct(ProtocolNames)
  {
  }

  /** One more message on a listed protocol raises the sum by exactly one. */
  lemma {:induction false} SumBump(p: map<string, Channel>, names: seq<string>, n: string)
    requires Distinct(names) && n in p
    ensures MessageSum(p[n := Bump(p[n])], names) == MessageSum(p, names) + (if n in names then 1 else 0)
  {
    if names != [] {
      var init := names[..|names| - 1];
      assert Distinct(init);
      SumBump(p, init, n);
      assert names == init + [names[|names| - 1]];
      if names[|names| - 1] == n {
        assert n !in init;
      }
    }
  }

  /**
   * If `q` has one more message than `p` on every active protocol of `names`
   * and the same count on every inactive one, its sum is larger by the number
   * of active protocols.
   */
  lemma {:induction false} SumFanout(p: map<string, Channel>, q: map<string, Channel>, names: seq<string>)
    requires forall n :: n in names ==> n in p && n in q
    requires forall n :: n in names ==> q[n].messages == p[n].messages + (if p[n].active then 1 else 0)
    ensures MessageSum(q, names) == MessageSum(p, names) + ActiveCount(p, names)
  {
    if names != [] {
      var init := names[..|names| - 1];
      assert forall n :: n in init ==> n in names;
      SumFanout(p, q, init);
    }
  }

  /** A table whose every channel has no message sums to zero. */
  lemma {:induction false} SumZero(p: map<string, Channel>, names: seq<string>)
    requires forall n :: n in p ==> p[n].messages == 0
    ensures MessageSum(p, names) == 0
  {
    if names != [] {
      SumZero(p, names[..|names| - 1]);
    }
  }

  /**
   * propagate_tron raises the sum of message counts by exactly the number of
   * messages it sends, so a total kept equal to that sum stays equal to it.
   */
  lemma PropagatedSum(p: map<string, Channel>, protocol: string)
    requires forall n :: n in p <==> n in ProtocolNames
    ensures MessageSum(Propagated(p, protocol), ProtocolNames) == MessageSum(p, ProtocolNames) + Fanout(p, protocol)
  {
    ProtocolNamesDistinct();
    if protocol == AllProtocols {
      SumFanout(p, Propagated(p, protocol), ProtocolNames);
    } else if protocol in p && p[protocol].active {
      SumBump(p, ProtocolNames, protocol);
    }
  }

  /**
   * propagate_tron keeps the set of protocols and every active flag. With
   * "all" every active protocol gets one more message and every inactive one
   * none; with a named active protocol only that one gets one more; an
   * unknown or inactive name changes nothing.
   */
  lemma PropagatedEffect(p: map<string, Channel>, protocol: string)
    ensures Propagated(p, protocol).Keys == p.Keys
    ensures forall n :: n in p ==> Propagated(p, protocol)[n].active == p[n].active
    ensures protocol == AllProtocols ==>
              forall n :: n in p ==>
                Propagated(p, protocol)[n].messages == p[n].messages + (if p[n].active then 1 else 0)
    ensures protocol != AllProtocols && protocol in p && p[protocol].active ==>
              && Propagated(p, protocol)[protocol].messages == p[protocol].messages + 1
              && forall n :: n in p && n != protocol ==> Propagated(p, protocol)[n] == p[n]
    ensures protocol != AllProtocols && !(protocol in p && p[protocol].active) ==>
              Propagated(p, protocol) == p
  {
  }

  /** The table after the "all" loop has visited the protocol names in `visited`. */
  function PartialFanOut(p: map<string, Channel>, visited: seq<string>): map<string, Channel>
  {
    map n | n in p :: if n in visited && p[n].active then Bump(p[n]) else p[n]
  }

  /** One more visited protocol, not visited before: one more message on it if it is active. */
  lemma PartialFanOutStep(p: map<string, Channel>, visited: seq<string>, name: string)
    requires name in p && name !in visited
    ensures name in PartialFanOut(p, visited) && PartialFanOut(p, visited)[name] == p[name]
    ensures PartialFanOut(p, visited + [name]) ==
              (if p[name].active then PartialFanOut(p, visited)[name := Bump(p[name])] else PartialFanOut(p, visited))
  {
    assert forall n :: n in visited + [name] <==> n in visited || n == name;
  }

  /** The prefix of `names` up to `i + 1` extends the one up to `i` by `names[i]`, which a distinct `names` does not repeat. */
  lemma PrefixStep(names: seq<string>, i: nat)
    requires i < |names|
    ensures names[..i + 1] == names[..i] + [names[i]]
    ensures Distinct(names) ==> names[i] !in names[..i]
  {
    assert names[..i + 1] == names[..i] + [names[i]];
  }

  /** Counting one more name of `names` adds one exactly when it is an active protocol. */
  lemma ActiveCountStep(p: map<string, Channel>, names: seq<string>, i: nat)
    requires i < |names|
    ensures ActiveCount(p, names[..i + 1]) ==
              ActiveCount(p, names[..i]) + (if names[i] in p && p[names[i]].active then 1 else 0)
  {
    assert names[..i + 1][..i] == names[..i];
  }

  /** After the last name the loop has computed the "all" propagation, keeping the total equal to the sum. */
  lemma PartialFanOutDone(p: map<string, Channel>)
    requires forall n :: n in p <==> n in ProtocolNames
    ensures ProtocolNames[..|ProtocolNames|] == ProtocolNames
    ensures PartialFanOut(p, ProtocolNames) == Propagated(p, AllProtocols)
    ensures MessageSum(Propagated(p, AllProtocols), ProtocolNames) == MessageSum(p, ProtocolNames) + ActiveCount(p, ProtocolNames)
  {
    assert ProtocolNames[..|ProtocolNames|] == ProtocolNames;
    PropagatedSum(p, AllProtocols);
  }

  /**
   * The invariant of the "all" loop: after the first `i` names, the table has
   * one more message on each of them that is active, and the total counts them.
   */
  ghost predicate FanOutInvariant(p0: map<string, Channel>, t0: nat, i: nat, p: map<string, Channel>, t: nat)
  {
    && (forall n :: n in p0 <==> n in ProtocolNames)
    && t0 == MessageSum(p0, ProtocolNames)
    && i <= |ProtocolNames|
    && p == PartialFanOut(p0, ProtocolNames[..i])
    && t == t0 + ActiveCount(p0, ProtocolNames[..i])
  }

  /** Visiting name `i`: it is in the table unvisited, and bumping it if active re-establishes the invariant. */
  lemma FanOutInvariantStep(p0: map<string, Channel>, t0: nat, i: nat, p: map<string, Channel>, t: nat)
    requires FanOutInvariant(p0, t0, i, p, t) && i < |ProtocolNames|
    ensures var name := ProtocolNames[i];
            && name in p && p[name] == p0[name]
            && FanOutInvariant(p0, t0, i + 1,
                 if p[name].active then p[name := Bump(p[name])] else p,
                 if p[name].active then t + 1 else t)
  {
    ProtocolNamesDistinct();
    PrefixStep(ProtocolNames, i);
    PartialFanOutStep(p0, ProtocolNames[..i], ProtocolNames[i]);
    ActiveCountStep(p0, ProtocolNames, i);
  }

  /** When every name has been visited the loop has done the "all" propagation and the total is the sum. */
  lemma FanOutInvariantDone(p0: map<string, Channel>, t0: nat, p: map<string, Channel>, t: nat)
    requires FanOutInvariant(p0, t0, |ProtocolNames|, p, t)
    ensures p == Propagated(p0, AllProtocols)
    ensures t == t0 + ActiveCount(p0, ProtocolNames)
    ensures (forall n :: n in p <==> n in ProtocolNames) && t == MessageSum(p, ProtocolNames)
  {
    PartialFanOutDone(p0);
  }

  class Gateway {
    var protocols: map<string, Channel>
    var totalMessages: nat

    /** The table holds exactly the four protocols and the total is the sum of their counts. */
    ghost predicate Valid()
      reads this
    {
      && (forall n :: n in protocols <==> n in ProtocolNames)
      && totalMessages == MessageSum(protocols, ProtocolNames)
    }

    constructor ()
      ensures Valid()
      ensures protocols == InitialProtocols() && totalMessages == 0
    {
      protocols := InitialProtocols();
      totalMessages := 0;
      SumZero(InitialProtocols(), ProtocolNames);
    }

    /**
     * propagate_tron: with "all", one message on every active protocol, in
     * table order; with a protocol name, one message on it if it exists and
     * is active, and nothing otherwise. The entity is only named in a log line.
     */
    method PropagateTron(protocol: string)
      requires Valid()
      modifies this
      ensures Valid()
      ensures protocols == Propagated(old(protocols), protocol)
      ensures totalMessages == old(totalMessages) + Fanout(old(protocols), protocol)
    {
      if protocol == AllProtocols {
        FanOutAll();
      } else if protocol in protocols && protocols[protocol].active {
        ProtocolNamesDistinct();
        SumBump(protocols, ProtocolNames, protocol);
        protocols := protocols[protocol := Bump(protocols[protocol])];
        totalMessages := totalMessages + 1;
      }
    }

    /** The "all" branch of propagate_tron: walk the table, one message per active protocol. */
    method FanOutAll()
      requires Valid()
      modifies this
      ensures Valid()
      ensures protocols == Propagated(old(protocols), AllProtocols)
      ensures totalMessages == old(totalMessages) + ActiveCount(old(protocols), ProtocolNames)
    {
      ghost var p0, t0 := protocols, totalMessages;
      for i := 0 to |ProtocolNames|
        invariant FanOutInvariant(p0, t0, i, protocols, totalMessages)
      {
        var name := ProtocolNames[i];
        FanOutInvariantStep(p0, t0, i, protocols, totalMessages);
        if protocols[name].active {
          protocols := protocols[name := Bump(protocols[name])];
          totalMessages := totalMessages + 1;
        }
      }
      FanOutInvariantDone(p0, t0, protocols, totalMessages);
    }

    /** get_status: the protocol table and the total, which always equals the sum of the counts. */
    function GetStatus(): (s: GatewayStatus)
      reads this
      requires Valid()
      ensures s.protocols == protocols && s.totalMessages == totalMessages
      ensures s.totalMessages == MessageSum(s.protocols, ProtocolNames)
      ensures forall n :: n in s.protocols <==> n in ProtocolNames
    {
      GatewayStatus(protocols, totalMessages)
    }
  }
}
