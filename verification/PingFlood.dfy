/**
 * The diameter ping: a flood in which every node keeps the smallest hop count it has heard for a
 * ping and forwards each improvement, with messages delivered in any order.
 */
module PingFlood {

  // ------------------------------------------------------------------ one node

  predicate Improves(pings: map<string, int>, id: string, dnext: int, overwrite: bool) {
    id !in pings || (overwrite && pings[id] > dnext)
  }

  /** The table of one server, updated in place. */
  class PingTable {
    var pings: map<string, int>

    constructor ()
      ensures pings == map[]
    {
      pings := map[];
    }

    /** Records a hop count that is new or, in diameter mode, smaller than before. */
    method AddPing(id: string, dnext: int, overwrite: bool) returns (added: bool)
      modifies this
      ensures added == Improves(old(pings), id, dnext, overwrite)
      ensures pings == if added then old(pings)[id := dnext] else old(pings)
      ensures !overwrite ==> (added <==> id !in old(pings))
      ensures overwrite ==> (added <==> id !in old(pings) || dnext < old(pings)[id])
    {
      if overwrite {
        if id !in pings || pings[id] > dnext {
          pings := pings[id := dnext];
          return true;
        }
        return false;
      }
      if id in pings {
        return false;
      }
      pings := pings[id := dnext];
      return true;
    }
  }

  // ------------------------------------------------------------------ the network

  /** Node `v` writes to the nodes `peers[v]`; nodes are numbered. */
  datatype Net = Net(peers: seq<set<nat>>, origin: nat)

  ghost predicate WellFormed(net: Net) {
    && net.origin < |net.peers|
    && forall v, u | 0 <= v < |net.peers| && u in net.peers[v] :: u < |net.peers|
  }

  /** A ping on its way to `to`. */
  datatype Message = Message(to: nat, dnext: nat)

  /** What each node recorded for one ping identifier, and the messages on their way. */
  datatype State = State(heard: map<nat, nat>, inFlight: multiset<Message>)

  ghost function SentTo(targets: set<nat>, dnext: nat): set<Message> {
    set u | u in targets :: Message(u, dnext)
  }

  /** `run_network` starts a ping: it records 0 at home and sends 0 to every peer. */
  ghost function Start(net: Net): State
    requires WellFormed(net)
  {
    State(map[net.origin := 0], multiset(SentTo(net.peers[net.origin], 0)))
  }

  /** One message is handled: recorded and forwarded with one more hop, or ignored. */
  ghost function Handle(net: Net, s: State, m: Message): State
    requires m.to < |net.peers|
  {
    var rest := s.inFlight - multiset{m};
    if m.to !in s.heard || s.heard[m.to] > m.dnext then
      State(s.heard[m.to := m.dnext], rest + multiset(SentTo(net.peers[m.to], m.dnext + 1)))
    else s.(inFlight := rest)
  }

  /** The decision of `Handle` is that of `AddPing` in diameter mode. */
  lemma HandleFollowsAddPing(net: Net, s: State, m: Message, pings: map<string, int>, id: string)
    requires m.to < |net.peers|
    requires id in pings <==> m.to in s.heard
    requires id in pings ==> pings[id] == s.heard[m.to]
    ensures Handle(net, s, m).heard ==
              if Improves(pings, id, m.dnext, true) then s.heard[m.to := m.dnext] else s.heard
  {
  }

  ghost predicate Step(net: Net, s: State, s': State) {
    exists m :: m in s.inFlight && m.to < |net.peers| && s' == Handle(net, s, m)
  }

  // ------------------------------------------------------------------ paths

  /** There is a walk of `k` hops from the origin to `v`. */
  ghost predicate Walk(net: Net, k: nat, v: nat) {
    if k == 0 then v == net.origin
    else exists u: nat :: u < |net.peers| && v in net.peers[u] && Walk(net, k - 1, u)
  }

  /** The hop count that a record stands for: a recorded value counts the hops before the last. */
  ghost function Hops(net: Net, s: State, v: nat): nat
    requires v in s.heard
  {
    if v == net.origin then 0 else s.heard[v] + 1
  }

  // ------------------------------------------------------------------ invariant

  /** Every record and every message stands for a real walk. */
  ghost predicate Sound(net: Net, s: State) {
    && net.origin in s.heard && s.heard[net.origin] == 0
    && (forall v | v in s.heard :: v < |net.peers| && Walk(net, Hops(net, s, v), v))
    && (forall m | m in s.inFlight :: m.to < |net.peers| && Walk(net, m.dnext + 1, m.to))
  }

  /** The neighbour heard it at least as well, or a message that good is on its way. */
  ghost predicate Covered(s: State, v: nat, d: nat) {
    || (v in s.heard && s.heard[v] <= d)
    || exists m :: m in s.inFlight && m.to == v && m.dnext <= d
  }

  ghost predicate Complete(net: Net, s: State) {
    forall u, v | u in s.heard && u < |net.peers| && v in net.peers[u] :: Covered(s, v, Hops(net, s, u))
  }

  /** Hop counts stay below the number of nodes that heard the ping. */
  ghost predicate Bounded(net: Net, s: State) {
    && (forall v | v in s.heard :: Hops(net, s, v) < |s.heard|)
    && (forall m | m in s.inFlight :: m.dnext < |s.heard|)
  }

  ghost predicate Inv(net: Net, s: State) {
    WellFormed(net) && Sound(net, s) && Complete(net, s) && Bounded(net, s)
  }

  lemma StartInv(net: Net)
    requires WellFormed(net)
    ensures Inv(net, Start(net))
  {
    var s := Start(net);
    forall m | m in s.inFlight ensures m.to < |net.peers| && Walk(net, m.dnext + 1, m.to) {
      assert Walk(net, 0, net.origin);
    }
    forall u, v | u in s.heard && v in net.peers[u] ensures Covered(s, v, Hops(net, s, u)) {
      assert Message(v, 0) in s.inFlight;
    }
  }

  /** A message after a step was there before, or carries what `m` improved to a neighbour. */
  lemma WhereFrom(net: Net, s: State, m: Message, n: Message)
    requires m.to < |net.peers| && m in s.inFlight && n in Handle(net, s, m).inFlight
    ensures n in s.inFlight ||
            (n.to in net.peers[m.to] && n.dnext == m.dnext + 1 && Handle(net, s, m).heard == s.heard[m.to := m.dnext])
  {
  }

  lemma KeepsSound(net: Net, s: State, m: Message)
    requires Inv(net, s) && m in s.inFlight
    ensures Sound(net, Handle(net, s, m))
  {
    hide Complete, Bounded, Handle, Walk;
    var s' := Handle(net, s, m);
    forall n | n in s'.inFlight ensures n.to < |net.peers| && Walk(net, n.dnext + 1, n.to) {
      MessagesAreSound(net, s, m, n);
    }
    HomeStays(net, s, m);
    forall v | v in s'.heard ensures v < |net.peers| && Walk(net, Hops(net, s', v), v) {
      HeardFrom(net, s, m, v);
    }
  }

  lemma HomeStays(net: Net, s: State, m: Message)
    requires Sound(net, s) && m in s.inFlight
    ensures net.origin in Handle(net, s, m).heard && Handle(net, s, m).heard[net.origin] == 0
  {
  }

  lemma MessagesAreSound(net: Net, s: State, m: Message, n: Message)
    requires WellFormed(net) && Sound(net, s) && m in s.inFlight && n in Handle(net, s, m).inFlight
    ensures n.to < |net.peers| && Walk(net, n.dnext + 1, n.to)
  {
    hide Handle, Walk;
    WhereFrom(net, s, m, n);
    if n !in s.inFlight {
      OneMoreHop(net, m.dnext + 1, m.to, n.to);
    }
  }

  lemma OneMoreHop(net: Net, k: nat, u: nat, v: nat)
    requires u < |net.peers| && v in net.peers[u] && Walk(net, k, u)
    ensures Walk(net, k + 1, v)
  {
  }

  lemma HeardFrom(net: Net, s: State, m: Message, v: nat)
    requires Sound(net, s) && m in s.inFlight && v in Handle(net, s, m).heard
    ensures if v == m.to && Handle(net, s, m).heard != s.heard
            then v < |net.peers| && v != net.origin && Hops(net, Handle(net, s, m), v) == m.dnext + 1
            else v in s.heard && Hops(net, Handle(net, s, m), v) == Hops(net, s, v)
  {
  }

  lemma KeepsComplete(net: Net, s: State, m: Message)
    requires Inv(net, s) && m in s.inFlight
    ensures Complete(net, Handle(net, s, m))
  {
    hide Walk, Bounded, Covered;
    var s' := Handle(net, s, m);
    forall u, v | u in s'.heard && u < |net.peers| && v in net.peers[u]
      ensures Covered(s', v, Hops(net, s', u))
    {
      if u == m.to && s'.heard != s.heard {
        assert Message(v, m.dnext + 1) in SentTo(net.peers[m.to], m.dnext + 1);
        assert Message(v, m.dnext + 1) in s'.inFlight;
        OnItsWay(s', v, m.dnext + 1);
      } else {
        assert Covered(s, v, Hops(net, s, u));
        StaysCovered(net, s, m, v, Hops(net, s, u));
      }
    }
  }

  lemma OnItsWay(s: State, v: nat, d: nat)
    requires Message(v, d) in s.inFlight
    ensures Covered(s, v, d)
  {
  }

  lemma StaysCovered(net: Net, s: State, m: Message, v: nat, d: nat)
    requires m in s.inFlight && m.to < |net.peers| && Covered(s, v, d)
    ensures Covered(Handle(net, s, m), v, d)
  {
    var s' := Handle(net, s, m);
    if !(v in s.heard && s.heard[v] <= d) {
      var n :| n in s.inFlight && n.to == v && n.dnext <= d;
      if n != m {
        assert n in s'.inFlight;
      }
    }
  }

  lemma HeardSize(s: State, v: nat, d: nat)
    ensures |s.heard[v := d]| == if v in s.heard then |s.heard| else |s.heard| + 1
  {
    assert s.heard[v := d].Keys == s.heard.Keys + {v};
    assert |s.heard[v := d].Keys| == |s.heard[v := d]|;
  }

  lemma KeepsBounded(net: Net, s: State, m: Message)
    requires Inv(net, s) && m in s.inFlight
    ensures Bounded(net, Handle(net, s, m))
  {
    hide Walk, Complete;
    var s' := Handle(net, s, m);
    HeardSize(s, m.to, m.dnext);
    forall n | n in s'.inFlight ensures n.dnext < |s'.heard| {
      if n !in s.inFlight {
        assert n in SentTo(net.peers[m.to], m.dnext + 1);
        if m.to in s.heard {
          assert s.heard[m.to] > m.dnext && m.to != net.origin;
          assert Hops(net, s, m.to) < |s.heard|;
        }
      }
    }
  }

  lemma StepInv(net: Net, s: State, s': State)
    requires Inv(net, s) && Step(net, s, s')
    ensures Inv(net, s')
  {
    var m :| m in s.inFlight && m.to < |net.peers| && s' == Handle(net, s, m);
    KeepsSound(net, s, m);
    KeepsComplete(net, s, m);
    KeepsBounded(net, s, m);
  }

  // ------------------------------------------------------------------ termination

  /** The sum of the recorded values over the nodes below `k`; a silent node counts `n`. */
  ghost function Potential(s: State, n: nat, k: nat): nat {
    if k == 0 then 0
    else Potential(s, n, k - 1) + if k - 1 in s.heard then s.heard[k - 1] else n
  }

  ghost function Measure(net: Net, s: State): nat {
    var n := |net.peers|;
    Potential(s, n, n) * (n + 1) + |s.inFlight|
  }

  lemma {:induction false} PotentialDrops(s: State, s': State, n: nat, k: nat, v: nat, d: nat)
    requires s'.heard == s.heard[v := d] && v < n
    requires d < if v in s.heard then s.heard[v] else n
    ensures Potential(s', n, k) <= Potential(s, n, k) - if v < k then 1 else 0
  {
    if k > 0 {
      PotentialDrops(s, s', n, k - 1, v, d);
    }
  }

  lemma {:induction false} SendsFew(targets: set<nat>, d: nat)
    ensures |SentTo(targets, d)| <= |targets|
  {
    if targets != {} {
      var u :| u in targets;
      SendsFew(targets - {u}, d);
      assert SentTo(targets, d) == SentTo(targets - {u}, d) + {Message(u, d)};
    }
  }

  lemma {:induction false} BoundedSet(targets: set<nat>, n: nat)
    requires forall u | u in targets :: u < n
    ensures |targets| <= n
  {
    if n == 0 {
      assert targets == {};
    } else {
      BoundedSet(targets - {n - 1}, n - 1);
    }
  }

  lemma HeardIsFew(net: Net, s: State)
    requires Inv(net, s)
    ensures |s.heard| <= |net.peers|
  {
    BoundedSet(s.heard.Keys, |net.peers|);
    assert |s.heard.Keys| == |s.heard|;
  }

  lemma Improving(net: Net, s: State, m: Message)
    requires Inv(net, s) && m in s.inFlight && (m.to !in s.heard || s.heard[m.to] > m.dnext)
    ensures var s', n := Handle(net, s, m), |net.peers|;
            && Potential(s', n, n) <= Potential(s, n, n) - 1
            && |s'.inFlight| <= |s.inFlight| - 1 + n
  {
    hide Walk, Complete;
    var s', n := Handle(net, s, m), |net.peers|;
    HeardIsFew(net, s);
    PotentialDrops(s, s', n, n, m.to, m.dnext);
    SendsFew(net.peers[m.to], m.dnext + 1);
    BoundedSet(net.peers[m.to], n);
    assert |s.inFlight - multiset{m}| == |s.inFlight| - 1;
  }

  lemma Weigh(p: nat, p': nat, n: nat, f: nat, f': nat)
    requires p' <= p - 1 && f' <= f - 1 + n
    ensures p' * (n + 1) + f' < p * (n + 1) + f
  {
    assert p' * (n + 1) <= (p - 1) * (n + 1) == p * (n + 1) - (n + 1);
  }

  lemma Ignoring(net: Net, s: State, m: Message)
    requires m in s.inFlight && m.to < |net.peers| && m.to in s.heard && s.heard[m.to] <= m.dnext
    ensures var s', n := Handle(net, s, m), |net.peers|;
            Potential(s', n, n) == Potential(s, n, n) && |s'.inFlight| == |s.inFlight| - 1
  {
    SamePotential(s, Handle(net, s, m), |net.peers|, |net.peers|);
  }

  lemma HandleDecreases(net: Net, s: State, m: Message)
    requires Inv(net, s) && m in s.inFlight && m.to < |net.peers|
    ensures Measure(net, Handle(net, s, m)) < Measure(net, s)
  {
    hide Inv, Potential, Handle;
    var s', n := Handle(net, s, m), |net.peers|;
    if m.to !in s.heard || s.heard[m.to] > m.dnext {
      Improving(net, s, m);
      Weigh(Potential(s, n, n), Potential(s', n, n), n, |s.inFlight|, |s'.inFlight|);
    } else {
      Ignoring(net, s, m);
    }
  }

  /** Every handled message makes the measure smaller, so the flood ends. */
  lemma StepDecreases(net: Net, s: State, s': State)
    requires Inv(net, s) && Step(net, s, s')
    ensures Measure(net, s') < Measure(net, s)
  {
    hide Inv, Measure, Handle;
    var m :| m in s.inFlight && m.to < |net.peers| && s' == Handle(net, s, m);
    HandleDecreases(net, s, m);
  }

  lemma {:induction false} SamePotential(s: State, s': State, n: nat, k: nat)
    requires s'.heard == s.heard
    ensures Potential(s', n, k) == Potential(s, n, k)
  {
    if k > 0 {
      SamePotential(s, s', n, k - 1);
    }
  }

  // ------------------------------------------------------------------ the result

  /** When no message is left, every walk is matched by a record at least as short. */
  lemma {:induction false} QuiescentIsShortest(net: Net, s: State, k: nat, v: nat)
    requires Inv(net, s) && s.inFlight == multiset{} && Walk(net, k, v)
    ensures v in s.heard && Hops(net, s, v) <= k
    decreases k
  {
    if k > 0 {
      var u: nat :| u < |net.peers| && v in net.peers[u] && Walk(net, k - 1, u);
      QuiescentIsShortest(net, s, k - 1, u);
      assert Covered(s, v, Hops(net, s, u));
    }
  }

  ghost predicate Run(net: Net, states: seq<State>) {
    && WellFormed(net) && |states| > 0 && states[0] == Start(net)
    && forall i | 0 <= i < |states| - 1 :: Step(net, states[i], states[i + 1])
  }

  lemma {:induction false} RunInv(net: Net, states: seq<State>, i: nat)
    requires Run(net, states) && i < |states|
    ensures Inv(net, states[i]) && Measure(net, states[i]) + i <= Measure(net, states[0])
  {
    if i == 0 {
      StartInv(net);
    } else {
      RunInv(net, states, i - 1);
      assert Step(net, states[i - 1], states[i - 1 + 1]);
      StepInv(net, states[i - 1], states[i]);
      StepDecreases(net, states[i - 1], states[i]);
    }
  }

  /**
   * The flood: no run is longer than the measure of its first state; at every moment a record
   * stands for a real walk; and once no message is left, the nodes that heard the ping are exactly
   * the reachable ones, each with its shortest hop distance.
   */
  lemma FloodFindsDistances(net: Net, states: seq<State>)
    requires Run(net, states)
    ensures |states| <= Measure(net, states[0]) + 1
    ensures forall i, v | 0 <= i < |states| && v in states[i].heard :: Walk(net, Hops(net, states[i], v), v)
    ensures var last := states[|states| - 1];
            last.inFlight == multiset{} ==>
              (forall k, v :: Walk(net, k, v) ==> v in last.heard && Hops(net, last, v) <= k)
  {
    forall i | 0 <= i < |states| ensures Inv(net, states[i]) && Measure(net, states[i]) + i <= Measure(net, states[0]) {
      RunInv(net, states, i);
    }
    var last := states[|states| - 1];
    assert Inv(net, last);
    if last.inFlight == multiset{} {
      forall k, v | Walk(net, k, v) ensures v in last.heard && Hops(net, last, v) <= k {
        QuiescentIsShortest(net, last, k, v);
      }
    }
  }
}
