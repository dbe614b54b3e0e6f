/**
 * The latency ping: a node records and forwards a ping only when it hears of it for the first time,
 * whatever hop count comes later.
 */
module LatencyFlood {
  import PingFlood

  // ------------------------------------------------------------------ the table of one node

  datatype Call = Call(id: string, dnext: int, overwrite: bool)

  /** The tables of one node over its calls of `add_ping`, and their results. */
  ghost predicate IsHistory(tables: seq<map<string, int>>, calls: seq<Call>, added: seq<bool>) {
    && |tables| == |calls| + 1 && |added| == |calls| && tables[0] == map[]
    && forall i | 0 <= i < |calls| :: IsCall(tables[i], calls[i], added[i], tables[i + 1])
  }

  /** What one call of `add_ping` does. */
  ghost predicate IsCall(before: map<string, int>, c: Call, added: bool, after: map<string, int>) {
    && added == PingFlood.Improves(before, c.id, c.dnext, c.overwrite)
    && after == if added then before[c.id := c.dnext] else before
  }

  /** The identifier names a latency ping: no call for it is in diameter mode. */
  ghost predicate IsLatency(calls: seq<Call>, id: string) {
    forall i | 0 <= i < |calls| && calls[i].id == id :: !calls[i].overwrite
  }

  /** The `i`-th call is the first for this identifier. */
  ghost predicate IsFirst(calls: seq<Call>, id: string, i: nat) {
    i < |calls| && calls[i].id == id && forall j | 0 <= j < i :: calls[j].id != id
  }

  /** A latency ping is in the table from its first call on, with the hop count of that call for ever. */
  lemma {:induction false} FirstCountStays(
    tables: seq<map<string, int>>, calls: seq<Call>, added: seq<bool>, id: string, k: nat)
    requires IsHistory(tables, calls, added) && IsLatency(calls, id) && k < |tables|
    ensures id in tables[k] <==> exists i: nat :: i < k && IsFirst(calls, id, i)
    ensures forall i: nat | i < k && IsFirst(calls, id, i) :: id in tables[k] && tables[k][id] == calls[i].dnext
  {
    if k > 0 {
      FirstCountStays(tables, calls, added, id, k - 1);
      var c := calls[k - 1];
      assert IsCall(tables[k - 1], c, added[k - 1], tables[k - 1 + 1]);
      if c.id == id && id !in tables[k - 1] {
        FirstOfAll(calls, id, k - 1);
      }
    }
  }

  lemma {:induction false} FirstOfAll(calls: seq<Call>, id: string, k: nat)
    requires k < |calls| && calls[k].id == id && !exists i: nat :: i < k && IsFirst(calls, id, i)
    ensures IsFirst(calls, id, k)
  {
    if j: nat :| j < k && calls[j].id == id {
      FirstOfAll(calls, id, j);
    }
  }

  /** A call for a latency ping answers true exactly when it is the first. */
  lemma AddedOnlyOnce(
    tables: seq<map<string, int>>, calls: seq<Call>, added: seq<bool>, id: string, k: nat)
    requires IsHistory(tables, calls, added) && IsLatency(calls, id) && k < |calls| && calls[k].id == id
    ensures added[k] <==> IsFirst(calls, id, k)
  {
    FirstCountStays(tables, calls, added, id, k);
    assert IsCall(tables[k], calls[k], added[k], tables[k + 1]);
    if id !in tables[k] {
      FirstOfAll(calls, id, k);
    }
  }

  // ------------------------------------------------------------------ the network

  type Net = PingFlood.Net

  /** A ping from one node to another. */
  datatype Wave = Wave(from: nat, to: nat, dnext: nat)

  datatype Edge = Edge(from: nat, to: nat)

  /** What each node recorded, the pings on their way, and over which edges one was ever sent. */
  datatype State = State(heard: map<nat, nat>, inFlight: multiset<Wave>, sent: multiset<Edge>)

  ghost function WavesTo(net: Net, u: nat, dnext: nat): set<Wave>
    requires u < |net.peers|
  {
    set v | v in net.peers[u] :: Wave(u, v, dnext)
  }

  /** The edges that leave the nodes of `us`. */
  ghost function EdgesFrom(net: Net, us: set<nat>): set<Edge> {
    set u, v | u in us && u < |net.peers| && v in net.peers[u] :: Edge(u, v)
  }

  ghost function AllEdges(net: Net): set<Edge> {
    set u, v | 0 <= u < |net.peers| && v in net.peers[u] :: Edge(u, v)
  }

  /** The origin records its own ping and writes it to all peers. */
  ghost function Start(net: Net): State
    requires PingFlood.WellFormed(net)
  {
    State(map[net.origin := 0], multiset(WavesTo(net, net.origin, 0)), multiset(EdgesFrom(net, {net.origin})))
  }

  /** The entry of this one ping in the table of a node. */
  ghost function TableOf(s: State, v: nat): map<string, int> {
    if v in s.heard then map["" := s.heard[v]] else map[]
  }

  /** One ping is handled: the table of the node decides whether it is recorded and forwarded. */
  ghost function Handle(net: Net, s: State, m: Wave): State
    requires m.to < |net.peers|
  {
    var rest := s.inFlight - multiset{m};
    if PingFlood.Improves(TableOf(s, m.to), "", m.dnext, false) then
      State(s.heard[m.to := m.dnext], rest + multiset(WavesTo(net, m.to, m.dnext + 1)),
            s.sent + multiset(EdgesFrom(net, {m.to})))
    else s.(inFlight := rest)
  }

  ghost predicate Step(net: Net, s: State, s': State) {
    exists m :: m in s.inFlight && m.to < |net.peers| && s' == Handle(net, s, m)
  }

  ghost predicate IsRun(net: Net, states: seq<State>) {
    && PingFlood.WellFormed(net) && |states| > 0 && states[0] == Start(net)
    && forall i | 0 <= i < |states| - 1 :: Step(net, states[i], states[i + 1])
  }

  // ------------------------------------------------------------------ invariant

  /** Every record and every ping on its way stands for a real walk. */
  ghost predicate Sound(net: Net, s: State) {
    && net.origin in s.heard
    && (forall v | v in s.heard ::
          v < |net.peers| && PingFlood.Walk(net, if v == net.origin then 0 else s.heard[v] + 1, v))
    && (forall m | m in s.inFlight :: m.to < |net.peers| && PingFlood.Walk(net, m.dnext + 1, m.to))
  }

  /** A ping is on its way to `v`. */
  ghost predicate Coming(s: State, v: nat) {
    exists m :: m in s.inFlight && m.to == v
  }

  /** Every neighbour of a node that heard has heard, or will. */
  ghost predicate Complete(net: Net, s: State) {
    forall u, v | u in s.heard && u < |net.peers| && v in net.peers[u] :: v in s.heard || Coming(s, v)
  }

  /** Over every edge that leaves a node that heard, exactly one ping was ever sent, and over no other. */
  ghost predicate SentOnce(net: Net, s: State) {
    s.sent == multiset(EdgesFrom(net, s.heard.Keys))
  }

  ghost predicate Inv(net: Net, s: State) {
    PingFlood.WellFormed(net) && Sound(net, s) && Complete(net, s) && SentOnce(net, s)
  }

  lemma StartInv(net: Net)
    requires PingFlood.WellFormed(net)
    ensures Inv(net, Start(net))
  {
    var s := Start(net);
    forall m | m in s.inFlight ensures m.to < |net.peers| && PingFlood.Walk(net, m.dnext + 1, m.to) {
      assert PingFlood.Walk(net, 0, net.origin);
    }
    forall u, v | u in s.heard && u < |net.peers| && v in net.peers[u] ensures Coming(s, v) {
      assert Wave(u, v, 0) in s.inFlight;
    }
    assert s.heard.Keys == {net.origin};
  }

  /** The first ping that a node hears is recorded and forwarded, and no later one is. */
  lemma HandleIsFirst(net: Net, s: State, m: Wave)
    requires m.to < |net.peers|
    ensures var s', rest := Handle(net, s, m), s.inFlight - multiset{m};
            if m.to in s.heard then s' == s.(inFlight := rest)
            else s' == State(s.heard[m.to := m.dnext], rest + multiset(WavesTo(net, m.to, m.dnext + 1)),
                             s.sent + multiset(EdgesFrom(net, {m.to})))
  {
  }

  lemma KeepsSound(net: Net, s: State, m: Wave)
    requires PingFlood.WellFormed(net) && Sound(net, s) && m in s.inFlight
    ensures Sound(net, Handle(net, s, m))
  {
    hide Handle, PingFlood.Walk;
    HandleIsFirst(net, s, m);
    var s' := Handle(net, s, m);
    forall n | n in s'.inFlight ensures n.to < |net.peers| && PingFlood.Walk(net, n.dnext + 1, n.to) {
      if n !in s.inFlight {
        assert n in WavesTo(net, m.to, m.dnext + 1);
        PingFlood.OneMoreHop(net, m.dnext + 1, m.to, n.to);
      }
    }
  }

  lemma KeepsComplete(net: Net, s: State, m: Wave)
    requires Complete(net, s) && m in s.inFlight && m.to < |net.peers|
    ensures Complete(net, Handle(net, s, m))
  {
    hide Handle, Coming;
    HandleIsFirst(net, s, m);
    var s' := Handle(net, s, m);
    forall u, v | u in s'.heard && u < |net.peers| && v in net.peers[u] ensures v in s'.heard || Coming(s', v) {
      if u in s.heard {
        StillComing(net, s, m, v);
      } else {
        assert Wave(u, v, m.dnext + 1) in WavesTo(net, u, m.dnext + 1);
        assert Wave(u, v, m.dnext + 1) in s'.inFlight;
        OnItsWay(s', Wave(u, v, m.dnext + 1));
      }
    }
  }

  lemma OnItsWay(s: State, m: Wave)
    requires m in s.inFlight
    ensures Coming(s, m.to)
  {
  }

  lemma StillComing(net: Net, s: State, m: Wave, v: nat)
    requires m in s.inFlight && m.to < |net.peers| && (v in s.heard || Coming(s, v))
    ensures v in Handle(net, s, m).heard || Coming(Handle(net, s, m), v)
  {
    hide Handle;
    HandleIsFirst(net, s, m);
    if v !in Handle(net, s, m).heard {
      var n :| n in s.inFlight && n.to == v;
      assert n in Handle(net, s, m).inFlight;
    }
  }

  lemma KeepsSentOnce(net: Net, s: State, m: Wave)
    requires SentOnce(net, s) && m.to < |net.peers|
    ensures SentOnce(net, Handle(net, s, m))
  {
    hide Handle;
    HandleIsFirst(net, s, m);
    if m.to !in s.heard {
      var some, more := EdgesFrom(net, s.heard.Keys), EdgesFrom(net, {m.to});
      var all := EdgesFrom(net, s.heard.Keys + {m.to});
      assert s.heard[m.to := m.dnext].Keys == s.heard.Keys + {m.to};
      assert some !! more && all == some + more;
      assert multiset(all) == multiset(some) + multiset(more);
    }
  }

  lemma StepInv(net: Net, s: State, s': State)
    requires Inv(net, s) && Step(net, s, s')
    ensures Inv(net, s')
  {
    hide Handle, Sound, Complete, SentOnce;
    var m :| m in s.inFlight && m.to < |net.peers| && s' == Handle(net, s, m);
    KeepsSound(net, s, m);
    KeepsComplete(net, s, m);
    KeepsSentOnce(net, s, m);
  }

  // ------------------------------------------------------------------ the result

  lemma {:induction false} AsManyWaves(u: nat, dnext: nat, vs: set<nat>)
    ensures |set v | v in vs :: Wave(u, v, dnext)| == |vs|
  {
    if vs != {} {
      var x :| x in vs;
      AsManyWaves(u, dnext, vs - {x});
      assert (set v | v in vs :: Wave(u, v, dnext)) ==
             (set v | v in vs - {x} :: Wave(u, v, dnext)) + {Wave(u, x, dnext)};
    }
  }

  lemma {:induction false} AsManyEdges(u: nat, vs: set<nat>)
    ensures |set v | v in vs :: Edge(u, v)| == |vs|
  {
    if vs != {} {
      var x :| x in vs;
      AsManyEdges(u, vs - {x});
      assert (set v | v in vs :: Edge(u, v)) == (set v | v in vs - {x} :: Edge(u, v)) + {Edge(u, x)};
    }
  }

  /** A node sends one ping over each of its edges. */
  lemma OneWavePerEdge(net: Net, u: nat, dnext: nat)
    requires u < |net.peers|
    ensures |multiset(WavesTo(net, u, dnext))| == |multiset(EdgesFrom(net, {u}))|
  {
    AsManyWaves(u, dnext, net.peers[u]);
    AsManyEdges(u, net.peers[u]);
    assert EdgesFrom(net, {u}) == set v | v in net.peers[u] :: Edge(u, v);
  }

  /** Each ping that was sent is handled once or still on its way. */
  lemma StepCounts(net: Net, s: State, s': State)
    requires Step(net, s, s')
    ensures |s'.sent| - |s'.inFlight| == |s.sent| - |s.inFlight| + 1
    ensures forall v | v in s.heard :: v in s'.heard && s'.heard[v] == s.heard[v]
  {
    hide Handle;
    var m :| m in s.inFlight && m.to < |net.peers| && s' == Handle(net, s, m);
    HandleIsFirst(net, s, m);
    OneWavePerEdge(net, m.to, m.dnext + 1);
    assert |s.inFlight - multiset{m}| == |s.inFlight| - 1;
  }

  lemma {:induction false} RunInv(net: Net, states: seq<State>, i: nat)
    requires IsRun(net, states) && i < |states|
    ensures Inv(net, states[i]) && |states[i].sent| == |states[i].inFlight| + i
  {
    if i == 0 {
      StartInv(net);
      OneWavePerEdge(net, net.origin, 0);
    } else {
      RunInv(net, states, i - 1);
      assert Step(net, states[i - 1], states[i - 1 + 1]);
      StepInv(net, states[i - 1], states[i]);
      StepCounts(net, states[i - 1], states[i]);
    }
  }

  lemma {:induction false} RecordsStay(net: Net, states: seq<State>, i: nat, j: nat, v: nat)
    requires IsRun(net, states) && i <= j < |states| && v in states[i].heard
    ensures v in states[j].heard && states[j].heard[v] == states[i].heard[v]
  {
    if i < j {
      RecordsStay(net, states, i, j - 1, v);
      assert Step(net, states[j - 1], states[j - 1 + 1]);
      StepCounts(net, states[j - 1], states[j]);
    }
  }

  /** When no ping is left, every node that a walk reaches has heard. */
  lemma {:induction false} QuiescentHasReached(net: Net, s: State, k: nat, v: nat)
    requires Inv(net, s) && s.inFlight == multiset{} && PingFlood.Walk(net, k, v)
    ensures v in s.heard
    decreases k
  {
    if k > 0 {
      var u: nat :| u < |net.peers| && v in net.peers[u] && PingFlood.Walk(net, k - 1, u);
      QuiescentHasReached(net, s, k - 1, u);
    }
  }

  lemma EdgesWithin(net: Net, s: State)
    requires Inv(net, s)
    ensures |s.sent| <= |AllEdges(net)|
    ensures forall u, v :: s.sent[Edge(u, v)] == if u in s.heard && v in net.peers[u] then 1 else 0
  {
    var some, all := EdgesFrom(net, s.heard.Keys), AllEdges(net);
    assert some <= all;
    assert all == some + (all - some);
    assert |multiset(some)| == |some|;
  }

  /**
   * A latency flood sends at most one ping over each edge, namely exactly one over every edge that
   * leaves a node that heard; it has no more steps than the network has edges; a record is never
   * overwritten and stands for a real walk; and with no ping left all reachable nodes have heard.
   */
  lemma OnePingPerEdge(net: Net, states: seq<State>, i: nat)
    requires IsRun(net, states) && i < |states|
    ensures forall u, v :: states[i].sent[Edge(u, v)] <= 1
    ensures forall u, v ::
              states[i].sent[Edge(u, v)] == 1 <==> u in states[i].heard && u < |net.peers| && v in net.peers[u]
    ensures |states| <= |AllEdges(net)| + 1
    ensures forall j, v | 0 <= j <= i && v in states[j].heard ::
              v in states[i].heard && states[i].heard[v] == states[j].heard[v]
    ensures forall v | v in states[i].heard ::
              v < |net.peers| && PingFlood.Walk(net, if v == net.origin then 0 else states[i].heard[v] + 1, v)
    ensures states[i].inFlight == multiset{} ==> forall k, v :: PingFlood.Walk(net, k, v) ==> v in states[i].heard
  {
    hide PingFlood.Walk;
    RunInv(net, states, i);
    EdgesWithin(net, states[i]);
    RunInv(net, states, |states| - 1);
    EdgesWithin(net, states[|states| - 1]);
    forall j, v | 0 <= j <= i && v in states[j].heard
      ensures v in states[i].heard && states[i].heard[v] == states[j].heard[v]
    {
      RecordsStay(net, states, j, i, v);
    }
    if states[i].inFlight == multiset{} {
      forall k, v | PingFlood.Walk(net, k, v) ensures v in states[i].heard {
        QuiescentHasReached(net, states[i], k, v);
      }
    }
  }
}
