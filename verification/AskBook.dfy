/**
 * The ask counters of the incomplete trees, kept by the hash of the missing root, while blocks
 * arrive and network ticks pass.
 */
module AskBook {
  import opened Types
  import opened ForestSpec
  import opened AskSchedule

  /** When each missing block was last asked for, and how often. */
  type Counters = map<BlockHash, (U64, U32)>

  function CountersOf(es: seq<Entry>): Counters {
    if es == [] then map[] else
      var e := es[|es| - 1];
      CountersOf(es[..|es| - 1])[e.root := (e.last, e.asks)]
  }

  ghost predicate DistinctRoots(es: seq<Entry>) {
    forall i, j | 0 <= i < j < |es| :: es[i].root != es[j].root
  }

  function EntryOf(m: Counters, r: BlockHash): Entry
    requires r in m
  {
    Entry(r, m[r].0, m[r].1)
  }

  /** A missing block that stays missing keeps its counters; a new one starts from zero. */
  function Carried(m: Counters, roots: set<BlockHash>): Counters {
    map r | r in roots :: if r in m then m[r] else (0, 0)
  }

  predicate AskedFor(m: Counters, r: BlockHash, now: U64, each: U32, limit: U32) {
    r in m && Due(EntryOf(m, r), now, each) && !Expired(EntryOf(m, r), now, each, limit)
  }

  /** A network tick gives up the expired roots and counts the asks for the others that are due. */
  function Ticked(m: Counters, now: U64, each: U32, limit: U32): Counters {
    map r | r in m && !Expired(EntryOf(m, r), now, each, limit) ::
      if Due(EntryOf(m, r), now, each) then (now, (m[r].1 + 1) % TWO32) else m[r]
  }

  /** A tick on all missing roots, by the clock alone. */
  ghost predicate TicksByClock(
    m: Counters, hashes: set<BlockHash>, m': Counters, now: U64, each: U32, limit: U32) {
    && (forall r | r !in m :: r !in hashes && r !in m')
    && forall r | r in m ::
         var (last, asks) := if r in m' then m'[r] else (0, 0);
         ByClock(m[r].0, m[r].1, now, each, limit, r in hashes, r !in m', last, asks)
  }

  lemma TickIsByClock(m: Counters, now: U64, each: U32, limit: U32)
    ensures TicksByClock(m, AskedAt(m, now, each, limit), Ticked(m, now, each, limit), now, each, limit)
  {
  }

  ghost function AskedAt(m: Counters, now: U64, each: U32, limit: U32): set<BlockHash> {
    set r | r in m && AskedFor(m, r, now, each, limit)
  }

  lemma AskedAtIs(m: Counters, hashes: seq<BlockHash>, now: U64, each: U32, limit: U32)
    requires forall r :: r in hashes <==> AskedFor(m, r, now, each, limit)
    ensures AskedAt(m, now, each, limit) == Members(hashes)
  {
  }

  /** A root that is due is asked for and counted as long as the limit is not reached, then given up. */
  lemma DueRootIsAsked(m: Counters, r: BlockHash, now: U64, each: U32, limit: U32)
    requires r in m && m[r].0 <= now && m[r].1 <= limit < TWO32 - 1
    ensures var t, asked := Ticked(m, now, each, limit), AskedFor(m, r, now, each, limit);
            if now - m[r].0 <= each then !asked && r in t && t[r] == m[r]
            else if m[r].1 < limit then asked && r in t && t[r] == (now, m[r].1 + 1)
            else !asked && r !in t
  {
    TickIsByClock(m, now, each, limit);
  }

  // ------------------------------------------------------------------ from the list to the counters

  lemma {:induction false} CountersAt(es: seq<Entry>, r: BlockHash)
    ensures r in CountersOf(es) <==> exists i :: 0 <= i < |es| && es[i].root == r
    ensures DistinctRoots(es) ==>
              forall i | 0 <= i < |es| && es[i].root == r :: r in CountersOf(es) && EntryOf(CountersOf(es), r) == es[i]
  {
    if es != [] {
      var before, n := es[..|es| - 1], |es| - 1;
      CountersAt(before, r);
      if r in CountersOf(before) {
        var i :| 0 <= i < |before| && before[i].root == r;
        assert es[i].root == r;
      }
      assert es[n].root == r ==> r in CountersOf(es);
      forall i | 0 <= i < |es| && es[i].root == r ensures r in CountersOf(es) {
        assert i < n ==> before[i].root == r;
      }
      if DistinctRoots(es) {
        forall i | 0 <= i < |es| && es[i].root == r ensures EntryOf(CountersOf(es), r) == es[i] {
          assert i < n ==> before[i] == es[i] && es[n].root != r;
        }
      }
    }
  }

  /** The counters are determined by the entries, in whatever order. */
  lemma CountersAre(es: seq<Entry>, m: Counters)
    requires DistinctRoots(es)
    requires forall r :: r in m <==> exists i :: 0 <= i < |es| && es[i].root == r
    requires forall i | 0 <= i < |es| :: es[i].root in m && EntryOf(m, es[i].root) == es[i]
    ensures CountersOf(es) == m
  {
    forall r ensures r in CountersOf(es) <==> r in m {
      CountersAt(es, r);
    }
    forall r | r in m ensures CountersOf(es)[r] == m[r] {
      CountersAt(es, r);
      var i :| 0 <= i < |es| && es[i].root == r;
      assert EntryOf(CountersOf(es), r) == es[i] == EntryOf(m, r);
    }
  }

  lemma CarriedSame(m: Counters)
    ensures Carried(m, m.Keys) == m
  {
  }

  /** A new incomplete tree at the end of the list. */
  lemma CarriedPush(es: seq<Entry>, p: BlockHash)
    requires p !in CountersOf(es)
    ensures CountersOf(es + [Entry(p, 0, 0)]) == Carried(CountersOf(es), CountersOf(es).Keys + {p})
  {
    assert (es + [Entry(p, 0, 0)])[..|es|] == es;
  }

  lemma DistinctEntries(es: seq<Entry>, k: nat)
    requires DistinctRoots(es) && k < |es|
    ensures DistinctRoots(Without(es, k)) && forall i | 0 <= i < |es| && i != k :: es[i].root != es[k].root
  {
  }

  /** An incomplete tree leaves the list. */
  lemma CarriedDrop(es: seq<Entry>, k: nat)
    requires DistinctRoots(es) && k < |es|
    ensures CountersOf(Without(es, k)) == Carried(CountersOf(es), CountersOf(es).Keys - {es[k].root})
  {
    hide CountersOf, DistinctRoots, Without;
    var q, r := Without(es, k), es[k].root;
    DistinctEntries(es, k);
    var m := Carried(CountersOf(es), CountersOf(es).Keys - {r});
    forall e | e in q ensures e.root in m && EntryOf(m, e.root) == e {
      WithoutMembers(es, k, e);
      var j :| 0 <= j < |es| && j != k && es[j] == e;
      CountersAt(es, e.root);
    }
    forall x | x in m ensures exists i :: 0 <= i < |q| && q[i].root == x {
      CountersAt(es, x);
      var j :| 0 <= j < |es| && es[j].root == x;
      WithoutMembers(es, k, es[j]);
    }
    CountersAre(q, m);
  }

  /** An incomplete tree gets another missing root. */
  lemma CarriedReroot(es: seq<Entry>, k: nat, p: BlockHash)
    requires DistinctRoots(es) && k < |es| && p !in CountersOf(es)
    ensures CountersOf(es[k := Entry(p, 0, 0)]) ==
            Carried(CountersOf(es), CountersOf(es).Keys - {es[k].root} + {p})
  {
    var q, r := es[k := Entry(p, 0, 0)], es[k].root;
    var m := Carried(CountersOf(es), CountersOf(es).Keys - {r} + {p});
    forall i | 0 <= i < |q| ensures q[i].root in m && EntryOf(m, q[i].root) == q[i] {
      CountersAt(es, es[i].root);
      CountersAt(es, p);
    }
    forall x | x in m ensures exists i :: 0 <= i < |q| && q[i].root == x {
      CountersAt(es, x);
      if x == p {
        assert q[k].root == x;
      } else {
        var j :| 0 <= j < |es| && es[j].root == x;
        assert q[j] == es[j];
      }
    }
    forall i, j | 0 <= i < j < |q| ensures q[i].root != q[j].root {
      CountersAt(es, es[i].root);
      CountersAt(es, es[j].root);
    }
    CountersAre(q, m);
  }

  lemma CountersSnoc(es: seq<Entry>, e: Entry)
    ensures CountersOf(es + [e]) == CountersOf(es)[e.root := (e.last, e.asks)]
  {
    assert (es + [e])[..|es|] == es;
  }

  /** One more root at a tick. */
  lemma TickedSnoc(m: Counters, e: Entry, now: U64, each: U32, limit: U32)
    requires e.root !in m
    ensures var t := Ticked(m, now, each, limit);
            Ticked(m[e.root := (e.last, e.asks)], now, each, limit) ==
            if !Due(e, now, each) then t[e.root := (e.last, e.asks)]
            else if Expired(e, now, each, limit) then t
            else t[e.root := (now, (e.asks + 1) % TWO32)]
    ensures forall r :: AskedFor(m[e.root := (e.last, e.asks)], r, now, each, limit) <==>
              if r == e.root then Due(e, now, each) && !Expired(e, now, each, limit)
              else AskedFor(m, r, now, each, limit)
    ensures !AskedFor(m, e.root, now, each, limit)
  {
    var m' := m[e.root := (e.last, e.asks)];
    assert EntryOf(m', e.root) == e && forall r | r in m :: EntryOf(m', r) == EntryOf(m, r);
    forall r
      ensures AskedFor(m', r, now, each, limit) <==>
              if r == e.root then Due(e, now, each) && !Expired(e, now, each, limit)
              else AskedFor(m, r, now, each, limit)
    {
      hide Due, Expired;
      assert r != e.root ==> (r in m' <==> r in m);
    }
  }

  lemma NewRoot(before: seq<Entry>, e: Entry)
    requires DistinctRoots(before + [e])
    ensures e.root !in CountersOf(before) && DistinctRoots(before)
    ensures CountersOf(before + [e]) == CountersOf(before)[e.root := (e.last, e.asks)]
  {
    var es := before + [e];
    CountersAt(before, e.root);
    forall i | 0 <= i < |before| ensures before[i].root != e.root {
      assert es[i] == before[i] && es[|before|] == e;
    }
    assert forall i | 0 <= i < |before| :: before[i] == es[i];
    CountersSnoc(before, e);
  }

  /** What a tick does to the list is what it does to the counters. */
  lemma {:induction false} TickedIsPoll(es: seq<Entry>, now: U64, each: U32, limit: U32)
    requires DistinctRoots(es)
    ensures CountersOf(Poll(es, now, each, limit)) == Ticked(CountersOf(es), now, each, limit)
    ensures forall r :: r in Asked(es, now, each, limit) <==> AskedFor(CountersOf(es), r, now, each, limit)
    ensures NoRepeats(Asked(es, now, each, limit))
  {
    hide *;
    TickedNone(now, each, limit);
    if es != [] {
      var before, e := es[..|es| - 1], es[|es| - 1];
      assert es == before + [e];
      NewRoot(before, e);
      TickedIsPoll(before, now, each, limit);
      PollSnoc(before, e, now, each, limit);
      TickedSnoc(CountersOf(before), e, now, each, limit);
      CountersSnoc(Poll(before, now, each, limit), e);
      BumpedFields(e, now);
      CountersSnoc(Poll(before, now, each, limit), Bumped(e, now));
      OneMoreAsked(Asked(before, now, each, limit), e.root);
    }
  }

  lemma TickedNone(now: U64, each: U32, limit: U32)
    ensures CountersOf(Poll([], now, each, limit)) == Ticked(CountersOf([]), now, each, limit)
    ensures Asked([], now, each, limit) == [] && NoRepeats([])
    ensures forall r :: !AskedFor(CountersOf([]), r, now, each, limit)
  {
  }

  lemma BumpedFields(e: Entry, now: U64)
    ensures Bumped(e, now) == Entry(e.root, now, (e.asks + 1) % TWO32)
  {
  }

  lemma OneMoreAsked(asked: seq<BlockHash>, r: BlockHash)
    requires NoRepeats(asked) && r !in asked
    ensures NoRepeats(asked + [r])
  {
  }

  // ------------------------------------------------------------------ runs

  /** The blocks that a chain holds, and the counters of its missing roots. */
  datatype State = State(held: set<BlockHash>, asks: Counters)

  /**
   * What can happen to a chain. A block that arrives names a trailing block, perhaps of this chain;
   * so does a new block of another chain.
   */
  datatype Event =
    | Arrive(hash: BlockHash, trailing: Option<BlockHash>)
    | Elsewhere(named: BlockHash)
    | Mine(hash: BlockHash)
    | Tick(now: U64)

  /** There are counters for the missing roots and for nothing else. */
  ghost predicate IsState(w: Lineage, s: State) {
    AllGenuine(w, s.held) && w.genesis !in s.held && s.asks.Keys == Missing(w, s.held)
  }

  lemma StateIsGenuine(w: Lineage, s: State)
    requires IsState(w, s)
    ensures AllGenuine(w, s.held)
  {
  }

  ghost predicate IsArrival(w: Lineage, s: State, h: BlockHash, s': State) {
    && IsState(w, s) && IsState(w, s') && s'.held == s.held + ({h} - {w.genesis})
    && s'.asks == Carried(s.asks, Missing(w, s'.held))
  }

  ghost predicate IsMining(w: Lineage, s: State, h: BlockHash, s': State) {
    IsArrival(w, s, h, s') && w.par(h) in Canon(w, s.held).main
  }

  ghost predicate IsTick(w: Lineage, s: State, now: U64, each: U32, limit: U32, s': State) {
    && IsState(w, s) && IsState(w, s') && s'.asks == Ticked(s.asks, now, each, limit)
    && var f := Canon(w, s.held);
       Canon(w, s'.held) == f.(inc := map r | r in f.inc && r in s'.asks :: f.inc[r])
  }

  ghost predicate IsStep(w: Lineage, each: U32, limit: U32, s: State, e: Event, s': State) {
    match e
    case Arrive(h, _) => IsArrival(w, s, h, s')
    case Elsewhere(_) => IsState(w, s) && s' == s
    case Mine(h) => IsMining(w, s, h, s')
    case Tick(now) => IsTick(w, s, now, each, limit, s')
  }

  /** Any number of arrivals, mined blocks and ticks, under a clock that does not go back. */
  ghost predicate IsRun(w: Lineage, each: U32, limit: U32, states: seq<State>, events: seq<Event>) {
    && |states| == |events| + 1
    && (forall i, j | 0 <= i < j < |events| && events[i].Tick? && events[j].Tick? :: events[i].now <= events[j].now)
    && forall i | 0 <= i < |events| :: IsStep(w, each, limit, states[i], events[i], states[i + 1])
  }

  /** `r` is a missing root from the `i`-th state to the `j`-th. */
  ghost predicate Missed(states: seq<State>, r: BlockHash, i: nat, j: nat) {
    i <= j < |states| && forall k | i <= k <= j :: r in states[k].asks
  }

  /** The times of the ticks, from the `i`-th event up to the `j`-th, that ask for `r`. */
  ghost function TickAsks(
    states: seq<State>, events: seq<Event>, r: BlockHash, each: U32, limit: U32, i: nat, j: nat): seq<U64>
    requires i <= j <= |events| < |states|
    decreases j - i
  {
    if i == j then [] else
      var e := events[i];
      (if e.Tick? && AskedFor(states[i].asks, r, e.now, each, limit) then [e.now] else []) +
      TickAsks(states, events, r, each, limit, i + 1, j)
  }

  ghost function TickTimes(events: seq<Event>, i: nat, j: nat): (times: seq<U64>)
    requires i <= j <= |events|
    ensures forall t | t in times :: exists k :: i <= k < j && events[k] == Tick(t)
    decreases j - i
  {
    if i == j then [] else (if events[i].Tick? then [events[i].now] else []) + TickTimes(events, i + 1, j)
  }

  /** While a root is missing, arrivals leave its counters alone and ticks treat it by the schedule. */
  lemma KeepsOrAsks(w: Lineage, each: U32, limit: U32, states: seq<State>, events: seq<Event>, r: BlockHash, i: nat)
    requires IsRun(w, each, limit, states, events) && i < |events|
    requires r in states[i].asks && r in states[i + 1].asks
    ensures var e, e' := EntryOf(states[i].asks, r), EntryOf(states[i + 1].asks, r);
            match events[i]
            case Tick(now) => !Expired(e, now, each, limit) && e' == if Due(e, now, each) then Bumped(e, now) else e
            case _ => e' == e
  {
    hide *;
    StepOfRun(w, each, limit, states, events, i);
    match events[i]
    case Tick(now) => KeptAtTick(w, each, limit, states[i], now, states[i + 1], r);
    case _ => KeptOtherwise(w, each, limit, states[i], events[i], states[i + 1], r);
  }

  lemma StepOfRun(w: Lineage, each: U32, limit: U32, states: seq<State>, events: seq<Event>, i: nat)
    requires IsRun(w, each, limit, states, events) && i < |events|
    ensures |states| == |events| + 1 && IsStep(w, each, limit, states[i], events[i], states[i + 1])
  {
  }

  lemma KeptAtTick(w: Lineage, each: U32, limit: U32, s: State, now: U64, s': State, r: BlockHash)
    requires IsStep(w, each, limit, s, Tick(now), s') && r in s.asks && r in s'.asks
    ensures var e, e' := EntryOf(s.asks, r), EntryOf(s'.asks, r);
            !Expired(e, now, each, limit) && e' == if Due(e, now, each) then Bumped(e, now) else e
  {
    hide IsState, Canon, Missing, Due, Expired;
  }

  lemma KeptOtherwise(w: Lineage, each: U32, limit: U32, s: State, e: Event, s': State, r: BlockHash)
    requires IsStep(w, each, limit, s, e, s') && !e.Tick? && r in s.asks && r in s'.asks
    ensures EntryOf(s'.asks, r) == EntryOf(s.asks, r)
  {
    hide IsState, Canon, Missing;
  }

  lemma RunLength(w: Lineage, each: U32, limit: U32, states: seq<State>, events: seq<Event>)
    requires IsRun(w, each, limit, states, events)
    ensures |states| == |events| + 1
  {
  }

  /** The asks for a root that stays missing are those of its own schedule over the ticks of the run. */
  lemma {:induction false} AsksFollowSchedule(
    w: Lineage, each: U32, limit: U32, states: seq<State>, events: seq<Event>, r: BlockHash, i: nat, j: nat)
    requires IsRun(w, each, limit, states, events) && Missed(states, r, i, j)
    ensures TickAsks(states, events, r, each, limit, i, j) ==
            AskTimes(EntryOf(states[i].asks, r), TickTimes(events, i, j), each, limit)
    ensures states[i].asks[r].1 <= limit < TWO32 - 1 ==>
              states[j].asks[r].1 == states[i].asks[r].1 + |TickAsks(states, events, r, each, limit, i, j)| <= limit
    decreases j - i
  {
    hide *;
    RunLength(w, each, limit, states, events);
    MissedPart(states, r, i, j);
    NoTicks(states, events, r, each, limit, i);
    NoTimes(EntryOf(states[i].asks, r), each, limit) by { EntryIs(states[i].asks, r); }
    EntryIs(states[i].asks, r);
    if i < j {
      var e, e' := EntryOf(states[i].asks, r), EntryOf(states[i + 1].asks, r);
      KeepsOrAsks(w, each, limit, states, events, r, i);
      AsksFollowSchedule(w, each, limit, states, events, r, i + 1, j);
      EntryIs(states[i + 1].asks, r);
      FirstTick(states, events, r, each, limit, i, j);
      match events[i]
      case Tick(now) =>
        FirstTime(e, now, TickTimes(events, i + 1, j), each, limit);
        AskedIfDue(states[i].asks, r, now, each, limit);
      case _ =>
    }
  }

  lemma EntryIs(m: Counters, r: BlockHash)
    requires r in m
    ensures EntryOf(m, r) == Entry(r, m[r].0, m[r].1)
  {
  }

  lemma AskedIfDue(m: Counters, r: BlockHash, now: U64, each: U32, limit: U32)
    requires r in m && !Expired(EntryOf(m, r), now, each, limit)
    ensures AskedFor(m, r, now, each, limit) <==> Due(EntryOf(m, r), now, each)
  {
  }

  lemma NoTicks(states: seq<State>, events: seq<Event>, r: BlockHash, each: U32, limit: U32, i: nat)
    requires i <= |events| < |states|
    ensures TickAsks(states, events, r, each, limit, i, i) == [] && TickTimes(events, i, i) == []
  {
  }

  lemma NoTimes(e: Entry, each: U32, limit: U32)
    ensures AskTimes(e, [], each, limit) == []
  {
  }

  /** The first event of a stretch, and the ticks after it. */
  lemma FirstTick(states: seq<State>, events: seq<Event>, r: BlockHash, each: U32, limit: U32, i: nat, j: nat)
    requires i < j <= |events| < |states|
    ensures TickTimes(events, i, j) ==
            if events[i].Tick? then [events[i].now] + TickTimes(events, i + 1, j) else TickTimes(events, i + 1, j)
    ensures TickAsks(states, events, r, each, limit, i, j) ==
            if events[i].Tick? && AskedFor(states[i].asks, r, events[i].now, each, limit)
            then [events[i].now] + TickAsks(states, events, r, each, limit, i + 1, j)
            else TickAsks(states, events, r, each, limit, i + 1, j)
  {
  }

  /** A tick that does not give the entry up. */
  lemma FirstTime(e: Entry, now: U64, rest: seq<U64>, each: U32, limit: U32)
    requires !Expired(e, now, each, limit)
    ensures AskTimes(e, [now] + rest, each, limit) ==
            if Due(e, now, each) then [now] + AskTimes(Bumped(e, now), rest, each, limit)
            else AskTimes(e, rest, each, limit)
    ensures Due(e, now, each) && e.asks <= limit < TWO32 - 1 ==> Bumped(e, now).asks == e.asks + 1 <= limit
  {
    assert ([now] + rest)[1..] == rest;
  }

  lemma {:induction false} TicksAscend(events: seq<Event>, i: nat, j: nat)
    requires i <= j <= |events|
    requires forall a, b | 0 <= a < b < |events| && events[a].Tick? && events[b].Tick? :: events[a].now <= events[b].now
    ensures Ascending(TickTimes(events, i, j))
    decreases j - i
  {
    if i < j {
      TicksAscend(events, i + 1, j);
      var rest := TickTimes(events, i + 1, j);
      assert forall k | 0 <= k < |rest| :: rest[k] in rest;
    }
  }

  /**
   * From the moment `r` becomes a missing root until it stops being one, whatever arrives in
   * between, any two ticks that ask for it are more than `each` apart and there are at most `limit`
   * of them.
   */
  lemma TickAsksAreSpacedAndBounded(
    w: Lineage, each: U32, limit: U32, states: seq<State>, events: seq<Event>, r: BlockHash, i: nat, j: nat)
    requires IsRun(w, each, limit, states, events) && Missed(states, r, i, j)
    requires i > 0 && r !in states[i - 1].asks
    ensures Spaced(TickAsks(states, events, r, each, limit, i, j), 0, each)
    ensures limit < TWO32 - 1 ==> |TickAsks(states, events, r, each, limit, i, j)| <= limit
  {
    StartsFromZero(w, each, limit, states, events, r, i);
    AsksFollowSchedule(w, each, limit, states, events, r, i, j);
    TicksAscend(events, i, j);
    AsksAreSpacedAndBounded(EntryOf(states[i].asks, r), TickTimes(events, i, j), each, limit);
  }

  lemma StartsFromZero(
    w: Lineage, each: U32, limit: U32, states: seq<State>, events: seq<Event>, r: BlockHash, i: nat)
    requires IsRun(w, each, limit, states, events) && 0 < i < |states|
    requires r in states[i].asks && r !in states[i - 1].asks
    ensures states[i].asks[r] == (0, 0)
  {
    assert IsStep(w, each, limit, states[i - 1], events[i - 1], states[i - 1 + 1]);
  }

  /** A missing root is given up by a tick only after it was asked for exactly `limit` times. */
  lemma GivenUpAfterLimit(
    w: Lineage, each: U32, limit: U32, states: seq<State>, events: seq<Event>, r: BlockHash, i: nat, j: nat)
    requires IsRun(w, each, limit, states, events) && Missed(states, r, i, j) && limit < TWO32 - 1
    requires i > 0 && r !in states[i - 1].asks
    requires j < |events| && events[j].Tick? && r !in states[j + 1].asks
    ensures |TickAsks(states, events, r, each, limit, i, j)| == limit
  {
    hide Canon, Missing, AskTimes, TickAsks;
    StartsFromZero(w, each, limit, states, events, r, i);
    AsksFollowSchedule(w, each, limit, states, events, r, i, j);
    assert IsStep(w, each, limit, states[j], events[j], states[j + 1]);
    GivenUpNow(w, each, limit, states[j], events[j].now, states[j + 1], r);
  }

  lemma GivenUpNow(w: Lineage, each: U32, limit: U32, s: State, now: U64, s': State, r: BlockHash)
    requires IsTick(w, s, now, each, limit, s') && r in s.asks && r !in s'.asks && limit < TWO32 - 1
    ensures s.asks[r].1 >= limit
  {
    hide Canon, Missing;
  }

  // ------------------------------------------------------------------ no root is forgotten

  lemma {:induction false} TickAsksSplit(
    states: seq<State>, events: seq<Event>, r: BlockHash, each: U32, limit: U32, i: nat, k: nat, j: nat)
    requires i <= k <= j <= |events| < |states|
    ensures TickAsks(states, events, r, each, limit, i, j) ==
            TickAsks(states, events, r, each, limit, i, k) + TickAsks(states, events, r, each, limit, k, j)
    decreases k - i
  {
    if i < k {
      TickAsksSplit(states, events, r, each, limit, i + 1, k, j);
    }
  }

  /** Every tick ask has the time of an earlier event. */
  lemma {:induction false} TickAsksAreTicks(
    states: seq<State>, events: seq<Event>, r: BlockHash, each: U32, limit: U32, i: nat, j: nat, t: U64)
    requires i <= j <= |events| < |states| && t in TickAsks(states, events, r, each, limit, i, j)
    ensures exists k :: i <= k < j && events[k] == Tick(t)
    decreases j - i
  {
    if t in TickAsks(states, events, r, each, limit, i + 1, j) {
      TickAsksAreTicks(states, events, r, each, limit, i + 1, j, t);
    } else {
      assert events[i] == Tick(t);
    }
  }

  /** The counters of a missing root tell the time of the last tick ask. */
  lemma {:induction false} LastAsk(
    w: Lineage, each: U32, limit: U32, states: seq<State>, events: seq<Event>, r: BlockHash, i: nat, j: nat)
    requires IsRun(w, each, limit, states, events) && Missed(states, r, i, j)
    ensures |states| == |events| + 1 && r in states[i].asks && r in states[j].asks
    ensures var asks := TickAsks(states, events, r, each, limit, i, j);
            states[j].asks[r].0 == if asks == [] then states[i].asks[r].0 else asks[|asks| - 1]
    decreases j - i
  {
    hide *;
    RunLength(w, each, limit, states, events);
    MissedPart(states, r, i, j);
    NoTicks(states, events, r, each, limit, i);
    if i < j {
      var e, e' := EntryOf(states[i].asks, r), EntryOf(states[i + 1].asks, r);
      KeepsOrAsks(w, each, limit, states, events, r, i);
      LastAsk(w, each, limit, states, events, r, i + 1, j);
      EntryIs(states[i].asks, r);
      EntryIs(states[i + 1].asks, r);
      FirstTick(states, events, r, each, limit, i, j);
      match events[i]
      case Tick(now) =>
        AskedIfDue(states[i].asks, r, now, each, limit);
        BumpedFields(e, now);
      case _ =>
    }
  }

  /**
   * A tick more than `each` after the last tick that asked for a missing root, or more than `each`
   * after time 0 if none did, asks for it, or gives it up when it was asked for `limit` times.
   */
  lemma LateTickAsks(
    w: Lineage, each: U32, limit: U32, states: seq<State>, events: seq<Event>, r: BlockHash, i: nat, j: nat)
    requires IsRun(w, each, limit, states, events) && Missed(states, r, i, j) && limit < TWO32 - 1
    requires |states| == |events| + 1 && j < |events| && i > 0 && r !in states[i - 1].asks
    requires events[j].Tick? && events[j].now > each
    requires forall t | t in TickAsks(states, events, r, each, limit, i, j) :: events[j].now - t > each
    ensures var asks := TickAsks(states, events, r, each, limit, i, j);
            if |asks| < limit then
              && r in states[j + 1].asks
              && TickAsks(states, events, r, each, limit, i, j + 1) == asks + [events[j].now]
            else r !in states[j + 1].asks
  {
    hide *;
    MissedPart(states, r, i, j);
    var now, asks := events[j].now, TickAsks(states, events, r, each, limit, i, j);
    StartsFromZero(w, each, limit, states, events, r, i);
    LastAsk(w, each, limit, states, events, r, i, j);
    AsksFollowSchedule(w, each, limit, states, events, r, i, j);
    StepOfRun(w, each, limit, states, events, j);
    TickOfStep(w, each, limit, states[j], now, states[j + 1]);
    assert asks != [] ==> asks[|asks| - 1] in asks;
    DueRootIsAsked(states[j].asks, r, now, each, limit);
    TickAsksSplit(states, events, r, each, limit, i, j, j + 1);
    NoTicks(states, events, r, each, limit, j + 1);
    FirstTick(states, events, r, each, limit, j, j + 1);
  }

  lemma TickOfStep(w: Lineage, each: U32, limit: U32, s: State, now: U64, s': State)
    requires IsStep(w, each, limit, s, Tick(now), s')
    ensures s'.asks == Ticked(s.asks, now, each, limit)
  {
  }

  /** Ticks after the `i`-th event, the first later than `each`, any two more than `each` apart. */
  ghost predicate LateTicks(events: seq<Event>, each: U32, i: nat, ks: seq<nat>) {
    && (forall n | 0 <= n < |ks| :: i <= ks[n] < |events| && events[ks[n]].Tick? && events[ks[n]].now > each)
    && (forall n | 0 < n < |ks| :: ks[n - 1] < ks[n] && events[ks[n]].now > events[ks[n - 1]].now + each)
  }

  lemma {:induction false} AskedAtLeast(
    w: Lineage, each: U32, limit: U32, states: seq<State>, events: seq<Event>, r: BlockHash, i: nat,
    ks: seq<nat>, n: nat)
    requires IsRun(w, each, limit, states, events) && limit < TWO32 - 1 && 0 < i < |states| && r !in states[i - 1].asks
    requires LateTicks(events, each, i, ks) && n < |ks| && Missed(states, r, i, ks[n] + 1)
    ensures |states| == |events| + 1 && |TickAsks(states, events, r, each, limit, i, ks[n] + 1)| >= n + 1
  {
    hide IsRun, Missed, TickAsks;
    RunLength(w, each, limit, states, events);
    MissedFor(states, r, i, ks[n], ks[n] + 1);
    var p := if n == 0 then i else ks[n - 1] + 1;
    if n > 0 {
      MissedFor(states, r, i, p, ks[n] + 1);
      AskedAtLeast(w, each, limit, states, events, r, i, ks, n - 1);
    } else {
      NoTicks(states, events, r, each, limit, i);
    }
    TickAsksSplit(states, events, r, each, limit, i, p, ks[n]);
    TickAsksSplit(states, events, r, each, limit, i, ks[n], ks[n] + 1);
    var asks := TickAsks(states, events, r, each, limit, i, p);
    if TickAsks(states, events, r, each, limit, p, ks[n]) == [] {
      forall t | t in asks ensures events[ks[n]].now - t > each {
        TickAsksAreTicks(states, events, r, each, limit, i, p, t);
        var k :| i <= k < p && events[k] == Tick(t);
        ClockOfRun(w, each, limit, states, events, k, ks[n - 1]);
      }
      LateTickAsks(w, each, limit, states, events, r, i, ks[n]);
    }
  }

  lemma MissedFor(states: seq<State>, r: BlockHash, i: nat, k: nat, j: nat)
    requires Missed(states, r, i, j) && i <= k <= j
    ensures Missed(states, r, i, k) && j < |states| && r in states[j].asks
  {
  }

  lemma ClockOfRun(
    w: Lineage, each: U32, limit: U32, states: seq<State>, events: seq<Event>, a: nat, b: nat)
    requires IsRun(w, each, limit, states, events) && a <= b < |events| && events[a].Tick? && events[b].Tick?
    ensures events[a].now <= events[b].now
  {
  }

  /**
   * No root is stranded: after `limit + 1` ticks that are more than `each` apart a missing root has
   * stopped being one, either because blocks arrived or because it was given up.
   */
  lemma AskedOrGone(
    w: Lineage, each: U32, limit: U32, states: seq<State>, events: seq<Event>, r: BlockHash, i: nat, ks: seq<nat>)
    requires IsRun(w, each, limit, states, events) && limit < TWO32 - 1 && 0 < i < |states| && r !in states[i - 1].asks
    requires LateTicks(events, each, i, ks) && |ks| == limit + 1
    ensures !Missed(states, r, i, ks[limit] + 1)
  {
    hide IsRun, TickAsks;
    if Missed(states, r, i, ks[limit] + 1) {
      AskedAtLeast(w, each, limit, states, events, r, i, ks, limit);
      TickAsksAreSpacedAndBounded(w, each, limit, states, events, r, i, ks[limit] + 1);
    }
  }

  // ------------------------------------------------------------------ all asks for a root

  /** A new block whose parent is not in the main tree: its parent is asked for at once. */
  ghost predicate NeedsParent(w: Lineage, s: State, h: BlockHash)
    requires IsState(w, s)
  {
    h != w.genesis && h !in s.held && w.par(h) !in Canon(w, s.held).main
  }

  /** Why a block is asked for. */
  datatype Ask = AtTick(now: U64) | ForChild(child: BlockHash) | AsTrailing

  /** What one event asks for `r`, in the order of the messages. */
  ghost function AsksAt(w: Lineage, each: U32, limit: U32, s: State, e: Event, s': State, r: BlockHash): seq<Ask>
    requires IsStep(w, each, limit, s, e, s')
  {
    match e
    case Arrive(h, trailing) =>
      (if h != w.genesis && h !in s.held && trailing == Some(r) && r !in Canon(w, s'.held).main
       then [AsTrailing] else [])
      + (if NeedsParent(w, s, h) && w.par(h) == r then [ForChild(h)] else [])
    case Elsewhere(trailing) => if trailing == r && r !in Canon(w, s.held).main then [AsTrailing] else []
    case Mine(_) => []
    case Tick(now) => if AskedFor(s.asks, r, now, each, limit) then [AtTick(now)] else []
  }

  /** All asks for `r`, from the `i`-th event up to the `j`-th. */
  ghost function AllAsks(
    w: Lineage, each: U32, limit: U32, states: seq<State>, events: seq<Event>, r: BlockHash, i: nat, j: nat): seq<Ask>
    requires IsRun(w, each, limit, states, events) && i <= j <= |events|
    decreases j - i
  {
    if i == j then []
    else AsksAt(w, each, limit, states[i], events[i], states[i + 1], r) +
         AllAsks(w, each, limit, states, events, r, i + 1, j)
  }

  /** The times of the asks made by ticks, and the blocks whose arrival asked for their parent. */
  function Times(asks: seq<Ask>): seq<U64> {
    if asks == [] then [] else (if asks[0].AtTick? then [asks[0].now] else []) + Times(asks[1..])
  }

  function Causes(asks: seq<Ask>): seq<BlockHash> {
    if asks == [] then [] else (if asks[0].ForChild? then [asks[0].child] else []) + Causes(asks[1..])
  }

  lemma FirstAsk(x: Ask, rest: seq<Ask>)
    ensures Times([x] + rest) == (if x.AtTick? then [x.now] else []) + Times(rest)
    ensures Causes([x] + rest) == (if x.ForChild? then [x.child] else []) + Causes(rest)
  {
    assert ([x] + rest)[1..] == rest;
  }

  lemma {:induction false} AsksJoin(a: seq<Ask>, b: seq<Ask>)
    ensures Times(a + b) == Times(a) + Times(b)
    ensures Causes(a + b) == Causes(a) + Causes(b)
  {
    if a == [] {
      assert a + b == b;
    } else {
      var x, rest := a[0], a[1..];
      assert a == [x] + rest && a + b == [x] + (rest + b);
      hide Times, Causes;
      FirstAsk(x, rest);
      FirstAsk(x, rest + b);
      AsksJoin(rest, b);
    }
  }

  /** The event is an arrival that asks for its parent `r`. */
  ghost predicate AsksParent(w: Lineage, s: State, e: Event, r: BlockHash)
    requires IsState(w, s)
  {
    e.Arrive? && NeedsParent(w, s, e.hash) && w.par(e.hash) == r
  }

  lemma KindsOfAsks(w: Lineage, each: U32, limit: U32, s: State, e: Event, s': State, r: BlockHash)
    requires IsStep(w, each, limit, s, e, s')
    ensures IsState(w, s)
    ensures var asks := AsksAt(w, each, limit, s, e, s', r);
            && Times(asks) == (if e.Tick? && AskedFor(s.asks, r, e.now, each, limit) then [e.now] else [])
            && Causes(asks) == (if AsksParent(w, s, e, r) then [e.hash] else [])
  {
    hide Canon, NeedsParent, AskedFor, Missing, AllGenuine;
    var none: seq<Ask> := [];
    assert Times(none) == [] && Causes(none) == [];
    assert Times([AsTrailing]) == [] && Causes([AsTrailing]) == [];
    if e.Arrive? {
      assert Times([ForChild(e.hash)]) == [] && Causes([ForChild(e.hash)]) == [e.hash];
      AsksJoin([AsTrailing], [ForChild(e.hash)]);
      assert none + none == none && [AsTrailing] + none == [AsTrailing];
      assert none + [ForChild(e.hash)] == [ForChild(e.hash)];
    }
  }

  ghost function Children(w: Lineage, s: State, r: BlockHash): set<BlockHash> {
    set h | h in s.held && w.par(h) == r
  }

  /** While `r` is missing, it gains a child exactly by an arrival that asks for it. */
  lemma ChildrenStep(w: Lineage, each: U32, limit: U32, s: State, e: Event, s': State, r: BlockHash)
    requires IsStep(w, each, limit, s, e, s') && r in s.asks && r in s'.asks
    ensures IsState(w, s)
    ensures Children(w, s', r) == Children(w, s, r) + if AsksParent(w, s, e, r) then {e.hash} else {}
    ensures AsksParent(w, s, e, r) ==> e.Arrive? && e.hash !in Children(w, s, r)
  {
    MissingIsOutside(w, s.held, r);
    hide Canon, Missing, Carried, Ticked;
    match e
    case Arrive(h, _) =>
    case Elsewhere(_) =>
    case Mine(h) =>
    case Tick(now) => ChildrenAtTick(w, each, limit, s, now, s', r);
  }

  lemma MissingIsOutside(w: Lineage, R: set<BlockHash>, r: BlockHash)
    requires AllGenuine(w, R) && w.genesis !in R && r in Missing(w, R)
    ensures r !in R && r != w.genesis && r !in Canon(w, R).main && r in Canon(w, R).inc
  {
    CanonTrees(w, R, r);
  }

  lemma ChildrenAtTick(w: Lineage, each: U32, limit: U32, s: State, now: U64, s': State, r: BlockHash)
    requires IsTick(w, s, now, each, limit, s') && r in s.asks && r in s'.asks
    ensures Children(w, s', r) == Children(w, s, r)
  {
    MissingIsOutside(w, s.held, r);
    MissingIsOutside(w, s'.held, r);
    assert Canon(w, s'.held).inc[r] == Canon(w, s.held).inc[r];
    hide Canon, Missing, Ticked;
    forall h ensures h in Children(w, s', r) <==> h in Children(w, s, r) {
      ChildIsInTree(w, s.held, r, h);
      ChildIsInTree(w, s'.held, r, h);
    }
  }

  lemma ChildIsInTree(w: Lineage, R: set<BlockHash>, r: BlockHash, h: BlockHash)
    requires AllGenuine(w, R) && w.genesis !in R && r !in R && r in Canon(w, R).inc
    ensures w.par(h) == r ==> (h in R <==> h in Canon(w, R).inc[r] && h != r)
  {
    CanonTrees(w, R, h);
    if h in R {
      RootClosed(w, R, h);
    }
  }

  /** The hashes are those of the children gained, each once. */
  ghost predicate AreGained(causes: seq<BlockHash>, before: set<BlockHash>, after: set<BlockHash>) {
    && NoRepeats(causes) && before <= after
    && forall h :: h in causes <==> h in after - before
  }

  lemma GainedFirst(h: BlockHash, later: seq<BlockHash>, before: set<BlockHash>, after: set<BlockHash>)
    requires h !in before && AreGained(later, before + {h}, after)
    ensures AreGained([h] + later, before, after)
  {
    var causes := [h] + later;
    forall i, j | 0 <= i < j < |causes| ensures causes[i] != causes[j] {
      assert causes[j] == later[j - 1] && later[j - 1] in later;
    }
  }

  /**
   * While `r` is missing, the asks for it are of three kinds: those of ticks, which are what the
   * schedule says, one for each child that `r` gains, and those of new blocks that name it as trailing.
   */
  lemma {:induction false} AsksOfARoot(
    w: Lineage, each: U32, limit: U32, states: seq<State>, events: seq<Event>, r: BlockHash, i: nat, j: nat)
    requires IsRun(w, each, limit, states, events) && Missed(states, r, i, j)
    ensures var asks := AllAsks(w, each, limit, states, events, r, i, j);
            && Times(asks) == TickAsks(states, events, r, each, limit, i, j)
            && AreGained(Causes(asks), Children(w, states[i], r), Children(w, states[j], r))
    decreases j - i
  {
    hide *;
    MissedPart(states, r, i, j);
    FirstAsks(w, each, limit, states, events, r, i, j);
    if i < j {
      var s, e, s' := states[i], events[i], states[i + 1];
      var now, later := AsksAt(w, each, limit, s, e, s', r), AllAsks(w, each, limit, states, events, r, i + 1, j);
      AsksOfARoot(w, each, limit, states, events, r, i + 1, j);
      ChildrenStep(w, each, limit, s, e, s', r);
      KindsOfAsks(w, each, limit, s, e, s', r);
      AsksJoin(now, later);
      if AsksParent(w, s, e, r) {
        GainedFirst(e.hash, Causes(later), Children(w, s, r), Children(w, states[j], r));
      } else {
        assert [] + Causes(later) == Causes(later) && Children(w, s', r) == Children(w, s, r);
      }
    } else {
      NothingGained(Children(w, states[i], r));
    }
  }

  lemma MissedPart(states: seq<State>, r: BlockHash, i: nat, j: nat)
    requires Missed(states, r, i, j)
    ensures i <= j < |states| && r in states[i].asks
    ensures i < j ==> Missed(states, r, i + 1, j) && r in states[i + 1].asks
  {
  }

  lemma NothingGained(c: set<BlockHash>)
    ensures AreGained(Causes([]), c, c) && Times([]) == []
  {
  }

  /** The asks of the first event, and those after it. */
  lemma FirstAsks(
    w: Lineage, each: U32, limit: U32, states: seq<State>, events: seq<Event>, r: BlockHash, i: nat, j: nat)
    requires IsRun(w, each, limit, states, events) && Missed(states, r, i, j)
    ensures |states| == |events| + 1
    ensures i == j ==>
              && AllAsks(w, each, limit, states, events, r, i, j) == []
              && TickAsks(states, events, r, each, limit, i, j) == []
    ensures i < j ==>
              && IsStep(w, each, limit, states[i], events[i], states[i + 1])
              && AllAsks(w, each, limit, states, events, r, i, j) ==
                 AsksAt(w, each, limit, states[i], events[i], states[i + 1], r) +
                 AllAsks(w, each, limit, states, events, r, i + 1, j)
              && TickAsks(states, events, r, each, limit, i, j) ==
                 (if events[i].Tick? && AskedFor(states[i].asks, r, events[i].now, each, limit)
                  then [events[i].now] else []) +
                 TickAsks(states, events, r, each, limit, i + 1, j)
  {
  }

  /**
   * The spacing holds for ticks only: two blocks with the same missing parent, one right after the
   * other, ask for it twice.
   */
  lemma TwoSiblingsAskAtOnce(w: Lineage, each: U32, limit: U32, s: State, r: BlockHash, one: BlockHash, two: BlockHash)
    returns (states: seq<State>, events: seq<Event>)
    requires IsState(w, s) && r !in Canon(w, s.held).main && one != two
    requires Genuine(w, one) && Genuine(w, two) && one !in s.held && two !in s.held && w.par(one) == w.par(two) == r
    ensures events == [Event.Arrive(one, None), Event.Arrive(two, None)]
    ensures IsRun(w, each, limit, states, events) && states[0] == s
    ensures AllAsks(w, each, limit, states, events, r, 0, 2) == [ForChild(one), ForChild(two)]
  {
    var s1 := Arrived(w, s, one);
    StaysOutside(w, s.held, one, r);
    var s2 := Arrived(w, s1, two);
    states, events := [s, s1, s2], [Event.Arrive(one, None), Event.Arrive(two, None)];
    assert IsStep(w, each, limit, states[0], events[0], states[1]);
    assert IsStep(w, each, limit, states[1], events[1], states[2]);
    assert AllAsks(w, each, limit, states, events, r, 2, 2) == [];
    assert AllAsks(w, each, limit, states, events, r, 1, 2) == [ForChild(two)];
  }

  ghost function Arrived(w: Lineage, s: State, h: BlockHash): (s': State)
    requires IsState(w, s) && Genuine(w, h)
    ensures IsArrival(w, s, h, s')
  {
    var held := s.held + {h};
    State(held, Carried(s.asks, Missing(w, held)))
  }

  lemma StaysOutside(w: Lineage, R: set<BlockHash>, h: BlockHash, r: BlockHash)
    requires AllGenuine(w, R) && w.genesis !in R && Genuine(w, h) && h !in R && w.par(h) == r
    requires r !in Canon(w, R).main
    ensures AllGenuine(w, R + {h}) && r !in Canon(w, R + {h}).main
  {
    RootAfterReceive(w, R, h, r);
    CanonTrees(w, R, r);
    CanonTrees(w, R + {h}, r);
    RootAfterReceive(w, R, h, h);
  }
}
