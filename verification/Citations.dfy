/**
 * The blocks of one chain and the books of the weak blocks together: which citations made by
 * arriving blocks are recorded, and which weak blocks are cited a second time.
 */
module Citations {
  import opened Types
  import opened ForestSpec
  import WeakBooks

  /** One chain of a node, and what its books depend on. */
  datatype Setting = Setting(w: Lineage, chain: nat, chainOf: BlockHash -> nat, lim: WeakBooks.Limits)

  /** The citation list of every block that the chain holds, and the books. */
  datatype State = State(lists: map<BlockHash, seq<BlockHash>>, books: WeakBooks.Books)

  datatype Event =
      /** A `#process_block` message that passed its checks. */
    | Receive(hash: BlockHash, cites: seq<BlockHash>)
      /** The miner finds a block; nothing is added when there is nothing to cite. */
    | Mine(hash: BlockHash, cites: seq<BlockHash>)
      /** A tick gives up incomplete trees. */
    | Expire
      /** Anything else that happens to the books. */
    | Other(event: WeakBooks.Event)

  ghost predicate IsState(c: Setting, s: State) {
    AllGenuine(c.w, s.lists.Keys) && c.w.genesis !in s.lists && WeakBooks.Sound(c.chainOf, s.books)
  }

  ghost function Main(c: Setting, s: State): set<BlockHash>
    requires IsState(c, s)
  {
    Canon(c.w, s.lists.Keys).main
  }

  /** A new block whose parent is in the main tree. */
  ghost predicate Joins(c: Setting, s: State, h: BlockHash)
    requires IsState(c, s)
  {
    Genuine(c.w, h) && h !in s.lists && c.w.par(h) in Main(c, s)
  }

  function Listed(c: Setting, lists: map<BlockHash, seq<BlockHash>>, h: BlockHash, cites: seq<BlockHash>)
    : map<BlockHash, seq<BlockHash>>
  {
    if h == c.w.genesis || h in lists then lists else lists[h := cites]
  }

  /** Some blocks are given up, none of them in the main tree. */
  ghost predicate GivesUp(c: Setting, s: State, s': State)
    requires IsState(c, s) && IsState(c, s')
  {
    && s'.books == s.books && Main(c, s') == Main(c, s)
    && forall h | h in s'.lists :: h in s.lists && s'.lists[h] == s.lists[h]
  }

  ghost predicate IsStep(c: Setting, s: State, e: Event, s': State) {
    && IsState(c, s) && IsState(c, s')
    && match e
       case Receive(h, cites) =>
         && s'.lists == Listed(c, s.lists, h, cites)
         && var marked := WeakBooks.Cited(c.chain, if Joins(c, s, h) then cites else []);
            WeakBooks.Step(c.chainOf, c.lim, s.books, marked, s'.books)
       case Mine(h, cites) =>
         && Joins(c, s, h) && s'.lists == (if cites == [] then s.lists else s.lists[h := cites])
         && WeakBooks.Step(c.chainOf, c.lim, s.books, WeakBooks.Cite(c.chain, cites), s'.books)
       case Expire => GivesUp(c, s, s')
       case Other(event) =>
         && s'.lists == s.lists && WeakBooks.Step(c.chainOf, c.lim, s.books, event, s'.books)
         && (event.Cite? || event.Cited? ==> event.chain != c.chain)
  }

  ghost predicate IsTrace(c: Setting, states: seq<State>, events: seq<Event>) {
    && |states| == |events| + 1 && IsState(c, states[0])
    && forall i | 0 <= i < |events| :: IsStep(c, states[i], events[i], states[i + 1])
  }

  /** A node that starts with genesis alone and empty books. */
  ghost predicate IsRun(c: Setting, states: seq<State>, events: seq<Event>) {
    IsTrace(c, states, events) && states[0] == State(map[], WeakBooks.EMPTY)
  }

  /**
   * The event brings the block `h` with the weak block `x` on its list, straight into the main
   * tree, and at a time when `x` is known.
   */
  ghost predicate OnTime(c: Setting, s: State, e: Event, h: BlockHash, x: BlockHash)
    requires IsState(c, s)
  {
    (e.Receive? || e.Mine?) && e.hash == h && Joins(c, s, h) && x in e.cites && x in s.books.known
  }

  // ------------------------------------------------------------------ one step

  lemma CitedStep(c: Setting, s: State, e: Event, s': State, x: BlockHash)
    requires IsStep(c, s, e, s') && c.chainOf(x) == c.chain
    ensures x in s'.books.cited <==> x in s.books.cited || exists h :: OnTime(c, s, e, h, x)
  {
    hide IsState, Joins, WeakBooks.Step;
    match e
    case Receive(h, cites) =>
      CitedMarks(c, s.books, WeakBooks.Cited(c.chain, if Joins(c, s, h) then cites else []), s'.books, x);
      assert OnTime(c, s, e, h, x) <==> Joins(c, s, h) && x in cites && x in s.books.known;
    case Mine(h, cites) =>
      CitedMarks(c, s.books, WeakBooks.Cite(c.chain, cites), s'.books, x);
      MinedAreKnown(c, s, cites, s');
      assert OnTime(c, s, e, h, x) <==> x in cites;
    case Expire =>
    case Other(event) => CitedMarks(c, s.books, event, s'.books, x);
  }

  lemma CitedMarks(c: Setting, b: WeakBooks.Books, e: WeakBooks.Event, b': WeakBooks.Books, x: BlockHash)
    requires WeakBooks.Step(c.chainOf, c.lim, b, e, b')
    ensures x in b'.cited <==> x in b.cited || x in WeakBooks.Marks(c.chainOf, b, e)
    ensures x in WeakBooks.Marks(c.chainOf, b, e) <==>
              match e
              case Cite(_, hashes) => x in hashes
              case Cited(k, hashes) => x in hashes && x in b.known && c.chainOf(x) == k
              case _ => false
    ensures e.Cite? ==> NoRepeats(e.hashes)
    ensures e.Cite? ==> (x in e.hashes <==> x in b.full && x !in b.cited && c.chainOf(x) == e.chain)
  {
    hide WeakBooks.Announced, NoRepeats, WeakBooks.Stamped, WeakBooks.Unexpired;
  }

  lemma MinedAreKnown(c: Setting, s: State, cites: seq<BlockHash>, s': State)
    requires IsState(c, s) && WeakBooks.Step(c.chainOf, c.lim, s.books, WeakBooks.Cite(c.chain, cites), s'.books)
    ensures forall x | x in cites :: x in s.books.known
  {
  }

  lemma MainIsHeld(c: Setting, s: State, h: BlockHash)
    requires IsState(c, s) && h in Main(c, s)
    ensures h in s.lists || h == c.w.genesis
  {
    CanonTrees(c.w, s.lists.Keys, h);
  }

  /** A block that joins is in the main tree from then on, and none leaves it. */
  lemma MainGrows(w: Lineage, R: set<BlockHash>, h: BlockHash)
    requires AllGenuine(w, R) && w.genesis !in R && Genuine(w, h) && h !in R
    ensures AllGenuine(w, R + {h}) && Canon(w, R).main <= Canon(w, R + {h}).main
    ensures h in Canon(w, R + {h}).main <==> w.par(h) in Canon(w, R).main
  {
    RootAfterReceive(w, R, h, h);
    CanonTrees(w, R, w.par(h));
    CanonTrees(w, R + {h}, h);
    forall x | x in Canon(w, R).main ensures x in Canon(w, R + {h}).main {
      RootAfterReceive(w, R, h, x);
      CanonTrees(w, R, x);
      CanonTrees(w, R + {h}, x);
    }
  }

  /** A main block keeps its list. */
  lemma MainStays(c: Setting, s: State, e: Event, s': State, h: BlockHash)
    requires IsStep(c, s, e, s') && h in Main(c, s) && h in s.lists
    ensures h in Main(c, s') && h in s'.lists && s'.lists[h] == s.lists[h]
  {
    hide Canon, WeakBooks.Step, WeakBooks.Sound;
    if (e.Receive? || e.Mine?) && s'.lists != s.lists {
      AllOfListed(c, s, e, s');
      MainGrows(c.w, s.lists.Keys, e.hash);
    } else if e.Expire? {
      MainIsHeld(c, s', h);
    }
  }

  lemma AllOfListed(c: Setting, s: State, e: Event, s': State)
    requires IsStep(c, s, e, s') && (e.Receive? || e.Mine?) && s'.lists != s.lists
    ensures s'.lists == s.lists[e.hash := e.cites] && s'.lists.Keys == s.lists.Keys + {e.hash}
    ensures e.hash !in s.lists && Genuine(c.w, e.hash)
  {
    hide Canon, WeakBooks.Step, WeakBooks.Sound;
  }

  lemma OnTimeJoins(c: Setting, s: State, e: Event, s': State, h: BlockHash, x: BlockHash)
    requires IsStep(c, s, e, s') && OnTime(c, s, e, h, x)
    ensures h in Main(c, s') && h in s'.lists && x in s'.lists[h]
  {
    hide Canon, WeakBooks.Step, WeakBooks.Sound;
    AllOfListed(c, s, e, s');
    MainGrows(c.w, s.lists.Keys, h);
  }

  // ------------------------------------------------------------------ runs

  lemma StateOf(c: Setting, states: seq<State>, events: seq<Event>, j: nat)
    requires IsTrace(c, states, events) && j <= |events|
    ensures |states| == |events| + 1 && IsState(c, states[j])
  {
    if j > 0 {
      assert IsStep(c, states[j - 1], events[j - 1], states[j - 1 + 1]);
    }
  }

  /** One of the first `j` events brought `h`, citing `x`, on time. */
  ghost predicate CameOnTime(c: Setting, states: seq<State>, events: seq<Event>, j: nat, h: BlockHash, x: BlockHash)
    requires IsTrace(c, states, events) && j <= |events|
  {
    exists i :: 0 <= i < j && IsState(c, states[i]) && OnTime(c, states[i], events[i], h, x)
  }

  /** `h` is in the main tree with `x` on its list, and came on time. */
  ghost predicate CitesOnTime(c: Setting, states: seq<State>, events: seq<Event>, j: nat, h: BlockHash, x: BlockHash)
    requires IsTrace(c, states, events) && j <= |events|
  {
    && Lists(c, states[j], h, x)
    && CameOnTime(c, states, events, j, h, x)
  }

  /** The main tree holds `h`, and `h` cites `x`. */
  ghost predicate Lists(c: Setting, s: State, h: BlockHash, x: BlockHash) {
    IsState(c, s) && h in Main(c, s) && h in s.lists && x in s.lists[h]
  }

  lemma CameStep(c: Setting, states: seq<State>, events: seq<Event>, j: nat, h: BlockHash, x: BlockHash)
    requires IsTrace(c, states, events) && j < |events|
    ensures IsState(c, states[j]) && IsStep(c, states[j], events[j], states[j + 1])
    ensures CameOnTime(c, states, events, j + 1, h, x) <==>
              CameOnTime(c, states, events, j, h, x) || OnTime(c, states[j], events[j], h, x)
  {
    hide OnTime, IsState;
    StateOf(c, states, events, j);
  }

  /** A block that came on time is in the main tree, with its list, in every later state. */
  lemma {:induction false} OnTimeStays(
    c: Setting, states: seq<State>, events: seq<Event>, j: nat, h: BlockHash, x: BlockHash)
    requires IsTrace(c, states, events) && j <= |events| && CameOnTime(c, states, events, j, h, x)
    ensures |states| == |events| + 1 && Lists(c, states[j], h, x)
  {
    hide *;
    StateOf(c, states, events, j);
    NobodyYet(c, states, events, h, x);
    if j > 0 {
      CameStep(c, states, events, j - 1, h, x);
      if OnTime(c, states[j - 1], events[j - 1], h, x) {
        OnTimeJoins(c, states[j - 1], events[j - 1], states[j], h, x);
      } else {
        OnTimeStays(c, states, events, j - 1, h, x);
        ListsParts(c, states[j - 1], h, x);
        MainStays(c, states[j - 1], events[j - 1], states[j], h);
      }
      ListsNow(c, states[j], h, x);
    }
  }

  lemma NobodyYet(c: Setting, states: seq<State>, events: seq<Event>, h: BlockHash, x: BlockHash)
    requires IsTrace(c, states, events)
    ensures !CameOnTime(c, states, events, 0, h, x)
  {
  }

  lemma ListsParts(c: Setting, s: State, h: BlockHash, x: BlockHash)
    requires Lists(c, s, h, x)
    ensures IsState(c, s) && h in Main(c, s) && h in s.lists && x in s.lists[h]
  {
  }

  lemma ListsNow(c: Setting, s: State, h: BlockHash, x: BlockHash)
    requires IsState(c, s) && h in Main(c, s) && h in s.lists && x in s.lists[h]
    ensures Lists(c, s, h, x)
  {
  }

  lemma RunIsTrace(c: Setting, states: seq<State>, events: seq<Event>)
    requires IsRun(c, states, events)
    ensures IsTrace(c, states, events) && |states| == |events| + 1 && states[0].books.cited == {}
    ensures states[0].lists == map[]
  {
  }

  /**
   * In every state of every run a weak block of the chain is marked as cited exactly when a block
   * of the main tree lists it that came on time: its parent was in the main tree and the weak
   * block was known when it arrived, or it was mined here.
   */
  lemma {:induction false} CitedIffOnTime(c: Setting, states: seq<State>, events: seq<Event>, j: nat, x: BlockHash)
    requires IsRun(c, states, events) && j <= |events| && c.chainOf(x) == c.chain
    ensures IsTrace(c, states, events) && |states| == |events| + 1
    ensures x in states[j].books.cited <==> exists h :: CitesOnTime(c, states, events, j, h, x)
  {
    hide *;
    RunIsTrace(c, states, events);
    if j == 0 {
      forall h ensures !CitesOnTime(c, states, events, 0, h, x) {
        NobodyYet(c, states, events, h, x);
        OnTimeParts(c, states, events, 0, h, x);
      }
    } else {
      var k, s, e, s' := j - 1, states[j - 1], events[j - 1], states[j];
      StateOf(c, states, events, j - 1);
      CitedIffOnTime(c, states, events, j - 1, x);
      CameStep(c, states, events, j - 1, x, x);
      CitedStep(c, s, e, s', x);
      forall h ensures CitesOnTime(c, states, events, j, h, x) <==>
                         CitesOnTime(c, states, events, k, h, x) || OnTime(c, s, e, h, x)
      {
        CameStep(c, states, events, j - 1, h, x);
        OnTimeParts(c, states, events, j - 1, h, x);
        OnTimeParts(c, states, events, j, h, x);
      }
      if h :| CitesOnTime(c, states, events, k, h, x) {
        assert CitesOnTime(c, states, events, j, h, x);
      } else if h :| OnTime(c, s, e, h, x) {
        assert CitesOnTime(c, states, events, j, h, x);
      } else {
        assert forall h :: !CitesOnTime(c, states, events, j, h, x);
      }
    }
  }

  lemma OnTimeParts(c: Setting, states: seq<State>, events: seq<Event>, j: nat, h: BlockHash, x: BlockHash)
    requires IsTrace(c, states, events) && j <= |events|
    ensures CitesOnTime(c, states, events, j, h, x) <==> CameOnTime(c, states, events, j, h, x)
  {
    hide CameOnTime, Lists, IsTrace;
    StateOf(c, states, events, j);
    if CameOnTime(c, states, events, j, h, x) {
      OnTimeStays(c, states, events, j, h, x);
    }
  }

  /** The event brings the block `h` with this list. */
  ghost predicate Brings(s: State, e: Event, h: BlockHash, cites: seq<BlockHash>) {
    (e.Receive? || e.Mine?) && e.hash == h && e.cites == cites && h !in s.lists
  }

  /**
   * The list of a block is that of its arrival, and the block came on time for `x` exactly if it
   * was mined, or its parent was in the main tree then and `x` was known.
   */
  lemma {:induction false} ListIsOfArrival(
    c: Setting, states: seq<State>, events: seq<Event>, j: nat, h: BlockHash)
    returns (i: nat)
    requires IsRun(c, states, events) && j <= |events| && |states| == |events| + 1 && h in states[j].lists
    ensures i < j && IsState(c, states[i]) && Brings(states[i], events[i], h, states[j].lists[h])
    ensures forall x | x in states[j].lists[h] ::
              OnTime(c, states[i], events[i], h, x) <==>
              events[i].Mine? || (c.w.par(h) in Main(c, states[i]) && x in states[i].books.known)
  {
    hide *;
    RunIsTrace(c, states, events);
    assert h !in states[0].lists;
    StateOf(c, states, events, j - 1);
    CameStep(c, states, events, j - 1, h, h);
    var s, e := states[j - 1], events[j - 1];
    if h in s.lists {
      ListStays(c, s, e, states[j], h);
      i := ListIsOfArrival(c, states, events, j - 1, h);
    } else {
      i := j - 1;
      ListArrives(c, s, e, states[j], h);
    }
  }

  lemma ListStays(c: Setting, s: State, e: Event, s': State, h: BlockHash)
    requires IsStep(c, s, e, s') && h in s.lists && h in s'.lists
    ensures s'.lists[h] == s.lists[h]
  {
    hide Main, WeakBooks.Step, WeakBooks.Sound;
  }

  lemma ListArrives(c: Setting, s: State, e: Event, s': State, h: BlockHash)
    requires IsStep(c, s, e, s') && h !in s.lists && h in s'.lists
    ensures IsState(c, s) && Brings(s, e, h, s'.lists[h])
    ensures forall x | x in s'.lists[h] ::
              OnTime(c, s, e, h, x) <==> e.Mine? || (c.w.par(h) in Main(c, s) && x in s.books.known)
  {
    hide Main, WeakBooks.Step;
    if e.Mine? {
      MinedAreKnown(c, s, e.cites, s');
    }
  }

  /**
   * A block mined here lists each weak block at most once, and exactly the full ones of its chain
   * that no block of the main tree cites on time: one that is already listed in the main tree is
   * listed again exactly when all blocks that list it came late.
   */
  lemma MinedListIsExact(c: Setting, states: seq<State>, events: seq<Event>, j: nat, x: BlockHash)
    requires IsRun(c, states, events) && j < |events| && events[j].Mine?
    ensures IsTrace(c, states, events) && |states| == |events| + 1 && NoRepeats(events[j].cites)
    ensures x in events[j].cites <==>
              && x in states[j].books.full && c.chainOf(x) == c.chain
              && forall h | Lists(c, states[j], h, x) :: !CameOnTime(c, states, events, j, h, x)
  {
    hide *;
    RunIsTrace(c, states, events);
    CameStep(c, states, events, j, x, x);
    MinedStep(c, states[j], events[j], states[j + 1], x);
    if c.chainOf(x) == c.chain {
      CitedIffOnTime(c, states, events, j, x);
      forall h ensures CitesOnTime(c, states, events, j, h, x) <==>
                         Lists(c, states[j], h, x) && CameOnTime(c, states, events, j, h, x)
      {
        BothParts(c, states, events, j, h, x);
      }
    }
  }

  lemma BothParts(c: Setting, states: seq<State>, events: seq<Event>, j: nat, h: BlockHash, x: BlockHash)
    requires IsTrace(c, states, events) && j <= |events| && |states| == |events| + 1
    ensures CitesOnTime(c, states, events, j, h, x) <==>
              Lists(c, states[j], h, x) && CameOnTime(c, states, events, j, h, x)
  {
  }

  lemma MinedStep(c: Setting, s: State, e: Event, s': State, x: BlockHash)
    requires IsStep(c, s, e, s') && e.Mine?
    ensures NoRepeats(e.cites)
    ensures x in e.cites <==> x in s.books.full && x !in s.books.cited && c.chainOf(x) == c.chain
  {
    hide WeakBooks.Step, IsState;
    CitedMarks(c, s.books, WeakBooks.Cite(c.chain, e.cites), s'.books, x);
  }

  // ------------------------------------------------------------------ a weak block cited twice

  /**
   * A block that cites `x` arrives before its parent, then the parent arrives, then a block is
   * mined: `x` is full and not marked, so both blocks are in the main tree and list it.
   */
  lemma CitedTwice(c: Setting, s: State, p: BlockHash, h: BlockHash, m: BlockHash, x: BlockHash)
    returns (states: seq<State>, events: seq<Event>)
    requires IsState(c, s) && x in s.books.full && x !in s.books.cited && c.chainOf(x) == c.chain
    requires Joins(c, s, p) && Genuine(c.w, h) && c.w.par(h) == p && h !in s.lists
    requires Genuine(c.w, m) && c.w.par(m) == h && m !in s.lists
    ensures |events| == 3 && IsTrace(c, states, events) && states[0] == s
    ensures events[0] == Receive(h, [x]) && events[1] == Receive(p, []) && events[2].Mine? && events[2].hash == m
    ensures Lists(c, states[3], h, x) && Lists(c, states[3], m, x) && h != m
  {
    hide *;
    var s1 := Waits(c, s, h, p, x);
    StepIsBetweenStates(c, s, Event.Receive(h, [x]), s1);
    var s2 := Grafts(c, s1, p, h, x);
    StepIsBetweenStates(c, s1, Event.Receive(p, []), s2);
    ListsParts(c, s2, h, x);
    NotAnAncestor(c, m);
    JoinsNow(c, s2, m);
    var cites, s3 := Cites(c, s2, m, x);
    states, events := [s, s1, s2, s3], [Event.Receive(h, [x]), Event.Receive(p, []), Event.Mine(m, cites)];
    ListsParts(c, s2, h, x);
    MainStays(c, s2, events[2], s3, h);
    StepIsBetweenStates(c, s2, events[2], s3);
    ListsNow(c, s3, h, x);
    ThreeSteps(c, states, events);
  }

  lemma NotAnAncestor(c: Setting, m: BlockHash)
    requires Genuine(c.w, m)
    ensures m != c.w.par(m)
    ensures Genuine(c.w, c.w.par(m)) ==> m != c.w.par(c.w.par(m))
  {
  }

  lemma JoinsNow(c: Setting, s: State, h: BlockHash)
    requires IsState(c, s) && Genuine(c.w, h) && h !in s.lists && c.w.par(h) in Main(c, s)
    ensures Joins(c, s, h)
  {
  }

  lemma ThreeSteps(c: Setting, states: seq<State>, events: seq<Event>)
    requires |states| == 4 && |events| == 3 && IsStep(c, states[0], events[0], states[1])
    requires IsStep(c, states[1], events[1], states[2]) && IsStep(c, states[2], events[2], states[3])
    ensures IsTrace(c, states, events)
  {
    hide IsState;
    assert IsState(c, states[0]) by { StepIsBetweenStates(c, states[0], events[0], states[1]); }
  }

  lemma StepIsBetweenStates(c: Setting, s: State, e: Event, s': State)
    requires IsStep(c, s, e, s')
    ensures IsState(c, s) && IsState(c, s')
  {
  }

  /** One more block on the lists, and books that stay sound. */
  lemma StateGrows(c: Setting, s: State, h: BlockHash, cites: seq<BlockHash>, books: WeakBooks.Books)
    returns (s': State)
    requires IsState(c, s) && Genuine(c.w, h) && h !in s.lists && WeakBooks.Sound(c.chainOf, books)
    ensures s' == State(s.lists[h := cites], books) && IsState(c, s')
    ensures h in Main(c, s') <==> c.w.par(h) in Main(c, s)
    ensures Main(c, s) <= Main(c, s')
  {
    hide WeakBooks.Sound, AllGenuine, Genuine, Canon, IsState;
    StateParts(c, s);
    s' := State(s.lists[h := cites], books);
    assert s'.lists.Keys == s.lists.Keys + {h};
    MainGrows(c.w, s.lists.Keys, h);
    NotGenesis(c, h);
    StateParts(c, s');
  }

  lemma NotGenesis(c: Setting, h: BlockHash)
    requires Genuine(c.w, h)
    ensures h != c.w.genesis
  {
  }

  lemma StateParts(c: Setting, s: State)
    ensures IsState(c, s) <==>
              AllGenuine(c.w, s.lists.Keys) && c.w.genesis !in s.lists && WeakBooks.Sound(c.chainOf, s.books)
  {
  }

  /** A block arrives: nothing is marked, as there is nothing to mark or it does not join. */
  lemma ReceiveUnmarked(c: Setting, s: State, h: BlockHash, cites: seq<BlockHash>) returns (s': State)
    requires IsState(c, s) && Genuine(c.w, h) && h !in s.lists && (cites == [] || !Joins(c, s, h))
    ensures s' == s.(lists := s.lists[h := cites]) && IsStep(c, s, Event.Receive(h, cites), s')
    ensures h in Main(c, s') <==> c.w.par(h) in Main(c, s)
    ensures Main(c, s) <= Main(c, s')
  {
    hide *;
    SoundBooks(c, s);
    s' := StateGrows(c, s, h, cites, s.books);
    UnmarkedNow(c, s, h, cites, s');
  }

  lemma UnmarkedNow(c: Setting, s: State, h: BlockHash, cites: seq<BlockHash>, s': State)
    requires IsState(c, s) && Genuine(c.w, h) && h !in s.lists && (cites == [] || !Joins(c, s, h))
    requires s' == State(s.lists[h := cites], s.books) && IsState(c, s')
    ensures IsStep(c, s, Event.Receive(h, cites), s')
  {
    hide Main, IsState, Joins;
    assert s.books.cited + {} == s.books.cited;
  }

  lemma SoundBooks(c: Setting, s: State)
    requires IsState(c, s)
    ensures WeakBooks.Sound(c.chainOf, s.books)
  {
  }

  /** The block arrives before its parent. */
  lemma Waits(c: Setting, s: State, h: BlockHash, p: BlockHash, x: BlockHash) returns (s': State)
    requires IsState(c, s) && Joins(c, s, p) && Genuine(c.w, h) && c.w.par(h) == p && h !in s.lists
    ensures IsStep(c, s, Event.Receive(h, [x]), s') && s'.books == s.books && Joins(c, s', p)
    ensures s'.lists == s.lists[h := [x]]
  {
    hide Canon, AllGenuine, WeakBooks.Sound, IsStep;
    if p in Main(c, s) { MainIsHeld(c, s, p); }
    s' := ReceiveUnmarked(c, s, h, [x]);
  }

  /** The parent arrives, with nothing to cite. */
  lemma Grafts(c: Setting, s: State, p: BlockHash, h: BlockHash, x: BlockHash) returns (s': State)
    requires IsState(c, s) && Joins(c, s, p) && h in s.lists && s.lists[h] == [x] && c.w.par(h) == p
    ensures IsStep(c, s, Event.Receive(p, []), s') && s'.books == s.books && Lists(c, s', h, x)
    ensures s'.lists == s.lists[p := []]
  {
    s' := ReceiveUnmarked(c, s, p, []);
    StepIsBetweenStates(c, s, Event.Receive(p, []), s');
    hide WeakBooks.Sound, IsStep;
    CanonTrees(c.w, s'.lists.Keys, p);
    CanonTrees(c.w, s'.lists.Keys, h);
  }

  /** What a block mined now would cite. */
  lemma CiteAll(c: Setting, b: WeakBooks.Books) returns (cites: seq<BlockHash>, b': WeakBooks.Books)
    requires WeakBooks.Sound(c.chainOf, b)
    ensures WeakBooks.Step(c.chainOf, c.lim, b, WeakBooks.Cite(c.chain, cites), b') && WeakBooks.Sound(c.chainOf, b')
    ensures forall y :: y in cites <==> y in b.full && y !in b.cited && c.chainOf(y) == c.chain
  {
    cites := Listing(set y | y in b.full && y !in b.cited && c.chainOf(y) == c.chain);
    b' := b.(cited := b.cited + WeakBooks.Marks(c.chainOf, b, WeakBooks.Cite(c.chain, cites)));
    WeakBooks.SoundStep(c.chainOf, c.lim, b, WeakBooks.Cite(c.chain, cites), b');
  }

  /** A block is mined and lists all that is full and not marked. */
  lemma Cites(c: Setting, s: State, m: BlockHash, x: BlockHash) returns (cites: seq<BlockHash>, s': State)
    requires IsState(c, s) && Joins(c, s, m) && x in s.books.full && x !in s.books.cited && c.chainOf(x) == c.chain
    ensures IsStep(c, s, Event.Mine(m, cites), s') && Lists(c, s', m, x)
  {
    hide Main, Canon, AllGenuine, WeakBooks.Sound, WeakBooks.Step;
    SoundBooks(c, s);
    var books;
    cites, books := CiteAll(c, s.books);
    assert x in cites;
    s' := StateGrows(c, s, m, cites, books);
  }

  ghost function Listing(s: set<BlockHash>): (q: seq<BlockHash>)
    ensures NoRepeats(q) && forall h :: h in q <==> h in s
  {
    if s == {} then [] else
      var h :| h in s;
      Listing(s - {h}) + [h]
  }
}
