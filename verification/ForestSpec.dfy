/**
 * What the block forest of one chain should be, on values.
 *
 * A block hash commits to the block, so it fixes the parent and the depth (`Lineage`).  The
 * forest that a node holds is then a function of the *set* of blocks it retains (`Canon`), and
 * the four-way case split of the receive step (`Step`) computes exactly that function.
 */
module ForestSpec {
  import opened Types

  /** The facts that a hash fixes: its parent hash and its depth. */
  datatype Lineage = Lineage(genesis: BlockHash, par: BlockHash -> BlockHash, dep: BlockHash -> U32)

  /** A block other than genesis: one deeper than its parent. */
  predicate Genuine(w: Lineage, h: BlockHash) {
    h != w.genesis && w.dep(h) == w.dep(w.par(h)) + 1
  }

  ghost predicate AllGenuine(w: Lineage, R: set<BlockHash>) {
    forall h | h in R :: Genuine(w, h)
  }

  /** The hashes of the main tree, and of every incomplete tree keyed by the hash of its root. */
  datatype Forest = Forest(main: set<BlockHash>, inc: map<BlockHash, set<BlockHash>>)

  /** The nearest ancestor of `h`, `h` included, that is genesis or is not among `R`. */
  ghost function Root(w: Lineage, R: set<BlockHash>, h: BlockHash): (r: BlockHash)
    requires AllGenuine(w, R)
    ensures r !in R
    ensures w.dep(r) <= w.dep(h)
    ensures h !in R <==> r == h
    decreases w.dep(h)
  {
    if h in R then Root(w, R, w.par(h)) else h
  }

  ghost function Below(w: Lineage, R: set<BlockHash>, r: BlockHash): set<BlockHash>
    requires AllGenuine(w, R)
  {
    {r} + set h | h in R && Root(w, R, h) == r
  }

  ghost function Missing(w: Lineage, R: set<BlockHash>): set<BlockHash>
    requires AllGenuine(w, R)
  {
    (set h | h in R :: Root(w, R, h)) - {w.genesis}
  }

  /** The forest over the retained blocks `R`: no arrival order appears in it. */
  ghost function Canon(w: Lineage, R: set<BlockHash>): Forest
    requires AllGenuine(w, R)
  {
    Forest(Below(w, R, w.genesis), map r | r in Missing(w, R) :: Below(w, R, r))
  }

  /** The key of the incomplete tree that holds `x`. */
  ghost function Home(f: Forest, x: BlockHash): (k: Option<BlockHash>)
    ensures k.Some? ==> k.value in f.inc && x in f.inc[k.value]
    ensures k.None? ==> forall r | r in f.inc :: x !in f.inc[r]
  {
    if exists r :: r in f.inc && x in f.inc[r] then
      var r :| r in f.inc && x in f.inc[r];
      Some(r)
    else None
  }

  ghost function Tree(f: Forest, r: BlockHash): set<BlockHash> {
    if r in f.inc then f.inc[r] else {r}
  }

  // The updates of the five branches of a receive step.

  ghost function JoinMain(f: Forest, h: BlockHash): Forest {
    Forest(f.main + Tree(f, h), f.inc - {h})
  }

  ghost function Start(f: Forest, p: BlockHash, h: BlockHash): Forest {
    f.(inc := f.inc[p := {p, h}])
  }

  ghost function Extend(f: Forest, j: BlockHash, h: BlockHash): Forest {
    f.(inc := f.inc[j := Tree(f, j) + {h}])
  }

  ghost function Reroot(f: Forest, h: BlockHash, p: BlockHash): Forest {
    f.(inc := (f.inc - {h})[p := Tree(f, h) + {p}])
  }

  ghost function Merge(f: Forest, h: BlockHash, j: BlockHash): Forest {
    f.(inc := (f.inc - {h})[j := Tree(f, j) + Tree(f, h)])
  }

  /** One receive step on hash sets, with the branches of `add_received_block`. */
  ghost function Step(f: Forest, p: BlockHash, h: BlockHash): Forest {
    if h in f.main then f
    else if p in f.main then JoinMain(f, h)
    else
      match (Home(f, h), Home(f, p))
      case (None, None) => Start(f, p, h)
      case (None, Some(j)) => Extend(f, j, h)
      case (Some(i), None) => if i != h then f else Reroot(f, h, p)
      case (Some(i), Some(j)) => if i != h then f else Merge(f, h, j)
  }

  // ------------------------------------------------------------------ facts about roots

  /** Receiving `h` moves exactly the blocks whose missing ancestor was `h`. */
  lemma {:induction false} RootAfterReceive(w: Lineage, R: set<BlockHash>, h: BlockHash, x: BlockHash)
    requires AllGenuine(w, R) && Genuine(w, h) && h !in R
    ensures AllGenuine(w, R + {h})
    ensures Root(w, R + {h}, x) == if Root(w, R, x) == h then Root(w, R, w.par(h)) else Root(w, R, x)
    ensures Root(w, R, w.par(h)) != h
    decreases w.dep(x)
  {
    if x in R {
      RootAfterReceive(w, R, h, w.par(x));
    } else if x == h {
      RootAfterReceive(w, R, h, w.par(h));
    }
  }

  /** Dropping every block below `r` leaves the other roots alone. */
  lemma {:induction false} RootAfterDrop(w: Lineage, R: set<BlockHash>, r: BlockHash, x: BlockHash)
    requires AllGenuine(w, R) && r !in R
    requires Root(w, R, x) != r
    ensures Root(w, R - Below(w, R, r), x) == Root(w, R, x)
    decreases w.dep(x)
  {
    if x in R {
      RootAfterDrop(w, R, r, w.par(x));
    }
  }

  lemma CanonTrees(w: Lineage, R: set<BlockHash>, x: BlockHash)
    requires AllGenuine(w, R) && w.genesis !in R
    ensures var f := Canon(w, R);
            && (x in f.main <==> (x in R || x == w.genesis) && Root(w, R, x) == w.genesis)
            && (forall r | r in f.inc :: x in f.inc[r] <==> (x in R || x == r) && Root(w, R, x) == r)
            && (x in R && Root(w, R, x) != w.genesis ==> Root(w, R, x) in f.inc)
            && (forall r | r in f.inc :: r !in R && r != w.genesis)
  {
  }

  /** In the canonical forest a hash lives in at most one incomplete tree: that of its root. */
  lemma HomeInCanon(w: Lineage, R: set<BlockHash>, x: BlockHash)
    requires AllGenuine(w, R) && w.genesis !in R
    requires x !in Canon(w, R).main
    ensures var f := Canon(w, R); var k := Root(w, R, x);
            Home(f, x) == if k in f.inc then Some(k) else None
    ensures x !in R ==> Root(w, R, x) == x
  {
    var f := Canon(w, R);
    CanonTrees(w, R, x);
    var k := Root(w, R, x);
    assert k in f.inc ==> x in f.inc[k];
  }

  /** The trees of the canonical forest after one more block. */
  lemma CanonGrows(w: Lineage, R: set<BlockHash>, h: BlockHash, x: BlockHash, r: BlockHash)
    requires AllGenuine(w, R) && w.genesis !in R && Genuine(w, h) && h !in R
    ensures AllGenuine(w, R + {h})
    ensures var q := Root(w, R, w.par(h));
            x in Below(w, R + {h}, r) <==>
              if r == q then x in Below(w, R, r) || x == h || x in Below(w, R, h)
              else x == r || (r != h && x in Below(w, R, r))
  {
    RootAfterReceive(w, R, h, x);
    RootAfterReceive(w, R, h, h);
  }

  lemma MissingGrows(w: Lineage, R: set<BlockHash>, h: BlockHash)
    requires AllGenuine(w, R) && w.genesis !in R && Genuine(w, h) && h !in R
    ensures AllGenuine(w, R + {h})
    ensures var q := Root(w, R, w.par(h));
            Missing(w, R + {h}) == (Missing(w, R) - {h}) + ({q} - {w.genesis})
  {
    RootAfterReceive(w, R, h, h);
    var R' := R + {h};
    var q := Root(w, R, w.par(h));
    forall r | r in Missing(w, R')
      ensures r in (Missing(w, R) - {h}) + ({q} - {w.genesis})
    {
      var x :| x in R' && Root(w, R', x) == r;
      RootAfterReceive(w, R, h, x);
    }
    forall r | r in (Missing(w, R) - {h}) + ({q} - {w.genesis})
      ensures r in Missing(w, R')
    {
      if r == q {
        assert Root(w, R', h) == q;
      } else {
        var x :| x in R && Root(w, R, x) == r;
        RootAfterReceive(w, R, h, x);
      }
    }
  }

  /** The branches of one receive step compute the canonical forest over one more block. */
  lemma StepIsCanon(w: Lineage, R: set<BlockHash>, h: BlockHash)
    requires AllGenuine(w, R) && w.genesis !in R
    requires h == w.genesis || Genuine(w, h)
    ensures AllGenuine(w, R + ({h} - {w.genesis}))
    ensures Step(Canon(w, R), w.par(h), h) == Canon(w, R + ({h} - {w.genesis}))
  {
    if h == w.genesis {
      assert R + ({h} - {w.genesis}) == R;
    } else if h in R {
      assert R + ({h} - {w.genesis}) == R;
      StepOnRetained(w, R, h);
    } else {
      assert R + ({h} - {w.genesis}) == R + {h};
      StepOnNew(w, R, h);
    }
  }

  lemma StepOnRetained(w: Lineage, R: set<BlockHash>, h: BlockHash)
    requires AllGenuine(w, R) && w.genesis !in R && h in R
    ensures Step(Canon(w, R), w.par(h), h) == Canon(w, R)
  {
    var f := Canon(w, R);
    CanonTrees(w, R, h);
    if h !in f.main {
      CanonTrees(w, R, w.par(h));
      HomeInCanon(w, R, h);
      HomeInCanon(w, R, w.par(h));
    }
  }

  lemma StepOnNew(w: Lineage, R: set<BlockHash>, h: BlockHash)
    requires AllGenuine(w, R) && w.genesis !in R && Genuine(w, h) && h !in R
    ensures AllGenuine(w, R + {h})
    ensures Step(Canon(w, R), w.par(h), h) == Canon(w, R + {h})
  {
    var p := w.par(h);
    CanonAfter(w, R, h);
    CanonTrees(w, R, h);
    CanonTrees(w, R, p);
    if p in Canon(w, R).main {
      StepIntoMain(w, R, h);
    } else {
      StepIntoIncomplete(w, R, h);
    }
  }

  lemma BelowAfter(w: Lineage, R: set<BlockHash>, h: BlockHash, r: BlockHash)
    requires AllGenuine(w, R) && w.genesis !in R && Genuine(w, h) && h !in R && r != h
    ensures AllGenuine(w, R + {h})
    ensures Below(w, R + {h}, r) ==
            if r == Root(w, R, w.par(h)) then Below(w, R, r) + Below(w, R, h) else Below(w, R, r)
  {
    RootAfterReceive(w, R, h, h);
    forall x ensures x in Below(w, R + {h}, r) <==>
        x in (if r == Root(w, R, w.par(h)) then Below(w, R, r) + Below(w, R, h) else Below(w, R, r))
    {
      CanonGrows(w, R, h, x, r);
    }
  }

  /** A root is missing exactly when a retained block hangs below it. */
  lemma RootIsMissing(w: Lineage, R: set<BlockHash>, x: BlockHash)
    requires AllGenuine(w, R) && w.genesis !in R
    ensures x in R && Root(w, R, x) != w.genesis ==> Root(w, R, x) in Missing(w, R)
    ensures x !in R && x !in Missing(w, R) && x != w.genesis ==> Root(w, R, x) == x && Below(w, R, x) == {x}
  {
  }

  /** The canonical forest over one more block: `h` and what waited for it move below `q`. */
  lemma CanonAfter(w: Lineage, R: set<BlockHash>, h: BlockHash)
    requires AllGenuine(w, R) && w.genesis !in R && Genuine(w, h) && h !in R
    ensures AllGenuine(w, R + {h})
    ensures var f, q := Canon(w, R), Root(w, R, w.par(h));
            && q != h
            && Canon(w, R + {h}) ==
               if q == w.genesis then Forest(f.main + Below(w, R, h), f.inc - {h})
               else f.(inc := (f.inc - {h})[q := Below(w, R, q) + Below(w, R, h)])
  {
    var f, q := Canon(w, R), Root(w, R, w.par(h));
    RootAfterReceive(w, R, h, h);
    BelowAfter(w, R, h, w.genesis);
    var g := if q == w.genesis then f.inc - {h} else (f.inc - {h})[q := Below(w, R, q) + Below(w, R, h)];
    IncAfter(w, R, h, g);
  }

  lemma IncAfter(w: Lineage, R: set<BlockHash>, h: BlockHash, g: map<BlockHash, set<BlockHash>>)
    requires AllGenuine(w, R) && w.genesis !in R && Genuine(w, h) && h !in R
    requires var q := Root(w, R, w.par(h));
             && q != h
             && g.Keys == (Canon(w, R).inc.Keys - {h}) + ({q} - {w.genesis})
             && forall r | r in g :: g[r] == if r == q then Below(w, R, q) + Below(w, R, h) else Below(w, R, r)
    ensures AllGenuine(w, R + {h})
    ensures g == Canon(w, R + {h}).inc
  {
    hide Below, Missing;
    MissingGrows(w, R, h);
    var g' := Canon(w, R + {h}).inc;
    assert g.Keys == g'.Keys;
    forall r | r in g ensures g[r] == g'[r] {
      BelowAfter(w, R, h, r);
    }
  }

  lemma StepIntoMain(w: Lineage, R: set<BlockHash>, h: BlockHash)
    requires AllGenuine(w, R) && w.genesis !in R && Genuine(w, h) && h !in R
    requires h !in Canon(w, R).main && w.par(h) in Canon(w, R).main
    ensures Step(Canon(w, R), w.par(h), h) ==
            Forest(Canon(w, R).main + Below(w, R, h), Canon(w, R).inc - {h})
  {
    var f := Canon(w, R);
    RootIsMissing(w, R, h);
  }

  lemma StepIntoIncomplete(w: Lineage, R: set<BlockHash>, h: BlockHash)
    requires AllGenuine(w, R) && w.genesis !in R && Genuine(w, h) && h !in R
    requires h !in Canon(w, R).main && w.par(h) !in Canon(w, R).main
    requires Root(w, R, w.par(h)) !in {h, w.genesis}
    ensures var f, q := Canon(w, R), Root(w, R, w.par(h));
            Step(f, w.par(h), h) == f.(inc := (f.inc - {h})[q := Below(w, R, q) + Below(w, R, h)])
  {
    var f, p := Canon(w, R), w.par(h);
    var q := Root(w, R, p);
    RootIsMissing(w, R, h);
    RootIsMissing(w, R, p);
    HomeInCanon(w, R, h);
    HomeInCanon(w, R, p);
    StepOutside(f, p, h, q, Below(w, R, q), Below(w, R, h));
  }

  /** The four branches for a parent outside the main tree are one update. */
  lemma StepOutside(f: Forest, p: BlockHash, h: BlockHash, q: BlockHash, bq: set<BlockHash>, bh: set<BlockHash>)
    requires h !in f.main && p !in f.main && q != h
    requires Home(f, h) == if h in f.inc then Some(h) else None
    requires Home(f, p) == if q in f.inc then Some(q) else None
    requires if q in f.inc then bq == f.inc[q] else q == p && bq == {q}
    requires bh == if h in f.inc then f.inc[h] else {h}
    ensures Step(f, p, h) == f.(inc := (f.inc - {h})[q := bq + bh])
  {
    if h !in f.inc {
      assert f.inc - {h} == f.inc;
      assert {p} + {h} == {p, h};
    } else if q !in f.inc {
      assert {p} + bh == bh + {p};
    }
  }

  // ------------------------------------------------------------------ whole runs

  /** A block arrives, or the incomplete tree with root `r` is dropped after too many asks. */
  datatype Event = Arrive(h: BlockHash) | Expire(r: BlockHash)

  ghost predicate Acceptable(w: Lineage, e: Event) {
    e.Arrive? ==> e.h == w.genesis || Genuine(w, e.h)
  }

  ghost function Apply(w: Lineage, f: Forest, e: Event): Forest {
    match e
    case Arrive(h) => Step(f, w.par(h), h)
    case Expire(r) => f.(inc := f.inc - {r})
  }

  ghost function RunFrom(w: Lineage, f: Forest, events: seq<Event>): Forest {
    if events == [] then f else Apply(w, RunFrom(w, f, events[..|events| - 1]), events[|events| - 1])
  }

  ghost function Boot(w: Lineage): Forest {
    Forest({w.genesis}, map[])
  }

  /** The blocks still held after a run: what arrived, minus what was dropped with its tree. */
  ghost function Retained(w: Lineage, events: seq<Event>): (R: set<BlockHash>)
    requires forall e | e in events :: Acceptable(w, e)
    ensures AllGenuine(w, R) && w.genesis !in R
  {
    if events == [] then {}
    else
      var R := Retained(w, events[..|events| - 1]);
      var e := events[|events| - 1];
      assert Acceptable(w, e);
      match e
      case Arrive(h) => R + ({h} - {w.genesis})
      case Expire(r) => if r in Canon(w, R).inc then R - Below(w, R, r) else R
  }

  lemma DropIsCanon(w: Lineage, R: set<BlockHash>, r: BlockHash)
    requires AllGenuine(w, R) && w.genesis !in R
    requires r in Canon(w, R).inc
    ensures AllGenuine(w, R - Below(w, R, r))
    ensures Canon(w, R - Below(w, R, r)) == Canon(w, R).(inc := Canon(w, R).inc - {r})
  {
    var R' := R - Below(w, R, r);
    forall x | Root(w, R, x) != r ensures Root(w, R', x) == Root(w, R, x) {
      RootAfterDrop(w, R, r, x);
    }
    forall x | x in R' ensures Root(w, R, x) != r {}
    BelowAfterDrop(w, R, r, w.genesis);
    var g, g' := Canon(w, R).inc - {r}, Canon(w, R').inc;
    assert g.Keys == g'.Keys by {
      forall k | k in g ensures k in g' {
        var x :| x in R && Root(w, R, x) == k;
        assert x in R';
      }
    }
    forall k | k in g ensures g[k] == g'[k] {
      BelowAfterDrop(w, R, r, k);
    }
  }

  lemma BelowAfterDrop(w: Lineage, R: set<BlockHash>, r: BlockHash, k: BlockHash)
    requires AllGenuine(w, R) && w.genesis !in R && r !in R && k != r
    ensures Below(w, R - Below(w, R, r), k) == Below(w, R, k)
  {
    var R' := R - Below(w, R, r);
    forall x | x in R && Root(w, R, x) != r ensures x in R' && Root(w, R', x) == Root(w, R, x) {
      RootAfterDrop(w, R, r, x);
    }
  }

  /** Every reachable forest is the canonical forest over the blocks it retains. */
  lemma {:induction false} ReachableIsCanon(w: Lineage, events: seq<Event>)
    requires forall e | e in events :: Acceptable(w, e)
    ensures RunFrom(w, Boot(w), events) == Canon(w, Retained(w, events))
  {
    if events == [] {
      assert Canon(w, {}).inc == map[];
    } else {
      var before := events[..|events| - 1];
      var e := events[|events| - 1];
      ReachableIsCanon(w, before);
      assert e in events;
      match e
      case Arrive(h) => StepIsCanon(w, Retained(w, before), h);
      case Expire(r) =>
        var R := Retained(w, before);
        if r in Canon(w, R).inc {
          DropIsCanon(w, R, r);
        } else {
          assert Canon(w, R).inc - {r} == Canon(w, R).inc;
        }
    }
  }

  ghost function Arrivals(blocks: seq<BlockHash>): seq<Event> {
    seq(|blocks|, i requires 0 <= i < |blocks| => Arrive(blocks[i]))
  }

  ghost function Received(w: Lineage, blocks: seq<BlockHash>): set<BlockHash> {
    (set h | h in blocks) - {w.genesis}
  }

  lemma {:induction false} ArrivalsAreRetained(w: Lineage, blocks: seq<BlockHash>)
    requires forall h | h in blocks :: h == w.genesis || Genuine(w, h)
    ensures Retained(w, Arrivals(blocks)) == Received(w, blocks)
  {
    if blocks != [] {
      var before := blocks[..|blocks| - 1];
      ArrivalsAreRetained(w, before);
      assert Arrivals(blocks)[..|blocks| - 1] == Arrivals(before);
      assert blocks == before + [blocks[|blocks| - 1]];
    }
  }

  /**
   * Order independence: the same set of blocks, in any order and with any repetition, ends in
   * the same forest.  A hash is in the main tree exactly when its ancestors all arrived down to
   * genesis, and in the incomplete tree of `r` exactly when `r` is its nearest missing ancestor.
   */
  lemma OrderIndependence(w: Lineage, one: seq<BlockHash>, two: seq<BlockHash>)
    requires forall h | h in one :: h == w.genesis || Genuine(w, h)
    requires forall h :: h in one <==> h in two
    ensures RunFrom(w, Boot(w), Arrivals(one)) == RunFrom(w, Boot(w), Arrivals(two))
    ensures AllGenuine(w, Received(w, one))
    ensures RunFrom(w, Boot(w), Arrivals(one)) == Canon(w, Received(w, one))
  {
    ArrivalsAreRetained(w, one);
    ArrivalsAreRetained(w, two);
    assert Received(w, one) == Received(w, two);
    ReachableIsCanon(w, Arrivals(one));
    ReachableIsCanon(w, Arrivals(two));
  }

  /** `h` reaches genesis through received blocks only. */
  ghost predicate Connected(w: Lineage, R: set<BlockHash>, h: BlockHash)
    requires AllGenuine(w, R)
    decreases w.dep(h)
  {
    h == w.genesis || (h in R && Connected(w, R, w.par(h)))
  }

  /** The main tree holds exactly the blocks connected to genesis. */
  lemma {:induction false} MainIsConnected(w: Lineage, R: set<BlockHash>, h: BlockHash)
    requires AllGenuine(w, R) && w.genesis !in R
    ensures h in Canon(w, R).main <==> Connected(w, R, h)
    decreases w.dep(h)
  {
    if h in R {
      MainIsConnected(w, R, w.par(h));
      RootClosed(w, R, h);
    }
  }

  lemma RootClosed(w: Lineage, R: set<BlockHash>, h: BlockHash)
    requires AllGenuine(w, R) && w.genesis !in R && h in R
    ensures Root(w, R, h) == Root(w, R, w.par(h))
    ensures w.par(h) !in R ==> Root(w, R, h) == w.par(h)
  {
  }
}
