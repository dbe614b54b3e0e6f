/** `update_blocks_commited_time`: stamps along the parent links, with the running totals. */
module Confirm {
  import opened Types
  import opened BlockTree
  import opened CommitBooks
  import opened ForestSpec
  import opened Genealogy
  import opened BlockForest
  import Ranks

  /** Parent links stay inside `nodes` and lead to a block one less deep, down to a genesis block. */
  ghost predicate Ancestry(nodes: set<Block>)
    reads nodes`nb, nodes`parent
  {
    forall b | b in nodes ::
      && b.nb.Some?
      && (b.parent == null <==> b.nb.value.depth == 0)
      && (b.parent != null ==>
            b.parent in nodes && b.parent.nb.Some? && b.parent.nb.value.depth + 1 == b.nb.value.depth)
  }

  ghost predicate Named(nodes: set<Block>, known: map<BlockHash, Block>) {
    && (forall h | h in known :: known[h] in nodes && known[h].hash == h)
    && (forall b | b in nodes :: b.hash in known && known[b.hash] == b)
  }

  ghost predicate Known(o: Origin, nodes: set<Block>)
    reads nodes`nb, nodes`parent
  {
    forall b | b in nodes ::
      && b.nb.Some? && b.nb.value.timeMined == o.mined(b.hash)
      && (b.parent == null <==> b.hash in o.genesis)
      && (b.parent != null ==> o.par(b.hash) == b.parent.hash)
  }

  /** The hashes from a block up to genesis. */
  ghost function Line(b: Block?, nodes: set<Block>): seq<BlockHash>
    requires Ancestry(nodes) && (b == null || b in nodes)
    reads nodes`nb, nodes`parent
    decreases if b == null then -1 else b.nb.value.depth as int
  {
    if b == null then [] else [b.hash] + Line(b.parent, nodes)
  }

  lemma {:induction false} LineIsLine(o: Origin, b: Block?, nodes: set<Block>)
    requires Ancestry(nodes) && Known(o, nodes) && (b == null || b in nodes)
    ensures IsLine(o, Line(b, nodes))
    ensures b != null ==> |Line(b, nodes)| == b.nb.value.depth + 1
    decreases if b == null then -1 else b.nb.value.depth as int
  {
    if b != null {
      LineIsLine(o, b.parent, nodes);
      assert b.parent != null ==> Line(b.parent, nodes)[0] == b.parent.hash;
    }
  }

  /** The block `n` parent links above `b`, if there is one. */
  ghost function Up(b: Block?, n: nat, nodes: set<Block>): (r: Block?)
    requires Ancestry(nodes) && (b == null || b in nodes)
    reads nodes`nb, nodes`parent
    ensures r == null || r in nodes
  {
    if b == null || n == 0 then b else Up(b.parent, n - 1, nodes)
  }

  lemma {:induction false} UpIsSuffix(b: Block, n: nat, nodes: set<Block>)
    requires Ancestry(nodes) && b in nodes
    ensures Up(b, n, nodes) == null <==> n > b.nb.value.depth
    ensures n <= b.nb.value.depth ==> n <= |Line(b, nodes)| && Line(Up(b, n, nodes), nodes) == Line(b, nodes)[n..]
  {
    if n > 0 && b.parent != null {
      UpIsSuffix(b.parent, n - 1, nodes);
    }
  }

  /** For every chain the line that starts `discard` blocks above the tip, or an empty one. */
  ghost function DeepLines(tips: seq<Block>, discard: nat, nodes: set<Block>): (r: seq<seq<BlockHash>>)
    requires Ancestry(nodes) && forall i | 0 <= i < |tips| :: tips[i] in nodes
    reads nodes`nb, nodes`parent
    ensures |r| == |tips|
    ensures forall i | 0 <= i < |tips| :: r[i] == Line(Up(tips[i], discard, nodes), nodes)
  {
    if tips == [] then []
    else DeepLines(tips[..|tips| - 1], discard, nodes) + [Line(Up(tips[|tips| - 1], discard, nodes), nodes)]
  }

  /** The `next_rank` of the block `discard` above the tip. */
  ghost function DeepRank(tip: Block, discard: nat, nodes: set<Block>): Option<U32>
    requires Ancestry(nodes) && tip in nodes
    reads nodes`nb, nodes`parent
  {
    var t := Up(tip, discard, nodes);
    if t == null then None else Some(t.nb.value.nextRank)
  }

  /** The smallest `next_rank` among the deep blocks, if every chain has one. */
  ghost predicate IsBar(tips: seq<Block>, discard: nat, nodes: set<Block>, bar: Option<U32>)
    requires Ancestry(nodes) && forall i | 0 <= i < |tips| :: tips[i] in nodes
    reads nodes`nb, nodes`parent
  {
    && (bar == None <==> exists i :: 0 <= i < |tips| && DeepRank(tips[i], discard, nodes) == None)
    && (bar.Some? ==> forall i | 0 <= i < |tips| :: DeepRank(tips[i], discard, nodes).value >= bar.value)
    && (bar.Some? && bar.value < TWO32 - 1 ==> exists i :: 0 <= i < |tips| && DeepRank(tips[i], discard, nodes) == bar)
  }

  /** The headers stored in the nodes, by hash. */
  ghost predicate Headers(nodes: set<Block>, hdr: map<BlockHash, NetworkBlock>)
    reads nodes`nb, nodes`parent
  {
    forall b | b in nodes ::
      && b.hash in hdr && b.nb == Some(hdr[b.hash])
      && (b.parent != null ==> hdr[b.hash].parent == b.parent.hash)
  }

  lemma {:induction false} UpIsAbove(b: Block, n: nat, nodes: set<Block>, hdr: map<BlockHash, NetworkBlock>)
    requires Ancestry(nodes) && Headers(nodes, hdr) && Ranks.Honest(hdr) && b in nodes
    ensures b.hash in hdr
    ensures Ranks.Above(hdr, b.hash, n) == if Up(b, n, nodes) == null then None else Some(Up(b, n, nodes).hash)
    decreases n
  {
    if n > 0 && b.parent != null {
      UpIsAbove(b.parent, n - 1, nodes, hdr);
    }
  }

  /** The bar that the update computes over the nodes is the bar of the ranks. */
  lemma {:induction false} HeapBarIsBar(tips: seq<Block>, hashes: seq<BlockHash>, discard: nat, nodes: set<Block>,
                                        hdr: map<BlockHash, NetworkBlock>, bar: Option<U32>)
    requires Ancestry(nodes) && Headers(nodes, hdr) && Ranks.Honest(hdr) && |hashes| == |tips|
    requires forall i | 0 <= i < |tips| :: tips[i] in nodes && hashes[i] == tips[i].hash
    requires IsBar(tips, discard, nodes, bar)
    ensures Ranks.Sound(Ranks.View(hdr, hashes)) && Ranks.Bar(Ranks.View(hdr, hashes), discard, |tips|) == bar
  {
    var v := Ranks.View(hdr, hashes);
    forall i | 0 <= i < |tips|
      ensures Ranks.Deep(v, i, discard).Some? <==> DeepRank(tips[i], discard, nodes).Some?
      ensures DeepRank(tips[i], discard, nodes).Some? ==>
                DeepRank(tips[i], discard, nodes).value == hdr[Ranks.Deep(v, i, discard).value].nextRank
    {
      UpIsAbove(tips[i], discard, nodes, hdr);
    }
  }

  /** The origin of the blocks agrees with what one chain holds. */
  ghost predicate Agrees(o: Origin, c: Chain)
    reads c`root, c.root`nb, c`kept
  {
    && c.w.genesis in o.genesis && c.root.nb.Some? && c.root.nb.value.timeMined == o.mined(c.w.genesis)
    && forall h | h in c.kept ::
         h !in o.genesis && o.par(h) == c.w.par(h) && o.mined(h) == c.kept[h].nb.timeMined
  }

  /** The nodes of a search tree by hash. */
  ghost function ByHash(s: Shape): map<BlockHash, Block> {
    match s
    case Nil => map[]
    case Bin(l, b, r) => (ByHash(l) + ByHash(r))[b.hash := b]
  }

  lemma {:induction false} TreeIsNamed(s: Shape)
    requires Ordered(s)
    ensures Named(Nodes(s), ByHash(s)) && ByHash(s).Keys == Hashes(s)
  {
    match s
    case Nil =>
    case Bin(l, b, r) =>
      PartsOrdered(s);
      hide Ordered, Nodes, Hashes, Ancestry, Known;
      TreeIsNamed(l);
      TreeIsNamed(r);
      JoinNamed(Nodes(l), ByHash(l), Nodes(r), ByHash(r));
      OneMoreNamed(Nodes(l) + Nodes(r), ByHash(l) + ByHash(r), b);
      assert Nodes(s) == Nodes(l) + Nodes(r) + {b};
  }

  lemma OneMoreNamed(nodes: set<Block>, known: map<BlockHash, Block>, b: Block)
    requires Named(nodes, known) && b.hash !in known
    ensures Named(nodes + {b}, known[b.hash := b])
  {
  }

  /** Chains without a common hash can be stamped together. */
  lemma JoinNamed(a: set<Block>, ka: map<BlockHash, Block>, b: set<Block>, kb: map<BlockHash, Block>)
    requires Named(a, ka) && Named(b, kb) && ka.Keys !! kb.Keys
    ensures Named(a + b, ka + kb)
    ensures Ancestry(a) && Ancestry(b) ==> Ancestry(a + b)
    ensures forall o :: Known(o, a) && Known(o, b) ==> Known(o, a + b)
  {
  }

  /** The main tree of a chain, and its cached tip, meet all that the stamps rely on. */
  lemma MainTreeHasAncestry(c: Chain, o: Origin)
    requires c.Valid() && Agrees(o, c)
    ensures Ancestry(Nodes(c.main)) && c.deepest in Nodes(c.main)
    ensures Known(o, Nodes(c.main)) && Named(Nodes(c.main), ByHash(c.main))
  {
    var S := Nodes(c.main);
    assert c.Struct() && c.Canonical() && c.Stored() && c.Cached();
    TreeIsNamed(c.main);
    forall b | b in S
      ensures b.nb.Some? && b.nb.value.depth == c.w.dep(b.hash) && b.nb.value.timeMined == o.mined(b.hash)
      ensures b.parent == null <==> b == c.root
      ensures b.parent == null <==> b.hash in o.genesis
    {
      RootHasNoParentInside(S, c.root, c.w, b);
      assert PaidFor(b, c.kept, c.w);
      HashOfNode(c.main, b);
      CanonTrees(c.w, c.kept.Keys, b.hash);
      if b.hash == c.root.hash { OneHashOneNode(c.main, b, c.root); }
    }
    forall b | b in S && b != c.root
      ensures b.parent in S && b.parent.nb.Some? && b.parent.nb.value.depth + 1 == b.nb.value.depth
      ensures o.par(b.hash) == b.parent.hash
    {
      assert Attached(b, S, c.w);
      HashOfNode(c.main, b);
      CanonTrees(c.w, c.kept.Keys, b.hash);
    }
  }

  /** The blocks in the main trees of a node, and their names. */
  ghost function MainNodes(cs: seq<Chain>): set<Block>
    reads cs`main
  {
    if cs == [] then {} else MainNodes(cs[..|cs| - 1]) + Nodes(cs[|cs| - 1].main)
  }

  ghost function MainByHash(cs: seq<Chain>): map<BlockHash, Block>
    reads cs`main
  {
    if cs == [] then map[] else MainByHash(cs[..|cs| - 1]) + ByHash(cs[|cs| - 1].main)
  }

  lemma {:induction false} NamedByMains(cs: seq<Chain>, h: BlockHash)
    ensures h in MainByHash(cs) ==> exists i :: 0 <= i < |cs| && h in ByHash(cs[i].main)
  {
    if cs != [] {
      NamedByMains(cs[..|cs| - 1], h);
    }
  }

  lemma {:induction false} InMainNodes(cs: seq<Chain>, b: Block)
    ensures b in MainNodes(cs) <==> exists i :: 0 <= i < |cs| && b in Nodes(cs[i].main)
  {
    if cs != [] {
      var before := cs[..|cs| - 1];
      InMainNodes(before, b);
      if i :| 0 <= i < |before| && b in Nodes(before[i].main) {
        assert b in Nodes(cs[i].main);
      }
    }
  }

  lemma {:induction false} MainPart(cs: seq<Chain>, i: nat)
    requires i < |cs|
    ensures Nodes(cs[i].main) <= MainNodes(cs)
  {
    if i < |cs| - 1 {
      MainPart(cs[..|cs| - 1], i);
    }
  }

  lemma OneMain(c: Chain, o: Origin)
    requires c.Valid() && Agrees(o, c)
    ensures Ancestry(Nodes(c.main)) && Known(o, Nodes(c.main)) && Named(Nodes(c.main), ByHash(c.main))
    ensures ByHash(c.main).Keys == Hashes(c.main)
  {
    hide *;
    MainTreeHasAncestry(c, o);
    c.ValidParts();
    c.MainIsSearchTree();
    TreeIsNamed(c.main);
  }

  lemma MainsSplit(cs: seq<Chain>)
    requires cs != []
    ensures MainNodes(cs) == MainNodes(cs[..|cs| - 1]) + Nodes(cs[|cs| - 1].main)
    ensures MainByHash(cs) == MainByHash(cs[..|cs| - 1]) + ByHash(cs[|cs| - 1].main)
  {
  }

  lemma NoMains(o: Origin)
    ensures Ancestry(MainNodes([])) && Known(o, MainNodes([])) && Named(MainNodes([]), MainByHash([]))
  {
  }

  lemma JoinKnown(o: Origin, a: set<Block>, b: set<Block>)
    requires Known(o, a) && Known(o, b)
    ensures Known(o, a + b)
  {
  }

  /** The main trees of all chains meet what the stamps rely on. */
  lemma {:induction false} MainsAreNamed(cs: seq<Chain>, o: Origin)
    requires forall i | 0 <= i < |cs| :: cs[i].Valid() && Agrees(o, cs[i])
    requires forall i, j | 0 <= i < j < |cs| :: Hashes(cs[i].main) !! Hashes(cs[j].main)
    ensures Ancestry(MainNodes(cs)) && Known(o, MainNodes(cs)) && Named(MainNodes(cs), MainByHash(cs))
  {
    hide *;
    if cs == [] {
      NoMains(o);
    } else {
      var n := |cs| - 1;
      var before, c := cs[..n], cs[n];
      MainsSplit(cs);
      MainsAreNamed(before, o);
      OneMain(c, o);
      forall h | h in MainByHash(before) ensures h !in ByHash(c.main) {
        NamedByMains(before, h);
        var i :| 0 <= i < |before| && h in ByHash(before[i].main);
        OneMain(cs[i], o);
        assert Hashes(cs[i].main) !! Hashes(cs[n].main);
      }
      JoinNamed(MainNodes(before), MainByHash(before), Nodes(c.main), ByHash(c.main));
      JoinKnown(o, MainNodes(before), Nodes(c.main));
    }
  }

  ghost function PartialStamps(known: map<BlockHash, Block>, nodes: set<Block>): map<BlockHash, U64>
    reads nodes`timePartial
  {
    map h | h in known && known[h] in nodes && known[h].timePartial != 0 :: known[h].timePartial
  }

  ghost function CommittedStamps(known: map<BlockHash, Block>, nodes: set<Block>): map<BlockHash, U64>
    reads nodes`timeCommitted
  {
    map h | h in known && known[h] in nodes && known[h].timeCommitted != 0 :: known[h].timeCommitted
  }

  /** More nodes without stamps leave the stamps as they are. */
  lemma SameStamps(nodes: set<Block>, known: map<BlockHash, Block>, nodes': set<Block>, known': map<BlockHash, Block>)
    requires Named(nodes, known) && Named(nodes', known') && nodes <= nodes' && Unstamped(nodes' - nodes)
    ensures PartialStamps(known', nodes') == PartialStamps(known, nodes)
    ensures CommittedStamps(known', nodes') == CommittedStamps(known, nodes)
  {
    forall h | h in known' ensures if h in known then known'[h] == known[h] else known'[h] in nodes' - nodes {
      if h in known { assert known[h] in nodes'; }
    }
    assert forall h | h in known :: h in known' by {
      forall h | h in known ensures h in known' { assert known[h] in nodes'; }
    }
  }

  class Confirmations {
    var partiallyTotal: nat
    var partiallyLatency: nat
    var committedTotal: nat
    var committedLatency: nat
    ghost var nodes: set<Block>
    ghost var known: map<BlockHash, Block>
    ghost const o: Origin

    ghost predicate Valid()
      reads `nodes, `known, nodes`nb, nodes`parent
    {
      Ancestry(nodes) && Named(nodes, known) && Known(o, nodes)
    }

    ghost function Partial(): Book
      reads `nodes, `known, `partiallyTotal, `partiallyLatency, nodes`timePartial
    {
      Book(PartialStamps(known, nodes), partiallyTotal, partiallyLatency)
    }

    ghost function Committed(): Book
      reads `nodes, `known, `committedTotal, `committedLatency, nodes`timeCommitted
    {
      Book(CommittedStamps(known, nodes), committedTotal, committedLatency)
    }

    /** The genesis blocks are stamped when the chains are made. */
    constructor (ghost nodes: set<Block>, ghost known: map<BlockHash, Block>, ghost o: Origin)
      requires Ancestry(nodes) && Named(nodes, known) && Known(o, nodes) && known.Keys == o.genesis
      requires forall b | b in nodes :: b.timePartial == b.timeCommitted == 1
      ensures Valid() && Ledger(Partial(), Committed()) == Initial(o)
      ensures this.nodes == nodes && this.known == known && this.o == o
    {
      hide Ancestry, Known;
      partiallyTotal, partiallyLatency, committedTotal, committedLatency := 0, 0, 0, 0;
      this.nodes, this.known, this.o := nodes, known, o;
    }

    /** The chains have grown: what joined the main trees since the last time has no stamps yet. */
    ghost method Follow(cs: seq<Chain>)
      requires Named(nodes, known) && (forall i | 0 <= i < |cs| :: cs[i].Valid() && Agrees(o, cs[i]))
      requires forall i, j | 0 <= i < j < |cs| :: Hashes(cs[i].main) !! Hashes(cs[j].main)
      requires nodes <= MainNodes(cs) && Unstamped(MainNodes(cs) - nodes)
      modifies `nodes, `known
      ensures Valid() && nodes == MainNodes(cs)
      ensures Partial() == old(Partial()) && Committed() == old(Committed())
    {
      hide Ancestry, Known, MainNodes, MainByHash, Agrees, Named, PartialStamps, CommittedStamps, Unstamped;
      MainsAreNamed(cs, o);
      SameStamps(nodes, known, MainNodes(cs), MainByHash(cs));
      nodes, known := MainNodes(cs), MainByHash(cs);
    }

    /** Walks up from a block of the tree. */
    method Discard(tip: Block, discard: nat) returns (t: Block?)
      requires Valid() && tip in nodes
      ensures t == Up(tip, discard, nodes) && (t == null || t in nodes)
    {
      t := tip;
      var count := 0;
      while t != null && count < discard
        invariant count <= discard && (t == null || t in nodes)
        invariant Up(t, discard - count, nodes) == Up(tip, discard, nodes)
        decreases discard - count
      {
        count := count + 1;
        t := t.parent;
      }
    }

    lemma Facts(t: Block)
      requires Valid() && t in nodes
      ensures t.hash in known && known[t.hash] == t && forall h | h in known && known[h] == t :: h == t.hash
      ensures t.nb.Some? && t.nb.value.timeMined == o.mined(t.hash)
    {
    }

    method StampPartial(t: Block, now: U64)
      requires Valid() && t in nodes
      modifies `partiallyTotal, `partiallyLatency, t`timePartial
      ensures Valid() && Partial() == StampOne(o, old(Partial()), t.hash, now)
    {
      hide Known, Ancestry;
      Facts(t);
      if t.timePartial == 0 && now > t.nb.value.timeMined {
        t.timePartial := now;
        partiallyTotal := partiallyTotal + 1;
        partiallyLatency := partiallyLatency + (t.timePartial - t.nb.value.timeMined);
      }
    }

    method StampCommitted(t: Block, now: U64)
      requires Valid() && t in nodes
      modifies `committedTotal, `committedLatency, t`timeCommitted
      ensures Valid() && Committed() == StampOne(o, old(Committed()), t.hash, now)
    {
      hide Known, Ancestry;
      Facts(t);
      if t.timeCommitted == 0 && now > t.nb.value.timeMined {
        t.timeCommitted := now;
        committedTotal := committedTotal + 1;
        committedLatency := committedLatency + (t.timeCommitted - t.nb.value.timeMined);
      }
    }

    lemma LineStep(t: Block, b: Book, now: U64)
      requires Valid() && t in nodes
      ensures Ancestry(nodes) && (t.parent == null || t.parent in nodes)
      ensures Line(t, nodes) == [t.hash] + Line(t.parent, nodes)
      ensures StampLine(o, b, Line(t, nodes), now) ==
              StampLine(o, StampOne(o, b, t.hash, now), Line(t.parent, nodes), now)
    {
    }

    lemma LineEnd(b: Book, now: U64)
      requires Valid()
      ensures Ancestry(nodes) && StampLine(o, b, Line(null, nodes), now) == b
    {
    }

    method PartialLine(from: Block?, now: U64)
      requires Valid() && (from == null || from in nodes)
      modifies `partiallyTotal, `partiallyLatency, nodes`timePartial
      ensures Valid() && Partial() == StampLine(o, old(Partial()), Line(from, nodes), now)
    {
      hide Known, Named, Ancestry, Partial, Committed, Line, StampLine, StampOne;
      var t := from;
      while t != null
        invariant Valid() && (t == null || t in nodes)
        invariant StampLine(o, Partial(), Line(t, nodes), now) ==
                  StampLine(o, old(Partial()), Line(from, nodes), now)
        decreases |Line(t, nodes)|
      {
        LineStep(t, Partial(), now);
        StampPartial(t, now);
        t := t.parent;
      }
      LineEnd(Partial(), now);
    }

    method CommittedLine(from: Block?, now: U64)
      requires Valid() && (from == null || from in nodes)
      modifies `committedTotal, `committedLatency, nodes`timeCommitted
      ensures Valid() && Committed() == StampLine(o, old(Committed()), Line(from, nodes), now)
    {
      hide Known, Named, Ancestry, Partial, Committed, Line, StampLine, StampOne;
      var t := from;
      while t != null
        invariant Valid() && (t == null || t in nodes)
        invariant StampLine(o, Committed(), Line(t, nodes), now) ==
                  StampLine(o, old(Committed()), Line(from, nodes), now)
        decreases |Line(t, nodes)|
      {
        LineStep(t, Committed(), now);
        StampCommitted(t, now);
        t := t.parent;
      }
      LineEnd(Committed(), now);
    }

    /** The confirm bar; a missing deep block stops the search. */
    method ConfirmBar(tips: seq<Block>, discard: nat) returns (bar: Option<U32>)
      requires Valid() && forall i | 0 <= i < |tips| :: tips[i] in nodes
      ensures IsBar(tips, discard, nodes, bar)
    {
      hide Known, Named, Ancestry, DeepRank, Up;
      var least: U32 := TWO32 - 1;
      for i := 0 to |tips|
        invariant forall k | 0 <= k < i ::
                    DeepRank(tips[k], discard, nodes).Some? && least <= DeepRank(tips[k], discard, nodes).value
        invariant least < TWO32 - 1 ==> exists k :: 0 <= k < i && DeepRank(tips[k], discard, nodes) == Some(least)
      {
        var t := Discard(tips[i], discard);
        RankOf(tips[i], discard);
        if t == null {
          return None;
        }
        if t.nb.value.nextRank < least {
          least := t.nb.value.nextRank;
        }
      }
      bar := Some(least);
    }

    lemma RankOf(tip: Block, discard: nat)
      requires Valid() && tip in nodes
      ensures var t := Up(tip, discard, nodes);
              && (t == null <==> DeepRank(tip, discard, nodes) == None)
              && (t != null ==> t.nb.Some? && DeepRank(tip, discard, nodes) == Some(t.nb.value.nextRank))
    {
    }

    method PartialLines(tips: seq<Block>, discard: nat, now: U64)
      requires Valid() && forall i | 0 <= i < |tips| :: tips[i] in nodes
      modifies `partiallyTotal, `partiallyLatency, nodes`timePartial
      ensures Valid() && Partial() == StampLines(o, old(Partial()), DeepLines(tips, discard, nodes), now)
    {
      hide Known, Named, Ancestry, Partial, Up, Line, StampLine, StampLines, DeepLines;
      NoLines(Partial(), discard, now);
      for i := 0 to |tips|
        invariant Valid() && Partial() == StampLines(o, old(Partial()), DeepLines(tips[..i], discard, nodes), now)
      {
        NextLine(old(Partial()), tips, discard, now, i);
        var t := Discard(tips[i], discard);
        if t != null {
          PartialLine(t, now);
        }
      }
      assert tips[..|tips|] == tips;
    }

    method CommittedLines(tips: seq<Block>, discard: nat, now: U64)
      requires Valid() && forall i | 0 <= i < |tips| :: tips[i] in nodes
      modifies `committedTotal, `committedLatency, nodes`timeCommitted
      ensures Valid() && Committed() == StampLines(o, old(Committed()), DeepLines(tips, discard, nodes), now)
    {
      hide Known, Named, Ancestry, Committed, Up, Line, StampLine, StampLines, DeepLines;
      NoLines(Committed(), discard, now);
      for i := 0 to |tips|
        invariant Valid() && Committed() == StampLines(o, old(Committed()), DeepLines(tips[..i], discard, nodes), now)
      {
        NextLine(old(Committed()), tips, discard, now, i);
        var t := Discard(tips[i], discard);
        if t != null {
          CommittedLine(t, now);
        }
      }
      assert tips[..|tips|] == tips;
    }

    lemma NoLines(b: Book, discard: nat, now: U64)
      requires Valid()
      ensures StampLines(o, b, DeepLines([], discard, nodes), now) == b
    {
    }

    lemma NextLine(b: Book, tips: seq<Block>, discard: nat, now: U64, i: nat)
      requires Valid() && (forall i | 0 <= i < |tips| :: tips[i] in nodes) && i < |tips|
      ensures var t := Up(tips[i], discard, nodes);
              var before := StampLines(o, b, DeepLines(tips[..i], discard, nodes), now);
              StampLines(o, b, DeepLines(tips[..i + 1], discard, nodes), now) ==
              if t == null then before else StampLine(o, before, Line(t, nodes), now)
    {
      var lines := DeepLines(tips[..i + 1], discard, nodes);
      assert tips[..i + 1][..i] == tips[..i];
      assert lines[..i] == DeepLines(tips[..i], discard, nodes);
    }

    /** One update of all stamps. The loop over the blocks to commit does not look at the bar. */
    method UpdateCommittedTimes(tips: seq<Block>, discard: nat, now: U64) returns (bar: Option<U32>)
      requires Valid() && forall i | 0 <= i < |tips| :: tips[i] in nodes
      modifies `partiallyTotal, `partiallyLatency, `committedTotal, `committedLatency
      modifies nodes`timePartial, nodes`timeCommitted
      ensures Valid() && IsBar(tips, discard, nodes, bar)
      ensures Ledger(Partial(), Committed()) ==
              Update(o, old(Ledger(Partial(), Committed())), DeepLines(tips, discard, nodes), now)
    {
      hide Known, Named, Ancestry, Partial, Committed, IsBar, Up, Line, StampLines, DeepLines;
      PartialLines(tips, discard, now);
      bar := ConfirmBar(tips, discard);
      BarOrShallow(tips, discard, bar);
      if bar != None {
        CommittedLines(tips, discard, now);
      }
    }

    lemma BarOrShallow(tips: seq<Block>, discard: nat, bar: Option<U32>)
      requires Valid() && (forall i | 0 <= i < |tips| :: tips[i] in nodes) && IsBar(tips, discard, nodes, bar)
      ensures bar == None <==> !AllDeep(DeepLines(tips, discard, nodes))
    {
    }
  }
}
