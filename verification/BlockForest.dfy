/**
 * One chain of the blockchain: the main tree, the linked list of incomplete trees and the cached
 * deepest block, updated in place as blocks arrive in any order, are mined, or expire.
 */
module BlockForest {
  import opened Types
  import opened ForestSpec
  import opened BlockTree
  import opened Genealogy
  import opened TreeOps
  import opened ForestView
  import opened AskSchedule
  import opened AskBook

  /** What is stored with a received block. */
  datatype Payload = Payload(nb: NetworkBlock, weakBlocks: seq<BlockHash>)

  /** A list cell: the root `b` of the tree is the block that is missing. */
  class Incomplete {
    var b: Block
    var next: Incomplete?
    var lastAsked: U64
    var noAsks: U32

    constructor (b: Block)
      ensures this.b == b && next == null && lastAsked == 0 && noAsks == 0
    {
      this.b := b;
      next, lastAsked, noAsks := null, 0, 0;
    }
  }

  /** The node holds what was stored for its hash; a block not received yet has nothing. */
  ghost predicate PaidFor(b: Block, kept: map<BlockHash, Payload>, w: Lineage)
    reads b`nb, b`weakBlocks
  {
    if b.hash in kept then b.nb == Some(kept[b.hash].nb) && b.weakBlocks == kept[b.hash].weakBlocks
    else if b.hash == w.genesis then b.nb.Some? && b.nb.value.depth == 0
    else b.nb == None
  }

  /** What holds of nodes and stored data before a step, whatever the step does to the links. */
  ghost predicate Settled(before: set<Block>, kept: map<BlockHash, Payload>, w: Lineage)
    reads before`nb, before`weakBlocks
  {
    && AllGenuine(w, kept.Keys) && w.genesis !in kept && w.dep(w.genesis) == 0
    && OneNodePerHash(before)
    && (forall h | h in kept :: kept[h].nb.depth == w.dep(h))
    && (forall b | b in before :: PaidFor(b, kept, w))
    && (forall b | b in before :: b.hash in kept || b.hash == w.genesis || b.hash in Canon(w, kept.Keys).inc)
  }

  ghost predicate Linked(l: Incomplete?, q: seq<Incomplete>)
    reads q`next
  {
    && l == (if q == [] then null else q[0])
    && (forall i {:trigger q[i].next} | 0 <= i < |q| :: q[i].next == (if i + 1 < |q| then q[i + 1] else null))
    && (forall i, j | 0 <= i < j < |q| :: q[i] != q[j])
  }

  lemma LinkedTail(q: seq<Incomplete>, i: nat)
    requires q != [] && Linked(q[0], q) && i < |q|
    ensures q[i].next == if i + 1 < |q| then q[i + 1] else null
  {
  }

  ghost function Cells(q: seq<Incomplete>): set<Incomplete> {
    set c | c in q
  }

  lemma CellsWithout(q: seq<Incomplete>, k: nat)
    requires k < |q|
    ensures forall c | c in Without(q, k) :: c in q
  {
  }

  /** `f` is what is left of `g` after some of its incomplete trees are given up. */
  ghost predicate Remains(f: Forest, g: Forest) {
    f.main == g.main && forall r | r in f.inc :: r in g.inc && f.inc[r] == g.inc[r]
  }

  lemma RemainsAfter(f: Forest, g: Forest, h: Forest)
    requires Remains(f, g) && Remains(g, h)
    ensures Remains(f, h)
  {
  }

  /** What remains is determined by the roots that remain. */
  lemma Restricted(f: Forest, g: Forest, asks: Counters)
    requires Remains(f, g) && asks.Keys == f.inc.Keys
    ensures f == g.(inc := map r | r in g.inc && r in asks :: g.inc[r])
  {
    assert f.inc == map r | r in g.inc && r in asks :: g.inc[r];
  }

  /** Some stored blocks are given up; the others keep their data. */
  ghost predicate Fewer(a: map<BlockHash, Payload>, b: map<BlockHash, Payload>) {
    forall h | h in a :: h in b && a[h] == b[h]
  }

  lemma FewerAfter(a: map<BlockHash, Payload>, b: map<BlockHash, Payload>, c: map<BlockHash, Payload>)
    ensures Fewer(a, a)
    ensures Fewer(a, b) && Fewer(b, c) ==> Fewer(a, c)
  {
  }

  lemma RemainsSelf(f: Forest)
    ensures Remains(f, f)
  {
  }

  /** The list as the ask schedule sees it. */
  ghost function Entries(q: seq<Incomplete>): (s: seq<Entry>)
    reads q`b, q`lastAsked, q`noAsks
    ensures |s| == |q|
  {
    if q == [] then [] else
      var c := q[|q| - 1];
      Entries(q[..|q| - 1]) + [Entry(c.b.hash, c.lastAsked, c.noAsks)]
  }

  lemma {:induction false} EntriesAt(q: seq<Incomplete>, i: nat)
    requires i < |q|
    ensures Entries(q)[i] == Entry(q[i].b.hash, q[i].lastAsked, q[i].noAsks)
  {
    if i < |q| - 1 {
      EntriesAt(q[..|q| - 1], i);
    }
  }

  lemma EntriesAhead(q: seq<Incomplete>)
    ensures forall j | 0 <= j < |q| :: Entries(q)[j] == Entry(q[j].b.hash, q[j].lastAsked, q[j].noAsks)
    ensures Entries([]) == []
  {
    forall j | 0 <= j < |q| ensures Entries(q)[j] == Entry(q[j].b.hash, q[j].lastAsked, q[j].noAsks) {
      EntriesAt(q, j);
    }
  }

  lemma EntriesSnoc(q: seq<Incomplete>, c: Incomplete)
    ensures Entries(q + [c]) == Entries(q) + [Entry(c.b.hash, c.lastAsked, c.noAsks)]
  {
    assert (q + [c])[..|q|] == q;
  }

  lemma EntriesWithout(q: seq<Incomplete>, k: nat)
    requires k < |q|
    ensures Entries(Without(q, k)) == Without(Entries(q), k)
  {
    hide Entries;
    var p, es := Without(q, k), Entries(q);
    EntriesAhead(q);
    EntriesAhead(p);
    forall i | 0 <= i < |p| ensures Entries(p)[i] == Without(es, k)[i] {
      var j := if i < k then i else i + 1;
      assert p[i] == q[j] && Without(es, k)[i] == es[j];
    }
  }

  /** A new cell at the end of the list, for a block that is missing from now on. */
  lemma AsksStarted(q: seq<Incomplete>, c: Incomplete, f: Forest, h: BlockHash)
    requires CountersOf(Entries(q)).Keys == f.inc.Keys && c.b.hash !in f.inc && c.lastAsked == 0 && c.noAsks == 0
    ensures CountersOf(Entries(q + [c])) == Carried(CountersOf(Entries(q)), Start(f, c.b.hash, h).inc.Keys)
  {
    EntriesSnoc(q, c);
    CarriedPush(Entries(q), c.b.hash);
  }

  lemma AsksDropped(q: seq<Incomplete>, k: nat, f: Forest)
    requires DistinctRoots(Entries(q)) && CountersOf(Entries(q)).Keys == f.inc.Keys && k < |q|
    ensures CountersOf(Entries(Without(q, k))) ==
            Carried(CountersOf(Entries(q)), f.inc.Keys - {q[k].b.hash})
  {
    EntriesWithout(q, k);
    EntriesAt(q, k);
    CarriedDrop(Entries(q), k);
  }

  lemma WithoutMiddle<T>(a: seq<T>, x: T, b: seq<T>)
    ensures Without(a + [x] + b, |a|) == a + b
  {
  }

  lemma PollNone(now: U64, each: U32, limit: U32)
    ensures Poll([], now, each, limit) == [] && Asked([], now, each, limit) == []
  {
  }

  /** Unlinks one cell of the list. */
  method RemoveOneChain(l: Incomplete?, x: Incomplete, ghost q: seq<Incomplete>, ghost k: nat)
    returns (l': Incomplete?)
    requires Linked(l, q) && k < |q| && q[k] == x
    modifies q`next
    ensures Linked(l', Without(q, k))
  {
    ghost var q' := Without(q, k);
    if l == x {
      assert k == 0;
      l' := l.next;
    } else {
      var t := l;
      ghost var i := 0;
      while t.next != x
        invariant 0 <= i < k && t == q[i]
        decreases k - i
      {
        assert q[i].next == q[i + 1];
        t := t.next;
        i := i + 1;
      }
      assert q[i].next == q[i + 1];
      assert q[k].next == if k + 1 < |q| then q[k + 1] else null;
      t.next := t.next.next;
      l' := l;
    }
  }

  class Chain {
    ghost const w: Lineage
    var root: Block
    var inchains: Incomplete?
    var deepest: Block

    ghost var main: Shape
    ghost var list: seq<Incomplete>
    ghost var trees: seq<TreeView>
    /** Every node of every tree, and what was stored with each block that is still held. */
    ghost var blocks: set<Block>
    ghost var kept: map<BlockHash, Payload>

    // ---------------------------------------------------------------- invariant

    ghost predicate Listed()
      reads `inchains, `list, `trees, list`next, list`b
    {
      && Linked(inchains, list) && |list| == |trees|
      && forall i | 0 <= i < |list| :: list[i].b == trees[i].root
    }

    ghost predicate Grown()
      reads `root, `main, `trees, `blocks
      reads blocks`left, blocks`right, blocks`parent, blocks`child, blocks`sibling, blocks`kids
    {
      && Nodes(main) <= blocks && TreeOK(TreeView(root, main), w)
      && forall t | t in trees :: Nodes(t.shape) <= blocks && TreeOK(t, w)
    }

    /** The main tree and every tree of `ts` but the `i`-th are well formed, with nodes in `bs`. */
    ghost predicate GrownBut(ts: seq<TreeView>, i: nat, bs: set<Block>)
      reads `root, `main, bs`left, bs`right, bs`parent, bs`child, bs`sibling, bs`kids
    {
      && Nodes(main) <= bs && TreeOK(TreeView(root, main), w)
      && forall k | 0 <= k < |ts| && k != i :: Nodes(ts[k].shape) <= bs && TreeOK(ts[k], w)
    }

    lemma GrownAll()
      requires Struct()
      ensures GrownBut(trees, |trees|, blocks)
    {
      hide TreeOK;
    }

    lemma GrownWithout(before: seq<TreeView>, i: nat)
      requires i < |before| && trees == Without(before, i) && GrownBut(before, i, blocks)
      ensures Grown()
    {
      hide TreeOK;
      forall t | t in trees ensures Nodes(t.shape) <= blocks && TreeOK(t, w) {
        WithoutMembers(before, i, t);
      }
    }

    lemma GrownPlus(before: seq<TreeView>, bs: set<Block>, t: TreeView)
      requires GrownBut(before, |before|, bs) && bs <= blocks && trees == before + [t]
      requires TreeOK(t, w) && Nodes(t.shape) <= blocks
      ensures Grown()
    {
      hide TreeOK;
    }

    lemma GrownWith(before: seq<TreeView>, i: nat, bs: set<Block>, t: TreeView)
      requires i < |before| && GrownBut(before, i, bs) && bs <= blocks && trees == before[i := t]
      requires TreeOK(t, w) && Nodes(t.shape) <= blocks
      ensures Grown()
    {
      hide TreeOK;
    }

    /** The heap is well formed, whatever hashes it holds. */
    ghost predicate Struct()
      reads `root, `inchains, `main, `list, `trees, `blocks, list`next, list`b
      reads blocks`left, blocks`right, blocks`parent, blocks`child, blocks`sibling, blocks`kids
    {
      Listed() && Grown() && Apart(main, trees)
    }

    /** The trees are the canonical forest over the blocks that are held. */
    ghost predicate Canonical()
      reads `root, `main, `trees, `kept
    {
      && AllGenuine(w, kept.Keys) && w.genesis !in kept && w.dep(w.genesis) == 0
      && root.hash == w.genesis
      && Matches(main, trees, Canon(w, kept.Keys))
      && forall h | h in kept :: kept[h].nb.depth == w.dep(h)
    }

    /** Every node is known by its hash, and holds what was stored for it. */
    ghost predicate Stored()
      reads `blocks, `kept, blocks`nb, blocks`weakBlocks
    {
      && OneNodePerHash(blocks)
      && (forall b | b in blocks :: PaidFor(b, kept, w))
      && AllGenuine(w, kept.Keys)
      && (forall b | b in blocks :: b.hash in kept || b.hash == w.genesis || b.hash in Canon(w, kept.Keys).inc)
    }

    /** The cache points at a block of the main tree that no other block exceeds in depth. */
    ghost predicate Cached()
      reads `deepest, `main
    {
      && deepest in Nodes(main)
      && forall b | b in Nodes(main) :: w.dep(b.hash) <= w.dep(deepest.hash)
    }

    /** The heap spells out `f`; blocks made since `before` are new to the chain and still empty. */
    ghost predicate Reshaped(f: Forest, before: set<Block>, h: BlockHash)
      reads `root, `inchains, `main, `list, `trees, `blocks, list`next, list`b
      reads blocks`left, blocks`right, blocks`parent, blocks`child, blocks`sibling, blocks`kids
      reads blocks`nb, blocks`timePartial, blocks`timeCommitted
    {
      && Listed() && Grown() && Matches(main, trees, f)
      && before <= blocks
      && OneNodePerHash(blocks)
      && forall b | b in blocks - before :: Blank(b) && (b.hash == h || b.hash in f.inc)
    }

    /** `hash` names no node of the chain. */
    ghost predicate Unheard(hash: BlockHash)
      reads `main, `trees
    {
      hash !in Hashes(main) && forall t | t in trees :: hash !in Hashes(t.shape)
    }

    ghost predicate Valid()
      reads this, list`next, list`b, blocks
    {
      Struct() && Canonical() && Stored() && Cached()
    }

    /** The forest of hash sets that the heap spells out. */
    ghost function Forest(): Forest
      reads `kept
    {
      if AllGenuine(w, kept.Keys) then Canon(w, kept.Keys) else Boot(w)
    }

    /** When each missing block was last asked for, and how often. */
    ghost function Asks(): Counters
      reads `list, list`b, list`lastAsked, list`noAsks
    {
      CountersOf(Entries(list))
    }

    ghost function Book(): State
      reads `kept, `list, list`b, list`lastAsked, list`noAsks
    {
      State(kept.Keys, Asks())
    }

    /** The missing blocks of `f`; those missing before kept their counters. */
    ghost predicate AsksCarried(f: Forest, before: Counters)
      reads `list, list`b, list`lastAsked, list`noAsks
    {
      Asks() == Carried(before, f.inc.Keys)
    }

    /** `cell` is the `k`-th cell of the list, with its tree. */
    ghost predicate At(k: nat, cell: Incomplete)
      reads `list, `trees
    {
      k < |list| && cell == list[k] && k < |trees|
    }

    constructor (initial: BlockHash, nb: NetworkBlock, ghost w: Lineage)
      requires w.genesis == initial && w.dep(initial) == 0 && nb.depth == 0
      ensures Valid() && this.w == w && kept == map[] && fresh(blocks) && list == []
      ensures deepest == root && root.hash == initial && root.timePartial == root.timeCommitted == 1
    {
      var r := BootstrapChain(initial, w);
      hide *;
      r.nb := Some(nb);
      r.timePartial, r.timeCommitted := 1, 1;
      this.w := w;
      root, inchains, deepest := r, null, r;
      main, list, trees := Bin(Nil, r, Nil), [], [];
      blocks, kept := {r}, map[];
      new;
      OneNodeIsValid();
    }

    /** A chain with genesis alone. */
    lemma OneNodeIsValid()
      requires TreeOK(TreeView(root, main), w) && main == Bin(Nil, root, Nil) && deepest == root
      requires inchains == null && list == [] && trees == [] && blocks == {root} && kept == map[]
      requires root.hash == w.genesis && w.dep(w.genesis) == 0 && root.nb.Some? && root.nb.value.depth == 0
      ensures Valid()
    {
      hide TreeOK;
      SingleShape(root);
      assert Canon(w, {}).inc == map[];
      assert Canon(w, {}).main == {w.genesis};
    }

    // ---------------------------------------------------------------- lookups

    /** The list cell whose missing block is `hash`. */
    method IsIncompleteHash(hash: BlockHash) returns (c: Incomplete?, ghost k: nat)
      requires Listed()
      ensures c == null <==> forall t | t in trees :: t.root.hash != hash
      ensures c != null ==> k < |list| && list[k] == c && trees[k].root.hash == hash
    {
      c := inchains;
      k := 0;
      while c != null && c.b.hash != hash
        invariant 0 <= k <= |list| && c == (if k < |list| then list[k] else null)
        invariant forall i | 0 <= i < k :: trees[i].root.hash != hash
        decreases |list| - k
      {
        LinkedTail(list, k);
        c := c.next;
        k := k + 1;
      }
    }

    /** `hash` is in some incomplete tree, below the parent `parent`: it was received before. */
    method IsInIncomplete(parent: BlockHash, hash: BlockHash) returns (found: bool)
      requires Listed() && Grown()
      ensures found <==>
                parent == w.par(hash) && exists t :: t in trees && hash in Hashes(t.shape) && t.root.hash != hash
    {
      hide TreeOK;
      var c := inchains;
      ghost var k := 0;
      while c != null
        invariant 0 <= k <= |list| && c == (if k < |list| then list[k] else null)
        invariant forall i | 0 <= i < k ::
                    hash in Hashes(trees[i].shape) && parent == w.par(hash) ==> trees[i].root.hash == hash
        decreases |list| - k
      {
        LinkedTail(list, k);
        assert trees[k] in trees;
        var b := FindInTree(c.b, hash, trees[k], w);
        if b != null && b.parent != null && b.parent.hash == parent {
          return true;
        }
        c := c.next;
        k := k + 1;
      }
      return false;
    }

    /** The node of `hash` in the first incomplete tree that holds it. */
    method FindIncompleteBlock(hash: BlockHash) returns (b: Block?)
      requires Listed() && Grown()
      ensures b == null <==> forall t | t in trees :: hash !in Hashes(t.shape)
      ensures b != null ==> b.hash == hash && exists t :: t in trees && b in Nodes(t.shape)
    {
      hide TreeOK;
      var c := inchains;
      ghost var k := 0;
      while c != null
        invariant 0 <= k <= |list| && c == (if k < |list| then list[k] else null)
        invariant forall i | 0 <= i < k :: hash !in Hashes(trees[i].shape)
        decreases |list| - k
      {
        LinkedTail(list, k);
        assert trees[k] in trees;
        b := FindInTree(c.b, hash, trees[k], w);
        if b != null {
          return;
        }
        c := c.next;
        k := k + 1;
      }
      b := null;
    }

    /** The size of the main tree, counted along the genealogy. */
    method NumberOfNodes() returns (n: nat)
      requires Valid()
      ensures n == |Nodes(main)| == |Forest().main|
    {
      hide Struct, Canonical, Stored, Cached, Nodes, Hashes, Forest;
      MainFacts();
      TreeIsOrdered(TreeView(root, main), w);
      WholeTree(Nodes(main), root, w);
      AsManyHashes(main);
      CanonMatches();
      n := FindNumberOfNodes(root, Nodes(main), Nodes(main), root, w);
    }

    // ---------------------------------------------------------------- the branches of a receive

    /** Takes the `k`-th cell out of the list; the tree is either grafted already or dropped. */
    method DropCell(cell: Incomplete, ghost k: nat)
      requires Listed() && k < |list| && cell == list[k]
      modifies this`inchains, this`list, this`trees, list`next
      ensures Listed()
      ensures trees == Without(old(trees), k) && list == Without(old(list), k)
    {
      inchains := RemoveOneChain(inchains, cell, list, k);
      list, trees := Without(list, k), Without(trees, k);
    }

    /** The parent is in the main tree and nothing waits for the block. */
    method GrowMain(parent: BlockHash, hash: BlockHash) returns (node: Block)
      requires Struct() && parent in Hashes(main) && hash !in Hashes(main)
      requires parent == w.par(hash) && Genuine(w, hash)
      modifies this`main, this`blocks, this`root
      modifies blocks`left, blocks`right, blocks`child, blocks`sibling, blocks`kids
      ensures Listed() && Grown()
      ensures fresh(node) && node.hash == hash && Blank(node) && Clan({node}, node, w)
      ensures main == InsertOne(old(main), node) && blocks == old(blocks) + {node} && root == old(root)
      ensures Hashes(main) == old(Hashes(main)) + {hash} && Nodes(main) == old(Nodes(main)) + {node}
    {
      hide TreeOK, Clan, Listed, Nodes, Hashes, Ordered, Search, InsertOne;
      ApartNodes(main, trees);
      TreeIsOrdered(TreeView(root, main), w);
      var ok, r, n := AddBlockByParentHash(root, main, Nodes(main), parent, hash, w);
      node := n;
      root := r;
      InsertOneNodes(main, node);
      main := InsertOne(main, node);
      blocks := blocks + {node};
    }

    /** The `k`-th incomplete tree moves below `parent`; its list cell is still there. */
    method MoveIntoMain(parent: Block, sub: Block, ghost k: nat)
      requires Struct() && k < |trees| && sub == trees[k].root
      requires parent in Nodes(main) && parent.hash == w.par(sub.hash) && Genuine(w, sub.hash)
      modifies this`main, this`root
      modifies blocks`left, blocks`right, blocks`parent, blocks`child, blocks`sibling, blocks`kids
      ensures root == old(root) && TreeOK(TreeView(root, main), w) && Nodes(main) <= blocks
      ensures forall i | 0 <= i < |trees| && i != k :: TreeOK(trees[i], w)
      ensures Hashes(main) == old(Hashes(main)) + Hashes(trees[k].shape)
      ensures Nodes(main) == old(Nodes(main)) + Nodes(trees[k].shape)
      ensures Clan(Nodes(trees[k].shape), sub, w)
    {
      hide TreeOK, Clan, Listed, Nodes, Hashes, Ordered, Search, InsertAll;
      ghost var t := trees[k];
      ApartNodes(main, trees);
      TreeIsOrdered(TreeView(root, main), w);
      TreeIsOrdered(t, w);
      InsertAllNodes(main, t.shape);
      root := Graft(root, main, sub, t.shape, parent, w);
      main := InsertAll(main, t.shape);
    }

    /** The parent is in the main tree and the block is the root of the `k`-th incomplete tree. */
    method GraftIntoMain(parent: Block, cell: Incomplete, ghost k: nat)
      requires Struct() && At(k, cell)
      requires parent in Nodes(main) && parent.hash == w.par(cell.b.hash) && Genuine(w, cell.b.hash)
      modifies this`main, this`root, this`inchains, this`list, this`trees, list`next
      modifies blocks`left, blocks`right, blocks`parent, blocks`child, blocks`sibling, blocks`kids
      ensures Listed() && Grown() && root == old(root)
      ensures Hashes(main) == old(Hashes(main)) + Hashes(old(trees)[k].shape)
      ensures Nodes(main) == old(Nodes(main)) + Nodes(old(trees)[k].shape)
      ensures Clan(Nodes(old(trees)[k].shape), cell.b, w)
      ensures trees == Without(old(trees), k) && list == Without(old(list), k)
    {
      hide TreeOK, Clan, Apart, Linked, Nodes, Hashes;
      ghost var before := trees;
      MoveIntoMain(parent, cell.b, k);
      forall t | t in Without(before, k) ensures Nodes(t.shape) <= blocks && TreeOK(t, w) {
        WithoutMembers(before, k, t);
      }
      DropCell(cell, k);
    }

    lemma UnheardIsNew(hash: BlockHash)
      requires Struct() && Canonical() && Stored() && Unheard(hash)
      ensures hash !in kept && hash != w.genesis && hash !in Forest().inc
      ensures forall b | b in blocks :: b.hash != hash
      ensures OneNodePerHash(blocks)
    {
      var f := Forest();
      forall r | r in f.inc ensures r != hash {
        var t :| t in trees && t.root.hash == r;
        TreeIsOrdered(t, w);
      }
      forall h | h in kept ensures h in Hashes(main) || exists t :: t in trees && h in Hashes(t.shape) {
        CanonTrees(w, kept.Keys, h);
        var q := Root(w, kept.Keys, h);
        assert q in f.inc ==> exists t :: t in trees && t.root.hash == q;
      }
      CanonTrees(w, kept.Keys, w.genesis);
    }

    /** A cell goes to the end of the list. */
    method PushCell(last: Incomplete?, cell: Incomplete, ghost s: Shape)
      requires Listed() && cell !in list && cell.next == null
      requires last == if list == [] then null else list[|list| - 1]
      modifies this`inchains, this`list, this`trees, list`next
      ensures Listed() && list == old(list) + [cell] && trees == old(trees) + [TreeView(cell.b, s)]
    {
      if last == null {
        inchains := cell;
      } else {
        last.next := cell;
      }
      list, trees := list + [cell], trees + [TreeView(cell.b, s)];
    }

    /** Neither the block nor its parent is known: a new incomplete tree with two nodes. */
    method StartIncomplete(last: Incomplete?, parent: BlockHash, hash: BlockHash)
      requires Struct() && Canonical() && Stored() && Unheard(parent) && Unheard(hash)
      requires parent == w.par(hash) && Genuine(w, hash)
      requires last == if list == [] then null else list[|list| - 1]
      modifies this`inchains, this`list, this`trees, this`blocks, list`next
      ensures Reshaped(Start(old(Forest()), parent, hash), old(blocks), hash)
      ensures fresh(blocks - old(blocks)) && AsksCarried(Start(old(Forest()), parent, hash), old(Asks()))
      ensures (forall c | c in list :: c in old(list) || fresh(c))
    {
      hide TreeOK, Canonical, Matches, Nodes, Hashes, Listed, Unheard, Canon, Stored, Forest, OneNodePerHash, Genuine;
      hide Grown, GrownBut, Apart, Entries, CountersOf, Carried, DistinctRoots, Start, Reshaped, AsksCarried, Linked;
      RootsAreKeys();
      UnheardIsNew(parent);
      UnheardIsNew(hash);
      CanonMatches();
      GrownAll();
      ghost var before, bs, f := trees, blocks, Forest();
      var bl, node, s := NewPair(parent, hash, w);
      var bi := new Incomplete(bl);
      MatchStart(main, trees, Forest(), TreeView(bl, s), hash);
      PushCell(last, bi, s);
      NewNode(blocks, bl);
      NewNode(blocks + {bl}, node);
      blocks := blocks + {bl} + {node};
      GrownPlus(before, bs, TreeView(bl, s));
      AsksStarted(old(list), bi, f, hash);
      AsksNow(Start(f, parent, hash), old(Asks()));
      ParentStarts(f, parent, hash);
      ReshapedByTwo(Start(f, parent, hash), bs, hash, bl, node);
    }

    lemma ParentStarts(f: Forest, parent: BlockHash, hash: BlockHash)
      ensures parent in Start(f, parent, hash).inc
    {
    }

    /** Two new nodes: the block and a missing parent. */
    lemma ReshapedByTwo(f: Forest, before: set<Block>, h: BlockHash, root': Block, node: Block)
      requires Listed() && Grown() && Matches(main, trees, f) && OneNodePerHash(blocks)
      requires blocks == before + {root'} + {node} && Blank(root') && Blank(node)
      requires root'.hash in f.inc && node.hash == h
      ensures Reshaped(f, before, h)
    {
      hide TreeOK, Matches, Listed, Grown;
    }

    /** Only the parent is known: the block joins the `k`-th incomplete tree. */
    method ExtendIncomplete(cell: Incomplete, ghost k: nat, parent: BlockHash, hash: BlockHash)
      requires Struct() && Canonical() && Stored() && Unheard(hash)
      requires At(k, cell) && parent in Hashes(trees[k].shape)
      requires parent == w.par(hash) && Genuine(w, hash)
      modifies cell`b, this`trees, this`blocks
      modifies blocks`left, blocks`right, blocks`child, blocks`sibling, blocks`kids
      ensures Reshaped(Extend(old(Forest()), old(cell.b.hash), hash), old(blocks), hash)
      ensures fresh(blocks - old(blocks)) && AsksCarried(Extend(old(Forest()), old(cell.b.hash), hash), old(Asks()))
    {
      hide *;
      AtFacts(k, cell);
      StructParts();
      RootsAreKeys();
      UnheardIsNew(hash);
      CanonMatches();
      UnheardInTree(hash, trees[k]);
      ghost var f, before, bs, es := Forest(), trees, blocks, Entries(list);
      EntriesAt(list, k);
      var r, node := ExtendTree(cell.b, k, parent, hash);
      ghost var t' := TreeView(r, InsertOne(trees[k].shape, node));
      MatchExtend(main, trees, f, k, t', hash);
      NewNode(blocks, node);
      Rehang(cell, k, r, t', node);
      AsksSameRoot(es, k, f, hash);
      ReshapedBy(Extend(f, before[k].root.hash, hash), bs, hash, node);
    }

    /** The `k`-th incomplete tree gains a node; the other trees do not change. */
    method ExtendTree(root': Block, ghost k: nat, parent: BlockHash, hash: BlockHash) returns (r: Block, node: Block)
      requires Grown() && Apart(main, trees) && k < |trees| && root' == trees[k].root
      requires hash !in Hashes(trees[k].shape) && parent in Hashes(trees[k].shape)
      requires parent == w.par(hash) && Genuine(w, hash)
      modifies blocks`left, blocks`right, blocks`child, blocks`sibling, blocks`kids
      ensures r == root' && fresh(node) && node.hash == hash && Blank(node)
      ensures var s' := InsertOne(trees[k].shape, node);
              && TreeOK(TreeView(r, s'), w)
              && Nodes(s') <= blocks + {node} && Hashes(s') == Hashes(trees[k].shape) + {hash}
      ensures GrownBut(trees, k, blocks)
    {
      hide TreeOK, Apart, Nodes, Hashes, InsertOne, Ordered, Search;
      ApartNodes(main, trees);
      ghost var t := trees[k];
      TreeIsOrdered(t, w);
      var ok, r', n := AddBlockByParentHash(root', t.shape, Nodes(t.shape), parent, hash, w);
      r, node := r', n;
      InsertOneNodes(t.shape, node);
    }

    /** Only the block is known, as the root of the `k`-th tree: its parent becomes the root. */
    method RerootIncomplete(cell: Incomplete, ghost k: nat, parent: BlockHash, hash: BlockHash)
      requires Struct() && Canonical() && Stored() && Unheard(parent)
      requires At(k, cell) && trees[k].root.hash == hash
      requires parent == w.par(hash) && Genuine(w, hash)
      modifies cell, this`trees, this`blocks
      modifies blocks`left, blocks`right, blocks`parent, blocks`child, blocks`sibling, blocks`kids
      ensures Reshaped(Reroot(old(Forest()), hash, parent), old(blocks), hash)
      ensures fresh(blocks - old(blocks)) && AsksCarried(Reroot(old(Forest()), hash, parent), old(Asks()))
    {
      hide *;
      AtFacts(k, cell);
      StructParts();
      RootsAreKeys();
      UnheardIsNew(parent);
      CanonMatches();
      UnheardInTree(parent, trees[k]);
      ghost var f, before, bs, es := Forest(), trees, blocks, Entries(list);
      EntriesAt(list, k);
      var bl := RerootTree(cell.b, k, parent);
      ghost var t' := TreeView(bl, InsertAll(Bin(Nil, bl, Nil), trees[k].shape));
      MatchReroot(main, trees, f, k, t');
      NewNode(blocks, bl);
      StartAgain(cell, k);
      Rehang(cell, k, bl, t', bl);
      assert es[k := Entry(hash, 0, 0)][k := Entry(parent, 0, 0)] == es[k := Entry(parent, 0, 0)];
      AsksRerooted(es, k, f, parent);
      ParentIsRoot(f, hash, parent);
      ReshapedBy(Reroot(f, hash, parent), bs, hash, bl);
    }

    /** The list spells out the missing blocks, each once. */
    lemma RootsAreKeys()
      requires Struct() && Canonical()
      ensures DistinctRoots(Entries(list)) && CountersOf(Entries(list)).Keys == Forest().inc.Keys
      ensures Asks() == CountersOf(Entries(list))
    {
      hide TreeOK, Apart, Canon;
      var es, f := Entries(list), Forest();
      EntriesAhead(list);
      forall r ensures r in CountersOf(es) <==> r in f.inc {
        CountersAt(es, r);
        if r in f.inc {
          var t :| t in trees && t.root.hash == r;
          var i :| 0 <= i < |trees| && trees[i] == t;
          assert es[i].root == r;
        }
        if r in CountersOf(es) {
          var i :| 0 <= i < |es| && es[i].root == r;
          assert trees[i] in trees;
        }
      }
    }

    lemma AsksSameRoot(es: seq<Entry>, k: nat, f: Forest, h: BlockHash)
      requires k < |es| && Entries(list) == es[k := es[k]] && es[k].root in f.inc && CountersOf(es).Keys == f.inc.Keys
      ensures AsksCarried(Extend(f, es[k].root, h), CountersOf(es))
    {
      assert es[k := es[k]] == es;
      CarriedSame(CountersOf(es));
    }

    lemma AsksRerooted(es: seq<Entry>, k: nat, f: Forest, p: BlockHash)
      requires k < |es| && Entries(list) == es[k := Entry(p, 0, 0)]
      requires DistinctRoots(es) && CountersOf(es).Keys == f.inc.Keys && p !in f.inc
      ensures AsksCarried(Reroot(f, es[k].root, p), CountersOf(es))
    {
      CarriedReroot(es, k, p);
    }

    lemma ParentIsRoot(f: Forest, hash: BlockHash, parent: BlockHash)
      ensures parent in Reroot(f, hash, parent).inc
    {
    }

    lemma AtFacts(k: nat, cell: Incomplete)
      requires Struct() && At(k, cell)
      ensures k < |list| == |trees| && cell == list[k] && cell in list && trees[k] in trees && cell.b == trees[k].root
    {
      hide TreeOK, Apart;
    }

    /** The `k`-th cell gets the root of its changed tree, which has one node more. */
    method Rehang(cell: Incomplete, ghost k: nat, r: Block, ghost t': TreeView, ghost node: Block)
      requires Listed() && At(k, cell) && GrownBut(trees, k, blocks)
      requires r == t'.root && TreeOK(t', w) && Nodes(t'.shape) <= blocks + {node}
      modifies cell`b, this`trees, this`blocks
      ensures Listed() && Grown() && trees == old(trees)[k := t'] && blocks == old(blocks) + {node}
      ensures Entries(list) == old(Entries(list))[k := Entry(r.hash, cell.lastAsked, cell.noAsks)]
    {
      hide TreeOK, Grown, GrownBut, Entries;
      ghost var before, bs, es := trees, blocks, Entries(list);
      EntriesAhead(list);
      cell.b := r;
      EntriesAhead(list);
      trees := trees[k := t'];
      blocks := blocks + {node};
      GrownWith(before, k, bs, t');
    }

    /** One new node, for the block or for a missing parent. */
    lemma ReshapedBy(f: Forest, before: set<Block>, h: BlockHash, node: Block)
      requires Listed() && Grown() && Matches(main, trees, f) && OneNodePerHash(blocks)
      requires blocks == before + {node} && Blank(node) && (node.hash == h || node.hash in f.inc)
      ensures Reshaped(f, before, h)
    {
      hide TreeOK, Matches, Listed, Grown;
    }

    /** The new root was never asked for. */
    method StartAgain(cell: Incomplete, ghost k: nat)
      requires Listed() && At(k, cell)
      modifies cell`lastAsked, cell`noAsks
      ensures Entries(list) == old(Entries(list))[k := Entry(cell.b.hash, 0, 0)]
      ensures cell.lastAsked == 0 && cell.noAsks == 0
    {
      hide Entries;
      EntriesAhead(list);
      cell.lastAsked := 0;
      cell.noAsks := 0;
      EntriesAhead(list);
    }

    /** A placeholder for `parent` takes over the `k`-th tree; the other trees do not change. */
    method RerootTree(sub: Block, ghost k: nat, parent: BlockHash) returns (bl: Block)
      requires Grown() && Apart(main, trees) && k < |trees| && sub == trees[k].root
      requires parent !in Hashes(trees[k].shape)
      requires parent == w.par(sub.hash) && Genuine(w, sub.hash)
      modifies blocks`left, blocks`right, blocks`parent, blocks`child, blocks`sibling, blocks`kids
      ensures fresh(bl) && bl.hash == parent && Blank(bl)
      ensures var s' := InsertAll(Bin(Nil, bl, Nil), trees[k].shape);
              && TreeOK(TreeView(bl, s'), w)
              && Nodes(s') <= blocks + {bl} && Hashes(s') == Hashes(trees[k].shape) + {parent}
      ensures GrownBut(trees, k, blocks)
    {
      hide TreeOK, Apart, InsertAll, Ordered, Search, GrownBut;
      assert trees[k] in trees;
      bl := BootstrapChain(parent, w);
      bl := GraftBelow(bl, sub, k);
    }

    /** The `k`-th tree moves below a node outside of all trees. */
    method GraftBelow(bl: Block, sub: Block, ghost k: nat) returns (r: Block)
      requires Grown() && Apart(main, trees) && k < |trees| && sub == trees[k].root
      requires TreeOK(TreeView(bl, Bin(Nil, bl, Nil)), w) && bl !in blocks
      requires bl.hash !in Hashes(trees[k].shape) && bl.hash == w.par(sub.hash) && Genuine(w, sub.hash)
      modifies bl`left, bl`right, bl`sibling, bl`child, bl`kids
      modifies blocks`left, blocks`right, blocks`parent, blocks`sibling
      ensures r == bl
      ensures var s' := InsertAll(Bin(Nil, bl, Nil), trees[k].shape);
              && TreeOK(TreeView(bl, s'), w)
              && Nodes(s') <= blocks + {bl} && Hashes(s') == Hashes(trees[k].shape) + {bl.hash}
      ensures GrownBut(trees, k, blocks)
    {
      hide TreeOK, Apart, InsertAll, Ordered, Search, Hashes, Nodes;
      ApartNodes(main, trees);
      ghost var t := trees[k];
      TreeIsOrdered(t, w);
      SingleShape(bl);
      InsertAllNodes(Bin(Nil, bl, Nil), t.shape);
      r := Graft(bl, Bin(Nil, bl, Nil), sub, t.shape, bl, w);
    }

    /** Block and parent are both known: the `i`-th tree moves below the parent, in the `j`-th tree. */
    method MergeIncomplete(
      ch: Incomplete, ghost i: nat, ph: Incomplete, ghost j: nat, parent: BlockHash, hash: BlockHash)
      requires Struct() && Canonical() && Stored()
      requires At(i, ch) && trees[i].root.hash == hash
      requires At(j, ph) && parent in Hashes(trees[j].shape) && i != j
      requires parent == w.par(hash) && Genuine(w, hash)
      modifies ph`b, this`trees, this`inchains, this`list, list`next
      modifies blocks`left, blocks`right, blocks`parent, blocks`child, blocks`sibling, blocks`kids
      ensures AsksCarried(Merge(old(Forest()), hash, old(ph.b.hash)), old(Asks()))
      ensures forall c | c in list :: c in old(list)
      ensures Reshaped(Merge(old(Forest()), hash, old(ph.b.hash)), old(blocks), hash)
    {
      hide *;
      CanonMatches();
      DistinctBlocks();
      AtFacts(i, ch);
      AtFacts(j, ph);
      RootsAreKeys();
      ghost var f, cells := Forest(), list;
      ghost var t' := MergeInPlace(ch, i, ph, j, parent);
      MatchMerge(main, old(trees), Forest(), i, j, t');
      ghost var before := trees;
      DropCell(ch, i);
      GrownWithout(before, i);
      AsksDropped(cells, i, f);
      MergeKeys(f, hash, t'.root.hash);
      AsksNow(Merge(f, hash, t'.root.hash), old(Asks()));
      SameBlocks(Merge(old(Forest()), hash, t'.root.hash), hash);
      CellsWithout(cells, i);
    }

    lemma MergeKeys(f: Forest, h: BlockHash, j: BlockHash)
      requires j in f.inc && h != j
      ensures Merge(f, h, j).inc.Keys == f.inc.Keys - {h}
    {
    }

    lemma AsksNow(f: Forest, before: Counters)
      requires CountersOf(Entries(list)) == Carried(before, f.inc.Keys)
      ensures AsksCarried(f, before)
    {
    }

    lemma SameBlocks(f: Forest, h: BlockHash)
      requires Listed() && Grown() && Matches(main, trees, f) && OneNodePerHash(blocks)
      ensures Reshaped(f, blocks, h)
    {
      hide TreeOK, Matches, Listed, Grown;
    }

    /** The two trees become one; the list cell of the `i`-th is still there. */
    method MergeInPlace(ch: Incomplete, ghost i: nat, ph: Incomplete, ghost j: nat, parent: BlockHash)
      returns (ghost t': TreeView)
      requires Struct() && At(i, ch) && At(j, ph) && i != j && parent in Hashes(trees[j].shape)
      requires parent == w.par(trees[i].root.hash) && Genuine(w, trees[i].root.hash)
      modifies ph`b, this`trees
      modifies blocks`left, blocks`right, blocks`parent, blocks`child, blocks`sibling, blocks`kids
      ensures Listed() && trees == old(trees)[j := t'] && GrownBut(trees, i, blocks)
      ensures t'.root == old(trees)[j].root && Entries(list) == old(Entries(list)) && ch.b == old(ch.b)
      ensures Hashes(t'.shape) == Hashes(old(trees)[j].shape) + Hashes(trees[i].shape)
    {
      hide TreeOK, Apart, Nodes, Hashes, Linked, InsertAll, Entries;
      ghost var es := Entries(list);
      EntriesAhead(list);
      var r := MergeTrees(ch.b, i, ph.b, j, parent);
      ph.b := r;
      t' := TreeView(r, InsertAll(trees[j].shape, trees[i].shape));
      trees := trees[j := t'];
      EntriesAhead(list);
      assert Entries(list) == es;
    }

    method MergeTrees(sub: Block, ghost i: nat, root': Block, ghost j: nat, parent: BlockHash) returns (r: Block)
      requires Grown() && Apart(main, trees) && i < |trees| && j < |trees| && i != j
      requires sub == trees[i].root && root' == trees[j].root
      requires parent in Hashes(trees[j].shape) && parent == w.par(sub.hash) && Genuine(w, sub.hash)
      modifies blocks`left, blocks`right, blocks`parent, blocks`child, blocks`sibling, blocks`kids
      ensures r == root'
      ensures var s' := InsertAll(trees[j].shape, trees[i].shape);
              && TreeOK(TreeView(r, s'), w)
              && Nodes(s') == Nodes(trees[j].shape) + Nodes(trees[i].shape)
              && Hashes(s') == Hashes(trees[j].shape) + Hashes(trees[i].shape)
      ensures TreeOK(TreeView(root, main), w)
      ensures forall k | 0 <= k < |trees| && k != i && k != j :: TreeOK(trees[k], w)
    {
      hide TreeOK, Nodes, Hashes, InsertAll, Ordered, Search;
      ApartNodes(main, trees);
      ghost var s, t := trees[j], trees[i];
      TreeIsOrdered(s, w);
      TreeIsOrdered(t, w);
      assert Hashes(s.shape) !! Hashes(t.shape);
      InsertAllNodes(s.shape, t.shape);
      var p := FindBlockByHash(root', parent, s.shape);
      r := Graft(root', s.shape, sub, t.shape, p, w);
    }

    /** The parent is in the main tree: the block, or the tree that waited for it, joins the main tree. */
    method JoinMainTree(
      parentBlock: Block, parent: BlockHash, hash: BlockHash) returns (ghost bz: Block, ghost T: set<Block>)
      requires Struct() && Canonical() && Stored()
      requires parentBlock in Nodes(main) && parentBlock.hash == parent
      requires parent == w.par(hash) && Genuine(w, hash) && hash !in kept && hash !in Hashes(main)
      modifies this`main, this`blocks, this`root, this`inchains, this`list, this`trees, list`next
      modifies blocks`left, blocks`right, blocks`parent, blocks`child, blocks`sibling, blocks`kids
      ensures Reshaped(JoinMain(old(Forest()), hash), old(blocks), hash) && root == old(root)
      ensures fresh(blocks - old(blocks)) && AsksCarried(JoinMain(old(Forest()), hash), old(Asks()))
      ensures forall c | c in list :: c in old(list)
      ensures bz.hash == hash && Clan(T, bz, w) && Nodes(main) == old(Nodes(main)) + T
    {
      hide TreeOK, Canonical, Stored, Reshaped, Hashes, Nodes, Forest, Clan, Grown, Apart, JoinMain, AsksCarried, Asks;
      var bi, k := IsIncompleteHash(hash);
      if bi != null {
        RootOfCell(k, bi);
        T := JoinWaiting(parentBlock, bi, k, hash);
        bz := bi.b;
      } else {
        NoRootNoTree(hash);
        HashOfNode(main, parentBlock);
        bz := JoinNew(parent, hash);
        T := {bz};
      }
    }

    /** The incomplete tree that waited for the block joins the main tree. */
    method JoinWaiting(parentBlock: Block, bi: Incomplete, ghost k: nat, hash: BlockHash) returns (ghost T: set<Block>)
      requires Struct() && Canonical() && Stored() && At(k, bi) && trees[k].root.hash == hash && bi.b == trees[k].root
      requires parentBlock in Nodes(main) && parentBlock.hash == w.par(hash) && Genuine(w, hash)
      modifies this`main, this`root, this`inchains, this`list, this`trees, list`next
      modifies blocks`left, blocks`right, blocks`parent, blocks`child, blocks`sibling, blocks`kids
      ensures Reshaped(JoinMain(old(Forest()), hash), old(blocks), hash) && root == old(root)
      ensures AsksCarried(JoinMain(old(Forest()), hash), old(Asks()))
      ensures forall c | c in list :: c in old(list)
      ensures Clan(T, bi.b, w) && Nodes(main) == old(Nodes(main)) + T
    {
      hide *;
      AtFacts(k, bi);
      CanonMatches();
      DistinctBlocks();
      RootsAreKeys();
      ghost var before, main0, f, cells := trees, main, Forest(), list;
      GraftIntoMain(parentBlock, bi, k);
      MatchGraft(main0, before, Forest(), k, main);
      T := Nodes(before[k].shape);
      AsksDropped(cells, k, f);
      JoinKeys(f, hash);
      AsksNow(JoinMain(f, hash), old(Asks()));
      SameBlocks(JoinMain(f, hash), hash);
      CellsWithout(cells, k);
    }

    /** The block, new to the chain, joins the main tree alone. */
    method JoinNew(parent: BlockHash, hash: BlockHash) returns (ghost node: Block)
      requires Struct() && Canonical() && Stored() && Unheard(hash) && parent in Hashes(main)
      requires (forall b | b in blocks :: b.hash != hash) && hash !in Forest().inc
      requires parent == w.par(hash) && Genuine(w, hash)
      modifies this`main, this`blocks, this`root
      modifies blocks`left, blocks`right, blocks`child, blocks`sibling, blocks`kids
      ensures Reshaped(JoinMain(old(Forest()), hash), old(blocks), hash) && root == old(root)
      ensures fresh(blocks - old(blocks)) && AsksCarried(JoinMain(old(Forest()), hash), old(Asks()))
      ensures node.hash == hash && Clan({node}, node, w) && Nodes(main) == old(Nodes(main)) + {node}
    {
      hide TreeOK, Canonical, Stored, Matches, Hashes, Nodes, Forest, Clan, Linked, Apart, OneNodePerHash, JoinMain;
      hide Entries, CountersOf, Carried, DistinctRoots, Asks, AsksCarried;
      CanonMatches();
      DistinctBlocks();
      RootsAreKeys();
      ghost var main0, f := main, Forest();
      node := GrowMain(parent, hash);
      MatchGrow(main0, trees, Forest(), main, hash);
      NewNode(old(blocks), node);
      AsksUnmoved(f, hash);
    }

    /** The block was not missing, so no tree leaves the list. */
    lemma AsksUnmoved(f: Forest, hash: BlockHash)
      requires Asks().Keys == f.inc.Keys && hash !in f.inc
      ensures AsksCarried(JoinMain(f, hash), Asks())
    {
      CarriedSame(Asks());
      assert JoinMain(f, hash).inc.Keys == f.inc.Keys;
    }

    lemma JoinKeys(f: Forest, h: BlockHash)
      ensures JoinMain(f, h).inc.Keys == f.inc.Keys - {h}
    {
    }

    /** A block that was not received and roots no incomplete tree names no node. */
    lemma NoRootNoTree(hash: BlockHash)
      requires Struct() && Canonical() && Stored() && hash !in kept && hash !in Hashes(main)
      requires forall t | t in trees :: t.root.hash != hash
      ensures Unheard(hash) && hash !in Forest().inc
      ensures forall b | b in blocks :: b.hash != hash
    {
      forall t | t in trees ensures hash !in Hashes(t.shape) {
        if hash in Hashes(t.shape) {
          HomeOfTree(w, kept.Keys, main, trees, t, hash);
        }
      }
      UnheardIsNew(hash);
    }

    lemma FirstCell()
      requires Listed()
      ensures inchains == (if list == [] then null else list[0]) && |list| == |trees|
    {
    }

    lemma CellAt(k: nat)
      requires Listed() && Grown() && k < |list|
      ensures |list| == |trees| && list[k].b == trees[k].root && TreeOK(trees[k], w)
      ensures list[k].next == if k + 1 < |list| then list[k + 1] else null
    {
      hide TreeOK;
      LinkedTail(list, k);
      assert trees[k] in trees;
    }

    /** The first cells whose trees hold the block and its parent, and the last cell. */
    method FindCells(parent: BlockHash, hash: BlockHash)
      returns (ch: Incomplete?, ghost ci: nat, ph: Incomplete?, ghost pi: nat, last: Incomplete?)
      requires Listed() && Grown()
      ensures ch == null <==> forall t | t in trees :: hash !in Hashes(t.shape)
      ensures ch != null ==> At(ci, ch) && hash in Hashes(trees[ci].shape)
      ensures ch != null ==> forall i | 0 <= i < ci :: hash !in Hashes(trees[i].shape)
      ensures ph == null <==> forall t | t in trees :: parent !in Hashes(t.shape)
      ensures ph != null ==> At(pi, ph) && parent in Hashes(trees[pi].shape)
      ensures ph != null ==> forall i | 0 <= i < pi :: parent !in Hashes(trees[i].shape)
      ensures last == if list == [] then null else list[|list| - 1]
    {
      hide TreeOK, Hashes, Nodes, Listed, Grown;
      FirstCell();
      ch, ph, last, ci, pi := null, null, null, 0, 0;
      var tmp := inchains;
      ghost var k := 0;
      while tmp != null
        invariant 0 <= k <= |list| && tmp == (if k < |list| then list[k] else null)
        invariant last == if k == 0 then null else list[k - 1]
        invariant ch == null <==> forall i | 0 <= i < k :: hash !in Hashes(trees[i].shape)
        invariant ch != null ==> At(ci, ch) && hash in Hashes(trees[ci].shape)
        invariant ch != null ==> ci < k && forall i | 0 <= i < ci :: hash !in Hashes(trees[i].shape)
        invariant ph == null <==> forall i | 0 <= i < k :: parent !in Hashes(trees[i].shape)
        invariant ph != null ==> At(pi, ph) && parent in Hashes(trees[pi].shape)
        invariant ph != null ==> pi < k && forall i | 0 <= i < pi :: parent !in Hashes(trees[i].shape)
        decreases |list| - k
      {
        CellAt(k);
        if ch == null {
          var b := FindInTree(tmp.b, hash, trees[k], w);
          if b != null {
            ch, ci := tmp, k;
          }
        }
        CellAt(k);
        if ph == null {
          var b := FindInTree(tmp.b, parent, trees[k], w);
          if b != null {
            ph, pi := tmp, k;
          }
        }
        last := tmp;
        tmp := tmp.next;
        k := k + 1;
      }
    }

    /** The block was not received before and its parent is not in the main tree. */
    method AddBlockToIncomplete(parent: BlockHash, hash: BlockHash)
      requires Struct() && Canonical() && Stored()
      requires parent == w.par(hash) && Genuine(w, hash) && hash !in kept
      requires parent !in Hashes(main) && hash !in Hashes(main)
      modifies this`inchains, this`list, this`trees, this`blocks, list
      modifies blocks`left, blocks`right, blocks`parent, blocks`child, blocks`sibling, blocks`kids
      ensures Reshaped(Step(old(Forest()), parent, hash), old(blocks), hash)
      ensures fresh(blocks - old(blocks)) && (forall c | c in list :: c in old(list) || fresh(c))
      ensures AsksCarried(Step(old(Forest()), parent, hash), old(Asks()))
    {
      hide *;
      StructParts();
      var ch, ci, ph, pi, last := FindCells(parent, hash);
      HomeBranch(ch, ci, ph, pi, parent, hash);
      CellsInList(ch, ci, ph, pi);
      if ch == null && ph == null {
        StartIncomplete(last, parent, hash);
      } else if ch == null {
        ExtendIncomplete(ph, pi, parent, hash);
      } else if ph == null {
        RerootIncomplete(ch, ci, parent, hash);
      } else {
        MergeIncomplete(ch, ci, ph, pi, parent, hash);
      }
    }

    lemma SettledNow()
      requires Canonical() && Stored()
      ensures Settled(blocks, kept, w)
    {
    }

    /** The received data goes into the node of the block: the forest is canonical again. */
    method Store(bz: Block, nb: NetworkBlock, weakBlocks: seq<BlockHash>, ghost before: set<Block>)
      requires Settled(before, kept, w) && bz in blocks && root.hash == w.genesis
      requires Genuine(w, bz.hash) && bz.hash !in kept && nb.depth == w.dep(bz.hash)
      requires Reshaped(Step(Forest(), w.par(bz.hash), bz.hash), before, bz.hash)
      modifies bz`nb, bz`weakBlocks, this`kept
      ensures Struct() && Canonical() && Stored()
      ensures kept == old(kept)[bz.hash := Payload(nb, weakBlocks)] && root.nb == old(root.nb)
    {
      hide TreeOK, Matches, Nodes, Hashes, Step, Canon, Reshaped, Settled, Listed, Grown, Apart, AllGenuine, PaidFor;
      hide OneNodePerHash;
      ReadyToStore(bz, Payload(nb, weakBlocks), before);
      bz.nb := Some(nb);
      bz.weakBlocks := weakBlocks;
      kept := kept[bz.hash := Payload(nb, weakBlocks)];
      PaidNow(bz);
    }

    lemma PaidNow(bz: Block)
      requires bz.hash in kept && bz.nb == Some(kept[bz.hash].nb) && bz.weakBlocks == kept[bz.hash].weakBlocks
      ensures PaidFor(bz, kept, w)
    {
    }

    /** Everything but the data of `bz` itself is already as it has to be afterwards. */
    lemma ReadyToStore(bz: Block, payload: Payload, before: set<Block>)
      requires Settled(before, kept, w) && bz in blocks && root.hash == w.genesis
      requires Genuine(w, bz.hash) && bz.hash !in kept && payload.nb.depth == w.dep(bz.hash)
      requires Reshaped(Step(Forest(), w.par(bz.hash), bz.hash), before, bz.hash)
      ensures var later := kept[bz.hash := payload];
              && Listed() && Grown() && Apart(main, trees) && OneNodePerHash(blocks)
              && AllGenuine(w, later.Keys) && w.genesis !in later && w.dep(w.genesis) == 0
              && Matches(main, trees, Canon(w, later.Keys))
              && (forall h | h in later :: later[h].nb.depth == w.dep(h))
              && (forall b | b in blocks && b != bz :: PaidFor(b, later, w))
              && (forall b | b in blocks ::
                    b.hash in later || b.hash == w.genesis || b.hash in Canon(w, later.Keys).inc)
    {
      hide TreeOK, Matches, Nodes, Hashes, Step, Listed, Grown, Apart;
      var h, R := bz.hash, kept.Keys;
      StepIsCanon(w, R, h);
      MissingGrows(w, R, h);
      assert R + ({h} - {w.genesis}) == R + {h} == kept[h := payload].Keys;
      CanonIsApart(w, R + {h}, main, trees);
    }

    lemma MainFacts()
      requires Struct() && Canonical() && Stored()
      ensures TreeOK(TreeView(root, main), w) && Nodes(main) <= blocks
      ensures Clan(Nodes(main), root, w) && Measured(Nodes(main), w)
    {
      forall b | b in Nodes(main) ensures b.nb.Some? && b.nb.value.depth == w.dep(b.hash) {
        HashOfNode(main, b);
        CanonTrees(w, kept.Keys, b.hash);
        assert PaidFor(b, kept, w);
      }
    }

    /** Only the newly attached subtree `T` is searched. */
    method UpdateDeepest(bz: Block, ghost T: set<Block>)
      requires Struct() && Canonical() && Stored()
      requires Clan(T, bz, w) && T <= Nodes(main) && deepest in Nodes(main)
      requires forall b | b in Nodes(main) - T :: w.dep(b.hash) <= w.dep(deepest.hash)
      modifies this`deepest
      ensures Valid()
      ensures deepest == old(deepest) || w.dep(deepest.hash) > w.dep(old(deepest).hash)
      ensures MovedTo(old(deepest), T)
    {
      hide Struct, Canonical, Stored, Clan, Nodes, Subtrees, FirstDeepest;
      MainFacts();
      ClanWithin(T, bz, Nodes(main), root, w);
      ClanRoot(T, bz, w);
      var oldDepth := deepest.nb.value.depth;
      var deepLast := FindMaxDepth(bz, T, Nodes(main), root, w);
      MainFacts();
      if deepLast.nb.value.depth > oldDepth {
        deepest := deepLast;
      }
    }

    /** The cache stays unless some block of `T` is deeper; then it is the leftmost of the deepest blocks of `T`. */
    ghost predicate MovedTo(before: Block, T: set<Block>)
      reads `deepest, `main, `root
      reads Nodes(main)`parent, Nodes(main)`child, Nodes(main)`sibling, Nodes(main)`kids
    {
      && Clan(Nodes(main), root, w)
      && if forall b | b in T :: w.dep(b.hash) <= w.dep(before.hash) then deepest == before
         else w.dep(deepest.hash) > w.dep(before.hash) && FirstDeepest(deepest, T, Nodes(main), root, w)
    }

    /** The parent is in the main tree. */
    method ReceiveIntoMain(
      parentBlock: Block, parent: BlockHash, hash: BlockHash, nb: NetworkBlock, weakBlocks: seq<BlockHash>)
      requires Valid() && parentBlock in Nodes(main) && parentBlock.hash == parent
      requires parent == w.par(hash) && Genuine(w, hash) && hash !in kept && hash !in Hashes(main)
      requires nb.depth == w.dep(hash)
      modifies this, list
      modifies blocks`left, blocks`right, blocks`parent, blocks`child, blocks`sibling, blocks`kids
      modifies blocks`nb, blocks`weakBlocks
      ensures Valid() && kept == old(kept)[hash := Payload(nb, weakBlocks)]
      ensures fresh(blocks - old(blocks)) && AsksCarried(Step(old(Forest()), parent, hash), old(Asks()))
      ensures Unstamped(blocks - old(blocks)) && (forall c | c in list :: c in old(list) || fresh(c))
      ensures old(Nodes(main)) <= Nodes(main) && root == old(root) && root.nb == old(root.nb)
      ensures deepest == old(deepest) || w.dep(deepest.hash) > w.dep(old(deepest).hash)
    {
      hide *;
      ValidParts();
      CachedFacts();
      var bz;
      ghost var T;
      bz, T := JoinAndStore(parentBlock, parent, hash, nb, weakBlocks);
      UpdateDeepest(bz, T);
    }

    /** The block joins the main tree and gets its data; the cache is not moved yet. */
    method JoinAndStore(
      parentBlock: Block, parent: BlockHash, hash: BlockHash, nb: NetworkBlock, weakBlocks: seq<BlockHash>)
      returns (bz: Block, ghost T: set<Block>)
      requires Struct() && Canonical() && Stored() && parentBlock in Nodes(main) && parentBlock.hash == parent
      requires parent == w.par(hash) && Genuine(w, hash) && hash !in kept && hash !in Hashes(main)
      requires nb.depth == w.dep(hash)
      modifies this`main, this`blocks, this`root, this`inchains, this`list, this`trees, this`kept, list`next
      modifies blocks`left, blocks`right, blocks`parent, blocks`child, blocks`sibling, blocks`kids
      modifies blocks`nb, blocks`weakBlocks
      ensures Struct() && Canonical() && Stored() && kept == old(kept)[hash := Payload(nb, weakBlocks)]
      ensures fresh(blocks - old(blocks)) && AsksCarried(Step(old(Forest()), parent, hash), old(Asks()))
      ensures Unstamped(blocks - old(blocks)) && (forall c | c in list :: c in old(list) || fresh(c))
      ensures root == old(root) && root.nb == old(root.nb)
      ensures Clan(T, bz, w) && Nodes(main) == old(Nodes(main)) + T
    {
      hide *;
      SettledNow();
      CanonMatches();
      InMain(parentBlock);
      StepToMain(parent, hash);
      ghost var before := blocks;
      ghost var node;
      node, T := JoinMainTree(parentBlock, parent, hash);
      ReshapedMain(JoinMain(old(Forest()), hash), before, hash);
      ReshapedBlank(JoinMain(old(Forest()), hash), before, hash);
      ClanRoot(T, node, w);
      HashOfNode(main, node);
      bz := FindBlockByHash(root, hash, main);
      OneHashOneNode(main, bz, node);
      Store(bz, nb, weakBlocks, before);
    }

    /** The parent is not in the main tree; false when the block was received before. */
    method ReceiveIntoIncomplete(parent: BlockHash, hash: BlockHash, nb: NetworkBlock, weakBlocks: seq<BlockHash>)
      returns (added: bool)
      requires Valid() && parent == w.par(hash) && Genuine(w, hash) && nb.depth == w.dep(hash)
      requires parent !in Hashes(main) && hash !in Hashes(main)
      modifies this, list
      modifies blocks`left, blocks`right, blocks`parent, blocks`child, blocks`sibling, blocks`kids
      modifies blocks`nb, blocks`weakBlocks
      ensures Valid() && deepest == old(deepest)
      ensures added <==> hash !in old(kept)
      ensures kept == if added then old(kept)[hash := Payload(nb, weakBlocks)] else old(kept)
      ensures fresh(blocks - old(blocks))
      ensures Unstamped(blocks - old(blocks)) && (forall c | c in list :: c in old(list) || fresh(c))
      ensures old(Nodes(main)) <= Nodes(main) && root == old(root) && root.nb == old(root.nb)
      ensures if added then AsksCarried(Step(old(Forest()), parent, hash), old(Asks())) else Asks() == old(Asks())
    {
      hide *;
      ValidParts();
      StructParts();
      ReceivedBefore(hash);
      NothingNew();
      var seen := IsInIncomplete(parent, hash);
      if !seen {
        StoreIncomplete(parent, hash, nb, weakBlocks);
      }
      added := !seen;
    }

    /** The block was not received before. */
    method StoreIncomplete(parent: BlockHash, hash: BlockHash, nb: NetworkBlock, weakBlocks: seq<BlockHash>)
      requires Valid() && parent == w.par(hash) && Genuine(w, hash) && nb.depth == w.dep(hash)
      requires parent !in Hashes(main) && hash !in Hashes(main) && hash !in kept
      modifies this, list
      modifies blocks`left, blocks`right, blocks`parent, blocks`child, blocks`sibling, blocks`kids
      modifies blocks`nb, blocks`weakBlocks
      ensures Valid() && deepest == old(deepest)
      ensures kept == old(kept)[hash := Payload(nb, weakBlocks)]
      ensures fresh(blocks - old(blocks)) && AsksCarried(Step(old(Forest()), parent, hash), old(Asks()))
      ensures Unstamped(blocks - old(blocks)) && (forall c | c in list :: c in old(list) || fresh(c))
      ensures old(Nodes(main)) <= Nodes(main) && root == old(root) && root.nb == old(root.nb)
    {
      hide *;
      ValidParts();
      SettledNow();
      CanonMatches();
      CanonRoot();
      ghost var before := blocks;
      AddBlockToIncomplete(parent, hash);
      ReshapedBlank(Step(old(Forest()), parent, hash), before, hash);
      StoreFound(hash, nb, weakBlocks, before);
      ValidNow();
    }

    /** The links are changed; the data goes into the node of the block. */
    method StoreFound(hash: BlockHash, nb: NetworkBlock, weakBlocks: seq<BlockHash>, ghost before: set<Block>)
      requires Settled(before, kept, w) && AllGenuine(w, kept.Keys) && w.genesis !in kept && root.hash == w.genesis
      requires Genuine(w, hash) && hash !in kept && hash !in Hashes(main) && nb.depth == w.dep(hash)
      requires Reshaped(Step(Forest(), w.par(hash), hash), before, hash)
      modifies blocks`nb, blocks`weakBlocks, this`kept
      ensures Struct() && Canonical() && Stored()
      ensures kept == old(kept)[hash := Payload(nb, weakBlocks)] && root.nb == old(root.nb)
    {
      hide *;
      ReshapedParts(Step(Forest(), w.par(hash), hash), before, hash);
      HeldAfter(hash);
      var bz := FindIncompleteBlock(hash);
      Store(bz, nb, weakBlocks, before);
    }

    // ---------------------------------------------------------------- the three steps of a chain

    /**
     * A block arrives.  `added` is false exactly for a block received before; the parent is asked
     * for whenever it is outside the main tree.
     */
    method AddReceivedBlock(parent: BlockHash, hash: BlockHash, nb: NetworkBlock, weakBlocks: seq<BlockHash>)
      returns (needParent: bool, added: bool)
      requires Valid()
      requires hash == w.genesis || (parent == w.par(hash) && Genuine(w, hash) && nb.depth == w.dep(hash))
      modifies this, list
      modifies blocks`left, blocks`right, blocks`parent, blocks`child, blocks`sibling, blocks`kids
      modifies blocks`nb, blocks`weakBlocks
      ensures Valid()
      ensures Forest() == Step(old(Forest()), w.par(hash), hash)
      ensures added <==> hash != w.genesis && hash !in old(kept)
      ensures needParent <==> added && w.par(hash) !in old(Forest()).main
      ensures kept == if added then old(kept)[hash := Payload(nb, weakBlocks)] else old(kept)
      ensures deepest == old(deepest) || w.dep(deepest.hash) > w.dep(old(deepest).hash)
      ensures fresh(blocks - old(blocks)) && IsArrival(w, old(Book()), hash, Book())
      ensures Unstamped(blocks - old(blocks)) && (forall c | c in list :: c in old(list) || fresh(c))
      ensures old(Nodes(main)) <= Nodes(main) && root == old(root) && root.nb == old(root.nb)
      ensures needParent <==> NeedsParent(w, old(Book()), hash)
    {
      hide *;
      ValidParts();
      MainFacts();
      TreeIsOrdered(TreeView(root, main), w);
      ForestOfKept();
      BookNow();
      AsksKept();
      StepOfReceive(hash);
      LookupOfReceive(hash);
      ParentNeeded(hash);
      NothingNew();
      var b := FindBlockByHash(root, hash, main);
      needParent, added := false, false;
      if b == null {
        var p := FindBlockByHash(root, parent, main);
        if p != null {
          ReceiveIntoMain(p, parent, hash, nb, weakBlocks);
          added := true;
        } else {
          added := ReceiveIntoIncomplete(parent, hash, nb, weakBlocks);
          needParent := added;
        }
      }
      KeysAfter(old(kept), hash, added);
      ValidParts();
      ForestOfKept();
      BookNow();
      ArrivalNow(old(Book()), hash);
    }

    /**
     * The miner extends the deepest block.  Its hash is new: nothing in any tree refers to it.
     * The cache moves to the new block without comparing depths.
     */
    method AddMinedBlock(hash: BlockHash, nb: NetworkBlock, weakBlocks: seq<BlockHash>)
      requires Valid() && Unheard(hash)
      requires deepest.hash == w.par(hash) && Genuine(w, hash) && nb.depth == w.dep(hash)
      modifies this, list
      modifies blocks`left, blocks`right, blocks`parent, blocks`child, blocks`sibling, blocks`kids
      modifies blocks`nb, blocks`weakBlocks
      ensures Valid() && Forest() == JoinMain(old(Forest()), hash)
      ensures kept == old(kept)[hash := Payload(nb, weakBlocks)]
      ensures deepest.hash == hash && fresh(deepest) && fresh(blocks - old(blocks))
      ensures Unstamped(blocks - old(blocks)) && Nodes(main) == old(Nodes(main)) + {deepest}
      ensures list == old(list) && IsMining(w, old(Book()), hash, Book())
    {
      hide *;
      ValidParts();
      RootsAreKeys();
      SettledNow();
      CanonMatches();
      CachedFacts();
      InMain(deepest);
      UnheardIsNew(hash);
      UnheardInMain(hash);
      StepToMain(deepest.hash, hash);
      ghost var f := Forest();
      ForestAfter(hash);
      BookNow();
      var bz := StoreMined(deepest.hash, hash, nb, weakBlocks);
      deepest := bz;
      ForestOfKept();
      KeysAfter(old(kept), hash, true);
      AsksUnmoved(f, hash);
      BookNow();
      ArrivalNow(old(Book()), hash);
      MiningNow(old(Book()), hash, f);
      CachedMined(old(Nodes(main)), old(deepest));
      ValidNow();
    }

    /** The mined block in its place, with its data; the cache is not moved yet. */
    method StoreMined(parent: BlockHash, hash: BlockHash, nb: NetworkBlock, weakBlocks: seq<BlockHash>)
      returns (bz: Block)
      requires Struct() && Canonical() && Stored() && Unheard(hash) && parent in Hashes(main) && hash !in kept
      requires parent == w.par(hash) && Genuine(w, hash) && nb.depth == w.dep(hash) && root.hash == w.genesis
      requires Settled(blocks, kept, w) && Step(Forest(), parent, hash) == JoinMain(Forest(), hash)
      modifies this`main, this`blocks, this`root, this`kept
      modifies blocks`left, blocks`right, blocks`child, blocks`sibling, blocks`kids
      ensures Struct() && Canonical() && Stored()
      ensures kept == old(kept)[hash := Payload(nb, weakBlocks)]
      ensures bz.hash == hash && fresh(bz) && fresh(blocks - old(blocks)) && Unstamped(blocks - old(blocks))
      ensures Nodes(main) == old(Nodes(main)) + {bz}
    {
      hide *;
      ghost var before, f := blocks, Forest();
      ghost var node := LinkMined(parent, hash);
      ReshapedMain(JoinMain(f, hash), before, hash);
      ReshapedBlank(JoinMain(f, hash), before, hash);
      HashOfNode(main, node);
      bz := FindBlockByHash(root, hash, main);
      OneHashOneNode(main, bz, node);
      Store(bz, nb, weakBlocks, before);
    }

    /** The specification of a receive, as a function of the stored blocks. */
    lemma ForestAfter(hash: BlockHash)
      requires Canonical() && Genuine(w, hash) && hash !in kept
      ensures AllGenuine(w, kept.Keys + {hash}) && Step(Forest(), w.par(hash), hash) == Canon(w, kept.Keys + {hash})
    {
      StepIsCanon(w, kept.Keys, hash);
      assert kept.Keys + ({hash} - {w.genesis}) == kept.Keys + {hash};
    }

    lemma BookNow()
      requires Struct() && Canonical()
      ensures Book().held == kept.Keys && Book().asks == Asks() && IsState(w, Book())
      ensures Asks().Keys == Forest().inc.Keys
    {
      hide Struct, Canonical, Entries, CountersOf, DistinctRoots;
      RootsAreKeys();
      CanonMatches();
    }

    lemma AsksKept()
      requires Asks().Keys == Forest().inc.Keys
      ensures AsksCarried(Forest(), Asks())
    {
      CarriedSame(Asks());
    }

    lemma ParentNeeded(hash: BlockHash)
      requires Canonical() && IsState(w, Book()) && Book().held == kept.Keys
      ensures NeedsParent(w, Book(), hash) <==>
              hash != w.genesis && hash !in kept && w.par(hash) !in Hashes(main)
    {
      LookupFacts();
    }

    lemma LookupFacts()
      requires Canonical()
      ensures Canon(w, kept.Keys).main == Hashes(main)
    {
    }

    lemma KeysAfter(before: map<BlockHash, Payload>, hash: BlockHash, added: bool)
      requires kept.Keys == before.Keys + if added then {hash} else {}
      requires added <==> hash != w.genesis && hash !in before
      ensures kept.Keys == before.Keys + ({hash} - {w.genesis})
    {
    }

    lemma ArrivalNow(before: State, hash: BlockHash)
      requires Canonical() && IsState(w, before) && IsState(w, Book())
      requires Book().held == kept.Keys == before.held + ({hash} - {w.genesis}) && Book().asks == Asks()
      requires AsksCarried(Forest(), before.asks)
      ensures IsArrival(w, before, hash, Book())
    {
    }

    lemma MiningNow(before: State, hash: BlockHash, f: Forest)
      requires IsArrival(w, before, hash, Book()) && f == Canon(w, before.held) && w.par(hash) in f.main
      ensures IsMining(w, before, hash, Book())
    {
    }

    /** What the walk did to the list is a tick of the book. */
    lemma TickNow(before: State, es: seq<Entry>, now: U64, each: U32, limit: U32)
      requires Struct() && Canonical() && IsState(w, before) && Remains(Forest(), Canon(w, before.held))
      requires DistinctRoots(es) && CountersOf(es) == before.asks && Entries(list) == Poll(es, now, each, limit)
      ensures IsTick(w, before, now, each, limit, Book())
      ensures NoRepeats(Asked(es, now, each, limit))
      ensures TicksByClock(before.asks, Members(Asked(es, now, each, limit)), Asks(), now, each, limit)
    {
      hide *;
      RootsAreKeys();
      BookNow();
      CanonMatches();
      StateIsGenuine(w, before);
      TickedIsPoll(es, now, each, limit);
      TickIsByClock(before.asks, now, each, limit);
      AskedAtIs(before.asks, Asked(es, now, each, limit), now, each, limit);
      Restricted(Forest(), Canon(w, before.held), Asks());
      TickOfParts(before, now, each, limit);
    }

    lemma TickOfParts(before: State, now: U64, each: U32, limit: U32)
      requires IsState(w, before) && IsState(w, Book()) && Book().asks == Ticked(before.asks, now, each, limit)
      requires Canonical() && Forest() == Canon(w, Book().held)
      requires var f := Canon(w, before.held); Forest() == f.(inc := map r | r in f.inc && r in Book().asks :: f.inc[r])
      ensures IsTick(w, before, now, each, limit, Book())
    {
      hide Canon, Ticked, IsState;
    }

    lemma CachedFacts()
      requires Cached()
      ensures deepest in Nodes(main) && forall b | b in Nodes(main) :: w.dep(b.hash) <= w.dep(deepest.hash)
    {
    }

    lemma CachedMined(before: set<Block>, parent: Block)
      requires Nodes(main) == before + {deepest} && Genuine(w, deepest.hash) && w.par(deepest.hash) == parent.hash
      requires forall b | b in before :: w.dep(b.hash) <= w.dep(parent.hash)
      ensures Cached()
    {
    }

    /** The new node is below the deepest block; it holds nothing yet. */
    method LinkMined(parent: BlockHash, hash: BlockHash) returns (ghost node: Block)
      requires Struct() && Canonical() && Stored() && Unheard(hash) && parent in Hashes(main)
      requires parent == w.par(hash) && Genuine(w, hash)
      modifies this`main, this`blocks, this`root
      modifies blocks`left, blocks`right, blocks`child, blocks`sibling, blocks`kids
      ensures Reshaped(JoinMain(old(Forest()), hash), old(blocks), hash) && root == old(root)
      ensures node.hash == hash && fresh(node) && fresh(blocks - old(blocks))
      ensures Nodes(main) == old(Nodes(main)) + {node}
    {
      hide Canonical, Stored, Clan, Nodes, Hashes, Matches, Unheard, JoinMain, OneNodePerHash, Forest, Linked, TreeOK;
      CanonMatches();
      UnheardIsNew(hash);
      UnheardInMain(hash);
      ghost var before, main0 := blocks, main;
      node := GrowMain(parent, hash);
      MatchGrow(main0, trees, Forest(), main, hash);
      NewNode(before, node);
    }

    /** An incomplete tree is given up: its blocks are forgotten. */
    method DropIncomplete(cell: Incomplete, ghost k: nat)
      requires Valid() && At(k, cell)
      modifies this`inchains, this`list, this`trees, this`blocks, this`kept, list`next
      ensures Valid() && list == Without(old(list), k) && blocks <= old(blocks)
      ensures var f, r := old(Forest()), cell.b.hash;
              r in f.inc && Forest() == f.(inc := f.inc - {r}) && kept == old(kept) - f.inc[r]
    {
      hide *;
      ValidParts();
      AtFacts(k, cell);
      ghost var t, before := trees[k], trees;
      ghost var R := kept.Keys;
      RootOfCell(k, cell);
      DropFacts(k);
      SettledNow();
      CanonRoot();
      DropIsCanon(w, R, t.root.hash);
      MatchDrop(main, trees, Forest(), k);
      GrownAll();
      ApartNodes(main, trees);
      DropCell(cell, k);
      blocks := blocks - Nodes(t.shape);
      kept := kept - Hashes(t.shape);
      assert kept.Keys == R - Below(w, R, t.root.hash);
      GrownLess(before, k, old(blocks));
      DroppedIsValid(t, old(blocks), old(kept));
      ForestOfKept();
    }

    /** What the `k`-th tree holds, and how the trees lie apart. */
    lemma DropFacts(k: nat)
      requires Valid() && k < |trees|
      ensures var r := trees[k].root.hash;
              && AllGenuine(w, kept.Keys) && w.genesis !in kept && Forest() == Canon(w, kept.Keys)
              && r in Forest().inc && r !in kept && r != w.genesis
              && Hashes(trees[k].shape) == Forest().inc[r] == Below(w, kept.Keys, r)
      ensures Matches(main, trees, Forest()) && Apart(main, trees) && Listed()
      ensures trees[k].root in Nodes(trees[k].shape) && Nodes(trees[k].shape) <= blocks
    {
      assert trees[k] in trees;
      CanonTrees(w, kept.Keys, trees[k].root.hash);
      TreeIsOrdered(trees[k], w);
    }

    lemma GrownLess(before: seq<TreeView>, k: nat, bs: set<Block>)
      requires k < |before| && trees == Without(before, k) && GrownBut(before, |before|, bs)
      requires blocks == bs - Nodes(before[k].shape)
      requires Nodes(main) !! Nodes(before[k].shape)
      requires forall i | 0 <= i < |before| && i != k :: Nodes(before[i].shape) !! Nodes(before[k].shape)
      ensures Grown()
    {
      hide TreeOK;
      forall t | t in trees ensures Nodes(t.shape) <= blocks && TreeOK(t, w) {
        WithoutMembers(before, k, t);
      }
    }

    lemma DroppedIsValid(t: TreeView, bs: set<Block>, ps: map<BlockHash, Payload>)
      requires Listed() && Grown() && Cached() && root.hash == w.genesis && Settled(bs, ps, w)
      requires t.root.hash in Canon(w, ps.Keys).inc && Hashes(t.shape) == Below(w, ps.Keys, t.root.hash)
      requires kept == ps - Hashes(t.shape) && AllGenuine(w, kept.Keys)
      requires Matches(main, trees, Canon(w, kept.Keys))
      requires Canon(w, kept.Keys) == Canon(w, ps.Keys).(inc := Canon(w, ps.Keys).inc - {t.root.hash})
      requires blocks == bs - Nodes(t.shape) && Nodes(t.shape) <= bs
      ensures Valid()
    {
      ghost var R := ps.Keys;
      hide Grown, Listed, TreeOK, Canon, Below, Matches, Hashes, Nodes;
      CanonIsApart(w, kept.Keys, main, trees);
      forall b | b in blocks ensures b.hash !in Hashes(t.shape) {
        if b.hash in Hashes(t.shape) {
          var x := NodeOfHash(t.shape, b.hash);
        }
      }
      forall b | b in blocks
        ensures PaidFor(b, kept, w)
        ensures b.hash in kept || b.hash == w.genesis || b.hash in Canon(w, kept.Keys).inc
      {
        assert t.root.hash in Hashes(t.shape) by {
          BelowHoldsRoot(R, t.root.hash);
        }
      }
    }

    lemma BelowHoldsRoot(R: set<BlockHash>, r: BlockHash)
      requires AllGenuine(w, R)
      ensures r in Below(w, R, r)
    {
    }

    /** One list cell at a network tick: leave it alone, ask for its root, or give it up. */
    method PollCell(
      t: Incomplete, ghost k: nat, now: U64, each: U32, limit: U32) returns (asked: bool, ghost gone: bool)
      requires Valid() && At(k, t)
      modifies this`inchains, this`list, this`trees, this`blocks, this`kept, Cells(list)`next, t`lastAsked, t`noAsks
      ensures Valid() && list == if gone then Without(old(list), k) else old(list)
      ensures var e := old(Entry(t.b.hash, t.lastAsked, t.noAsks));
              && (asked <==> Due(e, now, each) && !Expired(e, now, each, limit))
              && (gone <==> Expired(e, now, each, limit))
              && (!gone ==> Entry(t.b.hash, t.lastAsked, t.noAsks) == if asked then Bumped(e, now) else e)
      ensures ByClock(old(t.lastAsked), old(t.noAsks), now, each, limit, asked, gone, t.lastAsked, t.noAsks)
      ensures Remains(Forest(), old(Forest())) && Fewer(kept, old(kept))
    {
      hide Valid, Without, Forest;
      asked, gone := false, false;
      if Elapsed(now, t.lastAsked) > each {
        t.lastAsked := now;
        t.noAsks := (t.noAsks + 1) % TWO32;
        if t.noAsks > limit {
          DropIncomplete(t, k);
          gone := true;
        } else {
          asked := true;
        }
      }
    }

    /** One step of the walk: `done` is behind it, `rest` ahead. */
    method PollNext(
      t: Incomplete, ghost done: seq<Incomplete>, ghost rest: seq<Incomplete>, now: U64, each: U32, limit: U32)
      returns (asked: bool, ghost done': seq<Incomplete>)
      requires Valid() && list == done + [t] + rest
      modifies this`inchains, this`list, this`trees, this`blocks, this`kept, Cells(list)`next, t`lastAsked, t`noAsks
      ensures Cells(list) <= old(Cells(list))
      ensures Valid() && list == done' + rest && (done' == done || done' == done + [t])
      ensures t !in rest
      ensures var e := old(Entry(t.b.hash, t.lastAsked, t.noAsks));
              && (asked <==> Due(e, now, each) && !Expired(e, now, each, limit))
              && Entries(done') == old(Entries(done)) +
                   if !Due(e, now, each) then [e] else if Expired(e, now, each, limit) then [] else [Bumped(e, now)]
      ensures Remains(Forest(), old(Forest())) && Fewer(kept, old(kept))
    {
      hide Valid, Entries, Without, Due, Bumped, Remains, Forest, Fewer;
      ghost var k := |done|;
      assert list[k] == t && list[..k] == done && list[k + 1..] == rest;
      ListNext(k);
      CellsApart(k);
      WithoutMiddle(done, t, rest);
      ghost var gone;
      asked, gone := PollCell(t, k, now, each, limit);
      if gone {
        done' := done;
      } else {
        EntriesSnoc(done, t);
        done' := done + [t];
      }
    }

    /** The cells ahead of the walk are as they were at its start. */
    ghost predicate Ahead(rest: seq<Incomplete>, e: seq<Entry>)
      reads rest`b, rest`lastAsked, rest`noAsks
    {
      && |rest| == |e|
      && forall j | 0 <= j < |rest| :: e[j] == Entry(rest[j].b.hash, rest[j].lastAsked, rest[j].noAsks)
    }

    /**
     * A network tick: every incomplete tree that was not asked for lately is asked for, or given
     * up once it was asked for too often.
     */
    method GetIncompleteChainHashes(now: U64, each: U32, limit: U32) returns (hashes: seq<BlockHash>)
      requires Valid()
      modifies this`inchains, this`list, this`trees, this`blocks, this`kept
      modifies Cells(list)`next, Cells(list)`lastAsked, Cells(list)`noAsks
      ensures Valid() && deepest == old(deepest)
      ensures Remains(Forest(), old(Forest())) && Fewer(kept, old(kept))
      ensures hashes == Asked(old(Entries(list)), now, each, limit)
      ensures Entries(list) == Poll(old(Entries(list)), now, each, limit)
      ensures IsTick(w, old(Book()), now, each, limit, Book())
      ensures NoRepeats(hashes) && TicksByClock(old(Asks()), Members(hashes), Asks(), now, each, limit)
    {
      hide *;
      ValidParts();
      RootsAreKeys();
      BookNow();
      CanonMatches();
      ghost var before, es := Book(), Entries(list);
      hashes := WalkIncomplete(now, each, limit);
      ValidParts();
      TickNow(before, es, now, each, limit);
    }

    /** The walk over the list, which may lose the cell it stands on. */
    method WalkIncomplete(now: U64, each: U32, limit: U32) returns (hashes: seq<BlockHash>)
      requires Valid()
      modifies this`inchains, this`list, this`trees, this`blocks, this`kept
      modifies Cells(list)`next, Cells(list)`lastAsked, Cells(list)`noAsks
      ensures Valid() && deepest == old(deepest)
      ensures Remains(Forest(), old(Forest())) && Fewer(kept, old(kept))
      ensures hashes == Asked(old(Entries(list)), now, each, limit)
      ensures Entries(list) == Poll(old(Entries(list)), now, each, limit)
    {
      hide *;
      FewerAfter(kept, kept, kept);
      RemainsSelf(Forest());
      hashes := [];
      var t := inchains;
      ghost var e := Entries(list);
      ghost var past, todo: seq<Entry> := [], e;
      ghost var done, rest: seq<Incomplete> := [], list;
      WalkBegins(now, each, limit);
      while t != null
        invariant Valid() && t == First(rest) && past + todo == e
        invariant Midway(done, rest, past, todo, hashes, now, each, limit)
        invariant Cells(list) <= old(Cells(list))
        invariant Remains(Forest(), old(Forest())) && Fewer(kept, old(kept))
        decreases |rest|
      {
        NextCell(t, done, rest, past, todo, hashes, now, each, limit);
        ghost var f, stored := Forest(), kept;
        var nextt := t.next;
        hashes, done := WalkOne(t, done, rest, past, todo, hashes, now, each, limit);
        RemainsAfter(Forest(), f, old(Forest()));
        FewerAfter(kept, stored, old(kept));
        Shift(past, todo);
        t := nextt;
        past, todo, rest := past + [todo[0]], todo[1..], rest[1..];
      }
      WalkEnds(done, rest, past, todo, hashes, now, each, limit);
    }

    ghost function First(q: seq<Incomplete>): Incomplete? {
      if q == [] then null else q[0]
    }

    /** The walk did to the entries `past` what the schedule says, and has the cells of `rest` ahead. */
    ghost predicate Midway(
      done: seq<Incomplete>, rest: seq<Incomplete>, past: seq<Entry>, todo: seq<Entry>, hashes: seq<BlockHash>,
      now: U64, each: U32, limit: U32)
      reads `list, done`b, done`lastAsked, done`noAsks, rest`b, rest`lastAsked, rest`noAsks
    {
      && list == done + rest && Ahead(rest, todo)
      && Entries(done) == Poll(past, now, each, limit)
      && hashes == Asked(past, now, each, limit)
    }

    lemma WalkBegins(now: U64, each: U32, limit: U32)
      requires Valid()
      ensures inchains == First(list) && [] + Entries(list) == Entries(list)
      ensures Midway([], list, [], Entries(list), [], now, each, limit)
    {
      hide Valid, Entries;
      ListHead();
      StartAhead(list);
      PollNone(now, each, limit);
    }

    lemma WalkEnds(
      done: seq<Incomplete>, rest: seq<Incomplete>, past: seq<Entry>, todo: seq<Entry>, hashes: seq<BlockHash>,
      now: U64, each: U32, limit: U32)
      requires Midway(done, rest, past, todo, hashes, now, each, limit) && First(rest) == null
      ensures past == past + todo && Entries(list) == Poll(past, now, each, limit)
      ensures hashes == Asked(past, now, each, limit)
    {
      AheadLength(rest, todo);
      assert list == done;
    }

    /** The cell to look at is the next of the list, and its successor is known before it may go. */
    lemma NextCell(
      t: Incomplete, done: seq<Incomplete>, rest: seq<Incomplete>, past: seq<Entry>, todo: seq<Entry>,
      hashes: seq<BlockHash>, now: U64, each: U32, limit: U32)
      requires Valid() && Midway(done, rest, past, todo, hashes, now, each, limit) && t == First(rest)
      ensures rest != [] && todo != [] && t == rest[0] && t in Cells(list) && t.next == First(rest[1..])
    {
      hide Valid, Ahead, Entries, Poll, Asked;
      AheadLength(rest, todo);
      WalkStep(done, rest, todo);
      ListNext(|done|);
    }

    /** One cell of the walk. */
    method WalkOne(
      t: Incomplete, ghost done: seq<Incomplete>, ghost rest: seq<Incomplete>, ghost past: seq<Entry>,
      ghost todo: seq<Entry>, hashes: seq<BlockHash>, now: U64, each: U32, limit: U32)
      returns (hashes': seq<BlockHash>, ghost done': seq<Incomplete>)
      requires Valid() && Midway(done, rest, past, todo, hashes, now, each, limit)
      requires rest != [] && todo != [] && t == rest[0]
      modifies this`inchains, this`list, this`trees, this`blocks, this`kept, Cells(list)`next, t`lastAsked, t`noAsks
      ensures Valid() && Midway(done', rest[1..], past + [todo[0]], todo[1..], hashes', now, each, limit)
      ensures Cells(list) <= old(Cells(list))
      ensures Remains(Forest(), old(Forest())) && Fewer(kept, old(kept))
    {
      hide Valid, Entries, Due, Expired, Bumped, Poll, Asked, Cells, Remains, Forest, Fewer, Ahead;
      WalkStep(done, rest, todo);
      AheadTail(rest, todo);
      assert list == done + [t] + rest[1..];
      var asked;
      asked, done' := PollNext(t, done, rest[1..], now, each, limit);
      PollSnoc(past, todo[0], now, each, limit);
      hashes' := if asked then hashes + [t.b.hash] else hashes;
    }

    lemma Shift(past: seq<Entry>, todo: seq<Entry>)
      requires todo != []
      ensures past + [todo[0]] + todo[1..] == past + todo
    {
    }

    lemma WalkStep(done: seq<Incomplete>, rest: seq<Incomplete>, todo: seq<Entry>)
      requires list == done + rest && rest != []
      ensures list == done + [rest[0]] + rest[1..] && |done| < |list| && list[|done|] == rest[0]
      ensures rest[0] in Cells(list)
      ensures (if |done| + 1 < |list| then list[|done| + 1] else null) == if rest[1..] == [] then null else rest[1..][0]
    {
      assert rest == [rest[0]] + rest[1..];
      assert list[|done|] in list;
    }

    lemma StartAhead(q: seq<Incomplete>)
      ensures Ahead(q, Entries(q)) && Entries([]) == []
    {
      EntriesAhead(q);
    }

    lemma AheadTail(rest: seq<Incomplete>, todo: seq<Entry>)
      requires Ahead(rest, todo) && rest != []
      ensures todo != [] && todo[0] == Entry(rest[0].b.hash, rest[0].lastAsked, rest[0].noAsks)
      ensures Ahead(rest[1..], todo[1..])
    {
    }

    lemma AheadLength(rest: seq<Incomplete>, todo: seq<Entry>)
      requires Ahead(rest, todo)
      ensures |rest| == |todo|
    {
    }

    lemma ListHead()
      requires Valid()
      ensures inchains == if list == [] then null else list[0]
    {
    }

    lemma ListNext(k: nat)
      requires Valid() && k < |list|
      ensures list[k].next == (if k + 1 < |list| then list[k + 1] else null) && At(k, list[k])
    {
      LinkedTail(list, k);
    }

    lemma CellsApart(k: nat)
      requires Valid() && k < |list|
      ensures list[k] !in list[..k] && list[k] !in list[k + 1..]
    {
    }

    lemma UnheardInMain(hash: BlockHash)
      requires Unheard(hash)
      ensures hash !in Hashes(main)
    {
    }

    lemma ForestOfKept()
      requires Canonical()
      ensures AllGenuine(w, kept.Keys) && Forest() == Canon(w, kept.Keys)
    {
    }

    /** The specification of a receive: the canonical forest over one more block. */
    lemma StepOfReceive(hash: BlockHash)
      requires Canonical() && (hash == w.genesis || Genuine(w, hash))
      ensures AllGenuine(w, kept.Keys + ({hash} - {w.genesis}))
      ensures Step(Forest(), w.par(hash), hash) == Canon(w, kept.Keys + ({hash} - {w.genesis}))
      ensures hash in kept || hash == w.genesis ==> Step(Forest(), w.par(hash), hash) == Forest()
    {
      hide Step, Canon, Matches;
      StepIsCanon(w, kept.Keys, hash);
      if hash in kept || hash == w.genesis {
        assert kept.Keys + ({hash} - {w.genesis}) == kept.Keys;
      }
    }

    /** What the lookup in the main tree says about the blocks received so far. */
    lemma LookupOfReceive(hash: BlockHash)
      requires Canonical() && (hash == w.genesis || Genuine(w, hash))
      ensures hash in Hashes(main) ==> hash == w.genesis || hash in kept
      ensures hash == w.genesis || (hash in kept && w.par(hash) in Hashes(main)) ==> hash in Hashes(main)
      ensures Forest().main == Hashes(main)
      ensures hash !in kept && hash !in Hashes(main) ==>
                kept.Keys + {hash} == kept.Keys + ({hash} - {w.genesis})
    {
      CanonTrees(w, kept.Keys, hash);
      CanonTrees(w, kept.Keys, w.par(hash));
    }

    lemma ReshapedParts(f: Forest, before: set<Block>, h: BlockHash)
      requires Reshaped(f, before, h)
      ensures Listed() && Grown() && Matches(main, trees, f)
      ensures forall t, b | t in trees && b in Nodes(t.shape) :: b in blocks
    {
    }

    lemma CanonRoot()
      requires Canonical()
      ensures root.hash == w.genesis
    {
    }

    /** A block in an incomplete tree was received exactly when it is not the root. */
    lemma ReceivedBefore(hash: BlockHash)
      requires Struct() && Canonical() && hash !in Hashes(main)
      ensures hash in kept <==> exists t :: t in trees && hash in Hashes(t.shape) && t.root.hash != hash
    {
      var R := kept.Keys;
      CanonTrees(w, R, hash);
      if hash in kept {
        var q := Root(w, R, hash);
        assert q in Forest().inc;
        assert exists t :: t in trees && t.root.hash == q;
      }
    }

    /** After the links are changed, the block is in some incomplete tree. */
    lemma HeldAfter(hash: BlockHash)
      requires AllGenuine(w, kept.Keys) && w.genesis !in kept && Genuine(w, hash) && hash !in kept
      requires Matches(main, trees, Step(Forest(), w.par(hash), hash)) && hash !in Hashes(main)
      ensures exists t :: t in trees && hash in Hashes(t.shape)
    {
      var R := kept.Keys + {hash};
      StepIsCanon(w, kept.Keys, hash);
      assert kept.Keys + ({hash} - {w.genesis}) == R;
      CanonTrees(w, R, hash);
      assert exists t :: t in trees && t.root.hash == Root(w, R, hash);
    }

    lemma InMain(b: Block)
      requires Struct() && Canonical() && b in Nodes(main)
      ensures b.hash in Forest().main && root.hash == w.genesis
    {
      HashOfNode(main, b);
    }

    lemma StepToMain(parent: BlockHash, hash: BlockHash)
      requires Canonical() && parent in Forest().main && hash !in Hashes(main)
      ensures Step(Forest(), parent, hash) == JoinMain(Forest(), hash)
    {
    }

    lemma NothingNew()
      ensures Unstamped(blocks - blocks)
    {
    }

    lemma ReshapedBlank(f: Forest, before: set<Block>, h: BlockHash)
      requires Reshaped(f, before, h)
      ensures Unstamped(blocks - before)
    {
    }

    lemma ReshapedMain(f: Forest, before: set<Block>, h: BlockHash)
      requires Reshaped(f, before, h)
      ensures Search(root, main) && Ordered(main) && Nodes(main) <= blocks && before <= blocks
    {
    }

    lemma CellsInList(c: Incomplete?, i: nat, d: Incomplete?, j: nat)
      requires c != null ==> At(i, c)
      requires d != null ==> At(j, d)
      ensures c == null || c in list
      ensures d == null || d in list
    {
    }

    /** A node of one of the trees. */
    ghost predicate Holds(b: Block)
      reads `main, `trees
    {
      b in Nodes(main) || exists t :: t in trees && b in Nodes(t.shape)
    }

    lemma HeldIf(b: Block)
      requires b in Nodes(main) || exists t :: t in trees && b in Nodes(t.shape)
      ensures Holds(b)
    {
    }

    lemma MainIsSearchTree()
      requires Struct()
      ensures Search(root, main) && Ordered(main)
    {
    }

    /** Every stored block is in some tree. */
    lemma KeptIsHeld(h: BlockHash)
      requires Struct() && Canonical() && h in kept
      ensures h in Hashes(main) || exists t :: t in trees && h in Hashes(t.shape)
    {
      hide TreeOK, Apart, Hashes;
      CanonTrees(w, kept.Keys, h);
      var q := Root(w, kept.Keys, h);
      assert q in Forest().inc ==> exists t :: t in trees && t.root.hash == q;
    }

    /** The parent link of a node leads to its parent in the same tree; only roots have none. */
    lemma ParentOf(b: Block)
      requires Valid() && Holds(b)
      ensures b.parent == null <==> b.hash !in kept
      ensures b.parent != null ==> Holds(b.parent) && b.parent.hash == w.par(b.hash)
    {
      if b in Nodes(main) {
        ParentInTree(TreeView(root, main), b);
      } else {
        var t :| t in trees && b in Nodes(t.shape);
        ParentInTree(t, b);
      }
    }

    lemma ParentInTree(t: TreeView, b: Block)
      requires Struct() && Canonical() && (t == TreeView(root, main) || t in trees) && b in Nodes(t.shape)
      ensures b.parent == null <==> b.hash !in kept
      ensures b.parent != null ==> b.parent in Nodes(t.shape) && b.parent.hash == w.par(b.hash)
    {
      HashOfNode(t.shape, b);
      HashOfNode(t.shape, t.root);
      if b.hash == t.root.hash { OneHashOneNode(t.shape, b, t.root); }
      CanonTrees(w, kept.Keys, b.hash);
      RootHasNoParentInside(Nodes(t.shape), t.root, w, b);
      assert b != t.root ==> Attached(b, Nodes(t.shape), w);
    }

    lemma ValidNow()
      requires Struct() && Canonical() && Stored() && Cached()
      ensures Valid()
    {
    }

    lemma ValidParts()
      requires Valid()
      ensures Struct() && Canonical() && Stored() && Cached()
    {
    }

    lemma StructParts()
      requires Struct()
      ensures Listed() && Grown() && Apart(main, trees)
    {
    }

    /** Which branch of the specification the two lookups select. */
    lemma HomeBranch(ch: Incomplete?, ci: nat, ph: Incomplete?, pi: nat, parent: BlockHash, hash: BlockHash)
      requires Struct() && Canonical()
      requires parent == w.par(hash) && Genuine(w, hash) && hash !in kept
      requires parent !in Hashes(main) && hash !in Hashes(main)
      requires ch == null <==> forall t | t in trees :: hash !in Hashes(t.shape)
      requires ch != null ==> At(ci, ch) && hash in Hashes(trees[ci].shape)
      requires ph == null <==> forall t | t in trees :: parent !in Hashes(t.shape)
      requires ph != null ==> At(pi, ph) && parent in Hashes(trees[pi].shape)
      ensures ch == null ==> Unheard(hash)
      ensures ph == null ==> Unheard(parent)
      ensures ch != null ==> trees[ci].root.hash == hash
      ensures ch != null && ph != null ==> ci != pi
      ensures var f := Forest();
        Step(f, parent, hash) ==
          if ch == null && ph == null then Start(f, parent, hash)
          else if ch == null then Extend(f, ph.b.hash, hash)
          else if ph == null then Reroot(f, hash, parent)
          else Merge(f, hash, ph.b.hash)
    {
      var f, R := Forest(), kept.Keys;
      if ch == null {
        NoHome(main, trees, f, hash);
      } else {
        assert trees[ci] in trees;
        HomeOfTree(w, R, main, trees, trees[ci], hash);
      }
      if ph == null {
        NoHome(main, trees, f, parent);
      } else {
        RootOfCell(pi, ph);
        assert trees[pi] in trees;
        HomeOfTree(w, R, main, trees, trees[pi], parent);
        CanonTrees(w, R, parent);
      }
    }

    lemma RootOfCell(k: nat, cell: Incomplete)
      requires Struct() && At(k, cell)
      ensures cell.b == trees[k].root
    {
    }

    lemma DistinctBlocks()
      requires Stored()
      ensures OneNodePerHash(blocks)
    {
    }

    lemma UnheardInTree(hash: BlockHash, t: TreeView)
      requires Unheard(hash) && t in trees
      ensures hash !in Hashes(t.shape)
    {
    }

    lemma CanonMatches()
      requires Canonical()
      ensures AllGenuine(w, kept.Keys) && w.genesis !in kept
      ensures Forest() == Canon(w, kept.Keys) && Matches(main, trees, Forest())
    {
    }
  }

  /** A placeholder for the missing parent, with its one child. */
  method NewPair(parent: BlockHash, hash: BlockHash, ghost w: Lineage)
    returns (root: Block, ghost node: Block, ghost s: Shape)
    requires parent == w.par(hash) && Genuine(w, hash)
    ensures TreeOK(TreeView(root, s), w) && fresh({root, node})
    ensures Nodes(s) == {root, node} && Hashes(s) == {parent, hash}
    ensures root.hash == parent != hash == node.hash && Blank(root) && Blank(node)
  {
    hide TreeOK;
    var bl := BootstrapChain(parent, w);
    SingleShape(bl);
    assert parent != hash;
    var ok, bl', n := AddBlockByParentHash(bl, Bin(Nil, bl, Nil), {bl}, parent, hash, w);
    InsertOneNodes(Bin(Nil, bl, Nil), n);
    root, node, s := bl', n, InsertOne(Bin(Nil, bl, Nil), n);
  }

  lemma SingleShape(b: Block)
    ensures Nodes(Bin(Nil, b, Nil)) == {b} && Hashes(Bin(Nil, b, Nil)) == {b.hash}
    ensures Ordered(Bin(Nil, b, Nil))
  {
  }

  lemma ClanRoot(T: set<Block>, a: Block, w: Lineage)
    requires Clan(T, a, w)
    ensures a in T
  {
  }

  method FindInTree(r: Block, hash: BlockHash, ghost t: TreeView, ghost w: Lineage) returns (b: Block?)
    requires r == t.root && TreeOK(t, w)
    ensures b == null <==> hash !in Hashes(t.shape)
    ensures b != null ==> b in Nodes(t.shape) && b.hash == hash
    ensures b != null && hash == r.hash ==> b.parent == null
    ensures b != null && hash != r.hash ==> b.parent != null && b.parent.hash == w.par(hash)
  {
    hide TreeOK;
    TreeIsOrdered(t, w);
    assert allocated(Nodes(t.shape));
    b := FindBlockByHash(r, hash, t.shape);
    if b != null {
      ParentLinks(t, b, w);
    }
  }

  lemma ParentLinks(t: TreeView, b: Block, w: Lineage)
    requires TreeOK(t, w) && b in Nodes(t.shape)
    ensures b.hash == t.root.hash ==> b.parent == null
    ensures b.hash != t.root.hash ==> b.parent != null && b.parent.hash == w.par(b.hash)
  {
    if b.hash == t.root.hash {
      OneHashOneNode(t.shape, b, t.root);
    } else {
      assert Attached(b, Nodes(t.shape), w);
    }
  }

  lemma TreeIsOrdered(t: TreeView, w: Lineage)
    requires TreeOK(t, w)
    ensures Ordered(t.shape) && Search(t.root, t.shape)
    ensures t.root in Nodes(t.shape) && t.root.hash in Hashes(t.shape)
  {
    HashOfNode(t.shape, t.root);
  }

  lemma ApartNodes(main: Shape, trees: seq<TreeView>)
    requires Apart(main, trees)
    ensures forall t | t in trees :: Nodes(main) !! Nodes(t.shape)
    ensures forall i, j | 0 <= i < |trees| && 0 <= j < |trees| && i != j ::
              Nodes(trees[i].shape) !! Nodes(trees[j].shape)
  {
    forall t | t in trees ensures Nodes(main) !! Nodes(t.shape) {
      DisjointNodes(main, t.shape);
    }
    forall i, j | 0 <= i < |trees| && 0 <= j < |trees| && i != j
      ensures Nodes(trees[i].shape) !! Nodes(trees[j].shape)
    {
      if i < j {
        DisjointNodes(trees[i].shape, trees[j].shape);
      } else {
        DisjointNodes(trees[j].shape, trees[i].shape);
      }
    }
  }
}
