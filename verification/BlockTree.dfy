/**
 * One block node is in two structures at once: a binary search tree on `hash`
 * (`left`/`right`), used for lookup, and a genealogy tree (`parent`/`child`/`sibling`).
 *
 * `Shape` is the search tree as a value; `Search` ties it to the heap.  `Clan` and `Family` say
 * that the genealogy links of a set of nodes form one tree; the ghost field `kids` is the list
 * that `child` and `sibling` spell out.
 */
module BlockTree {
  import opened Types

  /** The fields of `network_block` that some rule depends on, and an opaque remainder. */
  datatype NetworkBlock = NetworkBlock(
    parent: BlockHash, hash: BlockHash, depth: U32, rank: U32, nextRank: U32, timeMined: U64, rest: nat)

  class Block {
    const hash: BlockHash
    var nb: Option<NetworkBlock>
    var weakBlocks: seq<BlockHash>
    /** When the block was partially confirmed and committed; 0 means not yet. */
    var timePartial: U64
    var timeCommitted: U64
    var left: Block?
    var right: Block?
    var parent: Block?
    var child: Block?
    var sibling: Block?
    ghost var kids: seq<Block>

    constructor (hash: BlockHash)
      ensures this.hash == hash && nb == None && weakBlocks == [] && kids == []
      ensures left == null && right == null && parent == null && child == null && sibling == null
      ensures timePartial == 0 && timeCommitted == 0
    {
      this.hash := hash;
      nb, weakBlocks, kids := None, [], [];
      timePartial, timeCommitted := 0, 0;
      left, right, parent, child, sibling := null, null, null, null, null;
    }
  }

  /** A node that holds nothing yet. */
  ghost predicate Blank(b: Block)
    reads b`nb, b`timePartial, b`timeCommitted
  {
    b.nb == None && b.timePartial == 0 && b.timeCommitted == 0
  }

  ghost predicate Unstamped(bs: set<Block>)
    reads bs`timePartial, bs`timeCommitted
  {
    forall b | b in bs :: b.timePartial == 0 && b.timeCommitted == 0
  }

  // ------------------------------------------------------------------ the search tree, as a value

  datatype Shape = Nil | Bin(l: Shape, b: Block, r: Shape)

  ghost function Nodes(s: Shape): set<Block> {
    match s
    case Nil => {}
    case Bin(l, b, r) => Nodes(l) + {b} + Nodes(r)
  }

  ghost function Hashes(s: Shape): set<BlockHash> {
    match s
    case Nil => {}
    case Bin(l, b, r) => Hashes(l) + {b.hash} + Hashes(r)
  }

  ghost predicate Ordered(s: Shape) {
    match s
    case Nil => true
    case Bin(l, b, r) =>
      && Ordered(l) && Ordered(r)
      && (forall h | h in Hashes(l) :: h < b.hash)
      && (forall h | h in Hashes(r) :: b.hash < h)
  }

  /** `insert_one_node`, as a function of the tree. */
  ghost function InsertOne(s: Shape, n: Block): Shape {
    match s
    case Nil => Bin(Nil, n, Nil)
    case Bin(l, b, r) =>
      if b.hash > n.hash then Bin(InsertOne(l, n), b, r)
      else if b.hash < n.hash then Bin(l, b, InsertOne(r, n))
      else s
  }

  /** `insert_subtree_by_hash`, as a function of the two trees. */
  ghost function InsertAll(s: Shape, t: Shape): Shape
    decreases t
  {
    match t
    case Nil => s
    case Bin(l, b, r) => InsertAll(InsertAll(InsertOne(s, b), l), r)
  }

  lemma {:induction false} HashOfNode(s: Shape, x: Block)
    requires x in Nodes(s)
    ensures x.hash in Hashes(s)
  {
    match s
    case Bin(l, b, r) =>
      if x in Nodes(l) {
        HashOfNode(l, x);
      } else if x in Nodes(r) {
        HashOfNode(r, x);
      }
  }

  lemma {:induction false} NodeOfHash(s: Shape, h: BlockHash) returns (x: Block)
    requires h in Hashes(s)
    ensures x in Nodes(s) && x.hash == h
  {
    match s
    case Bin(l, b, r) =>
      if h in Hashes(l) {
        x := NodeOfHash(l, h);
      } else if h in Hashes(r) {
        x := NodeOfHash(r, h);
      } else {
        x := b;
      }
  }

  lemma {:induction false} OneHashOneNode(s: Shape, x: Block, y: Block)
    requires Ordered(s) && x in Nodes(s) && y in Nodes(s) && x.hash == y.hash
    ensures x == y
  {
    match s
    case Bin(l, b, r) =>
      if x in Nodes(l) { HashOfNode(l, x); }
      if y in Nodes(l) { HashOfNode(l, y); }
      if x in Nodes(r) { HashOfNode(r, x); }
      if y in Nodes(r) { HashOfNode(r, y); }
      if x in Nodes(l) && y in Nodes(l) {
        OneHashOneNode(l, x, y);
      } else if x in Nodes(r) && y in Nodes(r) {
        OneHashOneNode(r, x, y);
      }
  }

  /** One hash for each node. */
  lemma {:induction false} AsManyHashes(s: Shape)
    requires Ordered(s)
    ensures |Hashes(s)| == |Nodes(s)|
  {
    match s
    case Nil =>
    case Bin(l, b, r) =>
      AsManyHashes(l);
      AsManyHashes(r);
      Parts(s);
      hide Nodes, Ordered;
      assert |Hashes(l) + {b.hash} + Hashes(r)| == |Hashes(l)| + 1 + |Hashes(r)|;
      assert |Nodes(l) + {b} + Nodes(r)| == |Nodes(l)| + 1 + |Nodes(r)|;
      assert Nodes(s) == Nodes(l) + {b} + Nodes(r) by { PartsOrdered(s); }
  }

  lemma DisjointNodes(s: Shape, t: Shape)
    requires Hashes(s) !! Hashes(t)
    ensures Nodes(s) !! Nodes(t)
  {
    forall x | x in Nodes(s) ensures x !in Nodes(t) {
      HashOfNode(s, x);
      if x in Nodes(t) { HashOfNode(t, x); }
    }
  }

  /** The root and the two subtrees share no hash and no node. */
  lemma Parts(t: Shape)
    requires t.Bin? && Ordered(t)
    ensures Hashes(t.l) !! Hashes(t.r) && t.b.hash !in Hashes(t.l) && t.b.hash !in Hashes(t.r)
    ensures Nodes(t.l) !! Nodes(t.r) && t.b !in Nodes(t.l) && t.b !in Nodes(t.r)
  {
    DisjointNodes(t.l, t.r);
    if t.b in Nodes(t.l) { HashOfNode(t.l, t.b); }
    if t.b in Nodes(t.r) { HashOfNode(t.r, t.b); }
  }

  lemma PartsOrdered(t: Shape)
    requires t.Bin? && Ordered(t)
    ensures Ordered(t.l) && Ordered(t.r)
    ensures Nodes(t) == Nodes(t.l) + {t.b} + Nodes(t.r) && Hashes(t) == Hashes(t.l) + {t.b.hash} + Hashes(t.r)
    ensures Hashes(t.l) !! Hashes(t.r) && t.b.hash !in Hashes(t.l) && t.b.hash !in Hashes(t.r)
  {
    Parts(t);
  }

  /** A new hash adds its node; a hash that is there already changes nothing. */
  lemma {:induction false} InsertOneNodes(s: Shape, n: Block)
    requires Ordered(s)
    ensures Ordered(InsertOne(s, n))
    ensures Nodes(InsertOne(s, n)) == if n.hash in Hashes(s) then Nodes(s) else Nodes(s) + {n}
    ensures Hashes(InsertOne(s, n)) == Hashes(s) + {n.hash}
  {
    match s
    case Nil =>
    case Bin(l, b, r) =>
      if b.hash > n.hash {
        InsertOneNodes(l, n);
      } else if b.hash < n.hash {
        InsertOneNodes(r, n);
      }
  }

  /** Grafting keeps the order and joins the hashes; trees without a common hash keep all their nodes. */
  lemma {:induction false} InsertAllNodes(s: Shape, t: Shape)
    requires Ordered(s) && Ordered(t)
    ensures Ordered(InsertAll(s, t))
    ensures Nodes(InsertAll(s, t)) <= Nodes(s) + Nodes(t)
    ensures Hashes(s) !! Hashes(t) ==> Nodes(InsertAll(s, t)) == Nodes(s) + Nodes(t)
    ensures Hashes(InsertAll(s, t)) == Hashes(s) + Hashes(t)
    decreases t
  {
    match t
    case Nil =>
    case Bin(l, b, r) =>
      hide *;
      assert InsertAll(s, t) == InsertAll(InsertAll(InsertOne(s, b), l), r) by { AllInThreeSteps(s, l, b, r); }
      PartsOrdered(t);
      InsertOneNodes(s, b);
      var s1 := InsertOne(s, b);
      InsertAllNodes(s1, l);
      var s2 := InsertAll(s1, l);
      InsertAllNodes(s2, r);
      MovedIn(Nodes(s), Nodes(l), b, Nodes(r));
      MovedIn(Hashes(s), Hashes(l), b.hash, Hashes(r));
  }

  /** `insert_block_only_by_hash`, as a function: an equal hash goes to the left. */
  ghost function InsertBelow(s: Shape, n: Block): Shape {
    match s
    case Nil => Bin(Nil, n, Nil)
    case Bin(l, b, r) => if b.hash >= n.hash then Bin(InsertBelow(l, n), b, r) else Bin(l, b, InsertBelow(r, n))
  }

  /** The node is always added; for a new hash this is the ordered insertion. */
  lemma {:induction false} InsertBelowNodes(s: Shape, n: Block)
    ensures Nodes(InsertBelow(s, n)) == Nodes(s) + {n}
    ensures n.hash !in Hashes(s) ==> InsertBelow(s, n) == InsertOne(s, n)
  {
    match s
    case Nil =>
    case Bin(l, b, r) =>
      InsertBelowNodes(l, n);
      InsertBelowNodes(r, n);
  }

  lemma AllInThreeSteps(s: Shape, l: Shape, b: Block, r: Shape)
    ensures InsertAll(s, Bin(l, b, r)) == InsertAll(InsertAll(InsertOne(s, b), l), r)
  {
  }

  lemma MovedIn<T>(s: set<T>, l: set<T>, b: T, r: set<T>)
    ensures s + {b} + l + r == s + (l + {b} + r)
  {
  }

  // ------------------------------------------------------------------ the search tree, in the heap

  ghost predicate Search(r: Block?, s: Shape)
    reads Nodes(s)`left, Nodes(s)`right
  {
    match s
    case Nil => r == null
    case Bin(l, b, rr) => r == b && Search(b.left, l) && Search(b.right, rr)
  }

  method FindBlockByHash(b: Block?, hash: BlockHash, ghost s: Shape) returns (f: Block?)
    requires Search(b, s) && Ordered(s)
    ensures f != null <==> hash in Hashes(s)
    ensures f != null ==> f in Nodes(s) && f.hash == hash
    decreases s
  {
    if b == null {
      return null;
    }
    if b.hash > hash {
      f := FindBlockByHash(b.left, hash, s.l);
    } else if b.hash < hash {
      f := FindBlockByHash(b.right, hash, s.r);
    } else {
      f := b;
    }
  }

  method InsertOneNode(r: Block?, subtree: Block?, ghost s: Shape) returns (r': Block?)
    requires Search(r, s) && Ordered(s)
    requires subtree != null ==> subtree.left == null && subtree.right == null
    modifies Nodes(s)`left, Nodes(s)`right
    ensures subtree == null ==> r' == r && Search(r', s)
    ensures subtree != null ==> Search(r', InsertOne(s, subtree))
    ensures r != null ==> r' == r
    decreases s
  {
    if r == null {
      return subtree;
    }
    if subtree == null {
      return r;
    }
    Parts(s);
    assert allocated(Nodes(s.l)) && allocated(Nodes(s.r));
    if r.hash > subtree.hash {
      InsertOneNodes(s.l, subtree);
      if r.left == null {
        r.left := subtree;
      } else {
        var l := InsertOneNode(r.left, subtree, s.l);
        r.left := l;
      }
    } else if r.hash < subtree.hash {
      InsertOneNodes(s.r, subtree);
      if r.right == null {
        r.right := subtree;
      } else {
        var rr := InsertOneNode(r.right, subtree, s.r);
        r.right := rr;
      }
    }
    return r;
  }

  /** A fresh node enters the search tree, whether or not its hash is there already. */
  method InsertBlockOnlyByHash(r: Block?, hash: BlockHash, ghost s: Shape) returns (r': Block, newNode: Block)
    requires Search(r, s) && Ordered(s)
    modifies Nodes(s)`left, Nodes(s)`right
    ensures fresh(newNode) && newNode.hash == hash && Blank(newNode) && newNode.kids == []
    ensures newNode.parent == null && newNode.child == null && newNode.sibling == null
    ensures Search(r', InsertBelow(s, newNode))
    ensures r != null ==> r' == r
    decreases s
  {
    if r == null {
      newNode := new Block(hash);
      return newNode, newNode;
    }
    hide *;
    SearchParts(r, s);
    PartsOrdered(s);
    Parts(s);
    ghost var ls, rs := Nodes(s.l), Nodes(s.r);
    assert allocated(ls) && allocated(rs);
    if r.hash >= hash {
      var l;
      l, newNode := InsertBlockOnlyByHash(r.left, hash, s.l);
      InsertBelowNodes(s.l, newNode);
      BelowParts(s, newNode);
      HangLeft(r, l, InsertBelow(s.l, newNode), s.r);
    } else {
      var rr;
      rr, newNode := InsertBlockOnlyByHash(r.right, hash, s.r);
      InsertBelowNodes(s.r, newNode);
      BelowParts(s, newNode);
      HangRight(r, rr, s.l, InsertBelow(s.r, newNode));
    }
    r' := r;
  }

  lemma BelowParts(s: Shape, n: Block)
    requires s.Bin?
    ensures s.b.hash >= n.hash ==> InsertBelow(s, n) == Bin(InsertBelow(s.l, n), s.b, s.r)
    ensures s.b.hash < n.hash ==> InsertBelow(s, n) == Bin(s.l, s.b, InsertBelow(s.r, n))
  {
  }

  lemma SearchParts(r: Block, s: Shape)
    requires Search(r, s)
    ensures s.Bin? && r == s.b && Search(r.left, s.l) && Search(r.right, s.r)
  {
  }

  method HangLeft(r: Block, left: Block, ghost l: Shape, ghost rr: Shape)
    requires Search(left, l) && Search(r.right, rr) && r !in Nodes(l) && r !in Nodes(rr)
    modifies r`left
    ensures Search(r, Bin(l, r, rr))
  {
    r.left := left;
  }

  method HangRight(r: Block, right: Block, ghost l: Shape, ghost rr: Shape)
    requires Search(right, rr) && Search(r.left, l) && r !in Nodes(l) && r !in Nodes(rr)
    modifies r`right
    ensures Search(r, Bin(l, r, rr))
  {
    r.right := right;
  }

  ghost predicate Graftable(s: Shape, t: Shape) {
    Ordered(s) && Ordered(t) && Nodes(s) !! Nodes(t)
  }

  /**
   * The nodes of `t` move into `s`: each one is unlinked, then inserted on its own. A node whose
   * hash is there already stays out.
   */
  method InsertSubtreeByHash(r: Block?, subtree: Block?, ghost s: Shape, ghost t: Shape) returns (r': Block?)
    requires Search(r, s) && Search(subtree, t) && Graftable(s, t)
    modifies Nodes(s)`left, Nodes(s)`right, Nodes(t)`left, Nodes(t)`right
    ensures Search(r', InsertAll(s, t))
    ensures r != null ==> r' == r
    decreases t
  {
    if subtree == null {
      return r;
    }
    hide InsertOne, Ordered, Hashes;
    ghost var s1, s2 := InsertOne(s, subtree), InsertAll(InsertOne(s, subtree), t.l);
    GraftParts(s, t);
    assert allocated(Nodes(t.l)) && allocated(Nodes(t.r));
    var left, right := subtree.left, subtree.right;
    subtree.left, subtree.right := null, null;
    r' := InsertOneNode(r, subtree, s);
    assert Search(left, t.l);
    assert Search(right, t.r);
    r' := InsertSubtreeByHash(r', left, s1, t.l);
    assert Search(right, t.r);
    r' := InsertSubtreeByHash(r', right, s2, t.r);
    assert InsertAll(s, t) == InsertAll(s2, t.r);
  }

  /** What the three steps of a graft need from each other. */
  lemma GraftParts(s: Shape, t: Shape)
    requires t.Bin? && Graftable(s, t)
    ensures t.b !in Nodes(s)
    ensures Nodes(t.l) !! Nodes(t.r) && t.b !in Nodes(t.l) && t.b !in Nodes(t.r)
    ensures Nodes(s) !! Nodes(t.l) && Nodes(s) !! Nodes(t.r)
    ensures var s1 := InsertOne(s, t.b);
            && Graftable(s1, t.l) && Nodes(s1) <= Nodes(s) + {t.b}
            && var s2 := InsertAll(s1, t.l);
            Graftable(s2, t.r) && Nodes(s2) <= Nodes(s1) + Nodes(t.l)
  {
    Parts(t);
    PartsOrdered(t);
    InsertOneNodes(s, t.b);
    InsertAllNodes(InsertOne(s, t.b), t.l);
  }
}
