/** The search tree of the weak blocks of one chain, with its citation marks. */
module WeakTree {
  import opened Types

  /** What the announcement of a weak block says about it besides its hash. */
  datatype Announcement = Announcement(parent: BlockHash, noTxs: U32)

  class WeakBlock {
    const hash: BlockHash
    const ann: Announcement
    var isFull: bool
    /** Marked as cited: for a received block, or because a block mined here lists it. */
    var besited: bool
    var left: WeakBlock?
    var right: WeakBlock?

    constructor (hash: BlockHash, ann: Announcement)
      ensures this.hash == hash && this.ann == ann
      ensures !isFull && !besited && left == null && right == null
    {
      this.hash, this.ann := hash, ann;
      isFull, besited, left, right := false, false, null, null;
    }
  }

  datatype Shape = Nil | Bin(l: Shape, b: WeakBlock, r: Shape)

  ghost function Nodes(s: Shape): set<WeakBlock> {
    match s
    case Nil => {}
    case Bin(l, b, r) => Nodes(l) + {b} + Nodes(r)
  }

  ghost predicate Ordered(s: Shape) {
    match s
    case Nil => true
    case Bin(l, b, r) =>
      && Ordered(l) && Ordered(r)
      && (forall x | x in Nodes(l) :: x.hash < b.hash)
      && (forall x | x in Nodes(r) :: b.hash < x.hash)
  }

  ghost predicate Search(r: WeakBlock?, s: Shape)
    reads Nodes(s)`left, Nodes(s)`right
  {
    match s
    case Nil => r == null
    case Bin(l, b, rr) => r == b && Search(b.left, l) && Search(b.right, rr)
  }

  ghost predicate Absent(s: Shape, hash: BlockHash) {
    forall x | x in Nodes(s) :: x.hash != hash
  }

  lemma {:induction false} OneHashOneNode(s: Shape, x: WeakBlock, y: WeakBlock)
    requires Ordered(s) && x in Nodes(s) && y in Nodes(s) && x.hash == y.hash
    ensures x == y
  {
    match s
    case Bin(l, b, r) =>
      if x in Nodes(l) && y in Nodes(l) {
        OneHashOneNode(l, x, y);
      } else if x in Nodes(r) && y in Nodes(r) {
        OneHashOneNode(r, x, y);
      }
  }

  method FindWeakBlockByHash(b: WeakBlock?, hash: BlockHash, ghost s: Shape) returns (f: WeakBlock?)
    requires Search(b, s) && Ordered(s)
    ensures f == null <==> Absent(s, hash)
    ensures f != null ==> f in Nodes(s) && f.hash == hash
    decreases s
  {
    if b == null {
      return null;
    }
    if b.hash > hash {
      f := FindWeakBlockByHash(b.left, hash, s.l);
    } else if b.hash < hash {
      f := FindWeakBlockByHash(b.right, hash, s.r);
    } else {
      f := b;
    }
  }

  ghost function Insert(s: Shape, b: WeakBlock): Shape {
    match s
    case Nil => Bin(Nil, b, Nil)
    case Bin(l, x, r) => if x.hash >= b.hash then Bin(Insert(l, b), x, r) else Bin(l, x, Insert(r, b))
  }

  lemma Halves(s: Shape, hash: BlockHash)
    requires Ordered(s) && s.Bin? && Absent(s, hash)
    ensures Ordered(s.l) && Ordered(s.r) && Absent(s.l, hash) && Absent(s.r, hash)
    ensures Nodes(s) == Nodes(s.l) + {s.b} + Nodes(s.r)
    ensures Nodes(s.l) !! Nodes(s.r) && s.b !in Nodes(s.l) && s.b !in Nodes(s.r) && s.b.hash != hash
  {
    assert s.b in Nodes(s) && (forall y | y in Nodes(s.l) || y in Nodes(s.r) :: y in Nodes(s));
  }

  /** One half of an ordered tree gains a node on its own side of the root. */
  lemma OrderedFrom(s: Shape, l: Shape, x: WeakBlock, r: Shape, b: WeakBlock)
    requires s.Bin? && Ordered(s) && x == s.b && Ordered(l) && Ordered(r)
    requires if x.hash > b.hash then Nodes(l) == Nodes(s.l) + {b} && r == s.r
             else x.hash < b.hash && l == s.l && Nodes(r) == Nodes(s.r) + {b}
    ensures Ordered(Bin(l, x, r)) && Nodes(Bin(l, x, r)) == Nodes(s) + {b}
  {
  }

  lemma {:induction false} InsertKeepsOrder(s: Shape, b: WeakBlock)
    requires Ordered(s) && Absent(s, b.hash)
    ensures Ordered(Insert(s, b)) && Nodes(Insert(s, b)) == Nodes(s) + {b}
  {
    match s
    case Nil =>
    case Bin(l, x, r) =>
      hide *;
      Halves(s, b.hash);
      InsertParts(s, b);
      if x.hash >= b.hash {
        InsertKeepsOrder(l, b);
        OrderedFrom(s, Insert(l, b), x, r, b);
      } else {
        InsertKeepsOrder(r, b);
        OrderedFrom(s, l, x, Insert(r, b), b);
      }
  }

  /** The node is always added; an equal hash goes to the left. */
  lemma {:induction false} InsertAddsNode(s: Shape, b: WeakBlock)
    ensures Nodes(Insert(s, b)) == Nodes(s) + {b}
  {
    match s
    case Nil =>
    case Bin(l, x, r) =>
      InsertAddsNode(l, b);
      InsertAddsNode(r, b);
  }

  method InsertWeakBlockByHash(root: WeakBlock?, b: WeakBlock, ghost s: Shape) returns (root': WeakBlock)
    requires Search(root, s) && Ordered(s) && b !in Nodes(s) && b.left == null && b.right == null
    modifies Nodes(s)`left, Nodes(s)`right
    ensures Search(root', Insert(s, b))
    ensures root != null ==> root' == root
    decreases s
  {
    if root == null {
      return b;
    }
    hide *;
    SearchParts(root, s);
    Disjoint(s);
    InsertParts(s, b);
    ghost var ls, rs := Nodes(s.l), Nodes(s.r);
    assert allocated(ls) && allocated(rs);
    if root.hash >= b.hash {
      InsertAddsNode(s.l, b);
      var l := InsertWeakBlockByHash(root.left, b, s.l);
      HangLeft(root, l, Insert(s.l, b), s.r);
    } else {
      InsertAddsNode(s.r, b);
      var r := InsertWeakBlockByHash(root.right, b, s.r);
      HangRight(root, r, s.l, Insert(s.r, b));
    }
    root' := root;
  }

  method HangLeft(root: WeakBlock, left: WeakBlock, ghost l: Shape, ghost r: Shape)
    requires Search(left, l) && Search(root.right, r) && root !in Nodes(l) && root !in Nodes(r)
    modifies root`left
    ensures Search(root, Bin(l, root, r))
  {
    root.left := left;
  }

  method HangRight(root: WeakBlock, right: WeakBlock, ghost l: Shape, ghost r: Shape)
    requires Search(right, r) && Search(root.left, l) && root !in Nodes(l) && root !in Nodes(r)
    modifies root`right
    ensures Search(root, Bin(l, root, r))
  {
    root.right := right;
  }

  lemma SearchParts(root: WeakBlock, s: Shape)
    requires Search(root, s)
    ensures s.Bin? && root == s.b && Search(root.left, s.l) && Search(root.right, s.r)
  {
  }

  lemma InsertParts(s: Shape, b: WeakBlock)
    requires s.Bin?
    ensures Insert(s, b) == if s.b.hash >= b.hash then Bin(Insert(s.l, b), s.b, s.r) else Bin(s.l, s.b, Insert(s.r, b))
  {
  }

  // ------------------------------------------------------------------ citations

  /** The full blocks that no strong block cites yet, in the order of the walk. */
  ghost function Unsited(s: Shape): seq<BlockHash>
    reads Nodes(s)`isFull, Nodes(s)`besited
  {
    match s
    case Nil => []
    case Bin(l, b, r) => (if !b.besited && b.isFull then [b.hash] else []) + Unsited(l) + Unsited(r)
  }

  /** The list holds exactly the full, uncited blocks, each once. */
  lemma {:induction false} UnsitedIsExact(s: Shape)
    requires Ordered(s)
    ensures NoRepeats(Unsited(s))
    ensures forall h :: h in Unsited(s) <==> exists b :: b in Nodes(s) && b.hash == h && b.isFull && !b.besited
  {
    match s
    case Nil =>
    case Bin(l, b, r) =>
      UnsitedIsExact(l);
      UnsitedIsExact(r);
      UnsitedMembers(l, b, r);
  }

  lemma NoRepeatsJoin(a: seq<BlockHash>, b: seq<BlockHash>)
    requires NoRepeats(a) && NoRepeats(b) && forall h | h in a :: h !in b
    ensures NoRepeats(a + b)
  {
    forall i, j | 0 <= i < j < |a + b| ensures (a + b)[i] != (a + b)[j] {
      assert i < |a| ==> (a + b)[i] in a;
      assert j >= |a| ==> (a + b)[j] in b;
    }
  }

  lemma UnsitedMembers(l: Shape, b: WeakBlock, r: Shape)
    requires Ordered(Bin(l, b, r)) && NoRepeats(Unsited(l)) && NoRepeats(Unsited(r))
    requires forall h :: h in Unsited(l) <==> exists x :: x in Nodes(l) && x.hash == h && x.isFull && !x.besited
    requires forall h :: h in Unsited(r) <==> exists x :: x in Nodes(r) && x.hash == h && x.isFull && !x.besited
    ensures var s := Bin(l, b, r);
            && NoRepeats(Unsited(s))
            && forall h :: h in Unsited(s) <==> exists x :: x in Nodes(s) && x.hash == h && x.isFull && !x.besited
  {
    var s := Bin(l, b, r);
    var first := if !b.besited && b.isFull then [b.hash] else [];
    forall h | h in Unsited(l) ensures h < b.hash {}
    forall h | h in Unsited(r) ensures h > b.hash {}
    NoRepeatsJoin(first, Unsited(l));
    NoRepeatsJoin(first + Unsited(l), Unsited(r));
    forall h ensures h in Unsited(s) <==> exists x :: x in Nodes(s) && x.hash == h && x.isFull && !x.besited {
      if h in Unsited(l) {
        var x :| x in Nodes(l) && x.hash == h && x.isFull && !x.besited;
        assert x in Nodes(s);
      }
      if h in Unsited(r) {
        var x :| x in Nodes(r) && x.hash == h && x.isFull && !x.besited;
        assert x in Nodes(s);
      }
    }
  }

  /** Collects the full, uncited blocks and marks them as cited. */
  method GetUnsitedBlocks(unsited: seq<BlockHash>, root: WeakBlock?, ghost s: Shape, ghost nodes: set<WeakBlock>)
    returns (unsited': seq<BlockHash>)
    requires Search(root, s) && Ordered(s) && nodes == Nodes(s)
    modifies nodes`besited
    ensures unsited' == unsited + old(Unsited(s))
    ensures forall b | b in nodes :: b.besited == (old(b.besited) || b.isFull)
    decreases s
  {
    hide Ordered, Unsited, Nodes;
    unsited' := unsited;
    if root == null {
      NoneUnsited();
      return;
    }
    Disjoint(s);
    UnsitedParts(s);
    ghost var ls, rs := Nodes(s.l), Nodes(s.r);
    ghost var first, ul, ur := if !root.besited && root.isFull then [root.hash] else [], Unsited(s.l), Unsited(s.r);
    assert allocated(ls) && allocated(rs);
    assert unsited + (first + ul + ur) == unsited + first + ul + ur;
    if !root.besited && root.isFull {
      unsited' := unsited' + [root.hash];
      root.besited := true;
    }
    assert Unsited(s.l) == ul && Unsited(s.r) == ur;
    if root.left != null {
      unsited' := GetUnsitedBlocks(unsited', root.left, s.l, ls);
    } else {
      NoneUnsited();
    }
    assert unsited' == unsited + first + ul && Unsited(s.r) == ur;
    if root.right != null {
      unsited' := GetUnsitedBlocks(unsited', root.right, s.r, rs);
    } else {
      NoneUnsited();
    }
  }

  lemma NoneUnsited()
    ensures Unsited(Nil) == [] && Nodes(Nil) == {}
  {
  }

  lemma UnsitedParts(s: Shape)
    requires s.Bin?
    ensures Unsited(s) == (if !s.b.besited && s.b.isFull then [s.b.hash] else []) + Unsited(s.l) + Unsited(s.r)
    ensures Nodes(s) == Nodes(s.l) + {s.b} + Nodes(s.r)
  {
  }

  lemma Disjoint(s: Shape)
    requires Ordered(s) && s.Bin?
    ensures Nodes(s.l) !! Nodes(s.r) && s.b !in Nodes(s.l) && s.b !in Nodes(s.r)
    ensures Ordered(s.l) && Ordered(s.r) && Nodes(s) == Nodes(s.l) + {s.b} + Nodes(s.r)
  {
  }
}
