/** The updates of one block tree, on both of its structures at once. */
module TreeOps {
  import opened Types
  import opened ForestSpec
  import opened BlockTree
  import opened Genealogy

  /** A tree is named by its root; the root of the search tree and of the genealogy coincide. */
  datatype TreeView = TreeView(root: Block, shape: Shape)

  ghost predicate TreeOK(t: TreeView, w: Lineage)
    reads Nodes(t.shape)`left, Nodes(t.shape)`right
    reads Nodes(t.shape)`parent, Nodes(t.shape)`child, Nodes(t.shape)`sibling, Nodes(t.shape)`kids
  {
    Ordered(t.shape) && Search(t.root, t.shape) && Family(Nodes(t.shape), t.root, w)
  }

  method BootstrapChain(initial: BlockHash, ghost w: Lineage) returns (root: Block)
    ensures fresh(root) && root.hash == initial && Blank(root)
    ensures TreeOK(TreeView(root, Bin(Nil, root, Nil)), w)
  {
    root := new Block(initial);
  }

  lemma SingleIsFamily(c: Block, w: Lineage)
    requires c.kids == [] && c.child == null && c.parent == null && c.sibling == null
    ensures Family({c}, c, w)
  {
  }

  /** A new block becomes the last child of a parent that the tree holds; without that parent nothing changes. */
  method AddBlockByParentHash(
      root: Block, ghost s: Shape, ghost S: set<Block>, parentHash: BlockHash, hash: BlockHash, ghost w: Lineage)
    returns (ok: bool, root': Block, newNode: Block?)
    requires TreeOK(TreeView(root, s), w) && S == Nodes(s) && hash !in Hashes(s)
    requires parentHash == w.par(hash) && Genuine(w, hash)
    modifies S`left, S`right, S`child, S`sibling, S`kids
    ensures ok <==> parentHash in Hashes(s)
    ensures root' == root
    ensures ok ==> newNode != null && fresh(newNode) && newNode.hash == hash && Blank(newNode)
    ensures ok ==> TreeOK(TreeView(root, InsertOne(s, newNode)), w) && Clan({newNode}, newNode, w)
    ensures ok ==> exists p | p in S :: p.hash == parentHash && newNode.parent == p && p.kids == old(p.kids) + [newNode]
    ensures forall b | b in S && (ok ==> b != newNode.parent) :: b.kids == old(b.kids)
    ensures !ok ==> TreeOK(TreeView(root, s), w) && newNode == null
  {
    hide Family, Clan, Search;
    var p := FindBlockByHash(root, parentHash, s);
    if p == null {
      return false, root, null;
    }
    var node;
    root', node := InsertBlockOnlyByHash(root, hash, s);
    InsertBelowNodes(s, node);
    InsertOneNodes(s, node);
    SingleIsFamily(node, w);
    AppendChild(p, node, S, root, {node}, w);
    return true, root', node;
  }

  /** The tree `t` moves below the block `parent` of the tree `s`. */
  method Graft(root: Block, ghost s: Shape, sub: Block, ghost t: Shape, parent: Block, ghost w: Lineage)
    returns (root': Block)
    requires TreeOK(TreeView(root, s), w) && TreeOK(TreeView(sub, t), w) && Hashes(s) !! Hashes(t)
    requires parent in Nodes(s) && parent.hash == w.par(sub.hash) && Genuine(w, sub.hash)
    modifies Nodes(s)`left, Nodes(s)`right, Nodes(t)`left, Nodes(t)`right
    modifies parent`child, parent`kids, Nodes(s)`sibling, sub`parent
    ensures root' == root
    ensures TreeOK(TreeView(root, InsertAll(s, t)), w)
    ensures Clan(Nodes(t), sub, w) && sub.parent == parent
  {
    hide Family, Clan, Search;
    assert allocated(Nodes(s)) && allocated(Nodes(t));
    InsertAllNodes(s, t);
    DisjointNodes(s, t);
    root' := InsertSubtreeByHash(root, sub, s, t);
    AppendChild(parent, sub, Nodes(s), root, Nodes(t), w);
  }
}
