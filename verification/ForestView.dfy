/** How the trees of a chain spell out a forest of hash sets; no heap is read here. */
module ForestView {
  import opened Types
  import opened ForestSpec
  import opened BlockTree
  import opened TreeOps

  /** The main tree and the incomplete trees hold exactly the hashes of `f`. */
  ghost predicate Matches(main: Shape, trees: seq<TreeView>, f: Forest) {
    && Hashes(main) == f.main
    && (forall t | t in trees :: t.root.hash in f.inc && f.inc[t.root.hash] == Hashes(t.shape))
    && (forall r | r in f.inc :: exists t :: t in trees && t.root.hash == r)
    && (forall i, j | 0 <= i < j < |trees| :: trees[i].root.hash != trees[j].root.hash)
  }

  /** No hash is in two trees. */
  ghost predicate Apart(main: Shape, trees: seq<TreeView>) {
    && (forall t | t in trees :: Hashes(main) !! Hashes(t.shape))
    && (forall i, j | 0 <= i < j < |trees| :: Hashes(trees[i].shape) !! Hashes(trees[j].shape))
  }

  ghost predicate OneNodePerHash(blocks: set<Block>) {
    forall x, y | x in blocks && y in blocks && x.hash == y.hash :: x == y
  }

  lemma NewNode(blocks: set<Block>, b: Block)
    requires OneNodePerHash(blocks) && forall x | x in blocks :: x.hash != b.hash
    ensures OneNodePerHash(blocks + {b})
  {
  }

  /** The trees of a canonical forest are pairwise disjoint. */
  lemma CanonIsApart(w: Lineage, R: set<BlockHash>, main: Shape, trees: seq<TreeView>)
    requires AllGenuine(w, R) && w.genesis !in R && Matches(main, trees, Canon(w, R))
    ensures Apart(main, trees)
  {
    forall t, x | t in trees && x in Hashes(t.shape) ensures x !in Hashes(main) {
      CanonTrees(w, R, x);
    }
    forall i, j, x | 0 <= i < j < |trees| && x in Hashes(trees[i].shape)
      ensures x !in Hashes(trees[j].shape)
    {
      assert trees[i] in trees && trees[j] in trees;
      CanonTrees(w, R, x);
    }
  }

  /** The tree that holds `x` is the home of `x`; a block other than the root was received. */
  lemma HomeOfTree(w: Lineage, R: set<BlockHash>, main: Shape, trees: seq<TreeView>, t: TreeView, x: BlockHash)
    requires AllGenuine(w, R) && w.genesis !in R && Matches(main, trees, Canon(w, R))
    requires t in trees && x in Hashes(t.shape)
    ensures x !in Hashes(main) && Home(Canon(w, R), x) == Some(t.root.hash)
    ensures x in R <==> x != t.root.hash
  {
    CanonTrees(w, R, x);
    HomeInCanon(w, R, x);
  }

  lemma NoHome(main: Shape, trees: seq<TreeView>, f: Forest, x: BlockHash)
    requires Matches(main, trees, f)
    requires forall t | t in trees :: x !in Hashes(t.shape)
    ensures Home(f, x) == None
    ensures x !in f.inc || x !in f.inc[x]
  {
    assert forall r | r in f.inc :: exists t :: t in trees && t.root.hash == r;
  }

  /** Taking one incomplete tree out. */
  lemma MatchDrop(main: Shape, trees: seq<TreeView>, f: Forest, i: nat)
    requires Matches(main, trees, f) && i < |trees|
    ensures Matches(main, Without(trees, i), f.(inc := f.inc - {trees[i].root.hash}))
  {
    hide Hashes, Without;
    var trees' := Without(trees, i);
    forall t | t in trees' ensures t in trees && t.root.hash != trees[i].root.hash {
      WithoutMembers(trees, i, t);
    }
    forall r | r in f.inc - {trees[i].root.hash} ensures exists t :: t in trees' && t.root.hash == r {
      var t :| t in trees && t.root.hash == r;
      WithoutMembers(trees, i, t);
      assert t in trees';
    }
    DistinctWithout(trees, i);
  }

  lemma DistinctWithout(trees: seq<TreeView>, k: nat)
    requires k < |trees| && forall i, j | 0 <= i < j < |trees| :: trees[i].root.hash != trees[j].root.hash
    ensures var q := Without(trees, k);
            forall i, j | 0 <= i < j < |q| :: q[i].root.hash != q[j].root.hash
  {
    var q := Without(trees, k);
    forall i, j | 0 <= i < j < |q| ensures q[i].root.hash != q[j].root.hash {
      assert q[i] == trees[if i < k then i else i + 1] && q[j] == trees[if j < k then j else j + 1];
    }
  }

  lemma MatchGraft(main: Shape, trees: seq<TreeView>, f: Forest, i: nat, main': Shape)
    requires Matches(main, trees, f) && i < |trees|
    requires Hashes(main') == Hashes(main) + Hashes(trees[i].shape)
    ensures Matches(main', Without(trees, i), JoinMain(f, trees[i].root.hash))
  {
    assert trees[i] in trees;
    MatchDrop(main, trees, f, i);
  }

  lemma MatchNew(main: Shape, trees: seq<TreeView>, f: Forest, t: TreeView)
    requires Matches(main, trees, f) && t.root.hash !in f.inc
    ensures Matches(main, trees + [t], f.(inc := f.inc[t.root.hash := Hashes(t.shape)]))
  {
    var trees' := trees + [t];
    var inc' := f.inc[t.root.hash := Hashes(t.shape)];
    assert trees'[|trees|] == t;
    forall u | u in trees' ensures u.root.hash in inc' && inc'[u.root.hash] == Hashes(u.shape) {
      assert u in trees || u == t;
    }
    forall r | r in inc' ensures exists u :: u in trees' && u.root.hash == r {
      if r != t.root.hash {
        var u :| u in trees && u.root.hash == r;
        assert u in trees';
      }
    }
    forall i, j | 0 <= i < j < |trees'| ensures trees'[i].root.hash != trees'[j].root.hash {
      assert trees'[i] == trees[i];
      assert trees[i] in trees;
    }
  }

  /** Replacing one incomplete tree by one with the root `t.root`, whose key is free or the same. */
  lemma MatchReplace(main: Shape, trees: seq<TreeView>, f: Forest, i: nat, t: TreeView)
    requires Matches(main, trees, f) && i < |trees|
    requires t.root.hash == trees[i].root.hash || t.root.hash !in f.inc
    ensures Matches(main, trees[i := t], f.(inc := (f.inc - {trees[i].root.hash})[t.root.hash := Hashes(t.shape)]))
  {
    var trees' := trees[i := t];
    var inc' := (f.inc - {trees[i].root.hash})[t.root.hash := Hashes(t.shape)];
    forall u | u in trees' ensures u.root.hash in inc' && inc'[u.root.hash] == Hashes(u.shape) {
      var k :| 0 <= k < |trees'| && trees'[k] == u;
      if k != i {
        assert trees[k] in trees && trees[k].root.hash != trees[i].root.hash;
      }
    }
    forall r | r in inc' ensures exists u :: u in trees' && u.root.hash == r {
      if r == t.root.hash {
        assert trees'[i] == t;
      } else {
        var u :| u in trees && u.root.hash == r;
        var k :| 0 <= k < |trees| && trees[k] == u;
        assert trees'[k] == u;
      }
    }
    forall a, b | 0 <= a < b < |trees'| ensures trees'[a].root.hash != trees'[b].root.hash {
      assert a != i ==> trees[a] in trees;
      assert b != i ==> trees[b] in trees;
    }
  }

  lemma MatchGrow(main: Shape, trees: seq<TreeView>, f: Forest, main': Shape, h: BlockHash)
    requires Matches(main, trees, f) && Hashes(main') == Hashes(main) + {h} && h !in f.inc
    ensures Matches(main', trees, JoinMain(f, h))
  {
    assert f.inc - {h} == f.inc;
  }

  lemma MatchStart(main: Shape, trees: seq<TreeView>, f: Forest, t: TreeView, h: BlockHash)
    requires Matches(main, trees, f) && t.root.hash !in f.inc && Hashes(t.shape) == {t.root.hash, h}
    ensures Matches(main, trees + [t], Start(f, t.root.hash, h))
  {
    MatchNew(main, trees, f, t);
  }

  lemma MatchExtend(main: Shape, trees: seq<TreeView>, f: Forest, k: nat, t: TreeView, h: BlockHash)
    requires Matches(main, trees, f) && k < |trees|
    requires t.root == trees[k].root && Hashes(t.shape) == Hashes(trees[k].shape) + {h}
    ensures t.root.hash in f.inc && Matches(main, trees[k := t], Extend(f, t.root.hash, h))
  {
    var j := t.root.hash;
    assert trees[k] in trees;
    MatchReplace(main, trees, f, k, t);
    assert (f.inc - {j})[j := f.inc[j] + {h}] == f.inc[j := f.inc[j] + {h}];
  }

  lemma MatchReroot(main: Shape, trees: seq<TreeView>, f: Forest, k: nat, t: TreeView)
    requires Matches(main, trees, f) && k < |trees| && t.root.hash !in f.inc
    requires Hashes(t.shape) == Hashes(trees[k].shape) + {t.root.hash}
    ensures trees[k].root.hash in f.inc
    ensures Matches(main, trees[k := t], Reroot(f, trees[k].root.hash, t.root.hash))
  {
    assert trees[k] in trees;
    MatchReplace(main, trees, f, k, t);
  }

  lemma MatchMerge(main: Shape, trees: seq<TreeView>, f: Forest, i: nat, j: nat, t: TreeView)
    requires Matches(main, trees, f) && i < |trees| && j < |trees| && i != j
    requires t.root == trees[j].root && Hashes(t.shape) == Hashes(trees[j].shape) + Hashes(trees[i].shape)
    ensures trees[i].root.hash in f.inc && trees[j].root.hash in f.inc
    ensures Matches(main, Without(trees[j := t], i), Merge(f, trees[i].root.hash, trees[j].root.hash))
  {
    hide Matches;
    RootsDiffer(main, trees, f, i, j);
    MatchReplace(main, trees, f, j, t);
    var h, q := trees[i].root.hash, trees[j].root.hash;
    var f' := f.(inc := (f.inc - {q})[q := Hashes(t.shape)]);
    MatchDrop(main, trees[j := t], f', i);
    assert f'.inc - {h} == (f.inc - {h})[q := Hashes(t.shape)];
  }

  lemma RootsDiffer(main: Shape, trees: seq<TreeView>, f: Forest, i: nat, j: nat)
    requires Matches(main, trees, f) && i < |trees| && j < |trees| && i != j
    ensures trees[i].root.hash != trees[j].root.hash
    ensures trees[i].root.hash in f.inc && f.inc[trees[i].root.hash] == Hashes(trees[i].shape)
    ensures trees[j].root.hash in f.inc && f.inc[trees[j].root.hash] == Hashes(trees[j].shape)
  {
    assert trees[i] in trees && trees[j] in trees;
  }
}
