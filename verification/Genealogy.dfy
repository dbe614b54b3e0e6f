/**
 * The genealogy half of a block tree: `parent`, `child` and `sibling` links.
 *
 * `child` is the first child, `sibling` the next child of the same parent; the ghost field
 * `kids` is that list.  Levels come from the lineage, so links cannot form a cycle.
 */
module Genealogy {
  import opened Types
  import opened ForestSpec
  import opened BlockTree

  /** The links of `b` to its children spell out `b.kids`. */
  ghost predicate ChildList(b: Block, S: set<Block>)
    reads b`child, b`kids, S`parent, S`sibling
  {
    && b.child == (if b.kids == [] then null else b.kids[0])
    && (forall k | k in b.kids :: k in S && k.parent == b)
    && (forall i {:trigger b.kids[i].sibling} | 0 <= i < |b.kids| ::
          b.kids[i].sibling == (if i + 1 < |b.kids| then b.kids[i + 1] else null))
    && (forall i, j | 0 <= i < j < |b.kids| :: b.kids[i] != b.kids[j])
  }

  /** `b` hangs below the parent that its hash commits to, one level down. */
  ghost predicate Attached(b: Block, S: set<Block>, w: Lineage)
    reads b`parent, S`kids
  {
    && b.parent != null && b.parent in S && b in b.parent.kids
    && b.parent.hash == w.par(b.hash)
    && Genuine(w, b.hash)
  }

  /** The nodes `S` are one tree below `r`, which may hang from a node outside `S`. */
  ghost predicate Clan(S: set<Block>, r: Block, w: Lineage)
    reads S`parent, S`child, S`sibling, S`kids
  {
    && r in S
    && (r.parent == null || r.parent !in S)
    && (forall b | b in S :: ChildList(b, S))
    && (forall b | b in S && b != r :: Attached(b, S, w))
  }

  ghost predicate Family(S: set<Block>, r: Block, w: Lineage)
    reads S`parent, S`child, S`sibling, S`kids
  {
    Clan(S, r, w) && r.parent == null && r.sibling == null
  }

  lemma RootHasNoParentInside(S: set<Block>, r: Block, w: Lineage, b: Block)
    requires Family(S, r, w) && b in S
    ensures b.parent == null <==> b == r
  {
  }

  /** The end of the sibling list that starts at the first child of `p`. */
  method LastSibling(p: Block, ghost S: set<Block>) returns (z: Block)
    requires ChildList(p, S) && p.child != null
    ensures p.kids != [] && z == p.kids[|p.kids| - 1]
  {
    z := p.child;
    ghost var i := 0;
    while z.sibling != null
      invariant 0 <= i < |p.kids| && z == p.kids[i]
      decreases |p.kids| - i
    {
      assert p.kids[i].sibling == p.kids[i + 1];
      z := z.sibling;
      i := i + 1;
    }
    assert p.kids[i].sibling == null;
  }

  /** `c` becomes the last child of `p`. */
  method LinkChild(p: Block, c: Block, ghost S: set<Block>)
    requires ChildList(p, S) && c !in S && c.sibling == null && p != c
    modifies p`child, p`kids, S`sibling, c`parent
    ensures ChildList(p, S + {c})
    ensures p.kids == old(p.kids) + [c] && c.parent == p
    ensures forall x | x in S && x !in old(p.kids) :: x.sibling == old(x.sibling)
  {
    c.parent := p;
    if p.child == null {
      p.child := c;
    } else {
      var z := LastSibling(p, S);
      z.sibling := c;
    }
    p.kids := p.kids + [c];
  }

  lemma ListGrows(b: Block, S: set<Block>, T: set<Block>)
    requires ChildList(b, S) && S <= T
    ensures ChildList(b, T)
  {
  }

  /** Two parents share no child. */
  lemma OtherKids(p: Block, b: Block, S: set<Block>)
    requires ChildList(p, S) && ChildList(b, S) && b != p
    ensures forall k | k in b.kids :: k !in p.kids
  {
  }

  /** The tree `C` below `c` becomes the last child of `p`: two trees become one. */
  method AppendChild(p: Block, c: Block, ghost S: set<Block>, ghost r: Block, ghost C: set<Block>, ghost w: Lineage)
    requires Family(S, r, w) && Family(C, c, w) && S !! C && p in S
    requires p.hash == w.par(c.hash) && Genuine(w, c.hash)
    modifies p`child, p`kids, S`sibling, c`parent
    ensures Family(S + C, r, w) && Clan(C, c, w)
    ensures c.parent == p && p.kids == old(p.kids) + [c]
  {
    hide ChildList, Genuine;
    LinkAmong(p, c, S, C);
    forall b | b in S + C ensures ChildList(b, S + C) {
      if b == p { ListGrows(b, S + {c}, S + C); }
      else if b in S { ListGrows(b, S, S + C); }
      else { ListGrows(b, C, S + C); }
    }
    FamilyJoined(S, r, C, c, w);
  }

  /** The other child lists of both trees stay as they are. */
  method LinkAmong(p: Block, c: Block, ghost S: set<Block>, ghost C: set<Block>)
    requires (forall b | b in S :: ChildList(b, S)) && (forall b | b in C :: ChildList(b, C)) && S !! C
    requires p in S && c in C && c.parent == null && c.sibling == null
    modifies p`child, p`kids, S`sibling, c`parent
    ensures ChildList(p, S + {c}) && p.kids == old(p.kids) + [c] && c.parent == p
    ensures forall b | b in S && b != p :: ChildList(b, S)
    ensures forall b | b in C :: ChildList(b, C)
    ensures forall x | x in S && x.parent == null :: x.sibling == old(x.sibling)
  {
    forall b | b in S && b != p ensures forall k | k in b.kids :: k !in p.kids {
      OtherKids(p, b, S);
    }
    LinkChild(p, c, S);
    forall b | b in S && b != p ensures ChildList(b, S) {
      assert old(ChildList(b, S));
    }
    forall b | b in C ensures ChildList(b, C) {
      assert old(ChildList(b, C));
    }
  }

  lemma FamilyJoined(S: set<Block>, r: Block, C: set<Block>, c: Block, w: Lineage)
    requires r in S && r.parent == null && r.sibling == null && c in C
    requires forall b | b in S + C :: ChildList(b, S + C)
    requires forall b | b in S && b != r :: Attached(b, S, w)
    requires forall b | b in C && b != c :: Attached(b, C, w)
    requires Attached(c, S, w)
    ensures Family(S + C, r, w)
  {
    hide ChildList, Genuine;
  }

  // ------------------------------------------------------------------ descendants

  /** `x` is `a` or a descendant of `a`, following parent links inside the clan of `r`. */
  ghost predicate Under(x: Block, a: Block, C: set<Block>, r: Block, w: Lineage)
    requires Clan(C, r, w) && x in C
    reads C`parent, C`child, C`sibling, C`kids
    decreases w.dep(x.hash)
  {
    x == a || (x != r && (assert Attached(x, C, w); Under(x.parent, a, C, r, w)))
  }

  lemma {:induction false} AllUnderRoot(x: Block, C: set<Block>, r: Block, w: Lineage)
    requires Clan(C, r, w) && x in C
    ensures Under(x, r, C, r, w)
    decreases w.dep(x.hash)
  {
    if x != r {
      assert Attached(x, C, w);
      AllUnderRoot(x.parent, C, r, w);
    }
  }

  lemma {:induction false} UnderAKid(x: Block, a: Block, C: set<Block>, r: Block, w: Lineage) returns (k: Block)
    requires Clan(C, r, w) && x in C && a in C && Under(x, a, C, r, w) && x != a
    ensures k in a.kids && k in C && Under(x, k, C, r, w)
    decreases w.dep(x.hash)
  {
    assert Attached(x, C, w);
    if x.parent == a {
      k := x;
    } else {
      k := UnderAKid(x.parent, a, C, r, w);
    }
  }

  lemma {:induction false} UnderViaKid(x: Block, k: Block, a: Block, C: set<Block>, r: Block, w: Lineage)
    requires Clan(C, r, w) && x in C && a in C && k in a.kids && Under(x, k, C, r, w)
    ensures Under(x, a, C, r, w)
    decreases w.dep(x.hash)
  {
    assert ChildList(a, C);
    assert k != r;
    if x != k {
      assert Attached(x, C, w);
      UnderViaKid(x.parent, k, a, C, r, w);
    } else {
      assert Under(k.parent, a, C, r, w);
    }
  }

  lemma {:induction false} UnderIsDeeper(x: Block, a: Block, C: set<Block>, r: Block, w: Lineage)
    requires Clan(C, r, w) && x in C && Under(x, a, C, r, w)
    ensures x == a || w.dep(a.hash) < w.dep(x.hash)
    decreases w.dep(x.hash)
  {
    if x != a {
      assert Attached(x, C, w);
      UnderIsDeeper(x.parent, a, C, r, w);
    }
  }

  /** A node has one ancestor per level, so the subtrees of two siblings are disjoint. */
  lemma {:induction false} OneAncestorPerLevel(x: Block, a: Block, b: Block, C: set<Block>, r: Block, w: Lineage)
    requires Clan(C, r, w) && x in C && Under(x, a, C, r, w) && Under(x, b, C, r, w)
    requires w.dep(a.hash) == w.dep(b.hash)
    ensures a == b
    decreases w.dep(x.hash)
  {
    UnderIsDeeper(x, a, C, r, w);
    UnderIsDeeper(x, b, C, r, w);
    if x != a && x != b {
      assert Attached(x, C, w);
      OneAncestorPerLevel(x.parent, a, b, C, r, w);
    }
  }

  lemma KidsAreOneDeeper(a: Block, k: Block, C: set<Block>, r: Block, w: Lineage)
    requires Clan(C, r, w) && a in C && k in a.kids
    ensures k in C && k != r && k.parent == a && w.dep(k.hash) == w.dep(a.hash) + 1
  {
    assert ChildList(a, C);
    assert Attached(k, C, w);
  }

  /** A clan inside a clan is the whole subtree of its root. */
  lemma ClanWithin(T: set<Block>, a: Block, C: set<Block>, r: Block, w: Lineage)
    requires Clan(C, r, w) && Clan(T, a, w) && T <= C
    ensures Subtrees([a], C, r, w) == T
  {
    assert a in [a];
    forall x | x in T ensures x in Subtrees([a], C, r, w) {
      InnerIsUnder(x, T, a, C, r, w);
    }
    forall x | x in Subtrees([a], C, r, w) ensures x in T {
      UnderIsInner(x, T, a, C, r, w);
    }
  }

  lemma {:induction false} InnerIsUnder(x: Block, T: set<Block>, a: Block, C: set<Block>, r: Block, w: Lineage)
    requires Clan(C, r, w) && Clan(T, a, w) && T <= C && x in T
    ensures Under(x, a, C, r, w)
    decreases w.dep(x.hash)
  {
    if x != a {
      assert Attached(x, T, w);
      InnerIsUnder(x.parent, T, a, C, r, w);
    }
  }

  lemma {:induction false} UnderIsInner(x: Block, T: set<Block>, a: Block, C: set<Block>, r: Block, w: Lineage)
    requires Clan(C, r, w) && Clan(T, a, w) && T <= C && x in C && Under(x, a, C, r, w)
    ensures x in T
    decreases w.dep(x.hash)
  {
    if x != a {
      assert Attached(x, C, w);
      UnderIsInner(x.parent, T, a, C, r, w);
      assert ChildList(x.parent, T);
    }
  }

  ghost predicate Measured(C: set<Block>, w: Lineage)
    reads C`nb
  {
    forall x | x in C :: x.nb.Some? && x.nb.value.depth == w.dep(x.hash)
  }

  /** The nodes at or below one of the blocks `q`. */
  ghost function Subtrees(q: seq<Block>, C: set<Block>, r: Block, w: Lineage): set<Block>
    requires Clan(C, r, w)
    reads C`parent, C`child, C`sibling, C`kids
  {
    set x | x in C && exists a :: a in q && Under(x, a, C, r, w)
  }

  lemma OneMoreSubtree(b: Block, i: nat, C: set<Block>, r: Block, w: Lineage)
    requires Clan(C, r, w) && b in C && i < |b.kids|
    ensures Subtrees(b.kids[..i], C, r, w) !! Subtrees([b.kids[i]], C, r, w)
    ensures Subtrees([b.kids[i]], C, r, w) <= C
    ensures Subtrees(b.kids[..i + 1], C, r, w) == Subtrees(b.kids[..i], C, r, w) + Subtrees([b.kids[i]], C, r, w)
  {
    assert ChildList(b, C);
    assert b.kids[..i + 1] == b.kids[..i] + [b.kids[i]];
    forall x | x in Subtrees(b.kids[..i], C, r, w) ensures x !in Subtrees([b.kids[i]], C, r, w) {
      var a :| a in b.kids[..i] && Under(x, a, C, r, w);
      KidsAreOneDeeper(b, a, C, r, w);
      KidsAreOneDeeper(b, b.kids[i], C, r, w);
      if Under(x, b.kids[i], C, r, w) {
        OneAncestorPerLevel(x, a, b.kids[i], C, r, w);
      }
    }
  }

  lemma SubtreeOfKids(b: Block, C: set<Block>, r: Block, w: Lineage)
    requires Clan(C, r, w) && b in C
    ensures Subtrees([b], C, r, w) == {b} + Subtrees(b.kids, C, r, w) <= C
    ensures b !in Subtrees(b.kids, C, r, w)
  {
    forall x | x in Subtrees([b], C, r, w) && x != b ensures x in Subtrees(b.kids, C, r, w) {
      var k := UnderAKid(x, b, C, r, w);
    }
    forall x | x in Subtrees(b.kids, C, r, w) ensures x in Subtrees([b], C, r, w) && x != b {
      var k :| k in b.kids && Under(x, k, C, r, w);
      UnderViaKid(x, k, b, C, r, w);
      KidsAreOneDeeper(b, k, C, r, w);
      UnderIsDeeper(x, k, C, r, w);
      assert b in [b];
    }
  }

  lemma ClanList(b: Block, C: set<Block>, r: Block, w: Lineage)
    requires Clan(C, r, w) && b in C
    ensures ChildList(b, C)
  {
  }

  lemma NoSubtree(C: set<Block>, r: Block, w: Lineage)
    requires Clan(C, r, w)
    ensures Subtrees([], C, r, w) == {}
  {
  }

  lemma NextSibling(b: Block, i: nat, C: set<Block>)
    requires ChildList(b, C) && i < |b.kids|
    ensures b.kids[i].sibling == if i + 1 < |b.kids| then b.kids[i + 1] else null
  {
  }

  /** Some node has `x` at or below an earlier child than `y`. */
  ghost predicate LeftOf(x: Block, y: Block, C: set<Block>, r: Block, w: Lineage)
    requires Clan(C, r, w)
    reads C`parent, C`child, C`sibling, C`kids
  {
    exists p, i, j :: p in C && 0 <= i < j < |p.kids|
                      && x in Subtrees([p.kids[i]], C, r, w) && y in Subtrees([p.kids[j]], C, r, w)
  }

  /** `mx` is the leftmost of the deepest nodes of `T`. */
  ghost predicate FirstDeepest(mx: Block, T: set<Block>, C: set<Block>, r: Block, w: Lineage)
    requires Clan(C, r, w)
    reads C`parent, C`child, C`sibling, C`kids
  {
    && mx in T
    && forall x | x in T && x != mx ::
         w.dep(x.hash) < w.dep(mx.hash) || (w.dep(x.hash) == w.dep(mx.hash) && LeftOf(mx, x, C, r, w))
  }

  /** What comes in the subtree of a later child is to the right. */
  lemma LaterChild(b: Block, i: nat, mx: Block, C: set<Block>, r: Block, w: Lineage)
    requires Clan(C, r, w) && b in C && i < |b.kids| && mx in Subtrees(b.kids[..i], C, r, w)
    ensures forall x | x in Subtrees([b.kids[i]], C, r, w) :: LeftOf(mx, x, C, r, w)
  {
    var a :| a in b.kids[..i] && Under(mx, a, C, r, w);
    var k :| 0 <= k < i && b.kids[k] == a;
    assert a in [b.kids[k]] && mx in Subtrees([b.kids[k]], C, r, w);
  }

  /** The leftmost of the deepest nodes, with one more child looked at. */
  lemma FirstOfMore(b: Block, i: nat, mx: Block, fm: Block, seen: set<Block>, C: set<Block>, r: Block, w: Lineage)
    requires Clan(C, r, w) && b in C && i < |b.kids| && seen == {b} + Subtrees(b.kids[..i], C, r, w)
    requires FirstDeepest(mx, seen, C, r, w) && FirstDeepest(fm, Subtrees([b.kids[i]], C, r, w), C, r, w)
    requires w.dep(b.hash) < w.dep(fm.hash)
    ensures FirstDeepest(if w.dep(fm.hash) > w.dep(mx.hash) then fm else mx,
                         seen + Subtrees([b.kids[i]], C, r, w), C, r, w)
  {
    hide Clan, Subtrees, LeftOf;
    if w.dep(fm.hash) <= w.dep(mx.hash) {
      LaterChild(b, i, mx, C, r, w);
    }
  }

  lemma OnlyDeepest(b: Block, C: set<Block>, r: Block, w: Lineage)
    requires Clan(C, r, w)
    ensures FirstDeepest(b, {b}, C, r, w)
  {
  }

  lemma IsDeepest(mx: Block, T: set<Block>, C: set<Block>, r: Block, w: Lineage)
    requires Clan(C, r, w) && FirstDeepest(mx, T, C, r, w)
    ensures mx in T && forall x | x in T :: w.dep(x.hash) <= w.dep(mx.hash)
  {
  }

  /** The leftmost of the deepest nodes of the subtree `T` of `b`; every `nb` it dereferences exists. */
  method FindMaxDepth(b: Block, ghost T: set<Block>, ghost C: set<Block>, ghost r: Block, ghost w: Lineage)
    returns (mx: Block)
    requires Clan(C, r, w) && b in C && Measured(C, w) && T == Subtrees([b], C, r, w)
    ensures mx in T && FirstDeepest(mx, T, C, r, w)
    ensures forall x | x in T :: w.dep(x.hash) <= w.dep(mx.hash)
    decreases TWO32 - w.dep(b.hash)
  {
    hide Clan, Subtrees, Attached, LeftOf, FirstDeepest;
    mx := b;
    OnlyDeepest(b, C, r, w);
    NoSubtree(C, r, w);
    SubtreeOfKids(b, C, r, w);
    ClanList(b, C, r, w);
    var tmp := b.child;
    ghost var i := 0;
    ghost var seen: set<Block> := {};
    assert {b} + seen == {b};
    while tmp != null
      invariant 0 <= i <= |b.kids| && tmp == (if i < |b.kids| then b.kids[i] else null)
      invariant seen == Subtrees(b.kids[..i], C, r, w)
      invariant seen <= C && mx in {b} + seen && FirstDeepest(mx, {b} + seen, C, r, w)
      decreases |b.kids| - i
    {
      KidsAreOneDeeper(b, tmp, C, r, w);
      OneMoreSubtree(b, i, C, r, w);
      NextSibling(b, i, C);
      ghost var part := Subtrees([tmp], C, r, w);
      var fm := FindMaxDepth(tmp, part, C, r, w);
      InSubtree(tmp, C, r, w);
      FirstOfMore(b, i, mx, fm, {b} + seen, C, r, w);
      assert {b} + seen + part == {b} + (seen + part);
      if fm.nb.value.depth > mx.nb.value.depth {
        mx := fm;
      }
      seen := seen + part;
      tmp := tmp.sibling;
      i := i + 1;
    }
    assert b.kids[..i] == b.kids;
    IsDeepest(mx, T, C, r, w);
  }

  lemma InSubtree(b: Block, C: set<Block>, r: Block, w: Lineage)
    requires Clan(C, r, w) && b in C
    ensures b in Subtrees([b], C, r, w)
  {
    assert b in [b];
  }

  lemma SizeOfUnion(a: set<Block>, b: set<Block>)
    requires a !! b
    ensures |a + b| == |a| + |b|
  {
  }

  /** Counts `b` and everything that `child` and `sibling` links reach from it. */
  method FindNumberOfNodes(b: Block, ghost T: set<Block>, ghost C: set<Block>, ghost r: Block, ghost w: Lineage)
    returns (n: nat)
    requires Clan(C, r, w) && b in C && T == Subtrees([b], C, r, w)
    ensures n == |T|
    decreases TWO32 - w.dep(b.hash)
  {
    hide Clan, Subtrees, Attached;
    n := 0;
    SubtreeOfKids(b, C, r, w);
    ClanList(b, C, r, w);
    NoSubtree(C, r, w);
    var c := b.child;
    ghost var i := 0;
    ghost var seen: set<Block> := {};
    while c != null
      invariant 0 <= i <= |b.kids| && c == (if i < |b.kids| then b.kids[i] else null)
      invariant seen == Subtrees(b.kids[..i], C, r, w) && n == |seen|
      decreases |b.kids| - i
    {
      KidsAreOneDeeper(b, c, C, r, w);
      OneMoreSubtree(b, i, C, r, w);
      NextSibling(b, i, C);
      ghost var part := Subtrees([c], C, r, w);
      SizeOfUnion(seen, part);
      var m := FindNumberOfNodes(c, part, C, r, w);
      n := n + m;
      seen := seen + part;
      c := c.sibling;
      i := i + 1;
    }
    assert b.kids[..i] == b.kids;
    SizeOfUnion({b}, seen);
    n := 1 + n;
  }

  /** The subtree of the root is the whole tree. */
  lemma WholeTree(S: set<Block>, r: Block, w: Lineage)
    requires Clan(S, r, w)
    ensures Subtrees([r], S, r, w) == S
  {
    assert r in [r];
    forall x | x in S ensures x in Subtrees([r], S, r, w) {
      AllUnderRoot(x, S, r, w);
    }
  }

  // ------------------------------------------------------------------ reachability by child and sibling

  /** At most `n` steps along `child` and `sibling` lead from `a` to `x`. */
  ghost predicate Reaches(a: Block, x: Block, n: nat)
    reads *
    decreases n
  {
    a == x ||
    (n > 0 && ((a.child != null && Reaches(a.child, x, n - 1)) || (a.sibling != null && Reaches(a.sibling, x, n - 1))))
  }

  lemma {:induction false} ReachesOn(a: Block, b: Block, c: Block, n: nat, m: nat)
    requires Reaches(a, b, n) && Reaches(b, c, m)
    ensures Reaches(a, c, n + m)
    decreases n
  {
    if a == b {
      ReachesLater(b, c, m, n + m);
    } else if a.child != null && Reaches(a.child, b, n - 1) {
      ReachesOn(a.child, b, c, n - 1, m);
    } else {
      ReachesOn(a.sibling, b, c, n - 1, m);
    }
  }

  lemma {:induction false} ReachesLater(a: Block, x: Block, n: nat, m: nat)
    requires Reaches(a, x, n) && n <= m
    ensures Reaches(a, x, m)
    decreases n
  {
    if a != x {
      if a.child != null && Reaches(a.child, x, n - 1) {
        ReachesLater(a.child, x, n - 1, m - 1);
      } else {
        ReachesLater(a.sibling, x, n - 1, m - 1);
      }
    }
  }

  /** The first child leads to the `i`-th one. */
  lemma {:induction false} AlongSiblings(p: Block, S: set<Block>, i: nat)
    requires ChildList(p, S) && i < |p.kids|
    ensures Reaches(p.kids[0], p.kids[i], i)
    decreases i
  {
    if i > 0 {
      AlongSiblings(p, S, i - 1);
      NextSibling(p, i - 1, S);
      assert Reaches(p.kids[i - 1], p.kids[i], 1);
      ReachesOn(p.kids[0], p.kids[i - 1], p.kids[i], i - 1, 1);
    }
  }

  lemma {:induction false} RootReaches(S: set<Block>, r: Block, w: Lineage, x: Block) returns (n: nat)
    requires Clan(S, r, w) && x in S
    ensures Reaches(r, x, n)
    decreases w.dep(x.hash)
  {
    if x == r {
      n := 0;
    } else {
      assert Attached(x, S, w);
      var p := x.parent;
      n := RootReaches(S, r, w, p);
      var i :| 0 <= i < |p.kids| && p.kids[i] == x;
      assert ChildList(p, S);
      AlongSiblings(p, S, i);
      assert Reaches(p, x, i + 1);
      ReachesOn(r, p, x, n, i + 1);
      n := n + i + 1;
    }
  }

  lemma {:induction false} ReachesInside(S: set<Block>, r: Block, w: Lineage, a: Block, x: Block, n: nat)
    requires Family(S, r, w) && a in S && Reaches(a, x, n)
    ensures x in S
    decreases n
  {
    if a != x {
      StepsInside(S, r, w, a);
      if a.child != null && Reaches(a.child, x, n - 1) {
        ReachesInside(S, r, w, a.child, x, n - 1);
      } else {
        ReachesInside(S, r, w, a.sibling, x, n - 1);
      }
    }
  }

  lemma StepsInside(S: set<Block>, r: Block, w: Lineage, a: Block)
    requires Family(S, r, w) && a in S
    ensures a.child != null ==> a.child in S
    ensures a.sibling != null ==> a.sibling in S
  {
    assert ChildList(a, S);
    if a != r {
      assert Attached(a, S, w) && ChildList(a.parent, S);
      var i :| 0 <= i < |a.parent.kids| && a.parent.kids[i] == a;
      NextSibling(a.parent, i, S);
    }
  }

  /**
   * A hash is in the search tree, so that the lookup finds it, exactly when child and sibling links
   * lead from the root to a node of that hash.
   */
  lemma IndexAgreesWithGenealogy(s: Shape, r: Block, w: Lineage, h: BlockHash)
    requires Family(Nodes(s), r, w)
    ensures h in Hashes(s) <==> exists x: Block, n: nat :: Reaches(r, x, n) && x.hash == h
  {
    if h in Hashes(s) {
      var x := NodeOfHash(s, h);
      var n := RootReaches(Nodes(s), r, w, x);
      assert allocated(x);
      assert exists y: Block, k: nat :: Reaches(r, y, k) && y.hash == h;
    }
    forall x: Block, n: nat | Reaches(r, x, n) && x.hash == h ensures h in Hashes(s) {
      ReachesInside(Nodes(s), r, w, r, x, n);
      HashOfNode(s, x);
    }
  }
}
