/**
 * Ancestor synchronisation: a node asks for the missing root of an incomplete tree, and a peer
 * answers with that block and its ancestors, a bounded number at a time.
 */
module AncestorSync {
  import opened Types
  import opened ForestSpec
  import opened BlockTree
  import opened BlockForest

  /** The last field of an `#ask_block` message: it reaches up to the asker's own depth, or asks for one block. */
  function AskCount(myDepth: U32, hashDepth: U32): (n: U32)
    ensures n >= 1
    ensures myDepth < hashDepth ==> myDepth + n == hashDepth
    ensures myDepth >= hashDepth ==> n == 1
  {
    if myDepth >= hashDepth then 1 else hashDepth - myDepth
  }

  /** Both the asked number and the limit of the peer bound a reply. */
  function ReplyLimit(asked: U32, maxAsk: U32): (n: U32)
    ensures n <= asked && n <= maxAsk && (n == asked || n == maxAsk)
  {
    if asked < maxAsk then asked else maxAsk
  }

  /** The path from `h` down to genesis consists of genuine blocks: a peer can hold all of it. */
  predicate Rooted(w: Lineage, h: BlockHash)
    decreases w.dep(h)
  {
    h == w.genesis || (Genuine(w, h) && Rooted(w, w.par(h)))
  }

  /** `h` and its ancestors, at most `n`, genesis excluded. */
  ghost function Reply(w: Lineage, h: BlockHash, n: nat): seq<BlockHash>
    decreases n
  {
    if n == 0 || h == w.genesis then [] else [h] + Reply(w, w.par(h), n - 1)
  }

  /** The same as far as a peer that received the blocks `R` holds them. */
  ghost function HeldReply(w: Lineage, R: set<BlockHash>, h: BlockHash, n: nat): seq<BlockHash>
    decreases n
  {
    if n == 0 || h !in R then [] else [h] + HeldReply(w, R, w.par(h), n - 1)
  }

  ghost function Ancestor(w: Lineage, h: BlockHash, n: nat): BlockHash
    decreases n
  {
    if n == 0 then h else Ancestor(w, w.par(h), n - 1)
  }

  /** The block of the main tree, or else of the first incomplete tree that holds it. */
  method Lookup(c: Chain, h: BlockHash) returns (b: Block?)
    requires c.Valid()
    ensures b == null ==> h !in c.kept
    ensures b != null ==> c.Holds(b) && b.hash == h
  {
    hide *;
    c.ValidParts();
    c.StructParts();
    c.MainIsSearchTree();
    if h in c.kept { c.KeptIsHeld(h); }
    b := FindBlockByHash(c.root, h, c.main);
    if b == null {
      b := c.FindIncompleteBlock(h);
    }
    if b != null { c.HeldIf(b); }
  }

  /**
   * What the `#ask_block` handler of a node sends: the block is looked up in the main tree, then in
   * the incomplete trees, and the walk follows the parent links; both the asked number and `maxAsk`
   * bound it.
   */
  method AnswerAsk(c: Chain, h: BlockHash, asked: U32, maxAsk: U32) returns (sent: seq<BlockHash>)
    requires c.Valid()
    ensures sent == HeldReply(c.w, c.kept.Keys, h, ReplyLimit(asked, maxAsk))
  {
    hide *;
    sent := [];
    var b := Lookup(c, h);
    var i := 0;
    ghost var n, at := ReplyLimit(asked, maxAsk), h;
    NothingSent(c.w, c.kept.Keys, h, n);
    while i < asked && i < maxAsk
      invariant 0 <= i <= n
      invariant if b == null then at !in c.kept else c.Holds(b) && b.hash == at
      invariant Answered(c.w, c.kept.Keys, h, n, sent, at, n - i)
    {
      AnswerMore(c.w, c.kept.Keys, h, n, sent, at, n - i);
      if b == null {
        break;
      }
      c.ParentOf(b);
      if b.parent == null {
        break;
      }
      sent := sent + [b.hash];
      b := b.parent;
      at := c.w.par(at);
      i := i + 1;
    }
    AnswerMore(c.w, c.kept.Keys, h, n, sent, at, n - i);
  }

  /** `sent` is the reply for `h` but for the last `m` blocks, from `at` on. */
  ghost predicate Answered(
    w: Lineage, R: set<BlockHash>, h: BlockHash, n: nat, sent: seq<BlockHash>, at: BlockHash, m: nat)
  {
    sent + HeldReply(w, R, at, m) == HeldReply(w, R, h, n)
  }

  lemma NothingSent(w: Lineage, R: set<BlockHash>, h: BlockHash, n: nat)
    ensures Answered(w, R, h, n, [], h, n)
  {
  }

  lemma AnswerMore(w: Lineage, R: set<BlockHash>, h: BlockHash, n: nat, sent: seq<BlockHash>, at: BlockHash, m: nat)
    requires Answered(w, R, h, n, sent, at, m)
    ensures m == 0 || at !in R ==> sent == HeldReply(w, R, h, n)
    ensures m > 0 && at in R ==> Answered(w, R, h, n, sent + [at], w.par(at), m - 1)
  {
    if m > 0 && at in R {
      assert sent + ([at] + HeldReply(w, R, w.par(at), m - 1)) == sent + [at] + HeldReply(w, R, w.par(at), m - 1);
    }
  }

  /** A peer that holds the path down to genesis sends all that is asked for. */
  lemma {:induction false} HeldIsReply(w: Lineage, R: set<BlockHash>, h: BlockHash, n: nat)
    requires AllGenuine(w, R) && w.genesis !in R && Connected(w, R, h)
    ensures HeldReply(w, R, h, n) == Reply(w, h, n)
    decreases n
  {
    if n > 0 && h != w.genesis {
      HeldIsReply(w, R, w.par(h), n - 1);
    }
  }

  /** Any other peer sends a shorter part of it, up to its own missing root of `h`. */
  lemma {:induction false} HeldIsPrefix(w: Lineage, R: set<BlockHash>, h: BlockHash, n: nat)
    requires AllGenuine(w, R) && w.genesis !in R
    ensures HeldReply(w, R, h, n) <= Reply(w, h, n)
    ensures var k := |HeldReply(w, R, h, n)|; k < n ==> Ancestor(w, h, k) == Root(w, R, h)
    decreases n
  {
    if n > 0 && h in R {
      HeldIsPrefix(w, R, w.par(h), n - 1);
      RootClosed(w, R, h);
    }
  }

  /** How many blocks separate `h` from the main tree. */
  ghost function Gap(w: Lineage, main: set<BlockHash>, h: BlockHash): nat
    requires Rooted(w, h) && w.genesis in main
    decreases w.dep(h)
  {
    if h in main then 0 else 1 + Gap(w, main, w.par(h))
  }

  lemma {:induction false} GapShrinks(w: Lineage, main: set<BlockHash>, main': set<BlockHash>, h: BlockHash)
    requires Rooted(w, h) && w.genesis in main && main <= main'
    ensures Gap(w, main', h) <= Gap(w, main, h)
    decreases w.dep(h)
  {
    if h !in main {
      GapShrinks(w, main, main', w.par(h));
    }
  }

  /** In the canonical forest a root is no farther from the main tree than what hangs below it. */
  lemma {:induction false} RootIsNoFarther(w: Lineage, R: set<BlockHash>, h: BlockHash)
    requires AllGenuine(w, R) && Rooted(w, h) && w.genesis !in R
    ensures Rooted(w, Root(w, R, h))
    ensures Gap(w, Canon(w, R).main, Root(w, R, h)) <= Gap(w, Canon(w, R).main, h)
    decreases w.dep(h)
  {
    if h in R {
      RootIsNoFarther(w, R, w.par(h));
      RootClosed(w, R, h);
      CanonTrees(w, R, h);
      CanonTrees(w, R, w.par(h));
    }
  }

  lemma {:induction false} RootThrough(w: Lineage, R: set<BlockHash>, R': set<BlockHash>, h: BlockHash)
    requires AllGenuine(w, R') && R <= R'
    ensures AllGenuine(w, R)
    ensures Root(w, R', h) == Root(w, R', Root(w, R, h))
    decreases w.dep(h)
  {
    assert forall x | x in R :: Genuine(w, x);
    if h in R {
      RootThrough(w, R, R', w.par(h));
    }
  }

  /** Once `h` and its next ancestors are received, its root has climbed that far. */
  lemma {:induction false} Climb(w: Lineage, R: set<BlockHash>, h: BlockHash, m: nat)
    requires AllGenuine(w, R) && w.genesis !in R && Rooted(w, h)
    requires forall x | x in Reply(w, h, m) :: x in R
    ensures Rooted(w, Root(w, R, h))
    ensures var main := Canon(w, R).main;
            Gap(w, main, Root(w, R, h)) <= if Gap(w, main, h) <= m then 0 else Gap(w, main, h) - m
    decreases m
  {
    if m == 0 {
      RootIsNoFarther(w, R, h);
    } else if h != w.genesis {
      assert h in Reply(w, h, m);
      assert forall x | x in Reply(w, w.par(h), m - 1) :: x in Reply(w, h, m);
      Climb(w, R, w.par(h), m - 1);
      RootClosed(w, R, h);
      CanonTrees(w, R, h);
      CanonTrees(w, R, w.par(h));
    }
  }

  lemma MainGrows(w: Lineage, R: set<BlockHash>, R': set<BlockHash>)
    requires AllGenuine(w, R') && w.genesis !in R' && R <= R'
    ensures AllGenuine(w, R)
    ensures Canon(w, R).main <= Canon(w, R').main
  {
    forall x | x in R ensures Genuine(w, x) {}
    forall h | h in Canon(w, R).main ensures h in Canon(w, R').main {
      RootThrough(w, R, R', h);
    }
  }

  /** The ancestors of a block that a peer is connected to are connected, too. */
  lemma {:induction false} ConnectedUp(w: Lineage, P: set<BlockHash>, R: set<BlockHash>, h: BlockHash)
    requires AllGenuine(w, P) && AllGenuine(w, R) && w.genesis !in R && Connected(w, P, h)
    ensures Connected(w, P, Root(w, R, h)) && Rooted(w, h)
    decreases w.dep(h)
  {
    if h != w.genesis {
      ConnectedUp(w, P, R, w.par(h));
    }
  }

  /**
   * One round: the root of `h` is asked for and the reply of a peer that holds `P` arrives, perhaps
   * with other blocks.
   */
  ghost predicate Round(w: Lineage, R: set<BlockHash>, R': set<BlockHash>, P: set<BlockHash>, h: BlockHash, m: nat) {
    && AllGenuine(w, R) && AllGenuine(w, R') && AllGenuine(w, P) && w.genesis !in R' + P && R <= R'
    && forall x | x in HeldReply(w, P, Root(w, R, h), m) :: x in R'
  }

  lemma RoundAdvances(w: Lineage, R: set<BlockHash>, R': set<BlockHash>, P: set<BlockHash>, h: BlockHash, m: nat)
    requires Round(w, R, R', P, h, m) && Connected(w, P, h) && Rooted(w, h)
    ensures Rooted(w, Root(w, R, h)) && Rooted(w, Root(w, R', h))
    ensures var k := Gap(w, Canon(w, R).main, Root(w, R, h));
            Gap(w, Canon(w, R').main, Root(w, R', h)) <= if k <= m then 0 else k - m
  {
    var r := Root(w, R, h);
    RootIsNoFarther(w, R, h);
    ConnectedUp(w, P, R, h);
    HeldIsReply(w, P, r, m);
    RootThrough(w, R, R', h);
    Climb(w, R', r, m);
    MainGrows(w, R, R');
    GapShrinks(w, Canon(w, R).main, Canon(w, R').main, r);
  }

  lemma OneRoundMore(k: nat, k': nat, k'': nat, n: nat, m: nat)
    requires n >= 1 && k' <= (if k <= (n - 1) * m then 0 else k - (n - 1) * m)
    requires k'' <= if k' <= m then 0 else k' - m
    ensures k'' <= if k <= n * m then 0 else k - n * m
  {
    assert n * m == (n - 1) * m + m;
  }

  /** Successive rounds for `h`, each answered by some peer that holds the whole path. */
  ghost predicate Rounds(w: Lineage, states: seq<set<BlockHash>>, peers: seq<set<BlockHash>>, h: BlockHash, m: nat) {
    && |states| == |peers| + 1 && AllGenuine(w, states[0]) && w.genesis !in states[0] && Rooted(w, h)
    && forall i | 0 <= i < |peers| ::
         Round(w, states[i], states[i + 1], peers[i], h, m) && Connected(w, peers[i], h)
  }

  lemma {:induction false} RoundsAdvance(
    w: Lineage, states: seq<set<BlockHash>>, peers: seq<set<BlockHash>>, h: BlockHash, m: nat)
    requires Rounds(w, states, peers, h, m)
    ensures var n := |peers|;
            && AllGenuine(w, states[n]) && w.genesis !in states[n] && states[0] <= states[n]
            && Rooted(w, Root(w, states[0], h)) && Rooted(w, Root(w, states[n], h))
            && var k := Gap(w, Canon(w, states[0]).main, Root(w, states[0], h));
               Gap(w, Canon(w, states[n]).main, Root(w, states[n], h)) <= if k <= n * m then 0 else k - n * m
    decreases |peers|
  {
    var n := |peers|;
    if n == 0 {
      RootIsNoFarther(w, states[0], h);
    } else {
      RoundsAdvance(w, states[..n], peers[..n - 1], h, m);
      assert Round(w, states[n - 1], states[n - 1 + 1], peers[n - 1], h, m);
      RoundAdvances(w, states[n - 1], states[n], peers[n - 1], h, m);
      hide *;
      var k := Gap(w, Canon(w, states[0]).main, Root(w, states[0], h));
      var k' := Gap(w, Canon(w, states[n - 1]).main, Root(w, states[n - 1], h));
      OneRoundMore(k, k', Gap(w, Canon(w, states[n]).main, Root(w, states[n], h)), n, m);
    }
  }

  /**
   * The synchronisation bound: if the missing root `r` is `k` blocks above the main tree and each
   * round is answered by a peer that holds the path of `r`, then `ceil(k / maxAsk)` rounds bring the
   * whole incomplete tree of `r` into the main tree, whatever else arrives meanwhile.
   */
  lemma SyncBound(w: Lineage, states: seq<set<BlockHash>>, peers: seq<set<BlockHash>>, r: BlockHash, maxAsk: U32)
    requires maxAsk >= 1
    requires Rounds(w, states, peers, r, ReplyLimit(AskCount(0, maxAsk), maxAsk))
    requires r in Canon(w, states[0]).inc
    requires |peers| >= (Gap(w, Canon(w, states[0]).main, r) + maxAsk - 1) / maxAsk
    ensures AllGenuine(w, states[|peers|])
    ensures Canon(w, states[0]).inc[r] <= Canon(w, states[|peers|]).main
  {
    var n, k := |peers|, Gap(w, Canon(w, states[0]).main, r);
    hide *;
    RoundsLength(w, states, peers, r, ReplyLimit(AskCount(0, maxAsk), maxAsk));
    MissingIsRoot(w, states[0], r);
    RoundsAdvance(w, states, peers, r, maxAsk);
    CeilingCovers(k, maxAsk, n);
    JoinedMain(w, states[0], states[n], r);
  }

  lemma RoundsLength(w: Lineage, states: seq<set<BlockHash>>, peers: seq<set<BlockHash>>, h: BlockHash, m: nat)
    requires Rounds(w, states, peers, h, m)
    ensures |states| == |peers| + 1 && AllGenuine(w, states[0]) && w.genesis !in states[0]
  {
  }

  lemma MissingIsRoot(w: Lineage, R: set<BlockHash>, r: BlockHash)
    requires AllGenuine(w, R) && w.genesis !in R && r in Canon(w, R).inc
    ensures Root(w, R, r) == r
  {
    CanonTrees(w, R, r);
  }

  /** Once the missing root of `r` is in the main tree, so is everything that waited for `r`. */
  lemma JoinedMain(w: Lineage, R: set<BlockHash>, R': set<BlockHash>, r: BlockHash)
    requires AllGenuine(w, R) && AllGenuine(w, R') && w.genesis !in R' && R <= R'
    requires r in Canon(w, R).inc && Rooted(w, Root(w, R', r))
    requires Gap(w, Canon(w, R').main, Root(w, R', r)) == 0
    ensures Canon(w, R).inc[r] <= Canon(w, R').main
  {
    CanonTrees(w, R', Root(w, R', r));
    forall x | x in Canon(w, R).inc[r] ensures x in Canon(w, R').main {
      CanonTrees(w, R, x);
      RootThrough(w, R, R', x);
      CanonTrees(w, R', x);
    }
  }

  lemma CeilingCovers(k: nat, m: nat, n: nat)
    requires m >= 1 && n >= (k + m - 1) / m
    ensures k <= n * m
  {
    var c := (k + m - 1) / m;
    assert k + m - 1 == c * m + (k + m - 1) % m;
    assert c * m <= n * m;
  }
}
