/**
 * The steps that change the blocks of a chain and the books of the weak blocks together: a strong
 * block arrives or is mined, and the tick gives up incomplete trees.
 */
module Handlers {
  import opened Types
  import opened ForestSpec
  import opened BlockTree
  import opened BlockForest
  import opened WeakStore
  import AskBook
  import Citations
  import CommitBooks
  import Confirm
  import Headers
  import Merkle
  import WeakBooks

  /** A `#process_block` message. */
  datatype StrongBlock = StrongBlock(
    nb: NetworkBlock, chain: nat, rootChains: string, rootTxs: string, proof: seq<string>,
    trailing: BlockHash, trailingId: nat, cites: seq<BlockHash>)

  ghost predicate Passes(sha: Merkle.Sha, chains: U32, m: StrongBlock)
    requires chains > 0
  {
    Headers.HeaderPasses(sha, chains, m.chain, m.nb.hash, m.nb.parent, m.rootChains, m.rootTxs, m.proof)
  }

  /** The block is what its hash says. */
  ghost predicate IsOf(m: StrongBlock, w: Lineage) {
    m.nb.hash == w.genesis
    || (m.nb.parent == w.par(m.nb.hash) && Genuine(w, m.nb.hash) && m.nb.depth == w.dep(m.nb.hash))
  }

  function ListsOf(kept: map<BlockHash, Payload>): map<BlockHash, seq<BlockHash>> {
    map h | h in kept :: kept[h].weakBlocks
  }

  /** One chain and the books of its node. */
  ghost function Joint(c: Chain, st: Store): Citations.State
    reads c`kept, st, st.nodes
  {
    Citations.State(ListsOf(c.kept), st.View())
  }

  ghost function Setting(c: Chain, st: Store, chain: nat): Citations.Setting {
    Citations.Setting(c.w, chain, st.chainOf, st.lim)
  }

  method FindInMain(c: Chain, hash: BlockHash) returns (b: Block?)
    requires c.Valid()
    ensures b == null <==> hash !in c.Forest().main
  {
    hide *;
    c.ValidParts();
    c.MainIsSearchTree();
    c.LookupFacts();
    c.ForestOfKept();
    b := FindBlockByHash(c.root, hash, c.main);
  }

  // ------------------------------------------------------------------ a strong block arrives

  /** The node-wide step, seen from one chain: the block belongs to it, or marks citations of another. */
  ghost predicate Arrives(t: Citations.Setting, s: Citations.State, m: StrongBlock, s': Citations.State) {
    Citations.IsStep(t, s, Citations.Event.Receive(m.nb.hash, m.cites), s')
  }

  lemma JointNow(c: Chain, st: Store, chain: nat)
    requires c.Valid() && st.Valid()
    ensures Citations.IsState(Setting(c, st, chain), Joint(c, st))
    ensures Citations.Main(Setting(c, st, chain), Joint(c, st)) == c.Forest().main
    ensures Joint(c, st).lists == ListsOf(c.kept) && Joint(c, st).books == st.View()
    ensures forall h :: h in ListsOf(c.kept) <==> h in c.kept
    ensures Setting(c, st, chain) == Citations.Setting(c.w, chain, st.chainOf, st.lim)
  {
    hide WeakBooks.Sound;
    c.ValidParts();
    c.ForestOfKept();
    c.CanonMatches();
    st.ValidParts();
    assert Joint(c, st).lists.Keys == c.kept.Keys;
  }

  /** The books are not touched by a step of the chain. */
  method AddBlock(c: Chain, st: Store, m: StrongBlock) returns (added: bool, needParent: bool)
    requires c.Valid() && st.Valid() && IsOf(m, c.w)
    modifies c, c.list
    modifies c.blocks`left, c.blocks`right, c.blocks`parent, c.blocks`child, c.blocks`sibling, c.blocks`kids
    modifies c.blocks`nb, c.blocks`weakBlocks
    ensures c.Valid() && st.Valid() && st.View() == old(st.View())
    ensures added <==> m.nb.hash != c.w.genesis && m.nb.hash !in old(c.kept)
    ensures needParent <==> added && c.w.par(m.nb.hash) !in old(c.Forest()).main
    ensures c.Forest() == Step(old(c.Forest()), c.w.par(m.nb.hash), m.nb.hash)
    ensures c.kept == if added then old(c.kept)[m.nb.hash := Payload(m.nb, m.cites)] else old(c.kept)
    ensures AskBook.IsArrival(c.w, old(c.Book()), m.nb.hash, c.Book())
    ensures fresh(c.blocks - old(c.blocks)) && (forall x | x in c.list :: x in old(c.list) || fresh(x))
    ensures Unstamped(c.blocks - old(c.blocks)) && old(Nodes(c.main)) <= Nodes(c.main)
    ensures c.root == old(c.root) && c.root.nb == old(c.root.nb)
  {
    hide *;
    OfHash(m, c.w);
    needParent, added := c.AddReceivedBlock(m.nb.parent, m.nb.hash, m.nb, m.cites);
  }

  lemma OfHash(m: StrongBlock, w: Lineage)
    requires IsOf(m, w)
    ensures m.nb.hash == w.genesis ||
            (m.nb.parent == w.par(m.nb.hash) && Genuine(w, m.nb.hash) && m.nb.depth == w.dep(m.nb.hash))
  {
  }

  method MarkCited(st: Store, cites: seq<BlockHash>, chain: nat)
    requires st.Valid() && chain < st.chains
    modifies st.nodes`besited
    ensures st.Valid()
    ensures WeakBooks.Step(st.chainOf, st.lim, old(st.View()), WeakBooks.Cited(chain, cites), st.View())
  {
    st.SetWeakBlockSited(cites, chain);
  }

  lemma KnownDoesNotJoin(t: Citations.Setting, s: Citations.State, h: BlockHash)
    requires Citations.IsState(t, s)
    ensures Citations.Joins(t, s, h) ==> h != t.w.genesis && h !in s.lists
  {
  }

  /** What the lookup after the insertion tells: the block joined the main tree. */
  lemma FoundIfJoins(t: Citations.Setting, s: Citations.State, m: StrongBlock, s': Citations.State)
    requires Citations.IsState(t, s) && Citations.IsState(t, s') && IsOf(m, t.w)
    requires m.nb.hash != t.w.genesis && m.nb.hash !in s.lists
    requires s'.lists == Citations.Listed(t, s.lists, m.nb.hash, m.cites)
    ensures m.nb.hash in Citations.Main(t, s') <==> Citations.Joins(t, s, m.nb.hash)
  {
    hide WeakBooks.Sound, Canon;
    assert s'.lists.Keys == s.lists.Keys + {m.nb.hash};
    Citations.MainGrows(t.w, s.lists.Keys, m.nb.hash);
  }

  lemma ArrivesNow(t: Citations.Setting, s: Citations.State, m: StrongBlock, s': Citations.State, marked: bool)
    requires Citations.IsState(t, s) && Citations.IsState(t, s') && marked == Citations.Joins(t, s, m.nb.hash)
    requires s'.lists == Citations.Listed(t, s.lists, m.nb.hash, m.cites)
    requires WeakBooks.Step(t.chainOf, t.lim, s.books,
      WeakBooks.Cited(t.chain, if marked then m.cites else []), s'.books)
    ensures Arrives(t, s, m, s')
  {
    hide WeakBooks.Step, Citations.IsState, Citations.Joins;
  }

  lemma NothingMarked(t: Citations.Setting, b: WeakBooks.Books)
    ensures WeakBooks.Step(t.chainOf, t.lim, b, WeakBooks.Cited(t.chain, []), b)
  {
    assert b.cited + {} == b.cited;
  }

  lemma ListedNow(kept: map<BlockHash, Payload>, kept': map<BlockHash, Payload>, t: Citations.Setting, m: StrongBlock)
    requires kept' == if m.nb.hash != t.w.genesis && m.nb.hash !in kept
                      then kept[m.nb.hash := Payload(m.nb, m.cites)] else kept
    ensures ListsOf(kept') == Citations.Listed(t, ListsOf(kept), m.nb.hash, m.cites)
  {
  }

  /**
   * A block whose header passed. Its citations are marked when it is found in the main tree, which
   * is when its parent was there.
   */
  method Receive(c: Chain, st: Store, m: StrongBlock) returns (added: bool, needParent: bool)
    requires c.Valid() && st.Valid() && m.chain < st.chains && IsOf(m, c.w)
    modifies c, c.list, st.nodes`besited
    modifies c.blocks`left, c.blocks`right, c.blocks`parent, c.blocks`child, c.blocks`sibling, c.blocks`kids
    modifies c.blocks`nb, c.blocks`weakBlocks
    ensures c.Valid() && st.Valid()
    ensures Arrives(Setting(c, st, m.chain), old(Joint(c, st)), m, Joint(c, st))
    ensures added <==> m.nb.hash != c.w.genesis && m.nb.hash !in old(c.kept)
    ensures needParent <==> added && c.w.par(m.nb.hash) !in old(c.Forest()).main
    ensures c.kept == if added then old(c.kept)[m.nb.hash := Payload(m.nb, m.cites)] else old(c.kept)
    ensures AskBook.IsArrival(c.w, old(c.Book()), m.nb.hash, c.Book())
    ensures fresh(c.blocks - old(c.blocks)) && (forall x | x in c.list :: x in old(c.list) || fresh(x))
    ensures Unstamped(c.blocks - old(c.blocks)) && old(Nodes(c.main)) <= Nodes(c.main)
    ensures c.root == old(c.root) && c.root.nb == old(c.root.nb)
  {
    hide *;
    ghost var t, s := Setting(c, st, m.chain), Joint(c, st);
    JointNow(c, st, m.chain);
    added, needParent := AddBlock(c, st, m);
    JointNow(c, st, m.chain);
    ListedNow(old(c.kept), c.kept, t, m);
    var marked := false;
    KnownDoesNotJoin(t, s, m.nb.hash);
    if added {
      FoundIfJoins(t, s, m, Joint(c, st));
      var bz := FindInMain(c, m.nb.hash);
      if bz != null {
        MarkCited(st, m.cites, m.chain);
        marked := true;
      }
    }
    if !marked {
      NothingMarked(t, st.View());
    }
    JointNow(c, st, m.chain);
    ArrivesNow(t, s, m, Joint(c, st), marked);
  }

  // ------------------------------------------------------------------ the handler of a node

  /** What one chain may write is out of the reach of the other. */
  ghost predicate Beside(c: Chain, d: Chain)
    reads c`blocks, c`list, d`blocks, d`list
  {
    && c != d && c.blocks !! d.blocks
    && forall i, j | 0 <= i < |c.list| && 0 <= j < |d.list| :: c.list[i] != d.list[j]
  }

  ghost predicate Apart(node: seq<Chain>)
    reads node
  {
    forall i, j | 0 <= i < |node| && 0 <= j < |node| && i != j :: Beside(node[i], node[j])
  }

  lemma ApartFrom(node: seq<Chain>, k: nat)
    requires Apart(node) && k < |node|
    ensures forall i | 0 <= i < |node| && i != k ::
              && node[i] != node[k] && node[i].blocks !! node[k].blocks
              && (forall j | 0 <= j < |node[i].list| :: node[i].list[j] !in node[k].list)
    ensures forall i, j | 0 <= i < |node| && 0 <= j < |node| && i != j :: Beside(node[i], node[j])
  {
    forall i | 0 <= i < |node| && i != k
      ensures node[i] != node[k] && node[i].blocks !! node[k].blocks
      ensures forall j | 0 <= j < |node[i].list| :: node[i].list[j] !in node[k].list
    {
      assert Beside(node[i], node[k]);
    }
  }

  lemma BesideNow(c: Chain, d: Chain)
    requires c != d && c.blocks !! d.blocks && forall j | 0 <= j < |c.list| :: c.list[j] !in d.list
    ensures Beside(c, d) && Beside(d, c)
  {
  }

  lemma ApartAgain(node: seq<Chain>, k: nat)
    requires k < |node|
    requires forall i | 0 <= i < |node| && i != k :: Beside(node[i], node[k]) && Beside(node[k], node[i])
    requires forall i, j | 0 <= i < |node| && 0 <= j < |node| && i != j && i != k && j != k :: Beside(node[i], node[j])
    ensures Apart(node)
  {
  }

  /** The arrival, seen from a chain that it does not belong to. */
  ghost predicate ArrivesElsewhere(t: Citations.Setting, s: Citations.State, chain: nat, s': Citations.State) {
    exists cites :: Citations.IsStep(t, s, Citations.Event.Other(WeakBooks.Cited(chain, cites)), s')
  }

  lemma ElsewhereNow(
    t: Citations.Setting, s: Citations.State, m: StrongBlock, s': Citations.State,
    u: Citations.Setting, r: Citations.State, r': Citations.State)
    requires Arrives(t, s, m, s') && Citations.IsState(u, r) && Citations.IsState(u, r')
    requires u.chainOf == t.chainOf && u.lim == t.lim && u.chain != t.chain
    requires r.books == s.books && r'.books == s'.books && r'.lists == r.lists
    ensures ArrivesElsewhere(u, r, t.chain, r')
  {
    hide WeakBooks.Step, Citations.IsState, Citations.Joins;
    var cites := if Citations.Joins(t, s, m.nb.hash) then m.cites else [];
    assert Citations.IsStep(u, r, Citations.Event.Other(WeakBooks.Cited(t.chain, cites)), r');
  }

  /** The chains of a node, each with the books. */
  ghost function Joints(node: seq<Chain>, st: Store): (ss: seq<Citations.State>)
    reads node, st, st.nodes
    ensures |ss| == |node| && forall i | 0 <= i < |node| :: ss[i] == Joint(node[i], st)
  {
    seq(|node|, i requires 0 <= i < |node| reads node, st, st.nodes => Joint(node[i], st))
  }

  ghost function Settings(node: seq<Chain>, st: Store): (ts: seq<Citations.Setting>)
    ensures |ts| == |node| && forall i | 0 <= i < |node| :: ts[i] == Setting(node[i], st, i)
  {
    seq(|node|, i requires 0 <= i < |node| => Setting(node[i], st, i))
  }

  /** One message, as all chains of the node see it. */
  ghost predicate Reaches(
    ts: seq<Citations.Setting>, ss: seq<Citations.State>, m: StrongBlock, ss': seq<Citations.State>)
  {
    && m.chain < |ts| == |ss| == |ss'|
    && Arrives(ts[m.chain], ss[m.chain], m, ss'[m.chain])
    && forall i | 0 <= i < |ts| && i != m.chain :: ArrivesElsewhere(ts[i], ss[i], m.chain, ss'[i])
  }

  ghost predicate IsNew(t: Citations.Setting, s: Citations.State, m: StrongBlock) {
    Citations.IsState(t, s) && m.nb.hash != t.w.genesis && m.nb.hash !in s.lists
  }

  /** A new block asks for the trailing block and for the parent, if they are outside the main trees. */
  ghost predicate Asks(
    ts: seq<Citations.Setting>, ss: seq<Citations.State>, m: StrongBlock, main: set<BlockHash>,
    trailing: bool, parent: bool)
  {
    && m.chain < |ts| == |ss|
    && var t, s := ts[m.chain], ss[m.chain];
       && (parent <==> IsNew(t, s, m) && t.w.par(m.nb.hash) !in Citations.Main(t, s))
       && (trailing <==> IsNew(t, s, m) && m.trailing !in main)
  }

  lemma ReachesNow(
    ts: seq<Citations.Setting>, ss: seq<Citations.State>, m: StrongBlock, ss': seq<Citations.State>)
    requires m.chain < |ts| == |ss| == |ss'| && Arrives(ts[m.chain], ss[m.chain], m, ss'[m.chain])
    requires forall i | 0 <= i < |ts| ::
               && Citations.IsState(ts[i], ss[i]) && Citations.IsState(ts[i], ss'[i])
               && ts[i].chainOf == ts[m.chain].chainOf && ts[i].lim == ts[m.chain].lim && ts[i].chain == i
               && ss[i].books == ss[m.chain].books && ss'[i].books == ss'[m.chain].books
    requires forall i | 0 <= i < |ts| && i != m.chain :: ss'[i].lists == ss[i].lists
    ensures Reaches(ts, ss, m, ss')
  {
    hide Arrives, ArrivesElsewhere, Citations.IsState;
    var k := m.chain;
    forall i | 0 <= i < |ts| && i != k ensures ArrivesElsewhere(ts[i], ss[i], k, ss'[i]) {
      ElsewhereNow(ts[k], ss[k], m, ss'[k], ts[i], ss[i], ss'[i]);
    }
  }

  lemma JointsNow(node: seq<Chain>, st: Store)
    requires st.Valid() && forall i | 0 <= i < |node| :: node[i].Valid()
    ensures forall i | 0 <= i < |node| ::
              && Settings(node, st)[i] == Citations.Setting(node[i].w, i, st.chainOf, st.lim)
              && Citations.IsState(Settings(node, st)[i], Joints(node, st)[i])
              && Joints(node, st)[i].lists == ListsOf(node[i].kept) && Joints(node, st)[i].books == st.View()
  {
    hide *;
    forall i | 0 <= i < |node|
      ensures Settings(node, st)[i] == Citations.Setting(node[i].w, i, st.chainOf, st.lim)
      ensures Citations.IsState(Settings(node, st)[i], Joints(node, st)[i])
      ensures Joints(node, st)[i].lists == ListsOf(node[i].kept) && Joints(node, st)[i].books == st.View()
    {
      JointNow(node[i], st, i);
    }
  }

  lemma RootsAreBlocks(node: seq<Chain>)
    requires forall i | 0 <= i < |node| :: node[i].Valid()
    ensures forall i | 0 <= i < |node| :: node[i].root in node[i].blocks && Nodes(node[i].main) <= node[i].blocks
  {
    hide *;
    forall i | 0 <= i < |node| ensures node[i].root in node[i].blocks && Nodes(node[i].main) <= node[i].blocks {
      node[i].ValidParts();
      node[i].MainFacts();
      ClanRoot(Nodes(node[i].main), node[i].root, node[i].w);
    }
  }

  /** A step of one chain leaves the others alone. */
  method ReceiveApart(node: seq<Chain>, st: Store, m: StrongBlock) returns (added: bool, needParent: bool)
    requires m.chain < |node| && st.Valid() && m.chain < st.chains && IsOf(m, node[m.chain].w)
    requires Apart(node) && forall i | 0 <= i < |node| :: node[i].Valid()
    modifies node[m.chain], node[m.chain].list, st.nodes`besited
    modifies node[m.chain].blocks`left, node[m.chain].blocks`right, node[m.chain].blocks`parent
    modifies node[m.chain].blocks`child, node[m.chain].blocks`sibling, node[m.chain].blocks`kids
    modifies node[m.chain].blocks`nb, node[m.chain].blocks`weakBlocks
    ensures st.Valid() && Apart(node) && forall i | 0 <= i < |node| :: node[i].Valid()
    ensures forall i | 0 <= i < |node| && i != m.chain :: unchanged(node[i]) && unchanged(node[i].blocks)
    ensures var c := node[m.chain];
            && c.root == old(c.root) && c.root.nb == old(c.root.nb)
            && Unstamped(c.blocks - old(c.blocks)) && old(Nodes(c.main)) <= Nodes(c.main)
            && c.kept == if added then old(c.kept)[m.nb.hash := Payload(m.nb, m.cites)] else old(c.kept)
    ensures Arrives(
      Setting(node[m.chain], st, m.chain), old(Joint(node[m.chain], st)), m, Joint(node[m.chain], st))
    ensures added <==> m.nb.hash != node[m.chain].w.genesis && m.nb.hash !in old(node[m.chain].kept)
    ensures needParent <==> added && node[m.chain].w.par(m.nb.hash) !in old(node[m.chain].Forest()).main
  {
    hide *;
    ApartFrom(node, m.chain);
    var c := node[m.chain];
    RootsAreBlocks(node);
    added, needParent := Receive(c, st, m);
    forall i | 0 <= i < |node| && i != m.chain ensures node[i].Valid() && Beside(node[i], c) && Beside(c, node[i]) {
      var d := node[i];
      assert unchanged(d) && unchanged(d.blocks);
      forall j | 0 <= j < |d.list| ensures unchanged(d.list[j]) {
        assert d.list[j] !in old(c.list);
      }
      assert unchanged(d.list);
      BesideNow(d, c);
    }
    ApartAgain(node, m.chain);
  }

  method ReceiveAt(node: seq<Chain>, st: Store, m: StrongBlock) returns (added: bool, needParent: bool)
    requires m.chain < |node| && st.Valid() && m.chain < st.chains && IsOf(m, node[m.chain].w)
    requires Apart(node) && forall i | 0 <= i < |node| :: node[i].Valid()
    modifies node[m.chain], node[m.chain].list, node[m.chain].blocks, st.nodes`besited
    ensures st.Valid() && Apart(node) && forall i | 0 <= i < |node| :: node[i].Valid()
    ensures Reaches(Settings(node, st), old(Joints(node, st)), m, Joints(node, st))
    ensures Asks(Settings(node, st), old(Joints(node, st)), m, {m.trailing}, false, needParent)
    ensures added <==> IsNew(Settings(node, st)[m.chain], old(Joints(node, st))[m.chain], m)
  {
    hide *;
    ghost var ts, ss := Settings(node, st), Joints(node, st);
    JointsNow(node, st);
    JointNow(node[m.chain], st, m.chain);
    added, needParent := ReceiveApart(node, st, m);
    JointsNow(node, st);
    ReachesNow(ts, ss, m, Joints(node, st));
    AsksNow(ts, ss, m, {m.trailing}, false, needParent);
  }

  lemma AsksNow(
    ts: seq<Citations.Setting>, ss: seq<Citations.State>, m: StrongBlock, main: set<BlockHash>,
    trailing: bool, parent: bool)
    requires m.chain < |ts| == |ss| && Citations.IsState(ts[m.chain], ss[m.chain])
    requires var added := m.nb.hash != ts[m.chain].w.genesis && m.nb.hash !in ss[m.chain].lists;
             && (parent <==> added && ts[m.chain].w.par(m.nb.hash) !in Citations.Main(ts[m.chain], ss[m.chain]))
             && (trailing <==> added && m.trailing !in main)
    ensures Asks(ts, ss, m, main, trailing, parent)
    ensures IsNew(ts[m.chain], ss[m.chain], m) <==>
              m.nb.hash != ts[m.chain].w.genesis && m.nb.hash !in ss[m.chain].lists
  {
    hide Citations.IsState, Citations.Main;
  }

  /** What a message does to the node and what is asked for, after the verdict on its header. */
  ghost predicate Handled(
    ts: seq<Citations.Setting>, ss: seq<Citations.State>, m: StrongBlock, ss': seq<Citations.State>, good: bool,
    trailing: bool, parent: bool)
  {
    if good then
      && Reaches(ts, ss, m, ss') && m.trailingId < |ts| && Citations.IsState(ts[m.trailingId], ss'[m.trailingId])
      && Asks(ts, ss, m, Citations.Main(ts[m.trailingId], ss'[m.trailingId]), trailing, parent)
    else ss' == ss && !trailing && !parent
  }

  lemma HandledNow(
    ts: seq<Citations.Setting>, ss: seq<Citations.State>, m: StrongBlock, ss': seq<Citations.State>,
    trailing: bool, parent: bool)
    requires Reaches(ts, ss, m, ss') && Asks(ts, ss, m, {m.trailing}, false, parent)
    requires m.trailingId < |ts| && Citations.IsState(ts[m.trailingId], ss'[m.trailingId])
    requires trailing <==>
               IsNew(ts[m.chain], ss[m.chain], m) && m.trailing !in Citations.Main(ts[m.trailingId], ss'[m.trailingId])
    ensures Handled(ts, ss, m, ss', true, trailing, parent)
  {
    hide IsNew, Arrives, ArrivesElsewhere, Citations.IsState, Citations.Main;
  }

  /**
   * The messages that the handler sends are the asks of the chains' ask books: for the chain of the
   * block, and for another one that the trailing block is named in.
   */
  lemma AsksAreOfTheBooks(
    ts: seq<Citations.Setting>, ss: seq<Citations.State>, m: StrongBlock, ss': seq<Citations.State>,
    trailing: bool, parent: bool, each: U32, limit: U32, k: nat, b: AskBook.State, b': AskBook.State, r: BlockHash)
    requires Handled(ts, ss, m, ss', true, trailing, parent) && k < |ts| == |ss| == |ss'| && m.chain < |ts|
    requires b.held == ss[k].lists.Keys && b'.held == ss'[k].lists.Keys
    requires k == m.chain ==> AskBook.IsArrival(ts[k].w, b, m.nb.hash, b')
    requires k != m.chain ==> AskBook.IsState(ts[k].w, b) && b' == b && IsNew(ts[m.chain], ss[m.chain], m)
    requires k == m.chain || k == m.trailingId
    ensures var named := if m.trailingId == k then Some(m.trailing) else None;
            var e :=
              if k == m.chain then AskBook.Event.Arrive(m.nb.hash, named) else AskBook.Event.Elsewhere(m.trailing);
            && AskBook.IsStep(ts[k].w, each, limit, b, e, b')
            && AskBook.AsksAt(ts[k].w, each, limit, b, e, b', r) ==
               (if trailing && m.trailingId == k && m.trailing == r then [AskBook.AsTrailing] else []) +
               (if parent && k == m.chain && ts[k].w.par(m.nb.hash) == r then [AskBook.ForChild(m.nb.hash)] else [])
  {
    hide Canon, AskBook.Carried, AllGenuine, Reaches, WeakBooks.Sound;
    ReachesStates(ts, ss, m, ss');
  }

  lemma ReachesStates(
    ts: seq<Citations.Setting>, ss: seq<Citations.State>, m: StrongBlock, ss': seq<Citations.State>)
    requires Reaches(ts, ss, m, ss')
    ensures m.chain < |ts| == |ss| == |ss'|
    ensures Citations.IsState(ts[m.chain], ss[m.chain]) && Citations.IsState(ts[m.chain], ss'[m.chain])
  {
  }

  lemma NotHandled(ts: seq<Citations.Setting>, ss: seq<Citations.State>, m: StrongBlock)
    ensures Handled(ts, ss, m, ss, false, false, false)
  {
  }

  /**
   * `#process_block`: the header is checked, the block is received into the chain it names, and
   * the trailing block and the parent are asked for if they are missing.
   */
  method OnProcessBlock(sha: Merkle.Sha, node: seq<Chain>, st: Store, m: StrongBlock)
    returns (good: bool, askTrailing: bool, askParent: bool)
    requires st.Valid() && |node| == st.chains > 0 && Apart(node) && forall i | 0 <= i < |node| :: node[i].Valid()
    requires |m.proof| >= 2 && m.trailingId < |node|
    requires Passes(sha, st.chains, m) ==> m.chain < |node| && IsOf(m, node[m.chain].w)
    modifies if m.chain < |node| then {node[m.chain]} else {}
    modifies if m.chain < |node| then node[m.chain].list else []
    modifies if m.chain < |node| then node[m.chain].blocks else {}
    modifies st.nodes`besited
    ensures st.Valid() && Apart(node) && forall i | 0 <= i < |node| :: node[i].Valid()
    ensures good <==> Passes(sha, st.chains, m)
    ensures Handled(Settings(node, st), old(Joints(node, st)), m, Joints(node, st), good, askTrailing, askParent)
  {
    hide *;
    askTrailing, askParent := false, false;
    PassesNames(sha, st.chains, m);
    good := Headers.CheckHeader(
      sha, st.chains, m.chain, m.nb.hash, m.nb.parent, m.rootChains, m.rootTxs, m.proof);
    ghost var ts, ss := Settings(node, st), Joints(node, st);
    NotHandled(ts, ss, m);
    if good {
      var added;
      added, askParent := ReceiveAt(node, st, m);
      if added {
        var t := FindInMain(node[m.trailingId], m.trailing);
        askTrailing := t == null;
      }
      JointsNow(node, st);
      JointNow(node[m.trailingId], st, m.trailingId);
      HandledNow(ts, ss, m, Joints(node, st), askTrailing, askParent);
    }
  }

  lemma PassesNames(sha: Merkle.Sha, chains: U32, m: StrongBlock)
    requires chains > 0
    ensures Passes(sha, chains, m) <==>
              Headers.HeaderPasses(sha, chains, m.chain, m.nb.hash, m.nb.parent, m.rootChains, m.rootTxs, m.proof)
    ensures Passes(sha, chains, m) ==> m.chain < chains
  {
  }

  // ------------------------------------------------------------------ the stamps follow the chains

  ghost function Held(c: Chain): set<BlockHash>
    reads c`kept
  {
    c.kept.Keys + {c.w.genesis}
  }

  /** No hash is held by two chains. */
  ghost predicate Distinct(node: seq<Chain>)
    reads node
  {
    forall i, j | 0 <= i < |node| && 0 <= j < |node| && i != j :: Held(node[i]) !! Held(node[j])
  }

  /** The origin of blocks that the stamps rely on knows the chain; what is outside its main tree has no stamps. */
  ghost predicate Followed(o: CommitBooks.Origin, c: Chain)
    reads c, c.root, c.blocks
  {
    Confirm.Agrees(o, c) && Unstamped(c.blocks - Nodes(c.main))
  }

  ghost predicate FromOrigin(o: CommitBooks.Origin, m: StrongBlock, w: Lineage) {
    m.nb.hash == w.genesis
    || (m.nb.hash !in o.genesis && o.par(m.nb.hash) == w.par(m.nb.hash) && o.mined(m.nb.hash) == m.nb.timeMined)
  }

  lemma MainsAreDistinct(node: seq<Chain>)
    requires Distinct(node) && forall i | 0 <= i < |node| :: node[i].Valid()
    ensures forall i, j | 0 <= i < j < |node| :: Hashes(node[i].main) !! Hashes(node[j].main)
  {
    hide *;
    forall i | 0 <= i < |node| ensures Hashes(node[i].main) <= Held(node[i]) {
      MainIsHeld(node[i]);
    }
    DistinctParts(node);
  }

  lemma DistinctParts(node: seq<Chain>)
    requires Distinct(node)
    ensures forall i, j | 0 <= i < |node| && 0 <= j < |node| && i != j :: Held(node[i]) !! Held(node[j])
  {
  }

  lemma MainIsHeld(c: Chain)
    requires c.Valid()
    ensures Hashes(c.main) <= Held(c)
  {
    c.ValidParts();
    c.LookupFacts();
    forall h | h in Hashes(c.main) ensures h in Held(c) {
      CanonTrees(c.w, c.kept.Keys, h);
    }
  }

  lemma StillFollowed(
    o: CommitBooks.Origin, c: Chain, was: map<BlockHash, Payload>, bs: set<Block>, ms: set<Block>, m: StrongBlock)
    requires (forall h | h in was :: h !in o.genesis && o.par(h) == c.w.par(h) && o.mined(h) == was[h].nb.timeMined)
    requires c.w.genesis in o.genesis && c.root.nb.Some? && c.root.nb.value.timeMined == o.mined(c.w.genesis)
    requires c.kept == was || (c.kept == was[m.nb.hash := Payload(m.nb, m.cites)] && m.nb.hash != c.w.genesis)
    requires FromOrigin(o, m, c.w) && Unstamped(bs - ms) && Unstamped(c.blocks - bs) && ms <= Nodes(c.main)
    ensures Followed(o, c)
  {
    hide Nodes;
  }

  lemma FollowedParts(o: CommitBooks.Origin, c: Chain)
    requires Followed(o, c)
    ensures Confirm.Agrees(o, c) && Unstamped(c.blocks - Nodes(c.main))
    ensures c.w.genesis in o.genesis && c.root.nb.Some? && c.root.nb.value.timeMined == o.mined(c.w.genesis)
    ensures forall h | h in c.kept ::
              h !in o.genesis && o.par(h) == c.w.par(h) && o.mined(h) == c.kept[h].nb.timeMined
  {
    hide Nodes;
  }

  lemma NamedParts(conf: Confirm.Confirmations)
    requires conf.Valid()
    ensures Confirm.Named(conf.nodes, conf.known)
  {
  }

  ghost function Mains(node: seq<Chain>): (r: seq<Shape>)
    reads node
    ensures |r| == |node| && forall i | 0 <= i < |node| :: r[i] == node[i].main
  {
    seq(|node|, i requires 0 <= i < |node| reads node => node[i].main)
  }

  ghost function Helds(node: seq<Chain>): (r: seq<set<BlockHash>>)
    reads node
    ensures |r| == |node| && forall i | 0 <= i < |node| :: r[i] == Held(node[i])
  {
    seq(|node|, i requires 0 <= i < |node| reads node => Held(node[i]))
  }

  lemma HeldIs(node: seq<Chain>)
    ensures forall i | 0 <= i < |node| :: Held(node[i]) == node[i].kept.Keys + {node[i].w.genesis}
    ensures Distinct(node) ==>
              forall i, j | 0 <= i < |node| && 0 <= j < |node| && i != j :: Helds(node)[i] !! Helds(node)[j]
  {
  }

  lemma AllFollowed(o: CommitBooks.Origin, node: seq<Chain>)
    requires forall i | 0 <= i < |node| :: Followed(o, node[i])
    ensures forall i | 0 <= i < |node| :: Confirm.Agrees(o, node[i])
  {
    hide Confirm.Agrees;
  }

  ghost predicate InSome(mains: seq<Shape>, b: Block) {
    exists i :: 0 <= i < |mains| && b in Nodes(mains[i])
  }

  lemma InMains(node: seq<Chain>)
    ensures forall b :: b in Confirm.MainNodes(node) <==> InSome(Mains(node), b)
    ensures forall i | 0 <= i < |node| :: Nodes(Mains(node)[i]) <= Confirm.MainNodes(node)
  {
    hide Nodes, Confirm.MainNodes;
    forall b ensures b in Confirm.MainNodes(node) <==> InSome(Mains(node), b) {
      Confirm.InMainNodes(node, b);
      if i :| 0 <= i < |node| && b in Nodes(node[i].main) {
        assert b in Nodes(Mains(node)[i]);
      }
    }
    forall i | 0 <= i < |node| ensures Nodes(Mains(node)[i]) <= Confirm.MainNodes(node) {
      Confirm.MainPart(node, i);
    }
  }

  /** One main tree gained blocks, which have no stamps. */
  lemma MainsGrow(
    mains: seq<Shape>, mains': seq<Shape>, k: nat, all: set<Block>, all': set<Block>, bs: set<Block>, bs': set<Block>)
    requires k < |mains| == |mains'| && (forall i | 0 <= i < |mains| && i != k :: mains'[i] == mains[i])
    requires Nodes(mains[k]) <= Nodes(mains'[k]) <= bs'
    requires Unstamped(bs - Nodes(mains[k])) && Unstamped(bs' - bs)
    requires (forall b | b in all :: InSome(mains, b)) && (forall i | 0 <= i < |mains| :: Nodes(mains[i]) <= all)
    requires forall b :: b in all' <==> InSome(mains', b)
    ensures all <= all' && Unstamped(all' - all)
  {
    hide Nodes;
    forall b | b in all ensures b in all' {
      var i :| 0 <= i < |mains| && b in Nodes(mains[i]);
      assert b in Nodes(mains'[i]);
    }
    forall b | b in all' - all ensures b.timePartial == 0 && b.timeCommitted == 0 {
      var i :| 0 <= i < |mains'| && b in Nodes(mains'[i]);
      assert i == k && b !in Nodes(mains[k]);
    }
  }

  lemma DistinctAgain(node: seq<Chain>, before: seq<set<BlockHash>>, m: StrongBlock)
    requires m.chain < |node| == |before|
    requires forall i, j | 0 <= i < |node| && 0 <= j < |node| && i != j :: before[i] !! before[j]
    requires forall i | 0 <= i < |node| && i != m.chain :: Held(node[i]) == before[i] && m.nb.hash !in before[i]
    requires Held(node[m.chain]) <= before[m.chain] + {m.nb.hash}
    ensures Distinct(node)
  {
    hide Held;
  }

  /**
   * After a block is received, the books of the stamps cover the main trees again, and neither their
   * entries nor their totals change: all that joined a main tree has no stamps yet.
   */
  method ReceiveAndFollow(node: seq<Chain>, st: Store, m: StrongBlock, conf: Confirm.Confirmations)
    returns (added: bool, needParent: bool)
    requires m.chain < |node| && st.Valid() && m.chain < st.chains && IsOf(m, node[m.chain].w)
    requires Apart(node) && Distinct(node) && forall i | 0 <= i < |node| :: node[i].Valid() && Followed(conf.o, node[i])
    requires conf.Valid() && conf.nodes == Confirm.MainNodes(node)
    requires FromOrigin(conf.o, m, node[m.chain].w)
    requires forall i | 0 <= i < |node| && i != m.chain :: m.nb.hash !in Held(node[i])
    modifies node[m.chain], node[m.chain].list, st.nodes`besited, conf`nodes, conf`known
    modifies node[m.chain].blocks`left, node[m.chain].blocks`right, node[m.chain].blocks`parent
    modifies node[m.chain].blocks`child, node[m.chain].blocks`sibling, node[m.chain].blocks`kids
    modifies node[m.chain].blocks`nb, node[m.chain].blocks`weakBlocks
    ensures st.Valid() && Apart(node) && Distinct(node)
    ensures forall i | 0 <= i < |node| :: node[i].Valid() && Followed(conf.o, node[i])
    ensures conf.Valid() && conf.nodes == Confirm.MainNodes(node)
    ensures conf.Partial() == old(conf.Partial()) && conf.Committed() == old(conf.Committed())
  {
    hide *;
    var k := m.chain;
    ghost var c, o, bs, mains := node[k], conf.o, node[k].blocks, Mains(node);
    RootsAreBlocks(node);
    InMains(node);
    HeldIs(node);
    FollowedParts(o, c);
    NamedParts(conf);
    ghost var all := conf.nodes;
    added, needParent := ReceiveApart(node, st, m);
    StillFollowed(o, c, old(c.kept), bs, Nodes(mains[k]), m);
    HeldIs(node);
    DistinctAgain(node, old(Helds(node)), m);
    MainsAreDistinct(node);
    InMains(node);
    RootsAreBlocks(node);
    AllFollowed(o, node);
    MainsGrow(mains, Mains(node), k, all, Confirm.MainNodes(node), bs, c.blocks);
    conf.Follow(node);
  }

  // ------------------------------------------------------------------ a strong block is mined, blocks expire

  /** The miner cites what is full and not cited; with nothing to cite the block is not added. */
  method OnMined(c: Chain, st: Store, chain: nat, hash: BlockHash, nb: NetworkBlock)
    returns (added: bool, ghost cites: seq<BlockHash>)
    requires c.Valid() && st.Valid() && chain < st.chains && c.Unheard(hash)
    requires c.deepest.hash == c.w.par(hash) && Genuine(c.w, hash) && nb.depth == c.w.dep(hash)
    modifies c, c.list, st.nodes`besited
    modifies c.blocks`left, c.blocks`right, c.blocks`parent, c.blocks`child, c.blocks`sibling, c.blocks`kids
    modifies c.blocks`nb, c.blocks`weakBlocks
    ensures c.Valid() && st.Valid()
    ensures Citations.IsStep(
      Setting(c, st, chain), old(Joint(c, st)), Citations.Event.Mine(hash, cites), Joint(c, st))
    ensures added <==> cites != []
    ensures added ==> c.deepest.hash == hash && c.kept == old(c.kept)[hash := Payload(nb, cites)]
  {
    hide *;
    ghost var t, s := Setting(c, st, chain), Joint(c, st);
    JointNow(c, st, chain);
    MinedJoins(c, t, s, hash);
    var unsited := Unsited(st, chain);
    cites, added := unsited, unsited != [];
    if added {
      c.AddMinedBlock(hash, nb, unsited);
    }
    JointNow(c, st, chain);
    MinedNow(t, s, hash, cites, Joint(c, st), old(c.kept), c.kept, nb);
  }

  method Unsited(st: Store, chain: nat) returns (unsited: seq<BlockHash>)
    requires st.Valid() && chain < st.chains
    modifies st.nodes`besited
    ensures st.Valid()
    ensures WeakBooks.Step(st.chainOf, st.lim, old(st.View()), WeakBooks.Cite(chain, unsited), st.View())
  {
    unsited := st.MineCitations(chain);
  }

  lemma MinedJoins(c: Chain, t: Citations.Setting, s: Citations.State, hash: BlockHash)
    requires c.Valid() && c.Unheard(hash) && c.deepest.hash == c.w.par(hash) && Genuine(c.w, hash)
    requires Citations.IsState(t, s) && Citations.Main(t, s) == c.Forest().main && t.w == c.w
    requires forall h :: h in s.lists <==> h in c.kept
    ensures Citations.Joins(t, s, hash)
  {
    hide Citations.Main, Citations.IsState;
    c.ValidParts();
    c.UnheardIsNew(hash);
    c.CachedFacts();
    c.InMain(c.deepest);
  }

  lemma MinedNow(
    t: Citations.Setting, s: Citations.State, hash: BlockHash, cites: seq<BlockHash>, s': Citations.State,
    kept: map<BlockHash, Payload>, kept': map<BlockHash, Payload>, nb: NetworkBlock)
    requires Citations.IsState(t, s) && Citations.IsState(t, s') && Citations.Joins(t, s, hash)
    requires s.lists == ListsOf(kept) && s'.lists == ListsOf(kept')
    requires kept' == if cites == [] then kept else kept[hash := Payload(nb, cites)]
    requires WeakBooks.Step(t.chainOf, t.lim, s.books, WeakBooks.Cite(t.chain, cites), s'.books)
    ensures Citations.IsStep(t, s, Citations.Event.Mine(hash, cites), s')
  {
    hide WeakBooks.Step, Citations.IsState, Citations.Joins;
  }

  /** The tick for missing parents does not touch the main tree or the books. */
  method OnTick(c: Chain, st: Store, chain: nat, now: U64, each: U32, limit: U32) returns (hashes: seq<BlockHash>)
    requires c.Valid() && st.Valid()
    modifies c`inchains, c`list, c`trees, c`blocks, c`kept
    modifies Cells(c.list)`next, Cells(c.list)`lastAsked, Cells(c.list)`noAsks
    ensures c.Valid() && st.Valid()
    ensures Citations.IsStep(Setting(c, st, chain), old(Joint(c, st)), Citations.Event.Expire, Joint(c, st))
    ensures AskBook.IsTick(c.w, old(c.Book()), now, each, limit, c.Book())
  {
    hide *;
    ghost var t, s := Setting(c, st, chain), Joint(c, st);
    JointNow(c, st, chain);
    hashes := c.GetIncompleteChainHashes(now, each, limit);
    JointNow(c, st, chain);
    ExpiredNow(t, s, Joint(c, st), old(c.Forest()), c.Forest(), old(c.kept), c.kept);
  }

  lemma ExpiredNow(
    t: Citations.Setting, s: Citations.State, s': Citations.State, f: Forest, f': Forest,
    kept: map<BlockHash, Payload>, kept': map<BlockHash, Payload>)
    requires Citations.IsState(t, s) && Citations.IsState(t, s') && s'.books == s.books
    requires Citations.Main(t, s) == f.main && Citations.Main(t, s') == f'.main && Remains(f', f)
    requires s.lists == ListsOf(kept) && s'.lists == ListsOf(kept') && Fewer(kept', kept)
    ensures Citations.IsStep(t, s, Citations.Event.Expire, s')
  {
    hide Citations.IsState, Citations.Main;
  }
}
