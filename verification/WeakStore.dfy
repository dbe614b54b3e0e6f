/**
 * The weak blocks of all chains and their two request tables, updated in place. Every operation
 * makes one step of the books.
 */
module WeakStore {
  import opened Types
  import opened WeakTree
  import opened WeakBooks
  import opened FullBlocks

  /** The tree of one chain holds exactly the known blocks of that chain. */
  ghost predicate Site(r: WeakBlock?, s: Shape, c: nat, known: map<BlockHash, WeakBlock>, chainOf: BlockHash -> nat)
    reads Nodes(s)`left, Nodes(s)`right
  {
    && Search(r, s) && Ordered(s)
    && (forall b | b in Nodes(s) :: b.hash in known && known[b.hash] == b && chainOf(b.hash) == c)
    && (forall h | h in known && chainOf(h) == c :: known[h] in Nodes(s))
  }

  ghost function FullOf(nodes: set<WeakBlock>): set<BlockHash>
    reads nodes`isFull
  {
    set b | b in nodes && b.isFull :: b.hash
  }

  ghost function CitedOf(nodes: set<WeakBlock>): set<BlockHash>
    reads nodes`besited
  {
    set b | b in nodes && b.besited :: b.hash
  }

  class Store {
    /** A hash fixes the chain of its block. */
    ghost const chainOf: BlockHash -> nat
    const chains: U32
    const lim: Limits
    /** `weak_store`. */
    var roots: seq<WeakBlock?>
    /** `received_non_full_blocks`: the chain, and when the block was last announced. */
    var nonFull: map<BlockHash, (nat, U64)>
    /** `waiting_for_full_blocks`: when the full block was asked for. */
    var waiting: map<BlockHash, U64>
    var processed: nat
    var totalReceived: nat

    ghost var shapes: seq<Shape>
    ghost var known: map<BlockHash, WeakBlock>
    ghost var nodes: set<WeakBlock>

    ghost predicate Indexed()
      reads `roots, `shapes, `known, `nodes, nodes`left, nodes`right
    {
      && |roots| == |shapes| == chains && NamedBy(known, nodes)
      && (forall c | 0 <= c < chains :: Nodes(shapes[c]) <= nodes)
      && (forall c | 0 <= c < chains :: Site(roots[c], shapes[c], c, known, chainOf))
    }

    ghost function View(): Books
      reads `known, `nodes, `nonFull, `waiting, `processed, `totalReceived, nodes`isFull, nodes`besited
    {
      Books(known.Keys, FullOf(nodes), CitedOf(nodes), nonFull, waiting, processed, totalReceived)
    }

    ghost predicate Valid()
      reads this, nodes
    {
      Indexed() && Sound(chainOf, View())
    }

    /** The block is known with this announcement. */
    ghost predicate Announces(hash: BlockHash, ann: Announcement)
      reads `known
    {
      hash in known && known[hash].ann == ann
    }

    ghost predicate Holds(hash: BlockHash, b: WeakBlock)
      reads `known
    {
      hash in known && known[hash] == b
    }

    /** The operation made one step of the books. */
    twostate predicate Steps(e: Event)
      reads this, nodes
    {
      && Valid() && Step(chainOf, lim, old(View()), e, View())
    }

    constructor (chains: U32, lim: Limits, ghost chainOf: BlockHash -> nat)
      ensures Valid() && View() == EMPTY
      ensures this.chains == chains && this.lim == lim && this.chainOf == chainOf
    {
      this.chains, this.lim := chains, lim;
      roots := seq(chains, _ => null);
      nonFull, waiting, processed, totalReceived := map[], map[], 0, 0;
      this.chainOf := chainOf;
      shapes := seq(chains, _ => Nil);
      known, nodes := map[], {};
    }

    method FindWeakBlock(hash: BlockHash, chain: nat) returns (b: WeakBlock?)
      requires Indexed() && chain < chains
      ensures b == null <==> hash !in known || chainOf(hash) != chain
      ensures b != null ==> hash in known && b == known[hash]
    {
      hide Ordered, Search, Nodes;
      assert Site(roots[chain], shapes[chain], chain, known, chainOf);
      b := FindWeakBlockByHash(roots[chain], hash, shapes[chain]);
    }

    method HaveFullWeakBlock(chain: nat, hash: BlockHash) returns (have: bool)
      requires Indexed() && chain < chains
      ensures have <==> hash in FullOf(nodes) && chainOf(hash) == chain
    {
      var b := FindWeakBlock(hash, chain);
      have := b != null && b.isFull;
    }

    /** A node with a new hash enters the tree of its chain. */
    method Link(chain: nat, b: WeakBlock)
      requires Indexed() && chain < chains && b.hash !in known && chainOf(b.hash) == chain
      requires b !in nodes && b.left == null && b.right == null
      modifies `roots, `shapes, `known, `nodes, nodes`left, nodes`right
      ensures Indexed() && known == old(known)[b.hash := b] && nodes == old(nodes) + {b}
    {
      hide *;
      IndexedFacts();
      ghost var s, known0, nodes0 := shapes[chain], known, nodes;
      SiteHasRoom(roots[chain], s, chain, known, chainOf, b);
      SitesAreApart(chain);
      InsertKeepsOrder(s, b);
      var r := InsertWeakBlockByHash(roots[chain], b, s);
      SiteGrows(r, s, chain, known0, chainOf, b);
      SitesStay(chain, b);
      roots := roots[chain := r];
      shapes := shapes[chain := Insert(s, b)];
      known, nodes := known[b.hash := b], nodes + {b};
      IndexedNow(known0, nodes0, chain, b);
    }

    lemma IndexedFacts()
      requires Indexed()
      ensures |roots| == |shapes| == chains && NamedBy(known, nodes)
      ensures forall c | 0 <= c < chains :: Nodes(shapes[c]) <= nodes
      ensures forall c | 0 <= c < chains :: Site(roots[c], shapes[c], c, known, chainOf)
    {
    }

    /** Nodes and hashes name each other, and every hash belongs to a chain of the store. */
    ghost predicate NamedBy(known: map<BlockHash, WeakBlock>, nodes: set<WeakBlock>) {
      && (forall h | h in known :: known[h] in nodes && known[h].hash == h && chainOf(h) < chains)
      && (forall b | b in nodes :: b.hash in known && known[b.hash] == b)
    }

    lemma SitesStay(chain: nat, b: WeakBlock)
      requires |roots| == |shapes| == chains && chain < chains && b.hash !in known && chainOf(b.hash) == chain
      requires forall c | 0 <= c < chains && c != chain :: Site(roots[c], shapes[c], c, known, chainOf)
      ensures forall c | 0 <= c < chains && c != chain :: Site(roots[c], shapes[c], c, known[b.hash := b], chainOf)
    {
      forall c | 0 <= c < chains && c != chain
        ensures Site(roots[c], shapes[c], c, known[b.hash := b], chainOf)
      {
        SiteStays(roots[c], shapes[c], c, known, chainOf, b);
      }
    }

    /** The index with one more node, in the tree of its chain. */
    lemma IndexedNow(known0: map<BlockHash, WeakBlock>, nodes0: set<WeakBlock>, chain: nat, b: WeakBlock)
      requires |roots| == |shapes| == chains && NamedBy(known0, nodes0) && b.hash !in known0 && b !in nodes0
      requires chain < chains && chainOf(b.hash) == chain
      requires known == known0[b.hash := b] && nodes == nodes0 + {b}
      requires forall c | 0 <= c < chains :: Nodes(shapes[c]) <= nodes
      requires forall c | 0 <= c < chains :: Site(roots[c], shapes[c], c, known, chainOf)
      ensures Indexed()
    {
      hide Site, Nodes;
    }

    /** Trees of different chains share no node. */
    lemma SitesAreApart(chain: nat)
      requires Indexed() && chain < chains
      ensures forall c | 0 <= c < chains && c != chain :: Nodes(shapes[c]) !! Nodes(shapes[chain])
    {
      assert Site(roots[chain], shapes[chain], chain, known, chainOf);
      forall c | 0 <= c < chains && c != chain ensures Nodes(shapes[c]) !! Nodes(shapes[chain]) {
        assert Site(roots[c], shapes[c], c, known, chainOf);
      }
    }

    method MarkFull(b: WeakBlock)
      requires Indexed() && b.hash in known && known[b.hash] == b
      modifies b`isFull
      ensures FullOf(nodes) == old(FullOf(nodes)) + {b.hash}
    {
      b.isFull := true;
    }

    method MarkCited(b: WeakBlock)
      requires Indexed() && b.hash in known && known[b.hash] == b
      modifies b`besited
      ensures CitedOf(nodes) == old(CitedOf(nodes)) + {b.hash}
    {
      b.besited := true;
    }

    lemma ValidParts()
      requires Valid()
      ensures Indexed() && Sound(chainOf, View())
    {
    }

    lemma ValidNow()
      requires Indexed() && Sound(chainOf, View())
      ensures Valid()
    {
    }

    lemma CitedIff(h: BlockHash)
      requires Indexed() && h in known
      ensures known[h].besited <==> h in CitedOf(nodes)
    {
    }

    lemma ViewFields()
      ensures View().known == known.Keys && View().nonFull == nonFull && View().waiting == waiting
      ensures View().full == FullOf(nodes) && View().cited == CitedOf(nodes)
      ensures View().processed == processed && View().received == totalReceived
    {
    }

    lemma NamedByHash()
      requires Indexed()
      ensures forall h | h in known :: known[h] in nodes && known[h].hash == h
      ensures forall b | b in nodes :: b.hash in known && known[b.hash] == b
    {
    }

    // ---------------------------------------------------------------- operations

    /** A new block enters the tree of its chain. */
    method Enter(chain: nat, hash: BlockHash, ann: Announcement) returns (b: WeakBlock)
      requires Indexed() && chain < chains && hash !in known && chainOf(hash) == chain
      modifies `roots, `shapes, `known, `nodes, nodes`left, nodes`right
      ensures Indexed() && Holds(hash, b) && fresh(b)
      ensures b.hash == hash && Announces(hash, ann)
      ensures known.Keys == old(known).Keys + {hash}
      ensures FullOf(nodes) == old(FullOf(nodes)) && CitedOf(nodes) == old(CitedOf(nodes))
    {
      hide Indexed, FullOf, CitedOf;
      b := new WeakBlock(hash, ann);
      BlankNode(nodes, b);
      Link(chain, b);
    }

    method EnterReceived(chain: nat, hash: BlockHash, ann: Announcement)
      requires Valid() && chain < chains && hash !in known && chainOf(hash) == chain
      modifies `roots, `shapes, `known, `nodes, `nonFull, `totalReceived, nodes`left, nodes`right
      ensures Indexed() && Announces(hash, ann)
      ensures View() == Registered(old(View()), chain, hash)
    {
      hide Indexed, Sound, FullOf, CitedOf, Announces, Holds;
      NewIsMissing(View(), hash);
      var b := Enter(chain, hash, ann);
      var full := HaveFullWeakBlock(chain, hash);
      if hash !in nonFull && !full {
        nonFull := nonFull[hash := (chain, 0)];
        totalReceived := totalReceived + 1;
      }
    }

    method AddReceivedWeakBlock(chain: nat, hash: BlockHash, ann: Announcement) returns (added: bool)
      requires Valid() && chain < chains && chainOf(hash) == chain
      modifies `roots, `shapes, `known, `nodes, `nonFull, `totalReceived, nodes`left, nodes`right
      ensures Steps(ReceiveWeak(chain, hash))
      ensures added <==> hash !in old(known)
      ensures added ==> Announces(hash, ann)
    {
      hide Indexed, Sound, Step, View, Announces, Registered;
      ghost var books := View();
      ViewFields();
      var there := FindWeakBlock(hash, chain);
      added := there == null;
      if there == null {
        EnterReceived(chain, hash, ann);
      }
      ReceiveStep(chainOf, lim, books, chain, hash, View());
    }

    lemma NewIsMissing(b: Books, h: BlockHash)
      requires Sound(chainOf, b) && h !in b.known
      ensures h !in b.nonFull && h !in b.full && h !in b.cited
    {
    }

    /** `add_weak_block`, and the miner's own marking of the new block as full. */
    method AddMinedWeakBlock(chain: nat, hash: BlockHash, ann: Announcement)
      requires Valid() && chain < chains && chainOf(hash) == chain && hash !in known
      modifies `roots, `shapes, `known, `nodes, nodes`left, nodes`right
      ensures Steps(MineWeak(chain, hash))
      ensures Announces(hash, ann)
    {
      hide Indexed, Sound, FullOf, CitedOf, Step, Announces;
      ghost var books := View();
      var b := Enter(chain, hash, ann);
      var wb := FindWeakBlock(hash, chain);
      if wb != null {
        MarkFull(wb);
      }
      MineStep(chainOf, lim, books, chain, hash, View());
    }

    method StillWaitingForFullBlock(hash: BlockHash, now: U64) returns (first: bool)
      modifies `waiting
      ensures first <==> hash !in old(waiting)
      ensures View() == if first then Requested(old(View()), hash, now) else old(View())
    {
      hide FullOf, CitedOf;
      if hash !in waiting {
        waiting := waiting[hash := now];
        return true;
      }
      first := false;
    }

    /** A peer offers a full block; it is asked for it unless the block is here or already requested. */
    method OnHaveFullBlock(chain: nat, hash: BlockHash, now: U64) returns (asked: bool)
      requires Valid() && chain < chains
      modifies `waiting
      ensures Steps(HaveFull(chain, hash, now, asked))
    {
      hide Indexed, Sound, FullOf, CitedOf, Step, View, Requested;
      ghost var books := View();
      ViewFields();
      asked := false;
      var have := HaveFullWeakBlock(chain, hash);
      if !have {
        asked := StillWaitingForFullBlock(hash, now);
      }
      HaveFullStep(chainOf, lim, books, chain, hash, now, asked, View());
    }

    method SetBlockFull(chain: nat, hash: BlockHash)
      requires Indexed() && chain < chains
      modifies `nonFull, `waiting, `processed, nodes`isFull
      ensures Indexed()
      ensures hash in known && chainOf(hash) == chain ==> View() == Filled(old(View()), hash)
      ensures !(hash in known && chainOf(hash) == chain) ==>
                View() == old(View()).(nonFull := old(nonFull) - {hash}, waiting := old(waiting) - {hash})
    {
      hide *;
      ghost var books := View();
      ViewFields();
      if hash in nonFull {
        nonFull := nonFull - {hash};
      }
      if hash in waiting {
        waiting := waiting - {hash};
      }
      var b := FindWeakBlock(hash, chain);
      if b != null {
        NamedByHash();
        MarkFull(b);
        processed := processed + 1;
      }
      ViewFields();
      FilledOrForgotten(books, hash, View());
    }

    /** The delivery passes the checks for a block that is known. */
    ghost predicate Passing(sha: Merkle.Sha, chain: nat, hash: BlockHash, d: Delivery)
      requires chain < chains
      reads `known
    {
      hash in known && Passes(sha, chains, chain, hash, known[hash].ann, d)
    }

    /** The announced block that a delivery is checked against, and the verdict. */
    method Check(sha: Merkle.Sha, chain: nat, hash: BlockHash, d: Delivery) returns (good: bool)
      requires Indexed() && chain < chains && |d.proof| >= 2
      ensures good <==> chainOf(hash) == chain && Passing(sha, chain, hash, d)
      ensures good ==> hash in known
    {
      hide Indexed, Passes;
      var b := FindWeakBlock(hash, chain);
      good := false;
      if b != null {
        good := CheckDelivery(sha, chains, chain, hash, b.ann, d);
      }
    }

    /** A full block arrives. */
    method OnFullBlock(sha: Merkle.Sha, chain: nat, hash: BlockHash, d: Delivery)
      requires Valid() && chain < chains && |d.proof| >= 2
      modifies `nonFull, `waiting, `processed, nodes`isFull
      ensures Steps(FullBlock(chain, hash, Passing(sha, chain, hash, d)))
    {
      hide Indexed, Sound, FullOf, CitedOf, Step, View, Filled, Valid, Passing;
      ValidParts();
      ghost var books, good := View(), Passing(sha, chain, hash, d);
      ViewFields();
      var have := HaveFullWeakBlock(chain, hash);
      if !have {
        var passes := Check(sha, chain, hash, d);
        if passes {
          SetBlockFull(chain, hash);
        }
      }
      FullBlockStep(chainOf, lim, books, chain, hash, good, View());
      ValidNow();
    }

    /** Exactly the requests not older than the longest wait remain, with their times. */
    ghost predicate Outlives(before: map<BlockHash, U64>, now: U64, after: map<BlockHash, U64>) {
      && (forall h | h in after :: h in before && after[h] == before[h])
      && forall h | h in before ::
           h in after <==>
             (if before[h] <= now then now - before[h] else 0x1_0000_0000_0000_0000 - (before[h] - now)) <= lim.wait
    }

    method RemoveWaitingBlocks(now: U64)
      modifies `waiting
      ensures waiting == Unexpired(old(waiting), now, lim.wait)
      ensures Outlives(old(waiting), now, waiting)
    {
      var toRemove := set h | h in waiting && Elapsed(now, waiting[h]) > lim.wait;
      waiting := waiting - toRemove;
    }

    method CiteOne(hash: BlockHash, chain: nat)
      requires Indexed() && chain < chains
      modifies nodes`besited
      ensures Indexed()
      ensures View() == if hash in known && chainOf(hash) == chain
                        then old(View()).(cited := old(View()).cited + {hash}) else old(View())
    {
      hide Indexed, FullOf, CitedOf;
      var b := FindWeakBlock(hash, chain);
      if b != null {
        NamedByHash();
        CitedIff(hash);
        if !b.besited {
          MarkCited(b);
        }
      }
    }

    /** The entry of a block that is still missing gets a new time. */
    method Restamp(h: BlockHash, now: U64) returns (chain: nat)
      requires Indexed() && h in nonFull && h in known && !known[h].isFull && nonFull[h].0 == chainOf(h) < chains
      modifies `nonFull
      ensures Indexed() && chain == chainOf(h) && nonFull == old(nonFull)[h := (chain, now)]
    {
      hide Indexed;
      chain := nonFull[h].0;
      nonFull := nonFull[h := (chain, now)];
      var b := FindWeakBlock(h, chain);
      assert b != null && !b.isFull;
    }

    /**
     * `get_non_full_blocks`: the missing blocks to announce, each with its chain. A full block is
     * never in the table, so the list of entries to remove stays empty.
     */
    method GetNonFullBlocks(now: U64) returns (hashes: seq<BlockHash>, chainIds: seq<nat>)
      requires Valid()
      modifies `nonFull
      ensures Indexed() && Announced(old(nonFull), lim, now, hashes)
      ensures nonFull == Stamped(old(nonFull), hashes, now)
      ensures OfChains(hashes, chainIds)
    {
      hide Indexed, FullOf, Stamped, Announced, Scanned, OfChains, DueAt;
      ghost var table := nonFull;
      MissingAreKnown();
      ScanBegins(table, lim, now);
      NoneOfChains();
      var todo := nonFull.Keys;
      hashes, chainIds := [], [];
      while todo != {}
        invariant Indexed() && todo <= table.Keys && nonFull == Stamped(table, hashes, now)
        invariant |hashes| < Max(1, lim.atMost) && Scanned(table, todo, lim, now, hashes)
        invariant OfChains(hashes, chainIds)
        decreases todo
      {
        LeastExists(todo);
        var h :| h in todo && Least(h, todo);
        Unscanned(table, todo, lim, now, hashes, h);
        StampNext(table, hashes, now, h);
        ScanNext(table, todo, lim, now, hashes, h);
        todo := todo - {h};
        if Elapsed(now, nonFull[h].1) > lim.each {
          var chain := Restamp(h, now);
          OneMoreOfChains(hashes, chainIds, h);
          hashes, chainIds := hashes + [h], chainIds + [chain];
          if |hashes| >= lim.atMost {
            break;
          }
        }
      }
      ScanEnds(table, todo, lim, now, hashes);
    }

    ghost predicate OfChains(hashes: seq<BlockHash>, chainIds: seq<nat>) {
      |chainIds| == |hashes| && forall i | 0 <= i < |hashes| :: chainIds[i] == chainOf(hashes[i])
    }

    lemma NoneOfChains()
      ensures OfChains([], [])
    {
    }

    lemma OneMoreOfChains(hashes: seq<BlockHash>, chainIds: seq<nat>, h: BlockHash)
      requires OfChains(hashes, chainIds)
      ensures OfChains(hashes + [h], chainIds + [chainOf(h)])
    {
    }

    lemma MissingAreKnown()
      requires Valid()
      ensures forall h | h in nonFull :: h in known && !known[h].isFull && nonFull[h].0 == chainOf(h) < chains
    {
      forall h | h in nonFull ensures h in known && !known[h].isFull && nonFull[h].0 == chainOf(h) < chains {
        assert h in known && known[h] in nodes;
      }
    }

    /** One network tick for the missing blocks. */
    method OnTick(now: U64) returns (hashes: seq<BlockHash>, chainIds: seq<nat>)
      requires Valid()
      modifies `nonFull, `waiting
      ensures Steps(Announce(now, hashes))
      ensures OfChains(hashes, chainIds) && Outlives(old(waiting), now, waiting)
    {
      hide Indexed, Sound, FullOf, CitedOf, Announced, Stamped, Unexpired;
      ghost var books := View();
      hashes, chainIds := GetNonFullBlocks(now);
      RemoveWaitingBlocks(now);
      SoundStep(chainOf, lim, books, Announce(now, hashes), View());
    }

    method SetWeakBlockSited(hashes: seq<BlockHash>, chain: nat)
      requires Valid() && chain < chains
      modifies nodes`besited
      ensures Steps(Cited(chain, hashes))
    {
      hide Indexed, Sound, FullOf, CitedOf, Marks;
      ghost var books := View();
      NothingMarked(books, chain);
      for i := 0 to |hashes|
        invariant Indexed()
        invariant View() == books.(cited := books.cited + Marks(chainOf, books, Cited(chain, hashes[..i])))
      {
        MarksGrow(chainOf, books, chain, hashes, i);
        CiteOne(hashes[i], chain);
      }
      assert hashes[..|hashes|] == hashes;
      SoundStep(chainOf, lim, books, Cited(chain, hashes), View());
    }

    lemma NothingMarked(b: Books, chain: nat)
      ensures Marks(chainOf, b, Cited(chain, [])) == {}
    {
    }

    /** `get_unsited_blocks` on the tree of one chain. */
    method GetUnsited(chain: nat) returns (unsited: seq<BlockHash>)
      requires Indexed() && chain < chains
      modifies nodes`besited
      ensures NoRepeats(unsited)
      ensures forall h :: h in unsited <==> h in FullOf(nodes) && h !in old(CitedOf(nodes)) && chainOf(h) == chain
      ensures CitedOf(nodes) == old(CitedOf(nodes)) + set h | h in unsited
    {
      hide Indexed, Nodes, Ordered, Search, Unsited;
      Whole(chain);
      NamedByHash();
      ghost var s := shapes[chain];
      ghost var nodes, cited := Nodes(s), CitedOf(nodes);
      UnsitedIsExact(s);
      forall h ensures h in Unsited(s) <==> h in FullOf(nodes) && h !in cited && chainOf(h) == chain {
        assert h in known && chainOf(h) == chain ==> known[h] in nodes;
      }
      unsited := GetUnsitedBlocks([], roots[chain], s, nodes);
    }

    /** The citation list of a strong block that is mined now. */
    method MineCitations(chain: nat) returns (unsited: seq<BlockHash>)
      requires Valid() && chain < chains
      modifies nodes`besited
      ensures Steps(Cite(chain, unsited))
    {
      hide Indexed, Sound, CitedOf, FullOf;
      ghost var books := View();
      unsited := GetUnsited(chain);
      SoundStep(chainOf, lim, books, Cite(chain, unsited), View());
    }

    lemma Whole(chain: nat)
      requires Indexed() && chain < chains
      ensures |shapes| == |roots| == chains
      ensures Search(roots[chain], shapes[chain]) && Ordered(shapes[chain])
      ensures forall x | x in Nodes(shapes[chain]) :: x.hash in known && known[x.hash] == x && chainOf(x.hash) == chain
      ensures forall h | h in known && chainOf(h) == chain :: known[h] in Nodes(shapes[chain]) && known[h].hash == h
      ensures Nodes(shapes[chain]) <= nodes
    {
      assert Site(roots[chain], shapes[chain], chain, known, chainOf);
    }
  }

  lemma BlankNode(nodes: set<WeakBlock>, b: WeakBlock)
    requires !b.isFull && !b.besited
    ensures FullOf(nodes + {b}) == FullOf(nodes) && CitedOf(nodes + {b}) == CitedOf(nodes)
  {
  }

  lemma SiteHasRoom(
    r: WeakBlock?, s: Shape, c: nat, known: map<BlockHash, WeakBlock>, chainOf: BlockHash -> nat, b: WeakBlock)
    requires Site(r, s, c, known, chainOf) && b.hash !in known
    ensures Search(r, s) && Ordered(s) && Absent(s, b.hash)
    ensures forall x | x in Nodes(s) :: x.hash in known && known[x.hash] == x && chainOf(x.hash) == c
    ensures forall h | h in known && chainOf(h) == c :: known[h] in Nodes(s)
  {
  }

  lemma SiteGrows(
    r: WeakBlock, s: Shape, c: nat, known: map<BlockHash, WeakBlock>, chainOf: BlockHash -> nat, b: WeakBlock)
    requires Search(r, Insert(s, b)) && Ordered(Insert(s, b)) && Nodes(Insert(s, b)) == Nodes(s) + {b}
    requires forall x | x in Nodes(s) :: x.hash in known && known[x.hash] == x && chainOf(x.hash) == c
    requires forall h | h in known && chainOf(h) == c :: known[h] in Nodes(s)
    requires b.hash !in known && chainOf(b.hash) == c
    ensures Site(r, Insert(s, b), c, known[b.hash := b], chainOf)
  {
  }

  lemma SiteStays(
    r: WeakBlock?, s: Shape, c: nat, known: map<BlockHash, WeakBlock>, chainOf: BlockHash -> nat, b: WeakBlock)
    requires Site(r, s, c, known, chainOf) && b.hash !in known && chainOf(b.hash) != c
    ensures Site(r, s, c, known[b.hash := b], chainOf)
  {
  }
}
