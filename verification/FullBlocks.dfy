/** What a delivered full block has to pass before its weak block counts as full. */
module FullBlocks {
  import opened Types
  import opened Merkle
  import opened Headers
  import opened WeakTree

  /** A `#full_block` message: which of its transactions verify, in order, and the header fields. */
  datatype Delivery = Delivery(txs: seq<bool>, rootChains: string, rootTxs: string, proof: seq<string>)

  /** The announced number of transactions, all verified, and a header that passes. */
  predicate Passes(sha: Sha, chains: U32, chain: nat, hash: BlockHash, ann: Announcement, d: Delivery)
    requires chains > 0
  {
    && (forall i | 0 <= i < |d.txs| :: d.txs[i]) && |d.txs| == ann.noTxs
    && HeaderPasses(sha, chains, chain, hash, ann.parent, d.rootChains, d.rootTxs, d.proof)
  }

  method CheckDelivery(sha: Sha, chains: U32, chain: nat, hash: BlockHash, ann: Announcement, d: Delivery)
    returns (ok: bool)
    requires chains > 0 && |d.proof| >= 2
    ensures ok == Passes(sha, chains, chain, hash, ann, d)
    ensures ok <==>
              && |d.txs| == ann.noTxs && (forall i | 0 <= i < |d.txs| :: d.txs[i])
              && HeaderPasses(sha, chains, chain, hash, ann.parent, d.rootChains, d.rootTxs, d.proof)
  {
    var i, total := 0, 0;
    var allGood := true;
    while allGood && i < |d.txs|
      invariant 0 <= i <= |d.txs| && (forall k | 0 <= k < i && (allGood || k < i - 1) :: d.txs[k])
      invariant if allGood then total == i else i > 0 && !d.txs[i - 1] && total == i - 1
    {
      if d.txs[i] {
        total := total + 1;
      } else {
        allGood := false;
      }
      i := i + 1;
    }
    if total != ann.noTxs || !allGood {
      return false;
    }
    ok := CheckHeader(sha, chains, chain, hash, ann.parent, d.rootChains, d.rootTxs, d.proof);
  }

  /**
   * A delivery that passes, and whose chain root is that of some tips, shows that the announced
   * parent is the tip of that very chain, or yields two strings with the same digest.
   */
  lemma PassingBindsParent(
    sha: Sha, tips: seq<BlockHash>, chain: nat, hash: BlockHash, ann: Announcement, d: Delivery)
    requires Digests(sha) && 0 < |tips| < TWO32 && Passes(sha, |tips|, chain, hash, ann, d)
    requires |d.proof| == MerkleProofLength(|tips|) && d.rootChains == Root(sha, Padded(Tips(tips)))
    ensures chain < |tips|
    ensures ann.parent == tips[chain] || exists x, y :: x != y && sha(x) == sha(y)
  {
    hide Accepts, Padded, Root, Collision;
    PositionBinding(sha, tips, chain, d.proof, ann.parent);
    if ann.parent != tips[chain] {
      var siblings := d.proof[1..|d.proof| - 1];
      var c := Collision(sha, Padded(Tips(tips)), BlockhashToString(ann.parent), siblings, chain).value;
      assert c.0 != c.1 && sha(c.0) == sha(c.1);
    }
  }
}
