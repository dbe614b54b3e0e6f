/** The header of a block: how the miner makes it, and how a receiver checks it. */
module Headers {
  import opened Types
  import opened Merkle

  /** The header fields give the chain and the hash, and the proof leads from the parent to the chain root. */
  predicate HeaderPasses(
    sha: Sha, chains: U32, chain: nat, hash: BlockHash, parent: BlockHash, rootChains: string, rootTxs: string,
    proof: seq<string>)
    requires chains > 0
  {
    && ChainIdFromHash(sha(rootChains + rootTxs), chains) == Some(chain)
    && StringToBlockhash(sha(rootChains + rootTxs)) == Some(hash)
    && |proof| >= 2 && Accepts(sha, proof, BlockhashToString(parent), rootChains, chain)
  }

  /** The digest of both roots gives the chain in its last six digits and the hash in its first 16. */
  ghost predicate Digested(sha: Sha, chains: U32, rootChains: string, rootTxs: string, chain: nat, hash: BlockHash)
    requires Digests(sha) && chains > 0
  {
    var digest := sha(rootChains + rootTxs);
    chain == HexValue(digest[58..]) % chains && hash == HexValue(digest[..16])
  }

  /**
   * A block mined on these tips: its chain root is that of the padded tips, chain and hash come from
   * the digest, the parent is the tip of that chain, and the proof is that of its position.
   */
  ghost predicate IsMined(
    sha: Sha, tips: seq<BlockHash>, chain: nat, hash: BlockHash, parent: BlockHash, rootChains: string, rootTxs: string,
    proof: seq<string>)
  {
    && Digests(sha) && 0 < |tips| < TWO32
    && var leaves := Padded(Tips(tips));
       && rootChains == Root(sha, leaves) && Digested(sha, |tips|, rootChains, rootTxs, chain, hash)
       && parent == tips[chain] && proof == Proof(sha, leaves, chain)
  }

  /** What the miner does with the tips of all chains and the root of its transactions. */
  method MakeHeader(sha: Sha, tips: seq<BlockHash>, rootTxs: string)
    returns (chain: nat, hash: BlockHash, parent: BlockHash, rootChains: string, proof: seq<string>)
    requires Digests(sha) && 0 < |tips| < TWO32
    ensures IsMined(sha, tips, chain, hash, parent, rootChains, rootTxs, proof)
    ensures HeaderPasses(sha, |tips|, chain, hash, parent, rootChains, rootTxs, proof)
  {
    hide Padded, Root, Proof, HexValue, ChainIdFromHash, StringToBlockhash, BlockhashToString, Tips, Accepts;
    var texts := [];
    for i := 0 to |tips|
      invariant |texts| == i && forall k | 0 <= k < i :: texts[k] == BlockhashToString(tips[k])
    {
      texts := texts + [BlockhashToString(tips[i])];
    }
    AreTips(tips, texts);
    var leaves := PadLeaves(texts);
    rootChains := ComputeMerkleTreeRoot(sha, leaves);
    var h := sha(rootChains + rootTxs);
    DigestHasChain(h, |tips|);
    DigestHasHash(h);
    chain := ChainIdFromHash(h, |tips|).value;
    hash := StringToBlockhash(h).value;
    proof := ComputeMerkleProof(sha, leaves, chain);
    parent := tips[chain];
    MinedPasses(sha, tips, chain, hash, parent, rootChains, rootTxs, proof);
  }

  lemma AreTips(tips: seq<BlockHash>, texts: seq<string>)
    requires |texts| == |tips| && forall k | 0 <= k < |tips| :: texts[k] == BlockhashToString(tips[k])
    ensures texts == Tips(tips)
  {
  }

  /** Every mined header passes. */
  lemma MinedPasses(
    sha: Sha, tips: seq<BlockHash>, chain: nat, hash: BlockHash, parent: BlockHash, rootChains: string, rootTxs: string,
    proof: seq<string>)
    requires IsMined(sha, tips, chain, hash, parent, rootChains, rootTxs, proof)
    ensures HeaderPasses(sha, |tips|, chain, hash, parent, rootChains, rootTxs, proof)
  {
    hide Padded, Root, Proof, HexValue, ChainIdFromHash, StringToBlockhash, BlockhashToString, Tips, Accepts;
    var h := sha(rootChains + rootTxs);
    DigestHasChain(h, |tips|);
    DigestHasHash(h);
    MinedProofVerifies(sha, tips, chain);
    ProofHasLeaf(sha, tips, chain);
  }

  lemma ProofHasLeaf(sha: Sha, tips: seq<BlockHash>, chain: nat)
    requires chain < |tips|
    ensures |Proof(sha, Padded(Tips(tips)), chain)| >= 2
  {
  }

  /** Whatever passes has the chain and the hash of the digest. */
  lemma PassingIsDigested(
    sha: Sha, chains: U32, chain: nat, hash: BlockHash, parent: BlockHash, rootChains: string, rootTxs: string,
    proof: seq<string>)
    requires Digests(sha) && chains > 0
    requires HeaderPasses(sha, chains, chain, hash, parent, rootChains, rootTxs, proof)
    ensures Digested(sha, chains, rootChains, rootTxs, chain, hash)
  {
    hide HexValue, ChainIdFromHash, StringToBlockhash, BlockhashToString, Accepts;
    var h := sha(rootChains + rootTxs);
    DigestHasChain(h, chains);
    DigestHasHash(h);
  }

  /** Every mined header is accepted, and only the chain and the hash of the digest are. */
  method CheckHeader(
    sha: Sha, chains: U32, chain: nat, hash: BlockHash, parent: BlockHash, rootChains: string, rootTxs: string,
    proof: seq<string>) returns (ok: bool)
    requires chains > 0 && |proof| >= 2
    ensures ok == HeaderPasses(sha, chains, chain, hash, parent, rootChains, rootTxs, proof)
    ensures forall tips | |tips| == chains && IsMined(sha, tips, chain, hash, parent, rootChains, rootTxs, proof) :: ok
    ensures ok && Digests(sha) ==> Digested(sha, chains, rootChains, rootTxs, chain, hash)
  {
    hide IsMined, Digested, Digests;
    forall tips | |tips| == chains && IsMined(sha, tips, chain, hash, parent, rootChains, rootTxs, proof)
      ensures HeaderPasses(sha, chains, chain, hash, parent, rootChains, rootTxs, proof)
    {
      MinedPasses(sha, tips, chain, hash, parent, rootChains, rootTxs, proof);
    }
    if Digests(sha) && HeaderPasses(sha, chains, chain, hash, parent, rootChains, rootTxs, proof) {
      PassingIsDigested(sha, chains, chain, hash, parent, rootChains, rootTxs, proof);
    }
    var h := sha(rootChains + rootTxs);
    var id := ChainIdFromHash(h, chains);
    if id != Some(chain) || StringToBlockhash(h) != Some(hash) {
      return false;
    }
    ok := VerifyMerkleProof(sha, proof, BlockhashToString(parent), rootChains, chain);
  }
}
