/**
 * The Merkle tree over the tips of all chains: building it, proving that a tip sits at a given
 * position, and verifying such a proof.  SHA-256 is any function whose results are 64 hexadecimal digits.
 */
module Merkle {
  import opened Types

  type Sha = string -> string

  ghost predicate Digests(sha: Sha) {
    forall x: string :: |sha(x)| == 64 && AllHex(sha(x))
  }

  const EMPTY_LEAF: string := "00000000000000000000000000000000"

  // ------------------------------------------------------------------ specification

  function Pow2(d: nat): nat {
    if d == 0 then 1 else 2 * Pow2(d - 1)
  }

  lemma {:induction false} Pow2Positive(d: nat)
    ensures Pow2(d) >= 1
  {
    if d > 0 {
      Pow2Positive(d - 1);
    }
  }

  /** The exact value of `ceil(log2(n))`. */
  function CeilLog2(n: nat): nat
    requires n >= 1
  {
    if n == 1 then 0 else 1 + CeilLog2((n + 1) / 2)
  }

  function Pair(l: seq<string>, i: nat): string
    requires 2 * i + 1 < |l|
  {
    l[2 * i] + l[2 * i + 1]
  }

  /** The next level: each pair hashed; an odd last entry is dropped. */
  function Level(sha: Sha, l: seq<string>): (r: seq<string>)
    ensures |r| == |l| / 2
  {
    seq(|l| / 2, i requires 0 <= i < |l| / 2 => sha(Pair(l, i)))
  }

  function Root(sha: Sha, l: seq<string>): string
    requires l != []
    decreases |l|
  {
    if |l| == 1 then l[0] else Root(sha, Level(sha, l))
  }

  function Adjacent(index: nat): nat {
    if index % 2 == 1 then index - 1 else index + 1
  }

  /** The siblings on the way from leaf `index` to the root. */
  function Siblings(sha: Sha, l: seq<string>, index: nat): seq<string>
    requires l != []
    decreases |l|
  {
    if |l| == 1 then []
    else (if Adjacent(index) < 2 * (|l| / 2) then [l[Adjacent(index)]] else []) +
         Siblings(sha, Level(sha, l), index / 2)
  }

  function Proof(sha: Sha, l: seq<string>, index: nat): seq<string>
    requires index < |l|
  {
    [l[index]] + Siblings(sha, l, index) + [Root(sha, l)]
  }

  function Join(h: string, sibling: string, index: nat): string {
    if index % 2 == 1 then sibling + h else h + sibling
  }

  /** The root that a leaf and its siblings lead to. */
  function Climb(sha: Sha, h: string, siblings: seq<string>, index: nat): string
    decreases |siblings|
  {
    if siblings == [] then h
    else Climb(sha, sha(Join(h, siblings[0], index)), siblings[1..], index / 2)
  }

  predicate Accepts(sha: Sha, proof: seq<string>, h: string, root: string, index: nat)
    requires |proof| >= 2
  {
    && (proof[0] == h || proof[1] == h)
    && var top := Climb(sha, h, proof[1..|proof| - 1], index);
       proof[|proof| - 1] == top && root == top
  }

  function MerkleProofLength(chains: nat): nat
    requires chains >= 1
  {
    1 + CeilLog2(chains) + 1
  }

  // ------------------------------------------------------------------ the loops

  method ComputeMerkleTreeRoot(sha: Sha, leaves: seq<string>) returns (root: string)
    requires leaves != []
    ensures root == Root(sha, leaves)
  {
    var tmp := leaves;
    while |tmp| > 1
      invariant tmp != [] && Root(sha, tmp) == Root(sha, leaves)
      decreases |tmp|
    {
      var tmp2 := tmp;
      tmp := [];
      for i := 0 to |tmp2| / 2
        invariant tmp == Level(sha, tmp2)[..i]
      {
        tmp := tmp + [sha(tmp2[2 * i + 0] + tmp2[2 * i + 1])];
        assert tmp2[2 * i + 0] + tmp2[2 * i + 1] == Pair(tmp2, i);
        assert tmp[i] == Level(sha, tmp2)[i];
      }
      assert tmp == Level(sha, tmp2);
    }
    root := tmp[0];
  }

  /** One level up; the sibling on the way, if there is one, is appended to the proof. */
  method OneLevel(sha: Sha, l: seq<string>, adjIndex: nat, proof: seq<string>)
    returns (up: seq<string>, proof': seq<string>)
    ensures up == Level(sha, l)
    ensures proof' == proof + if adjIndex < 2 * (|l| / 2) then [l[adjIndex]] else []
  {
    up, proof' := [], proof;
    for i := 0 to |l| / 2
      invariant up == Level(sha, l)[..i]
      invariant proof' == proof + if adjIndex < 2 * i then [l[adjIndex]] else []
    {
      up := up + [sha(l[2 * i + 0] + l[2 * i + 1])];
      assert l[2 * i + 0] + l[2 * i + 1] == Pair(l, i);
      assert up[i] == Level(sha, l)[i];
      if 2 * i + 0 == adjIndex || 2 * i + 1 == adjIndex {
        proof' := proof' + [if 2 * i + 0 == adjIndex then l[2 * i + 0] else l[2 * i + 1]];
      }
    }
    assert up == Level(sha, l);
  }

  method ComputeMerkleProof(sha: Sha, leaves: seq<string>, first: nat) returns (proof: seq<string>)
    requires first < |leaves|
    ensures proof == Proof(sha, leaves, first)
  {
    hide Root, Siblings, Level;
    var index: nat := first;
    proof := [leaves[index]];
    var tmp := leaves;
    while |tmp| > 1
      invariant tmp != [] && Root(sha, tmp) == Root(sha, leaves)
      invariant proof + Siblings(sha, tmp, index) == [leaves[first]] + Siblings(sha, leaves, first)
      decreases |tmp|
    {
      NextLevel(sha, tmp, index);
      var adjIndex := if index % 2 != 0 then index - 1 else index + 1;
      tmp, proof := OneLevel(sha, tmp, adjIndex, proof);
      index := index / 2;
    }
    TopLevel(sha, tmp, index);
    proof := proof + [tmp[0]];
  }

  lemma NextLevel(sha: Sha, l: seq<string>, index: nat)
    requires |l| > 1
    ensures var up := Level(sha, l);
            && 0 < |up| < |l| && Root(sha, up) == Root(sha, l)
            && Siblings(sha, l, index) ==
               (if Adjacent(index) < 2 * (|l| / 2) then [l[Adjacent(index)]] else []) + Siblings(sha, up, index / 2)
  {
  }

  lemma TopLevel(sha: Sha, l: seq<string>, index: nat)
    requires |l| == 1
    ensures Root(sha, l) == l[0] && Siblings(sha, l, index) == []
  {
  }

  method VerifyMerkleProof(sha: Sha, proof: seq<string>, bh: string, root: string, first: nat) returns (ok: bool)
    requires |proof| >= 2
    ensures ok == Accepts(sha, proof, bh, root, first)
    ensures ok <==>
              && (bh == proof[0] || bh == proof[1])
              && proof[|proof| - 1] == root == Climb(sha, bh, proof[1..|proof| - 1], first)
  {
    var h := bh;
    if proof[0] != h && proof[1] != h {
      return false;
    }
    var i, index := 1, first;
    while i + 1 < |proof|
      invariant 1 <= i < |proof|
      invariant Climb(sha, h, proof[i..|proof| - 1], index) == Climb(sha, bh, proof[1..|proof| - 1], first)
    {
      assert proof[i..|proof| - 1][1..] == proof[i + 1..|proof| - 1];
      if index % 2 == 1 {
        h := sha(proof[i] + h);
      } else {
        h := sha(h + proof[i]);
      }
      i := i + 1;
      index := index / 2;
    }
    return !(proof[i] != h || root != h);
  }

  /** The leaves of all chains, filled up to a power of two. */
  method PadLeaves(tips: seq<string>) returns (leaves: seq<string>)
    requires tips != []
    ensures leaves == Padded(tips)
  {
    leaves := tips;
    var add := Pow2(CeilLog2(|tips|)) - |tips|;
    CeilLog2Covers(|tips|);
    for i := 0 to add
      invariant leaves == tips + seq(i, _ => EMPTY_LEAF)
    {
      leaves := leaves + [EMPTY_LEAF];
    }
  }

  function Padded(tips: seq<string>): (l: seq<string>)
    requires tips != []
    ensures |l| == Pow2(CeilLog2(|tips|)) && |tips| <= |l|
    ensures l[..|tips|] == tips && forall i | |tips| <= i < |l| :: l[i] == "00000000000000000000000000000000"
  {
    CeilLog2Covers(|tips|);
    tips + seq(Pow2(CeilLog2(|tips|)) - |tips|, _ => EMPTY_LEAF)
  }

  lemma {:induction false} CeilLog2Covers(n: nat)
    requires n >= 1
    ensures n <= Pow2(CeilLog2(n))
    ensures n > 1 ==> Pow2(CeilLog2(n)) < 2 * n
  {
    if n > 1 {
      CeilLog2Covers((n + 1) / 2);
    }
  }

  // ------------------------------------------------------------------ completeness

  lemma LevelOfPow2(sha: Sha, l: seq<string>, d: nat)
    requires d > 0 && |l| == Pow2(d)
    ensures |l| > 1 && |l| % 2 == 0 && |Level(sha, l)| == Pow2(d - 1)
  {
    Pow2Positive(d - 1);
    var half := Pow2(d - 1);
    assert Pow2(d) == 2 * half;
    assert |l| / 2 == half;
  }

  lemma {:induction false} SiblingsLeadToRoot(sha: Sha, l: seq<string>, d: nat, index: nat)
    requires |l| == Pow2(d) && index < |l|
    ensures |Siblings(sha, l, index)| == d
    ensures Climb(sha, l[index], Siblings(sha, l, index), index) == Root(sha, l)
    decreases d
  {
    hide Root, Siblings, Level, Climb;
    ClimbStep(sha, l[index], [], index);
    if d > 0 {
      LevelOfPow2(sha, l, d);
      NextLevel(sha, l, index);
      var up := Level(sha, l);
      SiblingsLeadToRoot(sha, up, d - 1, index / 2);
      PairOfIndex(sha, l, d, index);
      ClimbStep(sha, l[index], Siblings(sha, l, index), index);
      assert Siblings(sha, l, index)[1..] == Siblings(sha, up, index / 2);
    } else {
      TopLevel(sha, l, index);
    }
  }

  lemma ClimbStep(sha: Sha, h: string, siblings: seq<string>, index: nat)
    ensures Climb(sha, h, siblings, index) ==
            if siblings == [] then h else Climb(sha, sha(Join(h, siblings[0], index)), siblings[1..], index / 2)
  {
  }

  /** An entry and its neighbour are hashed into the next level. */
  lemma PairOfIndex(sha: Sha, l: seq<string>, d: nat, index: nat)
    requires d > 0 && |l| == Pow2(d) && index < |l|
    ensures Adjacent(index) < 2 * (|l| / 2) == |l| && index / 2 < |Level(sha, l)|
    ensures sha(Join(l[index], l[Adjacent(index)], index)) == Level(sha, l)[index / 2]
  {
    assert Join(l[index], l[Adjacent(index)], index) == Pair(l, index / 2);
  }

  /** The root of a full tree is the digest of the roots of its two halves, left before right. */
  lemma {:induction false} RootOfHalves(sha: Sha, a: seq<string>, b: seq<string>, d: nat)
    requires |a| == |b| == Pow2(d) && a != []
    ensures Root(sha, a + b) == sha(Root(sha, a) + Root(sha, b))
    decreases d
  {
    hide Root;
    var l := a + b;
    RootUnfold(sha, l);
    RootUnfold(sha, a);
    RootUnfold(sha, b);
    if d == 0 {
      assert Pair(l, 0) == a[0] + b[0] && |Level(sha, l)| == 1;
      RootUnfold(sha, Level(sha, l));
    } else {
      LevelOfPow2(sha, a, d);
      LevelOfPow2(sha, b, d);
      assert Level(sha, l) == Level(sha, a) + Level(sha, b) by {
        LevelsJoin(sha, a, b);
      }
      Pow2Positive(d - 1);
      RootOfHalves(sha, Level(sha, a), Level(sha, b), d - 1);
    }
  }

  lemma RootUnfold(sha: Sha, l: seq<string>)
    requires l != []
    ensures |l| == 1 ==> Root(sha, l) == l[0]
    ensures |l| > 1 ==> Level(sha, l) != [] && Root(sha, l) == Root(sha, Level(sha, l))
  {
  }

  lemma LevelsJoin(sha: Sha, a: seq<string>, b: seq<string>)
    requires |a| % 2 == 0
    ensures Level(sha, a + b) == Level(sha, a) + Level(sha, b)
  {
    var l := a + b;
    forall i | 0 <= i < |l| / 2 ensures Level(sha, l)[i] == (Level(sha, a) + Level(sha, b))[i] {
      if i < |a| / 2 {
        assert Pair(l, i) == Pair(a, i);
      } else {
        assert Pair(l, i) == Pair(b, i - |a| / 2);
      }
    }
  }

  /** The proof made for a position of a power-of-two tree is accepted at that position. */
  lemma ProofIsAccepted(sha: Sha, l: seq<string>, d: nat, index: nat)
    requires |l| == Pow2(d) && index < |l|
    ensures |Proof(sha, l, index)| == d + 2
    ensures Proof(sha, l, index)[d + 1] == Root(sha, l)
    ensures Accepts(sha, Proof(sha, l, index), l[index], Root(sha, l), index)
  {
    SiblingsLeadToRoot(sha, l, d, index);
    var proof := Proof(sha, l, index);
    assert proof[1..|proof| - 1] == Siblings(sha, l, index);
  }

  // ------------------------------------------------------------------ position binding

  /** Where a climb and the true tree meet, if not by equal strings. */
  function Collision(sha: Sha, l: seq<string>, h: string, siblings: seq<string>, index: nat): Option<(string, string)>
    requires index < |l|
    decreases |siblings|
  {
    if siblings == [] || 2 * (index / 2) + 1 >= |l| then None
    else
      var claimed, actual := Join(h, siblings[0], index), Pair(l, index / 2);
      if claimed != actual && sha(claimed) == sha(actual) then Some((claimed, actual))
      else Collision(sha, Level(sha, l), sha(claimed), siblings[1..], index / 2)
  }

  lemma {:induction false} CollisionIsReal(sha: Sha, l: seq<string>, h: string, siblings: seq<string>, index: nat)
    requires index < |l| && Collision(sha, l, h, siblings, index).Some?
    ensures var (x, y) := Collision(sha, l, h, siblings, index).value; x != y && sha(x) == sha(y)
    decreases |siblings|
  {
    var claimed, actual := Join(h, siblings[0], index), Pair(l, index / 2);
    if !(claimed != actual && sha(claimed) == sha(actual)) {
      CollisionIsReal(sha, Level(sha, l), sha(claimed), siblings[1..], index / 2);
    }
  }

  lemma JoinBinds(l: seq<string>, h: string, sibling: string, index: nat)
    requires 2 * (index / 2) + 1 < |l| && index < |l| && |h| == |l[index]|
    requires Join(h, sibling, index) == Pair(l, index / 2)
    ensures h == l[index]
  {
    var pair := Pair(l, index / 2);
    if index % 2 == 1 {
      assert pair[|pair| - |h|..] == h;
      assert pair[|pair| - |h|..] == l[index];
    } else {
      assert pair[..|h|] == h && pair[..|h|] == l[index];
    }
  }

  /** A climb of full height that ends in the root started at the leaf, or met a collision. */
  lemma {:induction false} ClimbBinds(sha: Sha, l: seq<string>, d: nat, h: string, siblings: seq<string>, index: nat)
    requires Digests(sha) && |l| == Pow2(d) && |siblings| == d && index < |l| && |h| == |l[index]|
    requires Climb(sha, h, siblings, index) == Root(sha, l)
    ensures h == l[index] || Collision(sha, l, h, siblings, index).Some?
    decreases d
  {
    if d > 0 {
      LevelOfPow2(sha, l, d);
      var claimed, actual := Join(h, siblings[0], index), Pair(l, index / 2);
      ClimbBinds(sha, Level(sha, l), d - 1, sha(claimed), siblings[1..], index / 2);
      if claimed == actual {
        JoinBinds(l, h, siblings[0], index);
      }
    }
  }

  // ------------------------------------------------------------------ block hashes as leaves

  function HexDigit(n: nat): char
    requires n < 16
  {
    "0123456789abcdef"[n]
  }

  /** What `stream << hex << n` prints. */
  function HexOf(n: nat): (s: string)
    ensures s != []
  {
    if n < 16 then [HexDigit(n)] else HexOf(n / 16) + [HexDigit(n % 16)]
  }

  function DigitValue(c: char): Option<nat> {
    if '0' <= c <= '9' then Some(c as int - '0' as int)
    else if 'a' <= c <= 'f' then Some(c as int - 'a' as int + 10)
    else if 'A' <= c <= 'F' then Some(c as int - 'A' as int + 10)
    else None
  }

  /** The longest prefix of hexadecimal digits. */
  function HexPrefix(s: string): (p: string)
    ensures |p| <= |s| && p == s[..|p|]
  {
    if s == [] || DigitValue(s[0]).None? then [] else [s[0]] + HexPrefix(s[1..])
  }

  function HexValue(s: string): nat {
    if s == [] then 0
    else 16 * HexValue(s[..|s| - 1]) + match DigitValue(s[|s| - 1]) case Some(v) => v case None => 0
  }

  /** `stoull(s, nullptr, 16)`: no digit at the front, or a value over 64 bits, throws. */
  function Stoull16(s: string): Option<U64> {
    var p := HexPrefix(s);
    if p == [] || HexValue(p) >= TWO64 then None else Some(HexValue(p))
  }

  function BlockhashToString(b: BlockHash): string {
    var hash := HexOf(b);
    if |hash| < 16 then seq(16 - |hash|, _ => '0') + hash else hash
  }

  function StringToBlockhash(h: string): Option<BlockHash> {
    Stoull16(if |h| <= 16 then h else h[..16])
  }

  /** The last six digits of a 64-digit string, modulo the number of chains; `None` when it throws. */
  function ChainIdFromHash(h: string, chains: U32): (id: Option<nat>)
    requires chains > 0
    ensures id.Some? ==> id.value < chains
  {
    if |h| < 58 then None
    else match Stoull16(h[58..])
      case Some(v) => if v < 0x8000_0000 then Some(v % chains) else None
      case None => None
  }

  ghost predicate AllHex(s: string) {
    forall i | 0 <= i < |s| :: DigitValue(s[i]).Some?
  }

  lemma {:induction false} HexValueBound(s: string)
    requires AllHex(s)
    ensures HexValue(s) < Pow16(|s|)
  {
    if s != [] {
      HexValueBound(s[..|s| - 1]);
    }
  }

  /** Every 64-digit digest has a chain, given by its last six digits. */
  lemma DigestHasChain(h: string, chains: U32)
    requires chains > 0 && |h| == 64 && AllHex(h)
    ensures ChainIdFromHash(h, chains) == Some(HexValue(h[58..]) % chains)
  {
    var t := h[58..];
    AllHexIsPrefix(t);
    HexValueBound(t);
    assert Pow16(6) == 0x100_0000 by {
      assert Pow16(3) == 0x1000;
    }
  }

  /** The hash of a block is given by the first 16 digits of its digest. */
  lemma DigestHasHash(h: string)
    requires |h| == 64 && AllHex(h)
    ensures HexValue(h[..16]) < TWO64 && StringToBlockhash(h) == Some(HexValue(h[..16]))
  {
    hide HexValue, HexPrefix, AllHex;
    FirstDigits(h);
    AllHexIsPrefix(h[..16]);
    HexValueBound(h[..16]);
    Pow16Of16();
  }

  lemma FirstDigits(h: string)
    requires |h| == 64 && AllHex(h)
    ensures AllHex(h[..16])
    ensures HexPrefix(h[..16]) == h[..16] ==> HexPrefix(h[..16]) != []
  {
  }

  /** The digits before count sixteen times as much for each digit behind them. */
  lemma {:induction false} HexValueJoin(a: string, b: string)
    ensures HexValue(a + b) == HexValue(a) * Pow16(|b|) + HexValue(b)
  {
    if b == [] {
      assert a + b == a;
    } else {
      var front, last := b[..|b| - 1], b[|b| - 1];
      assert (a + b)[..|a + b| - 1] == a + front && (a + b)[|a + b| - 1] == last;
      HexValueJoin(a, front);
      Scaled(HexValue(a), Pow16(|front|), HexValue(front));
    }
  }

  lemma Scaled(x: nat, p: nat, y: nat)
    ensures 16 * (x * p + y) == x * (16 * p) + 16 * y
  {
  }

  lemma {:induction false} AllHexIsPrefix(s: string)
    requires AllHex(s)
    ensures HexPrefix(s) == s
  {
    if s != [] {
      AllHexIsPrefix(s[1..]);
    }
  }

  lemma HexDigitValue(n: nat)
    requires n < 16
    ensures DigitValue(HexDigit(n)) == Some(n)
  {
  }

  lemma {:induction false} HexOfRoundTrip(n: nat)
    ensures AllHex(HexOf(n)) && HexValue(HexOf(n)) == n
  {
    HexDigitValue(n % 16);
    if n < 16 {
      assert HexOf(n)[..0] == [];
    } else {
      HexOfRoundTrip(n / 16);
      var front, s := HexOf(n / 16), HexOf(n);
      assert s == front + [HexDigit(n % 16)] && s[..|s| - 1] == front;
      forall i | 0 <= i < |s| ensures DigitValue(s[i]).Some? {
        assert i < |front| ==> s[i] == front[i];
      }
    }
  }

  lemma {:induction false} HexOfIsLowerCase(n: nat)
    ensures forall c | c in HexOf(n) :: '0' <= c <= '9' || 'a' <= c <= 'f'
  {
    if n >= 16 {
      HexOfIsLowerCase(n / 16);
    }
  }

  lemma {:induction false} HexOfLength(n: nat, k: nat, bound: nat)
    requires k >= 1 && n < bound && bound == Pow16(k)
    ensures |HexOf(n)| <= k
  {
    if n >= 16 {
      assert k > 1 by {
        assert Pow16(1) == 16;
      }
      HexOfLength(n / 16, k - 1, Pow16(k - 1));
    }
  }

  function Pow16(k: nat): nat {
    if k == 0 then 1 else 16 * Pow16(k - 1)
  }

  lemma {:induction false} LeadingZeros(z: nat, s: string)
    ensures HexValue(seq(z, _ => '0') + s) == HexValue(s)
    decreases |s|, z
  {
    var t := seq(z, _ => '0') + s;
    if s != [] {
      assert t[..|t| - 1] == seq(z, _ => '0') + s[..|s| - 1];
      LeadingZeros(z, s[..|s| - 1]);
    } else if z > 0 {
      assert t[..|t| - 1] == seq(z - 1, _ => '0') + s;
      LeadingZeros(z - 1, s);
    }
  }

  /** Sixteen characters for every 64-bit value, and reading them back gives the value. */
  lemma BlockhashRoundTrip(b: BlockHash)
    ensures |BlockhashToString(b)| == 16
    ensures StringToBlockhash(BlockhashToString(b)) == Some(b)
    ensures forall c | c in BlockhashToString(b) :: '0' <= c <= '9' || 'a' <= c <= 'f'
  {
    hide HexOf, HexValue, HexPrefix;
    var hash := HexOf(b);
    Pow16Of16();
    HexOfLength(b, 16, TWO64);
    HexOfRoundTrip(b);
    HexOfIsLowerCase(b);
    LeadingZeros(16 - |hash|, hash);
    AllHexIsPrefix(BlockhashToString(b));
  }

  lemma Pow16Of16()
    ensures Pow16(16) == TWO64
  {
    assert Pow16(4) == 0x1_0000;
    assert Pow16(8) == 0x1_0000_0000;
    assert Pow16(12) == 0x1_0000_0000_0000;
  }

  // ------------------------------------------------------------------ the two theorems

  function Tips(tips: seq<BlockHash>): (l: seq<string>)
    ensures |l| == |tips|
  {
    seq(|tips|, i requires 0 <= i < |tips| => BlockhashToString(tips[i]))
  }

  /** Whatever the number of chains, the proof that the miner attaches has the expected length and verifies. */
  lemma MinedProofVerifies(sha: Sha, tips: seq<BlockHash>, chain: nat)
    requires chain < |tips|
    ensures var leaves := Padded(Tips(tips)); var proof := Proof(sha, leaves, chain);
            && |proof| == MerkleProofLength(|tips|)
            && proof[|proof| - 1] == Root(sha, leaves)
            && Accepts(sha, proof, BlockhashToString(tips[chain]), Root(sha, leaves), chain)
  {
    var leaves := Padded(Tips(tips));
    assert leaves[..|tips|][chain] == Tips(tips)[chain];
    ProofIsAccepted(sha, leaves, CeilLog2(|tips|), chain);
  }

  /**
   * Position binding: an accepted proof of the expected length shows that the parent is the tip of
   * that very chain, unless it yields two distinct strings with the same digest.
   */
  lemma PositionBinding(sha: Sha, tips: seq<BlockHash>, chain: nat, proof: seq<string>, parent: BlockHash)
    requires Digests(sha) && chain < |tips|
    requires |proof| == MerkleProofLength(|tips|)
    requires Accepts(sha, proof, BlockhashToString(parent), Root(sha, Padded(Tips(tips))), chain)
    ensures
      || parent == tips[chain]
      || (match Collision(sha, Padded(Tips(tips)), BlockhashToString(parent), proof[1..|proof| - 1], chain)
          case Some(c) => c.0 != c.1 && sha(c.0) == sha(c.1)
          case None => false)
  {
    var leaves, h := Padded(Tips(tips)), BlockhashToString(parent);
    assert leaves[..|tips|][chain] == Tips(tips)[chain];
    BlockhashRoundTrip(parent);
    BlockhashRoundTrip(tips[chain]);
    ClimbBinds(sha, leaves, CeilLog2(|tips|), h, proof[1..|proof| - 1], chain);
    if h != leaves[chain] {
      CollisionIsReal(sha, leaves, h, proof[1..|proof| - 1], chain);
    }
  }
}
