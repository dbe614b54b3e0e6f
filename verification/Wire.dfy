/** The text form of a block message, and its reading back on the other side. */
module Wire {
  import opened Types
  import opened Tokens
  import Framing

  /** What a block message carries besides the sender. */
  datatype Block = Block(
    chainId: U32, parent: BlockHash, hash: BlockHash, noTxs: U32, depth: U32, rank: U32, nextRank: U32,
    timeMined: U64, trailing: BlockHash, trailingId: U32, rootChains: string, rootTxs: string,
    proof: seq<string>, weak: seq<BlockHash>)

  datatype Peer = Peer(ip: string, port: U32)

  /**
   * `Undefined` stands for reading past the last field: that happens when fewer weak blocks follow
   * than announced, and when a strict reader prints the fields of a message that it objects to.
   */
  datatype Parsed = Rejected | Undefined | Got(sender: Peer, block: Block)

  /** The number of chains, the proof length that goes with it, and `PRINT_TRANSMISSION_ERRORS`. */
  datatype Settings = Settings(chains: U32, proofLength: nat, strict: bool)

  // ------------------------------------------------------------------ writing

  function Head(me: Peer, b: Block): (r: seq<string>)
    ensures |r| == 16
  {
    ["#process_block", me.ip, Decimal(me.port), Decimal(b.chainId), Decimal(b.parent), Decimal(b.hash),
     Decimal(b.noTxs), Decimal(b.depth), Decimal(b.rank), Decimal(b.nextRank), Decimal(b.timeMined),
     Decimal(b.trailing), Decimal(b.trailingId), b.rootChains, b.rootTxs, Decimal(|b.weak|)]
  }

  function Decimals(ns: seq<BlockHash>): (r: seq<string>)
    ensures |r| == |ns| && forall i | 0 <= i < |ns| :: r[i] == Decimal(ns[i])
  {
    if ns == [] then [] else Decimals(ns[..|ns| - 1]) + [Decimal(ns[|ns| - 1])]
  }

  function Fields(me: Peer, b: Block): seq<string> {
    Head(me, b) + b.proof + Decimals(b.weak)
  }

  method CreateProcessBlock(me: Peer, b: Block) returns (s: string)
    ensures s == Join(Fields(me, b), ',')
    ensures s == "#process_block," + me.ip + "," + Decimal(me.port) + "," + Decimal(b.chainId) + ","
                 + Decimal(b.parent) + "," + Decimal(b.hash) + "," + Decimal(b.noTxs) + "," + Decimal(b.depth) + ","
                 + Decimal(b.rank) + "," + Decimal(b.nextRank) + "," + Decimal(b.timeMined) + ","
                 + Decimal(b.trailing) + "," + Decimal(b.trailingId) + "," + b.rootChains + "," + b.rootTxs + ","
                 + Decimal(|b.weak|) + Appended(b.proof) + Appended(Decimals(b.weak))
  {
    hide Decimal, Join;
    ghost var h := Head(me, b);
    s := "#process_block,";
    assert s == Written(h, 1);
    s := s + me.ip + ",";
    assert s == Written(h, 2);
    s := s + Decimal(me.port) + ",";
    assert s == Written(h, 3);
    s := s + Decimal(b.chainId) + ",";
    assert s == Written(h, 4);
    s := s + Decimal(b.parent) + ",";
    assert s == Written(h, 5);
    s := s + Decimal(b.hash) + ",";
    assert s == Written(h, 6);
    s := s + Decimal(b.noTxs) + ",";
    assert s == Written(h, 7);
    s := s + Decimal(b.depth) + ",";
    assert s == Written(h, 8);
    s := s + Decimal(b.rank) + ",";
    assert s == Written(h, 9);
    s := s + Decimal(b.nextRank) + ",";
    assert s == Written(h, 10);
    s := s + Decimal(b.timeMined) + ",";
    assert s == Written(h, 11);
    s := s + Decimal(b.trailing) + ",";
    assert s == Written(h, 12);
    s := s + Decimal(b.trailingId) + ",";
    assert s == Written(h, 13);
    s := s + b.rootChains + ",";
    assert s == Written(h, 14);
    s := s + b.rootTxs + ",";
    assert s == Written(h, 15);
    s := s + Decimal(|b.weak|);
    WrittenIsJoin(h, 15);
    JoinNext(h[..1], h[1..], 14);
    assert h[..1] + h[1..][..14] == h[..15] && h[..1] + h[1..][..15] == h;
    assert s == Join(h, ',');
    ghost var front := s;
    assert front == s + Appended([]);
    assert h + b.proof[..0] == h && h + b.proof + Decimals(b.weak)[..0] == h + b.proof;
    hide Head, Written;
    for i := 0 to |b.proof|
      invariant s == Join(Head(me, b) + b.proof[..i], ',') && s == front + Appended(b.proof[..i])
    {
      JoinNext(Head(me, b), b.proof, i);
      AppendNext(front, b.proof, i);
      s := s + "," + b.proof[i];
    }
    assert b.proof[..|b.proof|] == b.proof;
    front := s;
    assert front == s + Appended([]);
    for i := 0 to |b.weak|
      invariant s == Join(Head(me, b) + b.proof + Decimals(b.weak)[..i], ',')
      invariant s == front + Appended(Decimals(b.weak)[..i])
    {
      JoinNext(Head(me, b) + b.proof, Decimals(b.weak), i);
      AppendNext(front, Decimals(b.weak), i);
      s := s + "," + Decimal(b.weak[i]);
    }
    assert Decimals(b.weak)[..|b.weak|] == Decimals(b.weak);
  }

  /** Each field with a comma before it. */
  ghost function Appended(fields: seq<string>): string {
    if fields == [] then "" else Appended(fields[..|fields| - 1]) + "," + fields[|fields| - 1]
  }

  lemma AppendNext(front: string, fields: seq<string>, i: nat)
    requires i < |fields|
    ensures front + Appended(fields[..i + 1]) == front + Appended(fields[..i]) + "," + fields[i]
  {
    assert fields[..i + 1][..i] == fields[..i];
  }

  /** The first `k` fields, each with a comma behind it. */
  ghost function Written(h: seq<string>, k: nat): string
    requires k <= |h|
  {
    if k == 0 then "" else Written(h, k - 1) + h[k - 1] + ","
  }

  lemma {:induction false} WrittenIsJoin(h: seq<string>, k: nat)
    requires 0 < k <= |h|
    ensures Written(h, k) == Join(h[..k], ',') + ","
  {
    if k > 1 {
      WrittenIsJoin(h, k - 1);
      JoinSnoc(h[..k - 1], h[k - 1], ',');
      assert h[..k - 1] + [h[k - 1]] == h[..k];
    }
  }

  lemma JoinNext(head: seq<string>, more: seq<string>, i: nat)
    requires head != [] && i < |more|
    ensures Join(head + more[..i + 1], ',') == Join(head + more[..i], ',') + "," + more[i]
  {
    JoinSnoc(head + more[..i], more[i], ',');
    assert head + more[..i] + [more[i]] == head + more[..i + 1];
  }

  // ------------------------------------------------------------------ reading

  /** The key under which one call recognises a message that it has seen. */
  function KeyOf(sp: seq<string>): string {
    if |sp| < 6 then "" else sp[0] + sp[1] + sp[2] + sp[3] + sp[4] + sp[5]
  }

  function Weak(ts: seq<string>): (r: seq<BlockHash>)
    ensures |r| == |ts| && forall i | 0 <= i < |ts| :: r[i] == SafeStoull(ts[i]).0
  {
    if ts == [] then [] else Weak(ts[..|ts| - 1]) + [SafeStoull(ts[|ts| - 1]).0]
  }

  /** Every field that should be a number is one, in range. */
  predicate Proper(sp: seq<string>, from: nat, n: nat)
    requires 16 <= from && from + n <= |sp|
  {
    && (forall i | 0 <= i < 16 && i in {2, 3, 6, 7, 8, 9, 15} :: SafeStoi(sp[i]).1)
    && (forall i | 0 <= i < 16 && i in {4, 5, 10, 11, 12} :: SafeStoull(sp[i]).1)
    && (forall i | from <= i < from + n :: SafeStoull(sp[i]).1)
  }

  function BlockOf(sp: seq<string>, proofLength: nat, n: nat): Block
    requires 16 + proofLength + n <= |sp|
  {
    Block(SafeStoi(sp[3]).0, SafeStoull(sp[4]).0, SafeStoull(sp[5]).0, SafeStoi(sp[6]).0, SafeStoi(sp[7]).0,
          SafeStoi(sp[8]).0, SafeStoi(sp[9]).0, SafeStoull(sp[10]).0, SafeStoull(sp[11]).0,
          SafeStoull(sp[12]).0 % TWO32, sp[13], sp[14], sp[16..16 + proofLength],
          Weak(sp[16 + proofLength..16 + proofLength + n]))
  }

  /** What the fields of a block message mean, and the keys seen afterwards. */
  function Parse(c: Settings, sp: seq<string>, passed: set<string>): (Parsed, set<string>) {
    if |sp| < 16 + c.proofLength + 1 || KeyOf(sp) in passed then (Rejected, passed)
    else
      var n := SafeStoi(sp[15]).0;
      (if 16 + c.proofLength + n > |sp| then Undefined
       else
         var b := BlockOf(sp, c.proofLength, n);
         if c.strict && !(Proper(sp, 16 + c.proofLength, n) && sp[1] != "" && b.chainId < c.chains) then Undefined
         else Got(Peer(sp[1], SafeStoi(sp[2]).0), b),
       passed + {KeyOf(sp)})
  }

  /** Every field of the block is that of the text, weak blocks and proof included. */
  ghost predicate Reads(c: Settings, sp: seq<string>, b: Block)
    requires |sp| >= 17 + c.proofLength
  {
    && b.chainId == SafeStoi(sp[3]).0 && b.parent == SafeStoull(sp[4]).0 && b.hash == SafeStoull(sp[5]).0
    && b.noTxs == SafeStoi(sp[6]).0 && b.depth == SafeStoi(sp[7]).0 && b.rank == SafeStoi(sp[8]).0
    && b.nextRank == SafeStoi(sp[9]).0 && b.timeMined == SafeStoull(sp[10]).0 && b.trailing == SafeStoull(sp[11]).0
    && b.trailingId == SafeStoull(sp[12]).0 % 0x1_0000_0000 && b.rootChains == sp[13] && b.rootTxs == sp[14]
    && b.proof == sp[16..16 + c.proofLength] && |b.weak| == SafeStoi(sp[15]).0
    && 16 + c.proofLength + |b.weak| <= |sp|
    && forall i | 0 <= i < |b.weak| :: b.weak[i] == SafeStoull(sp[16 + c.proofLength + i]).0
  }

  /** As many weak blocks follow as announced. */
  ghost predicate InBounds(c: Settings, sp: seq<string>)
    requires |sp| >= 17 + c.proofLength
  {
    16 + c.proofLength + SafeStoi(sp[15]).0 <= |sp|
  }

  /** What a strict reader demands: numbers where numbers belong, a sender, and a chain that exists. */
  ghost predicate AllProper(c: Settings, sp: seq<string>)
    requires |sp| >= 17 + c.proofLength && InBounds(c, sp)
  {
    && SafeStoi(sp[2]).1 && SafeStoi(sp[3]).1 && SafeStoull(sp[4]).1 && SafeStoull(sp[5]).1 && SafeStoi(sp[6]).1
    && SafeStoi(sp[7]).1 && SafeStoi(sp[8]).1 && SafeStoi(sp[9]).1 && SafeStoull(sp[10]).1 && SafeStoull(sp[11]).1
    && SafeStoull(sp[12]).1 && SafeStoi(sp[15]).1
    && (forall i | 16 + c.proofLength <= i < 16 + c.proofLength + SafeStoi(sp[15]).0 :: SafeStoull(sp[i]).1)
    && sp[1] != "" && SafeStoi(sp[3]).0 < c.chains
  }

  /**
   * What the reader makes of any fields: too few are rejected unseen, a key seen before is rejected,
   * and any other message registers its key. It is read, field by field, exactly when as many weak
   * blocks follow as announced and a strict reader finds nothing improper.
   */
  lemma ParseIsExact(c: Settings, sp: seq<string>, passed: set<string>)
    ensures var (r, passed') := Parse(c, sp, passed);
            if |sp| < 17 + c.proofLength then r == Rejected && passed' == passed
            else
              var key := sp[0] + sp[1] + sp[2] + sp[3] + sp[4] + sp[5];
              && (r == Rejected <==> key in passed) && passed' == passed + {key}
              && (r.Got? <==> key !in passed && InBounds(c, sp) && (c.strict ==> AllProper(c, sp)))
              && (r.Got? ==> r.sender.ip == sp[1] && r.sender.port == SafeStoi(sp[2]).0 && Reads(c, sp, r.block))
  {
    hide SafeStoi, SafeStoull;
    if |sp| >= 17 + c.proofLength {
      if KeyOf(sp) in passed {
        assert passed + {KeyOf(sp)} == passed;
      } else if InBounds(c, sp) {
        ProperIsAll(c, sp);
      }
    }
  }

  lemma ProperIsAll(c: Settings, sp: seq<string>)
    requires |sp| >= 17 + c.proofLength && InBounds(c, sp)
    ensures AllProper(c, sp) <==>
              && Proper(sp, 16 + c.proofLength, SafeStoi(sp[15]).0)
              && sp[1] != "" && SafeStoi(sp[3]).0 < c.chains
  {
    hide SafeStoi, SafeStoull;
  }

  /** The hashes of the cited weak blocks; `inside` is false when there are fewer fields than announced. */
  method ReadWeak(sp: seq<string>, from: nat, count: nat) returns (inside: bool, weak: seq<BlockHash>, proper: bool)
    requires from <= |sp|
    ensures inside <==> from + count <= |sp|
    ensures inside ==> weak == Weak(sp[from..from + count])
    ensures inside ==> (proper <==> forall k | from <= k < from + count :: SafeStoull(sp[k]).1)
  {
    hide SafeStoull, WeakUpTo;
    inside, weak, proper := true, [], true;
    NoWeakYet(sp, from);
    for i := 0 to count
      invariant from + i <= |sp| && weak == WeakUpTo(sp, from, i)
      invariant proper <==> forall k | from <= k < from + i :: SafeStoull(sp[k]).1
    {
      if from + i >= |sp| {
        inside := false;
        return;
      }
      OneMoreWeak(sp, from, i);
      var (v, ok) := SafeStoull(sp[from + i]);
      weak := weak + [v];
      proper := proper && ok;
    }
    assert weak == Weak(sp[from..from + count]) by { AllWeak(sp, from, count); }
  }

  ghost function WeakUpTo(sp: seq<string>, from: nat, n: nat): seq<BlockHash>
    requires from + n <= |sp|
  {
    Weak(sp[from..from + n])
  }

  lemma NoWeakYet(sp: seq<string>, from: nat)
    requires from <= |sp|
    ensures WeakUpTo(sp, from, 0) == []
  {
  }

  lemma OneMoreWeak(sp: seq<string>, from: nat, n: nat)
    requires from + n < |sp|
    ensures WeakUpTo(sp, from, n + 1) == WeakUpTo(sp, from, n) + [SafeStoull(sp[from + n]).0]
  {
    hide SafeStoull;
    assert sp[from..from + n + 1][..n] == sp[from..from + n];
  }

  lemma AllWeak(sp: seq<string>, from: nat, n: nat)
    requires from + n <= |sp|
    ensures WeakUpTo(sp, from, n) == Weak(sp[from..from + n])
  {
  }

  method ParseProcessBlock(c: Settings, sp: seq<string>, passed: set<string>) returns (r: Parsed, passed': set<string>)
    ensures (r, passed') == Parse(c, sp, passed)
  {
    hide SafeStoi, SafeStoull, KeyOf, Weak;
    r, passed' := Rejected, passed;
    if |sp| < 16 + c.proofLength + 1 || KeyOf(sp) in passed {
      return;
    }
    passed' := passed + {KeyOf(sp)};
    var pr := true;
    pr := pr && (forall i | 0 <= i < 16 && i in {2, 3, 6, 7, 8, 9, 15} :: SafeStoi(sp[i]).1);
    pr := pr && (forall i | 0 <= i < 16 && i in {4, 5, 10, 11, 12} :: SafeStoull(sp[i]).1);
    var count := SafeStoi(sp[15]).0;
    var proof: seq<string> := [];
    for j := 0 to c.proofLength
      invariant proof == sp[16..16 + j]
    {
      proof := proof + [sp[16 + j]];
    }
    var inside, weak, proper := ReadWeak(sp, 16 + c.proofLength, count);
    if !inside {
      r := Undefined;
      return;
    }
    pr := pr && proper;
    var b := Block(SafeStoi(sp[3]).0, SafeStoull(sp[4]).0, SafeStoull(sp[5]).0, SafeStoi(sp[6]).0, SafeStoi(sp[7]).0,
                   SafeStoi(sp[8]).0, SafeStoi(sp[9]).0, SafeStoull(sp[10]).0, SafeStoull(sp[11]).0,
                   SafeStoull(sp[12]).0 % TWO32, sp[13], sp[14], proof, weak);
    if c.strict && !(pr && sp[1] != "" && b.chainId < c.chains) {
      r := Undefined;
      return;
    }
    r := Got(Peer(sp[1], SafeStoi(sp[2]).0), b);
  }

  // ------------------------------------------------------------------ round trip

  ghost predicate Lacks(s: string, d: char) {
    d !in s
  }

  /** The text fields do not contain the character. */
  ghost predicate TextWithout(me: Peer, b: Block, d: char) {
    && Lacks(me.ip, d) && Lacks(b.rootChains, d) && Lacks(b.rootTxs, d)
    && forall i | 0 <= i < |b.proof| :: Lacks(b.proof[i], d)
  }

  /** The numbers that are read by `stoi` fit a signed 32-bit integer. */
  predicate Small(me: Peer, b: Block) {
    && me.port < 0x8000_0000 && b.chainId < 0x8000_0000 && b.noTxs < 0x8000_0000 && b.depth < 0x8000_0000
    && b.rank < 0x8000_0000 && b.nextRank < 0x8000_0000 && |b.weak| < 0x8000_0000
  }

  predicate Accepted(c: Settings, me: Peer, b: Block) {
    c.strict ==> me.ip != "" && b.chainId < c.chains
  }

  lemma FieldsWithout(me: Peer, b: Block, d: char)
    requires TextWithout(me, b, d) && !IsDigit(d)
    ensures forall i | 0 < i < |Fields(me, b)| :: Lacks(Fields(me, b)[i], d)
    ensures Fields(me, b)[0] == "#process_block"
  {
    forall i | 0 < i < |Fields(me, b)| ensures Lacks(Fields(me, b)[i], d) {
      FieldWithout(me, b, d, i);
    }
  }

  lemma FieldWithout(me: Peer, b: Block, d: char, i: nat)
    requires TextWithout(me, b, d) && !IsDigit(d) && 0 < i < |Fields(me, b)|
    ensures Lacks(Fields(me, b)[i], d)
  {
    hide Decimal, Decimals;
    if i >= 16 + |b.proof| {
      NumberWithout(b.weak[i - 16 - |b.proof|], d);
    } else if i >= 16 {
      assert Fields(me, b)[i] == b.proof[i - 16];
    } else {
      forall n: nat ensures Lacks(Decimal(n), d) { NumberWithout(n, d); }
    }
  }

  lemma NumberWithout(n: nat, d: char)
    requires !IsDigit(d)
    ensures Lacks(Decimal(n), d)
  {
    NumberRoundTrip(n);
  }

  lemma LastFieldIsWeak(me: Peer, b: Block)
    requires b.weak != []
    ensures var f := Fields(me, b); f[|f| - 1] != ""
  {
    assert Decimals(b.weak)[|b.weak| - 1] == Decimal(b.weak[|b.weak| - 1]);
  }

  /** The fixed fields and the proof, read back. */
  lemma HeadRoundTrip(me: Peer, b: Block)
    ensures var f := Fields(me, b); var n := SafeStoi(f[15]).0;
            && 16 + |b.proof| + |b.weak| == |f| && f[1] == me.ip
            && n == (if |b.weak| < 0x8000_0000 then |b.weak| else 0)
            && (Small(me, b) <==>
                n == |b.weak| && SafeStoi(f[2]).0 == me.port && BlockOf(f, |b.proof|, n).(weak := b.weak) == b)
            && (Small(me, b) ==> Proper(f, 16, 0))
  {
    hide Decimal, SafeStoi, SafeStoull, Weak;
    forall n: nat
      ensures n < TWO64 ==> SafeStoull(Decimal(n)) == (n, true)
      ensures SafeStoi(Decimal(n)) == if n < 0x8000_0000 then (n, true) else (0, false)
    {
      NumberRoundTrip(n);
    }
    var f := Fields(me, b);
    assert f[..16] == Head(me, b) && f[16..16 + |b.proof|] == b.proof;
  }

  lemma WeakRoundTrip(me: Peer, b: Block)
    ensures var f := Fields(me, b); var from := 16 + |b.proof|;
            && from + |b.weak| == |f| && Weak(f[from..from + |b.weak|]) == b.weak
            && forall i | from <= i < from + |b.weak| :: SafeStoull(f[i]).1
  {
    hide Decimal, SafeStoull, Head, Weak, Decimals;
    var f, from := Fields(me, b), 16 + |b.proof|;
    forall i | 0 <= i < |b.weak| ensures SafeStoull(f[from + i]) == (b.weak[i], true) {
      assert f[from + i] == Decimals(b.weak)[i];
      NumberRoundTrip(b.weak[i]);
    }
    forall i | from <= i < from + |b.weak| ensures SafeStoull(f[i]).1 {
      assert i == from + (i - from);
    }
  }

  /** Reading the fields gives the block back exactly when its `stoi` numbers are small. */
  lemma FieldsRoundTrip(me: Peer, b: Block)
    ensures var f := Fields(me, b); var n := SafeStoi(f[15]).0;
            && 16 + |b.proof| + |b.weak| == |f| && f[1] == me.ip
            && (Small(me, b) <==> n == |b.weak| && SafeStoi(f[2]).0 == me.port && BlockOf(f, |b.proof|, n) == b)
            && (Small(me, b) ==> Proper(f, 16 + |b.proof|, |b.weak|))
  {
    hide Fields, SafeStoi, SafeStoull, Weak;
    HeadRoundTrip(me, b);
    WeakRoundTrip(me, b);
  }

  /**
   * Sending a block and reading it back recovers the sender, every field and both lists. It does so
   * exactly when the proof has the length of the reader, at least one weak block is cited, the
   * numbers that go through `stoi` stay below 2^31, and a strict reader has nothing to object.
   */
  lemma BlockRoundTrip(c: Settings, me: Peer, b: Block, passed: set<string>)
    requires TextWithout(me, b, ',') && KeyOf(Fields(me, b)) !in passed
    ensures Parse(c, SplitOf(Join(Fields(me, b), ','), ','), passed).0 == Got(me, b) <==>
            |b.proof| == c.proofLength && b.weak != [] && Small(me, b) && Accepted(c, me, b)
  {
    hide Decimal, SafeStoi, SafeStoull, KeyOf, BlockOf, Fields, Join, SplitOf, Proper;
    var f := Fields(me, b);
    FieldsRoundTrip(me, b);
    FieldsWithout(me, b, ',');
    SplitOfJoin(f, ',');
    if b.weak != [] {
      LastFieldIsWeak(me, b);
    }
    var sp := SplitOf(Join(f, ','), ',');
    if |sp| >= 16 + c.proofLength + 1 {
      var n := SafeStoi(sp[15]).0;
      if 16 + c.proofLength + n <= |sp| {
        BlockOfShape(sp, c.proofLength, n);
      }
    }
  }

  lemma BlockOfShape(sp: seq<string>, proofLength: nat, n: nat)
    requires 16 + proofLength + n <= |sp|
    ensures |BlockOf(sp, proofLength, n).proof| == proofLength && |BlockOf(sp, proofLength, n).weak| == n
  {
  }

  // ------------------------------------------------------------------ over the stream

  lemma {:induction false} JoinWithout(tokens: seq<string>, sep: char, d: char)
    requires d != sep && forall i | 0 <= i < |tokens| :: Lacks(tokens[i], d)
    ensures Lacks(Join(tokens, sep), d)
  {
    if |tokens| > 1 {
      JoinWithout(tokens[1..], sep, d);
      assert Lacks(tokens[0], d);
    } else if |tokens| == 1 {
      assert Lacks(tokens[0], d);
    }
  }

  function Message(me: Peer, b: Block): string {
    Join(Fields(me, b), ',')
  }

  ghost predicate Clean(me: Peer, b: Block) {
    TextWithout(me, b, ',') && TextWithout(me, b, '#') && TextWithout(me, b, '!')
  }

  lemma BlockIsMessage(me: Peer, b: Block)
    requires Clean(me, b)
    ensures Framing.IsMessage(Message(me, b))
  {
    hide Fields;
    var f := Fields(me, b);
    assert |f| > 1 by { FieldsRoundTrip(me, b); }
    FieldsWithout(me, b, '#');
    FieldsWithout(me, b, '!');
    var more := Join(f[1..], ',');
    JoinWithout(f[1..], ',', '#');
    JoinWithout(f[1..], ',', '!');
    var m := Message(me, b);
    assert m == "#process_block" + "," + more;
    forall i | 0 < i < |m| ensures m[i] != '#' && m[i] != '!' {
      assert i >= 15 ==> m[i] == more[i - 15] && more[i - 15] in more;
    }
  }

  /** The block handler, as the framing of the stream sees it. */
  function BlockHandler(c: Settings): Framing.Handler {
    Framing.Handler(
      m => IsBlock(SplitOf(m, ',')) ==> Parse(c, SplitOf(m, ','), {}).0.Got?,
      m => MessageKey(c, SplitOf(m, ',')))
  }

  /** The kind of a message is its first field. */
  predicate IsBlock(sp: seq<string>) {
    sp != [] && sp[0] == "#process_block"
  }

  /** The key that a message registers: none when it is of another kind or has too few fields. */
  function MessageKey(c: Settings, sp: seq<string>): Option<string> {
    if !IsBlock(sp) || |sp| < 16 + c.proofLength + 1 then None else Some(KeyOf(sp))
  }

  /** Framing rejects and registers a block message exactly as the parser does; other kinds pass by. */
  lemma HandlerIsParser(c: Settings, m: string, passed: set<string>)
    ensures var sp, h := SplitOf(m, ','), BlockHandler(c);
            if IsBlock(sp) then
              && (Parse(c, sp, passed).0.Got? <==> !Framing.Rejected(h, m, passed))
              && Parse(c, sp, passed).1 == Framing.Register(h, m, passed)
            else !Framing.Rejected(h, m, passed) && Framing.Register(h, m, passed) == passed
  {
    hide SplitOf, KeyOf, BlockOf, Proper, IsBlock;
    var sp, h := SplitOf(m, ','), BlockHandler(c);
    assert h.key(m) == MessageKey(c, sp) && h.ok(m) == (IsBlock(sp) ==> Parse(c, sp, {}).0.Got?);
    if IsBlock(sp) && |sp| >= 16 + c.proofLength + 1 && KeyOf(sp) in passed {
      assert passed + {KeyOf(sp)} == passed;
    }
  }

  ghost predicate Sendable(c: Settings, me: Peer, b: Block) {
    Clean(me, b) && |b.proof| == c.proofLength && b.weak != [] && Small(me, b) && Accepted(c, me, b)
  }

  /**
   * Blocks with fresh keys that a peer sends arrive one by one, in order and unchanged, however the
   * bytes are split into reads.
   */
  lemma BlocksCrossTheWire(c: Settings, me: Peer, bs: seq<Block>, msgs: seq<string>, chunks: seq<string>)
    requires |msgs| == |bs| && forall i | 0 <= i < |bs| :: Sendable(c, me, bs[i]) && msgs[i] == Message(me, bs[i])
    requires Framing.FreshKeys(BlockHandler(c), msgs) && Framing.Concat(chunks) == Framing.Sent(msgs)
    ensures Framing.Feed(BlockHandler(c), "", chunks) == Framing.Out(msgs, "")
    ensures forall i | 0 <= i < |bs| :: Parse(c, SplitOf(msgs[i], ','), {}).0 == Got(me, bs[i])
  {
    var h := BlockHandler(c);
    hide Parse, KeyOf, Fields, SplitOf, Small, Accepted;
    forall i | 0 <= i < |bs|
      ensures Parse(c, SplitOf(msgs[i], ','), {}).0 == Got(me, bs[i])
      ensures Framing.IsMessage(msgs[i]) && h.ok(msgs[i])
    {
      BlockRoundTrip(c, me, bs[i], {});
      BlockIsMessage(me, bs[i]);
    }
    assert Framing.Sent(msgs) + "" == Framing.Sent(msgs);
    Framing.EveryMessageArrives(h, chunks, msgs, "");
  }

  /**
   * Two blocks that one peer sends on one chain share a key exactly when their parent and hash run
   * together into the same text. With hashes of equal length that is only the same parent and hash.
   */
  lemma KeysAgree(me: Peer, b: Block, b': Block)
    requires b'.chainId == b.chainId
    ensures KeyOf(Fields(me, b')) == KeyOf(Fields(me, b)) <==>
              Decimal(b'.parent) + Decimal(b'.hash) == Decimal(b.parent) + Decimal(b.hash)
    ensures |Decimal(b'.hash)| == |Decimal(b.hash)| ==>
              (KeyOf(Fields(me, b')) == KeyOf(Fields(me, b)) <==> b'.parent == b.parent && b'.hash == b.hash)
  {
    hide Decimal, Fields, KeyOf;
    KeyText(me, b);
    KeyText(me, b');
    var front := "#process_block" + me.ip + Decimal(me.port) + Decimal(b.chainId);
    var t, t' := Decimal(b.parent) + Decimal(b.hash), Decimal(b'.parent) + Decimal(b'.hash);
    if front + t' == front + t {
      SameEnds(front, t', front, t);
    }
    if t' == t && |Decimal(b'.hash)| == |Decimal(b.hash)| {
      SameEnds(Decimal(b'.parent), Decimal(b'.hash), Decimal(b.parent), Decimal(b.hash));
      DecimalIsDigits(b.parent);
      DecimalIsDigits(b'.parent);
      DecimalIsDigits(b.hash);
      DecimalIsDigits(b'.hash);
    }
  }

  lemma SameEnds(a: string, s: string, b: string, t: string)
    requires a + s == b + t && |s| == |t|
    ensures a == b && s == t
  {
    assert a == (a + s)[..|a|] && b == (b + t)[..|b|];
    assert s == (a + s)[|a|..] && t == (b + t)[|b|..];
  }

  /** So two different blocks of one peer can share a key. */
  lemma DifferentBlocksMayShareAKey(me: Peer, b: Block)
    requires b.parent == 1 && b.hash == 23
    ensures var b' := b.(parent := 12, hash := 3);
            b' != b && KeyOf(Fields(me, b')) == KeyOf(Fields(me, b))
  {
    hide KeyOf, Fields;
    KeysAgree(me, b, b.(parent := 12, hash := 3));
    assert Decimal(12) == "12" && Decimal(23) == "23" && Decimal(1) == "1" && Decimal(3) == "3";
    assert "1" + "23" == "12" + "3";
  }

  /** The two hashes stand at the end of the key with nothing between them. */
  lemma KeyText(me: Peer, b: Block)
    ensures KeyOf(Fields(me, b)) ==
            "#process_block" + me.ip + Decimal(me.port) + Decimal(b.chainId) + (Decimal(b.parent) + Decimal(b.hash))
  {
    hide Decimal, Decimals;
  }
}
