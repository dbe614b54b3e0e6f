/**
 * Ranks order the blocks of all chains. A mined block takes the next rank of its parent as its own
 * rank, and raises its next rank to that of the trailing block. The confirm bar is the least next
 * rank among the blocks that lie `discard` below the tips.
 */
module Ranks {
  import opened Types
  import opened BlockTree

  /** The next rank of a mined block; the increment is that of a `uint32_t`. */
  function NextRank(rank: U32, trailing: U32): (r: U32)
    ensures trailing > rank ==> r == trailing
    ensures r > rank <==> trailing > rank || rank < TWO32 - 1
  {
    if trailing <= rank then (rank + 1) % TWO32 else trailing
  }

  /** The header of a block mined on the tip of `chain`; the trailing tip is the first with the largest next rank. */
  method MineHeader(tips: seq<NetworkBlock>, chain: nat, hash: BlockHash, now: U64, rest: nat)
    returns (nb: NetworkBlock, trailing: nat)
    requires chain < |tips|
    ensures trailing < |tips| && (forall i | 0 <= i < |tips| :: tips[i].nextRank <= tips[trailing].nextRank)
    ensures forall i | 0 <= i < trailing :: tips[i].nextRank < tips[trailing].nextRank
    ensures nb.parent == tips[chain].hash && nb.hash == hash && nb.timeMined == now && nb.rest == rest
    ensures nb.depth == (tips[chain].depth + 1) % TWO32
    ensures nb.rank == tips[chain].nextRank
    ensures nb.rank < TWO32 - 1 ==>
              && nb.rank < nb.nextRank
              && (forall i | 0 <= i < |tips| :: tips[i].nextRank <= nb.nextRank)
              && (nb.nextRank == nb.rank + 1 || exists i :: 0 <= i < |tips| && tips[i].nextRank == nb.nextRank)
    ensures nb.rank == TWO32 - 1 ==> nb.nextRank == 0
  {
    trailing := 0;
    for i := 0 to |tips|
      invariant trailing < |tips| && (if i == 0 then trailing == 0 else trailing < i)
      invariant forall k | 0 <= k < i :: tips[k].nextRank <= tips[trailing].nextRank
      invariant forall k | 0 <= k < trailing :: tips[k].nextRank < tips[trailing].nextRank
    {
      if tips[i].nextRank > tips[trailing].nextRank {
        trailing := i;
      }
    }
    var parent := tips[chain];
    nb := NetworkBlock(parent.hash, hash, (parent.depth + 1) % TWO32, parent.nextRank,
                       NextRank(parent.nextRank, tips[trailing].nextRank), now, rest);
  }

  // ------------------------------------------------------------------ headers of honest miners

  /** A genesis block, or one mined by the rule above on a block of the ledger. */
  ghost predicate HonestBlock(hdr: map<BlockHash, NetworkBlock>, nb: NetworkBlock) {
    if nb.depth == 0 then nb.rank == 0
    else
      && nb.parent in hdr
      && nb.depth == hdr[nb.parent].depth + 1
      && nb.rank == hdr[nb.parent].nextRank
      && nb.rank < nb.nextRank
  }

  ghost predicate Honest(hdr: map<BlockHash, NetworkBlock>) {
    forall h | h in hdr :: HonestBlock(hdr, hdr[h])
  }

  /** A mined block keeps the ledger honest exactly while the rank has not run out. */
  lemma MinedIsHonest(hdr: map<BlockHash, NetworkBlock>, nb: NetworkBlock, trailing: U32)
    requires Honest(hdr) && nb.parent in hdr && nb.hash !in hdr && hdr[nb.parent].depth < TWO32 - 1
    requires nb.rank == hdr[nb.parent].nextRank && nb.rank <= trailing && nb.nextRank == NextRank(nb.rank, trailing)
    requires nb.depth == (hdr[nb.parent].depth + 1) % TWO32
    ensures Honest(hdr[nb.hash := nb]) <==> nb.rank < TWO32 - 1
  {
    var hdr' := hdr[nb.hash := nb];
    assert hdr'[nb.hash] == nb && hdr'[nb.parent] == hdr[nb.parent];
    if nb.rank < TWO32 - 1 {
      forall h | h in hdr' ensures HonestBlock(hdr', hdr'[h]) {
        assert h != nb.hash ==> HonestBlock(hdr, hdr[h]);
      }
    } else {
      assert !HonestBlock(hdr', hdr'[nb.hash]);
    }
  }

  /** `a` is `b` or an ancestor of `b`. */
  ghost predicate OnPath(hdr: map<BlockHash, NetworkBlock>, a: BlockHash, b: BlockHash)
    requires Honest(hdr) && b in hdr
    decreases hdr[b].depth
  {
    a == b || (hdr[b].depth > 0 && OnPath(hdr, a, hdr[b].parent))
  }

  ghost function Above(hdr: map<BlockHash, NetworkBlock>, h: BlockHash, n: nat): (r: Option<BlockHash>)
    requires Honest(hdr) && h in hdr
    ensures r.Some? ==> r.value in hdr
    decreases n
  {
    if n == 0 then Some(h) else if hdr[h].depth == 0 then None else Above(hdr, hdr[h].parent, n - 1)
  }

  lemma {:induction false} RanksRise(hdr: map<BlockHash, NetworkBlock>, a: BlockHash, b: BlockHash)
    requires Honest(hdr) && b in hdr && OnPath(hdr, a, b)
    ensures a in hdr && hdr[a].depth <= hdr[b].depth && hdr[a].nextRank <= hdr[b].nextRank
    ensures a != b ==> hdr[a].depth < hdr[b].depth && hdr[a].nextRank <= hdr[b].rank
    decreases hdr[b].depth
  {
    if a != b {
      RanksRise(hdr, a, hdr[b].parent);
    }
  }

  lemma {:induction false} AboveIsOnPath(hdr: map<BlockHash, NetworkBlock>, h: BlockHash, n: nat)
    requires Honest(hdr) && h in hdr
    ensures Above(hdr, h, n) == None <==> n > hdr[h].depth
    ensures var d := Above(hdr, h, n); d.Some? ==> OnPath(hdr, d.value, h) && hdr[d.value].depth + n == hdr[h].depth
    decreases n
  {
    if n > 0 && hdr[h].depth > 0 {
      AboveIsOnPath(hdr, hdr[h].parent, n - 1);
    }
  }

  /** The blocks on one path are ordered by depth. */
  lemma {:induction false} PathIsLinear(hdr: map<BlockHash, NetworkBlock>, a: BlockHash, b: BlockHash, t: BlockHash)
    requires Honest(hdr) && t in hdr && OnPath(hdr, a, t) && OnPath(hdr, b, t)
    requires b in hdr && a in hdr && hdr[a].depth <= hdr[b].depth
    ensures OnPath(hdr, a, b)
    decreases hdr[t].depth
  {
    if b != t {
      RanksRise(hdr, b, t);
      RanksRise(hdr, a, t);
      PathIsLinear(hdr, a, b, hdr[t].parent);
    }
  }

  lemma {:induction false} PathsJoin(hdr: map<BlockHash, NetworkBlock>, a: BlockHash, b: BlockHash, c: BlockHash)
    requires Honest(hdr) && c in hdr && OnPath(hdr, b, c) && b in hdr && OnPath(hdr, a, b)
    ensures OnPath(hdr, a, c)
    decreases hdr[c].depth
  {
    if b != c {
      PathsJoin(hdr, a, b, hdr[c].parent);
    }
  }

  ghost predicate Grows(hdr: map<BlockHash, NetworkBlock>, hdr': map<BlockHash, NetworkBlock>) {
    forall h | h in hdr :: h in hdr' && hdr'[h] == hdr[h]
  }

  lemma {:induction false} PathsStay(
    hdr: map<BlockHash, NetworkBlock>, hdr': map<BlockHash, NetworkBlock>, a: BlockHash, b: BlockHash)
    requires Honest(hdr) && Honest(hdr') && Grows(hdr, hdr') && b in hdr
    ensures OnPath(hdr', a, b) <==> OnPath(hdr, a, b)
    decreases hdr[b].depth
  {
    if a != b && hdr[b].depth > 0 {
      PathsStay(hdr, hdr', a, hdr[b].parent);
    }
  }

  // ------------------------------------------------------------------ the confirm bar over runs

  /** What one node holds: the headers it knows, and the tip of every chain. */
  datatype View = View(hdr: map<BlockHash, NetworkBlock>, tips: seq<BlockHash>)

  ghost predicate Sound(v: View) {
    Honest(v.hdr) && forall c | 0 <= c < |v.tips| :: v.tips[c] in v.hdr
  }

  ghost function Deep(v: View, c: nat, discard: nat): Option<BlockHash>
    requires Sound(v) && c < |v.tips|
  {
    Above(v.hdr, v.tips[c], discard)
  }

  /** The least next rank of the deep blocks of the first `n` chains, if each of them has one. */
  ghost function Bar(v: View, discard: nat, n: nat): (bar: Option<U32>)
    requires Sound(v) && n <= |v.tips|
    ensures bar.Some? <==> forall c | 0 <= c < n :: Deep(v, c, discard).Some?
    ensures bar.Some? ==> forall c | 0 <= c < n :: bar.value <= v.hdr[Deep(v, c, discard).value].nextRank
    ensures bar.Some? && bar.value < TWO32 - 1 ==>
              exists c :: 0 <= c < n && bar.value == v.hdr[Deep(v, c, discard).value].nextRank
  {
    if n == 0 then Some(TWO32 - 1) else
      var bar, d := Bar(v, discard, n - 1), Deep(v, n - 1, discard);
      if bar == None || d == None then None
      else if v.hdr[d.value].nextRank < bar.value then Some(v.hdr[d.value].nextRank) else bar
  }

  /**
   * More headers are known, no tip gets less deep, and each tip still descends from the block that
   * lay `discard` below the tip before.
   */
  ghost predicate Advances(v: View, v': View, discard: nat) {
    && Sound(v) && Sound(v') && Grows(v.hdr, v'.hdr) && |v'.tips| == |v.tips|
    && forall c | 0 <= c < |v.tips| ::
         && v.hdr[v.tips[c]].depth <= v'.hdr[v'.tips[c]].depth
         && (Deep(v, c, discard).Some? ==> OnPath(v'.hdr, Deep(v, c, discard).value, v'.tips[c]))
  }

  ghost predicate IsRun(vs: seq<View>, discard: nat) {
    && (forall i | 0 <= i < |vs| :: Sound(vs[i]))
    && forall i | 0 <= i < |vs| - 1 :: Advances(vs[i], vs[i + 1], discard)
  }

  /** The deep block of a later moment descends from the deep block of an earlier one. */
  ghost predicate Settles(v: View, v': View, c: nat, discard: nat)
    requires Sound(v) && Sound(v') && c < |v.tips| && c < |v'.tips|
  {
    Deep(v, c, discard).Some? ==>
      && Deep(v', c, discard).Some?
      && OnPath(v'.hdr, Deep(v, c, discard).value, Deep(v', c, discard).value)
      && OnPath(v'.hdr, Deep(v, c, discard).value, v'.tips[c])
  }

  lemma SettlesNext(v: View, v': View, c: nat, discard: nat)
    requires Advances(v, v', discard) && c < |v.tips|
    ensures Settles(v, v', c, discard)
  {
    AboveIsOnPath(v.hdr, v.tips[c], discard);
    AboveIsOnPath(v'.hdr, v'.tips[c], discard);
    if Deep(v, c, discard).Some? {
      PathIsLinear(v'.hdr, Deep(v, c, discard).value, Deep(v', c, discard).value, v'.tips[c]);
    }
  }

  lemma {:induction false} SettlesLater(vs: seq<View>, discard: nat, i: nat, j: nat, c: nat)
    requires IsRun(vs, discard) && i <= j < |vs| && c < |vs[i].tips|
    ensures |vs[j].tips| == |vs[i].tips| && Grows(vs[i].hdr, vs[j].hdr) && Settles(vs[i], vs[j], c, discard)
  {
    if i == j {
      AboveIsOnPath(vs[i].hdr, vs[i].tips[c], discard);
    } else {
      SettlesLater(vs, discard, i, j - 1, c);
      assert Advances(vs[j - 1], vs[j - 1 + 1], discard);
      SettlesNext(vs[j - 1], vs[j], c, discard);
      if Deep(vs[i], c, discard).Some? {
        var a, b := Deep(vs[i], c, discard).value, Deep(vs[j - 1], c, discard).value;
        PathsStay(vs[j - 1].hdr, vs[j].hdr, a, b);
        PathsJoin(vs[j].hdr, a, b, Deep(vs[j], c, discard).value);
        PathsJoin(vs[j].hdr, a, b, vs[j].tips[c]);
      }
    }
  }

  // ------------------------------------------------------------------ when the bar is kept

  ghost function BarOf(v: View, discard: nat): Option<U32>
    requires Sound(v)
  {
    Bar(v, discard, |v.tips|)
  }

  /** The bar of `v` is not above that of `v'`. */
  ghost predicate BarKept(v: View, v': View, discard: nat)
    requires Sound(v) && Sound(v')
  {
    BarOf(v, discard).Some? ==> BarOf(v', discard).Some? && BarOf(v, discard).value <= BarOf(v', discard).value
  }

  /** The tip has a deep block, whose next rank does not fall below the bar. */
  ghost predicate TipKeeps(hdr: map<BlockHash, NetworkBlock>, tip: BlockHash, discard: nat, bar: U32)
    requires Honest(hdr) && tip in hdr
  {
    var d := Above(hdr, tip, discard);
    d.Some? && bar <= hdr[d.value].nextRank
  }

  ghost predicate TipsKeep(v: View, discard: nat, bar: U32)
    requires Sound(v)
  {
    forall c | 0 <= c < |v.tips| :: TipKeeps(v.hdr, v.tips[c], discard, bar)
  }

  /** Whatever the tips become, the bar is kept exactly when each new tip keeps it. */
  lemma BarIsKeptByTips(v: View, v': View, discard: nat)
    requires Sound(v) && Sound(v') && |v'.tips| == |v.tips|
    ensures BarKept(v, v', discard) <==>
            (BarOf(v, discard).Some? ==> TipsKeep(v', discard, BarOf(v, discard).value))
  {
    hide Honest, Above;
    if BarOf(v, discard).Some? && BarKept(v, v', discard) {
      forall c | 0 <= c < |v'.tips| ensures TipKeeps(v'.hdr, v'.tips[c], discard, BarOf(v, discard).value) {
        assert Deep(v', c, discard).Some?;
      }
    }
    if BarOf(v, discard).Some? && TipsKeep(v', discard, BarOf(v, discard).value) {
      forall c | 0 <= c < |v'.tips|
        ensures Deep(v', c, discard).Some?
        ensures BarOf(v, discard).value <= v'.hdr[Deep(v', c, discard).value].nextRank
      {
        assert TipKeeps(v'.hdr, v'.tips[c], discard, BarOf(v, discard).value);
      }
    }
  }

  lemma {:induction false} AboveStays(
    hdr: map<BlockHash, NetworkBlock>, hdr': map<BlockHash, NetworkBlock>, h: BlockHash, n: nat)
    requires Honest(hdr) && Honest(hdr') && Grows(hdr, hdr') && h in hdr
    ensures Above(hdr', h, n) == Above(hdr, h, n)
    decreases n
  {
    if n > 0 && hdr[h].depth > 0 {
      AboveStays(hdr, hdr', hdr[h].parent, n - 1);
    }
  }

  /** A switch of one tip keeps the bar exactly when the deep block of the new tip does. */
  lemma SwitchKeepsBar(v: View, hdr': map<BlockHash, NetworkBlock>, c: nat, tip: BlockHash, discard: nat)
    requires Sound(v) && Honest(hdr') && Grows(v.hdr, hdr') && c < |v.tips| && tip in hdr'
    requires BarOf(v, discard).Some?
    ensures var v' := View(hdr', v.tips[c := tip]);
            Sound(v') && (BarKept(v, v', discard) <==> TipKeeps(hdr', tip, discard, BarOf(v, discard).value))
  {
    hide Honest, Above, Bar;
    var v' := View(hdr', v.tips[c := tip]);
    var bar := BarOf(v, discard).value;
    forall i | 0 <= i < |v.tips| ensures v'.tips[i] in hdr' && (i != c ==> TipKeeps(hdr', v'.tips[i], discard, bar)) {
      if i != c {
        AboveStays(v.hdr, hdr', v.tips[i], discard);
        LeastOfDeep(v, discard, i);
      }
    }
    BarIsKeptByTips(v, v', discard);
    assert v'.tips[c] == tip;
  }

  lemma LeastOfDeep(v: View, discard: nat, c: nat)
    requires Sound(v) && BarOf(v, discard).Some? && c < |v.tips|
    ensures Deep(v, c, discard).Some? && BarOf(v, discard).value <= v.hdr[Deep(v, c, discard).value].nextRank
  {
  }

  /** Over any history the bars never drop exactly when no step lets a tip fall below the bar before it. */
  lemma BarsNeverDropIff(vs: seq<View>, discard: nat)
    requires forall i | 0 <= i < |vs| :: Sound(vs[i]) && |vs[i].tips| == |vs[0].tips|
    ensures (forall i, j | 0 <= i <= j < |vs| :: BarKept(vs[i], vs[j], discard)) <==>
            (forall i | 0 <= i < |vs| - 1 && BarOf(vs[i], discard).Some? ::
               TipsKeep(vs[i + 1], discard, BarOf(vs[i], discard).value))
  {
    hide Sound, TipsKeep, BarKept, BarOf;
    forall i | 0 <= i < |vs| - 1
      ensures BarKept(vs[i], vs[i + 1], discard) <==>
              (BarOf(vs[i], discard).Some? ==> TipsKeep(vs[i + 1], discard, BarOf(vs[i], discard).value))
    {
      BarIsKeptByTips(vs[i], vs[i + 1], discard);
    }
    if forall i | 0 <= i < |vs| - 1 :: BarKept(vs[i], vs[i + 1], discard) {
      forall i, j | 0 <= i <= j < |vs| ensures BarKept(vs[i], vs[j], discard) {
        BarsKeptLater(vs, discard, i, j);
      }
    }
  }

  lemma {:induction false} BarsKeptLater(vs: seq<View>, discard: nat, i: nat, j: nat)
    requires forall i | 0 <= i < |vs| :: Sound(vs[i])
    requires forall i | 0 <= i < |vs| - 1 :: BarKept(vs[i], vs[i + 1], discard)
    requires i <= j < |vs|
    ensures BarKept(vs[i], vs[j], discard)
    decreases j
  {
    if i < j {
      BarsKeptLater(vs, discard, i, j - 1);
      assert BarKept(vs[j - 1], vs[j - 1 + 1], discard);
    }
  }

  /** Tips that descend from the deep blocks before them keep every bar. */
  lemma BarNeverDrops(vs: seq<View>, discard: nat, i: nat, j: nat)
    requires IsRun(vs, discard) && i <= j < |vs|
    ensures BarKept(vs[i], vs[j], discard)
  {
    if BarOf(vs[i], discard).Some? {
      RunKeepsTips(vs, discard, i, j);
      forall c | 0 <= c < |vs[j].tips|
        ensures TipKeeps(vs[j].hdr, vs[j].tips[c], discard, BarOf(vs[i], discard).value)
      {
        SettlesLater(vs, discard, i, j, c);
        RanksRise(vs[j].hdr, Deep(vs[i], c, discard).value, Deep(vs[j], c, discard).value);
      }
      BarIsKeptByTips(vs[i], vs[j], discard);
    }
  }

  lemma {:induction false} RunKeepsTips(vs: seq<View>, discard: nat, i: nat, j: nat)
    requires IsRun(vs, discard) && i <= j < |vs|
    ensures |vs[j].tips| == |vs[i].tips|
    decreases j
  {
    if i < j {
      RunKeepsTips(vs, discard, i, j - 1);
      assert Advances(vs[j - 1], vs[j - 1 + 1], discard);
    }
  }

  // ------------------------------------------------------------------ when the order below the bar is final

  /** A block on the path to a tip, ranked below a bar. */
  ghost predicate IsBelow(hdr: map<BlockHash, NetworkBlock>, tip: BlockHash, bar: U32, x: BlockHash)
    requires Honest(hdr) && tip in hdr
  {
    x in hdr && OnPath(hdr, x, tip) && hdr[x].rank < bar
  }

  /** The first block ranked below the bar on the way from a tip to genesis. */
  ghost function LastBelow(hdr: map<BlockHash, NetworkBlock>, tip: BlockHash, bar: U32): (l: Option<BlockHash>)
    requires Honest(hdr) && tip in hdr
    ensures l.Some? ==> l.value in hdr
    decreases hdr[tip].depth
  {
    if hdr[tip].rank < bar then Some(tip)
    else if hdr[tip].depth == 0 then None
    else LastBelow(hdr, hdr[tip].parent, bar)
  }

  /** The blocks below the bar are that block and its ancestors; there is none only for the bar 0. */
  lemma {:induction false} BelowIsPathOfLast(hdr: map<BlockHash, NetworkBlock>, tip: BlockHash, bar: U32, x: BlockHash)
    requires Honest(hdr) && tip in hdr
    ensures var l := LastBelow(hdr, tip, bar);
            && (l == None ==> bar == 0 && !IsBelow(hdr, tip, bar, x))
            && (l.Some? ==>
                  && IsBelow(hdr, tip, bar, l.value)
                  && (IsBelow(hdr, tip, bar, x) <==> OnPath(hdr, x, l.value))
                  && (hdr[tip].nextRank >= bar ==> hdr[l.value].nextRank >= bar))
    decreases hdr[tip].depth
  {
    if hdr[tip].rank < bar {
      if OnPath(hdr, x, tip) {
        RanksRise(hdr, x, tip);
        RankBelowNext(hdr, x);
      }
    } else if hdr[tip].depth > 0 {
      var p := hdr[tip].parent;
      BelowIsPathOfLast(hdr, p, bar, x);
    }
  }

  lemma RankBelowNext(hdr: map<BlockHash, NetworkBlock>, x: BlockHash)
    requires Honest(hdr) && x in hdr
    ensures hdr[x].rank <= hdr[x].nextRank
  {
    assert HonestBlock(hdr, hdr[x]);
  }

  /** The blocks of chain `c` ranked below the bar of `v` are the same in `v'`. */
  ghost predicate IsFinal(v: View, v': View, c: nat, discard: nat)
    requires Sound(v) && Sound(v') && c < |v.tips| && c < |v'.tips| && BarOf(v, discard).Some?
  {
    var bar := BarOf(v, discard).value;
    forall x :: IsBelow(v'.hdr, v'.tips[c], bar, x) <==> IsBelow(v.hdr, v.tips[c], bar, x)
  }

  /**
   * However the tips move, the part of the order below the bar of `v` is final for a chain exactly
   * when the new tip descends from the last block ranked below that bar.
   */
  lemma FinalIffDescends(v: View, v': View, c: nat, discard: nat)
    requires Sound(v) && Sound(v') && Grows(v.hdr, v'.hdr) && c < |v.tips| && c < |v'.tips|
    requires BarOf(v, discard).Some?
    ensures var l := LastBelow(v.hdr, v.tips[c], BarOf(v, discard).value);
            IsFinal(v, v', c, discard) <==> (l.Some? ==> OnPath(v'.hdr, l.value, v'.tips[c]))
  {
    hide Honest, Bar;
    var bar, hdr, hdr', t, t' := BarOf(v, discard).value, v.hdr, v'.hdr, v.tips[c], v'.tips[c];
    var l := LastBelow(hdr, t, bar);
    BelowIsPathOfLast(hdr, t, bar, t);
    if l.Some? {
      BelowIsPathOfLast(hdr, t, bar, l.value);
      BarBelowTip(v, c, discard);
      if IsFinal(v, v', c, discard) {
        assert IsBelow(hdr', t', bar, l.value);
      }
      if OnPath(hdr', l.value, t') {
        forall x ensures IsBelow(hdr', t', bar, x) <==> IsBelow(hdr, t, bar, x) {
          BelowIsPathOfLast(hdr, t, bar, x);
          PathsStay(hdr, hdr', x, l.value);
          BelowTheBarIsBelowDeep(hdr', t', l.value, x, bar);
          if OnPath(hdr, x, l.value) {
            RanksRise(hdr, x, l.value);
          }
        }
      }
    }
  }

  lemma BarBelowTip(v: View, c: nat, discard: nat)
    requires Sound(v) && c < |v.tips| && BarOf(v, discard).Some?
    ensures BarOf(v, discard).value <= v.hdr[v.tips[c]].nextRank
  {
    AboveIsOnPath(v.hdr, v.tips[c], discard);
    LeastOfDeep(v, discard, c);
    RanksRise(v.hdr, Deep(v, c, discard).value, v.tips[c]);
  }

  /** On the path to a tip, a rank below the bar means: at or above the deep block. */
  lemma BelowTheBarIsBelowDeep(hdr: map<BlockHash, NetworkBlock>, tip: BlockHash, d: BlockHash, x: BlockHash, bar: U32)
    requires Honest(hdr) && tip in hdr && d in hdr && OnPath(hdr, d, tip) && bar <= hdr[d].nextRank
    ensures (x in hdr && OnPath(hdr, x, tip) && hdr[x].rank < bar) <==>
            (x in hdr && OnPath(hdr, x, d) && hdr[x].rank < bar)
  {
    if x in hdr && OnPath(hdr, x, tip) && hdr[x].rank < bar {
      if hdr[x].depth <= hdr[d].depth {
        PathIsLinear(hdr, x, d, tip);
      } else {
        PathIsLinear(hdr, d, x, tip);
        RanksRise(hdr, d, x);
      }
    }
    if x in hdr && OnPath(hdr, x, d) {
      PathsJoin(hdr, x, d, tip);
    }
  }

  /** Tips that descend from the deep blocks before them leave the order below every earlier bar final. */
  lemma BelowTheBarIsFinal(vs: seq<View>, discard: nat, i: nat, j: nat, c: nat)
    requires IsRun(vs, discard) && i <= j < |vs| && c < |vs[i].tips| && c < |vs[j].tips|
    requires BarOf(vs[i], discard).Some?
    ensures IsFinal(vs[i], vs[j], c, discard)
  {
    var v, v', bar := vs[i], vs[j], BarOf(vs[i], discard).value;
    var d, l := Deep(v, c, discard).value, LastBelow(v.hdr, v.tips[c], bar);
    SettlesLater(vs, discard, i, j, c);
    FinalIffDescends(v, v', c, discard);
    if l.Some? {
      AboveIsOnPath(v.hdr, v.tips[c], discard);
      BelowIsPathOfLast(v.hdr, v.tips[c], bar, l.value);
      BelowTheBarIsBelowDeep(v.hdr, v.tips[c], d, l.value, bar);
      PathsStay(v.hdr, v'.hdr, l.value, d);
      PathsJoin(v'.hdr, l.value, d, v'.tips[c]);
    }
  }

  /** A block mined on any tip gets a rank at or above every earlier bar. */
  lemma MinedAboveEveryBar(vs: seq<View>, discard: nat, i: nat, j: nat, c: nat)
    requires IsRun(vs, discard) && i <= j < |vs| && c < |vs[i].tips| && c < |vs[j].tips|
    requires Bar(vs[i], discard, |vs[i].tips|).Some?
    ensures Bar(vs[i], discard, |vs[i].tips|).value <= vs[j].hdr[vs[j].tips[c]].nextRank
  {
    SettlesLater(vs, discard, i, j, c);
    RanksRise(vs[j].hdr, Deep(vs[i], c, discard).value, vs[j].tips[c]);
  }

  // ------------------------------------------------------------------ a deep fork

  /** The header was mined by the rule while some block of the ledger was the trailing one. */
  ghost predicate MinedByRule(hdr: map<BlockHash, NetworkBlock>, nb: NetworkBlock) {
    nb.depth > 0 ==>
      exists t :: t in hdr && nb.rank <= hdr[t].nextRank && nb.nextRank == NextRank(nb.rank, hdr[t].nextRank)
  }

  /**
   * Two chains with genesis blocks 0 and 10. The blocks 11 to 14 are mined first, 1 and 2 with 13 in
   * view; the blocks 3 to 5 are mined by a node that has seen neither.
   */
  const FORK: map<BlockHash, NetworkBlock> := map h: BlockHash | h <= 5 || 10 <= h <= 14 :: ForkBlock(h)

  function ForkBlock(h: BlockHash): NetworkBlock
    requires h <= 5 || 10 <= h <= 14
  {
    if h == 0 || h == 10 then NetworkBlock(h, h, 0, 0, 0, 0, 0)
    else if h == 1 then NetworkBlock(0, 1, 1, 0, 3, 0, 0)
    else if h == 2 then NetworkBlock(1, 2, 2, 3, 4, 0, 0)
    else if h <= 5 then NetworkBlock(if h == 3 then 0 else h - 1, h, h - 2, h - 3, h - 2, 0, 0)
    else NetworkBlock(h - 1, h, h - 10, h - 11, h - 10, 0, 0)
  }

  lemma ForkIsMined()
    ensures Honest(FORK) && forall h | h in FORK :: MinedByRule(FORK, FORK[h])
  {
    forall h | h in FORK ensures HonestBlock(FORK, FORK[h]) && MinedByRule(FORK, FORK[h]) {
      ForkBlockIsMined(h);
    }
  }

  lemma ForkBlockIsMined(h: BlockHash)
    requires h in FORK
    ensures HonestBlock(FORK, FORK[h]) && MinedByRule(FORK, FORK[h])
  {
    var trailing := if h == 1 || h == 2 then 13 else FORK[h].parent;
    assert trailing in FORK && FORK[trailing] == ForkBlock(trailing) && FORK[h] == ForkBlock(h);
  }

  /** The deep blocks of the two views. */
  lemma ForkPaths()
    requires Honest(FORK)
    ensures 2 in FORK && 5 in FORK && 14 in FORK && FORK[2].depth < FORK[5].depth
    ensures Above(FORK, 2, 1) == Some(1) && Above(FORK, 5, 1) == Some(4) && Above(FORK, 14, 1) == Some(13)
    ensures 1 in FORK && 4 in FORK && 13 in FORK
    ensures FORK[1].nextRank == 3 && FORK[4].nextRank == 2 && FORK[13].nextRank == 3
  {
    hide Honest;
    assert Above(FORK, 1, 0) == Some(1) && Above(FORK, 4, 0) == Some(4) && Above(FORK, 13, 0) == Some(13);
  }

  lemma BarOfTwo(
    hdr: map<BlockHash, NetworkBlock>, a: BlockHash, b: BlockHash, discard: nat, d: BlockHash, e: BlockHash)
    requires Honest(hdr) && a in hdr && b in hdr && d in hdr && e in hdr
    requires Above(hdr, a, discard) == Some(d) && Above(hdr, b, discard) == Some(e)
    ensures var v := View(hdr, [a, b]);
            && Sound(v)
            && Bar(v, discard, 2) ==
               Some(if hdr[e].nextRank < hdr[d].nextRank then hdr[e].nextRank else hdr[d].nextRank)
  {
    var v := View(hdr, [a, b]);
    assert Bar(v, discard, 0) == Some(TWO32 - 1) && Bar(v, discard, 1) == Some(hdr[d].nextRank);
  }

  /**
   * A switch to a deeper fork that leaves the deep block behind can lower the bar, although every
   * block was mined by the rule.
   */
  lemma DeepForkLowersTheBar()
    ensures forall h | h in FORK :: MinedByRule(FORK, FORK[h])
    ensures var v, v' := View(FORK, [2, 14]), View(FORK, [5, 14]);
            && Sound(v) && Sound(v') && FORK[2].depth < FORK[5].depth
            && Bar(v, 1, 2) == Some(3) && Bar(v', 1, 2) == Some(2)
  {
    hide *;
    ForkIsMined();
    ForkPaths();
    BarOfTwo(FORK, 2, 14, 1, 1, 13);
    BarOfTwo(FORK, 5, 14, 1, 4, 13);
  }
}
