/**
 * The stamps of partial and full confirmation, as books over block hashes. One update walks, for
 * every chain, the line from a block that lies deep enough below the tip up to genesis.
 */
module CommitBooks {
  import opened Types

  /** What a hash fixes: the parent and the mining time. Genesis blocks are stamped from the start. */
  datatype Origin = Origin(genesis: set<BlockHash>, par: BlockHash -> BlockHash, mined: BlockHash -> U64)

  /** One kind of stamp with its running count and its running sum of delays. */
  datatype Book = Book(stamps: map<BlockHash, U64>, total: nat, latency: nat)

  function StampOne(o: Origin, b: Book, h: BlockHash, now: U64): Book {
    if h !in b.stamps && now > o.mined(h)
    then Book(b.stamps[h := now], b.total + 1, b.latency + (now - o.mined(h)))
    else b
  }

  function StampLine(o: Origin, b: Book, line: seq<BlockHash>, now: U64): Book
    decreases |line|
  {
    if line == [] then b else StampLine(o, StampOne(o, b, line[0], now), line[1..], now)
  }

  function StampLines(o: Origin, b: Book, lines: seq<seq<BlockHash>>, now: U64): Book {
    if lines == [] then b
    else StampLine(o, StampLines(o, b, lines[..|lines| - 1], now), lines[|lines| - 1], now)
  }

  predicate Covers(lines: seq<seq<BlockHash>>, h: BlockHash) {
    exists i :: 0 <= i < |lines| && h in lines[i]
  }

  /** An empty line stands for a chain without a block that is deep enough. */
  predicate AllDeep(lines: seq<seq<BlockHash>>) {
    forall i | 0 <= i < |lines| :: lines[i] != []
  }

  datatype Ledger = Ledger(partial: Book, committed: Book)

  function Update(o: Origin, l: Ledger, lines: seq<seq<BlockHash>>, now: U64): Ledger {
    Ledger(StampLines(o, l.partial, lines, now),
           if AllDeep(lines) then StampLines(o, l.committed, lines, now) else l.committed)
  }

  function Initial(o: Origin): Ledger {
    var b := Book(map h | h in o.genesis :: 1, 0, 0);
    Ledger(b, b)
  }

  // ------------------------------------------------------------------ what stamping does to one hash

  lemma {:induction false} LineStamps(o: Origin, b: Book, line: seq<BlockHash>, now: U64, h: BlockHash)
    ensures var s := StampLine(o, b, line, now).stamps;
            && (h in s <==> h in b.stamps || (h in line && now > o.mined(h)))
            && (h in s ==> s[h] == if h in b.stamps then b.stamps[h] else now)
    decreases |line|
  {
    if line != [] {
      LineStamps(o, StampOne(o, b, line[0], now), line[1..], now, h);
    }
  }

  /** A stamp is never rewritten; a new one is set exactly on the blocks of the lines mined before. */
  lemma {:induction false} LinesStamp(o: Origin, b: Book, lines: seq<seq<BlockHash>>, now: U64, h: BlockHash)
    ensures var s := StampLines(o, b, lines, now).stamps;
            && (h in s <==> h in b.stamps || (Covers(lines, h) && now > o.mined(h)))
            && (h in s ==> s[h] == if h in b.stamps then b.stamps[h] else now)
  {
    if lines != [] {
      var before, last := lines[..|lines| - 1], |lines| - 1;
      LinesStamp(o, b, before, now, h);
      LineStamps(o, StampLines(o, b, before, now), lines[last], now, h);
      if Covers(lines, h) && h !in lines[last] {
        var i :| 0 <= i < |lines| && h in lines[i];
        assert h in before[i];
      }
      if Covers(before, h) {
        var i :| 0 <= i < |before| && h in before[i];
        assert h in lines[i];
      }
      assert h in lines[last] ==> Covers(lines, h);
    }
  }

  // ------------------------------------------------------------------ totals and sums

  ghost function Delays(o: Origin, stamps: map<BlockHash, U64>, hs: set<BlockHash>): int
    requires hs <= stamps.Keys
  {
    if hs == {} then 0 else
      var h :| h in hs;
      stamps[h] - o.mined(h) + Delays(o, stamps, hs - {h})
  }

  lemma {:induction false} DelaysOfOne(o: Origin, stamps: map<BlockHash, U64>, hs: set<BlockHash>, x: BlockHash)
    requires hs <= stamps.Keys && x in hs
    ensures Delays(o, stamps, hs) == stamps[x] - o.mined(x) + Delays(o, stamps, hs - {x})
  {
    var h :| h in hs && Delays(o, stamps, hs) == stamps[h] - o.mined(h) + Delays(o, stamps, hs - {h});
    if h != x {
      DelaysOfOne(o, stamps, hs - {h}, x);
      DelaysOfOne(o, stamps, hs - {x}, h);
      assert hs - {h} - {x} == hs - {x} - {h};
    }
  }

  lemma {:induction false} DelaysAgree(o: Origin, s: map<BlockHash, U64>, t: map<BlockHash, U64>, hs: set<BlockHash>)
    requires hs <= s.Keys && hs <= t.Keys && forall h | h in hs :: s[h] == t[h]
    ensures Delays(o, s, hs) == Delays(o, t, hs)
  {
    if hs != {} {
      var h :| h in hs;
      DelaysOfOne(o, s, hs, h);
      DelaysOfOne(o, t, hs, h);
      DelaysAgree(o, s, t, hs - {h});
    }
  }

  /** The count and the sum of delays are those of all stamped blocks other than genesis. */
  ghost predicate Balanced(o: Origin, b: Book) {
    && o.genesis <= b.stamps.Keys
    && b.total == |b.stamps.Keys - o.genesis|
    && b.latency == Delays(o, b.stamps, b.stamps.Keys - o.genesis)
  }

  lemma BalancedOne(o: Origin, b: Book, h: BlockHash, now: U64)
    requires Balanced(o, b)
    ensures Balanced(o, StampOne(o, b, h, now))
  {
    hide Delays;
    if h !in b.stamps && now > o.mined(h) {
      OneMore(b.stamps.Keys, o.genesis, h);
      var hs, stamps := b.stamps.Keys - o.genesis, b.stamps[h := now];
      assert stamps.Keys == b.stamps.Keys + {h};
      DelaysOfOne(o, stamps, hs + {h}, h);
      DelaysAgree(o, b.stamps, stamps, hs);
    }
  }

  lemma OneMore(keys: set<BlockHash>, genesis: set<BlockHash>, h: BlockHash)
    requires genesis <= keys && h !in keys
    ensures keys + {h} - genesis == keys - genesis + {h} && keys - genesis + {h} - {h} == keys - genesis
    ensures |keys - genesis + {h}| == |keys - genesis| + 1
  {
  }

  lemma {:induction false} BalancedLine(o: Origin, b: Book, line: seq<BlockHash>, now: U64)
    requires Balanced(o, b)
    ensures Balanced(o, StampLine(o, b, line, now))
    decreases |line|
  {
    if line != [] {
      BalancedOne(o, b, line[0], now);
      BalancedLine(o, StampOne(o, b, line[0], now), line[1..], now);
    }
  }

  lemma {:induction false} BalancedLines(o: Origin, b: Book, lines: seq<seq<BlockHash>>, now: U64)
    requires Balanced(o, b)
    ensures Balanced(o, StampLines(o, b, lines, now))
  {
    if lines != [] {
      var before := lines[..|lines| - 1];
      BalancedLines(o, b, before, now);
      BalancedLine(o, StampLines(o, b, before, now), lines[|lines| - 1], now);
    }
  }

  // ------------------------------------------------------------------ runs

  /** One update: the clock, and the line of every chain at that moment. */
  datatype Tick = Tick(now: U64, lines: seq<seq<BlockHash>>)

  /** From a block up to genesis, along parent links. */
  ghost predicate IsLine(o: Origin, line: seq<BlockHash>) {
    line != [] ==>
      && line[|line| - 1] in o.genesis
      && forall i | 0 <= i < |line| - 1 :: line[i] !in o.genesis && line[i + 1] == o.par(line[i])
  }

  /** The lines may switch forks freely between updates; only the clock must not go back. */
  ghost predicate IsRun(o: Origin, ticks: seq<Tick>) {
    && (forall i, j | 0 <= i < |ticks| && 0 <= j < |ticks[i].lines| :: IsLine(o, ticks[i].lines[j]))
    && (forall i, j | 0 <= i < j < |ticks| :: ticks[i].now <= ticks[j].now)
    && (forall i | 0 <= i < |ticks| :: ticks[i].now > 0)
  }

  function After(o: Origin, ticks: seq<Tick>): Ledger {
    if ticks == [] then Initial(o)
    else Update(o, After(o, ticks[..|ticks| - 1]), ticks[|ticks| - 1].lines, ticks[|ticks| - 1].now)
  }

  lemma Shorter(o: Origin, ticks: seq<Tick>)
    requires IsRun(o, ticks) && ticks != []
    ensures IsRun(o, ticks[..|ticks| - 1])
  {
  }

  /** The totals and the latency sums are always those of the stamped blocks, also across fork switches. */
  lemma {:induction false} TotalsBalance(o: Origin, ticks: seq<Tick>)
    ensures Balanced(o, After(o, ticks).partial) && Balanced(o, After(o, ticks).committed)
  {
    if ticks == [] {
      assert (map h | h in o.genesis :: 1).Keys - o.genesis == {};
    } else {
      var before, t := ticks[..|ticks| - 1], ticks[|ticks| - 1];
      TotalsBalance(o, before);
      BalancedLines(o, After(o, before).partial, t.lines, t.now);
      BalancedLines(o, After(o, before).committed, t.lines, t.now);
    }
  }

  /** No later update changes or removes a stamp. */
  lemma {:induction false} StampsAreWrittenOnce(o: Origin, ticks: seq<Tick>, k: nat, h: BlockHash)
    requires k <= |ticks|
    ensures var l, l' := After(o, ticks[..k]), After(o, ticks);
            && (h in l.partial.stamps ==> h in l'.partial.stamps && l'.partial.stamps[h] == l.partial.stamps[h])
            && (h in l.committed.stamps ==> h in l'.committed.stamps && l'.committed.stamps[h] == l.committed.stamps[h])
    decreases |ticks|
  {
    if k < |ticks| {
      var before, t := ticks[..|ticks| - 1], ticks[|ticks| - 1];
      assert before[..k] == ticks[..k];
      StampsAreWrittenOnce(o, before, k, h);
      LinesStamp(o, After(o, before).partial, t.lines, t.now, h);
      LinesStamp(o, After(o, before).committed, t.lines, t.now, h);
    } else {
      assert ticks[..k] == ticks;
    }
  }

  /** No stamp lies in the future. */
  lemma {:induction false} StampsAreNotAhead(o: Origin, ticks: seq<Tick>, now: U64, h: BlockHash)
    requires IsRun(o, ticks) && now > 0 && forall i | 0 <= i < |ticks| :: ticks[i].now <= now
    ensures var s := After(o, ticks).partial.stamps; h in s ==> s[h] <= now
  {
    if ticks != [] {
      var before, t := ticks[..|ticks| - 1], ticks[|ticks| - 1];
      Shorter(o, ticks);
      StampsAreNotAhead(o, before, now, h);
      LinesStamp(o, After(o, before).partial, t.lines, t.now, h);
    }
  }

  /** A committed block was partially confirmed, no later than it was committed. */
  lemma {:induction false} CommittedAfterPartial(o: Origin, ticks: seq<Tick>, h: BlockHash)
    requires IsRun(o, ticks)
    ensures var l := After(o, ticks);
            h in l.committed.stamps ==> h in l.partial.stamps && l.partial.stamps[h] <= l.committed.stamps[h]
  {
    if ticks != [] {
      var before, t := ticks[..|ticks| - 1], ticks[|ticks| - 1];
      Shorter(o, ticks);
      CommittedAfterPartial(o, before, h);
      StampsAreNotAhead(o, before, t.now, h);
      LinesStamp(o, After(o, before).partial, t.lines, t.now, h);
      LinesStamp(o, After(o, before).committed, t.lines, t.now, h);
    }
  }

  /** The update finds `h` on a line, at a time after `h` was mined. */
  ghost predicate Finds(o: Origin, t: Tick, h: BlockHash) {
    Covers(t.lines, h) && t.now > o.mined(h)
  }

  /** The `i`-th update is the first that finds `h`. */
  ghost predicate FirstFinds(o: Origin, ticks: seq<Tick>, i: nat, h: BlockHash) {
    i < |ticks| && Finds(o, ticks[i], h) && forall j | 0 <= j < i :: !Finds(o, ticks[j], h)
  }

  /** The `i`-th update is the first that finds `h` while every chain has a deep block. */
  ghost predicate FirstFindsDeep(o: Origin, ticks: seq<Tick>, i: nat, h: BlockHash) {
    i < |ticks| && FindsDeep(o, ticks[i], h) && forall j | 0 <= j < i :: !FindsDeep(o, ticks[j], h)
  }

  ghost predicate FindsDeep(o: Origin, t: Tick, h: BlockHash) {
    AllDeep(t.lines) && Finds(o, t, h)
  }

  /**
   * A block other than genesis is partially confirmed exactly when some update, at a time after it
   * was mined, found it on a line, whatever the other chains look like. Its stamp is the time of
   * the first such update.
   */
  lemma {:induction false} PartialWhenFound(o: Origin, ticks: seq<Tick>, h: BlockHash)
    requires h !in o.genesis
    ensures var s := After(o, ticks).partial.stamps;
            && (h in s <==> exists i :: 0 <= i < |ticks| && Finds(o, ticks[i], h))
            && (forall i: nat | FirstFinds(o, ticks, i, h) :: h in s && s[h] == ticks[i].now)
  {
    hide Finds;
    if ticks != [] {
      var before, t, k := ticks[..|ticks| - 1], ticks[|ticks| - 1], |ticks| - 1;
      PartialWhenFound(o, before, h);
      FindsStamps(o, After(o, before).partial, t, h);
      if h in After(o, before).partial.stamps {
        var i :| 0 <= i < |before| && Finds(o, before[i], h);
        assert Finds(o, ticks[i], h);
      }
      if i :| 0 <= i < |ticks| && Finds(o, ticks[i], h) {
        assert i < k ==> Finds(o, before[i], h);
      }
      forall i: nat | FirstFinds(o, ticks, i, h)
        ensures h in After(o, ticks).partial.stamps && After(o, ticks).partial.stamps[h] == ticks[i].now
      {
        if i < k {
          assert FirstFinds(o, before, i, h);
        } else {
          assert forall j | 0 <= j < k :: before[j] == ticks[j];
        }
      }
    }
  }

  lemma FindsStamps(o: Origin, b: Book, t: Tick, h: BlockHash)
    ensures var s := StampLines(o, b, t.lines, t.now).stamps;
            && (h in s <==> h in b.stamps || Finds(o, t, h))
            && (h in s ==> s[h] == if h in b.stamps then b.stamps[h] else t.now)
  {
    LinesStamp(o, b, t.lines, t.now, h);
  }

  lemma DeepFindsStamp(o: Origin, l: Ledger, t: Tick, h: BlockHash)
    ensures var s, s' := l.committed.stamps, Update(o, l, t.lines, t.now).committed.stamps;
            && (h in s' <==> h in s || FindsDeep(o, t, h))
            && (h in s' ==> s'[h] == if h in s then s[h] else t.now)
  {
    LinesStamp(o, l.committed, t.lines, t.now, h);
  }

  /**
   * A block other than genesis is committed exactly when some update, at a time after it was
   * mined, found it on a line while every chain had a deep block. Its stamp is the time of the
   * first such update.
   */
  lemma {:induction false} CommittedWhenAllDeep(o: Origin, ticks: seq<Tick>, h: BlockHash)
    requires h !in o.genesis
    ensures var s := After(o, ticks).committed.stamps;
            && (h in s <==> exists i :: 0 <= i < |ticks| && FindsDeep(o, ticks[i], h))
            && (forall i: nat | FirstFindsDeep(o, ticks, i, h) :: h in s && s[h] == ticks[i].now)
  {
    hide FindsDeep;
    if ticks != [] {
      var before, t, k := ticks[..|ticks| - 1], ticks[|ticks| - 1], |ticks| - 1;
      CommittedWhenAllDeep(o, before, h);
      DeepFindsStamp(o, After(o, before), t, h);
      if h in After(o, before).committed.stamps {
        var i :| 0 <= i < |before| && FindsDeep(o, before[i], h);
        assert FindsDeep(o, ticks[i], h);
      }
      if i :| 0 <= i < |ticks| && FindsDeep(o, ticks[i], h) {
        assert i < k ==> FindsDeep(o, before[i], h);
      }
      forall i: nat | FirstFindsDeep(o, ticks, i, h)
        ensures h in After(o, ticks).committed.stamps && After(o, ticks).committed.stamps[h] == ticks[i].now
      {
        if i < k {
          assert FirstFindsDeep(o, before, i, h);
        } else {
          assert forall j | 0 <= j < k :: before[j] == ticks[j];
        }
      }
    }
  }

  /** The parents of the stamped blocks are stamped. */
  ghost predicate Closed(o: Origin, stamps: map<BlockHash, U64>) {
    forall h | h in stamps && h !in o.genesis :: o.par(h) in stamps
  }

  /** No block of the lines was mined before its parent. */
  ghost predicate ParentsMinedFirst(o: Origin, lines: seq<seq<BlockHash>>) {
    forall j, h | 0 <= j < |lines| && h in lines[j] && h !in o.genesis :: o.mined(o.par(h)) <= o.mined(h)
  }

  lemma ClosedLines(o: Origin, b: Book, lines: seq<seq<BlockHash>>, now: U64)
    requires Closed(o, b.stamps) && ParentsMinedFirst(o, lines)
    requires forall j | 0 <= j < |lines| :: IsLine(o, lines[j])
    ensures Closed(o, StampLines(o, b, lines, now).stamps)
  {
    var s := StampLines(o, b, lines, now).stamps;
    forall h | h in s && h !in o.genesis ensures o.par(h) in s {
      LinesStamp(o, b, lines, now, h);
      LinesStamp(o, b, lines, now, o.par(h));
      if h !in b.stamps {
        var j :| 0 <= j < |lines| && h in lines[j];
        var i :| 0 <= i < |lines[j]| && lines[j][i] == h;
        assert lines[j][i + 1] == o.par(h);
        assert Covers(lines, o.par(h));
      }
    }
  }

  /** When mining times do not decrease along parent links, every stamped block has stamped ancestors. */
  lemma {:induction false} StampedBlocksAreClosed(o: Origin, ticks: seq<Tick>)
    requires IsRun(o, ticks) && forall i | 0 <= i < |ticks| :: ParentsMinedFirst(o, ticks[i].lines)
    ensures Closed(o, After(o, ticks).partial.stamps) && Closed(o, After(o, ticks).committed.stamps)
  {
    if ticks != [] {
      var before, t := ticks[..|ticks| - 1], ticks[|ticks| - 1];
      Shorter(o, ticks);
      StampedBlocksAreClosed(o, before);
      ClosedLines(o, After(o, before).partial, t.lines, t.now);
      ClosedLines(o, After(o, before).committed, t.lines, t.now);
    }
  }
}
