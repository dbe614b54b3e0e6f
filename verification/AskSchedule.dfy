/**
 * When the missing root of an incomplete tree is asked for, and when the tree is given up.
 * `Poll` and `Asked` are what one network tick does to the list of incomplete trees.
 */
module AskSchedule {
  import opened Types

  /** One list cell: the missing block, when it was last asked for, and how often. */
  datatype Entry = Entry(root: BlockHash, last: U64, asks: U32)

  predicate Due(e: Entry, now: U64, each: U32) {
    Elapsed(now, e.last) > each
  }

  /** The entry after an ask; the counter is a `uint32_t`. */
  function Bumped(e: Entry, now: U64): Entry {
    e.(last := now, asks := (e.asks + 1) % TWO32)
  }

  /** The entry is given up at this tick. */
  predicate Expired(e: Entry, now: U64, each: U32, limit: U32) {
    Due(e, now, each) && Bumped(e, now).asks > limit
  }

  /**
   * One entry at a tick, by the clock alone: asked for at most `each` ago it is left as it is; else
   * it is asked for and counted, or given up when that count exceeds `limit`. Clock and counter wrap.
   */
  ghost predicate ByClock(
    last: U64, asks: U32, now: U64, each: U32, limit: U32, asked: bool, gone: bool, last': U64, asks': U32)
  {
    var gap := if last <= now then now - last else 0x1_0000_0000_0000_0000 - (last - now);
    var count := if asks < 0xFFFF_FFFF then asks + 1 else 0;
    if gap <= each then !asked && !gone && last' == last && asks' == asks
    else if count <= limit then asked && !gone && last' == now && asks' == count
    else !asked && gone
  }

  /** The entries that survive a tick, in list order. */
  function Poll(s: seq<Entry>, now: U64, each: U32, limit: U32): seq<Entry> {
    if s == [] then [] else
      var e := s[|s| - 1];
      Poll(s[..|s| - 1], now, each, limit) +
      if !Due(e, now, each) then [e]
      else if Bumped(e, now).asks > limit then []
      else [Bumped(e, now)]
  }

  /** The hashes asked for at a tick, in list order. */
  function Asked(s: seq<Entry>, now: U64, each: U32, limit: U32): seq<BlockHash> {
    if s == [] then [] else
      var e := s[|s| - 1];
      Asked(s[..|s| - 1], now, each, limit) +
      if Due(e, now, each) && Bumped(e, now).asks <= limit then [e.root] else []
  }

  /** One more entry at the end of the list. */
  lemma PollSnoc(past: seq<Entry>, e: Entry, now: U64, each: U32, limit: U32)
    ensures Poll(past + [e], now, each, limit) ==
            if !Due(e, now, each) then Poll(past, now, each, limit) + [e]
            else if Expired(e, now, each, limit) then Poll(past, now, each, limit)
            else Poll(past, now, each, limit) + [Bumped(e, now)]
    ensures Asked(past + [e], now, each, limit) ==
            if Due(e, now, each) && !Expired(e, now, each, limit)
            then Asked(past, now, each, limit) + [e.root] else Asked(past, now, each, limit)
  {
    assert (past + [e])[..|past|] == past;
  }

  lemma JoinTail<T>(a: seq<T>, b: seq<T>, x: T)
    ensures a + (b + [x]) == a + b + [x]
  {
  }

  /** A tick treats every entry alone, so what holds of one entry holds inside any list. */
  lemma {:induction false} PollIsLocal(s: seq<Entry>, t: seq<Entry>, now: U64, each: U32, limit: U32)
    ensures Poll(s + t, now, each, limit) == Poll(s, now, each, limit) + Poll(t, now, each, limit)
    ensures Asked(s + t, now, each, limit) == Asked(s, now, each, limit) + Asked(t, now, each, limit)
    decreases |t|
  {
    if t == [] {
      assert s + t == s;
      assert Poll([], now, each, limit) == [] && Asked([], now, each, limit) == [];
    } else {
      hide *;
      var before, e := t[..|t| - 1], t[|t| - 1];
      assert t == before + [e] && s + t == s + before + [e];
      PollIsLocal(s, before, now, each, limit);
      PollSnoc(before, e, now, each, limit);
      PollSnoc(s + before, e, now, each, limit);
      JoinTail(Poll(s, now, each, limit), Poll(before, now, each, limit), e);
      JoinTail(Poll(s, now, each, limit), Poll(before, now, each, limit), Bumped(e, now));
      JoinTail(Asked(s, now, each, limit), Asked(before, now, each, limit), e.root);
    }
  }

  // ------------------------------------------------------------------ one entry over many ticks

  /** The times at which one entry is asked for, over ticks at `times`, until it is given up. */
  function AskTimes(e: Entry, times: seq<U64>, each: U32, limit: U32): seq<U64>
    decreases |times|
  {
    if times == [] then []
    else if !Due(e, times[0], each) then AskTimes(e, times[1..], each, limit)
    else if Expired(e, times[0], each, limit) then []
    else [times[0]] + AskTimes(Bumped(e, times[0]), times[1..], each, limit)
  }

  ghost predicate Ascending(times: seq<U64>) {
    forall i, j | 0 <= i < j < |times| :: times[i] <= times[j]
  }

  lemma {:induction false} AskTimesAreTicks(e: Entry, times: seq<U64>, each: U32, limit: U32, t: U64)
    requires t in AskTimes(e, times, each, limit)
    ensures t in times
    decreases |times|
  {
    var tail := times[1..];
    if !Due(e, times[0], each) {
      AskTimesAreTicks(e, tail, each, limit, t);
    } else if t != times[0] {
      AskTimesAreTicks(Bumped(e, times[0]), tail, each, limit, t);
    }
  }

  /** Every time in `a` is more than `each` after `since`, and after every earlier one. */
  ghost predicate Spaced(a: seq<U64>, since: U64, each: U32) {
    && (forall i | 0 <= i < |a| :: a[i] > since + each)
    && (forall i, j | 0 <= i < j < |a| :: a[j] > a[i] + each)
  }

  lemma SpacedCons(t: U64, a: seq<U64>, since: U64, each: U32)
    requires t > since + each && Spaced(a, t, each)
    ensures Spaced([t] + a, since, each)
  {
    var b := [t] + a;
    forall i | 0 <= i < |b| ensures b[i] > since + each {
      assert i > 0 ==> b[i] == a[i - 1];
    }
    forall i, j | 0 <= i < j < |b| ensures b[j] > b[i] + each {
      assert b[j] == a[j - 1];
      assert i > 0 ==> b[i] == a[i - 1];
    }
  }

  /**
   * Under a clock that does not go back, two asks for one entry are more than `each` apart, and
   * between two re-rootings there are at most `limit` of them.  The bound needs `limit` below the
   * largest `uint32_t`: only then can the counter exceed it.
   */
  lemma {:induction false} AsksAreSpacedAndBounded(e: Entry, times: seq<U64>, each: U32, limit: U32)
    requires Ascending(times) && (forall t | t in times :: e.last <= t)
    ensures Spaced(AskTimes(e, times, each, limit), e.last, each)
    ensures limit < TWO32 - 1 && e.asks <= limit ==> |AskTimes(e, times, each, limit)| <= limit - e.asks
    decreases |times|
  {
    if times != [] {
      var tail := times[1..];
      assert times[0] in times && forall t | t in tail :: t in times;
      if !Due(e, times[0], each) {
        AsksAreSpacedAndBounded(e, tail, each, limit);
      } else if !Expired(e, times[0], each, limit) {
        var e' := Bumped(e, times[0]);
        forall t | t in tail ensures e'.last <= t {
          var i :| 0 <= i < |tail| && tail[i] == t;
          assert times[i + 1] == t;
        }
        AsksAreSpacedAndBounded(e', tail, each, limit);
        SpacedCons(times[0], AskTimes(e', tail, each, limit), e.last, each);
      }
    }
  }

  /** With the largest limit the counter wraps before it can exceed it: the entry never expires. */
  lemma LargestLimitNeverExpires(e: Entry, now: U64, each: U32)
    ensures !Expired(e, now, each, TWO32 - 1)
  {
  }
}
