/**
 * The books of the weak blocks: which are known, full and cited, the table of those whose
 * transactions are missing, and the table of requests that wait for an answer. One event is one
 * message handler, one mining call or one network tick.
 */
module WeakBooks {
  import opened Types

  datatype Limits = Limits(each: U32, atMost: U32, wait: U32)

  datatype Books = Books(
    known: set<BlockHash>,
    full: set<BlockHash>,
    cited: set<BlockHash>,
    nonFull: map<BlockHash, (nat, U64)>,
    waiting: map<BlockHash, U64>,
    processed: nat,
    received: nat)

  const EMPTY := Books({}, {}, {}, map[], map[], 0, 0)

  datatype Event =
    | ReceiveWeak(chain: nat, hash: BlockHash)
    | MineWeak(chain: nat, hash: BlockHash)
      /** A peer has the full block; `asked` tells whether it is asked to send it. */
    | HaveFull(chain: nat, hash: BlockHash, now: U64, asked: bool)
      /** A full block; `good` tells whether its transactions, hash and proof were accepted. */
    | FullBlock(chain: nat, hash: BlockHash, good: bool)
      /** The network tick announces missing blocks and drops requests that waited too long. */
    | Announce(now: U64, hashes: seq<BlockHash>)
      /** A strong block is mined and cites the listed weak blocks. */
    | Cite(chain: nat, hashes: seq<BlockHash>)
      /**
       * `set_weak_block_sited` is called with the citation list of a received block. That happens
       * only for a block that is found in the main tree when it arrives.
       */
    | Cited(chain: nat, hashes: seq<BlockHash>)

  predicate Increasing(q: seq<BlockHash>) {
    forall i, j | 0 <= i < j < |q| :: q[i] < q[j]
  }

  function Max(a: nat, b: nat): nat { if a < b then b else a }

  predicate DueAt(table: map<BlockHash, (nat, U64)>, h: BlockHash, now: U64, each: U32) {
    h in table && Elapsed(now, table[h].1) > each
  }

  /** The least due hashes, in increasing order, as many as one tick may announce. */
  ghost predicate Announced(table: map<BlockHash, (nat, U64)>, lim: Limits, now: U64, hashes: seq<BlockHash>) {
    && Increasing(hashes)
    && (forall h | h in hashes :: DueAt(table, h, now, lim.each))
    && |hashes| <= Max(1, lim.atMost)
    && (forall h | DueAt(table, h, now, lim.each) && h !in hashes ::
          |hashes| == Max(1, lim.atMost) && forall k | k in hashes :: k < h)
  }

  function Stamped(table: map<BlockHash, (nat, U64)>, hashes: seq<BlockHash>, now: U64): map<BlockHash, (nat, U64)> {
    map h | h in table :: (table[h].0, if h in hashes then now else table[h].1)
  }

  function Unexpired(waiting: map<BlockHash, U64>, now: U64, wait: U32): map<BlockHash, U64> {
    map h | h in waiting && Elapsed(now, waiting[h]) <= wait :: waiting[h]
  }

  // ------------------------------------------------------------------ the scan of one tick

  /** The table has been scanned up to the hashes in `todo`. */
  ghost predicate Scanned(
    table: map<BlockHash, (nat, U64)>, todo: set<BlockHash>, lim: Limits, now: U64, hashes: seq<BlockHash>) {
    && Increasing(hashes)
    && (forall h | h in hashes :: h !in todo && DueAt(table, h, now, lim.each))
    && (forall h | h !in todo && DueAt(table, h, now, lim.each) :: h in hashes)
    && (forall h, k | h in table && h !in todo && k in todo :: h < k)
  }

  lemma ScanBegins(table: map<BlockHash, (nat, U64)>, lim: Limits, now: U64)
    ensures Scanned(table, table.Keys, lim, now, []) && Stamped(table, [], now) == table
  {
  }

  lemma Unscanned(
    table: map<BlockHash, (nat, U64)>, todo: set<BlockHash>, lim: Limits,
    now: U64, hashes: seq<BlockHash>, h: BlockHash)
    requires Scanned(table, todo, lim, now, hashes) && todo <= table.Keys && h in todo
    ensures h in table && h !in hashes
    ensures DueAt(table, h, now, lim.each) <==> Elapsed(now, table[h].1) > lim.each
  {
  }

  lemma ScanNext(
    table: map<BlockHash, (nat, U64)>, todo: set<BlockHash>, lim: Limits,
    now: U64, hashes: seq<BlockHash>, h: BlockHash)
    requires Scanned(table, todo, lim, now, hashes) && todo <= table.Keys && Least(h, todo)
    ensures Scanned(table, todo - {h}, lim, now, if DueAt(table, h, now, lim.each) then hashes + [h] else hashes)
  {
    if DueAt(table, h, now, lim.each) {
      forall i | 0 <= i < |hashes| ensures hashes[i] < h {
        assert hashes[i] in hashes;
      }
    }
  }

  lemma ScanEnds(table: map<BlockHash, (nat, U64)>, todo: set<BlockHash>, lim: Limits, now: U64, hashes: seq<BlockHash>)
    requires Scanned(table, todo, lim, now, hashes) && |hashes| <= Max(1, lim.atMost)
    requires todo == {} || |hashes| == Max(1, lim.atMost)
    ensures Announced(table, lim, now, hashes)
  {
  }

  /** The next hash of the scan is not stamped yet. */
  lemma StampNext(table: map<BlockHash, (nat, U64)>, hashes: seq<BlockHash>, now: U64, h: BlockHash)
    requires h in table && h !in hashes
    ensures h in Stamped(table, hashes, now) && Stamped(table, hashes, now)[h] == table[h]
    ensures Stamped(table, hashes, now)[h := (table[h].0, now)] == Stamped(table, hashes + [h], now)
  {
  }

  predicate Least(h: BlockHash, s: set<BlockHash>) {
    h in s && forall k | k in s :: h <= k
  }

  lemma {:induction false} LeastExists(s: set<BlockHash>)
    requires s != {}
    ensures exists h :: h in s && Least(h, s)
  {
    var x :| x in s;
    assert forall k | k in s :: k == x || k in s - {x};
    if s - {x} == {} {
      assert Least(x, s);
    } else {
      LeastExists(s - {x});
      var h :| h in s - {x} && Least(h, s - {x});
      assert if h < x then Least(h, s) else Least(x, s);
    }
  }

  predicate Completes(chainOf: BlockHash -> nat, b: Books, e: Event) {
    e.FullBlock? && e.good && e.hash in b.known && e.hash !in b.full && chainOf(e.hash) == e.chain
  }

  function Registered(b: Books, c: nat, h: BlockHash): Books {
    b.(known := b.known + {h}, nonFull := b.nonFull[h := (c, 0)], received := b.received + 1)
  }

  function Filled(b: Books, h: BlockHash): Books {
    b.(full := b.full + {h}, nonFull := b.nonFull - {h}, waiting := b.waiting - {h}, processed := b.processed + 1)
  }

  function Requested(b: Books, h: BlockHash, now: U64): Books {
    b.(waiting := b.waiting[h := now])
  }

  /** The hashes that an event marks as cited. */
  ghost function Marks(chainOf: BlockHash -> nat, b: Books, e: Event): set<BlockHash> {
    match e
    case Cite(_, hashes) => set h | h in hashes
    case Cited(c, hashes) => set h | h in hashes && h in b.known && chainOf(h) == c
    case _ => {}
  }

  ghost predicate Step(chainOf: BlockHash -> nat, lim: Limits, b: Books, e: Event, b': Books) {
    match e
    case ReceiveWeak(c, h) => c == chainOf(h) && b' == if h in b.known then b else Registered(b, c, h)
    case MineWeak(c, h) =>
      && c == chainOf(h) && h !in b.known
      && b' == b.(known := b.known + {h}, full := b.full + {h})
    case HaveFull(c, h, now, asked) =>
      && asked == (!(h in b.full && chainOf(h) == c) && h !in b.waiting)
      && b' == if asked then Requested(b, h, now) else b
    case FullBlock(c, h, good) => b' == if Completes(chainOf, b, e) then Filled(b, h) else b
    case Announce(now, hashes) =>
      && Announced(b.nonFull, lim, now, hashes)
      && b' == b.(nonFull := Stamped(b.nonFull, hashes, now), waiting := Unexpired(b.waiting, now, lim.wait))
    case Cite(c, hashes) =>
      && NoRepeats(hashes)
      && (forall h :: h in hashes <==> h in b.full && h !in b.cited && chainOf(h) == c)
      && b' == b.(cited := b.cited + Marks(chainOf, b, e))
    case Cited(c, hashes) => b' == b.(cited := b.cited + Marks(chainOf, b, e))
  }

  /** The books after `i` events of a run that starts empty. */
  ghost predicate IsRun(chainOf: BlockHash -> nat, lim: Limits, books: seq<Books>, events: seq<Event>) {
    && |books| == |events| + 1
    && books[0] == EMPTY
    && forall i | 0 <= i < |events| :: Step(chainOf, lim, books[i], events[i], books[i + 1])
  }

  // ------------------------------------------------------------------ bookkeeping

  ghost predicate Sound(chainOf: BlockHash -> nat, b: Books) {
    && b.full <= b.known
    && b.cited <= b.known
    && b.nonFull.Keys == b.known - b.full
    && (forall h | h in b.nonFull :: b.nonFull[h].0 == chainOf(h))
    && b.received == b.processed + |b.nonFull|
  }

  lemma SoundStep(chainOf: BlockHash -> nat, lim: Limits, b: Books, e: Event, b': Books)
    requires Sound(chainOf, b) && Step(chainOf, lim, b, e, b')
    ensures Sound(chainOf, b')
  {
    hide Sound, Registered, Filled, Stamped, Unexpired, Announced, NoRepeats;
    match e
    case ReceiveWeak(c, h) =>
      if h !in b.known { RegisteredIsSound(chainOf, b, h); }
    case MineWeak(c, h) => MinedIsSound(chainOf, b, h);
    case HaveFull(_, _, _, _) => OthersAreSound(chainOf, b, b.nonFull, b'.waiting);
    case FullBlock(c, h, _) =>
      if Completes(chainOf, b, e) { FilledIsSound(chainOf, b, h); }
    case Announce(now, hashes) => OthersAreSound(chainOf, b, Stamped(b.nonFull, hashes, now), b'.waiting) by {
      SameKeysSameSize(b.nonFull, hashes, now);
    }
    case Cite(_, _) => MarkedIsSound(chainOf, b, b'.cited) by { CitedAreKnown(chainOf, b, e); }
    case Cited(_, _) => MarkedIsSound(chainOf, b, b'.cited);
  }

  /** The hash left both tables; its block was filled, or is not there. */
  lemma FilledOrForgotten(b: Books, h: BlockHash, b': Books)
    requires b'.known == b.known && b'.cited == b.cited && b'.received == b.received
    requires b'.nonFull == b.nonFull - {h} && b'.waiting == b.waiting - {h}
    ensures b'.full == b.full + {h} && b'.processed == b.processed + 1 ==> b' == Filled(b, h)
    ensures b'.full == b.full && b'.processed == b.processed ==>
              b' == b.(nonFull := b.nonFull - {h}, waiting := b.waiting - {h})
  {
  }

  lemma RegisteredIsSound(chainOf: BlockHash -> nat, b: Books, h: BlockHash)
    requires Sound(chainOf, b) && h !in b.known
    ensures Sound(chainOf, Registered(b, chainOf(h), h))
  {
    assert h !in b.nonFull;
  }

  lemma MinedIsSound(chainOf: BlockHash -> nat, b: Books, h: BlockHash)
    requires Sound(chainOf, b) && h !in b.known
    ensures Sound(chainOf, b.(known := b.known + {h}, full := b.full + {h}))
  {
  }

  lemma FilledIsSound(chainOf: BlockHash -> nat, b: Books, h: BlockHash)
    requires Sound(chainOf, b) && h in b.known && h !in b.full
    ensures Sound(chainOf, Filled(b, h))
  {
    OneKeyLess(b.nonFull, h);
  }

  /** The times in the tables do not matter. */
  lemma OthersAreSound(
    chainOf: BlockHash -> nat, b: Books, nonFull: map<BlockHash, (nat, U64)>, waiting: map<BlockHash, U64>)
    requires Sound(chainOf, b) && nonFull.Keys == b.nonFull.Keys && |nonFull| == |b.nonFull|
    requires forall h | h in nonFull :: h in b.nonFull && nonFull[h].0 == b.nonFull[h].0
    ensures Sound(chainOf, b.(nonFull := nonFull, waiting := waiting))
  {
  }

  lemma MarkedIsSound(chainOf: BlockHash -> nat, b: Books, cited: set<BlockHash>)
    requires Sound(chainOf, b) && cited <= b.cited + b.known
    ensures Sound(chainOf, b.(cited := cited))
  {
  }

  lemma CitedAreKnown(chainOf: BlockHash -> nat, b: Books, e: Event)
    requires Sound(chainOf, b) && e.Cite? && forall h | h in e.hashes :: h in b.full
    ensures Marks(chainOf, b, e) <= b.known
  {
  }

  lemma OneKeyLess(m: map<BlockHash, (nat, U64)>, h: BlockHash)
    requires h in m
    ensures (m - {h}).Keys == m.Keys - {h} && |m - {h}| + 1 == |m|
  {
    assert m == (m - {h})[h := m[h]];
  }

  lemma SameKeysSameSize(m: map<BlockHash, (nat, U64)>, hashes: seq<BlockHash>, now: U64)
    ensures var n := Stamped(m, hashes, now);
            n.Keys == m.Keys && |n| == |m| && forall h | h in n :: h in m && n[h].0 == m[h].0
  {
    var n := Stamped(m, hashes, now);
    assert n.Keys == m.Keys;
    assert |m| == |m.Keys| && |n| == |n.Keys|;
  }

  lemma ReceiveStep(chainOf: BlockHash -> nat, lim: Limits, b: Books, c: nat, h: BlockHash, b': Books)
    requires Sound(chainOf, b) && c == chainOf(h)
    requires b' == if h in b.known then b else Registered(b, c, h)
    ensures Step(chainOf, lim, b, ReceiveWeak(c, h), b') && Sound(chainOf, b')
  {
    SoundStep(chainOf, lim, b, ReceiveWeak(c, h), b');
  }

  lemma MineStep(chainOf: BlockHash -> nat, lim: Limits, b: Books, c: nat, h: BlockHash, b': Books)
    requires Sound(chainOf, b) && c == chainOf(h) && h !in b.known
    requires b' == b.(known := b.known + {h}, full := b.full + {h})
    ensures Step(chainOf, lim, b, MineWeak(c, h), b') && Sound(chainOf, b')
  {
    SoundStep(chainOf, lim, b, MineWeak(c, h), b');
  }

  lemma HaveFullStep(
    chainOf: BlockHash -> nat, lim: Limits, b: Books, c: nat, h: BlockHash, now: U64, asked: bool, b': Books)
    requires Sound(chainOf, b)
    requires asked == (!(h in b.full && chainOf(h) == c) && h !in b.waiting)
    requires b' == if asked then Requested(b, h, now) else b
    ensures Step(chainOf, lim, b, HaveFull(c, h, now, asked), b') && Sound(chainOf, b')
  {
    SoundStep(chainOf, lim, b, HaveFull(c, h, now, asked), b');
  }

  lemma FullBlockStep(chainOf: BlockHash -> nat, lim: Limits, b: Books, c: nat, h: BlockHash, good: bool, b': Books)
    requires Sound(chainOf, b)
    requires b' == if good && h in b.known && h !in b.full && chainOf(h) == c then Filled(b, h) else b
    ensures Step(chainOf, lim, b, FullBlock(c, h, good), b') && Sound(chainOf, b')
  {
    SoundStep(chainOf, lim, b, FullBlock(c, h, good), b');
  }

  lemma MarksGrow(chainOf: BlockHash -> nat, b: Books, c: nat, hashes: seq<BlockHash>, i: nat)
    requires i < |hashes|
    ensures Marks(chainOf, b, Cited(c, hashes[..i + 1])) ==
            Marks(chainOf, b, Cited(c, hashes[..i])) +
            if hashes[i] in b.known && chainOf(hashes[i]) == c then {hashes[i]} else {}
  {
    assert hashes[..i + 1] == hashes[..i] + [hashes[i]];
  }

  /**
   * In every state of every run the table of missing blocks holds exactly the known blocks that
   * are not full, each with its own chain, and every block received so far is processed or missing.
   */
  lemma {:induction false} BooksStaySound(
    chainOf: BlockHash -> nat, lim: Limits, books: seq<Books>, events: seq<Event>, i: nat)
    requires IsRun(chainOf, lim, books, events) && i <= |events|
    ensures Sound(chainOf, books[i])
  {
    if i > 0 {
      BooksStaySound(chainOf, lim, books, events, i - 1);
      SoundStep(chainOf, lim, books[i - 1], events[i - 1], books[i]);
    }
  }

  // ------------------------------------------------------------------ what is known and full

  predicate Brings(e: Event, h: BlockHash) {
    (e.ReceiveWeak? || e.MineWeak?) && e.hash == h
  }

  /** A block is known exactly when its message arrived or it was mined here. */
  lemma {:induction false} KnownIffBrought(
    chainOf: BlockHash -> nat, lim: Limits, books: seq<Books>, events: seq<Event>, h: BlockHash, k: nat)
    requires IsRun(chainOf, lim, books, events) && k <= |events|
    ensures |books| == |events| + 1
    ensures h in books[k].known <==> exists m :: 0 <= m < k && Brings(events[m], h)
  {
    if k > 0 {
      KnownIffBrought(chainOf, lim, books, events, h, k - 1);
      assert Step(chainOf, lim, books[k - 1], events[k - 1], books[k]);
      assert h in books[k].known <==> h in books[k - 1].known || Brings(events[k - 1], h);
    }
  }

  /** A good full block for its own chain, delivered when the block is known. */
  ghost predicate Delivers(chainOf: BlockHash -> nat, b: Books, e: Event, h: BlockHash) {
    e.FullBlock? && e.hash == h && e.good && e.chain == chainOf(h) && h in b.known
  }

  /** A block is full exactly when it was mined here or a good full block came while it was known. */
  lemma {:induction false} FullIffDelivered(
    chainOf: BlockHash -> nat, lim: Limits, books: seq<Books>, events: seq<Event>, h: BlockHash, k: nat)
    requires IsRun(chainOf, lim, books, events) && k <= |events|
    ensures |books| == |events| + 1
    ensures h in books[k].full <==>
              exists m :: 0 <= m < k &&
                          ((events[m].MineWeak? && events[m].hash == h) || Delivers(chainOf, books[m], events[m], h))
  {
    if k > 0 {
      FullIffDelivered(chainOf, lim, books, events, h, k - 1);
      var b, e := books[k - 1], events[k - 1];
      assert Step(chainOf, lim, b, e, books[k]);
      assert h in books[k].full <==> h in b.full || (e.MineWeak? && e.hash == h) || Delivers(chainOf, b, e, h);
    }
  }

  /** A completion takes the block out of both tables. */
  lemma CompletionClears(chainOf: BlockHash -> nat, lim: Limits, b: Books, e: Event, b': Books, h: BlockHash)
    requires Step(chainOf, lim, b, e, b') && Delivers(chainOf, b, e, h) && h !in b.full
    ensures h in b'.full && h !in b'.nonFull && h !in b'.waiting
    ensures b'.processed == b.processed + 1 && b'.received == b.received
  {
  }

  // ------------------------------------------------------------------ citations

  lemma {:induction false} SetsGrow(
    chainOf: BlockHash -> nat, lim: Limits, books: seq<Books>, events: seq<Event>, i: nat, j: nat)
    requires IsRun(chainOf, lim, books, events) && i <= j <= |events|
    ensures books[i].known <= books[j].known && books[i].full <= books[j].full && books[i].cited <= books[j].cited
  {
    if i < j {
      SetsGrow(chainOf, lim, books, events, i, j - 1);
      assert Step(chainOf, lim, books[j - 1], events[j - 1], books[j]);
    }
  }

  /**
   * No weak block is cited by two blocks mined here, nor by one mined here after it was marked for
   * a received block. A block mined here cites every full block of its chain that was left, each
   * once. Which citations of received blocks are marked is said in `Citations`.
   */
  lemma CitedOnce(chainOf: BlockHash -> nat, lim: Limits, books: seq<Books>, events: seq<Event>, i: nat, j: nat)
    requires IsRun(chainOf, lim, books, events) && i < j < |events| && events[j].Cite?
    ensures NoRepeats(events[j].hashes)
    ensures forall h | h in events[j].hashes :: h !in Marks(chainOf, books[i], events[i])
    ensures forall h | h in books[j].full && chainOf(h) == events[j].chain ::
              h in books[j].cited || h in events[j].hashes
  {
    assert Step(chainOf, lim, books[i], events[i], books[i + 1]);
    assert Step(chainOf, lim, books[j], events[j], books[j + 1]);
    SetsGrow(chainOf, lim, books, events, i + 1, j);
  }

  // ------------------------------------------------------------------ spacing of requests

  predicate Timed(e: Event) {
    e.HaveFull? || e.Announce?
  }

  /** The clock read by the events never goes back. */
  ghost predicate Clocked(events: seq<Event>) {
    forall i, j | 0 <= i < j < |events| && Timed(events[i]) && Timed(events[j]) :: events[i].now <= events[j].now
  }

  predicate AsksFor(e: Event, h: BlockHash) {
    e.HaveFull? && e.hash == h && e.asked
  }

  /** Some event before `k` came more than `gap` after time `t`. */
  ghost predicate Past(events: seq<Event>, k: nat, t: int, gap: int)
    requires k <= |events|
  {
    exists m :: 0 <= m < k && Timed(events[m]) && events[m].now - t > gap
  }

  /** Until the request is answered or dropped it waits with the time of the question. */
  lemma {:induction false} StillWaiting(chainOf: BlockHash -> nat, lim: Limits, books: seq<Books>, events: seq<Event>,
                                        h: BlockHash, i: nat, k: nat)
    requires IsRun(chainOf, lim, books, events) && Clocked(events) && i < k <= |events| && AsksFor(events[i], h)
    requires forall m | i < m < k && Completes(chainOf, books[m], events[m]) :: events[m].hash != h
    ensures Past(events, k, events[i].now, lim.wait)
            || (h in books[k].waiting && books[k].waiting[h] == events[i].now)
  {
    assert Step(chainOf, lim, books[k - 1], events[k - 1], books[k]);
    if k > i + 1 {
      StillWaiting(chainOf, lim, books, events, h, i, k - 1);
      var e := events[k - 1];
      if Past(events, k - 1, events[i].now, lim.wait) {
        var m :| 0 <= m < k - 1 && Timed(events[m]) && events[m].now - events[i].now > lim.wait;
        assert 0 <= m < k;
      } else if e.Announce? && h !in books[k].waiting {
        assert Elapsed(e.now, events[i].now) > lim.wait;
        assert Timed(events[k - 1]);
      }
    }
  }

  /**
   * Two questions for the full block of one hash, with no completion between them, are more than
   * the longest wait apart.
   */
  lemma AsksAreSpaced(chainOf: BlockHash -> nat, lim: Limits, books: seq<Books>, events: seq<Event>,
                      h: BlockHash, i: nat, j: nat)
    requires IsRun(chainOf, lim, books, events) && Clocked(events) && i < j < |events|
    requires AsksFor(events[i], h) && AsksFor(events[j], h)
    requires forall m | i < m < j && Completes(chainOf, books[m], events[m]) :: events[m].hash != h
    ensures events[j].now - events[i].now > lim.wait
  {
    StillWaiting(chainOf, lim, books, events, h, i, j);
    assert Step(chainOf, lim, books[j], events[j], books[j + 1]);
    var m :| 0 <= m < j && Timed(events[m]) && events[m].now - events[i].now > lim.wait;
    assert Timed(events[j]);
  }

  /** A tick keeps exactly the requests that are not older than the longest wait, with their times. */
  lemma OldRequestsGo(chainOf: BlockHash -> nat, lim: Limits, b: Books, e: Event, b': Books, h: BlockHash)
    requires Step(chainOf, lim, b, e, b') && e.Announce? && h in b.waiting && b.waiting[h] <= e.now
    ensures h in b'.waiting <==> e.now - b.waiting[h] <= lim.wait
    ensures h in b'.waiting ==> b'.waiting[h] == b.waiting[h]
  {
  }

  /** What one event does to a waiting request. */
  lemma WaitsOn(chainOf: BlockHash -> nat, lim: Limits, b: Books, e: Event, b': Books, h: BlockHash)
    requires Step(chainOf, lim, b, e, b') && h in b.waiting && (Timed(e) ==> b.waiting[h] <= e.now)
    ensures h in b'.waiting <==> !Settles(chainOf, lim, b, e, h, b.waiting[h])
    ensures h in b'.waiting ==> b'.waiting[h] == b.waiting[h]
  {
  }

  lemma WaitsFromNow(chainOf: BlockHash -> nat, lim: Limits, b: Books, e: Event, b': Books, h: BlockHash)
    requires Step(chainOf, lim, b, e, b') && h !in b.waiting
    ensures h in b'.waiting <==> AsksFor(e, h)
    ensures h in b'.waiting ==> b'.waiting[h] == e.now
  {
  }

  /**
   * The question of the `m`-th event still waits before the `k`-th: it was not put again, the block
   * was not completed, and no tick came more than the longest wait after it.
   */
  ghost predicate Pending(
    chainOf: BlockHash -> nat, lim: Limits, books: seq<Books>, events: seq<Event>, h: BlockHash, m: nat, k: nat)
    requires k <= |events| < |books|
  {
    && m < k && AsksFor(events[m], h)
    && forall n | m < n < k :: !Settles(chainOf, lim, books[n], events[n], h, events[m].now)
  }

  /** The event puts the question again, completes the block, or is a tick more than the longest wait after it. */
  ghost predicate Settles(chainOf: BlockHash -> nat, lim: Limits, b: Books, e: Event, h: BlockHash, asked: U64) {
    || AsksFor(e, h)
    || (Completes(chainOf, b, e) && e.hash == h)
    || (e.Announce? && e.now - asked > lim.wait)
  }

  /** In every state exactly the pending requests wait, each with the time of its question. */
  lemma {:induction false} WaitingIffPending(
    chainOf: BlockHash -> nat, lim: Limits, books: seq<Books>, events: seq<Event>, h: BlockHash, k: nat)
    requires IsRun(chainOf, lim, books, events) && Clocked(events) && k <= |events|
    ensures |books| == |events| + 1
    ensures h in books[k].waiting <==> exists m :: 0 <= m < k && Pending(chainOf, lim, books, events, h, m, k)
    ensures forall m | 0 <= m < k && Pending(chainOf, lim, books, events, h, m, k) ::
              h in books[k].waiting && books[k].waiting[h] == events[m].now
  {
    hide *;
    StepOfRun(chainOf, lim, books, events, if k == 0 then 0 else k - 1);
    if k > 0 {
      var b, e, b' := books[k - 1], events[k - 1], books[k];
      WaitingIffPending(chainOf, lim, books, events, h, k - 1);
      PendingNext(chainOf, lim, books, events, h, k - 1, k);
      if h in b.waiting {
        var m :| 0 <= m < k - 1 && Pending(chainOf, lim, books, events, h, m, k - 1);
        PendingAsks(chainOf, lim, books, events, h, k - 1);
        ClockOfRun(events, m, k - 1);
        WaitsOn(chainOf, lim, b, e, b', h);
        OneAsk(chainOf, lim, b, e, b', h);
        assert Pending(chainOf, lim, books, events, h, m, k) <==> !Settles(chainOf, lim, b, e, h, events[m].now);
      } else {
        WaitsFromNow(chainOf, lim, b, e, b', h);
        assert Pending(chainOf, lim, books, events, h, k - 1, k) <==> AsksFor(e, h);
      }
      PendingAsks(chainOf, lim, books, events, h, k);
    }
  }

  lemma PendingAsks(
    chainOf: BlockHash -> nat, lim: Limits, books: seq<Books>, events: seq<Event>, h: BlockHash, k: nat)
    requires k <= |events| < |books|
    ensures forall m: nat | m < k && Pending(chainOf, lim, books, events, h, m, k) ::
              AsksFor(events[m], h) && events[m].HaveFull? && Timed(events[m])
  {
  }

  lemma ClockOfRun(events: seq<Event>, a: nat, b: nat)
    requires Clocked(events) && a < b < |events| && Timed(events[a])
    ensures Timed(events[b]) ==> (events[b].HaveFull? || events[b].Announce?) && events[a].now <= events[b].now
  {
  }

  lemma OneAsk(chainOf: BlockHash -> nat, lim: Limits, b: Books, e: Event, b': Books, h: BlockHash)
    requires Step(chainOf, lim, b, e, b') && h in b.waiting
    ensures !AsksFor(e, h)
  {
  }

  /** One event later the pending questions are those that it does not settle, and its own. */
  lemma PendingNext(
    chainOf: BlockHash -> nat, lim: Limits, books: seq<Books>, events: seq<Event>, h: BlockHash, k: nat, j: nat)
    requires k < |events| < |books| && j == k + 1
    ensures forall m: nat | m < k ::
              Pending(chainOf, lim, books, events, h, m, j) <==>
              && Pending(chainOf, lim, books, events, h, m, k)
              && !Settles(chainOf, lim, books[k], events[k], h, events[m].now)
    ensures Pending(chainOf, lim, books, events, h, k, j) <==> AsksFor(events[k], h)
  {
    hide Settles;
  }

  /**
   * An offer is taken up exactly when the block is not full in the chain named and no question for
   * it is pending. So once a tick comes more than the longest wait after an unanswered question,
   * the next offer is asked for again.
   */
  lemma OfferIsTakenUp(
    chainOf: BlockHash -> nat, lim: Limits, books: seq<Books>, events: seq<Event>, h: BlockHash, j: nat)
    requires IsRun(chainOf, lim, books, events) && Clocked(events) && j < |events|
    requires events[j].HaveFull? && events[j].hash == h
    ensures |books| == |events| + 1
    ensures events[j].asked <==>
              && !(h in books[j].full && chainOf(h) == events[j].chain)
              && !exists m :: 0 <= m < j && Pending(chainOf, lim, books, events, h, m, j)
  {
    WaitingIffPending(chainOf, lim, books, events, h, j);
    assert Step(chainOf, lim, books[j], events[j], books[j + 1]);
  }

  /** A question that a tick has outlived does not keep the next offer from being taken up. */
  lemma LateOfferIsTakenUp(
    chainOf: BlockHash -> nat, lim: Limits, books: seq<Books>, events: seq<Event>, h: BlockHash,
    i: nat, k: nat, j: nat)
    requires IsRun(chainOf, lim, books, events) && Clocked(events) && i < k < j < |events|
    requires AsksFor(events[i], h) && events[k].Announce? && events[k].now - events[i].now > lim.wait
    requires forall m | i < m < j :: !AsksFor(events[m], h)
    requires events[j].HaveFull? && events[j].hash == h && !(h in books[j].full && chainOf(h) == events[j].chain)
    ensures events[j].asked
  {
    OfferIsTakenUp(chainOf, lim, books, events, h, j);
    forall m | 0 <= m < j ensures !Pending(chainOf, lim, books, events, h, m, j) {
      if m < i && AsksFor(events[m], h) {
        assert Settles(chainOf, lim, books[i], events[i], h, events[m].now);
      } else if m == i {
        assert Settles(chainOf, lim, books[k], events[k], h, events[m].now);
      }
    }
  }

  /**
   * After a block is complete, an offer of it is taken up again exactly when the message names
   * another chain than the block's own and no request waits.
   */
  lemma NoAskAfterCompletion(
    chainOf: BlockHash -> nat, lim: Limits, books: seq<Books>, events: seq<Event>, i: nat, j: nat)
    requires IsRun(chainOf, lim, books, events) && i < j < |events|
    requires Completes(chainOf, books[i], events[i]) && events[j].HaveFull? && events[j].hash == events[i].hash
    ensures events[j].asked <==> events[j].chain != chainOf(events[j].hash) && events[j].hash !in books[j].waiting
  {
    CompletedStaysFull(chainOf, lim, books, events, i, j);
    assert Step(chainOf, lim, books[j], events[j], books[j + 1]);
  }

  /** A stamp in the table of missing blocks is the time of an announcement. */
  ghost predicate StampedSince(b: Books, events: seq<Event>, h: BlockHash, i: nat, k: nat)
    requires k <= |events|
  {
    && h in b.known
    && (h in b.nonFull ==>
          exists m :: i <= m < k && events[m].Announce? && b.nonFull[h].1 == events[m].now)
  }

  /** What one event does to the entry of a known block. */
  lemma OneEntry(chainOf: BlockHash -> nat, lim: Limits, b: Books, e: Event, b': Books, h: BlockHash)
    requires Step(chainOf, lim, b, e, b') && h in b.known
    ensures h in b'.known
    ensures h in b'.nonFull ==> h in b.nonFull
    ensures h in b'.nonFull ==> b'.nonFull[h].1 == if e.Announce? && h in e.hashes then e.now else b.nonFull[h].1
    ensures e.Announce? && h in e.hashes ==> h in b.nonFull && Elapsed(e.now, b.nonFull[h].1) > lim.each
  {
    hide Increasing;
    if e.Announce? && h in e.hashes {
      assert DueAt(b.nonFull, h, e.now, lim.each);
    }
  }

  lemma {:induction false} StampStays(chainOf: BlockHash -> nat, lim: Limits, books: seq<Books>, events: seq<Event>,
                                      h: BlockHash, i: nat, k: nat)
    requires IsRun(chainOf, lim, books, events) && i < k <= |events|
    requires events[i].Announce? && h in events[i].hashes
    ensures StampedSince(books[k], events, h, i, k)
  {
    hide Step, Sound;
    var b, e, b' := books[k - 1], events[k - 1], books[k];
    if k == i + 1 {
      BooksStaySound(chainOf, lim, books, events, i);
      AnnouncedIsKnown(chainOf, lim, b, e, b', h);
    } else {
      StampStays(chainOf, lim, books, events, h, i, k - 1);
    }
    OneEntry(chainOf, lim, b, e, b', h);
    if h in b'.nonFull && e.Announce? && h in e.hashes {
      assert b'.nonFull[h].1 == events[k - 1].now;
    } else if h in b'.nonFull {
      var m :| i <= m < k - 1 && events[m].Announce? && b.nonFull[h].1 == events[m].now;
      assert i <= m < k && b'.nonFull[h].1 == events[m].now;
    }
  }

  lemma AnnouncedIsKnown(chainOf: BlockHash -> nat, lim: Limits, b: Books, e: Event, b': Books, h: BlockHash)
    requires Step(chainOf, lim, b, e, b') && Sound(chainOf, b) && e.Announce? && h in e.hashes
    ensures h in b.known && h !in b.full
  {
    assert DueAt(b.nonFull, h, e.now, lim.each);
  }

  /** The missing blocks that were last announced more than `each` ago, by the clock alone. */
  ghost function DueBelow(table: map<BlockHash, (nat, U64)>, each: U32, now: U64, h: BlockHash): set<BlockHash> {
    set k | k in table && k < h && IsDue(table[k].1, each, now)
  }

  predicate IsDue(stamp: U64, each: U32, now: U64) {
    (if stamp <= now then now - stamp else 0x1_0000_0000_0000_0000 - (stamp - now)) > each
  }

  /**
   * A tick announces a missing block exactly when it is due and fewer than `atMost` smaller ones are,
   * or it is the smallest due one: so a block waits only for smaller ones.
   */
  lemma AnnouncedIffAmongLeast(
    chainOf: BlockHash -> nat, lim: Limits, b: Books, e: Event, b': Books, h: BlockHash)
    requires Step(chainOf, lim, b, e, b') && e.Announce?
    ensures var smaller := |DueBelow(b.nonFull, lim.each, e.now, h)|;
            h in e.hashes <==>
              h in b.nonFull && IsDue(b.nonFull[h].1, lim.each, e.now) && (smaller == 0 || smaller < lim.atMost)
  {
    var due := DueBelow(b.nonFull, lim.each, e.now, h);
    var q := e.hashes;
    assert forall k ::
        DueAt(b.nonFull, k, e.now, lim.each) <==> k in b.nonFull && IsDue(b.nonFull[k].1, lim.each, e.now);
    if i :| 0 <= i < |q| && q[i] == h {
      forall k ensures k in due <==> k in q[..i] {
        if k in due {
          assert k in q;
          var j :| 0 <= j < |q| && q[j] == k;
          assert j < i && q[..i][j] == k;
        }
        if k in q[..i] {
          var j :| 0 <= j < i && q[..i][j] == k;
          assert q[j] == k && k in q;
        }
      }
      SizeOfDistinct(q[..i], due);
    } else if h in b.nonFull && IsDue(b.nonFull[h].1, lim.each, e.now) {
      forall k | k in q ensures k in due {
      }
      SizeOfDistinct(q, Members(q));
      SubsetIsSmaller(Members(q), due);
    }
  }

  lemma {:induction false} SizeOfDistinct(q: seq<BlockHash>, s: set<BlockHash>)
    requires Increasing(q) && forall k :: k in q <==> k in s
    ensures |s| == |q|
  {
    if q == [] {
      assert s == {};
    } else {
      var last, rest := q[|q| - 1], q[..|q| - 1];
      forall k ensures k in rest <==> k in s - {last} {
        if k in rest {
          var j :| 0 <= j < |rest| && rest[j] == k;
          assert q[j] == k;
        }
        if k in s - {last} {
          var j :| 0 <= j < |q| && q[j] == k;
          assert rest[j] == k;
        }
      }
      SizeOfDistinct(rest, s - {last});
    }
  }

  lemma SubsetIsSmaller(a: set<BlockHash>, b: set<BlockHash>)
    requires a <= b
    ensures |a| <= |b|
  {
    assert b == a + (b - a);
  }

  /** The stamp of a missing block is the time of its last announcement, or 0 if there was none. */
  ghost predicate LastAnnounced(events: seq<Event>, h: BlockHash, k: nat, stamp: U64)
    requires k <= |events|
  {
    if k == 0 then stamp == 0
    else if events[k - 1].Announce? && h in events[k - 1].hashes then stamp == events[k - 1].now
    else LastAnnounced(events, h, k - 1, stamp)
  }

  /** One event more. */
  lemma NextStamp(events: seq<Event>, h: BlockHash, k: nat, stamp: U64)
    requires k < |events|
    ensures LastAnnounced(events, h, 0, 0)
    ensures LastAnnounced(events, h, k + 1, stamp) <==>
            if events[k].Announce? && h in events[k].hashes then stamp == events[k].now
            else LastAnnounced(events, h, k, stamp)
  {
  }

  lemma StepOfRun(chainOf: BlockHash -> nat, lim: Limits, books: seq<Books>, events: seq<Event>, k: nat)
    requires IsRun(chainOf, lim, books, events)
    ensures |books| == |events| + 1 && books[0].nonFull == map[] && books[0].waiting == map[]
    ensures k < |events| ==> Step(chainOf, lim, books[k], events[k], books[k + 1])
  {
  }

  lemma {:induction false} NeverAnnounced(
    chainOf: BlockHash -> nat, lim: Limits, books: seq<Books>, events: seq<Event>, h: BlockHash, k: nat)
    requires IsRun(chainOf, lim, books, events) && k <= |events| && |books| == |events| + 1 && h !in books[k].known
    ensures LastAnnounced(events, h, k, 0)
  {
    if k > 0 {
      hide *;
      var b, e, b' := books[k - 1], events[k - 1], books[k];
      StepOfRun(chainOf, lim, books, events, k - 1);
      SetsGrow(chainOf, lim, books, events, k - 1, k);
      NeverAnnounced(chainOf, lim, books, events, h, k - 1);
      BooksStaySound(chainOf, lim, books, events, k - 1);
      NextStamp(events, h, k - 1, 0);
      if e.Announce? && h in e.hashes {
        AnnouncedIsKnown(chainOf, lim, b, e, b', h);
      }
    }
  }

  lemma OneStamp(chainOf: BlockHash -> nat, lim: Limits, b: Books, e: Event, b': Books, h: BlockHash)
    requires Step(chainOf, lim, b, e, b') && h in b.known && h in b'.nonFull
    ensures h in b.nonFull
    ensures if e.Announce? && h in e.hashes then b'.nonFull[h].1 == e.now else b'.nonFull[h].1 == b.nonFull[h].1
  {
    hide Step;
    OneEntry(chainOf, lim, b, e, b', h);
  }

  lemma NewEntry(chainOf: BlockHash -> nat, lim: Limits, b: Books, e: Event, b': Books, h: BlockHash)
    requires Step(chainOf, lim, b, e, b') && Sound(chainOf, b) && h !in b.known && h in b'.nonFull
    ensures e.ReceiveWeak? && b'.nonFull[h].1 == 0
  {
  }

  lemma {:induction false} StampIsLastAnnouncement(
    chainOf: BlockHash -> nat, lim: Limits, books: seq<Books>, events: seq<Event>, h: BlockHash, k: nat)
    requires IsRun(chainOf, lim, books, events) && k <= |events| && |books| == |events| + 1 && h in books[k].nonFull
    ensures LastAnnounced(events, h, k, books[k].nonFull[h].1)
  {
    hide *;
    NotMissingYet(chainOf, lim, books, events, h);
    if k > 0 {
      StepOfRun(chainOf, lim, books, events, k - 1);
      BooksStaySound(chainOf, lim, books, events, k - 1);
      NextStamp(events, h, k - 1, books[k].nonFull[h].1);
      if h in books[k - 1].known {
        OneStamp(chainOf, lim, books[k - 1], events[k - 1], books[k], h);
        StampIsLastAnnouncement(chainOf, lim, books, events, h, k - 1);
      } else {
        NewEntry(chainOf, lim, books[k - 1], events[k - 1], books[k], h);
        NeverAnnounced(chainOf, lim, books, events, h, k - 1);
      }
    }
  }

  lemma NotMissingYet(chainOf: BlockHash -> nat, lim: Limits, books: seq<Books>, events: seq<Event>, h: BlockHash)
    requires IsRun(chainOf, lim, books, events)
    ensures h !in books[0].nonFull
  {
  }

  /**
   * Two announcements of one missing block are more than their own gap apart, and a block is
   * never announced once it is complete.
   */
  lemma AnnouncementsAreSpaced(chainOf: BlockHash -> nat, lim: Limits, books: seq<Books>, events: seq<Event>,
                               h: BlockHash, i: nat, j: nat)
    requires IsRun(chainOf, lim, books, events) && Clocked(events) && i < j < |events|
    requires events[i].Announce? && h in events[i].hashes && events[j].Announce? && h in events[j].hashes
    ensures events[j].now - events[i].now > lim.each
    ensures forall m | 0 <= m < j && Completes(chainOf, books[m], events[m]) :: events[m].hash != h
  {
    hide Step, Sound;
    StampStays(chainOf, lim, books, events, h, i, j);
    BooksStaySound(chainOf, lim, books, events, j);
    AnnouncedIsKnown(chainOf, lim, books[j], events[j], books[j + 1], h);
    OneEntry(chainOf, lim, books[j], events[j], books[j + 1], h);
    var m :| i <= m < j && events[m].Announce? && books[j].nonFull[h].1 == events[m].now;
    assert Timed(events[i]) && Timed(events[m]) && Timed(events[j]);
    forall m | 0 <= m < j && Completes(chainOf, books[m], events[m]) ensures events[m].hash != h {
      CompletedStaysFull(chainOf, lim, books, events, m, j);
    }
  }

  lemma CompletedStaysFull(
    chainOf: BlockHash -> nat, lim: Limits, books: seq<Books>, events: seq<Event>, i: nat, j: nat)
    requires IsRun(chainOf, lim, books, events) && i < j < |events| && Completes(chainOf, books[i], events[i])
    ensures events[i].hash in books[j].full
  {
    assert Step(chainOf, lim, books[i], events[i], books[i + 1]);
    SetsGrow(chainOf, lim, books, events, i + 1, j);
  }
}
