/**
 * Framing of the byte stream between two peers. A message starts with `#`; the sender appends `!`.
 * A reader appends what arrives to a buffer and hands the complete messages to their handlers.
 */
module Framing {
  import opened Types
  import Tokens

  /**
   * What the handlers do with a message: whether they accept its fields, and the key under which one
   * call recognises a message that it has seen already. A message with too few fields is rejected
   * before its key is looked at: `ok` is false and there is no key. One of no known kind is passed
   * over without being rejected: `ok` is true and there is no key.
   */
  datatype Handler = Handler(ok: string -> bool, key: string -> Option<string>)

  predicate Seen(h: Handler, msg: string, passed: set<string>) {
    h.key(msg).Some? && h.key(msg).value in passed
  }

  predicate Rejected(h: Handler, msg: string, passed: set<string>) {
    Seen(h, msg, passed) || !h.ok(msg)
  }

  /** The keys known after a message was looked at, rejected or not. */
  function Register(h: Handler, msg: string, passed: set<string>): set<string> {
    if h.key(msg).Some? then passed + {h.key(msg).value} else passed
  }

  /** The messages that were handled, and what stays in the buffer. */
  datatype Out = Out(done: seq<string>, rest: string)

  /** The first `#` at or after `i`, or the end. */
  function NextHash(s: string, i: nat): nat
    requires i <= |s|
  {
    Tokens.Find(s, '#', i)
  }

  /**
   * Handles the pieces of `s`, each from one `#` up to the next. An unfinished piece stops the scan;
   * so does a rejected message at the very end, and it stays in the buffer.
   */
  function Scan(h: Handler, s: string, passed: set<string>): Out
    requires s != "" && s[0] == '#'
    decreases |s|
  {
    var j := NextHash(s, 1);
    if s[j - 1] != '!' then Out([], s)
    else
      var msg := s[..j - 1];
      var rejected := Rejected(h, msg, passed);
      if j == |s| then (if rejected then Out([], s) else Out([msg], ""))
      else
        var more := Scan(h, s[j..], Register(h, msg, passed));
        Out((if rejected then [] else [msg]) + more.done, more.rest)
  }

  function Process(h: Handler, m: string): Out {
    if m == "" || m[0] != '#' then Out([], "") else Scan(h, m, {})
  }

  // ------------------------------------------------------------------ the loops of the reader

  /** All positions of `#` before `upTo`, where the next one stands. */
  ghost predicate IsPositions(m: string, positions: seq<nat>, upTo: nat) {
    && upTo <= |m|
    && (forall i | 0 <= i < |positions| :: positions[i] < upTo && m[positions[i]] == '#')
    && (forall i | 0 <= i < |positions| - 1 :: positions[i + 1] == NextHash(m, positions[i] + 1))
    && (if positions == [] then upTo == 0 else positions[0] == 0 && NextHash(m, positions[|positions| - 1] + 1) == upTo)
  }

  method Find(m: string, from: nat) returns (pos: nat)
    requires from <= |m|
    ensures pos == NextHash(m, from)
  {
    pos := from;
    while pos < |m| && m[pos] != '#'
      invariant from <= pos <= |m| && NextHash(m, pos) == NextHash(m, from)
    {
      pos := pos + 1;
    }
  }

  method Positions(m: string) returns (positions: seq<nat>)
    requires m != "" && m[0] == '#'
    ensures |positions| > 1 && IsPositions(m, positions[..|positions| - 1], |m|)
    ensures positions[|positions| - 1] == |m| + 1
  {
    hide IsPositions, NextHash;
    positions := [];
    var pos := Find(m, 0);
    NoPositions(m);
    while pos < |m|
      invariant pos <= |m| && IsPositions(m, positions, pos)
      invariant pos < |m| ==> m[pos] == '#'
      decreases |m| - pos
    {
      var next := Find(m, pos + 1);
      PositionsGrow(m, positions, pos);
      positions := positions + [pos];
      pos := next;
    }
    ghost var found := positions;
    positions := positions + [|m| + 1];
    assert positions[..|positions| - 1] == found;
    assert found != [] by { NotEmpty(m, found); }
  }

  lemma NotEmpty(m: string, positions: seq<nat>)
    requires m != "" && IsPositions(m, positions, |m|)
    ensures positions != []
  {
  }

  lemma NoPositions(m: string)
    requires m != "" && m[0] == '#'
    ensures NextHash(m, 0) == 0 && IsPositions(m, [], 0)
  {
  }

  lemma PositionsGrow(m: string, positions: seq<nat>, pos: nat)
    requires pos < |m| && m[pos] == '#' && IsPositions(m, positions, pos)
    ensures var next := NextHash(m, pos + 1);
            pos < next <= |m| && (next < |m| ==> m[next] == '#') && IsPositions(m, positions + [pos], next)
  {
  }

  method ProcessBuffer(h: Handler, m: string) returns (done: seq<string>, m': string)
    ensures Out(done, m') == Process(h, m)
    ensures m == "" || m[0] != '#' ==> done == [] && m' == ""
  {
    hide Scan, NextHash, IsPositions;
    done, m' := [], "";
    if m == "" || m[0] != '#' {
      return;
    }
    var passed: set<string> := {};
    var positions := Positions(m);
    var p := 0;
    ghost var n := |positions| - 1;
    FirstPosition(m, positions[..n]);
    while p < |positions| - 1
      invariant 0 <= p <= n
      invariant Scan(h, m, {}) == After(done, ScanAt(h, m, positions[p], passed))
    {
      PieceEnds(m, positions[..n], p);
      ScanStep(h, m, positions[p], passed);
      var w := m[positions[p]..if positions[p + 1] < |m| then positions[p + 1] else |m|];
      if w[|w| - 1] != '!' {
        break;
      }
      WithoutLast(m, positions[p], NextHash(m, positions[p] + 1));
      w := w[..|w| - 1];
      var rejected := Rejected(h, w, passed);
      if rejected && p + 2 == |positions| {
        break;
      }
      passed := Register(h, w, passed);
      AfterAfter(done, if rejected then [] else [w], ScanAt(h, m, positions[p + 1], passed));
      if !rejected {
        done := done + [w];
      }
      p := p + 1;
    }
    m' := if positions[p] < |m| then m[positions[p]..] else "";
  }

  lemma WithoutLast(m: string, i: nat, j: nat)
    requires i < j <= |m|
    ensures m[i..j][..j - i - 1] == m[i..j - 1]
  {
  }

  ghost function After(done: seq<string>, more: Out): Out {
    Out(done + more.done, more.rest)
  }

  lemma AfterAfter(a: seq<string>, b: seq<string>, more: Out)
    ensures After(a, After(b, more)) == After(a + b, more)
  {
    assert a + (b + more.done) == a + b + more.done;
  }

  /** The scan from the `#` at `i`, or from past the end. */
  ghost function ScanAt(h: Handler, m: string, i: nat, passed: set<string>): Out {
    if i < |m| && m[i] == '#' then Scan(h, m[i..], passed) else Out([], "")
  }

  lemma ScanStep(h: Handler, m: string, i: nat, passed: set<string>)
    requires i < |m| && m[i] == '#'
    ensures var j := NextHash(m, i + 1);
            var msg := m[i..j - 1];
            var rejected := Rejected(h, msg, passed);
            && i < j
            && ScanAt(h, m, i, passed) ==
               if m[j - 1] != '!' || (rejected && j == |m|) then Out([], m[i..])
               else After(if rejected then [] else [msg], ScanAt(h, m, j, Register(h, msg, passed)))
  {
    var s, j := m[i..], NextHash(m, i + 1);
    Tokens.FindInSuffix(m, '#', i, 1);
    assert s[..j - i - 1] == m[i..j - 1] && s[j - i..] == m[j..];
  }

  lemma FirstPosition(m: string, positions: seq<nat>)
    requires IsPositions(m, positions, |m|) && positions != [] && m != "" && m[0] == '#'
    ensures positions[0] == 0 && m[0..] == m
  {
  }

  /** The piece that starts at the `p`-th `#` ends where the next `#` stands. */
  lemma PieceEnds(m: string, positions: seq<nat>, p: nat)
    requires IsPositions(m, positions, |m|) && p < |positions|
    ensures positions[p] < |m| && m[positions[p]] == '#'
    ensures var j := NextHash(m, positions[p] + 1);
            && positions[p] < j
            && (if p + 1 < |positions| then j == positions[p + 1] < |m| else j == |m|)
  {
  }

  // ------------------------------------------------------------------ what a peer sends

  /** What the peer sends for a list of messages. */
  function Sent(msgs: seq<string>): string {
    if msgs == [] then "" else msgs[0] + "!" + Sent(msgs[1..])
  }

  predicate IsMessage(m: string) {
    m != "" && m[0] == '#' && forall i | 0 < i < |m| :: m[i] != '#' && m[i] != '!'
  }

  predicate AllMessages(msgs: seq<string>) {
    forall i | 0 <= i < |msgs| :: IsMessage(msgs[i])
  }

  function Handled(h: Handler, msgs: seq<string>): seq<string> {
    if msgs == [] then [] else (if h.ok(msgs[0]) then [msgs[0]] else []) + Handled(h, msgs[1..])
  }

  /** What stays in the buffer: the unfinished message, or a rejected one that is the last so far. */
  function Kept(h: Handler, msgs: seq<string>, tail: string): string {
    if tail == "" && msgs != [] && !h.ok(msgs[|msgs| - 1]) then msgs[|msgs| - 1] + "!" else tail
  }

  /** Nothing, or the beginning of a message. */
  predicate Unfinished(t: string) {
    t == "" || IsMessage(t)
  }

  /** No message that parses repeats the key that an earlier one registered. */
  predicate FreshKeys(h: Handler, msgs: seq<string>) {
    forall i, j | 0 <= i < j < |msgs| && h.ok(msgs[j]) && h.key(msgs[j]).Some? :: h.key(msgs[i]) != h.key(msgs[j])
  }

  predicate Unseen(h: Handler, msgs: seq<string>, passed: set<string>) {
    FreshKeys(h, msgs) && forall i | 0 <= i < |msgs| && h.ok(msgs[i]) :: !Seen(h, msgs[i], passed)
  }

  /** A buffer of complete messages and an unfinished one: all is handled but what `Kept` says. */
  lemma {:induction false} ScanIsCut(h: Handler, msgs: seq<string>, tail: string, passed: set<string>)
    requires AllMessages(msgs) && Unfinished(tail) && Unseen(h, msgs, passed)
    requires Sent(msgs) + tail != ""
    ensures var s := Sent(msgs) + tail;
            s[0] == '#' && Scan(h, s, passed) == Out(Handled(h, msgs), Kept(h, msgs, tail))
  {
    hide NextHash, IsMessage, AllMessages, Unseen, FreshKeys;
    var s := Sent(msgs) + tail;
    if msgs == [] {
      assert s == tail;
      TailPiece(tail);
    } else {
      var m, t := msgs[0], Sent(msgs[1..]) + tail;
      assert s == m + "!" + t;
      RestUnseen(h, msgs, passed);
      FirstPiece(m, t, msgs[1..], tail);
      if t == "" {
        NothingSent(msgs[1..], tail);
      } else {
        ScanIsCut(h, msgs[1..], tail, Register(h, m, passed));
      }
    }
  }

  lemma TailPiece(tail: string)
    requires IsMessage(tail)
    ensures tail[0] == '#' && NextHash(tail, 1) == |tail| && tail[|tail| - 1] != '!'
  {
  }

  lemma RestUnseen(h: Handler, msgs: seq<string>, passed: set<string>)
    requires AllMessages(msgs) && msgs != [] && Unseen(h, msgs, passed)
    ensures IsMessage(msgs[0]) && AllMessages(msgs[1..])
    ensures (h.ok(msgs[0]) ==> !Seen(h, msgs[0], passed)) && Unseen(h, msgs[1..], Register(h, msgs[0], passed))
  {
  }

  lemma NothingSent(msgs: seq<string>, tail: string)
    requires Sent(msgs) + tail == ""
    ensures msgs == [] && tail == ""
  {
  }

  /** The next message starts right behind the `!` of the first. */
  lemma FirstPiece(m: string, t: string, msgs: seq<string>, tail: string)
    requires IsMessage(m) && AllMessages(msgs) && Unfinished(tail) && t == Sent(msgs) + tail
    ensures var s := m + "!" + t;
            && s[0] == '#' && NextHash(s, 1) == |m| + 1 && s[|m|] == '!' && s[..|m|] == m && s[|m| + 1..] == t
            && (t != "" ==> t[0] == '#')
  {
    var s := m + "!" + t;
    assert t != "" ==> t[0] == '#' by {
      if msgs != [] { assert t == msgs[0] + ("!" + Sent(msgs[1..]) + tail); }
    }
    assert forall k | 1 <= k < |m| :: s[k] == m[k];
    assert s[|m|] == '!' && (t != "" ==> s[|m| + 1] == t[0]);
    assert s[|m| + 1..] == t;
  }

  // ------------------------------------------------------------------ independence of the reads

  function Concat(chunks: seq<string>): string {
    if chunks == [] then "" else chunks[0] + Concat(chunks[1..])
  }

  /** The reads append to the buffer one after the other, and each is processed at once. */
  function Feed(h: Handler, buffer: string, chunks: seq<string>): Out
    decreases |chunks|
  {
    if chunks == [] then Out([], buffer)
    else
      var o := Process(h, buffer + chunks[0]);
      var more := Feed(h, o.rest, chunks[1..]);
      Out(o.done + more.done, more.rest)
  }

  /** The first `n` bytes are `k` complete messages and the beginning `t` of the next one. */
  ghost predicate EndsIn(msgs: seq<string>, tail: string, n: nat, k: nat, t: string) {
    var s := Sent(msgs) + tail;
    && n <= |s| && k <= |msgs| && Unfinished(t)
    && s[..n] == Sent(msgs[..k]) + t
    && t + s[n..] == Sent(msgs[k..]) + tail
  }

  /** Where a read ends: after some complete messages, inside the next one. */
  lemma {:induction false} ReadEnds(msgs: seq<string>, tail: string, n: nat) returns (k: nat, t: string)
    requires AllMessages(msgs) && Unfinished(tail) && n <= |Sent(msgs) + tail|
    ensures EndsIn(msgs, tail, n, k, t)
  {
    hide EndsIn, IsMessage;
    if msgs == [] {
      k, t := 0, tail[..n];
      EndsInTail(tail, n);
    } else if n <= |msgs[0]| {
      k, t := 0, msgs[0][..n];
      EndsInFirst(msgs, tail, n);
    } else {
      assert |Sent(msgs) + tail| == |msgs[0]| + 1 + |Sent(msgs[1..]) + tail|;
      k, t := ReadEnds(msgs[1..], tail, n - |msgs[0]| - 1);
      EndsLater(msgs, tail, n, k, t);
      k := k + 1;
    }
  }

  lemma EndsInTail(tail: string, n: nat)
    requires Unfinished(tail) && n <= |tail|
    ensures EndsIn([], tail, n, 0, tail[..n])
  {
    BeginningOfMessage(tail, n);
    assert Sent([]) + tail == tail && Sent([][..0]) + tail[..n] == tail[..n];
  }

  lemma EndsInFirst(msgs: seq<string>, tail: string, n: nat)
    requires msgs != [] && AllMessages(msgs) && n <= |msgs[0]|
    ensures EndsIn(msgs, tail, n, 0, msgs[0][..n])
  {
    hide IsMessage;
    var m, more := msgs[0], Sent(msgs[1..]) + tail;
    assert Sent(msgs) + tail == m + "!" + more;
    assert Unfinished(m);
    CutInside(m, more, n);
    BeginningOfMessage(m, n);
    assert msgs[0..] == msgs && Sent(msgs[..0]) + m[..n] == m[..n];
  }

  lemma EndsLater(msgs: seq<string>, tail: string, n: nat, k: nat, t: string)
    requires msgs != [] && n > |msgs[0]| && EndsIn(msgs[1..], tail, n - |msgs[0]| - 1, k, t)
    ensures EndsIn(msgs, tail, n, k + 1, t)
  {
    hide IsMessage;
    var m, more := msgs[0], Sent(msgs[1..]) + tail;
    assert Sent(msgs) + tail == m + "!" + more;
    CutBehind(m, more, n);
    SentCons(msgs, k, t);
  }

  lemma BeginningOfMessage(m: string, n: nat)
    requires Unfinished(m) && n <= |m|
    ensures Unfinished(m[..n]) && m[..n] + m[n..] == m
  {
  }

  lemma CutInside(m: string, more: string, n: nat)
    requires n <= |m|
    ensures var s := m + "!" + more; s[..n] == m[..n] && m[..n] + s[n..] == s
  {
  }

  lemma CutBehind(m: string, more: string, n: nat)
    requires |m| < n <= |m| + 1 + |more|
    ensures var s := m + "!" + more; s[..n] == m + "!" + more[..n - |m| - 1] && s[n..] == more[n - |m| - 1..]
  {
  }

  lemma SentCons(msgs: seq<string>, k: nat, t: string)
    requires msgs != [] && k < |msgs|
    ensures Sent(msgs[..k + 1]) + t == msgs[0] + "!" + (Sent(msgs[1..][..k]) + t) && msgs[k + 1..] == msgs[1..][k..]
  {
    assert msgs[..k + 1][1..] == msgs[1..][..k];
  }

  lemma {:induction false} HandledJoin(h: Handler, a: seq<string>, b: seq<string>)
    ensures Handled(h, a + b) == Handled(h, a) + Handled(h, b)
  {
    if a == [] {
      assert a + b == b;
    } else {
      HandledJoin(h, a[1..], b);
      assert (a + b)[1..] == a[1..] + b;
    }
  }

  /** One read: the messages it completes are handled, and the buffer keeps what `Kept` says. */
  lemma OneRead(h: Handler, before: seq<string>, t: string, chunk: string, msgs: seq<string>, t': string)
    requires AllMessages(before) && AllMessages(msgs) && Unfinished(t) && Unfinished(t')
    requires FreshKeys(h, before + msgs) && t + chunk == Sent(msgs) + t'
    ensures Process(h, Kept(h, before, t) + chunk) == Out(Handled(h, msgs), Kept(h, before + msgs, t'))
  {
    hide Scan, IsMessage, FreshKeys, AllMessages;
    if t == "" && before != [] && !h.ok(before[|before| - 1]) {
      RereadLast(h, before, chunk, msgs, t');
    } else if Sent(msgs) + t' == "" {
      NothingSent(msgs, t');
      assert before + msgs == before;
    } else {
      UnseenTail(h, before, msgs);
      ScanIsCut(h, msgs, t', {});
    }
  }

  /** A rejected message that was the last of a read is looked at, and rejected, once more. */
  lemma RereadLast(h: Handler, before: seq<string>, chunk: string, msgs: seq<string>, t': string)
    requires AllMessages(before) && AllMessages(msgs) && Unfinished(t') && FreshKeys(h, before + msgs)
    requires before != [] && !h.ok(before[|before| - 1]) && chunk == Sent(msgs) + t'
    ensures Process(h, before[|before| - 1] + "!" + chunk) == Out(Handled(h, msgs), Kept(h, before + msgs, t'))
  {
    var n := |before| - 1;
    var again := [before[n]] + msgs;
    assert before[..n] + again == before + msgs && again[1..] == msgs;
    assert AllMessages(again);
    assert Sent(again) + t' == before[n] + "!" + chunk;
    UnseenTail(h, before[..n], again);
    hide Scan, IsMessage, FreshKeys, AllMessages, Unseen;
    ScanIsCut(h, again, t', {});
  }

  lemma UnseenTail(h: Handler, before: seq<string>, msgs: seq<string>)
    requires FreshKeys(h, before + msgs)
    ensures Unseen(h, msgs, {})
  {
    assert forall i | 0 <= i < |msgs| :: msgs[i] == (before + msgs)[|before| + i];
  }

  /** A buffer without `!` holds no complete message. */
  lemma OnlyTail(t: string, msgs: seq<string>, tail: string)
    requires Unfinished(t) && AllMessages(msgs) && t == Sent(msgs) + tail
    ensures msgs == [] && t == tail
  {
    if msgs != [] {
      var m, more := msgs[0], Sent(msgs[1..]) + tail;
      assert Sent(msgs) + tail == m + "!" + more;
      BangInside(m, more);
    }
  }

  lemma BangInside(m: string, more: string)
    ensures '!' in m + "!" + more
  {
    assert (m + "!" + more)[|m|] == '!';
  }

  lemma SplitMessages(h: Handler, before: seq<string>, msgs: seq<string>, k: nat)
    requires AllMessages(before) && AllMessages(msgs) && FreshKeys(h, before + msgs) && k <= |msgs|
    ensures before + msgs[..k] + msgs[k..] == before + msgs && msgs[..k] + msgs[k..] == msgs
    ensures FreshKeys(h, before + msgs[..k])
    ensures AllMessages(msgs[..k]) && AllMessages(msgs[k..]) && AllMessages(before + msgs[..k])
  {
    hide IsMessage;
    assert forall i | 0 <= i < |before + msgs[..k]| :: (before + msgs[..k])[i] == (before + msgs)[i];
  }

  lemma {:induction false} FeedFrom(
    h: Handler, before: seq<string>, t: string, chunks: seq<string>, msgs: seq<string>, tail: string)
    requires AllMessages(before) && AllMessages(msgs) && Unfinished(t) && Unfinished(tail)
    requires FreshKeys(h, before + msgs) && t + Concat(chunks) == Sent(msgs) + tail
    ensures Feed(h, Kept(h, before, t), chunks) == Out(Handled(h, msgs), Kept(h, before + msgs, tail))
    decreases |chunks|
  {
    if chunks == [] {
      OnlyTail(t, msgs, tail);
      assert before + msgs == before;
    } else {
      var s, n := Sent(msgs) + tail, |t + chunks[0]|;
      hide IsMessage, AllMessages, FreshKeys, Process;
      assert s == t + chunks[0] + Concat(chunks[1..]);
      var k, t' := ReadEnds(msgs, tail, n);
      assert s[..n] == t + chunks[0] && s[n..] == Concat(chunks[1..]);
      SplitMessages(h, before, msgs, k);
      OneRead(h, before, t, chunks[0], msgs[..k], t');
      FeedFrom(h, before + msgs[..k], t', chunks[1..], msgs[k..], tail);
      HandledJoin(h, msgs[..k], msgs[k..]);
    }
  }

  /** One read that holds a repeated key handles fewer messages. */
  lemma {:induction false} ScanLosesRepeats(h: Handler, msgs: seq<string>, tail: string, passed: set<string>)
    requires AllMessages(msgs) && Unfinished(tail) && Sent(msgs) + tail != ""
    ensures var s := Sent(msgs) + tail;
            && s[0] == '#' && |Scan(h, s, passed).done| <= |Handled(h, msgs)|
            && (!Unseen(h, msgs, passed) ==> |Scan(h, s, passed).done| < |Handled(h, msgs)|)
  {
    hide NextHash, IsMessage;
    var s := Sent(msgs) + tail;
    if msgs == [] {
      assert s == tail;
      TailPiece(tail);
    } else {
      var m, t := msgs[0], Sent(msgs[1..]) + tail;
      assert s == m + "!" + t;
      FirstPiece(m, t, msgs[1..], tail);
      UnseenFirst(h, msgs, passed);
      if t == "" {
        NothingSent(msgs[1..], tail);
      } else {
        ScanLosesRepeats(h, msgs[1..], tail, Register(h, m, passed));
      }
    }
  }

  lemma UnseenFirst(h: Handler, msgs: seq<string>, passed: set<string>)
    requires msgs != []
    ensures (h.ok(msgs[0]) ==> !Seen(h, msgs[0], passed)) && Unseen(h, msgs[1..], Register(h, msgs[0], passed)) ==>
              Unseen(h, msgs, passed)
  {
    if (h.ok(msgs[0]) ==> !Seen(h, msgs[0], passed)) && Unseen(h, msgs[1..], Register(h, msgs[0], passed)) {
      forall i, j | 0 <= i < j < |msgs| && h.ok(msgs[j]) && h.key(msgs[j]).Some?
        ensures h.key(msgs[i]) != h.key(msgs[j])
      {
        assert msgs[j] == msgs[1..][j - 1] && (i > 0 ==> msgs[i] == msgs[1..][i - 1]);
      }
      forall i | 0 <= i < |msgs| && h.ok(msgs[i]) ensures !Seen(h, msgs[i], passed) {
        assert i > 0 ==> msgs[i] == msgs[1..][i - 1];
      }
    }
  }

  /**
   * However the bytes that a peer sent are split into reads, the same messages are handled in the
   * same order and the same bytes stay in the buffer. This holds exactly when no message that
   * parses repeats the key of an earlier one.
   */
  lemma ReadsDoNotMatter(h: Handler, msgs: seq<string>, tail: string)
    requires AllMessages(msgs) && Unfinished(tail)
    ensures (forall chunks | Concat(chunks) == Sent(msgs) + tail ::
               Feed(h, "", chunks) == Out(Handled(h, msgs), Kept(h, msgs, tail)))
            <==> FreshKeys(h, msgs)
  {
    var s := Sent(msgs) + tail;
    if FreshKeys(h, msgs) {
      forall chunks | Concat(chunks) == s
        ensures Feed(h, "", chunks) == Out(Handled(h, msgs), Kept(h, msgs, tail))
      {
        assert [] + msgs == msgs;
        FeedFrom(h, [], "", chunks, msgs, tail);
      }
    } else {
      assert s != "" by { if s == "" { NothingSent(msgs, tail); } }
      ScanLosesRepeats(h, msgs, tail, {});
      OneChunk(h, "", s);
      assert "" + s == s && Concat([s]) == s by { assert |[s][1..]| == 0 && s + "" == s; }
    }
  }

  /** When every message parses, each read leaves exactly the unfinished message in the buffer. */
  lemma EveryMessageArrives(h: Handler, chunks: seq<string>, msgs: seq<string>, tail: string)
    requires AllMessages(msgs) && Unfinished(tail) && FreshKeys(h, msgs)
    requires Concat(chunks) == Sent(msgs) + tail && forall i | 0 <= i < |msgs| :: h.ok(msgs[i])
    ensures Feed(h, "", chunks) == Out(msgs, tail)
  {
    ReadsDoNotMatter(h, msgs, tail);
    AllHandled(h, msgs);
  }

  lemma {:induction false} AllHandled(h: Handler, msgs: seq<string>)
    requires forall i | 0 <= i < |msgs| :: h.ok(msgs[i])
    ensures Handled(h, msgs) == msgs
  {
    if msgs != [] {
      AllHandled(h, msgs[1..]);
    }
  }

  lemma OneChunk(h: Handler, buffer: string, chunk: string)
    ensures Feed(h, buffer, [chunk]) == Process(h, buffer + chunk)
  {
    var chunks := [chunk];
    assert |chunks[1..]| == 0;
  }
}
