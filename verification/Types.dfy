/** Integer widths and small wrappers shared by every module of the model. */
module Types {

  /** `BlockHash` is a `uint64_t`: the first 16 hexadecimal digits of a SHA-256 digest. */
  type BlockHash = h: nat | h < 0x1_0000_0000_0000_0000

  type U32 = n: nat | n < 0x1_0000_0000

  type U64 = n: nat | n < 0x1_0000_0000_0000_0000

  const TWO64: nat := 0x1_0000_0000_0000_0000

  const TWO32: nat := 0x1_0000_0000

  datatype Option<+T> = None | Some(value: T)

  /** Subtraction of two `unsigned long`s: it wraps when the clock went backwards. */
  function Elapsed(now: U64, since: U64): (d: U64)
    ensures since <= now ==> d == now - since
    ensures now < since ==> d == TWO64 - (since - now)
  {
    (now - since) % TWO64
  }

  predicate NoRepeats(q: seq<BlockHash>) {
    forall i, j | 0 <= i < j < |q| :: q[i] != q[j]
  }

  ghost function Members(q: seq<BlockHash>): set<BlockHash> {
    set h | h in q
  }

  /** The sequence without its `i`-th element. */
  ghost function Without<T>(q: seq<T>, i: nat): seq<T>
    requires i < |q|
  {
    q[..i] + q[i + 1..]
  }

  lemma WithoutMembers<T>(q: seq<T>, i: nat, x: T)
    requires i < |q|
    ensures x in Without(q, i) <==> exists k :: 0 <= k < |q| && k != i && q[k] == x
  {
    if x in q[..i] {
      var k :| 0 <= k < i && q[..i][k] == x;
      assert q[k] == x;
    } else if x in q[i + 1..] {
      var k :| 0 <= k < |q[i + 1..]| && q[i + 1..][k] == x;
      assert q[k + i + 1] == x;
    }
    forall k | 0 <= k < |q| && k != i && q[k] == x ensures x in Without(q, i) {
      if k < i {
        assert q[..i][k] == x;
      } else {
        assert q[i + 1..][k - i - 1] == x;
      }
    }
  }
}
