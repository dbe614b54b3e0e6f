/** Splitting and joining of message fields, and numbers as text. */
module Tokens {
  import opened Types

  // ------------------------------------------------------------------ split

  function Find(s: string, d: char, i: nat): (j: nat)
    requires i <= |s|
    ensures i <= j <= |s| && (forall k | i <= k < j :: s[k] != d) && (j < |s| ==> s[j] == d)
    decreases |s| - i
  {
    if i == |s| || s[i] == d then i else Find(s, d, i + 1)
  }

  /** The pieces between delimiters; a delimiter at the very end opens no further piece. */
  function SplitOf(s: string, d: char): seq<string>
    decreases |s|
  {
    var p := Find(s, d, 0);
    if p + 1 < |s| then [s[..p]] + SplitOf(s[p + 1..], d) else [s[..p]]
  }

  function Join(tokens: seq<string>, d: char): string {
    if tokens == [] then ""
    else if |tokens| == 1 then tokens[0]
    else tokens[0] + [d] + Join(tokens[1..], d)
  }

  method Split(s: string, d: char) returns (tokens: seq<string>)
    ensures tokens == SplitOf(s, d)
  {
    hide Find, SplitOf, Rest;
    tokens := [];
    var prev, pos := 0, 0;
    WholeRest(s, d);
    var more := true;
    while more
      invariant prev <= |s|
      invariant more ==> SplitOf(s, d) == tokens + Rest(s, d, prev)
      invariant !more ==> SplitOf(s, d) == tokens
      decreases |s| - prev + if more then 1 else 0
    {
      NextToken(s, d, prev);
      pos := Find(s, d, prev);
      var token := s[prev..pos];
      ghost var before := tokens;
      tokens := tokens + [token];
      more := pos < |s| && pos + 1 < |s|;
      if more {
        prev := pos + 1;
        assert before + ([token] + Rest(s, d, prev)) == tokens + Rest(s, d, prev);
      }
    }
  }

  ghost function Rest(s: string, d: char, i: nat): seq<string>
    requires i <= |s|
  {
    SplitOf(s[i..], d)
  }

  lemma WholeRest(s: string, d: char)
    ensures SplitOf(s, d) == [] + Rest(s, d, 0)
  {
    assert s[0..] == s;
  }

  lemma NextToken(s: string, d: char, prev: nat)
    requires prev <= |s|
    ensures var pos := Find(s, d, prev);
            Rest(s, d, prev) == if pos + 1 < |s| then [s[prev..pos]] + Rest(s, d, pos + 1) else [s[prev..pos]]
  {
    hide Find, SplitOf;
    var rest, pos := s[prev..], Find(s, d, prev);
    FindInSuffix(s, d, prev, 0);
    SplitUnfold(rest, d);
    assert s[prev..pos] == rest[..pos - prev];
    if pos + 1 < |s| {
      assert s[pos + 1..] == rest[pos + 1 - prev..];
    }
  }

  lemma SplitUnfold(s: string, d: char)
    ensures var p := Find(s, d, 0);
            SplitOf(s, d) == if p + 1 < |s| then [s[..p]] + SplitOf(s[p + 1..], d) else [s[..p]]
  {
  }

  lemma {:induction false} FindInSuffix(s: string, d: char, i: nat, k: nat)
    requires i + k <= |s|
    ensures i + Find(s[i..], d, k) == Find(s, d, i + k)
    decreases |s| - i - k
  {
    if i + k < |s| && s[i + k] != d {
      FindInSuffix(s, d, i, k + 1);
    }
  }

  /** Splitting a joined list gives the list back, except that an empty last token is lost. */
  lemma {:induction false} SplitOfJoin(tokens: seq<string>, d: char)
    requires tokens != [] && forall t | t in tokens :: d !in t
    ensures SplitOf(Join(tokens, d), d) ==
            if |tokens| > 1 && tokens[|tokens| - 1] == "" then tokens[..|tokens| - 1] else tokens
  {
    var s, t := Join(tokens, d), tokens[0];
    assert t in tokens;
    if |tokens| == 1 {
      assert Find(s, d, 0) == |s| && s[..|s|] == t;
    } else {
      hide Find;
      var rest := tokens[1..];
      var more := Join(rest, d);
      SplitOfJoin(rest, d);
      JoinIsEmpty(rest, d);
      FirstToken(t, more, d);
      assert tokens == [t] + rest;
      assert |rest| > 1 ==> tokens[..|tokens| - 1] == [t] + rest[..|rest| - 1];
    }
  }

  lemma FirstToken(t: string, more: string, d: char)
    requires d !in t
    ensures SplitOf(t + [d] + more, d) == if more == "" then [t] else [t] + SplitOf(more, d)
  {
    var s := t + [d] + more;
    assert s[|t|] == d && forall k | 0 <= k < |t| :: s[k] == t[k];
    assert Find(s, d, 0) == |t| && s[..|t|] == t && s[|t| + 1..] == more;
  }

  lemma JoinIsEmpty(tokens: seq<string>, d: char)
    requires tokens != []
    ensures Join(tokens, d) == "" <==> tokens == [""]
  {
  }

  /** Joining the pieces of a text gives the text back, without a delimiter at its end. */
  lemma {:induction false} JoinOfSplit(s: string, d: char)
    ensures Join(SplitOf(s, d), d) == if s != "" && s[|s| - 1] == d then s[..|s| - 1] else s
    decreases |s|
  {
    hide Find;
    var p := Find(s, d, 0);
    if p + 1 < |s| {
      var rest := s[p + 1..];
      JoinOfSplit(rest, d);
      SplitNotEmpty(rest, d);
      JoinCons(s[..p], SplitOf(rest, d), d);
      assert s == s[..p] + [d] + rest;
    }
  }

  lemma SplitNotEmpty(s: string, d: char)
    ensures SplitOf(s, d) != []
  {
  }

  lemma JoinCons(t: string, tokens: seq<string>, d: char)
    requires tokens != []
    ensures Join([t] + tokens, d) == t + [d] + Join(tokens, d)
  {
    assert ([t] + tokens)[1..] == tokens;
  }

  lemma {:induction false} JoinSnoc(tokens: seq<string>, t: string, d: char)
    requires tokens != []
    ensures Join(tokens + [t], d) == Join(tokens, d) + [d] + t
  {
    if |tokens| > 1 {
      JoinSnoc(tokens[1..], t, d);
      assert (tokens + [t])[1..] == tokens[1..] + [t];
    }
  }

  // ------------------------------------------------------------------ numbers

  function Digit(n: nat): (c: char)
    requires n < 10
    ensures IsDigit(c) && (c as int) - ('0' as int) == n
  {
    ('0' as int + n) as char
  }

  predicate IsDigit(c: char) {
    '0' <= c <= '9'
  }

  /** `to_string`. */
  function Decimal(n: nat): (s: string)
    ensures s != ""
  {
    if n < 10 then [Digit(n)] else Decimal(n / 10) + [Digit(n % 10)]
  }

  /** The digits at the front of a text. */
  function DigitPrefix(s: string): (p: string)
    ensures forall c | c in p :: IsDigit(c)
  {
    if s == "" || !IsDigit(s[0]) then "" else [s[0]] + DigitPrefix(s[1..])
  }

  function Value(s: string): nat
    requires forall c | c in s :: IsDigit(c)
  {
    if s == "" then 0
    else
      assert IsDigit(s[|s| - 1]) by { assert s[|s| - 1] in s; }
      10 * Value(s[..|s| - 1]) + (s[|s| - 1] as int - '0' as int)
  }

  function SkipSpaces(s: string): string {
    if s != "" && s[0] in {' ', '\t', '\n', '\r', 11 as char, 12 as char} then SkipSpaces(s[1..]) else s
  }

  /** The number at the front of a text: white space, a sign, digits; what follows is ignored. */
  function Number(s: string): Option<int> {
    var t := SkipSpaces(s);
    var signed := t != "" && t[0] in {'+', '-'};
    var digits := DigitPrefix(if signed then t[1..] else t);
    if digits == "" then None
    else Some(if signed && t[0] == '-' then 0 - Value(digits) else Value(digits))
  }

  /** `safe_stoi`, stored in a `uint32_t`; the flag tells whether the text was a number in range. */
  function SafeStoi(s: string): (U32, bool) {
    match Number(s)
    case Some(v) => if -0x8000_0000 <= v < 0x8000_0000 then (v % TWO32, true) else (0, false)
    case None => (0, false)
  }

  /** `safe_stoull`: a negative number wraps around. */
  function SafeStoull(s: string): (U64, bool) {
    match Number(s)
    case Some(v) => if 0 - TWO64 < v < TWO64 then (v % TWO64, true) else (0, false)
    case None => (0, false)
  }

  ghost predicate AllDigits(s: string) {
    forall c | c in s :: IsDigit(c)
  }

  lemma {:induction false} DigitsAreAllPrefix(s: string)
    requires AllDigits(s)
    ensures DigitPrefix(s) == s
  {
    if s != "" {
      assert s[0] in s && forall c | c in s[1..] :: c in s;
      DigitsAreAllPrefix(s[1..]);
    }
  }

  lemma {:induction false} DecimalIsDigits(n: nat)
    ensures AllDigits(Decimal(n)) && Value(Decimal(n)) == n
  {
    var s := Decimal(n);
    if n >= 10 {
      DecimalIsDigits(n / 10);
      assert s[..|s| - 1] == Decimal(n / 10);
    } else {
      assert s[..0] == "";
    }
  }

  /** A number below 2^64 comes back from its text; `safe_stoi` gives back only those below 2^31. */
  lemma NumberRoundTrip(n: nat)
    ensures n < TWO64 ==> SafeStoull(Decimal(n)) == (n, true)
    ensures SafeStoi(Decimal(n)) == if n < 0x8000_0000 then (n, true) else (0, false)
    ensures AllDigits(Decimal(n))
  {
    hide Value, DigitPrefix, Decimal;
    DecimalIsDigits(n);
    NumberOfDigits(Decimal(n));
  }

  lemma NumberOfDigits(s: string)
    requires AllDigits(s) && s != ""
    ensures Number(s) == Some(Value(s))
  {
    hide Value, DigitPrefix;
    DigitsAreAllPrefix(s);
    assert s[0] in s && IsDigit(s[0]);
    assert SkipSpaces(s) == s;
  }

  /** The digits before count ten times as much for each digit behind them. */
  lemma {:induction false} ValueJoin(a: string, b: string)
    requires AllDigits(a) && AllDigits(b)
    ensures AllDigits(a + b) && Value(a + b) == Value(a) * Pow10(|b|) + Value(b)
  {
    if b == "" {
      assert a + b == a;
    } else {
      var front, last := b[..|b| - 1], b[|b| - 1];
      assert forall c | c in front :: c in b;
      assert (a + b)[..|a + b| - 1] == a + front && (a + b)[|a + b| - 1] == last;
      ValueJoin(a, front);
      TimesTen(Value(a), Pow10(|front|), Value(front));
    }
  }

  function Pow10(k: nat): nat {
    if k == 0 then 1 else 10 * Pow10(k - 1)
  }

  lemma TimesTen(x: nat, p: nat, y: nat)
    ensures 10 * (x * p + y) == x * (10 * p) + 10 * y
  {
  }

  // ------------------------------------------------------------------ numbers inside other text

  predicate IsSpace(c: char) {
    c == ' ' || '\t' <= c <= '\r'
  }

  /** White space, an optional sign, and digits up to something else. */
  ghost predicate IsNumeral(spaces: string, sign: string, digits: string, rest: string) {
    && (forall c | c in spaces :: IsSpace(c)) && (sign == "" || sign == "+" || sign == "-")
    && AllDigits(digits) && digits != "" && (rest == "" || !IsDigit(rest[0]))
  }

  lemma {:induction false} SpacesSkipped(spaces: string, t: string)
    requires (forall c | c in spaces :: IsSpace(c)) && (t == "" || !IsSpace(t[0]))
    ensures SkipSpaces(spaces + t) == t
  {
    if spaces == "" {
      assert spaces + t == t;
    } else {
      var more := spaces[1..];
      assert spaces[0] in spaces && (spaces + t)[1..] == more + t;
      assert forall c | c in more :: c in spaces;
      SpacesSkipped(more, t);
    }
  }

  lemma {:induction false} DigitsEnd(digits: string, rest: string)
    requires AllDigits(digits) && (rest == "" || !IsDigit(rest[0]))
    ensures DigitPrefix(digits + rest) == digits
  {
    if digits == "" {
      assert digits + rest == rest;
    } else {
      var more := digits[1..];
      assert digits[0] in digits && (digits + rest)[1..] == more + rest;
      assert forall c | c in more :: c in digits;
      DigitsEnd(more, rest);
    }
  }

  /**
   * Both readers take the number at the front and ignore what follows; `safe_stoi` takes 32-bit
   * signed numbers, `safe_stoull` takes a sign too and wraps around.
   */
  lemma NumeralIsRead(spaces: string, sign: string, digits: string, rest: string)
    requires IsNumeral(spaces, sign, digits, rest)
    ensures var t := spaces + sign + digits + rest; var v := if sign == "-" then 0 - Value(digits) else Value(digits);
            && SafeStoi(t) == (if -0x8000_0000 <= v < 0 then (v + TWO32, true)
                               else if 0 <= v < 0x8000_0000 then (v, true) else (0, false))
            && SafeStoull(t) == (if 0 - TWO64 < v < 0 then (v + TWO64, true)
                                 else if 0 <= v < TWO64 then (v, true) else (0, false))
  {
    hide Value, DigitPrefix, SkipSpaces;
    var t := spaces + sign + digits + rest;
    var body := sign + digits + rest;
    assert t == spaces + body;
    assert digits[0] in digits && IsDigit(digits[0]);
    assert body[0] == if sign == "" then digits[0] else sign[0];
    SpacesSkipped(spaces, body);
    DigitsEnd(digits, rest);
    assert sign == "" ==> body == digits + rest;
    assert sign != "" ==> body[1..] == digits + rest;
  }

  /** Text without a number at the front gives 0 and is reported. */
  lemma NoNumeral(spaces: string, sign: string, rest: string)
    requires (forall c | c in spaces :: IsSpace(c)) && (sign == "" || sign == "+" || sign == "-")
    requires rest == "" || !IsDigit(rest[0])
    requires sign == "" && rest != "" ==> !IsSpace(rest[0]) && rest[0] != '+' && rest[0] != '-'
    ensures SafeStoi(spaces + sign + rest) == (0, false) && SafeStoull(spaces + sign + rest) == (0, false)
  {
    hide SkipSpaces;
    var body := sign + rest;
    assert spaces + sign + rest == spaces + body;
    SpacesSkipped(spaces, body);
    assert sign != "" ==> body[1..] == rest;
    assert sign == "" ==> body == rest;
  }
}
