/** Names of sequential Keeper nodes: a prefix and a number of ten digits, so that names sort like their numbers. */
module SequentialNodes {
  import opened Options

  // ---- the order of strings ----

  predicate Less(a: string, b: string) {
    if b == "" then false
    else if a == "" then true
    else a[0] < b[0] || (a[0] == b[0] && Less(a[1..], b[1..]))
  }

  lemma {:induction false} LessTotal(a: string, b: string)
    ensures Less(a, b) || a == b || Less(b, a)
    ensures !(Less(a, b) && Less(b, a)) && !Less(a, a)
  {
    if a != "" && b != "" {
      LessTotal(a[1..], b[1..]);
      LessTotal(a[1..], a[1..]);
      assert a == [a[0]] + a[1..] && b == [b[0]] + b[1..];
    } else if a != "" {
      LessTotal(a[1..], a[1..]);
    }
  }

  lemma {:induction false} LessTransitive(a: string, b: string, c: string)
    requires Less(a, b) && Less(b, c)
    ensures Less(a, c)
  {
    if a != "" && a[0] == b[0] == c[0] {
      LessTransitive(a[1..], b[1..], c[1..]);
    }
  }

  lemma {:induction false} LessPrefixed(prefix: string, a: string, b: string)
    ensures Less(prefix + a, prefix + b) <==> Less(a, b)
  {
    if prefix == "" {
      assert prefix + a == a && prefix + b == b;
    } else {
      LessPrefixed(prefix[1..], a, b);
      assert (prefix + a)[1..] == prefix[1..] + a && (prefix + b)[1..] == prefix[1..] + b;
    }
  }

  lemma {:induction false} LessLast(a: string, b: string, x: char, y: char)
    requires |a| == |b|
    ensures Less(a + [x], b + [y]) <==> Less(a, b) || (a == b && x < y)
  {
    if a == "" {
      assert a + [x] == [x] && b + [y] == [y];
    } else {
      LessLast(a[1..], b[1..], x, y);
      assert (a + [x])[1..] == a[1..] + [x] && (b + [y])[1..] == b[1..] + [y];
      assert a == [a[0]] + a[1..] && b == [b[0]] + b[1..];
      LessTotal(a, a);
    }
  }

  // ---- numbers in ten digits ----

  /** Numbers below this one fit the ten digits of a name. */
  const SEQUENCE_LIMIT := 10_000_000_000

  function Power10(k: nat): (p: nat)
    ensures p > 0
  {
    if k == 0 then 1 else 10 * Power10(k - 1)
  }

  function Digit(n: nat): (c: char)
    requires n < 10
    ensures '0' <= c <= '9' && c as int - '0' as int == n
  {
    (('0' as int) + n) as char
  }

  function Padded(n: nat, k: nat): (s: string)
    ensures |s| == k
  {
    if k == 0 then "" else Padded(n / 10, k - 1) + [Digit(n % 10)]
  }

  lemma {:induction false} PaddedMonotone(m: nat, n: nat, k: nat)
    requires m < n < Power10(k)
    ensures Less(Padded(m, k), Padded(n, k))
  {
    if k > 0 {
      LessLast(Padded(m / 10, k - 1), Padded(n / 10, k - 1), Digit(m % 10), Digit(n % 10));
      if m / 10 < n / 10 {
        PaddedMonotone(m / 10, n / 10, k - 1);
      }
    }
  }

  function SequentialName(prefix: string, n: nat): string {
    prefix + Padded(n, 10)
  }

  lemma NameExample(prefix: string)
    ensures SequentialName(prefix, 42) == prefix + "0000000042"
  {
    assert Padded(0, 2) == "00" && Padded(0, 4) == "0000";
    assert Padded(0, 6) == "000000";
    assert Padded(0, 8) == "00000000";
    assert Padded(4, 9) == "000000004";
  }

  lemma NamesMonotone(prefix: string, m: nat, n: nat)
    requires m < n < SEQUENCE_LIMIT
    ensures Less(SequentialName(prefix, m), SequentialName(prefix, n))
  {
    PaddedMonotone(m, n, 10);
    LessPrefixed(prefix, Padded(m, 10), Padded(n, 10));
  }

  lemma NamesInjective(prefix: string, m: nat, n: nat)
    requires m < SEQUENCE_LIMIT && n < SEQUENCE_LIMIT && SequentialName(prefix, m) == SequentialName(prefix, n)
    ensures m == n
  {
    LessTotal(SequentialName(prefix, m), SequentialName(prefix, n));
    if m < n {
      NamesMonotone(prefix, m, n);
    } else if n < m {
      NamesMonotone(prefix, n, m);
    }
  }

  // ---- reading the number back ----

  function ParseDigits(s: string): Option<nat> {
    if s == "" then Some(0)
    else
      var last := s[|s| - 1];
      match ParseDigits(s[..|s| - 1])
      case Some(n) => if '0' <= last <= '9' then Some(10 * n + (last as int - '0' as int)) else None
      case None => None
  }

  lemma {:induction false} ParsePadded(n: nat, k: nat)
    requires n < Power10(k)
    ensures ParseDigits(Padded(n, k)) == Some(n)
  {
    if k > 0 {
      ParsePadded(n / 10, k - 1);
      assert Padded(n, k)[..k - 1] == Padded(n / 10, k - 1);
    }
  }

  /** The number after the prefix; no number where the path is no longer than the prefix. */
  function ParseSequentialNodeNumber(path: string, prefixSize: nat): Option<nat> {
    if |path| <= prefixSize then None else ParseDigits(path[prefixSize..])
  }

  lemma ParseSequentialName(prefix: string, n: nat)
    requires n < SEQUENCE_LIMIT
    ensures ParseSequentialNodeNumber(SequentialName(prefix, n), |prefix|) == Some(n)
  {
    ParsePadded(n, 10);
    assert SequentialName(prefix, n)[|prefix|..] == Padded(n, 10);
  }

  /** Digits are read exactly where there is nothing else, and their number written in as many digits is the text again. */
  lemma {:induction false} DigitsExactly(s: string)
    ensures ParseDigits(s).Some? <==> forall i :: 0 <= i < |s| ==> '0' <= s[i] <= '9'
    ensures ParseDigits(s).Some? ==> Padded(ParseDigits(s).value, |s|) == s
  {
    if s != "" {
      var rest := s[..|s| - 1];
      DigitsExactly(rest);
      assert s == rest + [s[|s| - 1]];
    }
  }

  /** A number is read from a path exactly where digits, and at least one, follow the prefix. */
  lemma NumberExactly(path: string, prefixSize: nat)
    ensures
      var number := ParseSequentialNodeNumber(path, prefixSize);
      && (number.Some? <==> prefixSize < |path| && forall i :: prefixSize <= i < |path| ==> '0' <= path[i] <= '9')
      && (number.Some? ==> path == path[..prefixSize] + Padded(number.value, |path| - prefixSize))
  {
    if prefixSize < |path| {
      var digits := path[prefixSize..];
      DigitsExactly(digits);
      assert forall i :: prefixSize <= i < |path| ==> path[i] == digits[i - prefixSize];
      assert forall i :: 0 <= i < |digits| ==> digits[i] == path[prefixSize + i];
      assert path == path[..prefixSize] + digits;
    }
  }
}
