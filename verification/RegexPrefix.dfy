/** The literal prefix that every string matched by a regular expression starts with (KeyCondition.cpp, `match`). Texts are
    sequences of bytes in UTF-8, one `char` below 256 for each byte. */
module RegexPrefix {
  import opened Options

  // ---- regular expressions: syntax, text and meaning ----

  datatype Regex = Last(branch: Branch) | Either(branch: Branch, others: Regex)

  datatype Branch = Empty | Piece(atom: Atom, quantifier: Quantifier, rest: Branch)

  /** A lazy quantifier is followed by a question mark; `text` is what stands between the braces. */
  datatype Quantifier =
    | Once
    | ZeroOrOne(lazy: bool)
    | ZeroOrMore(lazy: bool)
    | OneOrMore(lazy: bool)
    | Braces(text: string, least: nat, most: nat, lazy: bool)

  /** A character of several bytes is `Wide`. An escape such as \d or \x41, and a bracketed class, match whatever `accepts`
      says. */
  datatype Atom =
    | Literal(c: char)
    | Wide(bytes: string)
    | Escaped(c: char)
    | EscapeSequence(text: string, accepts: (string, nat, nat) -> bool)
    | AnyChar
    | Class(text: string, accepts: (string, nat, nat) -> bool)
    | Begin
    | End
    | Group(flags: string, inner: Regex)

  predicate IsLiteralEscape(c: char) {
    c in {'|', '(', ')', '^', '$', '.', '[', ']', '?', '*', '+', '\\', '{', '}', '-'}
  }

  predicate IsMeta(c: char) {
    c in {'|', '(', ')', '^', '$', '.', '[', '?', '*', '+', '\\', '\0'}
  }

  /** No backslash is left without the character it escapes. */
  predicate Balanced(s: string) {
    if s == "" then true
    else if s[0] == '\\' then |s| > 1 && Balanced(s[2..])
    else Balanced(s[1..])
  }

  predicate IsWide(bytes: string) {
    2 <= |bytes| <= 4 && forall i :: 0 <= i < |bytes| ==> bytes[i] as int >= 128
  }

  predicate ValidAtom(a: Atom) {
    match a
    case Literal(c) => !IsMeta(c) && c as int < 128
    case Wide(bytes) => IsWide(bytes)
    case Escaped(c) => IsLiteralEscape(c)
    case EscapeSequence(text, _) => text != "" && !IsLiteralEscape(text[0]) && Balanced(text[1..])
    case Class(text, _) => Balanced(text)
    case Group(flags, inner) => (flags == "" || (flags[0] == '?' && Balanced(flags))) && ValidRegex(inner)
    case _ => true
  }

  predicate ValidBranch(b: Branch) {
    b.Piece? ==>
      && ValidAtom(b.atom)
      && (b.quantifier.Braces? ==> Balanced(b.quantifier.text))
      && ValidBranch(b.rest)
  }

  predicate ValidRegex(r: Regex) {
    ValidBranch(r.branch) && (r.Either? ==> ValidRegex(r.others))
  }

  function QuantifierText(q: Quantifier): string {
    match q
    case Once => ""
    case ZeroOrOne(lazy) => if lazy then "??" else "?"
    case ZeroOrMore(lazy) => if lazy then "*?" else "*"
    case OneOrMore(lazy) => if lazy then "+?" else "+"
    case Braces(text, _, _, lazy) => "{" + (text + (if lazy then "}?" else "}"))
  }

  function AtomText(a: Atom): string {
    match a
    case Literal(c) => [c]
    case Wide(bytes) => bytes
    case Escaped(c) => ['\\', c]
    case EscapeSequence(text, _) => "\\" + text
    case AnyChar => "."
    case Class(text, _) => "[" + (text + "]")
    case Begin => "^"
    case End => "$"
    case Group(flags, inner) => "(" + (flags + (RegexText(inner) + ")"))
  }

  function BranchText(b: Branch): string {
    match b
    case Empty => ""
    case Piece(atom, quantifier, rest) => AtomText(atom) + (QuantifierText(quantifier) + BranchText(rest))
  }

  function RegexText(r: Regex): string {
    match r
    case Last(branch) => BranchText(branch)
    case Either(branch, others) => BranchText(branch) + ("|" + RegexText(others))
  }

  predicate Allows(q: Quantifier, n: nat) {
    match q
    case Once => n == 1
    case ZeroOrOne(_) => n <= 1
    case ZeroOrMore(_) => true
    case OneOrMore(_) => n >= 1
    case Braces(_, least, most, _) => least <= n <= most
  }

  /** The atom matches the characters from `i` to `j`. */
  ghost predicate MatchAtom(a: Atom, s: string, i: nat, j: nat)
    requires i <= j <= |s|
    decreases a, 0
  {
    match a
    case Literal(c) => j == i + 1 && s[i] == c
    case Wide(bytes) => s[i..j] == bytes
    case Escaped(c) => j == i + 1 && s[i] == c
    case EscapeSequence(_, accepts) => accepts(s, i, j)
    case AnyChar => j == i + 1 || IsWide(s[i..j])
    case Class(_, accepts) => (j == i + 1 || IsWide(s[i..j])) && accepts(s, i, j)
    case Begin => i == j == 0
    case End => i == j == |s|
    case Group(_, inner) => MatchRegex(inner, s, i, j)
  }

  ghost predicate MatchTimes(a: Atom, n: nat, s: string, i: nat, j: nat)
    requires i <= j <= |s|
    decreases a, 1, n
  {
    if n == 0 then i == j
    else exists k :: i <= k <= j && MatchAtom(a, s, i, k) && MatchTimes(a, n - 1, s, k, j)
  }

  ghost predicate MatchBranch(b: Branch, s: string, i: nat, j: nat)
    requires i <= j <= |s|
    decreases b
  {
    match b
    case Empty => i == j
    case Piece(atom, quantifier, rest) =>
      exists n: nat, k :: i <= k <= j && Allows(quantifier, n) && MatchTimes(atom, n, s, i, k) && MatchBranch(rest, s, k, j)
  }

  ghost predicate MatchRegex(r: Regex, s: string, i: nat, j: nat)
    requires i <= j <= |s|
    decreases r
  {
    MatchBranch(r.branch, s, i, j) || (r.Either? && MatchRegex(r.others, s, i, j))
  }

  /** The expression matches somewhere in the string. */
  ghost predicate Matches(r: Regex, s: string) {
    exists i, j :: 0 <= i <= j <= |s| && MatchRegex(r, s, i, j)
  }

  // ---- the scanners ----

  /** The first scanner on the rest of the text, with the prefix collected so far. */
  function Scan(rest: string, prefix: string): string
    decreases |rest|
  {
    if rest == "" then prefix
    else if rest[0] == '\0' then prefix
    else if rest[0] == '\\' then
      if |rest| == 1 then prefix
      else if IsLiteralEscape(rest[1]) then Scan(rest[2..], prefix + [rest[1]])
      else prefix
    else if rest[0] == '|' then ""
    else if rest[0] in {'(', '[', '^', '$', '.', '+'} then prefix
    else if rest[0] in {'{', '?', '*'} then (if prefix == "" then prefix else prefix[..|prefix| - 1])
    else Scan(rest[1..], prefix + [rest[0]])
  }

  function FixedPrefix(regexp: string): string {
    if |regexp| <= 1 || regexp[0] != '^' then "" else Scan(regexp[1..], "")
  }

  method ExtractFixedPrefixFromRegularExpression(regexp: string) returns (fixedPrefix: string)
    ensures fixedPrefix == FixedPrefix(regexp)
  {
    if |regexp| <= 1 || regexp[0] != '^' {
      return "";
    }
    fixedPrefix := "";
    var pos, end := 1, |regexp|;
    while pos < end
      invariant 1 <= pos <= end
      invariant Scan(regexp[pos..], fixedPrefix) == FixedPrefix(regexp)
      decreases end - pos
    {
      var c := regexp[pos];
      assert regexp[pos..][0] == c && regexp[pos..][1..] == regexp[pos + 1..];
      if c == '\0' {
        return;
      } else if c == '\\' {
        pos := pos + 1;
        if pos == end {
          return;
        }
        assert regexp[pos - 1..][1] == regexp[pos] && regexp[pos - 1..][2..] == regexp[pos + 1..];
        if IsLiteralEscape(regexp[pos]) {
          fixedPrefix := fixedPrefix + [regexp[pos]];
          pos := pos + 1;
        } else {
          return;
        }
      } else if c == '|' {
        return "";
      } else if c in {'(', '[', '^', '$', '.', '+'} {
        return;
      } else if c in {'{', '?', '*'} {
        if fixedPrefix != "" {
          fixedPrefix := fixedPrefix[..|fixedPrefix| - 1];
        }
        return;
      } else {
        fixedPrefix := fixedPrefix + [c];
        pos := pos + 1;
      }
    }
    assert regexp[pos..] == "";
  }

  function HasAlternation(e: string): bool {
    if e == "" then false
    else if e[0] == '\\' && |e| > 1 then HasAlternation(e[2..])
    else e[0] == '|' || HasAlternation(e[1..])
  }

  method ExpressionHasUnescapedAlternation(expression: string) returns (result: bool)
    ensures result == HasAlternation(expression)
  {
    var i := 0;
    while i < |expression|
      invariant 0 <= i <= |expression|
      invariant HasAlternation(expression[i..]) == HasAlternation(expression)
    {
      var rest := expression[i..];
      assert rest[0] == expression[i] && rest[1..] == expression[i + 1..];
      if expression[i] == '\\' && i + 1 < |expression| {
        assert rest[2..] == expression[i + 2..];
        i := i + 2;
        continue;
      }
      if expression[i] == '|' {
        return true;
      }
      i := i + 1;
    }
    assert expression[i..] == "";
    return false;
  }

  /** The second scanner on the rest of the text: the branches, or None where it gives up. */
  function Branches(rest: string, branches: seq<string>, current: string): Option<seq<string>>
    decreases |rest|
  {
    if rest == "" then Some(branches)
    else if rest[0] == '\\' && |rest| > 1 then
      if IsLiteralEscape(rest[1]) then Branches(rest[2..], branches, current + [rest[1]]) else None
    else if rest[0] == '|' then Branches(rest[1..], branches + [current], "")
    else if rest[0] == ')' then
      if rest[1..] == "" || rest[1..] == "$" then Some(branches + [current]) else None
    else if rest[0] in {'(', '[', '.', '*', '+', '?', '{', '^', '$'} then None
    else Branches(rest[1..], branches, current + [rest[0]])
  }

  /** The first position from `k` on where the strings part. */
  function Parting(a: string, b: string, k: nat): (r: nat)
    requires k <= |a| && k <= |b|
    ensures k <= r <= |a| && r <= |b|
    ensures forall i :: k <= i < r ==> a[i] == b[i]
    decreases |a| - k
  {
    if k < |a| && k < |b| && a[k] == b[k] then Parting(a, b, k + 1) else k
  }

  function Common(a: string, b: string): (c: string)
    ensures c <= a && c <= b
  {
    a[..Parting(a, b, 0)]
  }

  function CommonOfAll(branches: seq<string>): (c: string)
    ensures forall i :: 0 <= i < |branches| ==> c <= branches[i]
  {
    if branches == [] then ""
    else if |branches| == 1 then branches[0]
    else
      var last := |branches| - 1;
      var rest := CommonOfAll(branches[..last]);
      assert forall i :: 0 <= i < last ==> branches[i] == branches[..last][i];
      Common(rest, branches[last])
  }

  function AlternationPrefix(expression: string): string {
    if |expression| < 4 || expression[0] != '^' || expression[1] != '(' then ""
    else match Branches(expression[2..], [], "")
      case None => ""
      case Some(branches) => if |branches| < 2 then "" else CommonOfAll(branches)
  }

  method CommonLength(a: string, b: string) returns (commonLen: nat)
    ensures commonLen <= |a| && a[..commonLen] == Common(a, b)
  {
    commonLen := 0;
    var maxLen := if |a| < |b| then |a| else |b|;
    while commonLen < maxLen && a[commonLen] == b[commonLen]
      invariant 0 <= commonLen <= maxLen
      invariant Parting(a, b, commonLen) == Parting(a, b, 0)
    {
      commonLen := commonLen + 1;
    }
  }

  method ExtractCommonPrefixFromAlternationBranches(expression: string) returns (prefix: string)
    ensures prefix == AlternationPrefix(expression)
  {
    if |expression| < 4 || expression[0] != '^' || expression[1] != '(' {
      return "";
    }
    var split := SplitBranches(expression);
    if split.None? || |split.value| < 2 {
      return "";
    }
    var branches := split.value;
    prefix := branches[0];
    assert branches[..1] == [branches[0]];
    for i := 1 to |branches|
      invariant prefix == CommonOfAll(branches[..i])
    {
      var commonLen := CommonLength(prefix, branches[i]);
      prefix := prefix[..commonLen];
      assert branches[..i + 1][..i] == branches[..i];
      if prefix == "" {
        CommonStaysEmpty(branches, i + 1);
        return "";
      }
    }
    assert branches[..|branches|] == branches;
  }

  lemma {:induction false} CommonStaysEmpty(branches: seq<string>, i: nat)
    requires 0 < i <= |branches| && CommonOfAll(branches[..i]) == ""
    ensures CommonOfAll(branches) == ""
  {
    if i == |branches| {
      assert branches[..i] == branches;
    } else {
      var last := |branches| - 1;
      assert branches[..last][..i] == branches[..i];
      CommonStaysEmpty(branches[..last], i);
    }
  }

  method SplitBranches(expression: string) returns (result: Option<seq<string>>)
    requires |expression| >= 4
    ensures result == Branches(expression[2..], [], "")
  {
    var pos, end := 2, |expression|;
    var branches: seq<string>, current := [], "";
    while pos < end
      invariant 2 <= pos <= end
      invariant Branches(expression[pos..], branches, current) == Branches(expression[2..], [], "")
    {
      var rest, c := expression[pos..], expression[pos];
      assert rest[0] == c && rest[1..] == expression[pos + 1..];
      if c == '\\' && pos + 1 < end {
        var next := expression[pos + 1];
        assert rest[1] == next && rest[2..] == expression[pos + 2..];
        if IsLiteralEscape(next) {
          current := current + [next];
          pos := pos + 2;
        } else {
          return None;
        }
      } else if c == '|' {
        branches, current := branches + [current], "";
        pos := pos + 1;
      } else if c == ')' {
        branches := branches + [current];
        pos := pos + 1;
        if pos < end && expression[pos] == '$' {
          pos := pos + 1;
        }
        if pos != end {
          return None;
        }
        return Some(branches);
      } else if c in {'(', '[', '.', '*', '+', '?', '{', '^', '$'} {
        return None;
      } else {
        current := current + [c];
        pos := pos + 1;
      }
    }
    assert expression[pos..] == "";
    return Some(branches);
  }

  function ChosenPrefix(expression: string): string {
    if !HasAlternation(expression) then FixedPrefix(expression) else AlternationPrefix(expression)
  }

  /** The prefix on which `match` prunes; empty when it does not prune. */
  method MatchPrefix(expression: string) returns (prefix: string)
    ensures prefix == if '\0' in expression then "" else ChosenPrefix(expression)
  {
    if '\0' in expression {
      return "";
    }
    var alternation := ExpressionHasUnescapedAlternation(expression);
    if !alternation {
      prefix := ExtractFixedPrefixFromRegularExpression(expression);
    } else {
      prefix := ExtractCommonPrefixFromAlternationBranches(expression);
    }
  }

  // ---- soundness of the first scanner ----

  lemma {:induction false} BalancedConcat(a: string, b: string)
    requires Balanced(a)
    ensures Balanced(b) ==> Balanced(a + b)
    ensures HasAlternation(a + b) == (HasAlternation(a) || HasAlternation(b))
  {
    if a == "" {
      assert a + b == b;
    } else if a[0] == '\\' {
      BalancedConcat(a[2..], b);
      assert (a + b)[2..] == a[2..] + b;
    } else {
      BalancedConcat(a[1..], b);
      assert (a + b)[1..] == a[1..] + b;
    }
  }

  /** The bytes of a wide character are no special characters of an expression. */
  lemma {:induction false} WideText(bytes: string)
    requires forall i :: 0 <= i < |bytes| ==> bytes[i] as int >= 128
    ensures Balanced(bytes) && !HasAlternation(bytes)
  {
    if bytes != "" {
      WideText(bytes[1..]);
    }
  }

  lemma {:induction false} AtomBalanced(a: Atom)
    requires ValidAtom(a)
    ensures Balanced(AtomText(a))
    decreases a
  {
    match a
    case Wide(bytes) => WideText(bytes);
    case EscapeSequence(text, _) =>
      assert AtomText(a)[2..] == text[1..];
    case Class(text, _) =>
      assert Balanced("]");
      BalancedConcat(text, "]");
      assert AtomText(a)[1..] == text + "]";
    case Group(flags, inner) =>
      RegexBalanced(inner);
      assert Balanced(")") && Balanced(flags);
      BalancedConcat(RegexText(inner), ")");
      BalancedConcat(flags, RegexText(inner) + ")");
      assert AtomText(a)[1..] == flags + (RegexText(inner) + ")");
    case _ =>
  }

  lemma {:induction false} QuantifierBalanced(q: Quantifier)
    requires q.Braces? ==> Balanced(q.text)
    ensures Balanced(QuantifierText(q))
  {
    match q
    case Braces(text, _, _, lazy) =>
      var close := if lazy then "}?" else "}";
      assert Balanced(close) by { assert close[1..] == (if lazy then "?" else ""); }
      BalancedConcat(text, close);
      assert QuantifierText(q)[1..] == text + close;
    case Once =>
    case ZeroOrOne(_) | ZeroOrMore(_) | OneOrMore(_) =>
      assert QuantifierText(q)[1..] == (if q.lazy then "?" else "");
  }

  lemma {:induction false} BranchBalanced(b: Branch)
    requires ValidBranch(b)
    ensures Balanced(BranchText(b))
    decreases b
  {
    if b.Piece? {
      AtomBalanced(b.atom);
      QuantifierBalanced(b.quantifier);
      BranchBalanced(b.rest);
      BalancedConcat(QuantifierText(b.quantifier), BranchText(b.rest));
      BalancedConcat(AtomText(b.atom), QuantifierText(b.quantifier) + BranchText(b.rest));
    }
  }

  lemma {:induction false} RegexBalanced(r: Regex)
    requires ValidRegex(r)
    ensures Balanced(RegexText(r))
    ensures r.Either? ==> HasAlternation(RegexText(r))
    decreases r
  {
    BranchBalanced(r.branch);
    if r.Either? {
      RegexBalanced(r.others);
      var tail := "|" + RegexText(r.others);
      assert tail[1..] == RegexText(r.others);
      BalancedConcat(BranchText(r.branch), tail);
    }
  }

  lemma MatchFirst(a: Atom, n: nat, s: string, i: nat, j: nat) returns (k: nat)
    requires n > 0 && i <= j <= |s| && MatchTimes(a, n, s, i, j)
    ensures i <= k <= j && MatchAtom(a, s, i, k) && MatchTimes(a, n - 1, s, k, j)
  {
    k :| i <= k <= j && MatchAtom(a, s, i, k) && MatchTimes(a, n - 1, s, k, j);
  }

  lemma MatchHead(b: Branch, s: string, i: nat, j: nat) returns (n: nat, k: nat)
    requires b.Piece? && i <= j <= |s| && MatchBranch(b, s, i, j)
    ensures i <= k <= j && Allows(b.quantifier, n) && MatchTimes(b.atom, n, s, i, k) && MatchBranch(b.rest, s, k, j)
    ensures b.quantifier.Once? ==> n == 1
    ensures b.quantifier.OneOrMore? ==> n >= 1
  {
    n, k :| i <= k <= j && Allows(b.quantifier, n) && MatchTimes(b.atom, n, s, i, k) && MatchBranch(b.rest, s, k, j);
  }

  lemma MatchOnce(a: Atom, s: string, i: nat, j: nat)
    requires i <= j <= |s| && MatchTimes(a, 1, s, i, j)
    ensures MatchAtom(a, s, i, j)
  {
    var k := MatchFirst(a, 1, s, i, j);
  }

  /** One step of the scanner over a character that stands for itself, and over what follows it. */
  lemma QuantifierStops(q: Quantifier, more: string, prefix: string)
    requires !q.Once?
    ensures Scan(QuantifierText(q) + more, prefix) == if q.OneOrMore? || prefix == "" then prefix else prefix[..|prefix| - 1]
  {
    var t := QuantifierText(q);
    assert t != "" && (t + more)[0] == t[0];
  }

  /** Both scanners give up on a brace, also where it opens no repetition. */
  predicate IsCharacter(a: Atom): (r: bool)
    ensures r ==> a.Literal? || a.Wide? || a.Escaped?
  {
    a.Escaped? || a.Wide? || (a.Literal? && a.c != '{')
  }

  /** The bytes that a character stands for. */
  function Bytes(a: Atom): string
    requires IsCharacter(a)
  {
    if a.Wide? then a.bytes else [a.c]
  }

  lemma MatchCharacter(a: Atom, s: string, i: nat, j: nat)
    requires IsCharacter(a) && i <= j <= |s|
    ensures MatchAtom(a, s, i, j) <==> s[i..j] == Bytes(a)
  {
  }

  lemma {:induction false} ScanWide(bytes: string, more: string, prefix: string)
    requires forall i :: 0 <= i < |bytes| ==> bytes[i] as int >= 128
    ensures Scan(bytes + more, prefix) == Scan(more, prefix + bytes)
  {
    if bytes == "" {
      assert bytes + more == more && prefix + bytes == prefix;
    } else {
      assert (bytes + more)[1..] == bytes[1..] + more;
      ScanWide(bytes[1..], more, prefix + [bytes[0]]);
      assert prefix + [bytes[0]] + bytes[1..] == prefix + bytes;
    }
  }

  lemma ScanAtom(a: Atom, more: string, prefix: string)
    requires ValidAtom(a)
    ensures IsCharacter(a) ==> Scan(AtomText(a) + more, prefix) == Scan(more, prefix + Bytes(a))
    ensures !IsCharacter(a) ==> Scan(AtomText(a) + more, prefix) <= prefix
  {
    var text := AtomText(a) + more;
    assert text[0] == AtomText(a)[0];
    if a.Wide? {
      ScanWide(a.bytes, more, prefix);
    } else if IsCharacter(a) {
      assert text[|AtomText(a)|..] == more;
    } else if a.EscapeSequence? {
      assert text[1] == a.text[0];
    }
  }

  /** Single characters, and then a wide one that may be absent: the scanner drops only its last byte. */
  predicate Cuts(b: Branch) {
    && b.Piece? && IsCharacter(b.atom)
    && if b.quantifier.Once? then Cuts(b.rest) else b.atom.Wide? && b.atom.bytes != "" && Allows(b.quantifier, 0)
  }

  lemma CutsHere(b: Branch)
    requires !Cuts(b) && b.Piece? && IsCharacter(b.atom) && ValidAtom(b.atom)
    ensures if b.quantifier.Once? then !Cuts(b.rest) else b.atom.Wide? ==> !Allows(b.quantifier, 0)
  {
  }

  lemma BytesShape(a: Atom)
    requires ValidAtom(a) && IsCharacter(a)
    ensures Bytes(a) != "" && (!a.Wide? ==> |Bytes(a)| == 1)
  {
  }

  lemma AbsentIsNoCut(b: Branch)
    requires !Cuts(b) && b.Piece? && IsCharacter(b.atom) && ValidAtom(b.atom) && !b.quantifier.Once? && Allows(b.quantifier, 0)
    ensures |Bytes(b.atom)| == 1 && !b.quantifier.OneOrMore?
  {
  }

  lemma Extended(prefix: string, s: string, i: nat, k: nat)
    requires i <= k <= |s| && prefix == s[..i]
    ensures prefix + s[i..k] == s[..k] <= s
  {
  }

  lemma Shorter(p: string, s: string, n: nat)
    requires p <= s && n <= |p|
    ensures p[..n] <= s
  {
  }

  /** A repetition that must occur starts with the character; of one that may be absent nothing is kept. */
  lemma {:induction false} ScanIsPrefix(b: Branch, prefix: string, s: string, i: nat, j: nat)
    requires ValidBranch(b) && !Cuts(b) && i <= j <= |s| && MatchBranch(b, s, i, j)
    requires prefix == s[..i]
    ensures Scan(BranchText(b), prefix) <= s
    decreases b
  {
    hide *;
    BranchParts(b);
    if b.Empty? {
      ScanNothing(prefix);
      return;
    }
    var n, k := MatchHead(b, s, i, j);
    ScanAtom(b.atom, QuantifierText(b.quantifier) + BranchText(b.rest), prefix);
    if IsCharacter(b.atom) {
      var grown := prefix + Bytes(b.atom);
      CutsHere(b);
      BytesShape(b.atom);
      if b.quantifier.Once? {
        MatchOnce(b.atom, s, i, k);
        MatchCharacter(b.atom, s, i, k);
        Extended(prefix, s, i, k);
        QuantifierHead(b.quantifier, BranchText(b.rest));
        ScanIsPrefix(b.rest, grown, s, k, j);
      } else {
        QuantifierStops(b.quantifier, BranchText(b.rest), grown);
        if n > 0 {
          var k' := MatchFirst(b.atom, n, s, i, k);
          MatchCharacter(b.atom, s, i, k');
          Extended(prefix, s, i, k');
          Shorter(grown, s, |grown| - 1);
        } else {
          AbsentIsNoCut(b);
          assert grown[..|grown| - 1] == prefix;
        }
      }
    }
  }

  lemma BranchParts(b: Branch)
    requires ValidBranch(b)
    ensures b.Empty? ==> BranchText(b) == ""
    ensures b.Piece? ==> BranchText(b) == AtomText(b.atom) + (QuantifierText(b.quantifier) + BranchText(b.rest))
    ensures b.Piece? ==> ValidAtom(b.atom) && ValidBranch(b.rest)
  {
  }

  lemma ScanNothing(prefix: string)
    ensures Scan("", prefix) == prefix
  {}

  // ---- what the first scanner collects ----

  function WithoutLast(s: string): string {
    if s == "" then "" else s[..|s| - 1]
  }

  /** The characters in front, up to the first piece that is no single character: kept whole, with one occurrence if it must
      occur, and otherwise without its last byte. A brace that opens no repetition costs the last byte too. */
  function Collected(b: Branch, prefix: string): string {
    if b.Empty? then prefix
    else if IsCharacter(b.atom) then
      var grown := prefix + Bytes(b.atom);
      match b.quantifier
      case Once => Collected(b.rest, grown)
      case OneOrMore(_) => grown
      case _ => WithoutLast(grown)
    else if b.atom.Literal? then WithoutLast(prefix)
    else prefix
  }

  lemma ScanStop(a: Atom, more: string, prefix: string)
    requires ValidAtom(a) && !IsCharacter(a)
    ensures Scan(AtomText(a) + more, prefix) == if a.Literal? then WithoutLast(prefix) else prefix
  {
    var text := AtomText(a) + more;
    assert text[0] == AtomText(a)[0];
    if a.EscapeSequence? {
      assert text[1] == a.text[0];
    }
  }

  /** For every branch the scanner finds exactly that. */
  lemma {:induction false} ScanCollects(b: Branch, prefix: string)
    requires ValidBranch(b)
    ensures Scan(BranchText(b), prefix) == Collected(b, prefix)
    decreases b
  {
    hide Scan, BranchText, ValidBranch, ValidAtom, AtomText, QuantifierText, Bytes, IsCharacter;
    BranchParts(b);
    if b.Empty? {
      ScanNothing(prefix);
    } else {
      var more := QuantifierText(b.quantifier) + BranchText(b.rest);
      ScanAtom(b.atom, more, prefix);
      if IsCharacter(b.atom) {
        var grown := prefix + Bytes(b.atom);
        QuantifierHead(b.quantifier, BranchText(b.rest));
        if b.quantifier.Once? {
          ScanCollects(b.rest, grown);
        } else {
          QuantifierStops(b.quantifier, BranchText(b.rest), grown);
        }
      } else {
        ScanStop(b.atom, more, prefix);
      }
    }
  }

  /** The prefix of an anchored expression without alternation. */
  lemma FixedPrefixExact(b: Branch)
    requires ValidBranch(b)
    ensures FixedPrefix("^" + BranchText(b)) == Collected(b, "")
  {
    var e := "^" + BranchText(b);
    assert e[1..] == BranchText(b);
    ScanCollects(b, "");
    if |e| <= 1 {
      EmptyText();
      ScanNothing("");
    }
  }

  lemma ScanLetter(c: char, more: string, prefix: string)
    requires 'a' <= c <= 'z'
    ensures Scan([c] + more, prefix) == Scan(more, prefix + [c]) && HasAlternation([c] + more) == HasAlternation(more)
  {
    assert ([c] + more)[1..] == more;
  }

  /** What matches any character stops the scanner without a loss. */
  lemma PrefixExample()
    ensures ChosenPrefix("^abc.*") == "abc"
  {
    assert Scan(".*", "abc") == "abc";
    assert ".*"[1..] == "*" && "*"[1..] == "" && !HasAlternation(".*");
    assert "^abc.*"[1..] == "abc.*";
    ScanLetter('a', "bc.*", "");
    ScanLetter('b', "c.*", "a");
    ScanLetter('c', ".*", "ab");
    assert HasAlternation("^abc.*") == HasAlternation("abc.*");
    hide Scan, HasAlternation;
    assert "abc.*" == "a" + "bc.*" && "bc.*" == "b" + "c.*" && "c.*" == "c" + ".*";
    assert "" + "a" == "a" && "a" + "b" == "ab" && "ab" + "c" == "abc";
  }

  // ---- soundness of the second scanner ----

  /** Only literal characters, each once: the branches the second scanner accepts. */
  predicate Plain(b: Branch) {
    b.Piece? ==> IsCharacter(b.atom) && b.quantifier.Once? && Plain(b.rest)
  }

  function Spelled(b: Branch): string {
    if b.Piece? && IsCharacter(b.atom) then Bytes(b.atom) + Spelled(b.rest) else ""
  }

  predicate AllPlain(r: Regex) {
    Plain(r.branch) && (r.Either? ==> AllPlain(r.others))
  }

  function AllSpelled(r: Regex): seq<string> {
    [Spelled(r.branch)] + (if r.Either? then AllSpelled(r.others) else [])
  }

  lemma SpelledHead(b: Branch)
    requires b.Piece? && Plain(b)
    ensures IsCharacter(b.atom) && b.quantifier.Once? && Plain(b.rest) && Spelled(b) == Bytes(b.atom) + Spelled(b.rest)
  {
  }

  lemma SliceSplit(s: string, i: nat, k: nat, j: nat)
    requires i <= k <= j <= |s|
    ensures s[i..j] == s[i..k] + s[k..j]
  {
  }

  lemma SliceParts(s: string, i: nat, j: nat, a: string, b: string)
    requires i <= j <= |s| && s[i..j] == a + b
    ensures i + |a| <= j && s[i..i + |a|] == a && s[i + |a|..j] == b
  {
    assert s[i..j][..|a|] == a && s[i..j][|a|..] == b;
  }

  lemma {:induction false} PlainMatchesItself(b: Branch, s: string, i: nat, j: nat)
    requires Plain(b) && i <= j <= |s|
    ensures MatchBranch(b, s, i, j) <==> s[i..j] == Spelled(b)
  {
    if b.Piece? {
      hide *;
      SpelledHead(b);
      if MatchBranch(b, s, i, j) {
        var n, k := MatchHead(b, s, i, j);
        MatchOnce(b.atom, s, i, k);
        MatchCharacter(b.atom, s, i, k);
        PlainMatchesItself(b.rest, s, k, j);
        SliceSplit(s, i, k, j);
      }
      if s[i..j] == Spelled(b) {
        SliceParts(s, i, j, Bytes(b.atom), Spelled(b.rest));
        var k := i + |Bytes(b.atom)|;
        PlainMatchesItself(b.rest, s, k, j);
        OnceMatches(b, s, i, k, j);
      }
    }
  }

  lemma OnceMatches(b: Branch, s: string, i: nat, k: nat, j: nat)
    requires b.Piece? && IsCharacter(b.atom) && b.quantifier.Once? && i <= k <= j <= |s|
    requires s[i..k] == Bytes(b.atom) && MatchBranch(b.rest, s, k, j)
    ensures MatchBranch(b, s, i, j)
  {
    MatchCharacter(b.atom, s, i, k);
    assert MatchTimes(b.atom, 0, s, k, k);
    assert MatchTimes(b.atom, 1, s, i, k);
    assert Allows(b.quantifier, 1);
  }

  lemma {:induction false} BranchesWide(bytes: string, more: string, branches: seq<string>, current: string)
    requires forall i :: 0 <= i < |bytes| ==> bytes[i] as int >= 128
    ensures Branches(bytes + more, branches, current) == Branches(more, branches, current + bytes)
  {
    if bytes == "" {
      assert bytes + more == more && current + bytes == current;
    } else {
      assert (bytes + more)[1..] == bytes[1..] + more;
      BranchesWide(bytes[1..], more, branches, current + [bytes[0]]);
      assert current + [bytes[0]] + bytes[1..] == current + bytes;
    }
  }

  lemma BranchesAtom(a: Atom, more: string, branches: seq<string>, current: string)
    requires ValidAtom(a)
    ensures Branches(AtomText(a) + more, branches, current)
         == if IsCharacter(a) then Branches(more, branches, current + Bytes(a)) else None
  {
    var text := AtomText(a) + more;
    assert text[0] == AtomText(a)[0];
    if a.Wide? {
      BranchesWide(a.bytes, more, branches, current);
    } else if a.Literal? || a.Escaped? {
      assert text[|AtomText(a)|..] == more;
    } else if a.EscapeSequence? {
      assert text[1] == a.text[0];
    }
  }

  lemma BranchesQuantifier(q: Quantifier, more: string, branches: seq<string>, current: string)
    requires !q.Once?
    ensures Branches(QuantifierText(q) + more, branches, current) == None
  {
    var t := QuantifierText(q);
    assert t != "" && (t + more)[0] == t[0];
  }

  lemma {:induction false} BranchesBranch(b: Branch, more: string, branches: seq<string>, current: string)
    requires ValidBranch(b)
    ensures Branches(BranchText(b) + more, branches, current)
         == if Plain(b) then Branches(more, branches, current + Spelled(b)) else None
    decreases b
  {
    hide Branches;
    if b.Empty? {
      assert BranchText(b) + more == more && current + Spelled(b) == current;
    } else {
      var tail := BranchText(b.rest) + more;
      var next := QuantifierText(b.quantifier) + tail;
      assert BranchText(b) + more == AtomText(b.atom) + next;
      BranchesAtom(b.atom, next, branches, current);
      if IsCharacter(b.atom) {
        var grown := current + Bytes(b.atom);
        if b.quantifier.Once? {
          assert next == tail;
          BranchesBranch(b.rest, more, branches, grown);
          assert grown + Spelled(b.rest) == current + Spelled(b);
        } else {
          BranchesQuantifier(b.quantifier, tail, branches, grown);
        }
      }
    }
  }

  predicate EndsGroup(more: string) {
    more == "" || more == "$"
  }

  lemma {:induction false} BranchesRegex(r: Regex, more: string, branches: seq<string>)
    requires ValidRegex(r)
    ensures Branches(RegexText(r) + (")" + more), branches, "")
         == if AllPlain(r) && EndsGroup(more) then Some(branches + AllSpelled(r)) else None
    decreases r
  {
    var rest := ")" + more;
    match r
    case Last(branch) =>
      assert rest[1..] == more;
      BranchesBranch(branch, rest, branches, "");
      assert AllSpelled(r) == [Spelled(branch)];
      assert "" + Spelled(branch) == Spelled(branch);
    case Either(branch, others) =>
      var tail := RegexText(others) + rest;
      assert RegexText(r) + rest == BranchText(branch) + ("|" + tail);
      BranchesBranch(branch, "|" + tail, branches, "");
      assert "" + Spelled(branch) == Spelled(branch);
      assert ("|" + tail)[1..] == tail;
      BranchesRegex(others, more, branches + [Spelled(branch)]);
      assert (branches + [Spelled(branch)]) + AllSpelled(others) == branches + AllSpelled(r);
  }

  lemma {:induction false} PlainMatchesOne(r: Regex, s: string, i: nat, j: nat)
    requires AllPlain(r) && i <= j <= |s|
    ensures MatchRegex(r, s, i, j) <==> s[i..j] in AllSpelled(r)
  {
    PlainMatchesItself(r.branch, s, i, j);
    if r.Either? {
      PlainMatchesOne(r.others, s, i, j);
    }
  }

  lemma TextHead(b: Branch, more: string)
    requires ValidBranch(b)
    ensures b.Empty? ==> BranchText(b) + more == more
    ensures b.Piece? ==>
              && ValidAtom(b.atom)
              && BranchText(b) + more == AtomText(b.atom) + (QuantifierText(b.quantifier) + (BranchText(b.rest) + more))
              && (BranchText(b) + more)[0] == AtomText(b.atom)[0]
  {
  }

  lemma BeginsWithAnchor(b: Branch, more: string)
    requires ValidBranch(b)
    requires var text := BranchText(b) + more; text != "" && text[0] == '^' && (more == "" || more[0] != '^')
    ensures b.Piece? && b.atom.Begin?
    ensures BranchText(b) + more == "^" + (QuantifierText(b.quantifier) + (BranchText(b.rest) + more))
  {
    TextHead(b, more);
  }

  lemma BeginsWithGroup(b: Branch, more: string)
    requires ValidBranch(b)
    requires var text := BranchText(b) + more; text != "" && text[0] == '(' && (more == "" || more[0] != '(')
    ensures b.Piece? && b.atom.Group? && ValidAtom(b.atom)
    ensures BranchText(b) + more == AtomText(b.atom) + (QuantifierText(b.quantifier) + (BranchText(b.rest) + more))
  {
    TextHead(b, more);
  }

  lemma QuantifierHead(q: Quantifier, more: string)
    ensures q.Once? ==> QuantifierText(q) + more == more
    ensures !q.Once? ==> QuantifierText(q) + more != "" && (QuantifierText(q) + more)[0] in {'?', '*', '+', '{'}
  {
  }

  lemma NotQuantified(q: Quantifier, more: string)
    requires var text := QuantifierText(q) + more; text == "" || text[0] !in {'?', '*', '+', '{'}
    ensures q.Once? && QuantifierText(q) + more == more
  {
    QuantifierHead(q, more);
  }

  function Others(r: Regex): string {
    if r.Either? then "|" + RegexText(r.others) else ""
  }

  /** Where the second scanner succeeds, the expression is one anchored group of plain branches. */
  lemma AlternationShape(r: Regex, found: seq<string>) returns (inner: Regex)
    requires ValidRegex(r)
    requires var e := RegexText(r); |e| >= 2 && e[0] == '^' && e[1] == '(' && Branches(e[2..], [], "") == Some(found)
    ensures r.Last? && r.branch.Piece? && r.branch.atom.Begin? && r.branch.quantifier.Once?
    ensures r.branch.rest.Piece? && r.branch.rest.atom.Group? && r.branch.rest.quantifier.Once?
    ensures inner == r.branch.rest.atom.inner && AllPlain(inner) && found == AllSpelled(inner)
  {
    hide *;
    var e, b, others := RegexText(r), r.branch, Others(r);
    OthersHead(r);
    ValidRest(r);
    BeginsWithAnchor(b, others);
    var group := b.rest;
    var after := QuantifierText(b.quantifier) + (BranchText(group) + others);
    assert after == e[1..];
    NotQuantified(b.quantifier, BranchText(group) + others);
    BeginsWithGroup(group, others);
    inner := group.atom.inner;
    var more := QuantifierText(group.quantifier) + (BranchText(group.rest) + others);
    assert e[2..] == (AtomText(group.atom) + more)[1..];
    AfterParenthesis(group.atom, more);
    GroupFound(group.atom.flags, inner, more, e[2..], found);
    NotQuantified(group.quantifier, BranchText(group.rest) + others);
    BarEndsNothing(BranchText(group.rest), others);
  }

  lemma OthersHead(r: Regex)
    ensures RegexText(r) == BranchText(r.branch) + Others(r)
    ensures Others(r) == "" <==> r.Last?
    ensures r.Either? ==> Others(r)[0] == '|'
  {
  }

  lemma ValidRest(r: Regex)
    requires ValidRegex(r)
    ensures ValidBranch(r.branch)
    ensures r.branch.Piece? ==> ValidBranch(r.branch.rest)
  {
  }

  lemma AfterParenthesis(a: Atom, more: string)
    requires ValidAtom(a) && a.Group?
    ensures AtomText(a) + more != "" && (AtomText(a) + more)[1..] == a.flags + (RegexText(a.inner) + (")" + more))
    ensures ValidRegex(a.inner) && (a.flags == "" || a.flags[0] == '?')
  {
    GroupText(a);
    hide AtomText, RegexText;
    Unparenthesised(a.flags, RegexText(a.inner), more);
  }

  lemma GroupText(a: Atom)
    requires a.Group?
    ensures AtomText(a) == "(" + (a.flags + (RegexText(a.inner) + ")"))
  {
  }

  lemma Unparenthesised(flags: string, text: string, more: string)
    ensures ("(" + (flags + (text + ")")) + more)[1..] == flags + (text + (")" + more))
  {
  }

  lemma BarEndsNothing(text: string, others: string)
    requires others == "" || others[0] == '|'
    ensures EndsGroup(text + others) ==> others == ""
  {
    assert others != "" ==> (text + others)[|text|] == '|';
  }

  lemma GroupFound(flags: string, inner: Regex, more: string, text: string, found: seq<string>)
    requires ValidRegex(inner) && (flags == "" || flags[0] == '?')
    requires text == flags + (RegexText(inner) + (")" + more))
    requires Branches(text, [], "") == Some(found)
    ensures AllPlain(inner) && EndsGroup(more) && found == AllSpelled(inner)
  {
    if flags == "" {
      assert text == RegexText(inner) + (")" + more);
      BranchesRegex(inner, more, []);
    }
  }

  // ---- main results ----

  /** The first scanner is used, and it cuts a wide character that may be absent. */
  predicate CutsCharacter(r: Regex) {
    && r.Last? && r.branch.Piece? && r.branch.atom.Begin? && r.branch.quantifier.Once?
    && !HasAlternation(RegexText(r)) && Cuts(r.branch.rest)
  }

  /** Every string that the expression matches starts with the chosen prefix, unless a character is cut. */
  lemma ChosenPrefixSound(r: Regex, s: string)
    requires ValidRegex(r) && Matches(r, s) && !CutsCharacter(r)
    ensures ChosenPrefix(RegexText(r)) <= s
  {
    var e := RegexText(r);
    var i, j :| 0 <= i <= j <= |s| && MatchRegex(r, s, i, j);
    if !HasAlternation(e) {
      RegexBalanced(r);
      FixedPrefixSound(r.branch, s, i, j);
    } else if AlternationPrefix(e) != "" {
      var found := Branches(e[2..], [], "").value;
      var inner := AlternationShape(r, found);
      var n, k := MatchHead(r.branch, s, i, j);
      MatchOnce(Begin, s, i, k);
      var n', k' := MatchHead(r.branch.rest, s, k, j);
      MatchOnce(r.branch.rest.atom, s, k, k');
      PlainMatchesOne(inner, s, 0, k');
      assert AlternationPrefix(e) <= s[0..k'] <= s;
    }
  }

  lemma FixedPrefixSound(b: Branch, s: string, i: nat, j: nat)
    requires ValidBranch(b) && i <= j <= |s| && MatchBranch(b, s, i, j)
    requires b.Piece? && b.atom.Begin? && b.quantifier.Once? ==> !Cuts(b.rest)
    ensures FixedPrefix(BranchText(b)) <= s
  {
    var e := BranchText(b);
    if |e| > 1 && e[0] == '^' {
      assert e == e + "";
      BeginsWithAnchor(b, "");
      assert e[1..] == QuantifierText(b.quantifier) + BranchText(b.rest);
      if b.quantifier.Once? {
        var n, k := MatchHead(b, s, i, j);
        MatchOnce(Begin, s, i, k);
        assert e[1..] == BranchText(b.rest);
        ScanIsPrefix(b.rest, "", s, k, j);
      } else {
        QuantifierStops(b.quantifier, BranchText(b.rest), "");
      }
    }
  }

  /** The characters before the one that is cut. */
  function Lead(b: Branch): string
    requires Cuts(b)
  {
    if b.quantifier.Once? then Bytes(b.atom) + Lead(b.rest) else ""
  }

  /** The branch from the character that is cut. */
  function CutAt(b: Branch): (c: Branch)
    requires Cuts(b)
    ensures c.Piece? && c.atom.Wide? && c.atom.bytes != "" && !c.quantifier.Once? && Allows(c.quantifier, 0)
  {
    if b.quantifier.Once? then CutAt(b.rest) else b
  }

  /** The bytes of that character that stay. */
  function Remnant(b: Branch): string
    requires Cuts(b)
  {
    CutAt(b).atom.bytes[..|CutAt(b).atom.bytes| - 1]
  }

  /** Whatever follows the cut character begins, right behind the lead, with the same bytes. */
  ghost predicate RestBeginsAlike(b: Branch)
    requires Cuts(b)
  {
    forall s: string, j | |Lead(b)| <= j <= |s| && Lead(b) <= s && MatchBranch(CutAt(b).rest, s, |Lead(b)|, j) ::
      Lead(b) + Remnant(b) <= s
  }

  lemma CutParts(b: Branch)
    requires Cuts(b)
    ensures b.Piece? && IsCharacter(b.atom)
    ensures b.quantifier.Once? ==>
              && Cuts(b.rest) && CutAt(b) == CutAt(b.rest)
              && Lead(b) == Bytes(b.atom) + Lead(b.rest) && Remnant(b) == Remnant(b.rest)
    ensures !b.quantifier.Once? ==>
              && CutAt(b) == b && Lead(b) == "" && !b.quantifier.OneOrMore?
              && Bytes(b.atom) != "" && Remnant(b) == Bytes(b.atom)[..|Bytes(b.atom)| - 1]
  {
  }

  lemma {:induction false} ScanCut(b: Branch, prefix: string)
    requires Cuts(b) && ValidBranch(b)
    ensures Scan(BranchText(b), prefix) == prefix + (Lead(b) + Remnant(b))
  {
    hide *;
    CutParts(b);
    BranchParts(b);
    var grown := prefix + Bytes(b.atom);
    ScanAtom(b.atom, QuantifierText(b.quantifier) + BranchText(b.rest), prefix);
    if b.quantifier.Once? {
      QuantifierHead(b.quantifier, BranchText(b.rest));
      ScanCut(b.rest, grown);
      assert grown + (Lead(b.rest) + Remnant(b.rest)) == prefix + (Lead(b) + Remnant(b));
    } else {
      QuantifierStops(b.quantifier, BranchText(b.rest), grown);
    }
  }

  lemma {:induction false} MatchCut(b: Branch, s: string, i: nat, j: nat)
    requires Cuts(b) && i <= j <= |s|
    ensures MatchBranch(b, s, i, j) <==>
              var k := i + |Lead(b)|;
              k <= j && s[i..k] == Lead(b) && MatchBranch(CutAt(b), s, k, j)
    decreases b
  {
    hide *;
    CutParts(b);
    if b.quantifier.Once? {
      var k, l := i + |Bytes(b.atom)|, i + |Lead(b)|;
      if MatchBranch(b, s, i, j) {
        var n, m := MatchHead(b, s, i, j);
        MatchOnce(b.atom, s, i, m);
        MatchCharacter(b.atom, s, i, m);
        MatchCut(b.rest, s, k, j);
        SliceSplit(s, i, k, l);
      }
      if l <= j && s[i..l] == Lead(b) && MatchBranch(CutAt(b), s, l, j) {
        SliceParts(s, i, l, Bytes(b.atom), Lead(b.rest));
        MatchCut(b.rest, s, k, j);
        OnceMatches(b, s, i, k, j);
      }
    }
  }

  /** Exactly when no character is cut, or what follows begins alike, all strings matched start with the chosen prefix. */
  lemma ChosenPrefixExact(r: Regex)
    requires ValidRegex(r)
    ensures (forall s :: Matches(r, s) ==> ChosenPrefix(RegexText(r)) <= s)
       <==> (CutsCharacter(r) ==> RestBeginsAlike(r.branch.rest))
  {
    if !CutsCharacter(r) {
      forall s | Matches(r, s) ensures ChosenPrefix(RegexText(r)) <= s {
        ChosenPrefixSound(r, s);
      }
    } else {
      var b := r.branch.rest;
      CutPrefix(r);
      if RestBeginsAlike(b) {
        forall s | Matches(r, s) ensures Lead(b) + Remnant(b) <= s {
          CutMatched(r, s);
        }
      } else {
        var s, j :| |Lead(b)| <= j <= |s| && Lead(b) <= s && MatchBranch(CutAt(b).rest, s, |Lead(b)|, j)
          && !(Lead(b) + Remnant(b) <= s);
        MatchedWithoutCut(r, s, j);
      }
    }
  }

  lemma CutText(r: Regex)
    requires ValidRegex(r) && CutsCharacter(r)
    ensures ValidBranch(r.branch.rest) && BranchText(r.branch.rest) != ""
    ensures RegexText(r) == "^" + BranchText(r.branch.rest)
  {
    ValidRest(r);
    BranchParts(r.branch);
    QuantifierHead(Once, BranchText(r.branch.rest));
    CutParts(r.branch.rest);
    BranchParts(r.branch.rest);
  }

  lemma CutPrefix(r: Regex)
    requires ValidRegex(r) && CutsCharacter(r)
    ensures ChosenPrefix(RegexText(r)) == Lead(r.branch.rest) + Remnant(r.branch.rest)
  {
    hide Scan, Lead, Remnant, HasAlternation, RegexText, BranchText;
    var e, b := RegexText(r), r.branch.rest;
    CutText(r);
    assert e[1..] == BranchText(b);
    ScanCut(b, "");
    assert "" + (Lead(b) + Remnant(b)) == Lead(b) + Remnant(b);
  }

  lemma CutMatched(r: Regex, s: string)
    requires ValidRegex(r) && CutsCharacter(r) && Matches(r, s) && RestBeginsAlike(r.branch.rest)
    ensures Lead(r.branch.rest) + Remnant(r.branch.rest) <= s
  {
    var i, j :| 0 <= i <= j <= |s| && MatchRegex(r, s, i, j);
    var n, k := MatchHead(r.branch, s, i, j);
    MatchOnce(Begin, s, i, k);
    CutBranchMatched(r.branch.rest, s, j);
  }

  lemma CutBranchMatched(b: Branch, s: string, j: nat)
    requires Cuts(b) && j <= |s| && MatchBranch(b, s, 0, j) && RestBeginsAlike(b)
    ensures Lead(b) + Remnant(b) <= s
  {
    hide MatchBranch, MatchAtom, MatchTimes, Lead, CutAt, Cuts, Bytes, Remnant, Allows;
    MatchCut(b, s, 0, j);
    var c, l := CutAt(b), |Lead(b)|;
    var n, m := MatchHead(c, s, l, j);
    if n > 0 {
      var k := MatchFirst(c.atom, n, s, l, m);
      MatchCharacter(c.atom, s, l, k);
      Extended(Lead(b), s, l, k);
      RemnantBytes(b);
      Shorter(Lead(b) + Bytes(c.atom), s, |Lead(b)| + |Remnant(b)|);
      assert (Lead(b) + Bytes(c.atom))[..|Lead(b)| + |Remnant(b)|] == Lead(b) + Remnant(b);
    } else {
      NoneMatched(c.atom, s, l, m);
    }
  }

  lemma RemnantBytes(b: Branch)
    requires Cuts(b)
    ensures IsCharacter(CutAt(b).atom) && Remnant(b) <= Bytes(CutAt(b).atom)
  {
  }

  lemma NoneMatched(a: Atom, s: string, i: nat, j: nat)
    requires i <= j <= |s| && MatchTimes(a, 0, s, i, j)
    ensures i == j
  {
  }

  lemma MatchedWithoutCut(r: Regex, s: string, j: nat)
    requires ValidRegex(r) && CutsCharacter(r)
    requires
      var b := r.branch.rest;
      |Lead(b)| <= j <= |s| && Lead(b) <= s && MatchBranch(CutAt(b).rest, s, |Lead(b)|, j)
    ensures Matches(r, s)
  {
    var b := r.branch.rest;
    var c, l := CutAt(b), |Lead(b)|;
    assert MatchTimes(c.atom, 0, s, l, l);
    assert MatchBranch(c, s, l, j);
    assert s[0..l] == Lead(b);
    MatchCut(b, s, 0, j);
    assert MatchAtom(Begin, s, 0, 0) && MatchTimes(Begin, 0, s, 0, 0);
    assert MatchTimes(Begin, 1, s, 0, 0) && Allows(Once, 1);
    assert MatchBranch(r.branch, s, 0, j);
    assert MatchRegex(r, s, 0, j);
  }

  const E_ACUTE := [0xC3 as char, 0xA9 as char]

  const ABC := Piece(Literal('a'), Once, Piece(Literal('b'), Once, Piece(Literal('c'), Once, Empty)))

  const OPTIONAL_WIDE := Piece(Wide(E_ACUTE), ZeroOrOne(false), ABC)

  lemma LetterText(c: char, b: Branch)
    requires ValidBranch(b) && Plain(b) && 'a' <= c <= 'z'
    ensures
      var p := Piece(Literal(c), Once, b);
      ValidBranch(p) && Plain(p) && Spelled(p) == [c] + Spelled(b) && BranchText(p) == [c] + BranchText(b)
  {
    var p := Piece(Literal(c), Once, b);
    BranchParts(p);
    QuantifierHead(Once, BranchText(b));
  }

  lemma OptionalWideText()
    ensures ValidBranch(OPTIONAL_WIDE) && Plain(ABC)
    ensures Spelled(ABC) == BranchText(ABC) == "abc"
  {
    assert ValidAtom(OPTIONAL_WIDE.atom);
    hide Spelled, BranchText;
    EmptyText();
    LetterText('c', Empty);
    LetterText('b', ABC.rest.rest);
    LetterText('a', ABC.rest);
  }

  lemma EmptyText()
    ensures ValidBranch(Empty) && Plain(Empty) && Spelled(Empty) == BranchText(Empty) == ""
  {
  }

  lemma Anchored(b: Branch)
    requires ValidBranch(b)
    ensures
      var r := Last(Piece(Begin, Once, b));
      ValidRegex(r) && RegexText(r) == "^" + BranchText(b)
  {
    var piece := Piece(Begin, Once, b);
    assert ValidBranch(piece);
    BranchParts(piece);
    QuantifierHead(Once, BranchText(b));
    assert AtomText(Begin) == "^";
  }

  lemma OptionalWideCuts()
    ensures Cuts(OPTIONAL_WIDE) && Lead(OPTIONAL_WIDE) == "" && CutAt(OPTIONAL_WIDE) == OPTIONAL_WIDE
    ensures Remnant(OPTIONAL_WIDE) == [0xC3 as char]
    ensures BranchText(OPTIONAL_WIDE) == E_ACUTE + ("?" + BranchText(ABC))
  {
    assert BranchText(OPTIONAL_WIDE) == E_ACUTE + (QuantifierText(ZeroOrOne(false)) + BranchText(ABC));
  }

  /** The expression `^\u00E9?abc`, in which the accented letter has two bytes: it matches "abc", and the first of the two
      bytes is taken for a prefix. */
  lemma CutExample()
    ensures
      var r := Last(Piece(Begin, Once, OPTIONAL_WIDE));
      && ValidRegex(r) && RegexText(r) == "^" + (E_ACUTE + "?abc")
      && Matches(r, "abc") && ChosenPrefix(RegexText(r)) == [0xC3 as char]
  {
    hide Spelled, Plain, BranchText, RegexText, MatchBranch, Scan, HasAlternation, ValidRegex, ValidBranch, Cuts, Lead, CutAt, Remnant, ChosenPrefix, Matches;
    var r := Last(Piece(Begin, Once, OPTIONAL_WIDE));
    OptionalWideText();
    OptionalWideCuts();
    Anchored(OPTIONAL_WIDE);
    assert "?" + BranchText(ABC) == "?abc";
    ExampleNoAlternation();
    assert "abc"[0..3] == "abc";
    PlainMatchesItself(ABC, "abc", 0, 3);
    CutPrefix(r);
    MatchedWithoutCut(r, "abc", 3);
    assert [] + [0xC3 as char] == [0xC3 as char];
  }

  lemma ExampleNoAlternation()
    ensures !HasAlternation("^" + (E_ACUTE + "?abc"))
  {
    var text := E_ACUTE + "?abc";
    WideText(E_ACUTE);
    BalancedConcat(E_ACUTE, "?abc");
    assert !HasAlternation("abc") && "?abc"[1..] == "abc";
    assert ("^" + text)[1..] == text;
  }

  /** Nothing longer is shared by all branches. */
  lemma {:induction false} CommonIsLongest(branches: seq<string>, p: string)
    requires branches != [] && forall i :: 0 <= i < |branches| ==> p <= branches[i]
    ensures p <= CommonOfAll(branches)
  {
    if |branches| > 1 {
      var last := |branches| - 1;
      forall i | 0 <= i < last ensures p <= branches[..last][i] {
        assert branches[..last][i] == branches[i];
      }
      CommonIsLongest(branches[..last], p);
      PartingAfter(CommonOfAll(branches[..last]), branches[last], p, 0);
    }
  }

  lemma {:induction false} PartingAfter(a: string, b: string, p: string, k: nat)
    requires p <= a && p <= b && k <= |p|
    ensures |p| <= Parting(a, b, k)
    decreases |p| - k
  {
    if k < |p| {
      assert a[k] == p[k] == b[k];
      PartingAfter(a, b, p, k + 1);
    }
  }

  /** For an anchored plain text the prefix is the whole text. */
  lemma LiteralPrefixExact(b: Branch)
    requires ValidBranch(b) && Plain(b)
    ensures ChosenPrefix("^" + BranchText(b)) == Spelled(b)
  {
    var e := "^" + BranchText(b);
    assert e[1..] == BranchText(b);
    ScanPlain(b, "");
    PlainHasNoAlternation(b);
    assert "" + Spelled(b) == Spelled(b);
  }

  lemma {:induction false} ScanPlain(b: Branch, prefix: string)
    requires ValidBranch(b) && Plain(b)
    ensures Scan(BranchText(b), prefix) == prefix + Spelled(b)
  {
    hide *;
    BranchParts(b);
    if b.Empty? {
      EmptyText();
      ScanNothing(prefix);
    } else {
      SpelledHead(b);
      QuantifierHead(b.quantifier, BranchText(b.rest));
      ScanAtom(b.atom, BranchText(b.rest), prefix);
      ScanPlain(b.rest, prefix + Bytes(b.atom));
      assert prefix + Bytes(b.atom) + Spelled(b.rest) == prefix + Spelled(b);
    }
  }

  lemma {:induction false} PlainHasNoAlternation(b: Branch)
    requires ValidBranch(b) && Plain(b)
    ensures !HasAlternation(BranchText(b))
  {
    if b.Piece? {
      PlainHasNoAlternation(b.rest);
      QuantifierHead(b.quantifier, BranchText(b.rest));
      if b.atom.Wide? {
        WideText(b.atom.bytes);
        BalancedConcat(b.atom.bytes, BranchText(b.rest));
      } else {
        assert BranchText(b)[|AtomText(b.atom)|..] == BranchText(b.rest);
      }
    }
  }

  /** For an anchored group of plain alternatives it is the longest prefix they share. */
  lemma AlternationPrefixExact(r: Regex, more: string)
    requires ValidRegex(r) && AllPlain(r) && r.Either? && EndsGroup(more)
    ensures ChosenPrefix("^(" + (RegexText(r) + (")" + more))) == CommonOfAll(AllSpelled(r))
  {
    var text := RegexText(r) + (")" + more);
    var e := "^(" + text;
    assert e[2..] == text && e[1..][1..] == text;
    BranchesRegex(r, more, []);
    assert [] + AllSpelled(r) == AllSpelled(r);
    RegexBalanced(r);
    BalancedConcat(RegexText(r), ")" + more);
    assert HasAlternation(e);
  }
}
