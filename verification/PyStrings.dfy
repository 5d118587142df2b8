/** The Python string operations the parsers rely on, with the facts proved about them. */
module PyStrings {
  import opened Common

  predicate StartsWith(s: string, prefix: string) {
    |s| >= |prefix| && s[..|prefix|] == prefix
  }

  /** `str.isspace` for one character. */
  predicate IsSpace(c: char) {
    || '\t' <= c <= '\r'
    || '\U{1C}' <= c <= ' '
    || '\U{2000}' <= c <= '\U{200A}'
    || c == '\U{85}' || c == '\U{A0}' || c == '\U{1680}' || c == '\U{2028}' || c == '\U{2029}'
    || c == '\U{202F}' || c == '\U{205F}' || c == '\U{3000}'
  }

  /** The first place from i on that is not white space, or |s|. */
  function LeftEdge(s: string, i: nat): (e: nat)
    requires i <= |s|
    ensures i <= e <= |s| && (e < |s| ==> !IsSpace(s[e]))
    ensures forall k :: i <= k < e ==> IsSpace(s[k])
    decreases |s| - i
  {
    if i < |s| && IsSpace(s[i]) then LeftEdge(s, i + 1) else i
  }

  /** The end of the text before the white space that ends at i. */
  function RightEdge(s: string, i: nat): (e: nat)
    requires i <= |s|
    ensures e <= i && (e > 0 ==> !IsSpace(s[e - 1]))
    ensures forall k :: e <= k < i ==> IsSpace(s[k])
  {
    if i > 0 && IsSpace(s[i - 1]) then RightEdge(s, i - 1) else i
  }

  function TrimLeft(s: string): (r: string)
    ensures |r| <= |s| && r == s[|s| - |r|..]
    ensures r != "" ==> !IsSpace(r[0])
  {
    s[LeftEdge(s, 0)..]
  }

  function TrimRight(s: string): (r: string)
    ensures |r| <= |s| && r == s[..|r|]
    ensures r != "" ==> !IsSpace(r[|r| - 1])
  {
    s[..RightEdge(s, |s|)]
  }

  /** `str.strip()`. */
  function Strip(s: string): (r: string) {
    TrimRight(TrimLeft(s))
  }

  predicate Blank(s: string) {
    forall k :: 0 <= k < |s| ==> IsSpace(s[k])
  }

  predicate Trimmed(s: string) {
    s == "" || (!IsSpace(s[0]) && !IsSpace(s[|s| - 1]))
  }

  lemma TrimLeftBlank(s: string)
    ensures TrimLeft(s) == "" <==> Blank(s)
  {
    hide IsSpace;
    var e := LeftEdge(s, 0);
    if e < |s| {
      assert !IsSpace(s[e]);
    }
  }

  /** Stripping yields a trimmed text, changes nothing that is trimmed, and empties exactly the blanks. */
  lemma StripFacts(s: string)
    ensures Trimmed(Strip(s))
    ensures Trimmed(s) ==> Strip(s) == s
    ensures Strip(s) == "" <==> Blank(s)
    ensures Strip(Strip(s)) == Strip(s)
  {
    TrimLeftBlank(s);
    var l := TrimLeft(s);
    if l != "" {
      TrimRightKeepsHead(l);
    }
  }

  lemma TrimLeftOf(a: string, t: string)
    requires Blank(a) && t != "" && !IsSpace(t[0])
    ensures TrimLeft(a + t) == t
  {
    hide IsSpace;
    var s := a + t;
    assert s[|a|] == t[0] && forall k :: 0 <= k < |a| ==> s[k] == a[k];
    assert LeftEdge(s, 0) == |a|;
  }

  lemma TrimRightOf(t: string, b: string)
    requires Blank(b) && t != "" && !IsSpace(t[|t| - 1])
    ensures TrimRight(t + b) == t
  {
    hide IsSpace;
    var s := t + b;
    assert s[|t| - 1] == t[|t| - 1] && forall k :: |t| <= k < |s| ==> s[k] == b[k - |t|];
    assert RightEdge(s, |s|) == |t|;
  }

  /** Stripping a trimmed text with white space around it gives the text. */
  lemma StripAround(a: string, t: string, b: string)
    requires Blank(a) && Trimmed(t) && Blank(b)
    ensures Strip(a + t + b) == t
  {
    hide IsSpace, TrimLeft, TrimRight;
    if t == "" {
      StripFacts(a + t + b);
    } else {
      assert a + t + b == a + (t + b);
      TrimLeftOf(a, t + b);
      TrimRightOf(t, b);
    }
  }

  /** What stripping takes away is the white space around the rest. */
  lemma StripCuts(s: string) returns (a: string, b: string)
    ensures s == a + Strip(s) + b && Blank(a) && Blank(b)
  {
    hide IsSpace;
    var e := LeftEdge(s, 0);
    var l := s[e..];
    var f := RightEdge(l, |l|);
    a, b := s[..e], l[f..];
  }

  lemma TrimRightKeepsHead(s: string)
    requires s != "" && !IsSpace(s[0])
    ensures TrimRight(s) != "" && TrimRight(s)[0] == s[0]
  {
    hide IsSpace;
    var head := s[0];
    assert RightEdge(s, |s|) > 0;
  }

  /** The first place of c in s from i on, or |s|. */
  function Find(s: string, c: char, i: nat): (p: nat)
    requires i <= |s|
    ensures i <= p <= |s| && (p < |s| ==> s[p] == c)
    ensures forall k :: i <= k < p ==> s[k] != c
    decreases |s| - i
  {
    if i == |s| || s[i] == c then i else Find(s, c, i + 1)
  }

  /** `s.split(c)[0]`: everything before the first c. */
  function Before(s: string, c: char): (r: string)
    ensures |r| <= |s| && r == s[..|r|]
    ensures c !in r
    ensures |r| < |s| ==> s[|r|] == c
  {
    s[..Find(s, c, 0)]
  }

  lemma BeforeAppend(a: string, c: char, b: string)
    requires c !in a
    ensures Before(a + [c] + b, c) == a
  {
    var s := a + [c] + b;
    assert s[|a|] == c && forall k :: 0 <= k < |a| ==> s[k] == a[k] && a[k] in a;
    assert Find(s, c, 0) == |a| && s[..|a|] == a;
  }

  lemma BeforeAbsent(a: string, c: char)
    requires c !in a
    ensures Before(a, c) == a
  {
    assert forall k :: 0 <= k < |a| ==> a[k] in a;
    assert Find(a, c, 0) == |a|;
  }

  /** The first place from i on that is not a dash, or |s|. */
  function DashEdge(s: string, i: nat): (e: nat)
    requires i <= |s|
    ensures i <= e <= |s|
    decreases |s| - i
  {
    if i < |s| && s[i] == '-' then DashEdge(s, i + 1) else i
  }

  /** `s.lstrip("-")`. */
  function DropDashes(s: string): (r: string) {
    s[DashEdge(s, 0)..]
  }

  // ---- decimal integers ----

  predicate IsDigit(c: char) { '0' <= c <= '9' }

  function DigitValue(c: char): (d: nat)
    requires IsDigit(c)
    ensures d < 10
  {
    c as int - '0' as int
  }

  function DigitChar(d: nat): (c: char)
    requires d < 10
    ensures IsDigit(c) && DigitValue(c) == d
  {
    (d + '0' as int) as char
  }

  /** The digits from i on, with single underscores between them, accumulated onto acc. */
  function DigitRun(s: string, i: nat, acc: nat): (r: Option<nat>)
    requires i <= |s|
    decreases |s| - i
  {
    if i == |s| then Some(acc)
    else if IsDigit(s[i]) then DigitRun(s, i + 1, 10 * acc + DigitValue(s[i]))
    else if s[i] == '_' && i + 1 < |s| && IsDigit(s[i + 1]) then DigitRun(s, i + 1, acc)
    else None
  }

  /** Python's `int(s)` on ASCII text. */
  function ParseInt(s: string): (r: Option<int>) {
    var t := Strip(s);
    var negative := t != "" && t[0] == '-';
    var digits := if t != "" && (t[0] == '-' || t[0] == '+') then t[1..] else t;
    if digits == "" || !IsDigit(digits[0]) then None
    else match DigitRun(digits, 0, 0)
         case None => None
         case Some(v) => Some(if negative then -(v as int) else v as int)
  }

  function Decimal(n: nat): (s: string)
    ensures s != "" && forall k :: 0 <= k < |s| ==> IsDigit(s[k])
  {
    if n < 10 then [DigitChar(n)] else Decimal(n / 10) + [DigitChar(n % 10)]
  }

  lemma {:induction false} DigitRunSnoc(s: string, i: nat, c: char, acc: nat)
    requires i <= |s| && IsDigit(c) && forall k :: 0 <= k < |s| ==> IsDigit(s[k])
    ensures DigitRun(s, i, acc).Some?
    ensures DigitRun(s + [c], i, acc) == Some(10 * DigitRun(s, i, acc).value + DigitValue(c))
    decreases |s| - i
  {
    var t := s + [c];
    if i == |s| {
      assert t[i] == c && DigitRun(t, i + 1, 10 * acc + DigitValue(c)) == Some(10 * acc + DigitValue(c));
    } else {
      assert t[i] == s[i];
      DigitRunSnoc(s, i + 1, c, 10 * acc + DigitValue(s[i]));
    }
  }

  lemma {:induction false} DigitRunDecimal(n: nat)
    ensures DigitRun(Decimal(n), 0, 0) == Some(n)
  {
    if n < 10 {
      DigitRunSnoc("", 0, DigitChar(n), 0);
      assert "" + [DigitChar(n)] == Decimal(n);
    } else {
      DigitRunDecimal(n / 10);
      DigitRunSnoc(Decimal(n / 10), 0, DigitChar(n % 10), 0);
    }
  }

  lemma ParseIntDigits(t: string, v: nat)
    requires t != "" && IsDigit(t[0]) && Strip(t) == t
    requires DigitRun(t, 0, 0) == Some(v)
    ensures ParseInt(t) == Some(v as int)
  {
    hide Strip;
  }

  lemma StripTrimmed(t: string)
    requires Trimmed(t)
    ensures Strip(t) == t
  {
    StripFacts(t);
  }

  /** Reading back a printed number gives the number. */
  lemma ParseIntDecimal(n: nat)
    ensures ParseInt(Decimal(n)) == Some(n as int)
  {
    var t := Decimal(n);
    assert IsDigit(t[0]) && IsDigit(t[|t| - 1]);
    StripTrimmed(t);
    DigitRunDecimal(n);
    ParseIntDigits(t, n);
  }
}
