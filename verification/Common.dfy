/** Small shared vocabulary: optional values, results, and Python's slice rule. */
module Common {

  datatype Option<+T> = None | Some(value: T)

  datatype Result<+T, +E> = Ok(value: T) | Err(error: E)

  /** Where a Python slice bound lands in a sequence of length n: negative bounds
      count from the end and everything is clamped to [0, n]. */
  function SliceBound(i: int, n: nat): (r: nat)
    ensures r <= n
  {
    if i < 0 then (if n + i < 0 then 0 else n + i)
    else if i > n then n else i
  }

  /** Python's s[i:j]. */
  function Slice<T>(s: seq<T>, i: int, j: int): (r: seq<T>)
    ensures 0 <= i <= j <= |s| ==> r == s[i..j]
  {
    var a, b := SliceBound(i, |s|), SliceBound(j, |s|);
    if a <= b then s[a..b] else []
  }

  /** Python's s[i:]. */
  function SliceFrom<T>(s: seq<T>, i: int): (r: seq<T>)
    ensures 0 <= i <= |s| ==> r == s[i..]
  {
    s[SliceBound(i, |s|)..]
  }

  predicate Distinct<T(==)>(s: seq<T>) {
    forall i, j :: 0 <= i < j < |s| ==> s[i] != s[j]
  }

  lemma ConcatAssociative<T>(a: seq<T>, b: seq<T>, c: seq<T>)
    ensures (a + b) + c == a + (b + c)
  {
  }

  lemma CoverStep<T>(src: seq<T>, from: nat, a: seq<T>, b: seq<T>)
    requires from + |a| + |b| <= |src| && src[from..from + |a| + |b|] == a + b
    ensures src[from + |a|..from + |a| + |b|] == b
    ensures a != [] ==> src[from] == a[0]
  {
    var covered := src[from..from + |a| + |b|];
    assert covered[|a|..] == b;
    assert a != [] ==> covered[0] == a[0];
  }

  lemma FourConcat<T>(a: seq<T>, b: seq<T>, c: seq<T>, d: seq<T>)
    ensures a + b + c + d == a + (b + c + d)
  {
  }

  lemma SplitThree<T>(s: seq<T>, from: nat, a: seq<T>, b: seq<T>, c: seq<T>)
    requires from <= |s| && s[from..] == a + b + c
    ensures |s| == from + |a| + |b| + |c|
    ensures s[from..from + |a|] == a && s[from + |a|..from + |a| + |b|] == b && s[from + |a| + |b|..] == c
  {
    var t := s[from..];
    assert t[..|a|] == a && t[|a|..|a| + |b|] == b && t[|a| + |b|..] == c;
  }

  lemma SuffixInThree<T>(s: seq<T>, from: nat, start: nat, end: nat)
    requires from <= start <= end <= |s|
    ensures s[from..start] + s[start..end] + s[end..] == s[from..]
  {
  }

  lemma CommuteWithOne<T>(left: seq<T>, x: T, w: seq<T>, right: seq<T>)
    ensures (left + w + ([x] + right) == left + [x] + w + right) <==> (forall k :: 0 <= k < |w| ==> w[k] == x)
  {
    var a, b := left + w + ([x] + right), left + [x] + w + right;
    if a == b {
      var k := 0;
      while k < |w|
        invariant 0 <= k <= |w| && forall j :: 0 <= j < k ==> w[j] == x
      {
        assert a[|left| + k] == w[k];
        assert b[|left| + k] == if k == 0 then x else w[k - 1];
        k := k + 1;
      }
    }
  }

  lemma AnyMember<T>(s: set<T>) returns (x: T)
    requires s != {}
    ensures x in s
  {
    x :| x in s;
  }

  lemma SubsetSize<T>(a: set<T>, b: set<T>)
    requires a <= b
    ensures |a| <= |b| && (|a| == |b| <==> a == b)
  {
    var rest := b - a;
    assert b == a + rest;
    assert a != b ==> rest != {};
  }

  function Max(a: int, b: int): int {
    if a >= b then a else b
  }

  function Min(a: int, b: int): int {
    if a <= b then a else b
  }
}
