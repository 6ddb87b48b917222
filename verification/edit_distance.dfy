/** Levenshtein edit distance, as used by the fuzzy search over makes,
    models and customer names. */
module EditDistance {

  function Min3(a: nat, b: nat, c: nat): (m: nat)
    ensures m <= a && m <= b && m <= c
    ensures m == a || m == b || m == c
  {
    if a <= b && a <= c then a else if b <= c then b else c
  }

  function Max(a: nat, b: nat): nat {
    if a >= b then a else b
  }

  /** The recursive definition of the distance: the cheapest of deleting the
      last character of `a`, inserting the last character of `b`, or
      matching/substituting the two last characters. */
  function Distance(a: string, b: string): nat
    decreases |a| + |b|
  {
    if |a| == 0 then |b|
    else if |b| == 0 then |a|
    else
      Min3(Distance(a[..|a| - 1], b) + 1,
           Distance(a, b[..|b| - 1]) + 1,
           Distance(a[..|a| - 1], b[..|b| - 1]) + (if a[|a| - 1] == b[|b| - 1] then 0 else 1))
  }

  /** The dynamic-programming computation: cell (i, j) of the table holds the
      distance between the first i characters of `s1` and the first j of `s2`. */
  method LevenshteinDistance(s1: string, s2: string) returns (r: nat)
    ensures r == Distance(s1, s2)
  {
    var len1, len2 := |s1|, |s2|;
    var d := new nat[len1 + 1, len2 + 1];
    var i := 0;
    while i <= len1
      invariant 0 <= i <= len1 + 1
      invariant forall k :: 0 <= k < i ==> d[k, 0] == PrefixDistance(s1, s2, k, 0)
    {
      DistanceBounds(s1[..i], s2[..0]);
      d[i, 0] := i;
      i := i + 1;
    }
    var j := 0;
    while j <= len2
      invariant 0 <= j <= len2 + 1
      invariant forall k :: 0 <= k <= len1 ==> d[k, 0] == PrefixDistance(s1, s2, k, 0)
      invariant forall l :: 0 <= l < j ==> d[0, l] == PrefixDistance(s1, s2, 0, l)
    {
      DistanceBounds(s1[..0], s2[..j]);
      d[0, j] := j;
      j := j + 1;
    }
    i := 1;
    while i <= len1
      invariant 1 <= i <= len1 + 1
      invariant forall k :: 0 <= k <= len1 ==> d[k, 0] == PrefixDistance(s1, s2, k, 0)
      invariant forall k, l :: 0 <= k < i && 0 <= l <= len2 ==> d[k, l] == PrefixDistance(s1, s2, k, l)
    {
      j := 1;
      while j <= len2
        invariant 1 <= j <= len2 + 1
        invariant forall k :: 0 <= k <= len1 ==> d[k, 0] == PrefixDistance(s1, s2, k, 0)
        invariant forall k, l :: 0 <= k < i && 0 <= l <= len2 ==> d[k, l] == PrefixDistance(s1, s2, k, l)
        invariant forall l :: 0 <= l < j ==> d[i, l] == PrefixDistance(s1, s2, i, l)
      {
        PrefixStep(s1, s2, i, j);
        d[i, j] := Min3(d[i - 1, j] + 1,
                        d[i, j - 1] + 1,
                        d[i - 1, j - 1] + (if s1[i - 1] == s2[j - 1] then 0 else 1));
        j := j + 1;
      }
      i := i + 1;
    }
    assert s1[..len1] == s1 && s2[..len2] == s2;
    r := d[len1, len2];
  }

  /** The distance between the first `i` characters of `s1` and the first
      `j` of `s2`. */
  function PrefixDistance(s1: string, s2: string, i: nat, j: nat): nat
    requires i <= |s1| && j <= |s2|
  {
    Distance(s1[..i], s2[..j])
  }

  /** One cell of the table: the distance of two non-empty prefixes in terms
      of the three neighbouring shorter prefixes. */
  lemma PrefixStep(s1: string, s2: string, i: nat, j: nat)
    requires 1 <= i <= |s1| && 1 <= j <= |s2|
    ensures PrefixDistance(s1, s2, i, j)
         == Min3(PrefixDistance(s1, s2, i - 1, j) + 1,
                 PrefixDistance(s1, s2, i, j - 1) + 1,
                 PrefixDistance(s1, s2, i - 1, j - 1) + (if s1[i - 1] == s2[j - 1] then 0 else 1))
  {
    assert s1[..i][..i - 1] == s1[..i - 1];
    assert s2[..j][..j - 1] == s2[..j - 1];
  }

  /** The distance is at least the difference of the lengths and at most the
      longer length; against the empty string it is the other length. */
  lemma {:induction false} DistanceBounds(a: string, b: string)
    ensures |a| - |b| <= Distance(a, b) && |b| - |a| <= Distance(a, b)
    ensures Distance(a, b) <= Max(|a|, |b|)
    ensures |b| == 0 ==> Distance(a, b) == |a|
    ensures |a| == 0 ==> Distance(a, b) == |b|
    decreases |a| + |b|
  {
    if |a| > 0 && |b| > 0 {
      DistanceBounds(a[..|a| - 1], b);
      DistanceBounds(a, b[..|b| - 1]);
      DistanceBounds(a[..|a| - 1], b[..|b| - 1]);
    }
  }

  /** The distance is zero exactly when the strings are equal. */
  lemma {:induction false} DistanceZeroIff(a: string, b: string)
    ensures Distance(a, b) == 0 <==> a == b
    decreases |a| + |b|
  {
    if |a| > 0 && |b| > 0 {
      var a', b' := a[..|a| - 1], b[..|b| - 1];
      assert a == a' + [a[|a| - 1]];
      assert b == b' + [b[|b| - 1]];
      DistanceZeroIff(a', b');
      if a == b {
        assert a' == b';
      }
    }
  }

  /** Transforming `a` into `b` costs as much as transforming `b` into `a`. */
  lemma {:induction false} DistanceSymmetric(a: string, b: string)
    ensures Distance(a, b) == Distance(b, a)
    decreases |a| + |b|
  {
    if |a| > 0 && |b| > 0 {
      DistanceSymmetric(a[..|a| - 1], b);
      DistanceSymmetric(a, b[..|b| - 1]);
      DistanceSymmetric(a[..|a| - 1], b[..|b| - 1]);
    }
  }
}
