/** Text in memory as the C library sees it: occurrences of a pattern, the leftmost
    one (`strstr`), and the text in front of the first terminator. */
module CStrings {

  datatype Option<+T> = None | Some(value: T) {
    predicate IsFailure() {
      None?
    }

    function PropagateFailure<U>(): Option<U>
      requires None?
    {
      None
    }

    function Extract(): T
      requires Some?
    {
      value
    }
  }

  predicate OccursAt<T(==)>(s: seq<T>, pat: seq<T>, i: nat) {
    i + |pat| <= |s| && s[i..i + |pat|] == pat
  }

  ghost predicate Contains<T>(s: seq<T>, pat: seq<T>) {
    exists i: nat :: OccursAt(s, pat, i)
  }

  /** `strstr`: the leftmost occurrence of `pat` in `s`. */
  function Find<T(==)>(s: seq<T>, pat: seq<T>): (r: Option<nat>)
    ensures r.Some? ==> OccursAt(s, pat, r.value) && forall j: nat :: j < r.value ==> !OccursAt(s, pat, j)
    ensures r.None? <==> !Contains(s, pat)
  {
    FindFrom(s, pat, 0)
  }

  function FindFrom<T(==)>(s: seq<T>, pat: seq<T>, i: nat): (r: Option<nat>)
    requires i <= |s|
    ensures r.Some? ==> i <= r.value && OccursAt(s, pat, r.value)
    ensures r.Some? ==> forall j: nat :: i <= j < r.value ==> !OccursAt(s, pat, j)
    ensures r.None? ==> forall j: nat :: i <= j ==> !OccursAt(s, pat, j)
    decreases |s| - i
  {
    if OccursAt(s, pat, i) then Some(i)
    else if i == |s| then None
    else FindFrom(s, pat, i + 1)
  }

  /** `strlen`: how many elements stand in front of the first `nul`, all of them if there is none. */
  function TextLength<T(==)>(s: seq<T>, nul: T): (n: nat)
    ensures n <= |s| && nul !in s[..n]
    ensures n < |s| ==> s[n] == nul
    ensures n < |s| <==> nul in s
  {
    if s == [] || s[0] == nul then 0 else
    var n := 1 + TextLength(s[1..], nul);
    assert s[..n] == [s[0]] + s[1..][..n - 1];
    n
  }

  function Text<T(==)>(s: seq<T>, nul: T): (t: seq<T>)
    ensures nul !in t && t <= s
  {
    s[..TextLength(s, nul)]
  }

  /** The text is the only terminator-free prefix that ends at a terminator or at the end of memory. */
  lemma TextUnique<T>(s: seq<T>, nul: T, n: nat)
    requires n <= |s| && nul !in s[..n] && (n < |s| ==> s[n] == nul)
    ensures Text(s, nul) == s[..n]
  {
    var m := TextLength(s, nul);
    forall k | 0 <= k < n ensures s[k] != nul {
      assert s[k] == s[..n][k];
    }
    forall k | 0 <= k < m ensures s[k] != nul {
      assert s[k] == s[..m][k];
    }
  }

  lemma FindIs<T>(s: seq<T>, pat: seq<T>, i: nat)
    requires OccursAt(s, pat, i)
    requires forall j: nat :: j < i ==> !OccursAt(s, pat, j)
    ensures Find(s, pat) == Some(i)
  {
  }

  lemma NoOccurrence<T>(s: seq<T>, pat: seq<T>, i: nat, k: nat)
    requires i + k < |s| && k < |pat| && s[i + k] != pat[k]
    ensures !OccursAt(s, pat, i)
  {
    if i + |pat| <= |s| {
      assert s[i..i + |pat|][k] == s[i + k];
    }
  }

  /** What is found in a prefix is found at the same place in the whole. */
  lemma FindInPrefix<T>(part: seq<T>, s: seq<T>, pat: seq<T>)
    requires part <= s && Find(part, pat).Some?
    ensures Find(s, pat) == Find(part, pat)
  {
    var i := Find(part, pat).value;
    assert s[0..|part|] == part;
    OccursInPart(s, pat, i, 0, |part|);
    forall j: nat | j < i ensures !OccursAt(s, pat, j) {
      OccursInPart(s, pat, j, 0, |part|);
    }
    FindIs(s, pat, i);
  }

  /** A pattern whose first element does not occur in `a` is found in `a + b` no earlier than `b`. */
  lemma FindAfter<T>(a: seq<T>, b: seq<T>, pat: seq<T>)
    requires pat != [] && pat[0] !in a && pat <= b
    ensures Find(a + b, pat) == Some(|a|)
  {
    var s := a + b;
    assert s[|a|..|a| + |pat|] == pat;
    forall j: nat | j < |a| ensures !OccursAt(s, pat, j) {
      NoOccurrence(s, pat, j, 0);
    }
    FindIs(s, pat, |a|);
  }

  /** An occurrence cannot reach across an element that the pattern does not contain. */
  lemma OccurrenceAvoids<T>(s: seq<T>, pat: seq<T>, i: nat, k: nat)
    requires k < |s| && s[k] !in pat
    ensures OccursAt(s, pat, i) ==> k < i || i + |pat| <= k
  {
    if i <= k < i + |pat| {
      NoOccurrence(s, pat, i, k - i);
    }
  }

  lemma OccursInPart<T>(s: seq<T>, pat: seq<T>, i: nat, lo: nat, hi: nat)
    requires lo <= i && i + |pat| <= hi <= |s|
    ensures OccursAt(s, pat, i) <==> OccursAt(s[lo..hi], pat, i - lo)
  {
    var part := s[lo..hi][i - lo..i - lo + |pat|];
    var same := s[i..i + |pat|];
    assert |part| == |same|;
    assert forall k :: 0 <= k < |pat| ==> part[k] == same[k];
    assert part == same;
  }

  lemma ContainsPart<T>(s: seq<T>, pat: seq<T>, lo: nat, hi: nat)
    requires lo <= hi <= |s| && Contains(s[lo..hi], pat)
    ensures Contains(s, pat)
  {
    var i: nat :| OccursAt(s[lo..hi], pat, i);
    OccursInPart(s, pat, lo + i, lo, hi);
  }

  /** Around one element foreign to the pattern, every occurrence lies on one side. */
  lemma ContainsAround<T>(a: seq<T>, x: T, b: seq<T>, pat: seq<T>)
    requires x !in pat && pat != []
    ensures Contains(a + [x] + b, pat) <==> Contains(a, pat) || Contains(b, pat)
  {
    var s := a + [x] + b;
    assert s[0..|a|] == a && s[|a| + 1..|s|] == b;
    if Contains(s, pat) {
      var i: nat :| OccursAt(s, pat, i);
      OccurrenceAvoids(s, pat, i, |a|);
      if i < |a| {
        OccursInPart(s, pat, i, 0, |a|);
      } else {
        OccursInPart(s, pat, i, |a| + 1, |s|);
        assert OccursAt(b, pat, i - |a| - 1);
      }
    }
    if Contains(a, pat) {
      ContainsPart(s, pat, 0, |a|);
    }
    if Contains(b, pat) {
      ContainsPart(s, pat, |a| + 1, |s|);
    }
  }

  lemma ContainsBehind<T>(x: T, b: seq<T>, pat: seq<T>)
    requires x !in pat && pat != []
    ensures Contains([x] + b, pat) <==> Contains(b, pat)
  {
    ContainsAround([], x, b, pat);
    assert [] + [x] + b == [x] + b;
    assert forall i: nat :: !OccursAt([], pat, i);
  }

  lemma OccursElement<T>(s: seq<T>, pat: seq<T>, i: nat, k: nat)
    requires OccursAt(s, pat, i) && k < |pat|
    ensures s[i + k] == pat[k]
  {
    assert s[i..i + |pat|][k] == s[i + k];
  }

  /** Two parts stand one behind the other exactly where their concatenation stands. */
  lemma OccursSplit<T>(s: seq<T>, a: seq<T>, b: seq<T>, i: nat)
    ensures OccursAt(s, a + b, i) <==> OccursAt(s, a, i) && OccursAt(s, b, i + |a|)
  {
    if i + |a| + |b| <= |s| {
      assert s[i..i + |a + b|] == s[i..i + |a|] + s[i + |a|..i + |a| + |b|];
      assert (a + b)[..|a|] == a && (a + b)[|a|..] == b;
      assert (s[i..i + |a|] + s[i + |a|..i + |a| + |b|])[..|a|] == s[i..i + |a|];
      assert (s[i..i + |a|] + s[i + |a|..i + |a| + |b|])[|a|..] == s[i + |a|..i + |a| + |b|];
    }
  }

  lemma OccursBehind<T>(a: seq<T>, b: seq<T>, c: seq<T>)
    ensures OccursAt(a + b + c, b, |a|)
  {
    assert (a + b + c)[|a|..|a| + |b|] == b;
  }
}
