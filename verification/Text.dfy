/** Byte-wise string order, sorted lists and the binary search over them. */
module Text {
  import opened Prelude

  /** The order Go uses for strings. */
  predicate Less(a: string, b: string) {
    b != [] && (a == [] || a[0] < b[0] || (a[0] == b[0] && Less(a[1..], b[1..])))
  }

  predicate LessEqual(a: string, b: string) {
    a == b || Less(a, b)
  }

  lemma {:induction false} LessIrreflexive(a: string)
    ensures !Less(a, a)
  {
    if a != [] {
      LessIrreflexive(a[1..]);
    }
  }

  lemma {:induction false} LessTransitive(a: string, b: string, c: string)
    requires Less(a, b) && Less(b, c)
    ensures Less(a, c)
  {
    if a != [] && a[0] == b[0] && b[0] == c[0] {
      LessTransitive(a[1..], b[1..], c[1..]);
    }
  }

  lemma {:induction false} LessTotal(a: string, b: string)
    ensures a == b || Less(a, b) || Less(b, a)
  {
    if a != [] && b != [] && a[0] == b[0] {
      LessTotal(a[1..], b[1..]);
      assert a == [a[0]] + a[1..] && b == [b[0]] + b[1..];
    }
  }

  /** Strictly increasing from neighbour to neighbour, as a validation loop checks it. */
  predicate StrictlySorted(xs: seq<string>) {
    forall i :: 0 < i < |xs| ==> Less(xs[i - 1], xs[i])
  }

  lemma {:induction false} SortedPairs(xs: seq<string>, i: nat, j: nat)
    requires StrictlySorted(xs) && i < j < |xs|
    ensures Less(xs[i], xs[j])
    decreases j
  {
    if i < j - 1 {
      SortedPairs(xs, i, j - 1);
      LessTransitive(xs[i], xs[j - 1], xs[j]);
    }
  }

  lemma SortedIsDistinct(xs: seq<string>)
    requires StrictlySorted(xs)
    ensures forall i, j :: 0 <= i < j < |xs| ==> xs[i] != xs[j]
  {
    forall i, j | 0 <= i < j < |xs|
      ensures xs[i] != xs[j]
    {
      SortedPairs(xs, i, j);
      LessIrreflexive(xs[i]);
    }
  }

  /** Two strictly sorted lists of the same strings are the same list. */
  lemma {:induction false} SortedIsCanonical(xs: seq<string>, ys: seq<string>)
    requires StrictlySorted(xs) && StrictlySorted(ys)
    requires (set x | x in xs) == (set y | y in ys)
    ensures xs == ys
  {
    hide Less, StrictlySorted;
    var inX, inY := set x | x in xs, set y | y in ys;
    if xs == [] {
      SortedIsDistinct(ys);
      DistinctSize(ys);
    } else {
      LastsAgree(xs, ys);
      WithoutLast(xs);
      WithoutLast(ys);
      assert Elements(xs) == inX && Elements(ys) == inY;
      SortedIsCanonical(xs[..|xs| - 1], ys[..|ys| - 1]);
      assert xs == xs[..|xs| - 1] + [xs[|xs| - 1]] && ys == ys[..|ys| - 1] + [ys[|ys| - 1]];
    }
  }

  lemma LastsAgree(xs: seq<string>, ys: seq<string>)
    requires StrictlySorted(xs) && StrictlySorted(ys) && xs != []
    requires (set x | x in xs) == (set y | y in ys)
    ensures ys != [] && xs[|xs| - 1] == ys[|ys| - 1]
  {
    hide Less, StrictlySorted;
    var inX, inY := set x | x in xs, set y | y in ys;
    var a := xs[|xs| - 1];
    assert a in inX && a in ys;
    var b := ys[|ys| - 1];
    assert b in inY && b in xs;
    LastIsGreatest(xs);
    LastIsGreatest(ys);
    if a != b {
      LessTransitive(a, b, a);
      LessIrreflexive(a);
    }
  }

  function Elements(xs: seq<string>): set<string> {
    set x | x in xs
  }

  lemma WithoutLast(xs: seq<string>)
    requires StrictlySorted(xs) && xs != []
    ensures StrictlySorted(xs[..|xs| - 1])
    ensures Elements(xs[..|xs| - 1]) == Elements(xs) - {xs[|xs| - 1]}
  {
    hide Less;
    SortedIsDistinct(xs);
    var n := |xs| - 1;
    assert xs == xs[..n] + [xs[n]];
  }

  lemma LastIsGreatest(xs: seq<string>)
    requires StrictlySorted(xs) && xs != []
    ensures forall x | x in xs :: LessEqual(x, xs[|xs| - 1])
  {
    forall i | 0 <= i < |xs| - 1
      ensures Less(xs[i], xs[|xs| - 1])
    {
      SortedPairs(xs, i, |xs| - 1);
    }
  }

  /** Binary search for the first entry not below `want`, then one comparison. */
  method ContainsSorted(xs: seq<string>, want: string) returns (found: bool)
    requires StrictlySorted(xs)
    ensures found <==> want in xs
  {
    var low, high := 0, |xs|;
    while low < high
      invariant 0 <= low <= high <= |xs|
      invariant forall k :: 0 <= k < low ==> xs[k] != want
      invariant forall k :: high < k < |xs| ==> xs[k] != want
      invariant high < |xs| ==> !Less(xs[high], want)
    {
      var middle := (low + high) / 2;
      if Less(xs[middle], want) {
        BelowMeansAbsent(xs, middle, want);
        low := middle + 1;
      } else {
        AboveMeansAbsent(xs, middle, want);
        high := middle;
      }
    }
    found := low < |xs| && xs[low] == want;
  }

  lemma BelowMeansAbsent(xs: seq<string>, middle: nat, want: string)
    requires StrictlySorted(xs) && middle < |xs| && Less(xs[middle], want)
    ensures forall k :: 0 <= k <= middle ==> xs[k] != want
  {
    LessIrreflexive(want);
    forall k | 0 <= k < middle
      ensures xs[k] != want
    {
      SortedPairs(xs, k, middle);
      if xs[k] == want {
        LessTransitive(want, xs[middle], want);
      }
    }
  }

  lemma AboveMeansAbsent(xs: seq<string>, middle: nat, want: string)
    requires StrictlySorted(xs) && middle < |xs| && !Less(xs[middle], want)
    ensures forall k :: middle < k < |xs| ==> xs[k] != want
  {
    forall k | middle < k < |xs|
      ensures xs[k] != want
    {
      SortedPairs(xs, middle, k);
    }
  }
}
