/** Small shared vocabulary: optional values and string helpers. */
module Common {
  datatype Option<+T> = None | Some(value: T)

  const HEX_DIGITS: string := "0123456789abcdef"

  /** `text.endsWith(suffix)` */
  predicate EndsWith(text: string, suffix: string) {
    |suffix| <= |text| && text[|text| - |suffix|..] == suffix
  }

  lemma Associative<T>(a: seq<T>, b: seq<T>, c: seq<T>)
    ensures a + b + c == a + (b + c)
  {
  }

  /** No element occurs twice. */
  ghost predicate Distinct<T>(s: seq<T>) {
    forall i, j :: 0 <= i < j < |s| ==> s[i] != s[j]
  }

  predicate HasKey<T, K(==)>(xs: seq<T>, key: T -> K, k: K) {
    exists i :: 0 <= i < |xs| && key(xs[i]) == k
  }

  /** Keep the first element under each key. */
  function DedupBy<T, K(==)>(xs: seq<T>, key: T -> K): seq<T> {
    if xs == [] then []
    else
      var kept := DedupBy(xs[..|xs| - 1], key);
      var last := xs[|xs| - 1];
      if HasKey(kept, key, key(last)) then kept else kept + [last]
  }

  lemma {:induction false} DedupInventsNothing<T, K>(xs: seq<T>, key: T -> K)
    ensures forall x :: x in DedupBy(xs, key) ==> x in xs
  {
    if xs != [] {
      DedupInventsNothing(xs[..|xs| - 1], key);
    }
  }

  lemma {:induction false} DedupKeysAreDistinct<T, K>(xs: seq<T>, key: T -> K)
    ensures forall i, j :: 0 <= i < j < |DedupBy(xs, key)| ==> key(DedupBy(xs, key)[i]) != key(DedupBy(xs, key)[j])
  {
    if xs != [] {
      DedupKeysAreDistinct(xs[..|xs| - 1], key);
    }
  }

  lemma {:induction false} DedupKeepsKey<T, K>(xs: seq<T>, key: T -> K, x: T)
    requires x in xs
    ensures exists i :: 0 <= i < |DedupBy(xs, key)| && key(DedupBy(xs, key)[i]) == key(x)
  {
    var init, last := xs[..|xs| - 1], xs[|xs| - 1];
    var kept, all := DedupBy(init, key), DedupBy(xs, key);
    if x in init {
      DedupKeepsKey(init, key, x);
      var i :| 0 <= i < |kept| && key(kept[i]) == key(x);
      assert all[i] == kept[i];
    } else {
      assert xs == init + [last];
      if all != kept {
        assert all[|kept|] == x;
      }
    }
  }

  /** Deduplication keeps every element exactly when the key tells the elements apart. */
  lemma DedupLosesNothingIff<T, K>(xs: seq<T>, key: T -> K)
    ensures (forall x :: x in xs <==> x in DedupBy(xs, key))
       <==> forall x, y :: x in xs && y in xs && key(x) == key(y) ==> x == y
  {
    DedupInventsNothing(xs, key);
    DedupKeysAreDistinct(xs, key);
    var kept := DedupBy(xs, key);
    if forall x :: x in xs <==> x in kept {
      forall x, y | x in xs && y in xs && key(x) == key(y) ensures x == y {
        var i :| 0 <= i < |kept| && kept[i] == x;
        var j :| 0 <= j < |kept| && kept[j] == y;
      }
    }
    if forall x, y :: x in xs && y in xs && key(x) == key(y) ==> x == y {
      forall x | x in xs ensures x in kept {
        DedupKeepsKey(xs, key, x);
        var i :| 0 <= i < |kept| && key(kept[i]) == key(x);
        assert kept[i] in kept;
      }
    }
  }

  /** No earlier element has the key of this one. */
  predicate First<T, K(==)>(xs: seq<T>, key: T -> K, i: nat)
    requires i < |xs|
  {
    !HasKey(xs[..i], key, key(xs[i]))
  }

  lemma DedupKeepsTheKeys<T, K>(xs: seq<T>, key: T -> K, k: K)
    ensures HasKey(DedupBy(xs, key), key, k) <==> HasKey(xs, key, k)
  {
    var kept := DedupBy(xs, key);
    DedupInventsNothing(xs, key);
    if i :| 0 <= i < |kept| && key(kept[i]) == k {
      assert kept[i] in xs;
    }
    if j :| 0 <= j < |xs| && key(xs[j]) == k {
      DedupKeepsKey(xs, key, xs[j]);
    }
  }

  /** The last element is kept exactly when it is the first under its key. */
  lemma DedupOfLast<T, K>(init: seq<T>, last: T, key: T -> K)
    ensures DedupBy(init + [last], key) == DedupBy(init, key) + if First(init + [last], key, |init|) then [last] else []
  {
    var xs := init + [last];
    assert xs[..|xs| - 1] == init;
    DedupKeepsTheKeys(init, key, key(last));
  }

  lemma FirstInPrefix<T, K>(init: seq<T>, last: T, key: T -> K, i: nat)
    requires i < |init|
    ensures First(init + [last], key, i) <==> First(init, key, i)
  {
    assert (init + [last])[..i] == init[..i];
  }

  predicate SomeFirst<T(==), K(==)>(xs: seq<T>, key: T -> K, x: T) {
    exists i :: 0 <= i < |xs| && xs[i] == x && First(xs, key, i)
  }

  lemma SomeFirstOfLast<T, K>(init: seq<T>, last: T, key: T -> K, x: T)
    ensures SomeFirst(init + [last], key, x)
       <==> SomeFirst(init, key, x) || (x == last && First(init + [last], key, |init|))
  {
    var xs := init + [last];
    if i :| 0 <= i < |init| && init[i] == x && First(init, key, i) {
      FirstInPrefix(init, last, key, i);
      assert xs[i] == x;
    }
    if i :| 0 <= i < |xs| && xs[i] == x && First(xs, key, i) {
      if i < |init| {
        FirstInPrefix(init, last, key, i);
        assert init[i] == x;
      }
    }
    if x == last && First(xs, key, |init|) {
      assert xs[|init|] == x;
    }
  }

  /** Deduplication keeps exactly the firsts. */
  lemma {:induction false} DedupKeepsTheFirsts<T, K>(xs: seq<T>, key: T -> K, x: T)
    ensures x in DedupBy(xs, key) <==> SomeFirst(xs, key, x)
  {
    if xs != [] {
      var init, last := xs[..|xs| - 1], xs[|xs| - 1];
      DedupKeepsTheFirsts(init, key, x);
      DedupOfLast(init, last, key);
      SomeFirstOfLast(init, last, key, x);
      assert xs == init + [last];
    }
  }

  /** Text up to the first separator, and what follows it, are determined by the whole. */
  lemma SplitAtFirst(c: char, a: string, x: string, b: string, y: string)
    requires c !in a && c !in b && a + [c] + x == b + [c] + y
    ensures a == b && x == y
  {
    var whole := a + [c] + x;
    assert whole[|a|] == c && whole[|b|] == c;
    assert forall i :: 0 <= i < |a| ==> whole[i] == a[i];
    assert forall i :: 0 <= i < |b| ==> whole[i] == b[i];
    assert |a| == |b|;
    assert whole[..|a|] == a && whole[..|b|] == b;
    assert whole[|a| + 1..] == x && whole[|b| + 1..] == y;
  }

  /** Text after the last separator, and what precedes it, are determined by the whole. */
  lemma SplitAtLast(c: char, a: string, x: string, b: string, y: string)
    requires c !in x && c !in y && a + [c] + x == b + [c] + y
    ensures a == b && x == y
  {
    var whole := a + [c] + x;
    assert whole[|a|] == c && whole[|b|] == c;
    assert forall i :: |a| < i < |whole| ==> whole[i] == x[i - |a| - 1];
    assert forall i :: |b| < i < |whole| ==> whole[i] == y[i - |b| - 1];
    assert |a| == |b|;
    assert whole[..|a|] == a && whole[..|b|] == b;
    assert whole[|a| + 1..] == x && whole[|b| + 1..] == y;
  }

  lemma AnElement<T>(s: set<T>) returns (x: T)
    requires s != {}
    ensures x in s
  {
    x :| x in s;
  }

  lemma {:induction false} HasMaximum(ids: set<int>, x: int)
    requires x in ids
    ensures exists m :: m in ids && forall id :: id in ids ==> id <= m
  {
    if y :| y in ids && x < y {
      HasMaximum(ids - {x}, y);
      var m :| m in ids - {x} && forall id :: id in ids - {x} ==> id <= m;
      assert forall id :: id in ids ==> id == x || id in ids - {x};
    }
  }

  lemma {:induction false} SizesAreBounded<T>(used: set<T>, size: T -> nat) returns (bound: nat)
    ensures forall x :: x in used ==> size(x) < bound
  {
    bound := 0;
    if y :| y in used {
      var rest := SizesAreBounded(used - {y}, size);
      bound := rest + size(y) + 1;
      assert forall x :: x in used ==> x == y || x in used - {y};
    }
  }

  lemma FreshNat(used: set<nat>) returns (n: nat)
    ensures n !in used
  {
    var itself := (x: nat) => x;
    n := SizesAreBounded(used, itself);
    assert n in used ==> itself(n) < n;
  }

  lemma FreshString(used: set<string>) returns (s: string)
    ensures s !in used
  {
    var length := (x: string) => |x|;
    var n := SizesAreBounded(used, length);
    s := seq(n, i => 'x');
    assert s in used ==> length(s) < n;
  }

  lemma {:induction false} SubsetIsSmaller<T>(a: set<T>, b: set<T>)
    requires a <= b
    ensures |a| <= |b|
  {
    if x :| x in a {
      SubsetIsSmaller(a - {x}, b - {x});
    }
  }
}
