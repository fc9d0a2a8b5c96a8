/** Shared vocabulary: results, the byte order on strings, and sorting as `sort.Slice` promises it. */
module Prelude {
  datatype Option<+T> = None | Some(value: T)

  datatype Result<+T, +E> = Ok(value: T) | Err(error: E)

  // ---------------------------------------------------------------- strings

  /** Go's `<` on strings: bytewise lexicographic. */
  predicate Less(a: string, b: string) {
    if b == [] then false
    else if a == [] then true
    else a[0] < b[0] || (a[0] == b[0] && Less(a[1..], b[1..]))
  }

  lemma {:induction false} LessIrreflexive(a: string)
    ensures !Less(a, a)
  {
    if a != [] { LessIrreflexive(a[1..]); }
  }

  lemma {:induction false} LessTransitive(a: string, b: string, c: string)
    requires Less(a, b) && Less(b, c)
    ensures Less(a, c)
  {
    if a != [] && a[0] == b[0] == c[0] { LessTransitive(a[1..], b[1..], c[1..]); }
  }

  lemma {:induction false} LessTotal(a: string, b: string)
    ensures a == b || Less(a, b) || Less(b, a)
  {
    if a != [] && b != [] && a[0] == b[0] {
      LessTotal(a[1..], b[1..]);
      assert a == [a[0]] + a[1..] && b == [b[0]] + b[1..];
    }
  }

  /** The texts agree up to some position, where the first one ends or has the smaller byte. */
  ghost predicate Precedes(a: string, b: string) {
    exists k | 0 <= k <= |a| && k < |b| :: DiffersAt(a, b, k)
  }

  predicate DiffersAt(a: string, b: string, k: nat)
    requires k <= |a| && k < |b|
  {
    a[..k] == b[..k] && (k == |a| || a[k] < b[k])
  }

  /** `Less` is lexicographic order on bytes: a proper prefix first, else the first differing byte
      decides. */
  lemma {:induction false} LessIff(a: string, b: string)
    ensures Less(a, b) <==> Precedes(a, b)
  {
    if a == [] || b == [] {
      if b != [] { assert DiffersAt(a, b, 0); }
    } else {
      LessIff(a[1..], b[1..]);
      if a[0] < b[0] { assert DiffersAt(a, b, 0); }
      if a[0] == b[0] && Precedes(a[1..], b[1..]) {
        var k :| 0 <= k <= |a[1..]| && k < |b[1..]| && DiffersAt(a[1..], b[1..], k);
        DiffersLater(a, b, k);
      }
      if Precedes(a, b) {
        var k :| 0 <= k <= |a| && k < |b| && DiffersAt(a, b, k);
        if k > 0 { DiffersSooner(a, b, k); }
      }
    }
  }

  lemma DiffersLater(a: string, b: string, k: nat)
    requires a != [] && b != [] && a[0] == b[0] && k < |a| && k < |b| - 1 && DiffersAt(a[1..], b[1..], k)
    ensures DiffersAt(a, b, k + 1)
  {
    assert a[..k + 1] == [a[0]] + a[1..][..k] && b[..k + 1] == [b[0]] + b[1..][..k];
  }

  lemma DiffersSooner(a: string, b: string, k: nat)
    requires 0 < k <= |a| && k < |b| && DiffersAt(a, b, k)
    ensures a[0] == b[0] && DiffersAt(a[1..], b[1..], k - 1)
  {
    assert a[..k][0] == b[..k][0];
    assert a[1..][..k - 1] == a[..k][1..] && b[1..][..k - 1] == b[..k][1..];
  }

  /** Cutting at the first separator is unambiguous. */
  lemma {:induction false} SplitUnique(a: string, b: string, x: string, y: string, c: char)
    requires c !in a && c !in b
    requires a + [c] + x == b + [c] + y
    ensures a == b && x == y
  {
    var s := a + [c] + x;
    assert s == b + [c] + y;
    assert s[|a|] == c && s[|b|] == c;
    assert forall i :: 0 <= i < |a| ==> s[i] == a[i] && s[i] != c;
    assert forall i :: 0 <= i < |b| ==> s[i] == b[i] && s[i] != c;
    assert a == s[..|a|] && b == s[..|b|];
    assert x == s[|a| + 1..] && y == s[|b| + 1..];
  }

  /** Cutting at the last separator is unambiguous too. */
  lemma {:induction false} SplitUniqueLast(a: string, b: string, x: string, y: string, c: char)
    requires c !in x && c !in y
    requires a + [c] + x == b + [c] + y
    ensures a == b && x == y
  {
    var s := a + [c] + x;
    assert s == b + [c] + y;
    assert s[|a|] == c && s[|b|] == c;
    assert forall i :: |a| < i < |s| ==> s[i] == x[i - |a| - 1] && s[i] != c;
    assert forall i :: |b| < i < |s| ==> s[i] == y[i - |b| - 1] && s[i] != c;
    assert a == s[..|a|] && b == s[..|b|];
    assert x == s[|a| + 1..] && y == s[|b| + 1..];
  }

  lemma SuffixCancel<T>(a: seq<T>, b: seq<T>, s: seq<T>)
    requires a + s == b + s
    ensures a == b
  {
    assert |a| == |b|;
    assert a == (a + s)[..|a|];
    assert b == (b + s)[..|b|];
  }

  lemma CutAt<T>(s: seq<T>, i: nat)
    requires i < |s|
    ensures s == s[..i] + ([s[i]] + s[i + 1..])
  {
  }

  // ---------------------------------------------------------------- order

  /** `less` is a strict total order on the elements of `s`. */
  ghost predicate TotalOn<T(!new)>(less: (T, T) -> bool, s: set<T>) {
    && (forall x <- s :: !less(x, x))
    && (forall x <- s, y <- s, z <- s :: less(x, y) && less(y, z) ==> less(x, z))
    && (forall x <- s, y <- s :: x == y || less(x, y) || less(y, x))
  }

  ghost predicate Ascending<T(!new)>(less: (T, T) -> bool, s: seq<T>) {
    forall i, j :: 0 <= i < j < |s| ==> less(s[i], s[j])
  }

  ghost function Elements<T>(s: seq<T>): set<T> {
    set x | x in s
  }

  /** A strictly ascending sequence is determined by its elements. */
  lemma {:induction false} AscendingUnique<T(!new)>(less: (T, T) -> bool, a: seq<T>, b: seq<T>)
    requires TotalOn(less, Elements(a)) && Elements(a) == Elements(b)
    requires Ascending(less, a) && Ascending(less, b)
    ensures a == b
  {
    NoElements(a);
    NoElements(b);
    if a != [] {
      assert a[0] in Elements(b) && b[0] in Elements(a);
      var i :| 0 <= i < |b| && b[i] == a[0];
      var j :| 0 <= j < |a| && a[j] == b[0];
      AscendingTail(less, a);
      AscendingTail(less, b);
      AscendingUnique(less, a[1..], b[1..]);
      assert a == [a[0]] + a[1..] && b == [b[0]] + b[1..];
    }
  }

  lemma NoElements<T>(s: seq<T>)
    ensures s == [] <==> Elements(s) == {}
  {
    if s != [] { assert s[0] in Elements(s); }
  }

  lemma AscendingTail<T(!new)>(less: (T, T) -> bool, a: seq<T>)
    requires a != [] && TotalOn(less, Elements(a)) && Ascending(less, a)
    ensures Ascending(less, a[1..]) && Elements(a[1..]) == Elements(a) - {a[0]}
  {
    forall x | x in Elements(a) - {a[0]}
      ensures x in Elements(a[1..])
    {
      var k :| 0 <= k < |a| && a[k] == x;
      assert a[1..][k - 1] == x;
    }
    assert forall k :: 1 <= k < |a| ==> less(a[0], a[k]);
    assert a[0] in Elements(a);
  }

  lemma LessTotalOn(s: set<string>)
    ensures TotalOn(Less, s)
  {
    forall x <- s { LessIrreflexive(x); }
    forall x <- s, y <- s { LessTotal(x, y); }
    forall x <- s, y <- s, z <- s | Less(x, y) && Less(y, z) ensures Less(x, z) { LessTransitive(x, y, z); }
  }

  // ---------------------------------------------------------------- sorting

  ghost predicate InOrder<T(!new)>(less: (T, T) -> bool, s: seq<T>) {
    forall i, j :: 0 <= i < j < |s| ==> !less(s[j], s[i])
  }

  /** What `sort.Slice` leaves behind: the same elements, none out of order. Equal ranks may end up
      in any order, since the library's sort is not stable. */
  ghost predicate SortedVersion<T(!new)>(less: (T, T) -> bool, before: seq<T>, after: seq<T>) {
    multiset(before) == multiset(after) && InOrder(less, after)
  }

  /** Stands for `sort.Slice`; callers may use its contract only. */
  method SortSlice<T(!new)>(s: seq<T>, less: (T, T) -> bool) returns (r: seq<T>)
    requires TransitiveOn(less, Elements(s))
    ensures SortedVersion(less, s, r)
  {
    r := [];
    for n := 0 to |s|
      invariant multiset(r) == multiset(s[..n])
      invariant InOrder(less, r)
    {
      CutAt(s, n);
      assert s[..n + 1] == s[..n] + [s[n]];
      SameElements(r, s[..n]);
      forall y | y in Elements(r) ensures y in Elements(s) { assert y in Elements(s[..n]); }
      r := InsertInto(r, s[n], less, s);
    }
    assert s[..|s|] == s;
  }

  method InsertInto<T(!new)>(r: seq<T>, x: T, less: (T, T) -> bool, ghost all: seq<T>) returns (t: seq<T>)
    requires TransitiveOn(less, Elements(all)) && Elements(r) <= Elements(all) && x in all && InOrder(less, r)
    ensures InOrder(less, t) && multiset(t) == multiset(r) + multiset{x}
  {
    var k := 0;
    while k < |r| && !less(x, r[k])
      invariant 0 <= k <= |r|
      invariant forall i :: 0 <= i < k ==> !less(x, r[i])
    {
      k := k + 1;
    }
    InsertInOrder(less, r, k, x, Elements(all));
    assert r == r[..k] + r[k..];
    t := r[..k] + [x] + r[k..];
  }

  lemma InsertInOrder<T(!new)>(less: (T, T) -> bool, r: seq<T>, k: nat, x: T, all: set<T>)
    requires TransitiveOn(less, all) && Elements(r) <= all && x in all
    requires InOrder(less, r) && k <= |r|
    requires forall i :: 0 <= i < k ==> !less(x, r[i])
    requires k < |r| ==> less(x, r[k])
    ensures InOrder(less, r[..k] + [x] + r[k..])
  {
    var t := r[..k] + [x] + r[k..];
    forall i | 0 <= i < |r| ensures r[i] in all { assert r[i] in Elements(r); }
    forall i | k <= i < |r| ensures !less(r[i], x) {
      assert i == k || !less(r[i], r[k]);
    }
    forall i, j | 0 <= i < j < |t| ensures !less(t[j], t[i]) {
      assert t[i] == if i < k then r[i] else if i == k then x else r[i - 1];
      assert t[j] == if j < k then r[j] else if j == k then x else r[j - 1];
    }
  }

  ghost predicate TransitiveOn<T(!new)>(less: (T, T) -> bool, s: set<T>) {
    && (forall x <- s :: !less(x, x))
    && (forall x <- s, y <- s, z <- s :: less(x, y) && less(y, z) ==> less(x, z))
  }

  /** With a strict total order and no repeats, a sorted version is strictly ascending. */
  lemma SortedIsAscending<T(!new)>(less: (T, T) -> bool, before: seq<T>, after: seq<T>)
    requires SortedVersion(less, before, after)
    requires TotalOn(less, Elements(before))
    requires forall i, j :: 0 <= i < j < |before| ==> before[i] != before[j]
    ensures Ascending(less, after) && Elements(after) == Elements(before)
    ensures |after| == |before|
  {
    SameElements(before, after);
    NoRepeatCount(before);
    assert |after| == |multiset(after)| == |multiset(before)|;
    forall i, j | 0 <= i < j < |after| ensures less(after[i], after[j]) {
      assert after[i] in Elements(before) && after[j] in Elements(before);
      if after[i] == after[j] { RepeatCount(after, i, j); }
    }
  }

  lemma SameElements<T>(a: seq<T>, b: seq<T>)
    requires multiset(a) == multiset(b)
    ensures Elements(a) == Elements(b) && |a| == |b|
  {
    assert |multiset(a)| == |a| && |multiset(b)| == |b|;
    forall x ensures x in a <==> x in b {
      assert x in a <==> x in multiset(a);
      assert x in b <==> x in multiset(b);
    }
  }

  lemma {:induction false} NoRepeatCount<T>(s: seq<T>)
    requires forall i, j :: 0 <= i < j < |s| ==> s[i] != s[j]
    ensures forall x :: multiset(s)[x] <= 1
  {
    if s != [] {
      var n := |s| - 1;
      NoRepeatCount(s[..n]);
      assert s == s[..n] + [s[n]];
      assert s[n] !in s[..n];
      assert multiset(s) == multiset(s[..n]) + multiset{s[n]};
    }
  }

  lemma RepeatCount<T>(s: seq<T>, i: nat, j: nat)
    requires i < j < |s| && s[i] == s[j]
    ensures multiset(s)[s[i]] >= 2
  {
    assert s == s[..j] + [s[j]] + s[j + 1..];
    assert s[i] in s[..j];
  }

  // ---------------------------------------------------------------- sorted map keys

  /** The keys of a map in string order, the way the program lists them: collect in whatever order
      the map yields them, then sort. */
  ghost predicate KeyList(keys: set<string>, ks: seq<string>) {
    Ascending(Less, ks) && Elements(ks) == keys
  }

  lemma KeyListUnique(keys: set<string>, a: seq<string>, b: seq<string>)
    requires KeyList(keys, a) && KeyList(keys, b)
    ensures a == b
  {
    LessTotalOn(keys);
    AscendingUnique(Less, a, b);
  }

  method SortedKeys(keys: set<string>) returns (ks: seq<string>)
    ensures KeyList(keys, ks)
  {
    var todo := keys;
    var list: seq<string> := [];
    while todo != {}
      invariant todo <= keys
      invariant Elements(list) == keys - todo
      invariant forall i, j :: 0 <= i < j < |list| ==> list[i] != list[j]
      decreases todo
    {
      var k :| k in todo;
      assert k !in Elements(list);
      ghost var before := list;
      list := list + [k];
      assert Elements(list) == Elements(before) + {k};
      todo := todo - {k};
    }
    LessTotalOn(keys);
    forall x <- list ensures x in keys { assert x in Elements(list); }
    ks := SortSlice(list, Less);
    SortedIsAscending(Less, list, ks);
  }

  ghost function SortedKeySeq(keys: set<string>): (ks: seq<string>)
    ensures KeyList(keys, ks)
  {
    KeyListExists(keys);
    var ks :| KeyList(keys, ks);
    ks
  }

  lemma {:induction false} KeyListExists(keys: set<string>)
    ensures exists ks :: KeyList(keys, ks)
    decreases |keys|
  {
    if keys == {} {
      assert KeyList(keys, []);
    } else {
      var m := Greatest(keys);
      KeyListExists(keys - {m});
      var ks :| KeyList(keys - {m}, ks);
      forall k <- ks ensures Less(k, m) { assert k in Elements(ks); }
      assert Elements(ks + [m]) == Elements(ks) + {m};
      assert KeyList(keys, ks + [m]);
    }
  }

  lemma {:induction false} Greatest(keys: set<string>) returns (m: string)
    requires keys != {}
    ensures m in keys && forall k <- keys - {m} :: Less(k, m)
    decreases |keys|
  {
    var x :| x in keys;
    if keys == {x} { return x; }
    var y := Greatest(keys - {x});
    LessTotal(x, y);
    if Less(x, y) { return y; }
    forall k <- keys - {x} ensures Less(k, x) {
      if k != y { LessTransitive(k, y, x); }
    }
    return x;
  }

  /** Moving one element from what is left to what is done. */
  lemma MoveOne<T>(done: set<T>, todo: set<T>, x: T)
    requires x in todo && done !! todo
    ensures (done + {x}) + (todo - {x}) == done + todo && (done + {x}) !! (todo - {x})
  {
  }
}
