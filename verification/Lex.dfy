/** Bytewise string order and sorting by a string key, as strings compare and slices.Sort orders in Go. */
module Lex {
  predicate Less(a: string, b: string) {
    if b == "" then false
    else if a == "" then true
    else a[0] < b[0] || (a[0] == b[0] && Less(a[1..], b[1..]))
  }

  lemma {:induction false} LessIsTotal(a: string, b: string)
    ensures Less(a, b) || Less(b, a) || a == b
    ensures !(Less(a, b) && Less(b, a)) && !Less(a, a)
  {
    if a != "" && b != "" {
      LessIsTotal(a[1..], b[1..]);
      assert a == [a[0]] + a[1..] && b == [b[0]] + b[1..];
    }
    if a != "" {
      LessIrreflexive(a);
    }
  }

  lemma {:induction false} LessIrreflexive(a: string)
    ensures !Less(a, a)
  {
    if a != "" {
      LessIrreflexive(a[1..]);
    }
  }

  lemma {:induction false} LessTransitive(a: string, b: string, c: string)
    requires Less(a, b) && Less(b, c)
    ensures Less(a, c)
  {
    if a != "" && a[0] == b[0] && b[0] == c[0] {
      LessTransitive(a[1..], b[1..], c[1..]);
    }
  }

  /** a comes before b at position k: they agree up to k, and there a ends or has the smaller byte. */
  predicate DiffersAt(a: string, b: string, k: nat) {
    && k <= |a| && k <= |b| && a[..k] == b[..k]
    && (k == |a| < |b| || (k < |a| && k < |b| && a[k] < b[k]))
  }

  /** The order of file names and field names: the first difference decides, and a prefix comes first. */
  ghost predicate Before(a: string, b: string) {
    exists k :: 0 <= k <= |a| && DiffersAt(a, b, k)
  }

  lemma {:induction false} LessDiffers(a: string, b: string) returns (k: nat)
    requires Less(a, b)
    ensures k <= |a| && DiffersAt(a, b, k)
  {
    if a == "" || a[0] < b[0] {
      k := 0;
    } else {
      var j := LessDiffers(a[1..], b[1..]);
      k := j + 1;
      assert a[..k] == [a[0]] + a[1..][..j] && b[..k] == [b[0]] + b[1..][..j];
    }
  }

  lemma {:induction false} DiffersIsLess(a: string, b: string, k: nat)
    requires DiffersAt(a, b, k)
    ensures Less(a, b)
    decreases k
  {
    if k > 0 {
      assert a[0] == a[..k][0] == b[..k][0] == b[0];
      assert a[1..][..k - 1] == a[..k][1..] && b[1..][..k - 1] == b[..k][1..];
      DiffersIsLess(a[1..], b[1..], k - 1);
    }
  }

  /** Less is the bytewise order: it holds exactly if the first difference favours a. */
  lemma LessIsBefore(a: string, b: string)
    ensures Less(a, b) <==> Before(a, b)
  {
    if Less(a, b) {
      var k := LessDiffers(a, b);
    }
    if k :| 0 <= k <= |a| && DiffersAt(a, b, k) {
      DiffersIsLess(a, b, k);
    }
  }

  // ---------------------------------------------------------------- sorting by a key

  /** No two elements share a key. */
  ghost predicate DistinctKeys<T>(xs: seq<T>, key: T -> string) {
    forall i, j :: 0 <= i < j < |xs| ==> key(xs[i]) != key(xs[j])
  }

  /** Strictly ascending keys. */
  ghost predicate Ascending<T>(xs: seq<T>, key: T -> string) {
    forall i, j :: 0 <= i < j < |xs| ==> Less(key(xs[i]), key(xs[j]))
  }

  function Insert<T>(x: T, xs: seq<T>, key: T -> string): seq<T> {
    if xs == [] then [x]
    else if Less(key(x), key(xs[0])) then [x] + xs
    else [xs[0]] + Insert(x, xs[1..], key)
  }

  function Sort<T>(xs: seq<T>, key: T -> string): seq<T> {
    if xs == [] then [] else Insert(xs[0], Sort(xs[1..], key), key)
  }

  lemma {:induction false} InsertKeeps<T>(x: T, xs: seq<T>, key: T -> string)
    requires Ascending(xs, key) && forall i :: 0 <= i < |xs| ==> key(xs[i]) != key(x)
    ensures Ascending(Insert(x, xs, key), key)
    ensures multiset(Insert(x, xs, key)) == multiset{x} + multiset(xs)
  {
    if xs == [] {
    } else if Less(key(x), key(xs[0])) {
      forall i | 0 <= i < |xs| ensures Less(key(x), key(xs[i])) {
        if i > 0 {
          LessTransitive(key(x), key(xs[0]), key(xs[i]));
        }
      }
    } else {
      InsertKeeps(x, xs[1..], key);
      LessIsTotal(key(x), key(xs[0]));
      var rest := Insert(x, xs[1..], key);
      assert xs == [xs[0]] + xs[1..];
      forall i | 0 <= i < |rest| ensures Less(key(xs[0]), key(rest[i])) {
        assert rest[i] in multiset(rest);
        if rest[i] != x {
          assert rest[i] in multiset(xs[1..]);
          var j :| 0 <= j < |xs[1..]| && xs[1..][j] == rest[i];
          assert xs[j + 1] == rest[i];
        }
      }
    }
  }

  /** Sorting elements with distinct keys yields them all, in strictly ascending order. */
  lemma {:induction false} SortSorts<T>(xs: seq<T>, key: T -> string)
    requires DistinctKeys(xs, key)
    ensures Ascending(Sort(xs, key), key)
    ensures multiset(Sort(xs, key)) == multiset(xs)
    ensures |Sort(xs, key)| == |xs|
  {
    if xs != [] {
      var rest := Sort(xs[1..], key);
      SortSorts(xs[1..], key);
      assert xs == [xs[0]] + xs[1..];
      forall i | 0 <= i < |rest| ensures key(rest[i]) != key(xs[0]) {
        assert rest[i] in multiset(xs[1..]);
        var j :| 0 <= j < |xs[1..]| && xs[1..][j] == rest[i];
        assert xs[j + 1] == rest[i];
      }
      InsertKeeps(xs[0], rest, key);
    }
    assert |multiset(Sort(xs, key))| == |Sort(xs, key)|;
  }

  /** There is only one ascending arrangement of a collection. */
  lemma {:induction false} AscendingIsUnique<T>(xs: seq<T>, ys: seq<T>, key: T -> string)
    requires Ascending(xs, key) && Ascending(ys, key)
    requires forall x :: x in xs <==> x in ys
    ensures xs == ys
  {
    assert xs == [] || xs[0] in ys;
    assert ys == [] || ys[0] in xs;
    if xs == [] {
    } else {
      SameFirst(xs, ys, key);
      forall x ensures x in xs[1..] <==> x in ys[1..] {
        TailMembers(xs, key, x);
        TailMembers(ys, key, x);
      }
      AscendingIsUnique(xs[1..], ys[1..], key);
      assert xs == [xs[0]] + xs[1..] && ys == [ys[0]] + ys[1..];
    }
  }

  lemma TailMembers<T>(xs: seq<T>, key: T -> string, x: T)
    requires xs != [] && Ascending(xs, key)
    ensures x in xs[1..] <==> x in xs && x != xs[0]
  {
    if x in xs[1..] {
      var j :| 0 <= j < |xs[1..]| && xs[1..][j] == x;
      assert xs[j + 1] == x;
      LessIrreflexive(key(x));
    }
    if x in xs && x != xs[0] {
      var j :| 0 <= j < |xs| && xs[j] == x;
      assert xs[1..][j - 1] == x;
    }
  }

  lemma SameFirst<T>(xs: seq<T>, ys: seq<T>, key: T -> string)
    requires xs != [] && ys != [] && Ascending(xs, key) && Ascending(ys, key)
    requires forall x :: x in xs <==> x in ys
    ensures xs[0] == ys[0]
  {
    assert xs[0] in ys && ys[0] in xs;
    var i :| 0 <= i < |ys| && ys[i] == xs[0];
    var j :| 0 <= j < |xs| && xs[j] == ys[0];
    if i > 0 && j > 0 {
      LessIsTotal(key(xs[0]), key(ys[0]));
    }
  }

  lemma SortMembers<T>(xs: seq<T>, key: T -> string, x: T)
    requires DistinctKeys(xs, key)
    ensures x in Sort(xs, key) <==> x in xs
  {
    SortSorts(xs, key);
    assert x in Sort(xs, key) <==> x in multiset(Sort(xs, key));
    assert x in xs <==> x in multiset(xs);
  }
}
