/**
  Go's `sort` package, as far as the callers can observe it. `StableSort` inserts each
  element behind those it does not precede. When all keys differ, every sort gives the
  same sequence, and that sequence does not depend on the order of the input.
 */
module Sorting {
  import opened Text

  ghost predicate Transitive<T(!new)>(less: (T, T) -> bool)
  {
    forall a, b, c :: less(a, b) && less(b, c) ==> less(a, c)
  }

  ghost predicate Asymmetric<T(!new)>(less: (T, T) -> bool)
  {
    forall a, b :: less(a, b) ==> !less(b, a)
  }

  ghost predicate Ascending<T>(s: seq<T>, less: (T, T) -> bool)
  {
    forall i, j :: 0 <= i < j < |s| ==> less(s[i], s[j])
  }

  /** No two positions hold elements the order cannot tell apart. */
  ghost predicate Separated<T>(xs: seq<T>, less: (T, T) -> bool)
  {
    forall i, j :: 0 <= i < j < |xs| ==> less(xs[i], xs[j]) || less(xs[j], xs[i])
  }

  function Insert<T>(s: seq<T>, x: T, less: (T, T) -> bool): (r: seq<T>)
    ensures multiset(r) == multiset(s) + multiset{x}
  {
    if s == [] then [x]
    else
      var n := |s| - 1;
      assert s == s[..n] + [s[n]];
      if less(x, s[n]) then Insert(s[..n], x, less) + [s[n]] else s + [x]
  }

  function StableSort<T>(xs: seq<T>, less: (T, T) -> bool): (r: seq<T>)
    ensures multiset(r) == multiset(xs)
  {
    if xs == [] then []
    else
      var n := |xs| - 1;
      assert xs == xs[..n] + [xs[n]];
      Insert(StableSort(xs[..n], less), xs[n], less)
  }

  lemma InMultiset<T>(s: seq<T>, t: seq<T>)
    requires multiset(s) == multiset(t)
    ensures |s| == |t|
    ensures forall i :: 0 <= i < |s| ==> s[i] in t
  {
    assert |s| == |multiset(s)| && |t| == |multiset(t)|;
    forall i | 0 <= i < |s| ensures s[i] in t {
      assert s[i] in multiset(s);
      assert s[i] in multiset(t);
    }
  }

  lemma {:induction false} InsertKeepsAscending<T(!new)>(s: seq<T>, x: T, less: (T, T) -> bool)
    requires Transitive(less) && Ascending(s, less)
    requires forall e :: e in s ==> less(e, x) || less(x, e)
    ensures Ascending(Insert(s, x, less), less)
  {
    hide Insert;
    if s == [] {
      InsertIntoNothing(x, less);
    } else {
      var n := |s| - 1;
      var front := s[..n];
      InsertUnfolds(s, x, less);
      if less(x, s[n]) {
        InsertKeepsAscending(front, x, less);
        var r := Insert(front, x, less);
        forall i | 0 <= i < |r| ensures less(r[i], s[n]) {
          InsertedFrom(front, x, less, i);
        }
      } else {
        assert s[n] in s;
        forall i | 0 <= i < |s| ensures less(s[i], x) {
          assert i < n ==> less(s[i], s[n]);
        }
      }
    }
  }

  lemma InsertIntoNothing<T>(x: T, less: (T, T) -> bool)
    ensures Insert([], x, less) == [x]
  {
  }

  lemma InsertUnfolds<T>(s: seq<T>, x: T, less: (T, T) -> bool)
    requires s != []
    ensures var n := |s| - 1;
      Insert(s, x, less) == if less(x, s[n]) then Insert(s[..n], x, less) + [s[n]] else s + [x]
  {
  }

  lemma InsertedFrom<T>(s: seq<T>, x: T, less: (T, T) -> bool, i: nat)
    requires i < |Insert(s, x, less)|
    ensures var e := Insert(s, x, less)[i]; e == x || e in s
  {
    var r := Insert(s, x, less);
    assert r[i] in multiset(r);
    assert r[i] in multiset(s) + multiset{x};
  }

  lemma {:induction false} SortAscends<T(!new)>(xs: seq<T>, less: (T, T) -> bool)
    requires Transitive(less) && Separated(xs, less)
    ensures Ascending(StableSort(xs, less), less)
  {
    hide StableSort, Insert, Ascending;
    SortUnfolds(xs, less);
    if xs == [] {
      NothingAscends(less);
    } else {
      var n := |xs| - 1;
      SortAscends(xs[..n], less);
      SortedAgainst(xs, less);
      InsertKeepsAscending(StableSort(xs[..n], less), xs[n], less);
    }
  }

  lemma NothingAscends<T>(less: (T, T) -> bool)
    ensures Ascending([], less)
  {
  }

  lemma SortUnfolds<T>(xs: seq<T>, less: (T, T) -> bool)
    ensures StableSort(xs, less) == if xs == [] then [] else Insert(StableSort(xs[..|xs| - 1], less), xs[|xs| - 1], less)
  {
  }

  lemma SortedAgainst<T(!new)>(xs: seq<T>, less: (T, T) -> bool)
    requires Separated(xs, less) && xs != []
    ensures var n := |xs| - 1; forall e :: e in StableSort(xs[..n], less) ==> less(e, xs[n]) || less(xs[n], e)
  {
    hide StableSort;
    var n := |xs| - 1;
    var front := xs[..n];
    var s := StableSort(front, less);
    InMultiset(s, front);
    forall e | e in s ensures less(e, xs[n]) || less(xs[n], e) {
      var k :| 0 <= k < |s| && s[k] == e;
      var i :| 0 <= i < |front| && front[i] == e;
      assert xs[i] == e;
    }
  }

  lemma {:induction false} AscendingIsUnique<T(!new)>(s: seq<T>, t: seq<T>, less: (T, T) -> bool)
    requires Asymmetric(less) && Ascending(s, less) && Ascending(t, less)
    requires forall e :: e in s <==> e in t
    ensures s == t
  {
    assert s != [] ==> s[0] in s && s[0] in t;
    assert t != [] ==> t[0] in t && t[0] in s;
    if s != [] && t != [] {
      FirstAgrees(s, t, less);
      forall e ensures e in s[1..] <==> e in t[1..] {
        TailMembers(s, less, e);
        TailMembers(t, less, e);
      }
      AscendingIsUnique(s[1..], t[1..], less);
      assert s == [s[0]] + s[1..] && t == [t[0]] + t[1..];
    }
  }

  lemma FirstAgrees<T(!new)>(s: seq<T>, t: seq<T>, less: (T, T) -> bool)
    requires Asymmetric(less) && Ascending(s, less) && Ascending(t, less)
    requires s != [] && t != [] && s[0] in t && t[0] in s
    ensures s[0] == t[0]
  {
    FirstIsLeast(s, t[0], less);
    FirstIsLeast(t, s[0], less);
  }

  lemma FirstIsLeast<T(!new)>(s: seq<T>, x: T, less: (T, T) -> bool)
    requires Ascending(s, less) && x in s
    ensures s[0] == x || less(s[0], x)
  {
    var i :| 0 <= i < |s| && s[i] == x;
  }

  lemma TailMembers<T(!new)>(s: seq<T>, less: (T, T) -> bool, e: T)
    requires Asymmetric(less) && Ascending(s, less) && s != []
    ensures e in s[1..] <==> e in s && e != s[0]
  {
    if e in s[1..] {
      var i :| 0 <= i < |s| - 1 && s[1..][i] == e;
      assert less(s[0], s[i + 1]);
      assert less(s[0], s[0]) ==> false;
    }
    if e in s && e != s[0] {
      var i :| 0 <= i < |s| && s[i] == e;
      assert s[1..][i - 1] == e;
    }
  }

  /** The order in which the elements arrive does not matter. */
  lemma SortIgnoresInputOrder<T(!new)>(xs: seq<T>, ys: seq<T>, less: (T, T) -> bool)
    requires Transitive(less) && Asymmetric(less)
    requires multiset(xs) == multiset(ys) && Separated(xs, less)
    ensures StableSort(xs, less) == StableSort(ys, less)
  {
    SeparatedIsSymmetric(xs, ys, less);
    SortAscends(xs, less);
    SortAscends(ys, less);
    InMultiset(StableSort(xs, less), StableSort(ys, less));
    InMultiset(StableSort(ys, less), StableSort(xs, less));
    AscendingIsUnique(StableSort(xs, less), StableSort(ys, less), less);
  }

  /** What is in order already stays as it is. */
  lemma SortedStays<T(!new)>(xs: seq<T>, less: (T, T) -> bool)
    requires Transitive(less) && Asymmetric(less) && Ascending(xs, less)
    ensures StableSort(xs, less) == xs
  {
    hide StableSort;
    SortAscends(xs, less);
    InMultiset(StableSort(xs, less), xs);
    InMultiset(xs, StableSort(xs, less));
    AscendingIsUnique(StableSort(xs, less), xs, less);
  }

  lemma SeparatedIsSymmetric<T(!new)>(xs: seq<T>, ys: seq<T>, less: (T, T) -> bool)
    requires Asymmetric(less) && multiset(xs) == multiset(ys) && Separated(xs, less)
    ensures Separated(ys, less)
  {
    forall i, j | 0 <= i < j < |ys| ensures less(ys[i], ys[j]) || less(ys[j], ys[i]) {
      var k, l := PairAgain(xs, ys, i, j);
      assert k < l || l < k;
    }
  }

  /** Two places of a rearrangement come from two places of the original. */
  lemma PairAgain<T>(xs: seq<T>, ys: seq<T>, i: nat, j: nat) returns (k: nat, l: nat)
    requires multiset(xs) == multiset(ys) && i < j < |ys|
    ensures k < |xs| && l < |xs| && k != l && xs[k] == ys[i] && xs[l] == ys[j]
  {
    InMultiset(ys, xs);
    if ys[i] == ys[j] {
      assert ys == ys[..i] + [ys[i]] + ys[i + 1..j] + [ys[j]] + ys[j + 1..];
      assert multiset(ys)[ys[i]] >= 2;
      TwoPlaces(xs, ys[i]);
      k, l :| 0 <= k < l < |xs| && xs[k] == xs[l] == ys[i];
    } else {
      k :| 0 <= k < |xs| && xs[k] == ys[i];
      l :| 0 <= l < |xs| && xs[l] == ys[j];
    }
  }

  lemma {:induction false} TwoPlaces<T>(xs: seq<T>, x: T)
    requires multiset(xs)[x] >= 2
    ensures exists i, j :: 0 <= i < j < |xs| && xs[i] == xs[j] == x
  {
    var n := |xs| - 1;
    assert xs == xs[..n] + [xs[n]];
    if xs[n] == x {
      assert x in multiset(xs[..n]);
      var i :| 0 <= i < n && xs[..n][i] == x;
      assert xs[i] == xs[n] == x;
    } else {
      TwoPlaces(xs[..n], x);
      var i, j :| 0 <= i < j < n && xs[..n][i] == xs[..n][j] == x;
      assert xs[i] == xs[j] == x;
    }
  }

  // Listing a finite map in key order ---------------------------------------

  lemma BeforeIsAnOrder()
    ensures Transitive(Before) && Asymmetric(Before)
  {
    forall a: string, b: string, c: string | Before(a, b) && Before(b, c) ensures Before(a, c) {
      BeforeIsTransitive(a, b, c);
    }
    forall a: string, b: string | Before(a, b) ensures !Before(b, a) {
      BeforeIsAsymmetric(a, b);
    }
  }

  lemma {:induction false} LeastExists(keys: set<string>)
    requires keys != {}
    ensures exists k :: k in keys && forall l :: l in keys && l != k ==> Before(k, l)
  {
    var x :| x in keys;
    if keys - {x} == {} {
      assert forall l :: l in keys && l != x ==> l in keys - {x};
    } else {
      LeastExists(keys - {x});
      var k :| k in keys - {x} && forall l :: l in keys - {x} && l != k ==> Before(k, l);
      BeforeIsTotal(x, k);
      var least := if Before(x, k) then x else k;
      forall l | l in keys && l != least ensures Before(least, l) {
        if least == x && l != k {
          BeforeIsTransitive(x, k, l);
        }
      }
    }
  }

  ghost function Least(keys: set<string>): (k: string)
    requires keys != {}
    ensures k in keys && forall l :: l in keys && l != k ==> Before(k, l)
  {
    LeastExists(keys);
    var k :| k in keys && forall l :: l in keys && l != k ==> Before(k, l);
    k
  }

  /** The keys of a set, each once, in ascending order. */
  ghost function Keys(keys: set<string>): (r: seq<string>)
    ensures Ascending(r, Before)
    ensures forall k :: k in r <==> k in keys
    ensures |r| == |keys|
  {
    if keys == {} then []
    else
      var k := Least(keys);
      var rest := Keys(keys - {k});
      assert forall i :: 0 <= i < |rest| ==> rest[i] in keys - {k};
      [k] + rest
  }

  /** The values of a map in ascending order of their keys. */
  ghost function Listing<T>(m: map<string, T>): (r: seq<T>)
    ensures |r| == |m|
    ensures forall i :: 0 <= i < |r| ==> Keys(m.Keys)[i] in m && r[i] == m[Keys(m.Keys)[i]]
  {
    var keys := Keys(m.Keys);
    assert forall i :: 0 <= i < |keys| ==> keys[i] in m;
    seq(|keys|, i requires 0 <= i < |keys| => m[keys[i]])
  }

  lemma KeysAreUnique(r: seq<string>, keys: set<string>)
    requires Ascending(r, Before)
    requires forall k :: k in r <==> k in keys
    ensures r == Keys(keys)
  {
    BeforeIsAnOrder();
    AscendingIsUnique(r, Keys(keys), Before);
  }

  /** Sorting distinct strings lists their set. */
  lemma SortListsKeys(xs: seq<string>)
    requires forall i, j :: 0 <= i < j < |xs| ==> xs[i] != xs[j]
    ensures StableSort(xs, Before) == Keys(set x | x in xs)
  {
    BeforeIsAnOrder();
    forall i, j | 0 <= i < j < |xs| ensures Before(xs[i], xs[j]) || Before(xs[j], xs[i]) {
      BeforeIsTotal(xs[i], xs[j]);
    }
    SortAscends(xs, Before);
    var r := StableSort(xs, Before);
    InMultiset(r, xs);
    InMultiset(xs, r);
    KeysAreUnique(r, set x | x in xs);
  }

  lemma ListingMembers<T>(m: map<string, T>, k: string)
    requires k in m
    ensures m[k] in Listing(m)
  {
    assert k in Keys(m.Keys);
    var i :| 0 <= i < |m| && Keys(m.Keys)[i] == k;
    assert Listing(m)[i] == m[k];
  }
}
