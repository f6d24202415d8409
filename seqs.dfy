/** Sequence operations shared by the table models: SQL's `WHERE` (a filter
    that keeps insertion order) and `ORDER BY created_at DESC` (newest first,
    that is, reverse insertion order), and the `map`-then-`filter` idiom that
    reshapes untyped lists. */
module Seqs {
  import opened Wrappers

  /** The elements of `s` that satisfy `p`, in their order in `s`. */
  function Filter<T>(s: seq<T>, p: T -> bool): (r: seq<T>)
    ensures |r| <= |s|
  {
    if s == [] then [] else Filter(s[..|s| - 1], p) + (if p(s[|s| - 1]) then [s[|s| - 1]] else [])
  }

  /** `Filter` keeps exactly the elements that satisfy `p`. */
  lemma {:induction false} FilterMembers<T>(s: seq<T>, p: T -> bool)
    ensures forall i :: 0 <= i < |Filter(s, p)| ==> Filter(s, p)[i] in s && p(Filter(s, p)[i])
    ensures forall i :: 0 <= i < |s| && p(s[i]) ==> s[i] in Filter(s, p)
  {
    if s != [] {
      var init := s[..|s| - 1];
      FilterMembers(init, p);
      assert s == init + [s[|s| - 1]];
      var r := Filter(s, p);
      assert r == Filter(init, p) + (if p(s[|s| - 1]) then [s[|s| - 1]] else []);
      forall i | 0 <= i < |s| && p(s[i]) ensures s[i] in r {
        if i < |s| - 1 { assert s[i] == init[i]; }
      }
    }
  }

  /** `Filter` keeps every occurrence of an element that satisfies `p` and
      none of the others. */
  lemma {:induction false} FilterCount<T>(s: seq<T>, p: T -> bool)
    ensures forall y :: multiset(Filter(s, p))[y] == if p(y) then multiset(s)[y] else 0
  {
    if s != [] {
      var init := s[..|s| - 1];
      FilterCount(init, p);
      assert s == init + [s[|s| - 1]];
    }
  }

  lemma {:induction false} FilterAppend<T>(a: seq<T>, b: seq<T>, p: T -> bool)
    ensures Filter(a + b, p) == Filter(a, p) + Filter(b, p)
    decreases |b|
  {
    if b != [] {
      var init := b[..|b| - 1];
      assert (a + b)[..|a + b| - 1] == a + init;
      FilterAppend(a, init, p);
    } else {
      assert a + b == a;
    }
  }

  /** Every element of `s` fails `p`. */
  lemma {:induction false} FilterNone<T>(s: seq<T>, p: T -> bool)
    requires forall i :: 0 <= i < |s| ==> !p(s[i])
    ensures Filter(s, p) == []
  {
    if s != [] {
      FilterNone(s[..|s| - 1], p);
    }
  }

  /** Every element of `s` satisfies `p`. */
  lemma {:induction false} FilterAll<T>(s: seq<T>, p: T -> bool)
    requires forall i :: 0 <= i < |s| ==> p(s[i])
    ensures Filter(s, p) == s
  {
    if s != [] {
      FilterAll(s[..|s| - 1], p);
      assert s[..|s| - 1] + [s[|s| - 1]] == s;
    }
  }

  /** `s.map(f).filter(x => x !== null)`: the present results of `f`, in
      the order of `s`. */
  function FilterMap<A, B>(s: seq<A>, f: A -> Option<B>): (r: seq<B>)
    ensures |r| <= |s|
  {
    if s == [] then []
    else FilterMap(s[..|s| - 1], f) + (match f(s[|s| - 1]) case Some(b) => [b] case None => [])
  }

  lemma {:induction false} FilterMapAppend<A, B>(a: seq<A>, b: seq<A>, f: A -> Option<B>)
    ensures FilterMap(a + b, f) == FilterMap(a, f) + FilterMap(b, f)
    decreases |b|
  {
    if b != [] {
      var init := b[..|b| - 1];
      assert (a + b)[..|a + b| - 1] == a + init;
      FilterMapAppend(a, init, f);
    } else {
      assert a + b == a;
    }
  }

  /** `FilterMap` keeps exactly the present results of `f`. */
  lemma {:induction false} FilterMapMembers<A, B>(s: seq<A>, f: A -> Option<B>)
    ensures forall i :: 0 <= i < |FilterMap(s, f)| ==> exists j :: 0 <= j < |s| && f(s[j]) == Some(FilterMap(s, f)[i])
    ensures forall j :: 0 <= j < |s| && f(s[j]).Some? ==> f(s[j]).value in FilterMap(s, f)
  {
    if s != [] {
      var init := s[..|s| - 1];
      FilterMapMembers(init, f);
      var r := FilterMap(s, f);
      var left := FilterMap(init, f);
      assert r == left + (match f(s[|s| - 1]) case Some(b) => [b] case None => []);
      forall i | 0 <= i < |r| ensures exists j :: 0 <= j < |s| && f(s[j]) == Some(r[i]) {
        if i < |left| {
          var j :| 0 <= j < |init| && f(init[j]) == Some(left[i]);
          assert s[j] == init[j] && r[i] == left[i];
          assert 0 <= j < |s| && f(s[j]) == Some(r[i]);
        } else {
          var k := |s| - 1;
          assert f(s[k]) == Some(r[i]);
        }
      }
      forall j | 0 <= j < |s| && f(s[j]).Some? ensures f(s[j]).value in r {
        if j < |s| - 1 {
          assert s[j] == init[j];
          assert f(init[j]).value in left;
        }
      }
    } else {
      assert |FilterMap(s, f)| == 0;
    }
  }

  /** `SELECT … WHERE key = k LIMIT 1`: the first element whose key is `k`. */
  function FindByKey<T>(s: seq<T>, key: T -> int, k: int): (r: Option<T>)
    ensures r.Some? ==> r.value in s && key(r.value) == k
    ensures r.None? ==> forall i :: 0 <= i < |s| ==> key(s[i]) != k
  {
    if s == [] then None
    else if key(s[0]) == k then Some(s[0])
    else FindByKey(s[1..], key, k)
  }

  /** Under strictly increasing keys, looking an element up by its own key
      finds that element. */
  lemma {:induction false} FindByKeyUnique<T>(s: seq<T>, key: T -> int, j: nat)
    requires IncreasingBy(s, key) && j < |s|
    ensures FindByKey(s, key, key(s[j])) == Some(s[j])
    decreases j
  {
    if j > 0 {
      assert key(s[0]) < key(s[j]);
      assert IncreasingBy(s[1..], key) by {
        forall a, b | 0 <= a < b < |s[1..]| ensures key(s[1..][a]) < key(s[1..][b]) {
          assert s[1..][a] == s[a + 1] && s[1..][b] == s[b + 1];
        }
      }
      FindByKeyUnique(s[1..], key, j - 1);
      assert s[1..][j - 1] == s[j];
    }
  }

  /** The keys strictly increase along `s`. */
  ghost predicate IncreasingBy<T>(s: seq<T>, key: T -> int) {
    forall i, j :: 0 <= i < j < |s| ==> key(s[i]) < key(s[j])
  }

  /** The keys strictly decrease along `s`. */
  ghost predicate DecreasingBy<T>(s: seq<T>, key: T -> int) {
    forall i, j :: 0 <= i < j < |s| ==> key(s[i]) > key(s[j])
  }

  lemma {:induction false} FilterIncreasing<T>(s: seq<T>, p: T -> bool, key: T -> int)
    requires IncreasingBy(s, key)
    ensures IncreasingBy(Filter(s, p), key)
  {
    if s != [] {
      var init := s[..|s| - 1];
      var last := s[|s| - 1];
      FilterIncreasing(init, p, key);
      var f := Filter(init, p);
      FilterMembers(init, p);
      forall i | 0 <= i < |f| ensures key(f[i]) < key(last) {
        assert f[i] in init;
      }
    }
  }

  /** `s` read from its end. */
  function Reverse<T>(s: seq<T>): (r: seq<T>)
    ensures |r| == |s|
    ensures forall i :: 0 <= i < |s| ==> r[i] == s[|s| - 1 - i]
  {
    if s == [] then [] else [s[|s| - 1]] + Reverse(s[..|s| - 1])
  }

  lemma ReverseMembers<T>(s: seq<T>)
    ensures forall i :: 0 <= i < |s| ==> s[i] in Reverse(s)
    ensures forall i :: 0 <= i < |s| ==> Reverse(s)[i] in s
  {
    var r := Reverse(s);
    forall i | 0 <= i < |s| ensures s[i] in r {
      assert r[|s| - 1 - i] == s[i];
    }
  }

  lemma ReverseDecreasing<T>(s: seq<T>, key: T -> int)
    requires IncreasingBy(s, key)
    ensures DecreasingBy(Reverse(s), key)
  {
  }

  /** The rows that satisfy `p`, newest first, given rows stored in insertion
      order with increasing ids. */
  function NewestFirst<T>(s: seq<T>, p: T -> bool): seq<T> {
    Reverse(Filter(s, p))
  }

  lemma {:induction false} NewestFirstSpec<T>(s: seq<T>, p: T -> bool, key: T -> int)
    requires IncreasingBy(s, key)
    ensures forall i :: 0 <= i < |NewestFirst(s, p)| ==> NewestFirst(s, p)[i] in s && p(NewestFirst(s, p)[i])
    ensures forall i :: 0 <= i < |s| && p(s[i]) ==> s[i] in NewestFirst(s, p)
    ensures DecreasingBy(NewestFirst(s, p), key)
  {
    FilterIncreasing(s, p, key);
    FilterMembers(s, p);
    ReverseDecreasing(Filter(s, p), key);
    ReverseMembers(Filter(s, p));
  }
}
