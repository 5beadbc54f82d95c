/** The MongoDB queries the handlers issue, as functions over a collection:
    `find()` in natural order, a filter, `sort({ key: -1 })`, `limit(n)` and `findOne`. */
module Queries {
  import opened Base

  /** The documents of a collection whose ids are below `n`, in id order: what `find()`
      without a filter or a sort returns. */
  function Entries<T>(m: map<Id, T>, n: nat): (es: seq<Entry<T>>)
    ensures forall i :: 0 <= i < |es| ==> es[i].0 in m && m[es[i].0] == es[i].1 && es[i].0 < n
    ensures forall k :: k in m && k < n ==> (k, m[k]) in es
    ensures forall i, j :: 0 <= i < j < |es| ==> es[i].0 < es[j].0
  {
    if n == 0 then []
    else
      var front := Entries(m, n - 1);
      if n - 1 in m then front + [(n - 1, m[n - 1])] else front
  }

  /** Every id of `m` is below `n`: `Entries(m, n)` then holds the whole collection. */
  predicate IdsBelow<T>(m: map<Id, T>, n: nat) {
    forall k :: k in m ==> k < n
  }

  /** The elements of `s` that satisfy `p`, in their order. */
  function Filter<T(!new)>(s: seq<T>, p: T -> bool): (r: seq<T>)
    ensures forall x :: x in r <==> x in s && p(x)
    ensures multiset(r) <= multiset(s)
    ensures Subsequence(r, s)
  {
    if s == [] then []
    else
      var rest := Filter(s[1..], p);
      assert s == [s[0]] + s[1..];
      if p(s[0]) then
        assert ([s[0]] + rest)[1..] == rest;
        [s[0]] + rest
      else rest
  }

  /** `r` is `s` with some elements left out, the others kept in their order. */
  ghost predicate Subsequence<T>(r: seq<T>, s: seq<T>)
    decreases |s|
  {
    if r == [] then true
    else if s == [] then false
    else (r[0] == s[0] && Subsequence(r[1..], s[1..])) || Subsequence(r, s[1..])
  }

  /** Leaving documents out of a listing in increasing id order keeps the rest in
      increasing id order. */
  lemma {:induction false} SubsequenceKeepsIdOrder<T>(r: seq<Entry<T>>, s: seq<Entry<T>>)
    requires Subsequence(r, s)
    requires forall i, j :: 0 <= i < j < |s| ==> s[i].0 < s[j].0
    ensures forall x :: x in r ==> x in s
    ensures forall i, j :: 0 <= i < j < |r| ==> r[i].0 < r[j].0
    decreases |s|
  {
    if r == [] {
    } else if r[0] == s[0] && Subsequence(r[1..], s[1..]) {
      SubsequenceKeepsIdOrder(r[1..], s[1..]);
      forall i, j | 0 <= i < j < |r| ensures r[i].0 < r[j].0 {
        if i == 0 {
          assert r[j] == r[1..][j - 1] && r[j] in r[1..];
          var k :| 0 <= k < |s[1..]| && s[1..][k] == r[j];
          assert s[k + 1] == r[j];
        } else {
          assert r[i] == r[1..][i - 1] && r[j] == r[1..][j - 1];
        }
      }
      forall x | x in r ensures x in s {
        if x != r[0] {
          assert x in r[1..];
        }
      }
    } else {
      SubsequenceKeepsIdOrder(r, s[1..]);
    }
  }

  /** `s` is ordered by `key`, largest first. */
  ghost predicate SortedDesc<T>(s: seq<T>, key: T -> int) {
    forall i, j :: 0 <= i < j < |s| ==> key(s[i]) >= key(s[j])
  }

  /** Insert `x` into a sequence ordered by `key`, largest first. */
  function Insert<T>(x: T, s: seq<T>, key: T -> int): (r: seq<T>)
    ensures multiset(r) == multiset(s) + multiset{x}
  {
    if s == [] || key(x) >= key(s[0]) then [x] + s
    else
      assert s == [s[0]] + s[1..];
      [s[0]] + Insert(x, s[1..], key)
  }

  /** Inserting an element no larger than `bound` among elements no larger than `bound`
      gives elements no larger than `bound`. */
  lemma {:induction false} InsertBounded<T>(x: T, s: seq<T>, key: T -> int, bound: int)
    requires key(x) <= bound
    requires forall i :: 0 <= i < |s| ==> key(s[i]) <= bound
    ensures forall i :: 0 <= i < |Insert(x, s, key)| ==> key(Insert(x, s, key)[i]) <= bound
  {
    if s != [] && key(x) < key(s[0]) {
      InsertBounded(x, s[1..], key, bound);
    }
  }

  /** An ordered sequence stays ordered behind an element no smaller than any of it. */
  lemma ConsSorted<T>(a: T, s: seq<T>, key: T -> int)
    requires SortedDesc(s, key)
    requires forall i :: 0 <= i < |s| ==> key(s[i]) <= key(a)
    ensures SortedDesc([a] + s, key)
  {
    var r := [a] + s;
    forall i, j | 0 <= i < j < |r| ensures key(r[i]) >= key(r[j]) {
      assert r[j] == s[j - 1];
      if i > 0 {
        assert r[i] == s[i - 1];
      }
    }
  }

  /** Inserting into an ordered sequence keeps it ordered. */
  lemma {:induction false} InsertSorted<T>(x: T, s: seq<T>, key: T -> int)
    requires SortedDesc(s, key)
    ensures SortedDesc(Insert(x, s, key), key)
  {
    if s == [] || key(x) >= key(s[0]) {
      ConsSorted(x, s, key);
    } else {
      InsertSorted(x, s[1..], key);
      InsertBounded(x, s[1..], key, key(s[0]));
      ConsSorted(s[0], Insert(x, s[1..], key), key);
    }
  }

  /** `sort({ key: -1 })`: the same elements, largest key first. */
  function SortDesc<T>(s: seq<T>, key: T -> int): (r: seq<T>)
    ensures SortedDesc(r, key)
    ensures multiset(r) == multiset(s)
  {
    if s == [] then []
    else
      var rest := SortDesc(s[1..], key);
      InsertSorted(s[0], rest, key);
      assert s == [s[0]] + s[1..];
      Insert(s[0], rest, key)
  }

  /** `limit(n)`. */
  function Take<T>(s: seq<T>, n: nat): (r: seq<T>)
    ensures |r| <= n && |r| <= |s| && r == s[..|r|]
    ensures |s| <= n ==> r == s
    ensures |s| > n ==> |r| == n
    ensures multiset(r) <= multiset(s)
  {
    if |s| <= n then s
    else
      assert s == s[..n] + s[n..];
      s[..n]
  }

  /** A prefix of an ordered sequence is ordered, and holds only elements of the sequence. */
  lemma PrefixOfSorted<T>(s: seq<T>, n: nat, key: T -> int)
    requires SortedDesc(s, key) && n <= |s|
    ensures SortedDesc(s[..n], key)
    ensures multiset(s[..n]) <= multiset(s)
  {
    assert s == s[..n] + s[n..];
  }

  /** Every element a prefix of an ordered sequence leaves out is no larger than the
      elements the prefix keeps. */
  lemma PrefixHoldsTheLargest<T>(s: seq<T>, n: nat, key: T -> int, x: T)
    requires SortedDesc(s, key) && n <= |s|
    requires x in s && x !in s[..n]
    ensures forall e | e in s[..n] :: key(e) >= key(x)
  {
    var j :| 0 <= j < |s| && s[j] == x;
    forall e | e in s[..n] ensures key(e) >= key(x) {
      var i :| 0 <= i < n && s[..n][i] == e;
      assert s[i] == e;
    }
  }

  /** `findOne`: the first element satisfying `p`, if any. */
  function FirstWhere<T(!new)>(s: seq<T>, p: T -> bool): (r: Option<T>)
    ensures r.Some? <==> exists x :: x in s && p(x)
    ensures r.Some? ==> p(r.value)
    ensures r.Some? ==> exists i :: 0 <= i < |s| && s[i] == r.value && forall j :: 0 <= j < i ==> !p(s[j])
  {
    if s == [] then None
    else if p(s[0]) then Some(s[0])
    else
      var rest := FirstWhere(s[1..], p);
      assert s == [s[0]] + s[1..];
      if rest.Some? then
        assert exists i :: 0 <= i < |s| && s[i] == rest.value && forall j :: 0 <= j < i ==> !p(s[j]) by {
          var i :| 0 <= i < |s[1..]| && s[1..][i] == rest.value && forall j :: 0 <= j < i ==> !p(s[1..][j]);
          assert s[i + 1] == rest.value;
          forall j | 0 <= j < i + 1 ensures !p(s[j]) {
            if j > 0 {
              assert s[j] == s[1..][j - 1];
            }
          }
        }
        rest
      else
        rest
  }

  /** The filter `p` on documents, as a filter on (id, document) entries. */
  function OnDocument<T>(p: T -> bool): Entry<T> -> bool {
    (e: Entry<T>) => p(e.1)
  }

  /** In a sequence in increasing id order, an entry before the first match has no
      match; so no document with a smaller id than the first match satisfies `q`. */
  lemma {:induction false} EarlierEntriesFail<T>(m: map<Id, T>, n: nat, q: Entry<T> -> bool, i: nat)
    requires i < |Entries(m, n)|
    requires forall j :: 0 <= j < i ==> !q(Entries(m, n)[j])
    ensures forall k :: k in m && k < Entries(m, n)[i].0 ==> !q((k, m[k]))
  {
    var es := Entries(m, n);
    forall k | k in m && k < es[i].0 ensures !q((k, m[k])) {
      assert (k, m[k]) in es;
      var j :| 0 <= j < |es| && es[j] == (k, m[k]);
      assert j < i;
    }
  }

  /** The first entry, in id order, whose document satisfies `p` has the smallest id
      of all such documents. */
  lemma FirstMatchIsEarliest<T(!new)>(m: map<Id, T>, n: nat, p: T -> bool)
    requires FirstWhere(Entries(m, n), OnDocument(p)).Some?
    ensures var f := FirstWhere(Entries(m, n), OnDocument(p)).value;
            forall k :: k in m && k < f.0 ==> !p(m[k])
  {
    var es := Entries(m, n);
    var f := FirstWhere(es, OnDocument(p)).value;
    var i :| 0 <= i < |es| && es[i] == f && forall j :: 0 <= j < i ==> !OnDocument(p)(es[j]);
    EarlierEntriesFail(m, n, OnDocument(p), i);
    forall k | k in m && k < f.0 ensures !p(m[k]) {
      assert !OnDocument(p)((k, m[k]));
    }
  }

  /** `Model.findOne(filter)` on a collection whose ids are below `n`: the document with
      the smallest id (first in natural order) that satisfies `p`, if any. */
  function FindOne<T(!new)>(m: map<Id, T>, n: nat, p: T -> bool): (r: Option<Entry<T>>)
    requires IdsBelow(m, n)
    ensures r.Some? <==> exists k :: k in m && p(m[k])
    ensures r.Some? ==> r.value.0 in m && m[r.value.0] == r.value.1 && p(r.value.1)
    ensures r.Some? ==> forall k :: k in m && k < r.value.0 ==> !p(m[k])
  {
    var es := Entries(m, n);
    var q := OnDocument(p);
    var found := FirstWhere(es, q);
    assert found.Some? <==> exists k :: k in m && p(m[k]) by {
      forall k | k in m && p(m[k]) ensures (k, m[k]) in es && q((k, m[k])) {}
    }
    if found.None? then found
    else
      FirstMatchIsEarliest(m, n, p);
      found
  }
}
