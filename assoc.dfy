/** Association lists keyed by strings. Two uses: a Python dict (entries in
    insertion order) and an LMDB environment (entries strictly sorted by key,
    which is the order its cursor visits them). The key order is Python's `<`
    on str, lexicographic by code point; on UTF-8 encoded keys this is also
    LMDB's byte order. */
module Assoc {
  import opened Base

  /** Python's `a < b` on str. */
  predicate Lt(a: string, b: string)
    decreases |a|
  {
    if |a| == 0 then |b| > 0
    else if |b| == 0 then false
    else if a[0] == b[0] then Lt(a[1..], b[1..])
    else a[0] < b[0]
  }

  lemma {:induction false} LtIrreflexive(a: string)
    ensures !Lt(a, a)
    decreases |a|
  {
    if |a| > 0 { LtIrreflexive(a[1..]); }
  }

  lemma {:induction false} LtTransitive(a: string, b: string, c: string)
    requires Lt(a, b) && Lt(b, c)
    ensures Lt(a, c)
    decreases |a|
  {
    if |a| > 0 && |b| > 0 && |c| > 0 && a[0] == b[0] && b[0] == c[0] {
      LtTransitive(a[1..], b[1..], c[1..]);
    }
  }

  /** Any two distinct strings are ordered one way or the other. */
  lemma {:induction false} LtTotal(a: string, b: string)
    requires a != b
    ensures Lt(a, b) || Lt(b, a)
    decreases |a|
  {
    if |a| > 0 && |b| > 0 && a[0] == b[0] {
      assert a == [a[0]] + a[1..] && b == [b[0]] + b[1..];
      LtTotal(a[1..], b[1..]);
    }
  }

  lemma LtAsymmetric(a: string, b: string)
    requires Lt(a, b)
    ensures !Lt(b, a)
  {
    if Lt(b, a) {
      LtTransitive(a, b, a);
      LtIrreflexive(a);
    }
  }

  /** A shared prefix does not change the order. */
  lemma {:induction false} LtShared(p: string, a: string, b: string)
    requires Lt(a, b)
    ensures Lt(p + a, p + b)
    decreases |p|
  {
    if p != [] {
      assert (p + a)[0] == (p + b)[0];
      assert (p + a)[1..] == p[1..] + a && (p + b)[1..] == p[1..] + b;
      LtShared(p[1..], a, b);
    } else {
      assert p + a == a && p + b == b;
    }
  }

  /** Between strings of the same length, whatever follows does not change
      the order. */
  lemma {:induction false} LtExtend(a: string, b: string, x: string, y: string)
    requires |a| == |b| && Lt(a, b)
    ensures Lt(a + x, b + y)
    decreases |a|
  {
    if a[0] == b[0] {
      assert (a + x)[1..] == a[1..] + x && (b + y)[1..] == b[1..] + y;
      LtExtend(a[1..], b[1..], x, y);
    }
  }

  /** The mapping an association list denotes; an earlier entry wins over a
      later one with the same key (which never occurs in a Python dict or an
      LMDB environment). Two dicts are equal in Python iff their maps are. */
  function ToMap<V>(s: seq<(string, V)>): map<string, V>
  {
    if s == [] then map[] else ToMap(s[1..])[s[0].0 := s[0].1]
  }

  /** The first value stored under `k`, as `dict.get`/`txn.get` return it. */
  function Get<V>(s: seq<(string, V)>, k: string): (r: Option<V>)
    ensures r == if k in ToMap(s) then Some(ToMap(s)[k]) else None
  {
    if s == [] then None
    else if s[0].0 == k then Some(s[0].1)
    else Get(s[1..], k)
  }

  ghost predicate StrictlySorted<V>(s: seq<(string, V)>)
  {
    forall i, j :: 0 <= i < j < |s| ==> Lt(s[i].0, s[j].0)
  }

  /** Every key of `s` is above `x`. */
  ghost predicate Above<V>(x: string, s: seq<(string, V)>)
  {
    forall i :: 0 <= i < |s| ==> Lt(x, s[i].0)
  }

  lemma AboveOfSorted<V>(s: seq<(string, V)>)
    requires StrictlySorted(s) && s != []
    ensures Above(s[0].0, s[1..])
  {
    forall i | 0 <= i < |s[1..]| ensures Lt(s[0].0, s[1..][i].0) {
      assert s[1..][i] == s[i + 1];
    }
  }

  lemma AboveWeaken<V>(x: string, y: string, s: seq<(string, V)>)
    requires Lt(x, y) && Above(y, s)
    ensures Above(x, s)
  {
    forall i | 0 <= i < |s| ensures Lt(x, s[i].0) {
      LtTransitive(x, y, s[i].0);
    }
  }

  lemma {:induction false} AboveNotIn<V>(x: string, s: seq<(string, V)>)
    requires Above(x, s)
    ensures x !in ToMap(s)
  {
    if s != [] {
      LtIrreflexive(x);
      assert Above(x, s[1..]) by {
        forall i | 0 <= i < |s[1..]| ensures Lt(x, s[1..][i].0) {
          assert s[1..][i] == s[i + 1];
        }
      }
      AboveNotIn(x, s[1..]);
    }
  }

  lemma ConsSorted<V>(e: (string, V), t: seq<(string, V)>)
    requires Above(e.0, t) && StrictlySorted(t)
    ensures StrictlySorted([e] + t)
  {
    var r := [e] + t;
    forall i, j | 0 <= i < j < |r| ensures Lt(r[i].0, r[j].0) {
      assert r[j] == t[j - 1];
      if i > 0 { assert r[i] == t[i - 1]; }
    }
  }

  /** `txn.put(k, v)` on a sorted environment: overwrite the entry with key
      `k`, or insert one at its place in key order. */
  function Put<V>(s: seq<(string, V)>, k: string, v: V): (r: seq<(string, V)>)
    ensures ToMap(r) == ToMap(s)[k := v]
  {
    if s == [] then [(k, v)]
    else if s[0].0 == k then [(k, v)] + s[1..]
    else if Lt(k, s[0].0) then [(k, v)] + s
    else [s[0]] + Put(s[1..], k, v)
  }

  /** The map of a three-entry dict literal. */
  lemma ToMapThree<V>(a: (string, V), b: (string, V), c: (string, V))
    ensures ToMap([a, b, c]) == map[c.0 := c.1][b.0 := b.1][a.0 := a.1]
  {
    assert [a, b, c][1..] == [b, c] && [b, c][1..] == [c] && [c][1..] == [];
    assert ToMap([c]) == map[c.0 := c.1];
    assert ToMap([b, c]) == ToMap([c])[b.0 := b.1];
  }

  /** The map of a four-entry dict literal. */
  lemma ToMapFour<V>(a: (string, V), b: (string, V), c: (string, V), d: (string, V))
    ensures ToMap([a, b, c, d]) == map[d.0 := d.1][c.0 := c.1][b.0 := b.1][a.0 := a.1]
  {
    assert [a, b, c, d][1..] == [b, c, d];
    ToMapThree(b, c, d);
  }

  /** Where a fresh key lands: in front of a larger first key, else past the
      first entry. */
  lemma PutFresh<V>(s: seq<(string, V)>, k: string, v: V)
    requires s == [] || k != s[0].0
    ensures s == [] || Lt(k, s[0].0) ==> Put(s, k, v) == [(k, v)] + s
    ensures s != [] && !Lt(k, s[0].0) ==> Put(s, k, v) == [s[0]] + Put(s[1..], k, v)
  {
    if s == [] {
      assert [(k, v)] + s == [(k, v)];
    }
  }

  lemma {:induction false} PutAbove<V>(x: string, s: seq<(string, V)>, k: string, v: V)
    requires Above(x, s) && Lt(x, k)
    ensures Above(x, Put(s, k, v))
  {
    if s != [] && s[0].0 != k && !Lt(k, s[0].0) {
      assert Above(x, s[1..]) by {
        forall i | 0 <= i < |s[1..]| ensures Lt(x, s[1..][i].0) {
          assert s[1..][i] == s[i + 1];
        }
      }
      PutAbove(x, s[1..], k, v);
      var r := Put(s, k, v);
      forall i | 0 <= i < |r| ensures Lt(x, r[i].0) {
        if i > 0 { assert r[i] == Put(s[1..], k, v)[i - 1]; }
      }
    }
  }

  lemma {:induction false} PutSorted<V>(s: seq<(string, V)>, k: string, v: V)
    requires StrictlySorted(s)
    ensures StrictlySorted(Put(s, k, v))
  {
    if s != [] {
      AboveOfSorted(s);
      if s[0].0 == k {
        ConsSorted((k, v), s[1..]);
      } else if Lt(k, s[0].0) {
        forall i | 0 <= i < |s| ensures Lt(k, s[i].0) {
          if i > 0 { LtTransitive(k, s[0].0, s[i].0); }
        }
        ConsSorted((k, v), s);
      } else {
        LtTotal(k, s[0].0);
        PutSorted(s[1..], k, v);
        PutAbove(s[0].0, s[1..], k, v);
        ConsSorted(s[0], Put(s[1..], k, v));
      }
    }
  }

  /** `txn.delete(k)` / removing a key: drop the first entry with key `k`. */
  function Remove<V>(s: seq<(string, V)>, k: string): (r: seq<(string, V)>)
    ensures |r| <= |s|
  {
    if s == [] then []
    else if s[0].0 == k then s[1..]
    else [s[0]] + Remove(s[1..], k)
  }

  lemma {:induction false} RemoveAbove<V>(x: string, s: seq<(string, V)>, k: string)
    requires Above(x, s)
    ensures Above(x, Remove(s, k))
  {
    if s != [] && s[0].0 != k {
      assert Above(x, s[1..]) by {
        forall i | 0 <= i < |s[1..]| ensures Lt(x, s[1..][i].0) {
          assert s[1..][i] == s[i + 1];
        }
      }
      RemoveAbove(x, s[1..], k);
      var r := Remove(s, k);
      forall i | 0 <= i < |r| ensures Lt(x, r[i].0) {
        if i > 0 { assert r[i] == Remove(s[1..], k)[i - 1]; }
      }
    }
  }

  lemma {:induction false} RemoveSpec<V>(s: seq<(string, V)>, k: string)
    requires StrictlySorted(s)
    ensures StrictlySorted(Remove(s, k))
    ensures ToMap(Remove(s, k)) == ToMap(s) - {k}
  {
    if s != [] {
      AboveOfSorted(s);
      AboveNotIn(s[0].0, s[1..]);
      assert StrictlySorted(s[1..]) by {
        forall i, j | 0 <= i < j < |s[1..]| ensures Lt(s[1..][i].0, s[1..][j].0) {
          assert s[1..][i] == s[i + 1] && s[1..][j] == s[j + 1];
        }
      }
      if s[0].0 == k {
        assert ToMap(s) - {k} == ToMap(s[1..]);
      } else {
        RemoveSpec(s[1..], k);
        RemoveAbove(s[0].0, s[1..], k);
        ConsSorted(s[0], Remove(s[1..], k));
      }
    }
  }

  /** Two strictly sorted lists that denote the same mapping are the same list. */
  lemma {:induction false} SortedUnique<V>(a: seq<(string, V)>, b: seq<(string, V)>)
    requires StrictlySorted(a) && StrictlySorted(b)
    requires ToMap(a) == ToMap(b)
    ensures a == b
  {
    if a != [] { assert a[0].0 in ToMap(a); }
    if b != [] { assert b[0].0 in ToMap(b); }
    if a != [] && b != [] {
      AboveOfSorted(a);
      AboveOfSorted(b);
      var k := a[0].0;
      if k != b[0].0 {
        LtTotal(k, b[0].0);
        if Lt(k, b[0].0) {
          AboveWeaken(k, b[0].0, b[1..]);
          AboveNotIn(k, b[1..]);
        } else {
          AboveWeaken(b[0].0, k, a[1..]);
          AboveNotIn(b[0].0, a[1..]);
        }
        assert false;
      }
      AboveNotIn(k, a[1..]);
      AboveNotIn(k, b[1..]);
      assert ToMap(a[1..]) == ToMap(a) - {k};
      assert ToMap(b[1..]) == ToMap(b) - {k};
      assert StrictlySorted(a[1..]) by {
        forall i, j | 0 <= i < j < |a[1..]| ensures Lt(a[1..][i].0, a[1..][j].0) {
          assert a[1..][i] == a[i + 1] && a[1..][j] == a[j + 1];
        }
      }
      assert StrictlySorted(b[1..]) by {
        forall i, j | 0 <= i < j < |b[1..]| ensures Lt(b[1..][i].0, b[1..][j].0) {
          assert b[1..][i] == b[i + 1] && b[1..][j] == b[j + 1];
        }
      }
      SortedUnique(a[1..], b[1..]);
      assert a == [a[0]] + a[1..] && b == [b[0]] + b[1..];
    }
  }

  /** Insertion sort by key: what `sorted(d.items())` gives for a dict. */
  function SortByKey<V>(e: seq<(string, V)>): (r: seq<(string, V)>)
    ensures ToMap(r) == ToMap(e)
  {
    if e == [] then [] else Put(SortByKey(e[1..]), e[0].0, e[0].1)
  }

  lemma {:induction false} SortByKeySorted<V>(e: seq<(string, V)>)
    ensures StrictlySorted(SortByKey(e))
  {
    if e != [] {
      SortByKeySorted(e[1..]);
      PutSorted(SortByKey(e[1..]), e[0].0, e[0].1);
    }
  }

  /** Sorting depends only on the mapping: dicts that compare equal sort to the
      same list, whatever order their keys were inserted in. */
  lemma SortByKeyRespectsEquality<V>(d1: seq<(string, V)>, d2: seq<(string, V)>)
    requires ToMap(d1) == ToMap(d2)
    ensures SortByKey(d1) == SortByKey(d2)
  {
    SortByKeySorted(d1);
    SortByKeySorted(d2);
    SortedUnique(SortByKey(d1), SortByKey(d2));
  }

  /** No key occurs twice: true of every Python dict. */
  ghost predicate UniqueKeys<V>(s: seq<(string, V)>)
  {
    forall i, j :: 0 <= i < j < |s| ==> s[i].0 != s[j].0
  }

  /** `d[k] = v` on a Python dict: an existing key keeps its position and
      takes the new value; a new key is appended at the end. */
  function Assign<V>(s: seq<(string, V)>, k: string, v: V): (r: seq<(string, V)>)
    ensures ToMap(r) == ToMap(s)[k := v]
  {
    if s == [] then [(k, v)]
    else if s[0].0 == k then [(k, v)] + s[1..]
    else [s[0]] + Assign(s[1..], k, v)
  }

  /** A fresh key goes at the end, after every existing entry. */
  lemma {:induction false} AssignFresh<V>(s: seq<(string, V)>, k: string, v: V)
    requires k !in ToMap(s)
    ensures Assign(s, k, v) == s + [(k, v)]
  {
    if s != [] {
      AssignFresh(s[1..], k, v);
      assert s == [s[0]] + s[1..];
    }
  }

  /** Adding a fresh key and deleting it again gives back the same dict,
      entry order included. */
  lemma {:induction false} RemoveAssignFresh<V>(s: seq<(string, V)>, k: string, v: V)
    requires k !in ToMap(s)
    ensures Remove(Assign(s, k, v), k) == s
  {
    if s != [] {
      RemoveAssignFresh(s[1..], k, v);
      assert s == [s[0]] + s[1..];
    }
  }

  lemma {:induction false} InToMap<V>(s: seq<(string, V)>, i: nat)
    requires i < |s|
    ensures s[i].0 in ToMap(s)
  {
    if i > 0 { InToMap(s[1..], i - 1); }
  }

  /** `del d[k]` on a dict with unique keys: exactly that key goes. */
  lemma {:induction false} RemoveUnique<V>(s: seq<(string, V)>, k: string)
    requires UniqueKeys(s)
    ensures UniqueKeys(Remove(s, k))
    ensures ToMap(Remove(s, k)) == ToMap(s) - {k}
  {
    if s != [] {
      assert UniqueKeys(s[1..]) by {
        forall i, j | 0 <= i < j < |s[1..]| ensures s[1..][i].0 != s[1..][j].0 {
          assert s[1..][i] == s[i + 1] && s[1..][j] == s[j + 1];
        }
      }
      if s[0].0 == k {
        if k in ToMap(s[1..]) {
          var i := IndexOf(s[1..], k);
          assert false;
        }
        assert ToMap(s) - {k} == ToMap(s[1..]);
      } else {
        RemoveUnique(s[1..], k);
        var r := Remove(s, k);
        assert r == [s[0]] + Remove(s[1..], k);
        forall i, j | 0 <= i < j < |r| ensures r[i].0 != r[j].0 {
          if i == 0 {
            var kj := r[j].0;
            assert kj in ToMap(Remove(s[1..], k)) by { InToMap(Remove(s[1..], k), j - 1); }
            if kj == s[0].0 {
              var m := IndexOf(s[1..], kj);
              assert false;
            }
          }
        }
      }
    }
  }

  /** The position of a key that is present. */
  lemma {:induction false} IndexOf<V>(s: seq<(string, V)>, k: string) returns (i: nat)
    requires k in ToMap(s)
    ensures i < |s| && s[i].0 == k
  {
    if s[0].0 == k {
      i := 0;
    } else {
      var j := IndexOf(s[1..], k);
      i := j + 1;
    }
  }

  /** In a dict with unique keys every entry is what its key maps to. */
  lemma {:induction false} ToMapAt<V>(s: seq<(string, V)>, i: nat)
    requires UniqueKeys(s) && i < |s|
    ensures s[i].0 in ToMap(s) && ToMap(s)[s[i].0] == s[i].1
  {
    if i > 0 {
      assert UniqueKeys(s[1..]) by {
        forall a, b | 0 <= a < b < |s[1..]| ensures s[1..][a].0 != s[1..][b].0 {
          assert s[1..][a] == s[a + 1] && s[1..][b] == s[b + 1];
        }
      }
      ToMapAt(s[1..], i - 1);
      assert s[1..][i - 1] == s[i];
    }
  }

  /** Writing the same value twice under one key is the same as writing it
      once: `txn.put` overwrites. */
  lemma {:induction false} PutIdempotent<V>(s: seq<(string, V)>, k: string, v: V)
    ensures Put(Put(s, k, v), k, v) == Put(s, k, v)
  {
    if s != [] && s[0].0 != k && !Lt(k, s[0].0) {
      PutIdempotent(s[1..], k, v);
      LtIrreflexive(k);
      assert Put(s, k, v)[1..] == Put(s[1..], k, v);
    } else {
      LtIrreflexive(k);
    }
  }

  /** `d[k] = v` keeps the keys of a dict unique. */
  lemma {:induction false} AssignUnique<V>(s: seq<(string, V)>, k: string, v: V)
    requires UniqueKeys(s)
    ensures UniqueKeys(Assign(s, k, v))
  {
    if s != [] && s[0].0 != k {
      assert UniqueKeys(s[1..]) by {
        forall i, j | 0 <= i < j < |s[1..]| ensures s[1..][i].0 != s[1..][j].0 {
          assert s[1..][i] == s[i + 1] && s[1..][j] == s[j + 1];
        }
      }
      AssignUnique(s[1..], k, v);
      var t := Assign(s[1..], k, v);
      var r := Assign(s, k, v);
      assert r == [s[0]] + t;
      forall i, j | 0 <= i < j < |r| ensures r[i].0 != r[j].0 {
        if i == 0 {
          InToMap(t, j - 1);
          assert r[j] == t[j - 1];
          if r[j].0 == s[0].0 {
            assert s[0].0 in ToMap(s[1..]);
            var m := IndexOf(s[1..], s[0].0);
            assert false;
          }
        }
      }
    } else if s != [] {
      var r := Assign(s, k, v);
      forall i, j | 0 <= i < j < |r| ensures r[i].0 != r[j].0 {
        assert r[j] == s[j];
        if i > 0 { assert r[i] == s[i]; }
      }
    }
  }

  /** The values of an association list, in its order: `list(d.values())`. */
  function Values<V>(s: seq<(string, V)>): (r: seq<V>)
    ensures |r| == |s|
    ensures forall i | 0 <= i < |s| :: r[i] == s[i].1
  {
    seq(|s|, i requires 0 <= i < |s| => s[i].1)
  }
}
