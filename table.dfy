/** A store table as the sequence of its rows, in storage order, and the
    three statements the models issue against it: a filtered load
    (`filter(..).load()`), a first match (`filter(..).first()`) and a
    primary-key upsert (`replace_into`). */
module Table {
  import opened Wrappers

  /** The rows of `s` that satisfy `p`, in storage order. */
  function Select<T(!new)>(s: seq<T>, p: T -> bool): (r: seq<T>)
    ensures |r| <= |s|
    ensures forall x :: x in r <==> x in s && p(x)
  {
    if s == [] then [] else (if p(s[0]) then [s[0]] else []) + Select(s[1..], p)
  }

  /** The first row that satisfies `p`, if any. */
  function First<T(!new)>(s: seq<T>, p: T -> bool): (r: Option<T>)
    ensures r.Some? ==> r.value in s && p(r.value)
    ensures r.None? <==> forall x :: x in s ==> !p(x)
  {
    var matches := Select(s, p);
    if matches == [] then None else assert matches[0] in matches; Some(matches[0])
  }

  /** No two rows share a primary key. */
  ghost predicate UniqueBy<T, K>(s: seq<T>, key: T -> K)
  {
    forall i, j :: 0 <= i < j < |s| ==> key(s[i]) != key(s[j])
  }

  /** Insert-or-overwrite on the primary key, as SQLite's REPLACE does it:
      every row carrying the key of `x` is removed and `x` is appended. */
  function Upsert<T(!new), K(==)>(s: seq<T>, key: T -> K, x: T): (r: seq<T>)
    ensures x in r
    ensures forall y :: y in r && key(y) == key(x) ==> y == x
    ensures forall y :: key(y) != key(x) ==> (y in r <==> y in s)
  {
    Select(s, y => key(y) != key(x)) + [x]
  }

  /** An upsert keeps the primary key unique. */
  lemma UpsertKeepsUnique<T(!new), K>(s: seq<T>, key: T -> K, x: T)
    requires UniqueBy(s, key)
    ensures UniqueBy(Upsert(s, key, x), key)
  {
    var rest := Select(s, y => key(y) != key(x));
    SelectKeepsUnique(s, key, y => key(y) != key(x));
    var r := rest + [x];
    forall i, j | 0 <= i < j < |r| ensures key(r[i]) != key(r[j]) {
      if j == |rest| {
        assert r[i] in rest;
      }
    }
  }

  lemma {:induction false} SelectKeepsUnique<T(!new), K>(s: seq<T>, key: T -> K, p: T -> bool)
    requires UniqueBy(s, key)
    ensures UniqueBy(Select(s, p), key)
  {
    if s != [] {
      SelectKeepsUnique(s[1..], key, p);
      var tail := Select(s[1..], p);
      forall y | y in tail ensures key(y) != key(s[0]) {
        var j :| 0 <= j < |s[1..]| && s[1..][j] == y;
        assert s[j + 1] == y;
      }
      var head := if p(s[0]) then [s[0]] else [];
      assert Select(s, p) == head + tail;
      forall i, j | 0 <= i < j < |head + tail|
        ensures key((head + tail)[i]) != key((head + tail)[j])
      {
        if i < |head| {
          assert (head + tail)[j] in tail;
        }
      }
    }
  }

  /** A filter distributes over concatenation. */
  lemma {:induction false} SelectAppend<T(!new)>(a: seq<T>, b: seq<T>, p: T -> bool)
    ensures Select(a + b, p) == Select(a, p) + Select(b, p)
  {
    if a != [] {
      assert (a + b)[1..] == a[1..] + b;
      SelectAppend(a[1..], b, p);
    } else {
      assert a + b == b;
    }
  }

  /** A filter keeps a table whose every row already satisfies it. */
  lemma {:induction false} SelectAll<T(!new)>(s: seq<T>, p: T -> bool)
    requires forall x :: x in s ==> p(x)
    ensures Select(s, p) == s
  {
    if s != [] {
      assert forall x :: x in s[1..] ==> x in s;
      SelectAll(s[1..], p);
    }
  }

  /** Saving the same row twice leaves the table as saving it once. */
  lemma UpsertIdempotent<T(!new), K>(s: seq<T>, key: T -> K, x: T)
    ensures Upsert(Upsert(s, key, x), key, x) == Upsert(s, key, x)
  {
    var p := y => key(y) != key(x);
    var rest := Select(s, p);
    SelectAppend(rest, [x], p);
    SelectAll(rest, p);
    assert Select([x], p) == [];
  }
}
