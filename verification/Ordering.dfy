/** `ORDER BY position, created_at`: rows are named by their ids and listed by key. */
module Ordering {

  type Id = nat

  datatype Key = Key(position: int, stamp: int)

  predicate Before(a: Key, b: Key) {
    a.position < b.position || (a.position == b.position && a.stamp < b.stamp)
  }

  /** No two rows tie on the whole key. */
  ghost predicate Distinct(keys: map<Id, Key>) {
    forall x, y :: x in keys && y in keys && x != y ==> keys[x] != keys[y]
  }

  /** `ids` lists each of `rows` exactly once, never a later key before an earlier one. */
  ghost predicate Lists(ids: seq<Id>, rows: set<Id>, keys: map<Id, Key>)
    requires rows <= keys.Keys
  {
    && (forall i :: 0 <= i < |ids| ==> ids[i] in rows)
    && (forall x :: x in rows ==> x in ids)
    && (forall i, j :: 0 <= i < j < |ids| ==> ids[i] != ids[j])
    && (forall i, j :: 0 <= i < j < |ids| ==> !Before(keys[ids[j]], keys[ids[i]]))
  }

  ghost predicate IsOrder(ids: seq<Id>, keys: map<Id, Key>) {
    Lists(ids, keys.Keys, keys)
  }

  ghost predicate Least(m: Id, rows: set<Id>, keys: map<Id, Key>)
    requires rows <= keys.Keys
  {
    m in rows && forall x :: x in rows ==> !Before(keys[x], keys[m])
  }

  lemma {:induction false} LeastExists(rows: set<Id>, keys: map<Id, Key>)
    requires rows <= keys.Keys && rows != {}
    ensures exists m :: Least(m, rows, keys)
    decreases |rows|
  {
    var y :| y in rows;
    var rest := rows - {y};
    if rest == {} {
      assert rows == {y};
      assert Least(y, rows, keys);
    } else {
      LeastExists(rest, keys);
      var m :| Least(m, rest, keys);
      assert Least(if Before(keys[y], keys[m]) then y else m, rows, keys);
    }
  }

  ghost function SortRows(rows: set<Id>, keys: map<Id, Key>): (ids: seq<Id>)
    requires rows <= keys.Keys
    ensures Lists(ids, rows, keys)
    decreases |rows|
  {
    if rows == {} then []
    else
      LeastExists(rows, keys);
      var m :| Least(m, rows, keys);
      [m] + SortRows(rows - {m}, keys)
  }

  /** The listing that the database returns. Rows with equal keys come in an order the
      database does not promise; `:|` fixes one, and OrderUnique says when it matters. */
  ghost function SortIds(keys: map<Id, Key>): (ids: seq<Id>)
    ensures IsOrder(ids, keys)
  {
    SortRows(keys.Keys, keys)
  }

  lemma TailLists(ids: seq<Id>, rows: set<Id>, keys: map<Id, Key>)
    requires rows <= keys.Keys && Lists(ids, rows, keys) && ids != []
    ensures ids[0] in rows && Lists(ids[1..], rows - {ids[0]}, keys)
  {
    forall x | x in rows - {ids[0]} ensures x in ids[1..] {
      var i :| 0 <= i < |ids| && ids[i] == x;
      assert ids[1..][i - 1] == x;
    }
  }

  lemma {:induction false} ListsUnique(a: seq<Id>, b: seq<Id>, rows: set<Id>, keys: map<Id, Key>)
    requires rows <= keys.Keys && Distinct(keys)
    requires Lists(a, rows, keys) && Lists(b, rows, keys)
    ensures a == b
    decreases |a|
  {
    if a == [] {
      assert rows == {};
    } else {
      assert a[0] in b && b[0] in a;
      TailLists(a, rows, keys);
      TailLists(b, rows, keys);
      ListsUnique(a[1..], b[1..], rows - {a[0]}, keys);
      assert a == [a[0]] + a[1..] && b == [b[0]] + b[1..];
    }
  }

  /** Distinct keys leave only one listing. */
  lemma OrderUnique(a: seq<Id>, b: seq<Id>, keys: map<Id, Key>)
    requires Distinct(keys) && IsOrder(a, keys) && IsOrder(b, keys)
    ensures a == b
  {
    ListsUnique(a, b, keys.Keys, keys);
  }

  /** A listing has as many entries as there are rows. */
  lemma {:induction false} ListsLength(ids: seq<Id>, rows: set<Id>, keys: map<Id, Key>)
    requires rows <= keys.Keys && Lists(ids, rows, keys)
    ensures |ids| == |rows|
    decreases |ids|
  {
    if ids == [] {
      assert rows == {};
    } else {
      TailLists(ids, rows, keys);
      ListsLength(ids[1..], rows - {ids[0]}, keys);
    }
  }

  // ----- Picking some rows out of a listing

  function Filtered(ids: seq<Id>, rows: set<Id>): seq<Id> {
    if ids == [] then [] else (if ids[0] in rows then [ids[0]] else []) + Filtered(ids[1..], rows)
  }

  lemma FilteredMembers(ids: seq<Id>, rows: set<Id>)
    ensures forall x :: x in Filtered(ids, rows) <==> x in ids && x in rows
  {
  }

  ghost predicate Ascends(ids: seq<Id>, keys: map<Id, Key>) {
    && (forall i :: 0 <= i < |ids| ==> ids[i] in keys)
    && (forall i, j :: 0 <= i < j < |ids| ==> ids[i] != ids[j])
    && (forall i, j :: 0 <= i < j < |ids| ==> !Before(keys[ids[j]], keys[ids[i]]))
  }

  lemma {:induction false} FilteredAscends(ids: seq<Id>, rows: set<Id>, keys: map<Id, Key>)
    requires Ascends(ids, keys)
    ensures Ascends(Filtered(ids, rows), keys)
  {
    if ids != [] {
      var tail := Filtered(ids[1..], rows);
      assert Ascends(ids[1..], keys);
      FilteredAscends(ids[1..], rows, keys);
      assert Ascends(tail, keys);
      FilteredMembers(ids[1..], rows);
      forall i | 0 <= i < |tail| ensures tail[i] != ids[0] && !Before(keys[tail[i]], keys[ids[0]]) {
        assert tail[i] in tail;
        var j :| 0 <= j < |ids[1..]| && ids[1..][j] == tail[i];
        assert ids[j + 1] == tail[i];
      }
      assert Ascends([ids[0]] + tail, keys);
    }
  }

  /** Restricting a table to some rows picks those rows out of its listing, in the same order. */
  lemma RestrictedOrder(keys: map<Id, Key>, part: map<Id, Key>)
    requires Distinct(keys) && part.Keys <= keys.Keys && forall x :: x in part ==> part[x] == keys[x]
    ensures SortIds(part) == Filtered(SortIds(keys), part.Keys)
  {
    var all := SortIds(keys);
    var f := Filtered(all, part.Keys);
    FilteredMembers(all, part.Keys);
    FilteredAscends(all, part.Keys, keys);
    assert forall x :: x in f <==> x in part.Keys;
    forall i | 0 <= i < |f| ensures f[i] in part.Keys { assert f[i] in f; }
    assert Lists(f, part.Keys, part);
    OrderUnique(SortIds(part), f, part);
  }

  lemma {:induction false} FilteredSnoc(ids: seq<Id>, x: Id, rows: set<Id>)
    ensures Filtered(ids + [x], rows) == Filtered(ids, rows) + (if x in rows then [x] else [])
  {
    if ids != [] {
      assert (ids + [x])[1..] == ids[1..] + [x];
      FilteredSnoc(ids[1..], x, rows);
    } else {
      assert ids + [x] == [x];
    }
  }

  // ----- Executable listings

  /** `SELECT` without an order: the rows in whatever sequence the table yields them. */
  method Fetch(keys: map<Id, Key>) returns (ids: seq<Id>)
    ensures forall x :: x in ids <==> x in keys
    ensures forall i, j :: 0 <= i < j < |ids| ==> ids[i] != ids[j]
  {
    ids := [];
    var rest := keys.Keys;
    while rest != {}
      invariant rest <= keys.Keys
      invariant forall x :: x in ids <==> x in keys.Keys - rest
      invariant forall i, j :: 0 <= i < j < |ids| ==> ids[i] != ids[j]
      decreases |rest|
    {
      var x :| x in rest;
      ids := ids + [x];
      rest := rest - {x};
    }
  }

  ghost predicate Precedes(ids: seq<Id>, x: Id, y: Id) {
    exists i, j :: 0 <= i < j < |ids| && ids[i] == x && ids[j] == y
  }

  /** Rows with equal keys stay in the order they came in. */
  ghost predicate Stable(ids: seq<Id>, sorted: seq<Id>, keys: map<Id, Key>) {
    forall x, y :: Precedes(ids, x, y) && x in keys && y in keys && keys[x] == keys[y] ==> Precedes(sorted, x, y)
  }

  /** `list.sort(key=...)`, as an insertion sort. */
  method SortByKey(ids: seq<Id>, keys: map<Id, Key>) returns (sorted: seq<Id>)
    requires forall x :: x in ids <==> x in keys
    requires forall i, j :: 0 <= i < j < |ids| ==> ids[i] != ids[j]
    ensures IsOrder(sorted, keys) && Stable(ids, sorted, keys)
  {
    sorted := [];
    ghost var done: set<Id> := {};
    for n := 0 to |ids|
      invariant done <= keys.Keys && forall x :: x in done <==> x in ids[..n]
      invariant Lists(sorted, done, keys) && Stable(ids[..n], sorted, keys)
    {
      assert ids[n] in ids;
      assert ids[..n + 1] == ids[..n] + [ids[n]];
      ghost var shorter := sorted;
      sorted := Insert(ids[n], sorted, done, keys);
      StableSnoc(ids[..n], ids[n], shorter, sorted, keys);
      done := done + {ids[n]};
    }
    assert ids[..|ids|] == ids;
    assert done == keys.Keys;
  }

  method Insert(x: Id, sorted: seq<Id>, ghost rows: set<Id>, keys: map<Id, Key>) returns (r: seq<Id>)
    requires rows <= keys.Keys && Lists(sorted, rows, keys)
    requires x in keys && x !in rows
    ensures Lists(r, rows + {x}, keys)
    ensures forall y, z :: Precedes(sorted, y, z) ==> Precedes(r, y, z)
    ensures forall y :: y in rows && keys[y] == keys[x] ==> Precedes(r, y, x)
  {
    var at := |sorted|;
    while 0 < at && Before(keys[x], keys[sorted[at - 1]])
      invariant 0 <= at <= |sorted|
      invariant forall i :: at <= i < |sorted| ==> Before(keys[x], keys[sorted[i]])
    {
      at := at - 1;
    }
    InsertLists(x, at, sorted, rows, keys);
    InsertPrecedes(x, at, sorted);
    r := sorted[..at] + [x] + sorted[at..];
    forall y | y in rows && keys[y] == keys[x] ensures Precedes(r, y, x) {
      var i :| 0 <= i < |sorted| && sorted[i] == y;
      assert r[i] == y && r[at] == x;
    }
  }

  lemma StableSnoc(ids: seq<Id>, x: Id, before: seq<Id>, after: seq<Id>, keys: map<Id, Key>)
    requires Stable(ids, before, keys) && x in keys
    requires forall y, z :: Precedes(before, y, z) ==> Precedes(after, y, z)
    requires forall y :: y in ids && y in keys && keys[y] == keys[x] ==> Precedes(after, y, x)
    ensures Stable(ids + [x], after, keys)
  {
    forall y, z | Precedes(ids + [x], y, z) && y in keys && z in keys && keys[y] == keys[z]
      ensures Precedes(after, y, z)
    {
      var i, j :| 0 <= i < j < |ids + [x]| && (ids + [x])[i] == y && (ids + [x])[j] == z;
      assert ids[i] == y;
      if j < |ids| {
        assert ids[j] == z;
        assert Precedes(ids, y, z);
      }
    }
  }

  lemma InsertPrecedes(x: Id, at: nat, sorted: seq<Id>)
    requires at <= |sorted|
    ensures forall y, z :: Precedes(sorted, y, z) ==> Precedes(sorted[..at] + [x] + sorted[at..], y, z)
  {
    var r := sorted[..at] + [x] + sorted[at..];
    forall y, z | Precedes(sorted, y, z) ensures Precedes(r, y, z) {
      var i, j :| 0 <= i < j < |sorted| && sorted[i] == y && sorted[j] == z;
      var a, b := if i < at then i else i + 1, if j < at then j else j + 1;
      assert r[a] == y && r[b] == z;
    }
  }

  lemma InsertedAt(x: Id, at: nat, sorted: seq<Id>, i: nat)
    requires at <= |sorted| && i <= |sorted|
    ensures (sorted[..at] + [x] + sorted[at..])[i] ==
            if i < at then sorted[i] else if i == at then x else sorted[i - 1]
  {
  }

  lemma InsertedMembers(x: Id, at: nat, sorted: seq<Id>)
    requires at <= |sorted|
    ensures forall y :: y in sorted[..at] + [x] + sorted[at..] <==> y == x || y in sorted
  {
    assert sorted == sorted[..at] + sorted[at..];
  }

  lemma InsertedOrder(x: Id, at: nat, sorted: seq<Id>, rows: set<Id>, keys: map<Id, Key>, i: nat, j: nat)
    requires rows <= keys.Keys && Lists(sorted, rows, keys)
    requires x in keys && x !in rows && at <= |sorted|
    requires 0 < at ==> !Before(keys[x], keys[sorted[at - 1]])
    requires forall k :: at <= k < |sorted| ==> Before(keys[x], keys[sorted[k]])
    requires i < j <= |sorted|
    ensures var r := sorted[..at] + [x] + sorted[at..];
            r[i] in keys && r[j] in keys && r[i] != r[j] && !Before(keys[r[j]], keys[r[i]])
  {
    InsertedAt(x, at, sorted, i);
    InsertedAt(x, at, sorted, j);
    if j == at {
      assert sorted[i] in rows && sorted[at - 1] in rows;
      assert i == at - 1 || !Before(keys[sorted[at - 1]], keys[sorted[i]]);
    } else if i == at {
      assert sorted[j - 1] in rows;
    } else {
      var a, b := if i < at then i else i - 1, if j < at then j else j - 1;
      assert sorted[a] in rows && sorted[b] in rows;
    }
  }

  lemma InsertLists(x: Id, at: nat, sorted: seq<Id>, rows: set<Id>, keys: map<Id, Key>)
    requires rows <= keys.Keys && Lists(sorted, rows, keys)
    requires x in keys && x !in rows && at <= |sorted|
    requires 0 < at ==> !Before(keys[x], keys[sorted[at - 1]])
    requires forall i :: at <= i < |sorted| ==> Before(keys[x], keys[sorted[i]])
    ensures Lists(sorted[..at] + [x] + sorted[at..], rows + {x}, keys)
  {
    var r := sorted[..at] + [x] + sorted[at..];
    InsertedMembers(x, at, sorted);
    forall i | 0 <= i < |r| ensures r[i] in rows + {x} {
      assert r[i] in r;
    }
    forall i, j | 0 <= i < j < |r| ensures r[i] != r[j] && !Before(keys[r[j]], keys[r[i]]) {
      InsertedOrder(x, at, sorted, rows, keys, i, j);
    }
  }

  /** `SELECT ... ORDER BY`. */
  method Select(keys: map<Id, Key>) returns (ids: seq<Id>)
    ensures IsOrder(ids, keys)
    ensures Distinct(keys) ==> ids == SortIds(keys)
  {
    var rows := Fetch(keys);
    ids := SortByKey(rows, keys);
    if Distinct(keys) { OrderUnique(ids, SortIds(keys), keys); }
  }
}
