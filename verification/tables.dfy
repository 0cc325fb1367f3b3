/**
 * A database table as the model sees it: a sequence of rows, each under its
 * primary key, kept in ascending key order (the order Django returns rows of a
 * model that declares no ordering when the backend hands them back by key).
 */
module Tables {
  import opened Wrappers

  datatype Entry<R> = Entry(id: nat, row: R)

  type Table<R> = seq<Entry<R>>

  /** Keys strictly ascend, so no key occurs twice. */
  predicate Ascending<R>(t: Table<R>) {
    forall i, j :: 0 <= i < j < |t| ==> t[i].id < t[j].id
  }

  /** Every key is below the next key the auto-increment counter will hand out. */
  predicate Below<R>(t: Table<R>, next: nat) {
    forall i :: 0 <= i < |t| ==> t[i].id < next
  }

  /** A well-formed table whose counter is ahead of every stored key. */
  predicate WellKeyed<R>(t: Table<R>, next: nat) {
    Ascending(t) && Below(t, next)
  }

  function Ids<R>(t: Table<R>): (s: set<nat>)
    ensures forall i :: 0 <= i < |t| ==> t[i].id in s
    ensures forall id :: id in s ==> exists i :: 0 <= i < |t| && t[i].id == id
  {
    set i | 0 <= i < |t| :: t[i].id
  }

  lemma IdsAppend<R>(t: Table<R>, e: Entry<R>)
    ensures Ids(t + [e]) == Ids(t) + {e.id}
  {
    var u := t + [e];
    assert forall i :: 0 <= i < |t| ==> u[i] == t[i];
    assert u[|t|] == e;
    forall id | id in Ids(u) ensures id in Ids(t) + {e.id} {
      var i :| 0 <= i < |u| && u[i].id == id;
      if i < |t| { assert t[i] == u[i]; }
    }
  }

  /** The row stored under `id`, as `objects.get(pk=id)` finds it; None is DoesNotExist. */
  function Get<R>(t: Table<R>, id: nat): (r: Option<R>)
    ensures r.Some? ==> Entry(id, r.value) in t
    ensures r.None? ==> id !in Ids(t)
  {
    if t == [] then None
    else if t[|t| - 1].id == id then Some(t[|t| - 1].row)
    else Get(t[..|t| - 1], id)
  }

  /** The row `Get` returns is the row stored at the index that holds the key. */
  lemma {:induction false} GetAt<R>(t: Table<R>, i: nat)
    requires Ascending(t) && i < |t|
    ensures Get(t, t[i].id) == Some(t[i].row)
  {
    if i < |t| - 1 {
      GetAt(t[..|t| - 1], i);
    }
  }

  /** In a table with ascending keys, a stored row is the one `Get` finds. */
  lemma GetUnique<R>(t: Table<R>, k: nat, v: R)
    requires Ascending(t) && Entry(k, v) in t
    ensures Get(t, k) == Some(v)
  {
    var i :| 0 <= i < |t| && t[i] == Entry(k, v);
    GetAt(t, i);
  }

  /** Appending a row under a new key leaves every other lookup as it was. */
  lemma GetAppend<R>(t: Table<R>, e: Entry<R>, id: nat)
    ensures Get(t + [e], id) == if id == e.id then Some(e.row) else Get(t, id)
  {
    assert (t + [e])[..|t|] == t;
  }

  /** Inserting under a fresh key: the key the counter hands out. */
  function Insert<R>(t: Table<R>, next: nat, r: R): (u: Table<R>)
    requires WellKeyed(t, next)
    ensures WellKeyed(u, next + 1)
    ensures Get(u, next) == Some(r)
    ensures forall id :: id != next ==> Get(u, id) == Get(t, id)
    ensures Ids(u) == Ids(t) + {next}
  {
    var u := t + [Entry(next, r)];
    IdsAppend(t, Entry(next, r));
    forall id | id != next ensures Get(u, id) == Get(t, id) {
      GetAppend(t, Entry(next, r), id);
    }
    u
  }

  /** Overwrites the row stored under `id` (an UPDATE by primary key). */
  function Put<R>(t: Table<R>, id: nat, r: R): (u: Table<R>)
    ensures |u| == |t|
    ensures forall i :: 0 <= i < |t| ==> u[i].id == t[i].id
    ensures forall i :: 0 <= i < |t| ==> u[i].row == if t[i].id == id then r else t[i].row
  {
    seq(|t|, i requires 0 <= i < |t| => if t[i].id == id then Entry(id, r) else t[i])
  }

  lemma PutKeys<R>(t: Table<R>, id: nat, r: R, next: nat)
    requires WellKeyed(t, next)
    ensures WellKeyed(Put(t, id, r), next) && Ids(Put(t, id, r)) == Ids(t)
  {
  }

  /** After an UPDATE, the updated key reads back the new row and every other key is unchanged. */
  lemma GetPut<R>(t: Table<R>, id: nat, r: R, k: nat)
    requires Ascending(t)
    ensures Get(Put(t, id, r), k) == if k == id && id in Ids(t) then Some(r) else Get(t, k)
  {
    var u := Put(t, id, r);
    if k in Ids(t) {
      var i :| 0 <= i < |t| && t[i].id == k;
      GetAt(t, i);
      GetAt(u, i);
    } else {
      assert k !in Ids(u);
    }
  }

  /** The rows that satisfy `keep`, in the same order (a filtered DELETE keeps the others). */
  function Filter<R(!new)>(t: Table<R>, keep: Entry<R> -> bool): (u: Table<R>)
    ensures |u| <= |t|
    ensures forall e :: e in u <==> e in t && keep(e)
  {
    if t == [] then []
    else
      var n := |t| - 1;
      var u := Filter(t[..n], keep);
      assert forall e :: e in t <==> e in t[..n] || e == t[n];
      if keep(t[n]) then u + [t[n]] else u
  }

  /** Filtering keeps keys ascending and below the counter. */
  lemma {:induction false} FilterKeys<R(!new)>(t: Table<R>, keep: Entry<R> -> bool, next: nat)
    requires WellKeyed(t, next)
    ensures WellKeyed(Filter(t, keep), next)
  {
    if t != [] {
      var n := |t| - 1;
      var u := Filter(t[..n], keep);
      FilterKeys(t[..n], keep, next);
      forall i | 0 <= i < |u| ensures u[i].id < t[n].id {
        assert u[i] in t[..n];
        var k :| 0 <= k < n && t[..n][k] == u[i];
      }
    }
  }

  /** Rewrites every row in place, keys unchanged (an UPDATE over a whole queryset). */
  function MapRows<R>(t: Table<R>, f: R -> R): (u: Table<R>)
    ensures |u| == |t|
    ensures forall i :: 0 <= i < |t| ==> u[i] == Entry(t[i].id, f(t[i].row))
  {
    seq(|t|, i requires 0 <= i < |t| => Entry(t[i].id, f(t[i].row)))
  }

  /** Rewriting rows in place: a lookup finds the rewritten row. */
  lemma GetMapRows<R>(t: Table<R>, f: R -> R, id: nat)
    requires Ascending(t)
    ensures Ascending(MapRows(t, f)) && Ids(MapRows(t, f)) == Ids(t)
    ensures Get(MapRows(t, f), id) == if Get(t, id).Some? then Some(f(Get(t, id).value)) else None
  {
    var u := MapRows(t, f);
    assert Ids(u) == Ids(t) by {
      assert forall i :: 0 <= i < |t| ==> u[i].id == t[i].id;
    }
    if id in Ids(t) {
      var i :| 0 <= i < |t| && t[i].id == id;
      GetAt(t, i);
      GetAt(u, i);
    }
  }

  /** Rows inserted one after another, under consecutive keys from `start`. */
  function Numbered<R>(rows: seq<R>, start: nat): (u: Table<R>)
    ensures |u| == |rows|
    ensures forall k :: 0 <= k < |rows| ==> u[k] == Entry(start + k, rows[k])
  {
    seq(|rows|, k requires 0 <= k < |rows| => Entry(start + k, rows[k]))
  }

  lemma NumberedSnoc<R>(rows: seq<R>, r: R, start: nat)
    ensures Numbered(rows + [r], start) == Numbered(rows, start) + [Entry(start + |rows|, r)]
  {
  }

  lemma NumberedAppend<R>(rows: seq<R>, more: seq<R>, start: nat)
    ensures Numbered(rows + more, start) == Numbered(rows, start) + Numbered(more, start + |rows|)
  {
  }

  /** Consecutive inserts keep the table well keyed, and the counter ends past them. */
  lemma NumberedKeys<R>(t: Table<R>, rows: seq<R>, start: nat)
    ensures WellKeyed(t, start) ==> WellKeyed(t + Numbered(rows, start), start + |rows|)
  {
  }

  /** A lookup after filtering finds the row only if the filter kept it. */
  lemma GetFilter<R(!new)>(t: Table<R>, keep: Entry<R> -> bool, id: nat)
    requires Ascending(t)
    ensures Get(Filter(t, keep), id) ==
      if Get(t, id).Some? && keep(Entry(id, Get(t, id).value)) then Get(t, id) else None
  {
    var u := Filter(t, keep);
    FilterKeys(t, keep, MaxKey(t) + 1);
    var g := Get(u, id);
    if g.Some? {
      assert Entry(id, g.value) in t;
      GetUnique(t, id, g.value);
    }
  }

  /** One more than every key: a counter the table is below. */
  function MaxKey<R>(t: Table<R>): (m: nat)
    ensures Below(t, m + 1)
  {
    if t == [] then 0
    else
      var m := MaxKey(t[..|t| - 1]);
      if t[|t| - 1].id > m then t[|t| - 1].id else m
  }

  /** Every key the filter keeps was a key before. */
  lemma IdsFilter<R(!new)>(t: Table<R>, keep: Entry<R> -> bool)
    ensures Ids(Filter(t, keep)) <= Ids(t)
    ensures forall i :: 0 <= i < |t| && keep(t[i]) ==> t[i].id in Ids(Filter(t, keep))
  {
    var u := Filter(t, keep);
    forall x | x in Ids(u) ensures x in Ids(t) {
      var i :| 0 <= i < |u| && u[i].id == x;
      assert u[i] in t;
    }
    forall i | 0 <= i < |t| && keep(t[i]) ensures t[i].id in Ids(u) {
      assert t[i] in u;
    }
  }

  /** DELETE by primary key. */
  function Remove<R(!new)>(t: Table<R>, id: nat): (u: Table<R>)
    ensures forall e :: e in u <==> e in t && e.id != id
  {
    Filter(t, (e: Entry<R>) => e.id != id)
  }

  lemma RemoveKeys<R(!new)>(t: Table<R>, id: nat, next: nat)
    requires WellKeyed(t, next)
    ensures WellKeyed(Remove(t, id), next)
    ensures Ids(Remove(t, id)) == Ids(t) - {id}
    ensures forall k :: Get(Remove(t, id), k) == if k == id then None else Get(t, k)
  {
    var keep := (e: Entry<R>) => e.id != id;
    FilterKeys(t, keep, next);
    IdsFilter(t, keep);
    forall k ensures Get(Remove(t, id), k) == if k == id then None else Get(t, k) {
      GetFilter(t, keep, k);
    }
  }
}
