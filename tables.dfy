/**
 * A database table as the use cases see it through GORM: rows keyed by an
 * auto-increment primary key. `next` is the id the next `Create` assigns.
 * Ids are never reused, so every stored key lies below `next`.
 */
module Tables {
  import opened Wrappers

  datatype Table<T> = Table(rows: map<int, T>, next: int)

  predicate Valid<T>(t: Table<T>) {
    t.next >= 1 && forall id :: id in t.rows ==> 1 <= id < t.next
  }

  function Empty<T>(): (t: Table<T>)
    ensures Valid(t) && t.rows == map[]
  {
    Table(map[], 1)
  }

  /** `First(&row, id)`: the row with that primary key, or "record not found". */
  function Get<T>(t: Table<T>, id: int): (r: Option<T>)
    ensures r.Some? <==> id in t.rows
    ensures r.Some? ==> r.value == t.rows[id]
  {
    if id in t.rows then Some(t.rows[id]) else None
  }

  /** Reading back after `Save`: the id saved to finds the saved row, and every other id finds what it found before. */
  lemma GetPut<T>(t: Table<T>, id: int, v: T, j: int)
    ensures Get(Put(t, id, v), j) == if j == id then Some(v) else Get(t, j)
  {
  }

  /** `Create(&row)`: stores the row under the next id. */
  function Insert<T>(t: Table<T>, v: T): Table<T> {
    Table(t.rows[t.next := v], t.next + 1)
  }

  /** A created row gets a fresh id, and every existing row stays as it was. */
  lemma InsertFresh<T>(t: Table<T>, v: T)
    requires Valid(t)
    ensures var r := Insert(t, v);
            && Valid(r) && t.next !in t.rows && r.next == t.next + 1
            && r.rows.Keys == t.rows.Keys + {t.next} && r.rows[t.next] == v
            && forall id :: id in t.rows ==> r.rows[id] == t.rows[id]
  {
  }

  /**
   * `Save(&row)` of a row with a primary key: every column of that row is
   * overwritten (and the row is stored under that key if it was missing).
   */
  function Put<T>(t: Table<T>, id: int, v: T): Table<T> {
    Table(t.rows[id := v], t.next)
  }

  /** Saving a stored row keeps the table well formed and touches no other row. */
  lemma PutKeeps<T>(t: Table<T>, id: int, v: T)
    requires Valid(t) && id in t.rows
    ensures var r := Put(t, id, v);
            && Valid(r) && r.next == t.next && r.rows.Keys == t.rows.Keys && r.rows[id] == v
            && forall j :: j in t.rows && j != id ==> r.rows[j] == t.rows[j]
  {
  }

  /**
   * Reading back after `Create`: the id was free before, it now finds the
   * new row, and every other id finds what it found before.
   */
  lemma GetInsert<T>(t: Table<T>, v: T, j: int)
    requires Valid(t)
    ensures Get(t, t.next) == None
    ensures Get(Insert(t, v), j) == if j == t.next then Some(v) else Get(t, j)
  {
  }

  /** `Create` of each value in turn: they get consecutive ids from `next` on. */
  function InsertAll<T>(t: Table<T>, vs: seq<T>): (r: Table<T>)
    ensures r.next == t.next + |vs|
    decreases |vs|
  {
    if |vs| == 0 then t
    else Insert(InsertAll(t, vs[..|vs| - 1]), vs[|vs| - 1])
  }

  /** The created rows sit at consecutive ids from `next` on, in order, and no other key appears or disappears. */
  lemma {:induction false} InsertAllNew<T>(t: Table<T>, vs: seq<T>)
    ensures var r := InsertAll(t, vs);
            && (forall id :: id in r.rows <==> id in t.rows || t.next <= id < t.next + |vs|)
            && (forall k :: 0 <= k < |vs| ==> r.rows[t.next + k] == vs[k])
    decreases |vs|
  {
    if |vs| > 0 {
      var init := vs[..|vs| - 1];
      InsertAllNew(t, init);
      assert forall k :: 0 <= k < |init| ==> init[k] == vs[k];
    }
  }

  /** The `k`-th created row, on its own. */
  lemma InsertAllAt<T>(t: Table<T>, vs: seq<T>, k: int)
    requires 0 <= k < |vs|
    ensures var r := InsertAll(t, vs);
            t.next + k in r.rows && r.rows[t.next + k] == vs[k]
  {
    InsertAllNew(t, vs);
  }

  /** In a well-formed table the created ids are fresh: the table stays well formed and every existing row stays as it was. */
  lemma {:induction false} InsertAllRows<T>(t: Table<T>, vs: seq<T>)
    requires Valid(t)
    ensures var r := InsertAll(t, vs);
            && Valid(r)
            && (forall id :: id in r.rows <==> id in t.rows || t.next <= id < t.next + |vs|)
            && (forall k :: 0 <= k < |vs| ==> r.rows[t.next + k] == vs[k])
            && (forall id :: id in t.rows ==> r.rows[id] == t.rows[id])
    decreases |vs|
  {
    if |vs| > 0 {
      var init := vs[..|vs| - 1];
      InsertAllRows(t, init);
      InsertFresh(InsertAll(t, init), vs[|vs| - 1]);
      assert forall k :: 0 <= k < |init| ==> init[k] == vs[k];
    }
  }

  lemma InsertAllSnoc<T>(t: Table<T>, vs: seq<T>, v: T)
    ensures InsertAll(t, vs + [v]) == Insert(InsertAll(t, vs), v)
  {
    assert (vs + [v])[..|vs|] == vs;
  }

  /** `Delete(&T{}, id)`: removes the row with that key, if any. */
  function Remove<T>(t: Table<T>, id: int): (r: Table<T>)
    ensures Valid(t) ==> Valid(r)
    ensures r.next == t.next && id !in r.rows && r.rows.Keys == t.rows.Keys - {id}
    ensures forall j :: j in r.rows ==> r.rows[j] == t.rows[j]
  {
    Table(t.rows - {id}, t.next)
  }

  /** Reading back after `Delete`: the deleted id finds nothing, and every other id finds what it found before. */
  lemma GetRemove<T>(t: Table<T>, id: int, j: int)
    ensures Get(Remove(t, id), j) == if j == id then None else Get(t, j)
  {
  }

  /** `Where(cond).Find(&rows)`: every row satisfying the condition, by key. */
  function Where<T>(t: Table<T>, p: T -> bool): (m: map<int, T>)
    ensures forall id :: id in m <==> id in t.rows && p(t.rows[id])
    ensures forall id :: id in m ==> m[id] == t.rows[id]
  {
    map id | id in t.rows && p(t.rows[id]) :: t.rows[id]
  }

  /** A row created after a `Where` query shows up in it exactly when it meets the condition; nothing else changes. */
  lemma WhereInsert<T>(t: Table<T>, v: T, p: T -> bool)
    requires Valid(t)
    ensures Where(Insert(t, v), p) == if p(v) then Where(t, p)[t.next := v] else Where(t, p)
  {
    InsertFresh(t, v);
  }

  /** A deleted row leaves every `Where` query, and every other row keeps its place in it. */
  lemma WhereRemove<T>(t: Table<T>, id: int, p: T -> bool)
    ensures Where(Remove(t, id), p) == Where(t, p) - {id}
  {
  }

  /** `Where(cond).Delete(&T{})`: removes every row satisfying the condition. */
  function RemoveWhere<T>(t: Table<T>, p: T -> bool): (r: Table<T>)
    ensures Valid(t) ==> Valid(r)
    ensures r.next == t.next
    ensures forall id :: id in r.rows <==> id in t.rows && !p(t.rows[id])
    ensures forall id :: id in r.rows ==> r.rows[id] == t.rows[id]
  {
    Table(map id | id in t.rows && !p(t.rows[id]) :: t.rows[id], t.next)
  }

  /** `Where(cond).Count(&n)` with `n > 0`. */
  predicate Exists<T>(t: Table<T>, p: T -> bool) {
    exists id :: id in t.rows && p(t.rows[id])
  }

  /** The lowest key at or above `i` whose row satisfies `p`. */
  function FirstFrom<T>(t: Table<T>, p: T -> bool, i: int): (r: Option<int>)
    ensures r.Some? ==> i <= r.value && r.value in t.rows && p(t.rows[r.value])
    ensures r.Some? ==> forall j :: i <= j < r.value && j in t.rows ==> !p(t.rows[j])
    ensures r.None? ==> forall j :: i <= j < t.next && j in t.rows ==> !p(t.rows[j])
    decreases t.next - i
  {
    if i >= t.next then None
    else if i in t.rows && p(t.rows[i]) then Some(i)
    else FirstFrom(t, p, i + 1)
  }

  /**
   * `Where(cond).First(&row)`: GORM orders by primary key, so this is the
   * matching row with the lowest id, and "record not found" when none matches.
   */
  function FirstWhere<T>(t: Table<T>, p: T -> bool): (r: Option<int>)
    requires Valid(t)
    ensures r.Some? ==> r.value in t.rows && p(t.rows[r.value])
    ensures r.Some? ==> forall j :: j in t.rows && j < r.value ==> !p(t.rows[j])
    ensures r.None? <==> !Exists(t, p)
  {
    FirstFrom(t, p, 1)
  }
}
