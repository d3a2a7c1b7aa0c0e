/** The backend as an in-memory store: each table is a map from row id to row.
    Filtered writes are modelled exactly as the query builder applies them; whether a
    call succeeds is decided by the backend and enters each flow as a `Reply`. */
module Store {
  import opened Schema

  type Table<R> = map<Id, R>

  /** `.update(patch).in("id", ids)`: listed rows get `patch`, every other row is untouched,
      and ids that name no row are ignored. */
  function UpdateWhereIdIn<R>(t: Table<R>, ids: set<Id>, patch: R -> R): (r: Table<R>)
    ensures r.Keys == t.Keys
    ensures forall id :: id in t && id in ids ==> r[id] == patch(t[id])
    ensures forall id :: id in t && id !in ids ==> r[id] == t[id]
  {
    map id | id in t :: if id in ids then patch(t[id]) else t[id]
  }

  /** `.update(patch).eq(column, value)` for a non-key column: rows satisfying `p` get `patch`. */
  function UpdateWhere<R>(t: Table<R>, p: R -> bool, patch: R -> R): (r: Table<R>)
    ensures r.Keys == t.Keys
    ensures forall id :: id in t && p(t[id]) ==> r[id] == patch(t[id])
    ensures forall id :: id in t && !p(t[id]) ==> r[id] == t[id]
  {
    map id | id in t :: if p(t[id]) then patch(t[id]) else t[id]
  }

  /** `.delete().eq(...)`: exactly the rows satisfying `p` disappear; the others keep their contents. */
  function DeleteWhere<R>(t: Table<R>, p: R -> bool): (r: Table<R>)
    ensures forall id :: id in r <==> id in t && !p(t[id])
    ensures forall id :: id in r ==> r[id] == t[id]
  {
    map id | id in t && !p(t[id]) :: t[id]
  }
}
