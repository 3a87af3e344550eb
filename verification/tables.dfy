/**
 A relational table with an AUTOINCREMENT key and one foreign-key column, and the
 `SELECT ... WHERE fk = ? ORDER BY id` reading of it.
*/
module Tables {

  datatype Row<+T> = Row(parent: nat, value: T)

  /** `next` is the id the next INSERT receives; AUTOINCREMENT never reissues an id. */
  datatype Table<+T> = Table(rows: map<nat, Row<T>>, next: nat)

  ghost predicate Issued<T>(t: Table<T>) {
    forall id :: id in t.rows ==> id < t.next
  }

  function Insert<T>(t: Table<T>, parent: nat, value: T): Table<T> {
    Table(t.rows[t.next := Row(parent, value)], t.next + 1)
  }

  /** Rows whose foreign key points into `parents`: what ON DELETE CASCADE removes. */
  function ChildrenOf<T>(t: Table<T>, parents: set<nat>): set<nat> {
    set id | id in t.rows && t.rows[id].parent in parents
  }

  function Delete<T>(t: Table<T>, dead: set<nat>): Table<T> {
    Table(t.rows - dead, t.next)
  }

  /** The ids below `n` whose foreign key is `parent`, in increasing order. */
  function Children<T>(rows: map<nat, Row<T>>, parent: nat, n: nat): (ids: seq<nat>)
    ensures forall i :: 0 <= i < |ids| ==> ids[i] < n && ids[i] in rows && rows[ids[i]].parent == parent
  {
    if n == 0 then []
    else if n - 1 in rows && rows[n - 1].parent == parent then Children(rows, parent, n - 1) + [n - 1]
    else Children(rows, parent, n - 1)
  }

  function Select<T>(t: Table<T>, parent: nat): (ids: seq<nat>)
    ensures forall i :: 0 <= i < |ids| ==> ids[i] in t.rows && t.rows[ids[i]].parent == parent
  {
    Children(t.rows, parent, t.next)
  }

  /** A selection finds every row of its parent. */
  lemma {:induction false} ChildrenComplete<T>(rows: map<nat, Row<T>>, parent: nat, n: nat, id: nat)
    requires id < n && id in rows && rows[id].parent == parent
    ensures id in Children(rows, parent, n)
  {
    if id == n - 1 {
      assert Children(rows, parent, n)[|Children(rows, parent, n - 1)|] == id;
    } else {
      ChildrenComplete(rows, parent, n - 1, id);
      var ids := Children(rows, parent, n - 1);
      var i :| 0 <= i < |ids| && ids[i] == id;
      assert Children(rows, parent, n)[i] == id;
    }
  }

  /** A selection depends only on which rows carry the foreign key. */
  lemma {:induction false} ChildrenAgree<T>(a: map<nat, Row<T>>, b: map<nat, Row<T>>, parent: nat, n: nat)
    requires forall id: nat :: id < n ==>
      ((id in a && a[id].parent == parent) <==> (id in b && b[id].parent == parent))
    ensures Children(a, parent, n) == Children(b, parent, n)
  {
    if n > 0 {
      ChildrenAgree(a, b, parent, n - 1);
    }
  }

  /** An INSERT appends the new row to its parent's selection and to no other. */
  lemma InsertSelect<T>(t: Table<T>, parent: nat, value: T, p: nat)
    requires Issued(t)
    ensures Select(Insert(t, parent, value), p) == Select(t, p) + (if p == parent then [t.next] else [])
  {
    ChildrenAgree(t.rows, Insert(t, parent, value).rows, p, t.next);
  }

  /** A DELETE that spares the rows of `p` leaves the selection of `p` alone. */
  lemma DeleteSelect<T>(t: Table<T>, dead: set<nat>, p: nat)
    requires forall id :: id in t.rows && t.rows[id].parent == p ==> id !in dead
    ensures Select(Delete(t, dead), p) == Select(t, p)
  {
    ChildrenAgree(t.rows, Delete(t, dead).rows, p, t.next);
  }

  /** A parent without rows selects nothing. */
  lemma {:induction false} NoChildren<T>(rows: map<nat, Row<T>>, parent: nat, n: nat)
    requires forall id :: id in rows ==> rows[id].parent != parent
    ensures Children(rows, parent, n) == []
  {
    if n > 0 {
      NoChildren(rows, parent, n - 1);
    }
  }
}
