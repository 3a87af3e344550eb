/**
 The database connection (blockdb/sql.go), test cases and chains (blockdb/test_case.go),
 and the transactional `saveBlock` (blockdb/chain.go).
*/
module BlockDb {
  import opened Outcomes
  import opened Bytes
  import opened Tables
  import opened BlockStore
  import opened BlockContent

  datatype SqlError = Constraint | Fault

  /** The one connection of the pool. Inside a transaction `undo` holds the tables that
      a rollback brings back. */
  class Database {
    var store: Store
    var undo: Option<Store>

    ghost predicate Idle()
      reads this
    {
      undo.None? && Consistent(store)
    }

    constructor ()
      ensures Idle() && Content(store) == map[]
    {
      store := Store(Table(map[], 1), Table(map[], 1), Table(map[], 1), Table(map[], 1), Table(map[], 1), Table(map[], 1));
      undo := None;
    }

    method Begin(faulty: bool) returns (ok: bool)
      requires undo.None?
      modifies this`undo
      ensures ok == !faulty
      ensures undo == if ok then Some(store) else None
    {
      ok := !faulty;
      if ok {
        undo := Some(store);
      }
    }

    method Commit(faulty: bool) returns (ok: bool)
      requires undo.Some?
      modifies this
      ensures ok == !faulty
      ensures undo == if ok then None else old(undo)
      ensures store == old(store)
    {
      ok := !faulty;
      if ok {
        undo := None;
      }
    }

    /** The deferred rollback; after a commit it does nothing. */
    method Rollback()
      modifies this
      ensures undo.None?
      ensures store == if old(undo).Some? then old(undo).value else old(store)
    {
      if undo.Some? {
        store := undo.value;
      }
      undo := None;
    }

    /** ExecContext followed by LastInsertId: one INSERT, refused by a constraint or a fault. */
    method ExecInsert(st: Stmt, block: nat, tx: nat, event: nat, faulty: bool) returns (r: Result<Session, SqlError>)
      requires undo.Some?
      modifies this`store
      ensures r.Ok? <==> !faulty && Exec(st, Session(old(store), block, tx, event)).Some?
      ensures r.Ok? ==> r.value == Exec(st, Session(old(store), block, tx, event)).value && store == r.value.store
      ensures r.Err? ==> store == old(store)
    {
      if faulty {
        return Err(Fault);
      }
      match Exec(st, Session(store, block, tx, event)) {
        case None => r := Err(Constraint);
        case Some(w) =>
          store := w.store;
          r := Ok(w);
      }
    }

    /** INSERT INTO test_case. */
    method CreateTestCase(name: Text, createdAt: Text, gitSha: Text, faulty: bool) returns (r: Result<nat, SqlError>)
      requires Idle()
      modifies this`store
      ensures Idle() && Content(store) == old(Content(store))
      ensures r.Err? ==> store == old(store)
      ensures r.Ok? ==> r.value !in old(store).tests.rows
      ensures r.Ok? ==> store == old(store).(tests := store.tests)
      ensures r.Ok? ==> store.tests.rows == old(store).tests.rows[r.value := Row(0, TestCase(name, createdAt, gitSha))]
      ensures r.Ok? <==> (
                && !faulty && NonEmptyText(name) && NonEmptyText(createdAt) && NonEmptyText(gitSha)
                && forall id :: id in old(store).tests.rows ==>
                     old(store).tests.rows[id].value.name != name || old(store).tests.rows[id].value.createdAt != createdAt)
    {
      if faulty {
        return Err(Fault);
      }
      if !TestAccepted(store, TestCase(name, createdAt, gitSha)) {
        return Err(Constraint);
      }
      r := Ok(store.tests.next);
      ghost var before := store;
      store := WithTest(store, TestCase(name, createdAt, gitSha));
      SameBlocksSameContent(before, store);
    }

    /** INSERT INTO chain: a fresh chain starts without blocks. */
    method AddChain(test: nat, info: ChainInfo, faulty: bool) returns (r: Result<nat, SqlError>)
      requires Idle()
      modifies this`store
      ensures Idle() && Content(store) == old(Content(store))
      ensures r.Err? ==> store == old(store)
      ensures r.Ok? <==> (
                && !faulty && test in old(store).tests.rows && NonEmptyText(info.chainId) && NonEmptyText(info.chainType)
                && forall id :: id in old(store).chains.rows ==>
                     old(store).chains.rows[id].parent != test || old(store).chains.rows[id].value.chainId != info.chainId)
      ensures r.Ok? ==> r.value !in old(store).chains.rows
      ensures r.Ok? ==> store == old(store).(chains := store.chains)
      ensures r.Ok? ==> store.chains.rows == old(store).chains.rows[r.value := Row(test, info)]
      ensures r.Ok? ==> forall h: int :: (r.value, h) !in Content(store)
    {
      if faulty {
        return Err(Fault);
      }
      if !ChainAccepted(store, test, info) {
        return Err(Constraint);
      }
      r := Ok(store.chains.next);
      ghost var before := store;
      store := WithChain(store, test, info);
      WithChainEffect(before, test, info);
    }
  }

  /** The constraints on a new test case row. */
  predicate TestAccepted(s: Store, tc: TestCase) {
    && NonEmptyText(tc.name) && NonEmptyText(tc.createdAt) && NonEmptyText(tc.gitSha)
    && forall id :: id in s.tests.rows ==>
         s.tests.rows[id].value.name != tc.name || s.tests.rows[id].value.createdAt != tc.createdAt
  }

  function WithTest(s: Store, tc: TestCase): Store {
    s.(tests := Insert(s.tests, 0, tc))
  }

  /** The constraints on a new chain row. */
  predicate ChainAccepted(s: Store, test: nat, info: ChainInfo) {
    && test in s.tests.rows
    && NonEmptyText(info.chainId) && NonEmptyText(info.chainType)
    && forall id :: id in s.chains.rows ==> !SameChainKey(s.chains.rows[id], Row(test, info))
  }

  function WithChain(s: Store, test: nat, info: ChainInfo): Store {
    s.(chains := Insert(s.chains, test, info))
  }

  lemma WithChainEffect(s: Store, test: nat, info: ChainInfo)
    requires Consistent(s) && ChainAccepted(s, test, info)
    ensures var s' := WithChain(s, test, info);
            && Consistent(s') && Content(s') == Content(s)
            && forall h: int :: (s.chains.next, h) !in Content(s')
  {
    SameBlocksSameContent(s, WithChain(s, test, info));
  }

  lemma SameBlocksSameContent(s: Store, s': Store)
    requires Distinct(s.blocks)
    requires s'.blocks == s.blocks && s'.txs == s.txs && s'.events == s.events && s'.attrs == s.attrs
    ensures Content(s') == Content(s)
  {
    forall x: nat ensures EventsOf(s, x) == EventsOf(s', x) {
      EventsAgree(s, s', x);
    }
    forall b: nat ensures TxsOf(s, b) == TxsOf(s', b) {
      TxsAgree(s, s', b);
    }
  }

  /* ---------- saveBlock ---------- */

  lemma {:induction false} TxProgramPrefix(txs: seq<Tx>, i: nat)
    requires i <= |txs|
    ensures TxProgram(txs[..i]) <= TxProgram(txs)
  {
    var n := |txs| - 1;
    if i <= n {
      assert txs[..n][..i] == txs[..i];
      TxProgramPrefix(txs[..n], i);
    } else {
      assert txs[..i] == txs;
    }
  }

  lemma {:induction false} EventProgramPrefix(events: seq<Event>, i: nat)
    requires i <= |events|
    ensures EventProgram(events[..i]) <= EventProgram(events)
  {
    var n := |events| - 1;
    if i <= n {
      assert events[..n][..i] == events[..i];
      EventProgramPrefix(events[..n], i);
    } else {
      assert events[..i] == events;
    }
  }

  lemma SplitWhole(head: seq<Stmt>, done: seq<Stmt>, last: seq<Stmt>, whole: seq<Stmt>)
    requires done + last <= whole
    ensures head + (done + last) == head + done + last
    ensures head + whole == head + (done + last) + whole[|done + last|..]
  {
  }

  /** Running `last` behind a prefix that has run; a failure there fails the whole program. */
  lemma Advance(head: seq<Stmt>, done: seq<Stmt>, last: seq<Stmt>, whole: seq<Stmt>, start: Session, w: Session)
    requires done + last <= whole && Run(head + done, start) == Some(w)
    ensures Run(head + (done + last), start) == Run(last, w)
    ensures Run(last, w).None? ==> Run(head + whole, start).None?
  {
    SplitWhole(head, done, last, whole);
    RunSplit(head + done, last, start);
    RunSplit(head + (done + last), whole[|done + last|..], start);
  }

  /** One turn of the loop over attributes, behind the statements `head` that ran before it. */
  lemma AttrStep(attrs: seq<Attribute>, k: nat, head: seq<Stmt>, start: Session, w: Session)
    requires k < |attrs| && Run(head + AttrProgram(attrs[..k]), start) == Some(w)
    ensures Run(head + AttrProgram(attrs[..k + 1]), start) == Exec(PutAttr(attrs[k]), w)
    ensures Exec(PutAttr(attrs[k]), w).None? ==> Run(head + AttrProgram(attrs), start).None?
  {
    var last := [PutAttr(attrs[k])];
    assert AttrProgram(attrs[..k + 1]) == AttrProgram(attrs[..k]) + last;
    assert AttrProgram(attrs[..k + 1]) <= AttrProgram(attrs);
    Advance(head, AttrProgram(attrs[..k]), last, AttrProgram(attrs), start, w);
    RunOne(PutAttr(attrs[k]), w);
  }

  /** One turn of the loop over events, behind the statements `head` that ran before it. */
  lemma EventStep(events: seq<Event>, j: nat, head: seq<Stmt>, start: Session, w: Session)
    requires j < |events| && Run(head + EventProgram(events[..j]), start) == Some(w)
    ensures var last := [PutEvent(events[j].kind)] + AttrProgram(events[j].attributes);
      && Run(head + EventProgram(events[..j + 1]), start) == Run(last, w)
      && (Run(last, w).None? ==> Run(head + EventProgram(events), start).None?)
      && |EventProgram(events[..j + 1])| == |EventProgram(events[..j])| + |last| <= |EventProgram(events)|
  {
    var last := [PutEvent(events[j].kind)] + AttrProgram(events[j].attributes);
    assert EventProgram(events[..j + 1]) == EventProgram(events[..j]) + last by {
      assert events[..j + 1][..j] == events[..j];
    }
    EventProgramPrefix(events, j + 1);
    Advance(head, EventProgram(events[..j]), last, EventProgram(events), start, w);
  }

  /** One turn of the loop over transactions. */
  lemma TxStep(txs: seq<Tx>, i: nat, head: seq<Stmt>, start: Session, w: Session)
    requires i < |txs| && Run(head + TxProgram(txs[..i]), start) == Some(w)
    ensures var last := [PutTx(txs[i].data)] + EventProgram(txs[i].events);
      && Run(head + TxProgram(txs[..i + 1]), start) == Run(last, w)
      && (Run(last, w).None? ==> Run(head + TxProgram(txs), start).None?)
      && |TxProgram(txs[..i + 1])| == |TxProgram(txs[..i])| + |last| <= |TxProgram(txs)|
  {
    var last := [PutTx(txs[i].data)] + EventProgram(txs[i].events);
    assert TxProgram(txs[..i + 1]) == TxProgram(txs[..i]) + last by {
      assert txs[..i + 1][..i] == txs[..i];
    }
    TxProgramPrefix(txs, i + 1);
    Advance(head, TxProgram(txs[..i]), last, TxProgram(txs), start, w);
  }

  /** The statement that opens a program. */
  lemma FirstStep(st: Stmt, rest: seq<Stmt>, w: Session)
    ensures Run([st], w) == Exec(st, w)
    ensures Exec(st, w).None? ==> Run([st] + rest, w).None?
  {
    RunOne(st, w);
    RunSplit([st], rest, w);
  }

  predicate NoFaults(fault: nat -> bool, from: nat, count: nat) {
    forall k: nat :: from <= k < from + count ==> !fault(k)
  }

  class Chain {
    const db: Database
    const id: nat

    constructor (db: Database, id: nat)
      ensures this.db == db && this.id == id
    {
      this.db := db;
      this.id := id;
    }

    /** The body of the loop over events: the event, then its attributes. */
    method SaveEvent(e: Event, w: Session, op: nat, fault: nat -> bool) returns (r: Result<Session, SqlError>, next: nat)
      requires db.undo.Some? && db.store == w.store
      modifies db`store
      ensures var prog := [PutEvent(e.kind)] + AttrProgram(e.attributes);
        && (r.Ok? <==> Run(prog, w).Some? && NoFaults(fault, op, |prog|))
        && (r.Ok? ==> Run(prog, w) == Some(r.value) && db.store == r.value.store && next == op + |prog|)
    {
      FirstStep(PutEvent(e.kind), AttrProgram(e.attributes), w);
      r := db.ExecInsert(PutEvent(e.kind), w.block, w.tx, w.event, fault(op));
      next := op + 1;
      if r.Err? {
        return;
      }
      assert [PutEvent(e.kind)] + AttrProgram(e.attributes[..0]) == [PutEvent(e.kind)];
      for k := 0 to |e.attributes|
        invariant r.Ok? && db.store == r.value.store && db.undo.Some?
        invariant Run([PutEvent(e.kind)] + AttrProgram(e.attributes[..k]), w) == Some(r.value)
        invariant next == op + k + 1 && NoFaults(fault, op, k + 1)
      {
        AttrStep(e.attributes, k, [PutEvent(e.kind)], w, r.value);
        r := db.ExecInsert(PutAttr(e.attributes[k]), r.value.block, r.value.tx, r.value.event, fault(next));
        if r.Err? {
          return;
        }
        next := next + 1;
      }
      assert e.attributes[..|e.attributes|] == e.attributes;
    }

    /** The body of the loop over transactions: the transaction, then its events. */
    method SaveTx(tx: Tx, w: Session, op: nat, fault: nat -> bool) returns (r: Result<Session, SqlError>, next: nat)
      requires db.undo.Some? && db.store == w.store
      modifies db`store
      ensures var prog := [PutTx(tx.data)] + EventProgram(tx.events);
        && (r.Ok? <==> Run(prog, w).Some? && NoFaults(fault, op, |prog|))
        && (r.Ok? ==> Run(prog, w) == Some(r.value) && db.store == r.value.store && next == op + |prog|)
    {
      FirstStep(PutTx(tx.data), EventProgram(tx.events), w);
      r := db.ExecInsert(PutTx(tx.data), w.block, w.tx, w.event, fault(op));
      next := op + 1;
      if r.Err? {
        return;
      }
      assert [PutTx(tx.data)] + EventProgram(tx.events[..0]) == [PutTx(tx.data)];
      for j := 0 to |tx.events|
        invariant r.Ok? && db.store == r.value.store && db.undo.Some?
        invariant Run([PutTx(tx.data)] + EventProgram(tx.events[..j]), w) == Some(r.value)
        invariant next == op + 1 + |EventProgram(tx.events[..j])| && |EventProgram(tx.events[..j])| <= |EventProgram(tx.events)|
        invariant NoFaults(fault, op, next - op)
      {
        EventStep(tx.events, j, [PutTx(tx.data)], w, r.value);
        r, next := SaveEvent(tx.events[j], r.value, next, fault);
        if r.Err? {
          return;
        }
      }
      assert tx.events[..|tx.events|] == tx.events;
    }

    /** The statements between BEGIN and COMMIT: the block, then the loop over transactions. */
    method SaveRows(height: int, txs: seq<Tx>, fault: nat -> bool) returns (r: Result<Session, SqlError>, next: nat)
      requires db.undo.Some?
      modifies db`store
      ensures var prog, w := SaveProgram(id, height, txs), Start(old(db.store));
        && (r.Ok? <==> Run(prog, w).Some? && NoFaults(fault, 1, |prog|))
        && (r.Ok? ==> Run(prog, w) == Some(r.value) && db.store == r.value.store && next == 1 + |prog|)
    {
      ghost var start := Start(db.store);
      FirstStep(PutBlock(id, height), TxProgram(txs), start);
      r := db.ExecInsert(PutBlock(id, height), 0, 0, 0, fault(1));
      next := 2;
      if r.Err? {
        return;
      }
      assert [PutBlock(id, height)] + TxProgram(txs[..0]) == [PutBlock(id, height)];
      for i := 0 to |txs|
        invariant r.Ok? && db.store == r.value.store && db.undo.Some?
        invariant Run([PutBlock(id, height)] + TxProgram(txs[..i]), start) == Some(r.value)
        invariant next == 2 + |TxProgram(txs[..i])| && |TxProgram(txs[..i])| <= |TxProgram(txs)|
        invariant NoFaults(fault, 1, next - 1)
      {
        TxStep(txs, i, [PutBlock(id, height)], start, r.value);
        r, next := SaveTx(txs[i], r.value, next, fault);
        if r.Err? {
          return;
        }
      }
      assert txs[..|txs|] == txs;
    }

    /**
     saveBlock. Calls to the database are numbered: BEGIN is 0, the k-th statement k + 1, COMMIT
     comes last; `fault` says which of them fail for reasons outside the schema. Every error runs
     the deferred rollback.
    */
    method SaveBlock(height: int, txs: seq<Tx>, fault: nat -> bool) returns (err: Option<SqlError>)
      requires db.Idle()
      modifies db
      ensures db.Idle()
      ensures err.None? <==> (
        && id in old(db.store).chains.rows && TxsOk(txs)
        && NoFaults(fault, 0, |SaveProgram(id, height, txs)| + 2))
      ensures err.None? ==> Content(db.store) == old(Content(db.store))[(id, height) := txs]
      ensures err.None? ==> db.store.chains == old(db.store).chains && db.store.tests == old(db.store).tests
      ensures err.Some? ==> db.store == old(db.store)
    {
      ghost var before := db.store;
      SaveProgramSucceeds(before, id, height, txs);
      var ok := db.Begin(fault(0));
      if !ok {
        return Some(Fault);
      }
      var r, next := SaveRows(height, txs, fault);
      if r.Err? {
        db.Rollback();
        return Some(r.error);
      }
      ok := db.Commit(fault(next));
      if !ok {
        db.Rollback();
        return Some(Fault);
      }
      SaveProgramRefinesUpdate(before, id, height, txs);
      err := None;
    }
  }

  /** `SaveBlock` is idempotent: replaying a save leaves the represented map as it was. */
  lemma SavingTwiceIsSavingOnce(s: Store, chain: nat, height: int, txs: seq<Tx>)
    requires Consistent(s) && Run(SaveProgram(chain, height, txs), Start(s)).Some?
    ensures var once := Run(SaveProgram(chain, height, txs), Start(s)).value.store;
            && Run(SaveProgram(chain, height, txs), Start(once)).Some?
            && Content(Run(SaveProgram(chain, height, txs), Start(once)).value.store) == Content(once)
  {
    SaveProgramSucceeds(s, chain, height, txs);
    SaveProgramRefinesUpdate(s, chain, height, txs);
    var once := Run(SaveProgram(chain, height, txs), Start(s)).value.store;
    SaveProgramSucceeds(once, chain, height, txs);
    SaveProgramRefinesUpdate(once, chain, height, txs);
  }
}
