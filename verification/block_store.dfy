/**
 The SQLite schema of the block history (blockdb/migrate.go), the four INSERT statements
 that saving a block runs, and what the tables represent.
*/
module BlockStore {
  import opened Outcomes
  import opened Bytes
  import opened Tables

  /* ---------- what callers hand in ---------- */

  datatype Attribute = Attribute(key: Text, value: Text)
  datatype Event = Event(kind: Text, attributes: seq<Attribute>)
  datatype Tx = Tx(data: Text, events: seq<Event>)

  /* ---------- the tables ---------- */

  datatype TestCase = TestCase(name: Text, createdAt: Text, gitSha: Text)
  datatype ChainInfo = ChainInfo(chainId: Text, chainType: Text)

  datatype Store = Store(
    tests: Table<TestCase>,
    chains: Table<ChainInfo>,
    blocks: Table<int>,
    txs: Table<Text>,
    events: Table<Text>,
    attrs: Table<Attribute>)

  /** SQLite's length(): the characters before the first NUL, compared with zero. */
  predicate NonEmptyText(t: Text) {
    t != [] && t[0] != 0
  }

  /** The CHECK constraints a block's events and attributes must pass. */
  predicate AttributeOk(a: Attribute) { NonEmptyText(a.key) }

  predicate EventOk(e: Event) {
    NonEmptyText(e.kind) && forall a :: a in e.attributes ==> AttributeOk(a)
  }

  predicate TxOk(tx: Tx) {
    forall e :: e in tx.events ==> EventOk(e)
  }

  predicate TxsOk(txs: seq<Tx>) {
    forall tx :: tx in txs ==> TxOk(tx)
  }

  ghost predicate Resolves<P, T>(parents: Table<P>, t: Table<T>) {
    forall id :: id in t.rows ==> t.rows[id].parent in parents.rows
  }

  ghost predicate Distinct<T>(t: Table<T>) {
    forall i, j :: i in t.rows && j in t.rows && t.rows[i] == t.rows[j] ==> i == j
  }

  predicate SameChainKey(a: Row<ChainInfo>, b: Row<ChainInfo>) {
    a.parent == b.parent && a.value.chainId == b.value.chainId
  }

  /** Every id was issued, every foreign key resolves, UNIQUE(height, fk_chain_id) holds,
      and so do UNIQUE(chain_id, fk_test_id) and the text CHECKs. */
  ghost predicate Consistent(s: Store) {
    && Issued(s.tests) && Issued(s.chains) && Issued(s.blocks)
    && Issued(s.txs) && Issued(s.events) && Issued(s.attrs)
    && Resolves(s.tests, s.chains) && Resolves(s.chains, s.blocks)
    && Resolves(s.blocks, s.txs) && Resolves(s.txs, s.events) && Resolves(s.events, s.attrs)
    && Distinct(s.blocks)
    && (forall i, j | i in s.chains.rows && j in s.chains.rows && SameChainKey(s.chains.rows[i], s.chains.rows[j])
          :: i == j)
    && (forall id :: id in s.events.rows ==> NonEmptyText(s.events.rows[id].value))
    && (forall id :: id in s.attrs.rows ==> NonEmptyText(s.attrs.rows[id].value.key))
  }

  /* ---------- what the tables represent ---------- */

  function AttrsOf(s: Store, event: nat): seq<Attribute> {
    var ids := Select(s.attrs, event);
    seq(|ids|, i requires 0 <= i < |ids| => s.attrs.rows[ids[i]].value)
  }

  function EventsOf(s: Store, tx: nat): seq<Event> {
    var ids := Select(s.events, tx);
    seq(|ids|, i requires 0 <= i < |ids| => Event(s.events.rows[ids[i]].value, AttrsOf(s, ids[i])))
  }

  function TxsOf(s: Store, block: nat): seq<Tx> {
    var ids := Select(s.txs, block);
    seq(|ids|, i requires 0 <= i < |ids| => Tx(s.txs.rows[ids[i]].value, EventsOf(s, ids[i])))
  }

  type Key = (nat, int) // chain primary key, height

  ghost function Keys(s: Store): set<Key> {
    set b | b in s.blocks.rows :: (s.blocks.rows[b].parent, s.blocks.rows[b].value)
  }

  ghost function BlockAt(s: Store, k: Key): (b: nat)
    requires k in Keys(s)
    ensures b in s.blocks.rows && s.blocks.rows[b] == Row(k.0, k.1)
  {
    var b :| b in s.blocks.rows && (s.blocks.rows[b].parent, s.blocks.rows[b].value) == k;
    b
  }

  /** The map the database stands for: (chain, height) to the block's transactions. */
  ghost function Content(s: Store): map<Key, seq<Tx>> {
    map k | k in Keys(s) :: TxsOf(s, BlockAt(s, k))
  }

  lemma ContentAt(s: Store, b: nat)
    requires Consistent(s) && b in s.blocks.rows
    ensures (s.blocks.rows[b].parent, s.blocks.rows[b].value) in Content(s)
    ensures Content(s)[(s.blocks.rows[b].parent, s.blocks.rows[b].value)] == TxsOf(s, b)
  {
    var k := (s.blocks.rows[b].parent, s.blocks.rows[b].value);
    assert k in Keys(s);
    assert s.blocks.rows[b] == Row(k.0, k.1);
    assert BlockAt(s, k) == b;
  }

  /* ---------- the statements ---------- */

  datatype Stmt =
    | PutBlock(chain: nat, height: int)
    | PutTx(data: Text)
    | PutEvent(kind: Text)
    | PutAttr(attr: Attribute)

  /** The tables together with the three LastInsertId results the save loop holds. */
  datatype Session = Session(store: Store, block: nat, tx: nat, event: nat)

  /** Deleting blocks cascades to their transactions, events and attributes. */
  function DeleteBlocks(s: Store, dead: set<nat>): Store {
    var deadTxs := ChildrenOf(s.txs, dead);
    var deadEvents := ChildrenOf(s.events, deadTxs);
    s.(blocks := Delete(s.blocks, dead),
       txs := Delete(s.txs, deadTxs),
       events := Delete(s.events, deadEvents),
       attrs := Delete(s.attrs, ChildrenOf(s.attrs, deadEvents)))
  }

  /** The rows the UNIQUE(height, fk_chain_id) conflict of INSERT OR REPLACE deletes. */
  function Conflicts(s: Store, chain: nat, height: int): set<nat> {
    set b | b in s.blocks.rows && s.blocks.rows[b] == Row(chain, height)
  }

  function ReplaceBlock(s: Store, chain: nat, height: int): Store {
    var cleared := DeleteBlocks(s, Conflicts(s, chain, height));
    cleared.(blocks := Insert(cleared.blocks, chain, height))
  }

  /** One statement; None is a constraint failure. CHECK(length(height > 0)) and
      CHECK(length(data > 0)) measure the text of a truth value, so they never fail. */
  function Exec(st: Stmt, w: Session): Option<Session> {
    var s := w.store;
    match st
    case PutBlock(chain, height) =>
      if chain !in s.chains.rows then None
      else Some(w.(store := ReplaceBlock(s, chain, height), block := s.blocks.next))
    case PutTx(data) =>
      if w.block !in s.blocks.rows then None
      else Some(w.(store := s.(txs := Insert(s.txs, w.block, data)), tx := s.txs.next))
    case PutEvent(kind) =>
      if w.tx !in s.txs.rows || !NonEmptyText(kind) then None
      else Some(w.(store := s.(events := Insert(s.events, w.tx, kind)), event := s.events.next))
    case PutAttr(attr) =>
      if w.event !in s.events.rows || !NonEmptyText(attr.key) then None
      else Some(w.(store := s.(attrs := Insert(s.attrs, w.event, attr))))
  }

  /** Running statements in order; the first failure fails the whole. */
  function Run(prog: seq<Stmt>, w: Session): Option<Session> {
    if prog == [] then Some(w)
    else
      match Run(prog[..|prog| - 1], w)
      case None => None
      case Some(m) => Exec(prog[|prog| - 1], m)
  }

  function AttrProgram(attrs: seq<Attribute>): (p: seq<Stmt>)
    ensures |p| == |attrs|
  {
    seq(|attrs|, i requires 0 <= i < |attrs| => PutAttr(attrs[i]))
  }

  function EventProgram(events: seq<Event>): seq<Stmt> {
    if events == [] then []
    else
      var e := events[|events| - 1];
      EventProgram(events[..|events| - 1]) + [PutEvent(e.kind)] + AttrProgram(e.attributes)
  }

  function TxProgram(txs: seq<Tx>): seq<Stmt> {
    if txs == [] then []
    else
      var tx := txs[|txs| - 1];
      TxProgram(txs[..|txs| - 1]) + [PutTx(tx.data)] + EventProgram(tx.events)
  }

  /** The statements that saving a block issues between BEGIN and COMMIT. */
  function SaveProgram(chain: nat, height: int, txs: seq<Tx>): seq<Stmt> {
    [PutBlock(chain, height)] + TxProgram(txs)
  }

  lemma {:induction false} RunSplit(a: seq<Stmt>, b: seq<Stmt>, w: Session)
    ensures Run(a + b, w) == match Run(a, w) case None => None case Some(m) => Run(b, m)
  {
    if b == [] {
      assert a + b == a;
    } else {
      assert (a + b)[..|a + b| - 1] == a + b[..|b| - 1];
      RunSplit(a, b[..|b| - 1], w);
    }
  }
}
