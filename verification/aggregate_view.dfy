/**
 The aggregating view `v_tx_agg` (blockdb/migrate.go), read against the represented map.
*/
module AggregateView {
  import opened Outcomes
  import opened Sequences
  import opened Bytes
  import opened Tables
  import opened BlockStore
  import opened BlockQuery

  /* ---------- one chain's part of the join ---------- */

  /** A row of chain LEFT JOIN block LEFT JOIN tx; None is NULL. */
  datatype JoinRow = JoinRow(height: Option<int>, data: Option<Text>)

  function TxJoinRows(s: Store, b: nat): seq<JoinRow>
    requires b in s.blocks.rows
  {
    var ids := Select(s.txs, b);
    var height := Some(s.blocks.rows[b].value);
    if ids == [] then [JoinRow(height, None)]
    else seq(|ids|, i requires 0 <= i < |ids| => JoinRow(height, Some(s.txs.rows[ids[i]].value)))
  }

  function BlockJoinRows(s: Store, ids: seq<nat>): seq<JoinRow>
    requires forall b :: b in ids ==> b in s.blocks.rows
  {
    if ids == [] then [] else TxJoinRows(s, ids[0]) + BlockJoinRows(s, ids[1..])
  }

  /** The rows of chain LEFT JOIN block LEFT JOIN tx for one chain. */
  function Group(s: Store, chain: nat): seq<JoinRow> {
    var ids := Select(s.blocks, chain);
    if ids == [] then [JoinRow(None, None)] else BlockJoinRows(s, ids)
  }

  function Coalesce(h: Option<int>): int { if h.Some? then h.value else 0 }

  datatype Aggregate = Aggregate(chainHeight: int, txTotal: nat)

  /** MAX(COALESCE(block.height, 0)) and COUNT(tx.data) over one group. */
  method AggregateGroup(rows: seq<JoinRow>) returns (agg: Aggregate)
    requires rows != []
    ensures agg == Aggregate(MaxHeight(rows), CountTx(rows))
  {
    var height, total := Coalesce(rows[0].height), 0;
    for i := 0 to |rows|
      invariant height == if i == 0 then Coalesce(rows[0].height) else MaxHeight(rows[..i])
      invariant total == CountTx(rows[..i])
    {
      assert rows[..i + 1][..i] == rows[..i];
      if Coalesce(rows[i].height) > height {
        height := Coalesce(rows[i].height);
      }
      if rows[i].data.Some? {
        total := total + 1;
      }
    }
    assert rows[..|rows|] == rows;
    agg := Aggregate(height, total);
  }

  function MaxHeight(rows: seq<JoinRow>): (m: int)
    requires rows != []
    ensures exists r :: r in rows && m == Coalesce(r.height)
    ensures forall r :: r in rows ==> Coalesce(r.height) <= m
  {
    var last := rows[|rows| - 1];
    assert last in rows;
    if |rows| == 1 then Coalesce(last.height)
    else
      var m := MaxHeight(rows[..|rows| - 1]);
      assert forall r :: r in rows <==> r in rows[..|rows| - 1] || r == last;
      if Coalesce(last.height) > m then Coalesce(last.height) else m
  }

  function CountTx(rows: seq<JoinRow>): nat {
    if rows == [] then 0
    else CountTx(rows[..|rows| - 1]) + (if rows[|rows| - 1].data.Some? then 1 else 0)
  }

  lemma {:induction false} CountTxSplit(a: seq<JoinRow>, b: seq<JoinRow>)
    ensures CountTx(a + b) == CountTx(a) + CountTx(b)
  {
    if b == [] {
      assert a + b == a;
    } else {
      assert (a + b)[..|a + b| - 1] == a + b[..|b| - 1];
      CountTxSplit(a, b[..|b| - 1]);
    }
  }

  lemma {:induction false} CountTxAll(rows: seq<JoinRow>)
    requires forall r :: r in rows ==> r.data.Some?
    ensures CountTx(rows) == |rows|
  {
    if rows != [] {
      CountTxAll(rows[..|rows| - 1]);
    }
  }

  /** Transaction rows below `n` whose block is among `ids`. */
  function TxCount(s: Store, ids: seq<nat>, n: nat): nat {
    if ids == [] then 0 else |Children(s.txs.rows, ids[0], n)| + TxCount(s, ids[1..], n)
  }

  lemma {:induction false} CountBlockRows(s: Store, ids: seq<nat>)
    requires forall b :: b in ids ==> b in s.blocks.rows
    ensures CountTx(BlockJoinRows(s, ids)) == TxCount(s, ids, s.txs.next)
  {
    if ids != [] {
      CountTxSplit(TxJoinRows(s, ids[0]), BlockJoinRows(s, ids[1..]));
      CountBlockRows(s, ids[1..]);
      if Select(s.txs, ids[0]) != [] {
        CountTxAll(TxJoinRows(s, ids[0]));
      }
    }
  }

  lemma {:induction false} TxCountStep(s: Store, ids: seq<nat>, n: nat)
    requires n > 0 && NoRepeats(ids)
    ensures TxCount(s, ids, n) == TxCount(s, ids, n - 1)
         + (if n - 1 in s.txs.rows && s.txs.rows[n - 1].parent in ids then 1 else 0)
  {
    if ids != [] {
      assert NoRepeats(ids[1..]);
      TxCountStep(s, ids[1..], n);
      assert ids[0] !in ids[1..];
    }
  }

  lemma {:induction false} NoTxBelowZero(s: Store, ids: seq<nat>)
    ensures TxCount(s, ids, 0) == 0
  {
    if ids != [] {
      NoTxBelowZero(s, ids[1..]);
    }
  }

  lemma JoinsExactly(s: Store, chain: nat, x: nat)
    requires Consistent(s) && chain in s.chains.rows
    ensures Joins(s, chain, x) <==> x in s.txs.rows && s.txs.rows[x].parent in Select(s.blocks, chain)
  {
    if Joins(s, chain, x) {
      ChildrenComplete(s.blocks.rows, chain, s.blocks.next, s.txs.rows[x].parent);
    }
  }

  /** Counting block by block counts every joined row once. */
  lemma {:induction false} CountByBlock(s: Store, chain: nat, n: nat)
    requires Consistent(s) && chain in s.chains.rows
    ensures TxCount(s, Select(s.blocks, chain), n) == |OrderedJoin(s, chain, n)|
  {
    var ids := Select(s.blocks, chain);
    if n == 0 {
      NoTxBelowZero(s, ids);
    } else {
      CountByBlock(s, chain, n - 1);
      SelectNoRepeats(s.blocks.rows, chain, s.blocks.next);
      TxCountStep(s, ids, n);
      JoinsExactly(s, chain, n - 1);
      if Joins(s, chain, n - 1) {
        JoinSorted(s, chain, n - 1);
        PlaceKeeps(OrderedJoin(s, chain, n - 1), Joined(s, chain, n - 1));
      }
    }
  }

  lemma {:induction false} SelectNoRepeats<T>(rows: map<nat, Row<T>>, parent: nat, n: nat)
    ensures NoRepeats(Children(rows, parent, n))
  {
    if n > 0 {
      SelectNoRepeats(rows, parent, n - 1);
    }
  }

  function RowHeights(rows: seq<JoinRow>): set<Option<int>> {
    set r | r in rows :: r.height
  }

  function SavedHeights(m: map<Key, seq<Tx>>, chain: nat): set<Option<int>> {
    set k | k in m && k.0 == chain :: Some(k.1)
  }

  lemma RowHeightsSplit(a: seq<JoinRow>, b: seq<JoinRow>)
    ensures RowHeights(a + b) == RowHeights(a) + RowHeights(b)
  {
    forall h | h in RowHeights(a) + RowHeights(b) ensures h in RowHeights(a + b) {
      var r :| (r in a || r in b) && r.height == h;
      assert r in a + b;
    }
  }

  lemma OneBlockHeights(s: Store, b: nat)
    requires b in s.blocks.rows
    ensures RowHeights(TxJoinRows(s, b)) == {Some(s.blocks.rows[b].value)}
  {
    assert TxJoinRows(s, b)[0] in TxJoinRows(s, b);
  }

  lemma {:induction false} BlockJoinHeights(s: Store, ids: seq<nat>)
    requires forall b :: b in ids ==> b in s.blocks.rows
    ensures RowHeights(BlockJoinRows(s, ids)) == set b | b in ids :: Some(s.blocks.rows[b].value)
  {
    if ids != [] {
      RowHeightsSplit(TxJoinRows(s, ids[0]), BlockJoinRows(s, ids[1..]));
      OneBlockHeights(s, ids[0]);
      BlockJoinHeights(s, ids[1..]);
      assert forall b :: b in ids <==> b == ids[0] || b in ids[1..];
    }
  }

  /** The heights of a chain's block rows are the heights the map saved for it. */
  lemma SelectedHeights(s: Store, chain: nat)
    requires Consistent(s)
    ensures (set b | b in Select(s.blocks, chain) :: Some(s.blocks.rows[b].value)) == SavedHeights(Content(s), chain)
  {
    forall k | k in Content(s) && k.0 == chain ensures BlockAt(s, k) in Select(s.blocks, chain) {
      ChildrenComplete(s.blocks.rows, chain, s.blocks.next, BlockAt(s, k));
    }
    forall b | b in Select(s.blocks, chain)
      ensures Some(s.blocks.rows[b].value) in SavedHeights(Content(s), chain)
    {
      ContentAt(s, b);
      assert (chain, s.blocks.rows[b].value) in Content(s);
    }
    forall h | h in SavedHeights(Content(s), chain)
      ensures h in set b | b in Select(s.blocks, chain) :: Some(s.blocks.rows[b].value)
    {
      var k :| k in Content(s) && k.0 == chain && Some(k.1) == h;
      assert BlockAt(s, k) in Select(s.blocks, chain);
    }
  }

  /** h is the greatest saved height of the chain, 0 when it has no block. */
  ghost predicate GreatestHeight(m: map<Key, seq<Tx>>, chain: nat, h: int) {
    && (forall k: int :: (chain, k) in m ==> k <= h)
    && ((chain, h) in m || (h == 0 && forall k: int :: (chain, k) !in m))
  }

  lemma SavedHeightsMember(m: map<Key, seq<Tx>>, chain: nat)
    ensures forall k: int :: (chain, k) in m ==> Some(k) in SavedHeights(m, chain)
  {
    forall k: int | (chain, k) in m ensures Some(k) in SavedHeights(m, chain) {
      assert (chain, k).1 == k;
    }
  }

  /** The maximum over rows that hold exactly the saved heights. */
  lemma MaxIsGreatest(rows: seq<JoinRow>, m: map<Key, seq<Tx>>, chain: nat)
    requires rows != [] && RowHeights(rows) == SavedHeights(m, chain)
    ensures GreatestHeight(m, chain, MaxHeight(rows))
  {
    var max := MaxHeight(rows);
    var r :| r in rows && max == Coalesce(r.height);
    assert r.height in SavedHeights(m, chain);
    forall k: int | (chain, k) in m ensures k <= max {
      assert Some(k) in RowHeights(rows);
    }
  }

  lemma GroupHeight(s: Store, chain: nat)
    requires Consistent(s)
    ensures Group(s, chain) != []
    ensures GreatestHeight(Content(s), chain, MaxHeight(Group(s, chain)))
  {
    var ids := Select(s.blocks, chain);
    SelectedHeights(s, chain);
    if ids != [] {
      BlockJoinHeights(s, ids);
      assert TxJoinRows(s, ids[0])[0] in Group(s, chain);
      MaxIsGreatest(Group(s, chain), Content(s), chain);
    } else {
      SavedHeightsMember(Content(s), chain);
    }
  }

  lemma GroupCount(s: Store, chain: nat)
    requires Consistent(s) && chain in s.chains.rows
    ensures CountTx(Group(s, chain)) == |TransactionsOf(s, chain)|
  {
    var ids := Select(s.blocks, chain);
    CountByBlock(s, chain, s.txs.next);
    if ids != [] {
      CountBlockRows(s, ids);
    } else {
      CountTxSplit([], [JoinRow(None, None)]);
      assert CountTx([JoinRow(None, None)]) == CountTx([JoinRow(None, None)][..0]);
    }
  }

  /* ---------- the whole view ---------- */

  /** A row of test_case LEFT JOIN chain LEFT JOIN block LEFT JOIN tx, by its ids; None is NULL. */
  datatype IdRow = IdRow(test: nat, chain: Option<nat>, block: Option<nat>, tx: Option<nat>)

  /** What a LEFT JOIN finds for one row: the matching ids, or NULL. */
  function Matches(ids: seq<nat>): (m: seq<Option<nat>>)
    ensures |m| == if ids == [] then 1 else |ids|
  {
    if ids == [] then [None] else seq(|ids|, i requires 0 <= i < |ids| => Some(ids[i]))
  }

  function WithChains(s: Store, r: IdRow): seq<IdRow> {
    var m := Matches(Select(s.chains, r.test));
    seq(|m|, i requires 0 <= i < |m| => r.(chain := m[i]))
  }

  function WithBlocks(s: Store, r: IdRow): seq<IdRow> {
    var m := Matches(if r.chain.Some? then Select(s.blocks, r.chain.value) else []);
    seq(|m|, i requires 0 <= i < |m| => r.(block := m[i]))
  }

  function WithTxs(s: Store, r: IdRow): seq<IdRow> {
    var m := Matches(if r.block.Some? then Select(s.txs, r.block.value) else []);
    seq(|m|, i requires 0 <= i < |m| => r.(tx := m[i]))
  }

  function TestRows(s: Store, n: nat): seq<IdRow> {
    if n == 0 then []
    else TestRows(s, n - 1) + (if n - 1 in s.tests.rows then [IdRow(n - 1, None, None, None)] else [])
  }

  /** The three joins, row by row. */
  datatype Join = ChainJoin | BlockJoin | TxJoin

  function Matched(s: Store, join: Join, r: IdRow): seq<IdRow> {
    match join
    case ChainJoin => WithChains(s, r)
    case BlockJoin => WithBlocks(s, r)
    case TxJoin => WithTxs(s, r)
  }

  function LeftJoin(s: Store, join: Join, rows: seq<IdRow>): seq<IdRow> {
    if rows == [] then [] else Matched(s, join, rows[0]) + LeftJoin(s, join, rows[1..])
  }

  function FullJoin(s: Store): seq<IdRow> {
    LeftJoin(s, TxJoin, LeftJoin(s, BlockJoin, LeftJoin(s, ChainJoin, TestRows(s, s.tests.next))))
  }

  /** GROUP BY test_case.id, chain.id: the rows of one group. */
  function GroupAt(rows: seq<IdRow>, t: nat, c: Option<nat>): seq<IdRow> {
    if rows == [] then []
    else (if rows[0].test == t && rows[0].chain == c then [rows[0]] else []) + GroupAt(rows[1..], t, c)
  }

  /** The columns that are aggregated. */
  function Columns(s: Store, r: IdRow): JoinRow {
    JoinRow(if r.block.Some? && r.block.value in s.blocks.rows then Some(s.blocks.rows[r.block.value].value) else None,
            if r.tx.Some? && r.tx.value in s.txs.rows then Some(s.txs.rows[r.tx.value].value) else None)
  }

  function AllColumns(s: Store, rows: seq<IdRow>): (r: seq<JoinRow>)
    ensures |r| == |rows|
  {
    seq(|rows|, i requires 0 <= i < |rows| => Columns(s, rows[i]))
  }

  /** What the view aggregates for test case t and chain c. */
  function ViewGroup(s: Store, t: nat, c: Option<nat>): seq<JoinRow> {
    AllColumns(s, GroupAt(FullJoin(s), t, c))
  }

  lemma {:induction false} GroupAtSplit(a: seq<IdRow>, b: seq<IdRow>, t: nat, c: Option<nat>)
    ensures GroupAt(a + b, t, c) == GroupAt(a, t, c) + GroupAt(b, t, c)
  {
    if a == [] {
      assert a + b == b;
    } else {
      assert (a + b)[1..] == a[1..] + b;
      GroupAtSplit(a[1..], b, t, c);
      Regroup(if a[0].test == t && a[0].chain == c then [a[0]] else [], GroupAt(a[1..], t, c), GroupAt(b, t, c));
    }
  }

  /** Rows of one group are all kept or all left out. */
  lemma {:induction false} GroupAtUniform(rows: seq<IdRow>, r: IdRow, t: nat, c: Option<nat>)
    requires forall x :: x in rows ==> x.test == r.test && x.chain == r.chain
    ensures GroupAt(rows, t, c) == if r.test == t && r.chain == c then rows else []
  {
    if rows != [] {
      assert forall x :: x in rows[1..] ==> x in rows;
      GroupAtUniform(rows[1..], r, t, c);
      assert rows == [rows[0]] + rows[1..];
    }
  }

  /** Joining blocks or transactions commutes with picking a group. */
  lemma {:induction false} JoinKeepsGroups(s: Store, join: Join, rows: seq<IdRow>, t: nat, c: Option<nat>)
    requires !join.ChainJoin?
    ensures GroupAt(LeftJoin(s, join, rows), t, c) == LeftJoin(s, join, GroupAt(rows, t, c))
  {
    if rows != [] {
      JoinKeepsGroups(s, join, rows[1..], t, c);
      GroupAtUniform(Matched(s, join, rows[0]), rows[0], t, c);
      GroupAtSplit(Matched(s, join, rows[0]), LeftJoin(s, join, rows[1..]), t, c);
      assert ([rows[0]] + GroupAt(rows[1..], t, c))[1..] == GroupAt(rows[1..], t, c);
      assert [] + GroupAt(rows[1..], t, c) == GroupAt(rows[1..], t, c);
    }
  }

  lemma {:induction false} LeftJoinSplit(s: Store, join: Join, a: seq<IdRow>, b: seq<IdRow>)
    ensures LeftJoin(s, join, a + b) == LeftJoin(s, join, a) + LeftJoin(s, join, b)
  {
    if a == [] {
      assert a + b == b;
    } else {
      assert (a + b)[1..] == a[1..] + b;
      LeftJoinSplit(s, join, a[1..], b);
      Regroup(Matched(s, join, a[0]), LeftJoin(s, join, a[1..]), LeftJoin(s, join, b));
    }
  }

  lemma JoinOne(s: Store, join: Join, r: IdRow)
    ensures LeftJoin(s, join, [r]) == Matched(s, join, r)
  {
    assert [r][1..] == [];
    assert Matched(s, join, r) + [] == Matched(s, join, r);
  }

  lemma OneMoreTest(s: Store, rows: seq<IdRow>, id: nat, t: nat, c: Option<nat>)
    ensures var r := IdRow(id, None, None, None);
      GroupAt(LeftJoin(s, ChainJoin, rows + [r]), t, c)
        == GroupAt(LeftJoin(s, ChainJoin, rows), t, c) + (if id == t then GroupAt(WithChains(s, r), t, c) else [])
  {
    var r := IdRow(id, None, None, None);
    LeftJoinSplit(s, ChainJoin, rows, [r]);
    JoinOne(s, ChainJoin, r);
    GroupAtSplit(LeftJoin(s, ChainJoin, rows), WithChains(s, r), t, c);
    if id != t {
      OtherTest(WithChains(s, r), t, c);
    }
  }

  /** The rows of a group after the first join, over the test cases below n. */
  function TestGroup(s: Store, n: nat, t: nat, c: Option<nat>): seq<IdRow> {
    GroupAt(LeftJoin(s, ChainJoin, TestRows(s, n)), t, c)
  }

  /** One test case more or less: nothing else changes. */
  lemma TestStep(s: Store, n: nat, t: nat, c: Option<nat>)
    requires n > 0
    ensures TestGroup(s, n, t, c) == TestGroup(s, n - 1, t, c) + (
      if n - 1 == t && t in s.tests.rows then GroupAt(WithChains(s, IdRow(t, None, None, None)), t, c) else [])
  {
    var rows := TestRows(s, n - 1);
    if n - 1 in s.tests.rows {
      assert TestRows(s, n) == rows + [IdRow(n - 1, None, None, None)];
      OneMoreTest(s, rows, n - 1, t, c);
    } else {
      assert TestRows(s, n) == rows;
    }
  }

  /** Only the test case's own row leads into its groups. */
  lemma {:induction false} GroupOfTest(s: Store, n: nat, t: nat, c: Option<nat>, part: seq<IdRow>)
    requires part == GroupAt(WithChains(s, IdRow(t, None, None, None)), t, c)
    ensures TestGroup(s, n, t, c) == if t < n && t in s.tests.rows then part else []
  {
    if n > 0 {
      GroupOfTest(s, n - 1, t, c, part);
      TestStep(s, n, t, c);
    }
  }

  lemma {:induction false} OtherTest(rows: seq<IdRow>, t: nat, c: Option<nat>)
    requires forall x :: x in rows ==> x.test != t
    ensures GroupAt(rows, t, c) == []
  {
    if rows != [] {
      assert forall x :: x in rows[1..] ==> x in rows;
      OtherTest(rows[1..], t, c);
    }
  }

  function ChainRows(t: nat, ids: seq<nat>): seq<IdRow> {
    seq(|ids|, i requires 0 <= i < |ids| => IdRow(t, Some(ids[i]), None, None))
  }

  /** Among the chains of a test case, which do not repeat, one row has the chain. */
  lemma {:induction false} PickChain(t: nat, ids: seq<nat>, c: Option<nat>)
    requires NoRepeats(ids)
    ensures GroupAt(ChainRows(t, ids), t, c)
         == if c.Some? && c.value in ids then [IdRow(t, c, None, None)] else []
  {
    if ids != [] {
      assert ChainRows(t, ids)[1..] == ChainRows(t, ids[1..]);
      PickChain(t, ids[1..], c);
      assert ids[0] !in ids[1..];
      assert forall x :: x in ids <==> x == ids[0] || x in ids[1..];
    }
  }

  lemma ChainsOfTest(s: Store, t: nat, c: Option<nat>)
    ensures GroupAt(WithChains(s, IdRow(t, None, None, None)), t, c)
         == if (if c.Some? then c.value in Select(s.chains, t) else Select(s.chains, t) == []) then [IdRow(t, c, None, None)] else []
  {
    var ids := Select(s.chains, t);
    SelectNoRepeats(s.chains.rows, t, s.chains.next);
    if ids == [] {
      assert WithChains(s, IdRow(t, None, None, None)) == [IdRow(t, None, None, None)];
      GroupAtUniform([IdRow(t, None, None, None)], IdRow(t, None, None, None), t, c);
    } else {
      assert WithChains(s, IdRow(t, None, None, None)) == ChainRows(t, ids);
      PickChain(t, ids, c);
    }
  }

  function BlockRowsOf(t: nat, c: nat, ids: seq<nat>): seq<IdRow> {
    seq(|ids|, i requires 0 <= i < |ids| => IdRow(t, Some(c), Some(ids[i]), None))
  }

  lemma OneBlockJoined(s: Store, t: nat, c: nat, b: nat, rest: seq<IdRow>)
    requires b in s.blocks.rows
    ensures AllColumns(s, LeftJoin(s, TxJoin, [IdRow(t, Some(c), Some(b), None)] + rest))
      == TxJoinRows(s, b) + AllColumns(s, LeftJoin(s, TxJoin, rest))
  {
    var r := IdRow(t, Some(c), Some(b), None);
    assert ([r] + rest)[1..] == rest;
    assert AllColumns(s, WithTxs(s, r)) == TxJoinRows(s, b);
    ColumnsSplit(s, WithTxs(s, r), LeftJoin(s, TxJoin, rest));
  }

  lemma {:induction false} BlocksJoined(s: Store, t: nat, c: nat, ids: seq<nat>)
    requires forall b :: b in ids ==> b in s.blocks.rows
    ensures AllColumns(s, LeftJoin(s, TxJoin, BlockRowsOf(t, c, ids))) == BlockJoinRows(s, ids)
  {
    if ids != [] {
      var rest := BlockRowsOf(t, c, ids[1..]);
      assert BlockRowsOf(t, c, ids) == [IdRow(t, Some(c), Some(ids[0]), None)] + rest;
      BlocksJoined(s, t, c, ids[1..]);
      OneBlockJoined(s, t, c, ids[0], rest);
    }
  }

  lemma ColumnsSplit(s: Store, a: seq<IdRow>, b: seq<IdRow>)
    ensures AllColumns(s, a + b) == AllColumns(s, a) + AllColumns(s, b)
  {
  }

  /** Joined on from one chain row, the columns are those of that chain's part of the join. */
  lemma ChainJoined(s: Store, t: nat, c: nat)
    ensures AllColumns(s, LeftJoin(s, TxJoin, LeftJoin(s, BlockJoin, [IdRow(t, Some(c), None, None)]))) == Group(s, c)
  {
    var r := IdRow(t, Some(c), None, None);
    var ids := Select(s.blocks, c);
    JoinOne(s, BlockJoin, r);
    if ids == [] {
      assert WithBlocks(s, r) == [r];
      JoinOne(s, TxJoin, r);
      assert WithTxs(s, r) == [r];
    } else {
      assert WithBlocks(s, r) == BlockRowsOf(t, c, ids);
      BlocksJoined(s, t, c, ids);
    }
  }

  lemma NothingJoined(s: Store, t: nat)
    ensures LeftJoin(s, TxJoin, LeftJoin(s, BlockJoin, [IdRow(t, None, None, None)])) == [IdRow(t, None, None, None)]
  {
    var r := IdRow(t, None, None, None);
    JoinOne(s, BlockJoin, r);
    assert WithBlocks(s, r) == [r];
    JoinOne(s, TxJoin, r);
    assert WithTxs(s, r) == [r];
  }

  /** Grouping the whole join: test case t and chain c form a group exactly when c is a chain of t, and
      it is c's part of the join; the groups without a chain are exactly the test cases without chains. */
  lemma ViewIsGrouped(s: Store, t: nat, c: nat)
    requires Consistent(s)
    ensures ViewGroup(s, t, Some(c)) == if c in s.chains.rows && s.chains.rows[c].parent == t then Group(s, c) else []
    ensures ViewGroup(s, t, None) == if t in s.tests.rows && Select(s.chains, t) == [] then [JoinRow(None, None)] else []
  {
    GroupReached(s, t, Some(c));
    GroupReached(s, t, None);
    ChainJoined(s, t, c);
    NothingJoined(s, t);
    if c in s.chains.rows && s.chains.rows[c].parent == t {
      ChildrenComplete(s.chains.rows, t, s.chains.next, c);
    }
  }

  lemma GroupReached(s: Store, t: nat, c: Option<nat>)
    requires Consistent(s)
    ensures GroupAt(FullJoin(s), t, c) == LeftJoin(s, TxJoin, LeftJoin(s, BlockJoin,
      if t in s.tests.rows && (if c.Some? then c.value in Select(s.chains, t) else Select(s.chains, t) == [])
      then [IdRow(t, c, None, None)] else []))
  {
    var chains := LeftJoin(s, ChainJoin, TestRows(s, s.tests.next));
    JoinKeepsGroups(s, TxJoin, LeftJoin(s, BlockJoin, chains), t, c);
    JoinKeepsGroups(s, BlockJoin, chains, t, c);
    GroupOfTest(s, s.tests.next, t, c, GroupAt(WithChains(s, IdRow(t, None, None, None)), t, c));
    ChainsOfTest(s, t, c);
  }

  /** Neither the chained LEFT JOINs nor the grouping distort the two aggregates. */
  lemma AggregatesReadTheMap(s: Store, chain: nat)
    requires Consistent(s) && chain in s.chains.rows
    ensures ViewGroup(s, s.chains.rows[chain].parent, Some(chain)) == Group(s, chain) != []
    ensures GreatestHeight(Content(s), chain, MaxHeight(Group(s, chain)))
    ensures CountTx(Group(s, chain)) == |TransactionsOf(s, chain)|
  {
    ViewIsGrouped(s, s.chains.rows[chain].parent, chain);
    GroupHeight(s, chain);
    GroupCount(s, chain);
  }
}
