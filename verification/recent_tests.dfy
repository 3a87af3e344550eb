/**
 The overview query `RecentTestCases` (blockdb/query.go): the aggregating view ordered by test case,
 newest first, then by chain ID, and cut off at a limit.
*/
module RecentTests {
  import opened Outcomes
  import opened Bytes
  import opened Tables
  import opened BlockStore
  import opened BlockQuery
  import opened AggregateView

  /** SQLite's BINARY collation. */
  predicate TextBefore(a: Text, b: Text) {
    b != [] && (a == [] || a[0] < b[0] || (a[0] == b[0] && TextBefore(a[1..], b[1..])))
  }

  lemma {:induction false} TextTotal(a: Text, b: Text)
    ensures TextBefore(a, b) ==> !TextBefore(b, a)
    ensures a != b ==> TextBefore(a, b) || TextBefore(b, a)
  {
    if a != [] && b != [] && a[0] == b[0] {
      TextTotal(a[1..], b[1..]);
      assert a[1..] == b[1..] ==> a == [a[0]] + a[1..] == b;
    }
  }

  lemma {:induction false} TextTransitive(a: Text, b: Text, c: Text)
    requires TextBefore(a, b) && TextBefore(b, c)
    ensures TextBefore(a, c)
  {
    if a != [] && a[0] == b[0] == c[0] {
      TextTransitive(a[1..], b[1..], c[1..]);
    }
  }

  /** Byte order: at the first position where the texts differ the byte of `a` is smaller, or `a` is a
      proper prefix of `b`. */
  ghost predicate ByteOrder(a: Text, b: Text) {
    exists i :: 0 <= i < |b| && i <= |a| && a[..i] == b[..i] && (i == |a| || a[i] < b[i])
  }

  lemma SameHead(a: Text, b: Text, i: nat)
    requires 0 < i <= |a| && i <= |b| && a[..i] == b[..i]
    ensures a[0] == b[0]
  {
    assert a[..i][0] == b[..i][0];
  }

  lemma {:induction false} TextBeforeIsByteOrder(a: Text, b: Text)
    ensures TextBefore(a, b) <==> ByteOrder(a, b)
  {
    if a != [] && b != [] && a[0] == b[0] {
      TextBeforeIsByteOrder(a[1..], b[1..]);
      if ByteOrder(a[1..], b[1..]) {
        var i :| 0 <= i < |b[1..]| && i <= |a[1..]| && a[1..][..i] == b[1..][..i] && (i == |a[1..]| || a[1..][i] < b[1..][i]);
        assert a[..i + 1] == [a[0]] + a[1..][..i] && b[..i + 1] == [b[0]] + b[1..][..i];
        assert ByteOrder(a, b);
      }
      if ByteOrder(a, b) {
        var i :| 0 <= i < |b| && i <= |a| && a[..i] == b[..i] && (i == |a| || a[i] < b[i]);
        assert a[1..][..i - 1] == a[..i][1..] && b[1..][..i - 1] == b[..i][1..];
      }
    } else if b != [] {
      assert a[..0] == b[..0];
      if ByteOrder(a, b) && a != [] {
        var i :| 0 <= i < |b| && i <= |a| && a[..i] == b[..i] && (i == |a| || a[i] < b[i]);
        if i > 0 {
          SameHead(a, b, i);
        }
      }
    }
  }

  type ChainRow = Row<ChainInfo>

  /** ORDER BY test_case_id DESC, chain_id ASC. */
  predicate Before(a: ChainRow, b: ChainRow) {
    a.parent > b.parent || (a.parent == b.parent && TextBefore(a.value.chainId, b.value.chainId))
  }

  lemma BeforeTotal(a: ChainRow, b: ChainRow)
    ensures Before(a, b) ==> !Before(b, a)
    ensures Before(a, b) || Before(b, a) || SameChainKey(a, b)
  {
    TextTotal(a.value.chainId, b.value.chainId);
  }

  /** The test case is no older, and of one test case the chain ID is smaller in byte order. */
  ghost predicate Newer(a: ChainRow, b: ChainRow) {
    a.parent >= b.parent && (a.parent == b.parent ==> ByteOrder(a.value.chainId, b.value.chainId))
  }

  lemma BeforeExactly(a: ChainRow, b: ChainRow)
    ensures Before(a, b) <==> Newer(a, b)
  {
    TextBeforeIsByteOrder(a.value.chainId, b.value.chainId);
  }

  lemma BeforeTransitive(a: ChainRow, b: ChainRow, c: ChainRow)
    requires Before(a, b) && Before(b, c)
    ensures Before(a, c)
  {
    if a.parent == b.parent == c.parent {
      TextTransitive(a.value.chainId, b.value.chainId, c.value.chainId);
    }
  }

  type Rows = map<nat, ChainRow>

  ghost predicate OneRowPerKey(rows: Rows) {
    forall i, j | i in rows && j in rows && SameChainKey(rows[i], rows[j]) :: i == j
  }

  ghost predicate Listed(rows: Rows, ids: seq<nat>) {
    forall c :: c in ids ==> c in rows
  }

  ghost predicate InOrder(rows: Rows, ids: seq<nat>)
    requires Listed(rows, ids)
  {
    forall i, j :: 0 <= i < j < |ids| ==> Before(rows[ids[i]], rows[ids[j]])
  }

  function PlaceChain(rows: Rows, ids: seq<nat>, c: nat): seq<nat>
    requires c in rows && Listed(rows, ids)
  {
    if ids == [] || !Before(rows[c], rows[ids[|ids| - 1]]) then ids + [c]
    else PlaceChain(rows, ids[..|ids| - 1], c) + [ids[|ids| - 1]]
  }

  lemma {:induction false} PlaceChainMembers(rows: Rows, ids: seq<nat>, c: nat)
    requires c in rows && Listed(rows, ids)
    ensures |PlaceChain(rows, ids, c)| == |ids| + 1
    ensures forall x :: x in PlaceChain(rows, ids, c) <==> x == c || x in ids
  {
    if ids != [] && Before(rows[c], rows[ids[|ids| - 1]]) {
      assert ids == ids[..|ids| - 1] + [ids[|ids| - 1]];
      PlaceChainMembers(rows, ids[..|ids| - 1], c);
    }
  }

  /** A new chain has its own place among the others, since no two share test case and chain ID. */
  lemma {:induction false} PlaceChainKeepsOrder(rows: Rows, ids: seq<nat>, c: nat)
    requires c in rows && Listed(rows, ids) && OneRowPerKey(rows) && c !in ids && InOrder(rows, ids)
    ensures Listed(rows, PlaceChain(rows, ids, c)) && InOrder(rows, PlaceChain(rows, ids, c))
  {
    PlaceChainMembers(rows, ids, c);
    if ids != [] {
      var front, last := ids[..|ids| - 1], ids[|ids| - 1];
      assert last in ids;
      BeforeTotal(rows[c], rows[last]);
      if Before(rows[c], rows[last]) {
        PlaceChainKeepsOrder(rows, front, c);
        PlaceChainMembers(rows, front, c);
        AppendKeepsOrder(rows, PlaceChain(rows, front, c), last);
      } else {
        forall i | 0 <= i < |ids| ensures Before(rows[ids[i]], rows[c]) {
          if i < |ids| - 1 {
            BeforeTransitive(rows[ids[i]], rows[last], rows[c]);
          }
        }
      }
    }
  }

  lemma InOrderIsNewer(rows: Rows, ids: seq<nat>)
    requires Listed(rows, ids) && InOrder(rows, ids)
    ensures forall i, j :: 0 <= i < j < |ids| ==> Newer(rows[ids[i]], rows[ids[j]])
  {
    forall i, j | 0 <= i < j < |ids| ensures Newer(rows[ids[i]], rows[ids[j]]) {
      BeforeExactly(rows[ids[i]], rows[ids[j]]);
    }
  }

  lemma AppendKeepsOrder(rows: Rows, ids: seq<nat>, last: nat)
    requires Listed(rows, ids) && InOrder(rows, ids) && last in rows
    requires forall x :: x in ids ==> Before(rows[x], rows[last])
    ensures Listed(rows, ids + [last]) && InOrder(rows, ids + [last])
  {
  }

  /** The chain rows below n in result order. */
  function Ordered(rows: Rows, n: nat): (ids: seq<nat>)
    ensures forall c :: c in ids ==> c in rows && c < n
  {
    if n == 0 then []
    else if n - 1 in rows then
      PlaceChainMembers(rows, Ordered(rows, n - 1), n - 1);
      PlaceChain(rows, Ordered(rows, n - 1), n - 1)
    else Ordered(rows, n - 1)
  }

  /** Test case descending, then chain ID ascending, orders all chains. */
  lemma OrderedIsSorted(rows: Rows, n: nat)
    requires OneRowPerKey(rows)
    ensures InOrder(rows, Ordered(rows, n))
    ensures forall i, j :: 0 <= i < j < |Ordered(rows, n)| ==> Newer(rows[Ordered(rows, n)[i]], rows[Ordered(rows, n)[j]])
    ensures forall c :: c in rows && c < n ==> c in Ordered(rows, n)
  {
    OrderedInOrder(rows, n);
    InOrderIsNewer(rows, Ordered(rows, n));
  }

  lemma {:induction false} OrderedInOrder(rows: Rows, n: nat)
    requires OneRowPerKey(rows)
    ensures InOrder(rows, Ordered(rows, n))
    ensures forall c :: c in rows && c < n ==> c in Ordered(rows, n)
  {
    if n > 0 {
      OrderedInOrder(rows, n - 1);
      if n - 1 in rows {
        PlaceChainMembers(rows, Ordered(rows, n - 1), n - 1);
        PlaceChainKeepsOrder(rows, Ordered(rows, n - 1), n - 1);
      }
    }
  }

  datatype TestCaseResult = TestCaseResult(test: nat, testCase: TestCase, chain: nat, info: ChainInfo, height: int, txTotal: nat)

  /** The row tells the truth about its chain. */
  ghost predicate Faithful(s: Store, r: TestCaseResult) {
    && r.chain in s.chains.rows && s.chains.rows[r.chain] == Row(r.test, r.info)
    && r.test in s.tests.rows && s.tests.rows[r.test].value == r.testCase
    && GreatestHeight(Content(s), r.chain, r.height)
    && r.txTotal == |TransactionsOf(s, r.chain)|
  }

  ghost function Results(s: Store, ids: seq<nat>): (r: seq<TestCaseResult>)
    requires Consistent(s) && Listed(s.chains.rows, ids)
    ensures |r| == |ids|
  {
    if ids == [] then []
    else Results(s, ids[..|ids| - 1]) + [ResultOf(s, ids[|ids| - 1])]
  }

  lemma {:induction false} ResultsAt(s: Store, ids: seq<nat>, k: nat)
    requires Consistent(s) && Listed(s.chains.rows, ids) && k < |ids|
    ensures Results(s, ids)[k] == ResultOf(s, ids[k])
  {
    if k < |ids| - 1 {
      ResultsAt(s, ids[..|ids| - 1], k);
    }
  }

  /** The loop over the cursor. */
  method Drain(s: Store, ids: seq<nat>) returns (results: seq<TestCaseResult>)
    requires Consistent(s) && Listed(s.chains.rows, ids)
    ensures results == Results(s, ids)
  {
    results := [];
    for i := 0 to |ids|
      invariant results == Results(s, ids[..i])
    {
      assert ids[..i + 1][..i] == ids[..i];
      var r := Aggregated(s, ids[i]);
      results := results + [r];
    }
    assert ids[..|ids|] == ids;
  }

  ghost predicate Shown(results: seq<TestCaseResult>, c: nat) {
    exists r :: r in results && r.chain == c
  }

  /** The chain comes after everything shown, and the limit is used up. */
  ghost predicate Cut(s: Store, results: seq<TestCaseResult>, limit: int, c: nat) {
    && 0 <= limit == |results| && c in s.chains.rows
    && forall r :: r in results ==> Newer(Row(r.test, r.info), s.chains.rows[c])
  }

  /** The view's row for one chain: the aggregates over its group of the whole join. */
  ghost function ResultOf(s: Store, c: nat): TestCaseResult
    requires Consistent(s) && c in s.chains.rows
  {
    AggregatesReadTheMap(s, c);
    var t := s.chains.rows[c].parent;
    var group := ViewGroup(s, t, Some(c));
    TestCaseResult(t, s.tests.rows[t].value, c, s.chains.rows[c].value, MaxHeight(group), CountTx(group))
  }

  lemma ResultIsFaithful(s: Store, c: nat)
    requires Consistent(s) && c in s.chains.rows
    ensures Faithful(s, ResultOf(s, c))
  {
    AggregatesReadTheMap(s, c);
  }

  method Aggregated(s: Store, c: nat) returns (r: TestCaseResult)
    requires Consistent(s) && c in s.chains.rows
    ensures r == ResultOf(s, c)
  {
    AggregatesReadTheMap(s, c);
    var t := s.chains.rows[c].parent;
    var agg := AggregateGroup(ViewGroup(s, t, Some(c)));
    r := TestCaseResult(t, s.tests.rows[t].value, c, s.chains.rows[c].value, agg.chainHeight, agg.txTotal);
  }

  /** A negative LIMIT is none. */
  function Limited(ids: seq<nat>, limit: int): seq<nat> {
    if 0 <= limit < |ids| then ids[..limit] else ids
  }

  /** Faithful rows in order, and every chain that is left out comes after all of them. */
  ghost predicate IsOverview(s: Store, limit: int, results: seq<TestCaseResult>) {
    && (forall r :: r in results ==> Faithful(s, r))
    && (forall i, j :: 0 <= i < j < |results| ==>
          Newer(Row(results[i].test, results[i].info), Row(results[j].test, results[j].info)))
    && (0 <= limit ==> |results| <= limit)
    && (forall c :: c in s.chains.rows ==> Shown(results, c) || Cut(s, results, limit, c))
  }

  lemma ShownOrCut(s: Store, all: seq<nat>, limit: int, results: seq<TestCaseResult>, c: nat)
    requires Listed(s.chains.rows, all) && InOrder(s.chains.rows, all) && c in all
    requires |results| == |Limited(all, limit)|
    requires forall k :: 0 <= k < |results| ==>
      results[k].chain == all[k] && Row(results[k].test, results[k].info) == s.chains.rows[all[k]]
    ensures Shown(results, c) || Cut(s, results, limit, c)
  {
    InOrderIsNewer(s.chains.rows, all);
    var k :| 0 <= k < |all| && all[k] == c;
    if k < |results| {
      assert results[k] in results;
    }
  }

  lemma PrefixInOrder(s: Store, all: seq<nat>, results: seq<TestCaseResult>)
    requires Listed(s.chains.rows, all) && InOrder(s.chains.rows, all) && |results| <= |all|
    requires forall k :: 0 <= k < |results| ==> Row(results[k].test, results[k].info) == s.chains.rows[all[k]]
    ensures forall i, j :: 0 <= i < j < |results| ==>
              Newer(Row(results[i].test, results[i].info), Row(results[j].test, results[j].info))
  {
    InOrderIsNewer(s.chains.rows, all);
  }

  lemma ResultsFaithful(s: Store, ids: seq<nat>, k: nat)
    requires Consistent(s) && Listed(s.chains.rows, ids) && k < |ids|
    ensures var r := Results(s, ids)[k];
      Faithful(s, r) && r.chain == ids[k] && Row(r.test, r.info) == s.chains.rows[ids[k]]
  {
    ResultsAt(s, ids, k);
    ResultIsFaithful(s, ids[k]);
  }

  lemma PrefixIsOverview(s: Store, all: seq<nat>, limit: int, results: seq<TestCaseResult>)
    requires Consistent(s) && Listed(s.chains.rows, all) && InOrder(s.chains.rows, all)
    requires forall c :: c in s.chains.rows ==> c in all
    requires results == Results(s, Limited(all, limit))
    ensures IsOverview(s, limit, results)
  {
    forall k | 0 <= k < |results|
      ensures Faithful(s, results[k]) && results[k].chain == all[k]
      ensures Row(results[k].test, results[k].info) == s.chains.rows[all[k]]
    {
      ResultsFaithful(s, Limited(all, limit), k);
    }
    PrefixInOrder(s, all, results);
    forall c | c in s.chains.rows ensures Shown(results, c) || Cut(s, results, limit, c) {
      ShownOrCut(s, all, limit, results, c);
    }
  }

  method RecentTestCases(q: Query, limit: int) returns (results: seq<TestCaseResult>)
    requires q.db.Idle()
    ensures IsOverview(q.db.store, limit, results)
  {
    var s := q.db.store;
    var all := Ordered(s.chains.rows, s.chains.next);
    OrderedIsSorted(s.chains.rows, s.chains.next);
    var ids := Limited(all, limit);
    results := Drain(s, ids);
    PrefixIsOverview(s, all, limit, results);
  }
}
