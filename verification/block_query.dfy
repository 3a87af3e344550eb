/**
 The query `Transactions` over the block history (blockdb/query.go), read against the represented map.
*/
module BlockQuery {
  import opened Bytes
  import opened Tables
  import opened BlockStore
  import opened BlockDb

  /* ---------- Transactions ---------- */

  datatype TxResult = TxResult(height: int, tx: Text)

  /** ORDER BY height over rows that arrive in id order: a row goes behind its equals. */
  function Place(rows: seq<TxResult>, r: TxResult): seq<TxResult> {
    if rows == [] || rows[|rows| - 1].height <= r.height then rows + [r]
    else Place(rows[..|rows| - 1], r) + [rows[|rows| - 1]]
  }

  /** tx INNER JOIN block INNER JOIN chain on one transaction row. */
  predicate Joins(s: Store, chain: nat, x: nat) {
    && x in s.txs.rows
    && s.txs.rows[x].parent in s.blocks.rows
    && s.blocks.rows[s.txs.rows[x].parent].parent == chain
    && chain in s.chains.rows
  }

  function Joined(s: Store, chain: nat, x: nat): TxResult
    requires Joins(s, chain, x)
  {
    TxResult(s.blocks.rows[s.txs.rows[x].parent].value, s.txs.rows[x].value)
  }

  function OrderedJoin(s: Store, chain: nat, n: nat): seq<TxResult> {
    if n == 0 then []
    else if Joins(s, chain, n - 1) then Place(OrderedJoin(s, chain, n - 1), Joined(s, chain, n - 1))
    else OrderedJoin(s, chain, n - 1)
  }

  function TransactionsOf(s: Store, chain: nat): seq<TxResult> {
    OrderedJoin(s, chain, s.txs.next)
  }

  class Query {
    const db: Database

    constructor (db: Database)
      ensures this.db == db
    {
      this.db := db;
    }

    /** Drains the cursor into `results`. */
    method Transactions(chain: nat) returns (results: seq<TxResult>)
      requires db.Idle()
      ensures results == TransactionsOf(db.store, chain)
      ensures forall lo: int, hi: int | (forall h: int :: (chain, h) in Content(db.store) ==> lo <= h < hi) ::
                results == Concatenated(Content(db.store), chain, lo, hi)
    {
      var rows := OrderedJoin(db.store, chain, db.store.txs.next);
      results := [];
      for i := 0 to |rows|
        invariant results == rows[..i]
      {
        results := results + [rows[i]];
      }
      forall lo: int, hi: int | (forall h: int :: (chain, h) in Content(db.store) ==> lo <= h < hi)
        ensures results == Concatenated(Content(db.store), chain, lo, hi)
      {
        TransactionsReadTheMap(db.store, chain, lo, hi);
      }
    }
  }

  function Labelled(height: int, txs: seq<Tx>): seq<TxResult> {
    seq(|txs|, i requires 0 <= i < |txs| => TxResult(height, txs[i].data))
  }

  /** The map's transactions of one chain at heights lo, lo + 1, .., hi - 1, one after another. */
  function Concatenated(m: map<Key, seq<Tx>>, chain: nat, lo: int, hi: int): seq<TxResult>
    decreases hi - lo
  {
    if hi <= lo then []
    else Concatenated(m, chain, lo, hi - 1)
         + (if (chain, hi - 1) in m then Labelled(hi - 1, m[(chain, hi - 1)]) else [])
  }

  ghost predicate Sorted(rows: seq<TxResult>) {
    forall i, j :: 0 <= i < j < |rows| ==> rows[i].height <= rows[j].height
  }

  function AtHeight(rows: seq<TxResult>, h: int): seq<TxResult> {
    if rows == [] then []
    else AtHeight(rows[..|rows| - 1], h) + (if rows[|rows| - 1].height == h then [rows[|rows| - 1]] else [])
  }

  function Only(r: TxResult, h: int): seq<TxResult> {
    if r.height == h then [r] else []
  }

  lemma AtHeightSnoc(rows: seq<TxResult>, r: TxResult, h: int)
    ensures AtHeight(rows + [r], h) == AtHeight(rows, h) + Only(r, h)
  {
    assert (rows + [r])[..|rows|] == rows;
  }

  lemma {:induction false} PlaceKeeps(rows: seq<TxResult>, r: TxResult)
    requires Sorted(rows)
    ensures Sorted(Place(rows, r)) && |Place(rows, r)| == |rows| + 1
    ensures forall x :: x in Place(rows, r) ==> x == r || x in rows
  {
    if rows != [] && rows[|rows| - 1].height > r.height {
      var front, last := rows[..|rows| - 1], rows[|rows| - 1];
      PlaceKeeps(front, r);
      forall i | 0 <= i < |Place(front, r)| ensures Place(front, r)[i].height <= last.height {
        assert Place(front, r)[i] in Place(front, r);
      }
    }
  }

  lemma {:induction false} PlaceAtHeight(rows: seq<TxResult>, r: TxResult, h: int)
    requires Sorted(rows)
    ensures AtHeight(Place(rows, r), h) == AtHeight(rows, h) + Only(r, h)
  {
    if rows == [] || rows[|rows| - 1].height <= r.height {
      AtHeightSnoc(rows, r, h);
    } else {
      var front, last := rows[..|rows| - 1], rows[|rows| - 1];
      PlaceAtHeight(front, r, h);
      AtHeightSnoc(Place(front, r), last, h);
    }
  }

  lemma {:induction false} JoinSorted(s: Store, chain: nat, n: nat)
    requires Consistent(s)
    ensures Sorted(OrderedJoin(s, chain, n))
    ensures forall r :: r in OrderedJoin(s, chain, n) ==> (chain, r.height) in Content(s)
  {
    if n > 0 {
      JoinSorted(s, chain, n - 1);
      if Joins(s, chain, n - 1) {
        PlaceKeeps(OrderedJoin(s, chain, n - 1), Joined(s, chain, n - 1));
        ContentAt(s, s.txs.rows[n - 1].parent);
      }
    }
  }

  /** What transaction row x adds to block b's part of the join. */
  function RowOf(s: Store, b: nat, h: int, x: nat): seq<TxResult> {
    if x in s.txs.rows && s.txs.rows[x].parent == b then [TxResult(h, s.txs.rows[x].value)] else []
  }

  /** A row joins at height h exactly when it belongs to the chain's one block of that height. */
  lemma RowJoins(s: Store, chain: nat, b: nat, h: int, x: nat)
    requires Consistent(s)
    requires b in s.blocks.rows && s.blocks.rows[b] == Row(chain, h)
    ensures RowOf(s, b, h, x) == if Joins(s, chain, x) then Only(Joined(s, chain, x), h) else []
  {
  }

  lemma JoinStep(s: Store, chain: nat, h: int, n: nat)
    requires Consistent(s) && n > 0
    ensures AtHeight(OrderedJoin(s, chain, n), h)
         == AtHeight(OrderedJoin(s, chain, n - 1), h) + (if Joins(s, chain, n - 1) then Only(Joined(s, chain, n - 1), h) else [])
  {
    if Joins(s, chain, n - 1) {
      JoinSorted(s, chain, n - 1);
      PlaceAtHeight(OrderedJoin(s, chain, n - 1), Joined(s, chain, n - 1), h);
    }
  }

  /** At one height the ordered join lists the rows of that height's block, in insertion order. */
  lemma {:induction false} JoinAtHeight(s: Store, chain: nat, b: nat, h: int, n: nat)
    requires Consistent(s)
    requires b in s.blocks.rows && s.blocks.rows[b] == Row(chain, h)
    ensures AtHeight(OrderedJoin(s, chain, n), h) == BlockRows(s, b, h, n)
  {
    if n > 0 {
      JoinAtHeight(s, chain, b, h, n - 1);
      JoinStep(s, chain, h, n);
      RowJoins(s, chain, b, h, n - 1);
      BlockRowsStep(s, b, h, n);
    }
  }

  lemma {:induction false} NoneAt(rows: seq<TxResult>, h: int)
    requires forall r :: r in rows ==> r.height != h
    ensures AtHeight(rows, h) == []
  {
    if rows != [] {
      NoneAt(rows[..|rows| - 1], h);
    }
  }

  function BlockRows(s: Store, b: nat, h: int, n: nat): seq<TxResult> {
    var ids := Children(s.txs.rows, b, n);
    seq(|ids|, i requires 0 <= i < |ids| => TxResult(h, s.txs.rows[ids[i]].value))
  }

  lemma BlockRowsStep(s: Store, b: nat, h: int, n: nat)
    requires n > 0
    ensures BlockRows(s, b, h, n) == BlockRows(s, b, h, n - 1) + RowOf(s, b, h, n - 1)
  {
  }

  function Gathered(rows: seq<TxResult>, lo: int, hi: int): seq<TxResult>
    decreases hi - lo
  {
    if hi <= lo then [] else Gathered(rows, lo, hi - 1) + AtHeight(rows, hi - 1)
  }

  function Within(r: TxResult, lo: int, hi: int): seq<TxResult> {
    if lo <= r.height < hi then [r] else []
  }

  lemma WithinOneMore(before: seq<TxResult>, r: TxResult, here: seq<TxResult>, lo: int, h: int)
    requires lo <= h && (r.height < h ==> here == [])
    ensures before + Within(r, lo, h) + (here + Only(r, h)) == before + here + Within(r, lo, h + 1)
  {
  }

  lemma {:induction false} GatherLast(rows: seq<TxResult>, r: TxResult, lo: int, hi: int)
    requires forall x :: x in rows ==> x.height <= r.height
    ensures Gathered(rows + [r], lo, hi) == Gathered(rows, lo, hi) + Within(r, lo, hi)
    decreases hi - lo
  {
    if lo < hi {
      var h := hi - 1;
      GatherLast(rows, r, lo, h);
      AtHeightSnoc(rows, r, h);
      if r.height < h {
        NoneAt(rows, h);
      }
      WithinOneMore(Gathered(rows, lo, h), r, AtHeight(rows, h), lo, h);
      assert Gathered(rows + [r], lo, hi) == Gathered(rows + [r], lo, h) + AtHeight(rows + [r], h);
      assert Gathered(rows, lo, hi) == Gathered(rows, lo, h) + AtHeight(rows, h);
    }
  }

  /** A list sorted by height is its per-height sublists, one after another. */
  lemma {:induction false} SortedIsGathered(rows: seq<TxResult>, lo: int, hi: int)
    requires Sorted(rows) && forall r :: r in rows ==> lo <= r.height < hi
    ensures rows == Gathered(rows, lo, hi)
  {
    if rows == [] {
      GatherNothing(lo, hi);
    } else {
      var front, last := rows[..|rows| - 1], rows[|rows| - 1];
      assert rows == front + [last];
      SortedIsGathered(front, lo, hi);
      GatherLast(front, last, lo, hi);
    }
  }

  lemma {:induction false} GatherNothing(lo: int, hi: int)
    ensures Gathered([], lo, hi) == []
    decreases hi - lo
  {
    if lo < hi {
      GatherNothing(lo, hi - 1);
    }
  }

  /** `Transactions` is the represented map read in order of height. */
  lemma TransactionsReadTheMap(s: Store, chain: nat, lo: int, hi: int)
    requires Consistent(s)
    requires forall h: int :: (chain, h) in Content(s) ==> lo <= h < hi
    ensures TransactionsOf(s, chain) == Concatenated(Content(s), chain, lo, hi)
  {
    var rows := TransactionsOf(s, chain);
    JoinSorted(s, chain, s.txs.next);
    SortedIsGathered(rows, lo, hi);
    GatheredIsConcatenated(s, chain, lo, hi);
  }

  lemma {:induction false} GatheredIsConcatenated(s: Store, chain: nat, lo: int, hi: int)
    requires Consistent(s)
    ensures Gathered(TransactionsOf(s, chain), lo, hi) == Concatenated(Content(s), chain, lo, hi)
    decreases hi - lo
  {
    if lo < hi {
      GatheredIsConcatenated(s, chain, lo, hi - 1);
      var h := hi - 1;
      if (chain, h) in Keys(s) {
        var b := BlockAt(s, (chain, h));
        JoinAtHeight(s, chain, b, h, s.txs.next);
        assert BlockRows(s, b, h, s.txs.next) == Labelled(h, Content(s)[(chain, h)]);
      } else {
        JoinSorted(s, chain, s.txs.next);
        NoneAt(TransactionsOf(s, chain), h);
      }
    }
  }
}
