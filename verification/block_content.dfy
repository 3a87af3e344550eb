/**
 What each statement, and then the whole of `saveBlock`, does to the represented map.
*/
module BlockContent {
  import opened Outcomes
  import opened Bytes
  import opened Tables
  import opened BlockStore

  /* ---------- attributes ---------- */

  lemma PutAttrEffect(s: Store, e: nat, a: Attribute)
    requires Consistent(s) && e in s.events.rows && AttributeOk(a)
    ensures var s' := s.(attrs := Insert(s.attrs, e, a));
            && Consistent(s')
            && forall x: nat :: AttrsOf(s', x) == AttrsOf(s, x) + (if x == e then [a] else [])
  {
    var s' := s.(attrs := Insert(s.attrs, e, a));
    forall x: nat ensures AttrsOf(s', x) == AttrsOf(s, x) + (if x == e then [a] else []) {
      InsertSelect(s.attrs, e, a, x);
    }
  }

  /** From w to m, `attrs` were appended to the event in hand, and nothing else happened. */
  ghost predicate AttrsAdded(w: Session, m: Session, attrs: seq<Attribute>) {
    && m == w.(store := w.store.(attrs := m.store.attrs))
    && Consistent(m.store)
    && AttrsOf(m.store, w.event) == AttrsOf(w.store, w.event) + attrs
    && forall x: nat :: x != w.event ==> AttrsOf(m.store, x) == AttrsOf(w.store, x)
  }

  lemma AttrsAddedMore(w: Session, m: Session, r: Session, attrs: seq<Attribute>, a: Attribute)
    requires AttrsAdded(w, m, attrs) && AttrsAdded(m, r, [a])
    ensures AttrsAdded(w, r, attrs + [a])
  {
  }

  lemma OneAttrEffect(a: Attribute, w: Session)
    requires Consistent(w.store) && w.event in w.store.events.rows
    ensures Exec(PutAttr(a), w).Some? <==> AttributeOk(a)
    ensures AttributeOk(a) ==> AttrsAdded(w, Exec(PutAttr(a), w).value, [a])
  {
    if AttributeOk(a) {
      PutAttrEffect(w.store, w.event, a);
    }
  }

  lemma {:induction false} AttrProgramEffect(attrs: seq<Attribute>, w: Session)
    requires Consistent(w.store) && w.event in w.store.events.rows
    ensures Run(AttrProgram(attrs), w).Some? <==> forall a :: a in attrs ==> AttributeOk(a)
    ensures Run(AttrProgram(attrs), w).Some? ==> AttrsAdded(w, Run(AttrProgram(attrs), w).value, attrs)
  {
    if attrs != [] {
      var n := |attrs| - 1;
      var front, a := attrs[..n], attrs[n];
      assert AttrProgram(attrs)[..n] == AttrProgram(front);
      assert attrs == front + [a];
      AttrProgramEffect(front, w);
      if Run(AttrProgram(front), w).Some? {
        var m := Run(AttrProgram(front), w).value;
        OneAttrEffect(a, m);
        if AttributeOk(a) {
          AttrsAddedMore(w, m, Exec(PutAttr(a), m).value, front, a);
        }
      }
    }
  }

  /* ---------- events ---------- */

  /** Events are unchanged when their rows and the attributes of those rows are. */
  lemma EventsAgree(s: Store, s': Store, tx: nat)
    requires s.events == s'.events
    requires forall id :: id in s.events.rows && s.events.rows[id].parent == tx ==> AttrsOf(s, id) == AttrsOf(s', id)
    ensures EventsOf(s, tx) == EventsOf(s', tx)
  {
  }

  lemma PutEventSeen(s: Store, x: nat, kind: Text, y: nat)
    requires Issued(s.events) && AttrsOf(s, s.events.next) == []
    ensures EventsOf(s.(events := Insert(s.events, x, kind)), y) == EventsOf(s, y) + (if y == x then [Event(kind, [])] else [])
  {
    InsertSelect(s.events, x, kind, y);
    assert forall id :: AttrsOf(s.(events := Insert(s.events, x, kind)), id) == AttrsOf(s, id);
  }

  lemma PutEventEffect(s: Store, x: nat, kind: Text)
    requires Consistent(s) && x in s.txs.rows && NonEmptyText(kind)
    ensures var s' := s.(events := Insert(s.events, x, kind));
            && Consistent(s')
            && AttrsOf(s', s.events.next) == []
            && forall y: nat :: EventsOf(s', y) == EventsOf(s, y) + (if y == x then [Event(kind, [])] else [])
  {
    var s' := s.(events := Insert(s.events, x, kind));
    NoChildren(s.attrs.rows, s.events.next, s.attrs.next);
    forall y: nat ensures EventsOf(s', y) == EventsOf(s, y) + (if y == x then [Event(kind, [])] else []) {
      PutEventSeen(s, x, kind, y);
    }
  }

  /** From w to m, `events` were appended to the transaction in hand, and nothing else happened. */
  ghost predicate EventsAdded(w: Session, m: Session, events: seq<Event>) {
    && m.store == w.store.(events := m.store.events, attrs := m.store.attrs)
    && m.block == w.block && m.tx == w.tx
    && Consistent(m.store)
    && EventsOf(m.store, w.tx) == EventsOf(w.store, w.tx) + events
    && forall y: nat :: y != w.tx ==> EventsOf(m.store, y) == EventsOf(w.store, y)
  }

  lemma EventsAddedMore(w: Session, m: Session, r: Session, events: seq<Event>, e: Event)
    requires EventsAdded(w, m, events) && EventsAdded(m, r, [e])
    ensures EventsAdded(w, r, events + [e])
  {
  }

  /** One event with its attributes. */
  lemma OneEventEffect(e: Event, w: Session)
    requires Consistent(w.store) && w.tx in w.store.txs.rows
    ensures var r := Run([PutEvent(e.kind)] + AttrProgram(e.attributes), w);
            && (r.Some? <==> EventOk(e))
            && (r.Some? ==> EventsAdded(w, r.value, [e]))
  {
    RunSplit([PutEvent(e.kind)], AttrProgram(e.attributes), w);
    RunOne(PutEvent(e.kind), w);
    if NonEmptyText(e.kind) {
      PutEventEffect(w.store, w.tx, e.kind);
      var m := Exec(PutEvent(e.kind), w).value;
      AttrProgramEffect(e.attributes, m);
      if EventOk(e) {
        FilledEvent(e, w, m, Run(AttrProgram(e.attributes), m).value);
      }
    }
  }

  /** The new event's row, then its attributes. */
  lemma FilledEvent(e: Event, w: Session, m: Session, r: Session)
    requires Consistent(w.store) && w.tx in w.store.txs.rows && NonEmptyText(e.kind)
    requires Exec(PutEvent(e.kind), w) == Some(m) && AttrsAdded(m, r, e.attributes)
    ensures EventsAdded(w, r, [e])
  {
    PutEventEffect(w.store, w.tx, e.kind);
    forall y: nat | y != w.tx ensures EventsOf(r.store, y) == EventsOf(w.store, y) {
      EventsAgree(m.store, r.store, y);
    }
    EventsTail(w.store, m.store, r.store, w.tx, e);
  }

  /** Filling in the attributes of the event just appended. */
  lemma EventsTail(s: Store, m: Store, r: Store, x: nat, e: Event)
    requires Consistent(s) && m == s.(events := Insert(s.events, x, e.kind)) && r == m.(attrs := r.attrs)
    requires EventsOf(m, x) == EventsOf(s, x) + [Event(e.kind, [])]
    requires AttrsOf(r, s.events.next) == e.attributes
    requires forall id: nat :: id != s.events.next ==> AttrsOf(r, id) == AttrsOf(m, id)
    ensures EventsOf(r, x) == EventsOf(s, x) + [e]
  {
    InsertSelect(s.events, x, e.kind, x);
    var ids := Select(s.events, x);
    assert Select(r.events, x) == ids + [s.events.next];
    forall i | 0 <= i < |ids| ensures EventsOf(r, x)[i] == EventsOf(s, x)[i] {
      assert EventsOf(m, x)[i] == EventsOf(s, x)[i];
    }
  }

  lemma RunOne(st: Stmt, w: Session)
    ensures Run([st], w) == Exec(st, w)
  {
    assert [st][..0] == [];
  }

  lemma {:induction false} EventProgramEffect(events: seq<Event>, w: Session)
    requires Consistent(w.store) && w.tx in w.store.txs.rows
    ensures Run(EventProgram(events), w).Some? <==> forall e :: e in events ==> EventOk(e)
    ensures Run(EventProgram(events), w).Some? ==> EventsAdded(w, Run(EventProgram(events), w).value, events)
  {
    if events != [] {
      var n := |events| - 1;
      var rest, e := events[..n], events[n];
      assert events == rest + [e];
      var last := [PutEvent(e.kind)] + AttrProgram(e.attributes);
      assert EventProgram(events) == EventProgram(rest) + last;
      RunSplit(EventProgram(rest), last, w);
      EventProgramEffect(rest, w);
      if Run(EventProgram(rest), w).Some? {
        var m := Run(EventProgram(rest), w).value;
        OneEventEffect(e, m);
        if EventOk(e) {
          EventsAddedMore(w, m, Run(last, m).value, rest, e);
        }
      }
    }
  }

  /* ---------- transactions ---------- */

  lemma TxsAgree(s: Store, s': Store, b: nat)
    requires s.txs == s'.txs
    requires forall id :: id in s.txs.rows && s.txs.rows[id].parent == b ==> EventsOf(s, id) == EventsOf(s', id)
    ensures TxsOf(s, b) == TxsOf(s', b)
  {
  }

  lemma PutTxEffect(s: Store, b: nat, data: Text)
    requires Consistent(s) && b in s.blocks.rows
    ensures var s' := s.(txs := Insert(s.txs, b, data));
            && Consistent(s')
            && EventsOf(s', s.txs.next) == []
            && forall y: nat :: TxsOf(s', y) == TxsOf(s, y) + (if y == b then [Tx(data, [])] else [])
  {
    var s' := s.(txs := Insert(s.txs, b, data));
    NoChildren(s.events.rows, s.txs.next, s.events.next);
    forall x: nat ensures EventsOf(s', x) == EventsOf(s, x) {
      EventsAgree(s, s', x);
    }
    forall y: nat ensures TxsOf(s', y) == TxsOf(s, y) + (if y == b then [Tx(data, [])] else []) {
      InsertSelect(s.txs, b, data, y);
    }
  }

  lemma TxsTail(s: Store, m: Store, r: Store, b: nat, tx: Tx)
    requires Consistent(s) && m == s.(txs := Insert(s.txs, b, tx.data))
    requires r == m.(events := r.events, attrs := r.attrs)
    requires TxsOf(m, b) == TxsOf(s, b) + [Tx(tx.data, [])]
    requires EventsOf(r, s.txs.next) == tx.events
    requires forall id: nat :: id != s.txs.next ==> EventsOf(r, id) == EventsOf(m, id)
    ensures TxsOf(r, b) == TxsOf(s, b) + [tx]
  {
    InsertSelect(s.txs, b, tx.data, b);
    var ids := Select(s.txs, b);
    assert Select(r.txs, b) == ids + [s.txs.next];
    forall i | 0 <= i < |ids| ensures TxsOf(r, b)[i] == TxsOf(s, b)[i] {
      assert TxsOf(m, b)[i] == TxsOf(s, b)[i];
    }
  }

  lemma OneTxEffect(tx: Tx, w: Session)
    requires Consistent(w.store) && w.block in w.store.blocks.rows
    ensures var r := Run([PutTx(tx.data)] + EventProgram(tx.events), w);
            && (r.Some? <==> TxOk(tx))
            && (r.Some? ==>
                  && r.value.store.blocks == w.store.blocks && r.value.store.chains == w.store.chains
                  && r.value.store.tests == w.store.tests
                  && r.value.block == w.block
                  && Consistent(r.value.store)
                  && TxsOf(r.value.store, w.block) == TxsOf(w.store, w.block) + [tx]
                  && forall y: nat :: y != w.block ==> TxsOf(r.value.store, y) == TxsOf(w.store, y))
  {
    RunSplit([PutTx(tx.data)], EventProgram(tx.events), w);
    RunOne(PutTx(tx.data), w);
    PutTxEffect(w.store, w.block, tx.data);
    var m := Exec(PutTx(tx.data), w).value;
    EventProgramEffect(tx.events, m);
    if TxOk(tx) {
      var r := Run(EventProgram(tx.events), m).value;
      forall y: nat | y != w.block ensures TxsOf(r.store, y) == TxsOf(w.store, y) {
        TxsAgree(m.store, r.store, y);
      }
      TxsTail(w.store, m.store, r.store, w.block, tx);
    }
  }

  lemma {:induction false} TxProgramEffect(txs: seq<Tx>, w: Session)
    requires Consistent(w.store) && w.block in w.store.blocks.rows
    ensures Run(TxProgram(txs), w).Some? <==> TxsOk(txs)
    ensures Run(TxProgram(txs), w).Some? ==>
              var m := Run(TxProgram(txs), w).value;
              && m.store.blocks == w.store.blocks && m.store.chains == w.store.chains
              && m.store.tests == w.store.tests
              && m.block == w.block
              && Consistent(m.store)
              && TxsOf(m.store, w.block) == TxsOf(w.store, w.block) + txs
              && forall y: nat :: y != w.block ==> TxsOf(m.store, y) == TxsOf(w.store, y)
  {
    if txs != [] {
      var n := |txs| - 1;
      var rest, tx := txs[..n], txs[n];
      assert txs == rest + [tx];
      var last := [PutTx(tx.data)] + EventProgram(tx.events);
      assert TxProgram(txs) == TxProgram(rest) + last;
      RunSplit(TxProgram(rest), last, w);
      TxProgramEffect(rest, w);
      if Run(TxProgram(rest), w).Some? {
        OneTxEffect(tx, Run(TxProgram(rest), w).value);
      }
    }
  }

  /* ---------- the block ---------- */

  /** The cascade removes exactly the subtree of the dead blocks: no orphan is left and
      every surviving block keeps its transactions. */
  lemma DeleteBlocksEffect(s: Store, dead: set<nat>)
    requires Consistent(s)
    ensures Consistent(DeleteBlocks(s, dead))
    ensures forall b: nat :: b !in dead ==> TxsOf(DeleteBlocks(s, dead), b) == TxsOf(s, b)
  {
    var s' := DeleteBlocks(s, dead);
    var deadTxs := ChildrenOf(s.txs, dead);
    var deadEvents := ChildrenOf(s.events, deadTxs);
    forall e: nat | e !in deadEvents ensures AttrsOf(s', e) == AttrsOf(s, e) {
      DeleteSelect(s.attrs, ChildrenOf(s.attrs, deadEvents), e);
    }
    forall x: nat | x !in deadTxs ensures EventsOf(s', x) == EventsOf(s, x) {
      DeleteSelect(s.events, deadEvents, x);
    }
    forall b: nat | b !in dead ensures TxsOf(s', b) == TxsOf(s, b) {
      DeleteSelect(s.txs, deadTxs, b);
    }
  }

  lemma ReplaceBlockEffect(s: Store, chain: nat, height: int)
    requires Consistent(s) && chain in s.chains.rows
    ensures var s' := ReplaceBlock(s, chain, height);
            && Consistent(s')
            && s'.blocks.rows == (s.blocks.rows - Conflicts(s, chain, height))[s.blocks.next := Row(chain, height)]
            && TxsOf(s', s.blocks.next) == []
            && forall b: nat :: b in s.blocks.rows && b !in Conflicts(s, chain, height) ==> TxsOf(s', b) == TxsOf(s, b)
  {
    var dead := Conflicts(s, chain, height);
    var mid := DeleteBlocks(s, dead);
    var s' := ReplaceBlock(s, chain, height);
    DeleteBlocksEffect(s, dead);
    NoChildren(s'.txs.rows, s.blocks.next, s'.txs.next);
    forall x: nat ensures EventsOf(s', x) == EventsOf(mid, x) {
      EventsAgree(mid, s', x);
    }
    forall b: nat ensures TxsOf(s', b) == TxsOf(mid, b) {
      TxsAgree(mid, s', b);
    }
  }

  function Start(s: Store): Session { Session(s, 0, 0, 0) }

  /** What the text CHECKs refuse: an empty event type or attribute key, or one that begins with NUL. */
  lemma TxsOkExactly(txs: seq<Tx>)
    ensures TxsOk(txs) <==> forall tx, e :: tx in txs && e in tx.events ==> (
              && |e.kind| > 0 && e.kind[0] > 0
              && forall a :: a in e.attributes ==> |a.key| > 0 && a.key[0] > 0)
  {
  }


  /** The statements of `saveBlock` meet every constraint exactly when the chain row exists
      and no event kind or attribute key is empty. */
  lemma SaveProgramSucceeds(s: Store, chain: nat, height: int, txs: seq<Tx>)
    requires Consistent(s)
    ensures Run(SaveProgram(chain, height, txs), Start(s)).Some? <==> chain in s.chains.rows && TxsOk(txs)
  {
    RunSplit([PutBlock(chain, height)], TxProgram(txs), Start(s));
    RunOne(PutBlock(chain, height), Start(s));
    if chain in s.chains.rows {
      ReplaceBlockEffect(s, chain, height);
      TxProgramEffect(txs, Exec(PutBlock(chain, height), Start(s)).value);
    }
  }

  /** The statements of `saveBlock`, committed, are one map update. */
  lemma SaveProgramRefinesUpdate(s: Store, chain: nat, height: int, txs: seq<Tx>)
    requires Consistent(s)
    requires Run(SaveProgram(chain, height, txs), Start(s)).Some?
    ensures var s' := Run(SaveProgram(chain, height, txs), Start(s)).value.store;
            && Consistent(s')
            && s'.chains == s.chains && s'.tests == s.tests
            && Content(s') == Content(s)[(chain, height) := txs]
  {
    SaveProgramSucceeds(s, chain, height, txs);
    RunSplit([PutBlock(chain, height)], TxProgram(txs), Start(s));
    RunOne(PutBlock(chain, height), Start(s));
    var m := Exec(PutBlock(chain, height), Start(s)).value;
    ReplaceBlockEffect(s, chain, height);
    TxProgramEffect(txs, m);
    var s' := Run(TxProgram(txs), m).value.store;
    UpdatedContent(s, s', chain, height, txs);
  }

  /** From blocks to the map: one key replaced, the other blocks as they were. */
  lemma UpdatedContent(s: Store, s': Store, chain: nat, height: int, txs: seq<Tx>)
    requires Consistent(s) && Consistent(s')
    requires s'.blocks.rows == (s.blocks.rows - Conflicts(s, chain, height))[s.blocks.next := Row(chain, height)]
    requires TxsOf(s', s.blocks.next) == txs
    requires forall b: nat :: b in s.blocks.rows && b !in Conflicts(s, chain, height) ==> TxsOf(s', b) == TxsOf(s, b)
    ensures Content(s') == Content(s)[(chain, height) := txs]
  {
    var want := Content(s)[(chain, height) := txs];
    ContentAt(s', s.blocks.next);
    forall k | k in Content(s') ensures k in want && Content(s')[k] == want[k] {
      var b := BlockAt(s', k);
      if k != (chain, height) {
        assert b in s.blocks.rows && s.blocks.rows[b] == Row(k.0, k.1);
        ContentAt(s, b);
      }
    }
    forall k | k in want ensures k in Content(s') {
      if k != (chain, height) {
        var b := BlockAt(s, k);
        assert s'.blocks.rows[b] == Row(k.0, k.1);
        ContentAt(s', b);
      }
    }
  }
}
