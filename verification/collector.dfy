/**
 Collectors (blockdb/collect.go): the tick loop of one collector, and any number of collectors
 interleaved statement by statement on the one database connection (blockdb/sql.go).
*/
module Collectors {
  import opened Outcomes
  import opened Bytes
  import opened Tables
  import opened BlockStore
  import opened BlockContent
  import opened BlockDb
  import opened BlockQuery
  import opened AggregateView

  /** The chain's part of a map is `saved` at heights 1, 2, .., |saved| and nothing else. */
  ghost predicate Holds(m: map<Key, seq<Tx>>, chain: nat, saved: seq<seq<Tx>>) {
    forall h: int ::
      && ((chain, h) in m <==> 1 <= h <= |saved|)
      && ((chain, h) in m ==> m[(chain, h)] == saved[h - 1])
  }

  /** What a reader expects: the saved blocks' transactions, labelled 1, 2, .., in order. */
  function Flattened(saved: seq<seq<Tx>>): seq<TxResult> {
    if saved == [] then []
    else Flattened(saved[..|saved| - 1]) + Labelled(|saved|, saved[|saved| - 1])
  }

  lemma {:induction false} ConcatenatedIsFlattened(m: map<Key, seq<Tx>>, chain: nat, saved: seq<seq<Tx>>, n: nat)
    requires Holds(m, chain, saved) && n <= |saved|
    ensures Concatenated(m, chain, 1, n + 1) == Flattened(saved[..n])
  {
    if n > 0 {
      ConcatenatedIsFlattened(m, chain, saved, n - 1);
      assert saved[..n][..n - 1] == saved[..n - 1];
      assert (chain, n) in m;
    }
  }

  /** Reading a chain that holds `saved`: the query and both aggregates. */
  lemma ReadBack(s: Store, chain: nat, saved: seq<seq<Tx>>)
    requires Consistent(s) && chain in s.chains.rows && Holds(Content(s), chain, saved)
    ensures TransactionsOf(s, chain) == Flattened(saved)
    ensures Group(s, chain) != []
    ensures MaxHeight(Group(s, chain)) == |saved|
    ensures CountTx(Group(s, chain)) == |Flattened(saved)|
  {
    TransactionsReadTheMap(s, chain, 1, |saved| + 1);
    ConcatenatedIsFlattened(Content(s), chain, saved, |saved|);
    assert saved[..|saved|] == saved;
    AggregatesReadTheMap(s, chain);
    assert |saved| > 0 ==> (chain, |saved|) in Content(s);
  }

  /** Saving the next height extends the history of its chain and of no other. */
  lemma HoldsExtended(m: map<Key, seq<Tx>>, chain: nat, saved: seq<seq<Tx>>, txs: seq<Tx>)
    requires Holds(m, chain, saved)
    ensures Holds(m[(chain, |saved| + 1) := txs], chain, saved + [txs])
  {
  }

  /* ---------- one collector ---------- */

  /** What happens at one tick: the finder's answer, and which database calls fail. */
  datatype Tick = Tick(found: Result<seq<Tx>, Text>, fault: nat -> bool)

  /** The two maps agree on every other chain. */
  ghost predicate SameElsewhere(m: map<Key, seq<Tx>>, was: map<Key, seq<Tx>>, chain: nat) {
    forall k: Key :: k.0 != chain ==> (k in m <==> k in was) && (k in m ==> m[k] == was[k])
  }

  /** The tick's save goes through. */
  ghost predicate TickSaves(tick: Tick, chain: nat, height: int) {
    && tick.found.Ok? && TxsOk(tick.found.value)
    && NoFaults(tick.fault, 0, |SaveProgram(chain, height, tick.found.value)| + 2)
  }

  /** The ticks that advance the height, and what they save. */
  ghost function SavingTicks(ticks: seq<Tick>, chain: nat): seq<nat> {
    if ticks == [] then []
    else
      var before, n := SavingTicks(ticks[..|ticks| - 1], chain), |ticks| - 1;
      if TickSaves(ticks[n], chain, |before| + 1) then before + [n] else before
  }

  ghost function SavedBy(ticks: seq<Tick>, chain: nat): seq<seq<Tx>> {
    if ticks == [] then []
    else
      var before, last := SavedBy(ticks[..|ticks| - 1], chain), ticks[|ticks| - 1];
      if TickSaves(last, chain, |before| + 1) then before + [last.found.value] else before
  }

  /** Each saved block is the finder's answer at a tick of its own, in the order of the ticks. */
  lemma {:induction false} SavedByTicks(ticks: seq<Tick>, chain: nat)
    ensures var at, saved := SavingTicks(ticks, chain), SavedBy(ticks, chain);
      && |at| == |saved|
      && (forall h :: 0 <= h < |at| ==> at[h] < |ticks| && ticks[at[h]].found == Ok(saved[h]))
      && (forall g, h :: 0 <= g < h < |at| ==> at[g] < at[h])
  {
    if ticks != [] {
      SavedByTicks(ticks[..|ticks| - 1], chain);
    }
  }

  class Collector {
    const chain: Chain

    constructor (chain: Chain)
      ensures this.chain == chain
    {
      this.chain := chain;
    }

    method SaveTxsForHeight(height: int, tick: Tick) returns (err: bool)
      requires chain.db.Idle()
      modifies chain.db
      ensures chain.db.Idle()
      ensures !err ==> tick.found.Ok? && Content(chain.db.store) == old(Content(chain.db.store))[(chain.id, height) := tick.found.value]
      ensures !err ==> chain.db.store.chains == old(chain.db.store).chains
      ensures err ==> chain.db.store == old(chain.db.store)
      ensures !err <==> chain.id in old(chain.db.store).chains.rows && TickSaves(tick, chain.id, height)
    {
      match tick.found {
        case Err(_) => err := true;
        case Ok(txs) =>
          var saveErr := chain.SaveBlock(height, txs, tick.fault);
          err := saveErr.Some?;
      }
    }

    /**
     Collect over the ticks that arrive before the context is cancelled. `saved` lists the finder's
     answers at the ticks whose save went through. On return the chain holds exactly those, height by
     height, and the other chains hold what they held.
    */
    method Collect(ticks: seq<Tick>) returns (height: int, saved: seq<seq<Tx>>)
      requires chain.db.Idle() && chain.id in chain.db.store.chains.rows
      requires forall h: int :: (chain.id, h) !in Content(chain.db.store)
      modifies chain.db
      ensures chain.db.Idle() && height == |saved| + 1
      ensures chain.id in chain.db.store.chains.rows
      ensures Holds(Content(chain.db.store), chain.id, saved)
      ensures TransactionsOf(chain.db.store, chain.id) == Flattened(saved)
      ensures saved == SavedBy(ticks, chain.id)
      ensures SameElsewhere(Content(chain.db.store), old(Content(chain.db.store)), chain.id)
    {
      height := 1;
      saved := [];
      for i := 0 to |ticks|
        invariant chain.db.Idle() && height == |saved| + 1
        invariant chain.id in chain.db.store.chains.rows
        invariant Holds(Content(chain.db.store), chain.id, saved)
        invariant saved == SavedBy(ticks[..i], chain.id)
        invariant SameElsewhere(Content(chain.db.store), old(Content(chain.db.store)), chain.id)
      {
        ghost var before := Content(chain.db.store);
        assert ticks[..i + 1][..i] == ticks[..i];
        var err := SaveTxsForHeight(height, ticks[i]);
        if !err {
          HoldsExtended(before, chain.id, saved, ticks[i].found.value);
          height := height + 1;
          saved := saved + [ticks[i].found.value];
        }
      }
      assert ticks[..|ticks|] == ticks;
      ReadBack(chain.db.store, chain.id, saved);
    }
  }

  /* ---------- interleaved collectors ---------- */

  /** Where a collector stands between two of its atomic actions. */
  datatype Phase =
    | Polling(height: int)
    | Found(height: int, txs: seq<Tx>)                  // FindTxs answered; waiting for the connection
    | Saving(height: int, txs: seq<Tx>, done: nat)      // inside its transaction, `done` statements ran
    | Stopped

  /** The connection pool of size one. Readers see `World.store`, never a working copy. */
  datatype Connection = Free | Held(owner: nat, work: Session)

  /** Collectors are named by the chain row they write to; `saved` records, per collector,
      the finder's answers whose save was committed. */
  datatype World = World(
    store: Store,
    conn: Connection,
    phase: map<nat, Phase>,
    saved: map<nat, seq<seq<Tx>>>)

  /** One atomic action of the system. The flags say whether the call failed for a reason of its own. */
  datatype Step =
    | TrackTest(row: TestCase)                          // CreateTestCase
    | TrackChain(test: nat, info: ChainInfo)            // AddChain, then a new collector
    | FindFails(c: nat)
    | FindSucceeds(c: nat, txs: seq<Tx>)
    | BeginTx(c: nat, faulty: bool)
    | NextStatement(c: nat, faulty: bool)
    | CommitTx(c: nat, faulty: bool)
    | Stop(c: nat)

  /** May the step happen now? */
  ghost predicate Enabled(w: World, step: Step) {
    match step
    case TrackTest(row) => w.conn.Free? && TestAccepted(w.store, row)
    case TrackChain(test, info) => w.conn.Free? && ChainAccepted(w.store, test, info)
    case FindFails(c) => c in w.phase && w.phase[c].Polling?
    case FindSucceeds(c, txs) => c in w.phase && w.phase[c].Polling?
    case BeginTx(c, faulty) => w.conn.Free? && c in w.phase && w.phase[c].Found?
    case NextStatement(c, faulty) =>
      && w.conn.Held? && w.conn.owner == c && c in w.phase && w.phase[c].Saving?
      && w.phase[c].done < |SaveProgram(c, w.phase[c].height, w.phase[c].txs)|
    case CommitTx(c, faulty) =>
      && w.conn.Held? && w.conn.owner == c && c in w.phase && c in w.saved && w.phase[c].Saving?
      && w.phase[c].done == |SaveProgram(c, w.phase[c].height, w.phase[c].txs)|
    case Stop(c) => c in w.phase
  }

  /** A failed save rolls back, frees the connection and polls the same height again. */
  ghost function GiveUp(w: World, c: nat): World
    requires c in w.phase && (w.phase[c].Found? || w.phase[c].Saving?)
  {
    w.(conn := Free, phase := w.phase[c := Polling(w.phase[c].height)])
  }

  ghost function Apply(w: World, step: Step): World
    requires Enabled(w, step)
  {
    match step
    case TrackTest(row) => w.(store := WithTest(w.store, row))
    case TrackChain(test, info) =>
      var c := w.store.chains.next;
      World(WithChain(w.store, test, info), w.conn, w.phase[c := Polling(1)], w.saved[c := []])
    case FindFails(c) => w
    case FindSucceeds(c, txs) => w.(phase := w.phase[c := Found(w.phase[c].height, txs)])
    case BeginTx(c, faulty) =>
      if faulty then GiveUp(w, c)
      else w.(conn := Held(c, Start(w.store)), phase := w.phase[c := Saving(w.phase[c].height, w.phase[c].txs, 0)])
    case NextStatement(c, faulty) =>
      var p := w.phase[c];
      var r := Exec(SaveProgram(c, p.height, p.txs)[p.done], w.conn.work);
      if faulty || r.None? then GiveUp(w, c)
      else w.(conn := Held(c, r.value), phase := w.phase[c := Saving(p.height, p.txs, p.done + 1)])
    case CommitTx(c, faulty) =>
      var p := w.phase[c];
      if faulty then GiveUp(w, c)
      else World(w.conn.work.store, Free, w.phase[c := Polling(p.height + 1)], w.saved[c := w.saved[c] + [p.txs]])
    case Stop(c) =>
      w.(conn := if w.conn.Held? && w.conn.owner == c then Free else w.conn, phase := w.phase[c := Stopped])
  }

  /** Every collected chain holds its collector's history. */
  ghost predicate HistoriesHold(m: map<Key, seq<Tx>>, saved: map<nat, seq<seq<Tx>>>) {
    forall c :: c in saved ==> Holds(m, c, saved[c])
  }

  /** A collector is one height past its history, and only the connection's owner is saving. */
  ghost predicate PhasesAgree(w: World) {
    && w.phase.Keys == w.saved.Keys && w.phase.Keys <= w.store.chains.rows.Keys
    && (forall c :: c in w.phase && !w.phase[c].Stopped? ==> w.phase[c].height == |w.saved[c]| + 1)
    && (forall c :: c in w.phase && w.phase[c].Saving? ==> w.conn.Held? && w.conn.owner == c)
    && (w.conn.Held? ==> w.conn.owner in w.phase && w.phase[w.conn.owner].Saving?)
  }

  /** A working copy is the committed tables plus the statements its transaction has run. */
  ghost predicate Worked(s: Store, c: nat, p: Phase, work: Session)
    requires p.Saving?
  {
    var prog := SaveProgram(c, p.height, p.txs);
    p.done <= |prog| && Run(prog[..p.done], Start(s)) == Some(work)
  }

  ghost predicate Invariant(w: World) {
    && Consistent(w.store)
    && HistoriesHold(Content(w.store), w.saved)
    && PhasesAgree(w)
    && (w.conn.Held? ==> Worked(w.store, w.conn.owner, w.phase[w.conn.owner], w.conn.work))
  }

  lemma NextPrefix(prog: seq<Stmt>, n: nat, start: Session, w: Session)
    requires n < |prog| && Run(prog[..n], start) == Some(w)
    ensures Run(prog[..n + 1], start) == Exec(prog[n], w)
  {
    assert prog[..n + 1][..n] == prog[..n];
  }

  /** Any step that saves nothing: it moves one collector, and touches the connection only on its behalf. */
  lemma MoveKeepsInvariant(w: World, c: nat, p: Phase, conn: Connection)
    requires Invariant(w) && c in w.phase && (w.conn.Held? ==> w.conn.owner == c || conn == w.conn)
    requires p.Stopped? || (!w.phase[c].Stopped? && p.height == w.phase[c].height)
    requires p.Saving? <==> conn.Held? && conn.owner == c
    requires conn.Held? && conn.owner != c ==> conn == w.conn
    requires conn.Held? && conn.owner == c ==> Worked(w.store, c, p, conn.work)
    ensures Invariant(w.(conn := conn, phase := w.phase[c := p]))
  {
  }

  lemma StatementKeepsInvariant(w: World, c: nat)
    requires Invariant(w) && Enabled(w, NextStatement(c, false))
    ensures Invariant(Apply(w, NextStatement(c, false)))
  {
    var p := w.phase[c];
    var prog := SaveProgram(c, p.height, p.txs);
    NextPrefix(prog, p.done, Start(w.store), w.conn.work);
    var r := Exec(prog[p.done], w.conn.work);
    if r.None? {
      GiveUpKeepsInvariant(w, c);
    } else {
      MoveKeepsInvariant(w, c, Saving(p.height, p.txs, p.done + 1), Held(c, r.value));
    }
  }

  /** Saving the next height of one chain extends that history and leaves the others. */
  lemma HistoriesExtended(m: map<Key, seq<Tx>>, saved: map<nat, seq<seq<Tx>>>, c: nat, txs: seq<Tx>)
    requires HistoriesHold(m, saved) && c in saved
    ensures HistoriesHold(m[(c, |saved[c]| + 1) := txs], saved[c := saved[c] + [txs]])
  {
    HoldsExtended(m, c, saved[c], txs);
    forall d | d in saved && d != c ensures Holds(m[(c, |saved[c]| + 1) := txs], d, saved[d]) {
      OtherChainsKept(m, c, |saved[c]| + 1, txs, d, saved[d]);
    }
  }

  lemma OtherChainsKept(m: map<Key, seq<Tx>>, c: nat, h: int, txs: seq<Tx>, d: nat, saved: seq<seq<Tx>>)
    requires Holds(m, d, saved) && c != d
    ensures Holds(m[(c, h) := txs], d, saved)
  {
  }

  lemma CommitKeepsInvariant(w: World, c: nat)
    requires Invariant(w) && Enabled(w, CommitTx(c, false))
    ensures Invariant(Apply(w, CommitTx(c, false)))
  {
    var p := w.phase[c];
    var prog := SaveProgram(c, p.height, p.txs);
    assert prog[..p.done] == prog;
    SaveProgramRefinesUpdate(w.store, c, p.height, p.txs);
    HistoriesExtended(Content(w.store), w.saved, c, p.txs);
  }

  lemma TrackKeepsInvariant(w: World, test: nat, info: ChainInfo)
    requires Invariant(w) && Enabled(w, TrackChain(test, info))
    ensures Invariant(Apply(w, TrackChain(test, info)))
  {
    WithChainEffect(w.store, test, info);
    assert Holds(Content(WithChain(w.store, test, info)), w.store.chains.next, []);
  }

  lemma BeginKeepsInvariant(w: World, c: nat)
    requires Invariant(w) && Enabled(w, BeginTx(c, false))
    ensures Invariant(Apply(w, BeginTx(c, false)))
  {
    var p := w.phase[c];
    assert SaveProgram(c, p.height, p.txs)[..0] == [];
    MoveKeepsInvariant(w, c, Saving(p.height, p.txs, 0), Held(c, Start(w.store)));
  }

  lemma TestKeepsInvariant(w: World, row: TestCase)
    requires Invariant(w) && Enabled(w, TrackTest(row))
    ensures Invariant(Apply(w, TrackTest(row)))
  {
    SameBlocksSameContent(w.store, WithTest(w.store, row));
  }

  lemma GiveUpKeepsInvariant(w: World, c: nat)
    requires Invariant(w) && c in w.phase && (w.phase[c].Found? || w.phase[c].Saving?)
    requires w.conn.Held? ==> w.conn.owner == c
    ensures Invariant(GiveUp(w, c))
  {
    MoveKeepsInvariant(w, c, Polling(w.phase[c].height), Free);
  }

  lemma StopKeepsInvariant(w: World, c: nat)
    requires Invariant(w) && Enabled(w, Stop(c))
    ensures Invariant(Apply(w, Stop(c)))
  {
    MoveKeepsInvariant(w, c, Stopped, if w.conn.Held? && w.conn.owner == c then Free else w.conn);
  }

  lemma FindKeepsInvariant(w: World, c: nat, txs: seq<Tx>)
    requires Invariant(w) && Enabled(w, FindSucceeds(c, txs))
    ensures Invariant(Apply(w, FindSucceeds(c, txs)))
  {
    MoveKeepsInvariant(w, c, Found(w.phase[c].height, txs), w.conn);
  }

  lemma StepKeepsInvariant(w: World, step: Step)
    requires Invariant(w) && Enabled(w, step)
    ensures Invariant(Apply(w, step))
  {
    match step
    case TrackTest(row) => TestKeepsInvariant(w, row);
    case TrackChain(test, info) => TrackKeepsInvariant(w, test, info);
    case FindFails(c) =>
    case FindSucceeds(c, txs) => FindKeepsInvariant(w, c, txs);
    case BeginTx(c, faulty) => if faulty { GiveUpKeepsInvariant(w, c); } else { BeginKeepsInvariant(w, c); }
    case NextStatement(c, faulty) => if faulty { GiveUpKeepsInvariant(w, c); } else { StatementKeepsInvariant(w, c); }
    case CommitTx(c, faulty) => if faulty { GiveUpKeepsInvariant(w, c); } else { CommitKeepsInvariant(w, c); }
    case Stop(c) => StopKeepsInvariant(w, c);
  }

  ghost predicate FoundAt(w: World, step: Step, c: nat, h: int, txs: seq<Tx>) {
    step == FindSucceeds(c, txs) && c in w.phase && w.phase[c] == Polling(h)
  }

  ghost predicate Carries(p: Phase, h: int, txs: seq<Tx>) {
    (p.Found? || p.Saving?) && p.height == h && p.txs == txs
  }

  /** What one step can do to one collector. */
  lemma StepHistory(w: World, step: Step, c: nat)
    requires PhasesAgree(w) && Issued(w.store.chains) && Enabled(w, step) && c in Apply(w, step).phase
    ensures var w' := Apply(w, step);
      && c in w'.saved
      && (c !in w.phase ==> w'.saved[c] == [] && w'.phase[c] == Polling(1))
      && (c in w.phase ==> (
            || w'.saved[c] == w.saved[c]
            || (w.phase[c].Saving? && w.phase[c].height == |w.saved[c]| + 1 && w'.saved[c] == w.saved[c] + [w.phase[c].txs])))
      && (c in w.phase && (w'.phase[c].Found? || w'.phase[c].Saving?) ==> (
            || Carries(w.phase[c], w'.phase[c].height, w'.phase[c].txs)
            || FoundAt(w, step, c, w'.phase[c].height, w'.phase[c].txs)))
  {
  }

  /** A failed find or save leaves everything committed as it was and its collector polling the same
      height; only the collector's own successful commit moves on, by one. */
  lemma FailureKeepsHeight(w: World, step: Step, c: nat)
    requires PhasesAgree(w) && Issued(w.store.chains) && Enabled(w, step) && c in w.phase && !w.phase[c].Stopped?
    requires !Apply(w, step).phase[c].Stopped?
    ensures Apply(w, step).phase[c].height == w.phase[c].height + (if step == CommitTx(c, false) then 1 else 0)
    ensures step == FindFails(c) ==> Apply(w, step) == w
    ensures step == BeginTx(c, true) || step == NextStatement(c, true) || step == CommitTx(c, true) ==>
              var w' := Apply(w, step);
              w'.phase[c] == Polling(w.phase[c].height) && w'.conn == Free && w'.store == w.store && w'.saved == w.saved
  {
  }

  /** A statement that the schema refuses is such a failure too. */
  lemma RefusalKeepsHeight(w: World, c: nat)
    requires Enabled(w, NextStatement(c, false))
    ensures var p, w' := w.phase[c], Apply(w, NextStatement(c, false));
      Exec(SaveProgram(c, p.height, p.txs)[p.done], w.conn.work).None? ==>
        w'.phase[c] == Polling(p.height) && w'.conn == Free && w'.store == w.store && w'.saved == w.saved
  {
  }

  lemma StepKeepsCollectors(w: World, step: Step, c: nat)
    requires Enabled(w, step) && c in w.phase
    ensures c in Apply(w, step).phase
  {
  }

  /** A run: every world follows from the one before by an enabled step. */
  ghost predicate IsRun(worlds: seq<World>, steps: seq<Step>) {
    && |worlds| == |steps| + 1
    && forall i :: 0 <= i < |steps| ==> Enabled(worlds[i], steps[i]) && worlds[i + 1] == Apply(worlds[i], steps[i])
  }

  /** A consistent database file before any collector of this process starts. */
  ghost predicate Initial(w: World) {
    Consistent(w.store) && w.conn.Free? && w.phase == map[] && w.saved == map[]
  }

  lemma {:induction false} RunKeepsInvariant(worlds: seq<World>, steps: seq<Step>)
    requires IsRun(worlds, steps) && Initial(worlds[0])
    ensures Invariant(worlds[|steps|])
  {
    if steps != [] {
      var n := |steps| - 1;
      RunKeepsInvariant(worlds[..|steps|], steps[..n]);
      StepKeepsInvariant(worlds[n], steps[n]);
    }
  }

  /** The finder gave `txs` for height h to the collector of chain c at some step of the run. */
  ghost predicate WasFound(worlds: seq<World>, steps: seq<Step>, c: nat, h: int, txs: seq<Tx>)
    requires IsRun(worlds, steps)
  {
    exists i :: 0 <= i < |steps| && FoundAt(worlds[i], steps[i], c, h, txs)
  }

  lemma FoundEarlier(worlds: seq<World>, steps: seq<Step>, c: nat, h: int, txs: seq<Tx>)
    requires IsRun(worlds, steps) && steps != []
    requires IsRun(worlds[..|steps|], steps[..|steps| - 1])
    requires WasFound(worlds[..|steps|], steps[..|steps| - 1], c, h, txs)
    ensures WasFound(worlds, steps, c, h, txs)
  {
    var i :| 0 <= i < |steps| - 1 && FoundAt(worlds[..|steps|][i], steps[..|steps| - 1][i], c, h, txs);
    assert FoundAt(worlds[i], steps[i], c, h, txs);
  }

  lemma RunPrefixIsRun(worlds: seq<World>, steps: seq<Step>)
    requires IsRun(worlds, steps) && steps != []
    ensures IsRun(worlds[..|steps|], steps[..|steps| - 1])
  {
  }

  /** Every saved answer, and the answer being saved, came from the finder for that height. */
  ghost predicate AllFound(worlds: seq<World>, steps: seq<Step>, c: nat, p: Phase, saved: seq<seq<Tx>>)
    requires IsRun(worlds, steps)
  {
    && (forall h :: 0 <= h < |saved| ==> WasFound(worlds, steps, c, h + 1, saved[h]))
    && (p.Found? || p.Saving? ==> WasFound(worlds, steps, c, p.height, p.txs))
  }

  lemma AllFoundEarlier(worlds: seq<World>, steps: seq<Step>, c: nat, p: Phase, saved: seq<seq<Tx>>)
    requires IsRun(worlds, steps) && steps != []
    requires IsRun(worlds[..|steps|], steps[..|steps| - 1])
    requires AllFound(worlds[..|steps|], steps[..|steps| - 1], c, p, saved)
    ensures AllFound(worlds, steps, c, p, saved)
  {
    forall h | 0 <= h < |saved| ensures WasFound(worlds, steps, c, h + 1, saved[h]) {
      FoundEarlier(worlds, steps, c, h + 1, saved[h]);
    }
    if p.Found? || p.Saving? {
      FoundEarlier(worlds, steps, c, p.height, p.txs);
    }
  }

  /** Whatever is being saved or was saved is an answer of the finder for that height. */
  lemma {:induction false} SavedWasFound(worlds: seq<World>, steps: seq<Step>, c: nat)
    requires IsRun(worlds, steps) && Initial(worlds[0])
    requires c in worlds[|steps|].phase
    ensures c in worlds[|steps|].saved
    ensures AllFound(worlds, steps, c, worlds[|steps|].phase[c], worlds[|steps|].saved[c])
  {
    if steps != [] {
      var n := |steps| - 1;
      RunPrefixIsRun(worlds, steps);
      var w, step, w' := worlds[n], steps[n], worlds[n + 1];
      assert Enabled(w, step) && w' == Apply(w, step);
      RunKeepsInvariant(worlds[..|steps|], steps[..n]);
      StepHistory(w, step, c);
      if c in w.phase {
        SavedWasFound(worlds[..|steps|], steps[..n], c);
        AllFoundEarlier(worlds, steps, c, w.phase[c], w.saved[c]);
        AllFoundStep(worlds, steps, c);
      }
    }
  }

  lemma AllFoundStep(worlds: seq<World>, steps: seq<Step>, c: nat)
    requires IsRun(worlds, steps) && steps != []
    requires var w := worlds[|steps| - 1];
      && PhasesAgree(w) && Issued(w.store.chains) && c in w.phase
      && AllFound(worlds, steps, c, w.phase[c], w.saved[c])
    requires c in worlds[|steps|].phase && c in worlds[|steps|].saved
    ensures AllFound(worlds, steps, c, worlds[|steps|].phase[c], worlds[|steps|].saved[c])
  {
    var n := |steps| - 1;
    var w, step := worlds[n], steps[n];
    assert Enabled(w, step) && worlds[n + 1] == Apply(w, step);
    StepHistory(w, step, c);
  }

  /** A committed answer is never altered or lost by later steps. */
  lemma {:induction false} HistoryOnlyGrows(worlds: seq<World>, steps: seq<Step>, i: nat, c: nat)
    requires IsRun(worlds, steps) && Initial(worlds[0])
    requires i <= |steps| && c in worlds[i].phase && c in worlds[i].saved
    ensures c in worlds[|steps|].phase && c in worlds[|steps|].saved
    ensures worlds[i].saved[c] <= worlds[|steps|].saved[c]
  {
    if i < |steps| {
      var n := |steps| - 1;
      RunPrefixIsRun(worlds, steps);
      HistoryOnlyGrows(worlds[..|steps|], steps[..n], i, c);
      RunKeepsInvariant(worlds[..|steps|], steps[..n]);
      assert Enabled(worlds[n], steps[n]) && worlds[n + 1] == Apply(worlds[n], steps[n]);
      StepKeepsCollectors(worlds[n], steps[n], c);
      StepHistory(worlds[n], steps[n], c);
    }
  }

  /** In every reachable state, whoever holds the connection and whatever failed before, a reader
      of a collected chain gets exactly the committed answers for heights 1, 2, .., in order, and
      the aggregates count them. */
  lemma CollectedHistoryIsExact(worlds: seq<World>, steps: seq<Step>, c: nat)
    requires IsRun(worlds, steps) && Initial(worlds[0])
    requires c in worlds[|steps|].phase
    ensures var w := worlds[|steps|];
      && c in w.saved && Consistent(w.store)
      && TransactionsOf(w.store, c) == Flattened(w.saved[c])
      && Group(w.store, c) != []
      && MaxHeight(Group(w.store, c)) == |w.saved[c]|
      && CountTx(Group(w.store, c)) == |Flattened(w.saved[c])|
      && (!w.phase[c].Stopped? ==> w.phase[c].height == |w.saved[c]| + 1)
  {
    RunKeepsInvariant(worlds, steps);
    ReadBack(worlds[|steps|].store, c, worlds[|steps|].saved[c]);
  }
}
