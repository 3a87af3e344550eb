/**
 Whole runs of the port reservation: when a start is safe, when it is not, and who owns a listener.
*/
module PortRuns {
  import opened Outcomes
  import opened PortReservation

  /* ---------- what a start can run into ---------- */

  /** A starter is about to hand p to docker. */
  predicate Wants(k: Container, p: Port) { k.pc.Starting? && p in Bindings(k) }

  predicate Stakes(k: Container, p: Port) { Claims(k, p) || Wants(k, p) }

  /** Another lifecycle claims p or is about to, or a lost listener holds it. */
  ghost predicate Rivalled(w: World, c: nat, p: Port) {
    p in w.leaked || exists d :: d in w.cs && d != c && Stakes(w.cs[d], p)
  }

  /** The guard a caller of StartContainer could check. */
  ghost predicate Contested(w: World, c: nat) {
    c in w.cs && exists p :: p in Bindings(w.cs[c]) && Rivalled(w, c, p)
  }

  ghost predicate TwoClaimants(w: World) {
    exists c, d, p :: c in w.cs && d in w.cs && c != d && Claims(w.cs[c], p) && Claims(w.cs[d], p)
  }

  /** The starter has let go of its listeners, and docker finds one of the ports taken. */
  ghost predicate Refused(w: World, c: nat) {
    && c in w.cs && w.cs[c].pc.Starting? && w.cs[c].held == [] && w.cs[c].docker.Some?
    && !Enabled(w, DockerStarts(c))
  }

  ghost predicate Unsafe(w: World) {
    TwoClaimants(w) || exists c :: c in w.cs && Refused(w, c)
  }

  /* ---------- uncontested starts are safe ---------- */

  /** Every port is at stake for at most one lifecycle, and for none when its listener was lost. */
  ghost predicate Settled(w: World) {
    && (forall c, d, p :: c in w.cs && d in w.cs && c != d && Stakes(w.cs[c], p) ==> !Stakes(w.cs[d], p))
    && (forall c, p :: c in w.cs && Stakes(w.cs[c], p) ==> p !in w.leaked)
  }

  lemma SettledFindsFree(w: World, c: nat, p: Port)
    requires Inv(w) && Settled(w) && c in w.cs && Wants(w.cs[c], p) && w.cs[c].held == [] && !w.cs[c].up
    ensures p !in InUse(w)
  {
    assert Stakes(w.cs[c], p);
    forall d | d in w.cs ensures !Opens(w.cs[d], p) && !Binds(w.cs[d], p) {
      assert d != c ==> !Stakes(w.cs[d], p);
    }
  }

  lemma SettledIsSafe(w: World)
    requires Inv(w) && Settled(w)
    ensures !Unsafe(w)
  {
    forall c | c in w.cs ensures !Refused(w, c) {
      forall p | Wants(w.cs[c], p) && w.cs[c].held == [] && !w.cs[c].up ensures p !in InUse(w) {
        SettledFindsFree(w, c, p);
      }
      assert w.cs[c].pc.Starting? ==> forall p :: p in Ports(Bindings(w.cs[c])) ==> Wants(w.cs[c], p);
    }
    forall c, d, p | c in w.cs && d in w.cs && c != d && Claims(w.cs[c], p) ensures !Claims(w.cs[d], p) {
      assert Stakes(w.cs[c], p);
    }
  }

  /** One lifecycle gives up some stakes; what it loses track of it no longer has a stake in. */
  lemma SettledShrinks(w: World, c: nat, k': Container, w': World)
    requires Settled(w) && c in w.cs && w'.cs == w.cs[c := k']
    requires forall p :: Stakes(k', p) ==> Stakes(w.cs[c], p)
    requires forall p :: p in w'.leaked ==> p in w.leaked || (Stakes(w.cs[c], p) && !Stakes(k', p))
    ensures Settled(w')
  {
  }

  lemma FreshIsNoStake(w: World, c: nat, p: Port)
    requires Inv(w) && Enabled(w, ListenOk(c, p))
    ensures p !in w.leaked && forall d :: d in w.cs ==> !Stakes(w.cs[d], p)
  {
    FreshIsUnclaimed(w, c, p);
  }

  /** One lifecycle gains a stake in ports that are at stake for nobody. */
  lemma SettledGrows(w: World, c: nat, k': Container, gained: set<Port>, w': World)
    requires Settled(w) && c in w.cs && w'.cs == w.cs[c := k'] && w'.leaked == w.leaked
    requires forall p :: Stakes(k', p) ==> Stakes(w.cs[c], p) || p in gained
    requires forall p :: p in gained ==> !Rivalled(w, c, p)
    ensures Settled(w')
  {
  }

  lemma ListenKeepsSettled(w: World, c: nat, p: Port)
    requires Inv(w) && Settled(w) && Enabled(w, ListenOk(c, p))
    ensures Settled(Apply(w, ListenOk(c, p)))
  {
    FreshIsNoStake(w, c, p);
    SettledGrows(w, c, Apply(w, ListenOk(c, p)).cs[c], {p}, Apply(w, ListenOk(c, p)));
  }

  lemma BeginStartKeepsSettled(w: World, c: nat)
    requires Settled(w) && Enabled(w, BeginStart(c)) && !Contested(w, c)
    ensures Settled(Apply(w, BeginStart(c)))
  {
    SettledGrows(w, c, Apply(w, BeginStart(c)).cs[c], Ports(Bindings(w.cs[c])), Apply(w, BeginStart(c)));
  }

  lemma HandOverKeepsSettled(w: World, c: nat)
    requires Inv(w) && Settled(w) && Enabled(w, PortsGenerated(c))
    ensures Settled(Apply(w, PortsGenerated(c)))
  {
    var w' := Apply(w, PortsGenerated(c));
    forall p | p in Ports(w.cs[c].held) ensures Stakes(w.cs[c], p) && !Stakes(w'.cs[c], p) {
      assert Opens(w.cs[c], p);
    }
    SettledShrinks(w, c, w'.cs[c], w');
  }

  lemma ReleaseKeepsSettled(w: World, c: nat)
    requires Inv(w) && Settled(w) && Enabled(w, ReleaseOne(c))
    ensures Settled(Apply(w, ReleaseOne(c)))
  {
    var w' := Apply(w, ReleaseOne(c));
    ReleaseLocal(w.cs[c]);
    SettledShrinks(w, c, w'.cs[c], w');
  }

  /** Steps of an allocation, and of closing listeners on an error. */
  lemma AllocationKeepsSettled(w: World, step: Step)
    requires Settled(w) && Enabled(w, step)
    requires step.BeginCreate? || step.TakeWriteLock? || step.ListenFails? || step.CloseOneOnError?
    ensures Settled(Apply(w, step))
  {
    SettledShrinks(w, step.c, Apply(w, step).cs[step.c], Apply(w, step));
  }

  /** Docker's answers. */
  lemma AnswerKeepsSettled(w: World, step: Step)
    requires Settled(w) && Enabled(w, step)
    requires step.DockerCreates? || step.DockerRefusesCreate? || step.DockerStarts? || step.DockerFailsStart?
    ensures Settled(Apply(w, step))
  {
    SettledShrinks(w, step.c, Apply(w, step).cs[step.c], Apply(w, step));
  }

  lemma DropKeepsSettled(w: World, step: Step)
    requires Settled(w) && Enabled(w, step)
    requires step.StopContainer? || step.RemoveContainer?
    ensures Settled(Apply(w, step))
  {
    SettledShrinks(w, step.c, Apply(w, step).cs[step.c], Apply(w, step));
  }

  /** A start may be contested; no other step can unsettle the world. */
  lemma StepKeepsSettled(w: World, step: Step)
    requires Inv(w) && Settled(w) && Enabled(w, step)
    requires step.BeginStart? ==> !Contested(w, step.c)
    ensures Settled(Apply(w, step))
  {
    match step
    case NewLifecycle(c) =>
    case ListenOk(c, p) => ListenKeepsSettled(w, c, p);
    case BeginStart(c) => BeginStartKeepsSettled(w, c);
    case PortsGenerated(c) => HandOverKeepsSettled(w, c);
    case ReleaseOne(c) => ReleaseKeepsSettled(w, c);
    case StopContainer(_) => DropKeepsSettled(w, step);
    case RemoveContainer(_) => DropKeepsSettled(w, step);
    case DockerCreates(_) => AnswerKeepsSettled(w, step);
    case DockerRefusesCreate(_) => AnswerKeepsSettled(w, step);
    case DockerStarts(_) => AnswerKeepsSettled(w, step);
    case DockerFailsStart(_) => AnswerKeepsSettled(w, step);
    case _ => AllocationKeepsSettled(w, step);
  }

  ghost predicate UncontestedRun(steps: seq<Step>) {
    After(steps).Some? &&
    (steps != [] ==>
       var front, last := steps[..|steps| - 1], steps[|steps| - 1];
       UncontestedRun(front) && (last.BeginStart? ==> !Contested(After(front).value, last.c)))
  }

  lemma {:induction false} UncontestedRunIsSettled(steps: seq<Step>)
    requires UncontestedRun(steps)
    ensures Inv(After(steps).value) && Settled(After(steps).value)
  {
    RunKeepsInv(steps);
    if steps != [] {
      UncontestedRunIsSettled(steps[..|steps| - 1]);
      StepKeepsSettled(After(steps[..|steps| - 1]).value, steps[|steps| - 1]);
    }
  }

  /** In every run whose starts are uncontested, each host port is claimed by at most one container:
      by a listener, a release window or a running container. */
  lemma ClaimsAreExclusive(steps: seq<Step>, c: nat, d: nat, p: Port)
    requires UncontestedRun(steps)
    requires c in After(steps).value.cs && d in After(steps).value.cs && c != d
    requires Claims(After(steps).value.cs[c], p)
    ensures !Claims(After(steps).value.cs[d], p)
  {
    UncontestedRunIsSettled(steps);
    assert Stakes(After(steps).value.cs[c], p);
  }

  /** No container is bound to a port inside a release window. */
  lemma WindowsAreUnbound(steps: seq<Step>, c: nat, d: nat, p: Port)
    requires UncontestedRun(steps)
    requires c in After(steps).value.cs && d in After(steps).value.cs && Frees(After(steps).value.cs[c], p)
    ensures !Binds(After(steps).value.cs[d], p)
  {
    UncontestedRunIsSettled(steps);
    assert Stakes(After(steps).value.cs[c], p);
  }

  /** When a starter has let all its listeners go, every port it promised docker is free, or bound by
      its own running container. */
  lemma StartFindsItsPortsFree(steps: seq<Step>, c: nat)
    requires UncontestedRun(steps)
    requires var w := After(steps).value; c in w.cs && w.cs[c].pc.Starting? && w.cs[c].held == [] && w.cs[c].docker.Some?
    ensures Enabled(After(steps).value, DockerStarts(c))
    ensures !After(steps).value.cs[c].up ==> Ports(Bindings(After(steps).value.cs[c])) !! InUse(After(steps).value)
  {
    UncontestedRunIsSettled(steps);
    SettledIsSafe(After(steps).value);
    assert !Refused(After(steps).value, c);
  }

  /* ---------- contested starts go wrong ---------- */

  /** A starter that wants a port without claiming it has nothing left to release. */
  lemma Starved(k: Container, p: Port)
    requires LocalInv(k) && Wants(k, p) && !Claims(k, p)
    ensures k.held == [] && !k.up && k.docker.Some?
  {
    if k.docker.Some? && k.pc.freed + k.held == Bindings(k) {
      MatchedClaims(k, p);
    }
  }

  lemma RefusedAt(w: World, c: nat, p: Port)
    requires c in w.cs && w.cs[c].pc.Starting? && w.cs[c].held == [] && w.cs[c].docker.Some? && !w.cs[c].up
    requires p in Bindings(w.cs[c]) && p in InUse(w)
    ensures Refused(w, c) && Unsafe(w)
  {
    assert p in Ports(Bindings(w.cs[c]));
  }

  lemma TwoAt(w: World, c: nat, d: nat, p: Port)
    requires c in w.cs && d in w.cs && c != d && Claims(w.cs[c], p) && Claims(w.cs[d], p)
    ensures Unsafe(w)
  {
  }

  /** The rival is a lost listener. */
  lemma LeakedGoesWrong(w: World, c: nat, p: Port)
    requires Inv(w) && Enabled(w, BeginStart(c)) && p in Bindings(w.cs[c]) && p in w.leaked
    ensures Unsafe(Apply(w, BeginStart(c)))
  {
    assert !Claims(w.cs[c], p);
    RefusedAt(Apply(w, BeginStart(c)), c, p);
  }

  /** The starter already claims the port, so the rival can only be another starter that wants it. */
  lemma ClaimedGoesWrong(w: World, c: nat, d: nat, p: Port)
    requires Inv(w) && Enabled(w, BeginStart(c)) && p in Bindings(w.cs[c]) && Claims(w.cs[c], p)
    requires d in w.cs && d != c && Stakes(w.cs[d], p)
    ensures Unsafe(Apply(w, BeginStart(c)))
  {
    var w1 := Apply(w, BeginStart(c));
    assert w1.cs[d] == w.cs[d] && Claims(w1.cs[c], p);
    if Claims(w.cs[d], p) {
      TwoAt(w1, c, d, p);
    } else {
      Starved(w.cs[d], p);
      RefusedAt(w1, d, p);
    }
  }

  /** A restart without listeners: docker refuses it, or it takes the port from the rival. */
  lemma BareGoesWrong(w: World, c: nat, d: nat, p: Port)
    requires Inv(w) && Enabled(w, BeginStart(c)) && p in Bindings(w.cs[c]) && !Claims(w.cs[c], p)
    requires d in w.cs && d != c && Stakes(w.cs[d], p)
    ensures var w1 := Apply(w, BeginStart(c));
      Unsafe(w1) || (Enabled(w1, DockerStarts(c)) && Unsafe(Apply(w1, DockerStarts(c))))
  {
    var w1 := Apply(w, BeginStart(c));
    assert w.cs[c].held == [] && !w.cs[c].up;
    if Enabled(w1, DockerStarts(c)) {
      var w2 := Apply(w1, DockerStarts(c));
      assert w2.cs[d] == w.cs[d] && Binds(w2.cs[c], p) && p in Ports(Bindings(w.cs[c]));
      if Claims(w.cs[d], p) {
        TwoAt(w2, c, d, p);
      } else {
        Starved(w.cs[d], p);
        RefusedAt(w2, d, p);
      }
    } else {
      assert Refused(w1, c);
    }
  }

  /** From every world that satisfies the invariant, a contested start leads to two claimants or to
      a refused start at once, or by the container's own start. */
  lemma ContestedGoesWrong(w: World, c: nat)
    requires Inv(w) && Enabled(w, BeginStart(c)) && Contested(w, c)
    ensures var w1 := Apply(w, BeginStart(c));
      Unsafe(w1) || (Enabled(w1, DockerStarts(c)) && Unsafe(Apply(w1, DockerStarts(c))))
  {
    var p :| p in Bindings(w.cs[c]) && Rivalled(w, c, p);
    if p in w.leaked {
      LeakedGoesWrong(w, c, p);
    } else {
      var d :| d in w.cs && d != c && Stakes(w.cs[d], p);
      if Claims(w.cs[c], p) {
        ClaimedGoesWrong(w, c, d, p);
      } else {
        BareGoesWrong(w, c, d, p);
      }
    }
  }

  /** A start and what follows when docker is asked next: nothing unsafe. */
  ghost predicate SafeStart(w: World, c: nat)
    requires Enabled(w, BeginStart(c))
  {
    var w1 := Apply(w, BeginStart(c));
    !Unsafe(w1) && (Enabled(w1, DockerStarts(c)) ==> !Unsafe(Apply(w1, DockerStarts(c))))
  }

  /** In a settled world a start is safe exactly when it is uncontested. */
  lemma StartIsSafeExactly(w: World, c: nat)
    requires Inv(w) && Settled(w) && Enabled(w, BeginStart(c))
    ensures SafeStart(w, c) <==> !Contested(w, c)
  {
    if Contested(w, c) {
      ContestedGoesWrong(w, c);
    } else {
      var w1 := Apply(w, BeginStart(c));
      StepKeepsInv(w, BeginStart(c));
      StepKeepsSettled(w, BeginStart(c));
      SettledIsSafe(w1);
      if Enabled(w1, DockerStarts(c)) {
        StepKeepsInv(w1, DockerStarts(c));
        StepKeepsSettled(w1, DockerStarts(c));
        SettledIsSafe(Apply(w1, DockerStarts(c)));
      }
    }
  }

  ghost predicate SafelyStartedRun(steps: seq<Step>) {
    After(steps).Some? &&
    (steps != [] ==>
       var front, last := steps[..|steps| - 1], steps[|steps| - 1];
       SafelyStartedRun(front) && (last.BeginStart? ==> SafeStart(After(front).value, last.c)))
  }

  /** Over whole runs: all starts are safe if and only if none is contested. */
  lemma {:induction false} SafeExactlyUncontested(steps: seq<Step>)
    ensures SafelyStartedRun(steps) <==> UncontestedRun(steps)
  {
    if steps != [] && After(steps).Some? {
      var front, last := steps[..|steps| - 1], steps[|steps| - 1];
      SafeExactlyUncontested(front);
      if UncontestedRun(front) && last.BeginStart? {
        UncontestedRunIsSettled(front);
        StartIsSafeExactly(After(front).value, last.c);
      }
    }
  }

  /** A contested start of any reachable world can be continued to an unsafe one. */
  lemma ContestedRunGoesWrong(steps: seq<Step>, c: nat) returns (more: seq<Step>)
    requires After(steps).Some? && Enabled(After(steps).value, BeginStart(c)) && Contested(After(steps).value, c)
    ensures After(more).Some? && Unsafe(After(more).value)
    ensures more == steps + [BeginStart(c)] || more == steps + [BeginStart(c)] + [DockerStarts(c)]
  {
    RunKeepsInv(steps);
    var w := After(steps).value;
    ContestedGoesWrong(w, c);
    var w1 := Apply(w, BeginStart(c));
    more := Extend(steps, w, BeginStart(c), w1);
    if !Unsafe(w1) {
      more := Extend(more, w1, DockerStarts(c), Apply(w1, DockerStarts(c)));
    }
  }

  /* ---------- runs that start a container only on its reservation ---------- */

  /** StartContainer is called while the listeners of the created container are still held. */
  ghost predicate StartIsReserved(w: World, step: Step) {
    step.BeginStart? && step.c in w.cs && w.cs[step.c].docker.Some? ==> w.cs[step.c].held == Bindings(w.cs[step.c])
  }

  ghost predicate ReservedRun(steps: seq<Step>) {
    After(steps).Some? &&
    (steps != [] ==>
       && ReservedRun(steps[..|steps| - 1])
       && StartIsReserved(After(steps[..|steps| - 1]).value, steps[|steps| - 1]))
  }

  /** Released plus held ports are exactly the promised bindings. */
  ghost predicate WindowsMatch(w: World) {
    forall c :: c in w.cs && w.cs[c].pc.Starting? && w.cs[c].docker.Some? ==>
      w.cs[c].pc.freed + w.cs[c].held == Bindings(w.cs[c])
  }

  lemma ReleaseKeepsWindows(w: World, c: nat)
    requires Enabled(w, ReleaseOne(c)) && LocalInv(w.cs[c]) && WindowsMatch(w)
    ensures WindowsMatch(Apply(w, ReleaseOne(c)))
  {
    ReleaseLocal(w.cs[c]);
  }

  lemma StepKeepsWindows(w: World, step: Step)
    requires Inv(w) && WindowsMatch(w) && Enabled(w, step) && StartIsReserved(w, step)
    ensures WindowsMatch(Apply(w, step))
  {
    if step.ReleaseOne? {
      ReleaseKeepsWindows(w, step.c);
    } else if step.BeginStart? {
      assert [] + w.cs[step.c].held == w.cs[step.c].held;
    }
  }

  lemma MatchedClaims(k: Container, p: Port)
    requires k.pc.Starting? && k.docker.Some? ==> k.pc.freed + k.held == Bindings(k)
    ensures Wants(k, p) ==> Claims(k, p)
  {
  }

  lemma ReservedIsUncontested(w: World, c: nat)
    requires Inv(w) && WindowsMatch(w) && Enabled(w, BeginStart(c)) && StartIsReserved(w, BeginStart(c))
    ensures !Contested(w, c)
  {
    forall p | p in Bindings(w.cs[c]) ensures !Rivalled(w, c, p) {
      assert Opens(w.cs[c], p) && Claims(w.cs[c], p);
      forall d | d in w.cs && d != c ensures !Stakes(w.cs[d], p) {
        assert Apart(w.cs[c], w.cs[d]);
        MatchedClaims(w.cs[d], p);
      }
    }
  }

  /** Runs in which every start still holds its reservation are uncontested, so all of the above holds
      of them. */
  lemma {:induction false} ReservedRunIsUncontested(steps: seq<Step>)
    requires ReservedRun(steps)
    ensures UncontestedRun(steps) && WindowsMatch(After(steps).value)
  {
    if steps != [] {
      var front, last := steps[..|steps| - 1], steps[|steps| - 1];
      ReservedRunIsUncontested(front);
      RunKeepsInv(front);
      StepKeepsWindows(After(front).value, last);
      if last.BeginStart? {
        ReservedIsUncontested(After(front).value, last.c);
      }
    }
  }

  /* ---------- a restart that is contested ---------- */

  lemma Extend(steps: seq<Step>, w: World, step: Step, w': World) returns (longer: seq<Step>)
    requires After(steps) == Some(w) && Enabled(w, step)
    requires var r := Apply(w, step);
      && w'.cs == r.cs && w'.open == r.open && w'.bound == r.bound && w'.leaked == r.leaked
      && w'.writer == r.writer && w'.readers == r.readers
    ensures After(longer) == Some(w') && longer == steps + [step]
    ensures ReservedRun(steps) && StartIsReserved(w, step) ==> ReservedRun(longer)
    ensures CleanRun(steps) && CreateIsClean(w, step) ==> CleanRun(longer)
  {
    longer := steps + [step];
    assert longer[..|steps|] == steps;
  }

  /** A new lifecycle inside the write lock. */
  lemma ReachOpening(steps: seq<Step>, w: World, c: nat) returns (s: seq<Step>)
    requires After(steps) == Some(w) && c !in w.cs && w.writer.None? && w.readers == {}
    ensures After(s) == Some(With(w, c, Container(Opening(1, []), None, false, [])).(writer := Some(c)))
    ensures ReservedRun(steps) ==> ReservedRun(s)
    ensures CleanRun(steps) ==> CleanRun(s)
  {
    var w1 := With(w, c, Container(Ready, None, false, []));
    s := Extend(steps, w, NewLifecycle(c), w1);
    var w2 := With(w, c, Container(Allocating(1, []), None, false, []));
    s := Extend(s, w1, BeginCreate(c, 1), w2);
    s := Extend(s, w2, TakeWriteLock(c), With(w, c, Container(Opening(1, []), None, false, [])).(writer := Some(c)));
  }

  /** Its port allocated. */
  lemma ReachAllocated(steps: seq<Step>, w: World, c: nat, p: Port) returns (s: seq<Step>)
    requires After(steps) == Some(w) && c !in w.cs && p !in InUse(w) && w.writer.None? && w.readers == {}
    ensures After(s) == Some(With(w, c, Container(Allocating(0, [p]), None, false, [])).(open := w.open + {p}))
    ensures ReservedRun(steps) ==> ReservedRun(s)
    ensures CleanRun(steps) ==> CleanRun(s)
  {
    s := ReachOpening(steps, w, c);
    var w3 := With(w, c, Container(Opening(1, []), None, false, [])).(writer := Some(c));
    var none: seq<Port> := [];
    assert none + [p] == [p];
    s := Extend(s, w3, ListenOk(c, p), With(w, c, Container(Allocating(0, [p]), None, false, [])).(open := w.open + {p}));
  }

  /** A container created with one port, its listener open. */
  lemma ReachCreated(steps: seq<Step>, w: World, c: nat, p: Port, w': World) returns (s: seq<Step>)
    requires After(steps) == Some(w) && c !in w.cs && p !in InUse(w) && w.writer.None? && w.readers == {}
    requires w'.cs == w.cs[c := Container(Ready, Some([p]), false, [p])] && w'.open == w.open + {p}
    requires w'.bound == w.bound && w'.leaked == w.leaked && w'.writer.None? && w'.readers == {}
    ensures After(s) == Some(w')
    ensures ReservedRun(steps) ==> ReservedRun(s)
    ensures CleanRun(steps) ==> CleanRun(s)
  {
    s := ReachAllocated(steps, w, c, p);
    var w4 := With(w, c, Container(Allocating(0, [p]), None, false, [])).(open := w.open + {p});
    var w5 := With(w, c, Container(Creating, None, false, [p])).(open := w.open + {p});
    s := Extend(s, w4, PortsGenerated(c), w5);
    s := Extend(s, w5, DockerCreates(c), w');
  }

  /** Its start, up to the release window. */
  lemma ReachWindow(steps: seq<Step>, w: World, c: nat, p: Port, w': World) returns (s: seq<Step>)
    requires After(steps) == Some(w) && c in w.cs && w.cs[c] == Container(Ready, Some([p]), false, [p])
    requires w.writer.None? && w.readers == {}
    requires w'.cs == w.cs[c := Container(Starting([p]), Some([p]), false, [])] && w'.open == w.open - {p}
    requires w'.bound == w.bound && w'.leaked == w.leaked && w'.writer.None? && w'.readers == {c}
    ensures After(s) == Some(w')
    ensures ReservedRun(steps) ==> ReservedRun(s)
  {
    var w1 := With(w, c, Container(Starting([]), Some([p]), false, [p])).(readers := {c});
    s := Extend(steps, w, BeginStart(c), w1);
    var none: seq<Port> := [];
    assert none + [p] == [p] && [p][1..] == none;
    s := Extend(s, w1, ReleaseOne(c), w');
  }

  /** A container that was started and stopped again: its bindings stay, its port is free. */
  lemma ReachStopped(p: Port, w: World) returns (s: seq<Step>)
    requires w == World(map[1 := Container(Ready, Some([p]), false, [])], {}, {}, {}, None, {})
    ensures After(s) == Some(w) && ReservedRun(s)
  {
    var w1 := World(map[1 := Container(Ready, Some([p]), false, [p])], {p}, {}, {}, None, {});
    var w2 := World(map[1 := Container(Starting([p]), Some([p]), false, [])], {}, {}, {}, None, {1});
    var w3 := World(map[1 := Container(Ready, Some([p]), true, [])], {}, {p}, {}, None, {});
    assert Ports([p]) == {p};
    s := ReachCreated([], INITIAL, 1, p, w1);
    s := ReachWindow(s, w1, 1, p, w2);
    s := Extend(s, w2, DockerStarts(1), w3);
    s := Extend(s, w3, StopContainer(1), w);
  }

  /** Restarting a stopped container holds no listeners, and read locks do not exclude each other: while
      another container is in its release window with the port, the restart is contested, and goes wrong. */
  lemma RestartCanSteal() returns (steps: seq<Step>, more: seq<Step>)
    ensures ReservedRun(steps) && Contested(After(steps).value, 1)
    ensures 2 in After(steps).value.cs && Frees(After(steps).value.cs[2], 26657)
    ensures more == steps + [BeginStart(1)] || more == steps + [BeginStart(1)] + [DockerStarts(1)]
    ensures After(more).Some? && Unsafe(After(more).value)
  {
    var p := 26657;
    var stopped := Container(Ready, Some([p]), false, []);
    var starting := Container(Starting([p]), Some([p]), false, []);
    var w4 := World(map[1 := stopped], {}, {}, {}, None, {});
    var w5 := World(map[1 := stopped, 2 := Container(Ready, Some([p]), false, [p])], {p}, {}, {}, None, {});
    var w6 := World(map[1 := stopped, 2 := starting], {}, {}, {}, None, {2});
    steps := ReachStopped(p, w4);
    steps := ReachCreated(steps, w4, 2, p, w5);
    steps := ReachWindow(steps, w5, 2, p, w6);
    assert Frees(w6.cs[2], p) && Stakes(w6.cs[2], p);
    assert p in Bindings(w6.cs[1]) && Rivalled(w6, 1, p);
    more := ContestedRunGoesWrong(steps, 1);
  }

  /* ---------- leaks ---------- */

  /** CreateContainer is not called again while an earlier reservation is still unused. */
  ghost predicate CreateIsClean(w: World, step: Step) {
    step.BeginCreate? && step.c in w.cs ==> w.cs[step.c].held == []
  }

  ghost predicate CleanRun(steps: seq<Step>) {
    After(steps).Some? &&
    (steps != [] ==>
       && CleanRun(steps[..|steps| - 1])
       && CreateIsClean(After(steps[..|steps| - 1]).value, steps[|steps| - 1]))
  }

  /** A new reservation is stored over one that is still unused. */
  ghost predicate Overwrites(w: World, step: Step) {
    step.PortsGenerated? && step.c in w.cs && w.cs[step.c].held != []
  }

  ghost predicate NeverOverwrites(steps: seq<Step>) {
    steps != [] ==>
      && NeverOverwrites(steps[..|steps| - 1])
      && (After(steps[..|steps| - 1]).Some? ==> !Overwrites(After(steps[..|steps| - 1]).value, steps[|steps| - 1]))
  }

  lemma StepLeaksExactly(w: World, step: Step)
    requires Enabled(w, step)
    ensures Apply(w, step).leaked == {} <==> w.leaked == {} && !Overwrites(w, step)
  {
    if Overwrites(w, step) {
      assert w.cs[step.c].held[0] in Ports(w.cs[step.c].held);
    }
  }

  /** Over all runs: a listener is lost if and only if some reservation was stored over an unused one. */
  lemma {:induction false} LeaksExactly(steps: seq<Step>)
    requires After(steps).Some?
    ensures After(steps).value.leaked == {} <==> NeverOverwrites(steps)
  {
    if steps != [] {
      LeaksExactly(steps[..|steps| - 1]);
      StepLeaksExactly(After(steps[..|steps| - 1]).value, steps[|steps| - 1]);
    }
  }

  ghost predicate AllocatesClean(w: World) {
    forall c :: c in w.cs && (w.cs[c].pc.Allocating? || w.cs[c].pc.Opening?) ==> w.cs[c].held == []
  }

  lemma CleanStepAllocatesClean(w: World, step: Step)
    requires AllocatesClean(w) && Enabled(w, step) && CreateIsClean(w, step)
    ensures AllocatesClean(Apply(w, step)) && !Overwrites(w, step)
  {
  }

  lemma {:induction false} CleanRunAllocatesClean(steps: seq<Step>)
    requires CleanRun(steps)
    ensures AllocatesClean(After(steps).value) && NeverOverwrites(steps)
  {
    if steps != [] {
      CleanRunAllocatesClean(steps[..|steps| - 1]);
      CleanStepAllocatesClean(After(steps[..|steps| - 1]).value, steps[|steps| - 1]);
    }
  }

  /** So nothing is lost when no create is begun over an unused reservation. */
  lemma CleanRunLeaksNothing(steps: seq<Step>)
    requires CleanRun(steps)
    ensures After(steps).value.leaked == {} && AllocatesClean(After(steps).value)
  {
    CleanRunAllocatesClean(steps);
    LeaksExactly(steps);
  }

  /** An idle lifecycle that holds listeners is not running, and if its container exists they are for
      exactly the container's bindings. */
  ghost predicate AwaitsStart(k: Container) {
    !k.up && (k.docker.Some? ==> k.held == Bindings(k))
  }

  /** In a clean run every open listener belongs to exactly one lifecycle; when all are between calls,
      it is a reservation that awaits its start. */
  lemma EveryListenerHasOneOwner(steps: seq<Step>, p: Port)
    requires CleanRun(steps) && p in After(steps).value.open
    ensures var w := After(steps).value;
      exists c :: c in w.cs && Opens(w.cs[c], p) && (forall d :: d in w.cs && Opens(w.cs[d], p) ==> d == c)
                  && (w.cs[c].pc.Ready? ==> p in w.cs[c].held && AwaitsStart(w.cs[c]))
  {
    CleanRunLeaksNothing(steps);
    RunKeepsInv(steps);
    var w := After(steps).value;
    var c :| c in w.cs && Opens(w.cs[c], p);
    forall d | d in w.cs && d != c ensures !Opens(w.cs[d], p) {
      assert Apart(w.cs[c], w.cs[d]);
    }
  }

  /** No container is removed while its listeners are still open; `RemoveContainer` does not close them. */
  ghost predicate RemoveIsClean(w: World, step: Step) {
    step.RemoveContainer? && step.c in w.cs && (w.cs[step.c].pc.Ready? || w.cs[step.c].pc.Starting?) ==> w.cs[step.c].held == []
  }

  ghost predicate TidyRun(steps: seq<Step>) {
    CleanRun(steps) &&
    (steps != [] ==>
       && TidyRun(steps[..|steps| - 1])
       && RemoveIsClean(After(steps[..|steps| - 1]).value, steps[|steps| - 1]))
  }

  /** Listeners outside of creation are those of a created container. */
  ghost predicate HeldForCreated(w: World) {
    forall c :: c in w.cs && w.cs[c].held != [] && !w.cs[c].pc.Creating? ==>
      (w.cs[c].pc.Ready? || w.cs[c].pc.Starting?) && w.cs[c].docker.Some?
  }

  lemma TidyStepHolds(w: World, step: Step)
    requires HeldForCreated(w) && Enabled(w, step) && CreateIsClean(w, step) && RemoveIsClean(w, step)
    ensures HeldForCreated(Apply(w, step))
  {
  }

  lemma {:induction false} TidyRunHolds(steps: seq<Step>)
    requires TidyRun(steps)
    ensures HeldForCreated(After(steps).value)
  {
    if steps != [] {
      TidyRunHolds(steps[..|steps| - 1]);
      TidyStepHolds(After(steps[..|steps| - 1]).value, steps[|steps| - 1]);
    }
  }

  lemma DirtyRemovalShows(w: World, step: Step)
    requires Enabled(w, step) && !RemoveIsClean(w, step)
    ensures !HeldForCreated(Apply(w, step))
  {
    var k' := Apply(w, step).cs[step.c];
    assert k'.held != [] && k'.docker.None?;
  }

  ghost predicate AlwaysHeldForCreated(steps: seq<Step>) {
    && After(steps).Some? && HeldForCreated(After(steps).value)
    && (steps != [] ==> AlwaysHeldForCreated(steps[..|steps| - 1]))
  }

  /** In clean runs, listeners outside of creation are always those of a created container if and only
      if no container is removed over open listeners. */
  lemma {:induction false} TidyExactly(steps: seq<Step>)
    requires CleanRun(steps)
    ensures TidyRun(steps) <==> AlwaysHeldForCreated(steps)
  {
    if steps != [] {
      var front, last := steps[..|steps| - 1], steps[|steps| - 1];
      TidyExactly(front);
      if TidyRun(steps) {
        TidyRunHolds(steps);
      } else if TidyRun(front) {
        DirtyRemovalShows(After(front).value, last);
      }
    }
  }

  /** Removing a container closes none of its listeners. */
  lemma RemovalClosesNothing(w: World, c: nat, p: Port)
    requires Inv(w) && Enabled(w, RemoveContainer(c)) && p in w.cs[c].held
    ensures var w' := Apply(w, RemoveContainer(c));
      w'.open == w.open && p in w'.open && w'.cs[c].held == w.cs[c].held && w'.cs[c].docker.None?
  {
    assert Opens(w.cs[c], p);
  }

  /** A container removed before its start leaves its listener open: in a run without a repeated create,
      every call has returned and no container exists. */
  lemma RemovedKeepsListeners(p: Port) returns (steps: seq<Step>)
    ensures CleanRun(steps) && !TidyRun(steps) && p in After(steps).value.open
    ensures forall c :: c in After(steps).value.cs ==>
              After(steps).value.cs[c].pc.Ready? && After(steps).value.cs[c].docker.None?
  {
    var w1 := World(map[1 := Container(Ready, Some([p]), false, [p])], {p}, {}, {}, None, {});
    var w2 := World(map[1 := Container(Ready, None, false, [p])], {p}, {}, {}, None, {});
    steps := ReachCreated([], INITIAL, 1, p, w1);
    steps := Extend(steps, w1, RemoveContainer(1), w2);
    assert w2.cs[1].held != [];
    if TidyRun(steps) {
      TidyRunHolds(steps);
      assert false;
    }
  }

  /** When no container is removed over open listeners either, every listener between calls is the
      reservation of exactly one container that was created and not started. */
  lemma IdleListenersAreReservations(steps: seq<Step>, p: Port)
    requires TidyRun(steps) && p in After(steps).value.open
    requires forall c :: c in After(steps).value.cs ==> After(steps).value.cs[c].pc.Ready?
    ensures var w := After(steps).value;
      exists c :: c in w.cs && w.cs[c].docker.Some? && !w.cs[c].up && w.cs[c].held == Bindings(w.cs[c]) && p in w.cs[c].held
                  && forall d :: d in w.cs && Opens(w.cs[d], p) ==> d == c
  {
    EveryListenerHasOneOwner(steps, p);
    TidyRunHolds(steps);
  }
}
