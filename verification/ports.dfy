/**
 Host-port reservation (dockerutil/ports.go, dockerutil/container_lifecycle.go): listeners hold ports
 from allocation until the container that was promised them starts; a read-write mutex keeps allocators
 out of the window in which a starter has let its listeners go.
*/
module PortReservation {
  import opened Outcomes
  import opened Sequences

  type Port = nat

  function Ports(s: seq<Port>): set<Port> { set p | p in s }

  /** Where the goroutine that drives one ContainerLifecycle stands. */
  datatype Pc =
    | Ready
    | Allocating(todo: nat, got: seq<Port>)     // GeneratePortBindings, mutex not held
    | Opening(todo: nat, got: seq<Port>)        // inside openListenerOnFreePort, write lock held
    | Closing(left: seq<Port>)                  // an error path closing listeners one by one
    | Creating                                  // waiting for docker's answer to ContainerCreate
    | Starting(freed: seq<Port>)                // StartContainer, read lock held

  /** `docker` is the created container's port bindings, `held` the open preStartListeners. */
  datatype Container = Container(pc: Pc, docker: Option<seq<Port>>, up: bool, held: seq<Port>)

  /** `open` and `bound` are the kernel's view: ports with an open listener of this process, and ports
      bound by a running container of this process. `leaked` listeners are no longer referenced. */
  datatype World = World(
    cs: map<nat, Container>,
    open: set<Port>,
    bound: set<Port>,
    leaked: set<Port>,
    writer: Option<nat>,
    readers: set<nat>)

  datatype Step =
    | NewLifecycle(c: nat)
    | BeginCreate(c: nat, n: nat)               // CreateContainer for n exposed ports
    | TakeWriteLock(c: nat)
    | ListenOk(c: nat, p: Port)                 // the kernel hands out p; the lock is released
    | ListenFails(c: nat)
    | PortsGenerated(c: nat)
    | CloseOneOnError(c: nat)
    | DockerCreates(c: nat)
    | DockerRefusesCreate(c: nat)
    | BeginStart(c: nat)                        // RLock
    | ReleaseOne(c: nat)
    | DockerStarts(c: nat)
    | DockerFailsStart(c: nat)
    | StopContainer(c: nat)
    | RemoveContainer(c: nat)

  function Bindings(k: Container): seq<Port> { if k.docker.Some? then k.docker.value else [] }

  function PcOpen(pc: Pc): seq<Port> {
    match pc
    case Allocating(_, got) => got
    case Opening(_, got) => got
    case Closing(left) => left
    case _ => []
  }

  /** The lifecycle still refers to an open listener on p. */
  predicate Opens(k: Container, p: Port) { p in k.held || p in PcOpen(k.pc) }

  /** p was let go of by a starter and docker has not been given it yet. */
  predicate Frees(k: Container, p: Port) { k.pc.Starting? && p in k.pc.freed }

  predicate Binds(k: Container, p: Port) { k.up && p in Bindings(k) }

  predicate Claims(k: Container, p: Port) { Opens(k, p) || Frees(k, p) || Binds(k, p) }

  function InUse(w: World): set<Port> { w.open + w.bound }

  predicate Enabled(w: World, step: Step) {
    match step
    case NewLifecycle(c) => c !in w.cs
    case BeginCreate(c, n) => c in w.cs && w.cs[c].pc.Ready?
    case TakeWriteLock(c) =>
      c in w.cs && w.cs[c].pc.Allocating? && w.cs[c].pc.todo > 0 && w.writer.None? && w.readers == {}
    case ListenOk(c, p) => c in w.cs && w.cs[c].pc.Opening? && w.cs[c].pc.todo > 0 && p !in InUse(w)
    case ListenFails(c) => c in w.cs && w.cs[c].pc.Opening?
    case PortsGenerated(c) => c in w.cs && w.cs[c].pc.Allocating? && w.cs[c].pc.todo == 0
    case CloseOneOnError(c) => c in w.cs && w.cs[c].pc.Closing?
    case DockerCreates(c) => c in w.cs && w.cs[c].pc.Creating? && w.cs[c].docker.None?
    case DockerRefusesCreate(c) => c in w.cs && w.cs[c].pc.Creating?
    case BeginStart(c) => c in w.cs && w.cs[c].pc.Ready? && w.writer.None?
    case ReleaseOne(c) => c in w.cs && w.cs[c].pc.Starting? && w.cs[c].held != []
    case DockerStarts(c) =>
      && c in w.cs && w.cs[c].pc.Starting? && w.cs[c].held == [] && w.cs[c].docker.Some?
      && (!w.cs[c].up ==> Ports(Bindings(w.cs[c])) !! InUse(w))
    case DockerFailsStart(c) => c in w.cs && w.cs[c].pc.Starting? && w.cs[c].held == []
    case StopContainer(c) => c in w.cs && w.cs[c].up
    case RemoveContainer(c) => c in w.cs && w.cs[c].docker.Some?
  }

  function With(w: World, c: nat, k: Container): World { w.(cs := w.cs[c := k]) }

  function Apply(w: World, step: Step): World
    requires Enabled(w, step)
  {
    match step
    case NewLifecycle(c) => With(w, c, Container(Ready, None, false, []))
    case BeginCreate(c, n) => With(w, c, w.cs[c].(pc := Allocating(n, [])))
    case TakeWriteLock(c) =>
      var pc := w.cs[c].pc;
      With(w, c, w.cs[c].(pc := Opening(pc.todo, pc.got))).(writer := Some(c))
    case ListenOk(c, p) =>
      var pc := w.cs[c].pc;
      With(w, c, w.cs[c].(pc := Allocating(pc.todo - 1, pc.got + [p]))).(writer := None, open := w.open + {p})
    case ListenFails(c) => With(w, c, w.cs[c].(pc := Closing(w.cs[c].pc.got))).(writer := None)
    case PortsGenerated(c) =>
      With(w, c, w.cs[c].(pc := Creating, held := w.cs[c].pc.got)).(leaked := w.leaked + Ports(w.cs[c].held))
    case CloseOneOnError(c) =>
      var left := w.cs[c].pc.left;
      if left == [] then With(w, c, w.cs[c].(pc := Ready))
      else With(w, c, w.cs[c].(pc := Closing(left[1..]))).(open := w.open - {left[0]})
    case DockerCreates(c) => With(w, c, w.cs[c].(pc := Ready, docker := Some(w.cs[c].held), up := false))
    case DockerRefusesCreate(c) => With(w, c, w.cs[c].(pc := Closing(w.cs[c].held), held := []))
    case BeginStart(c) => With(w, c, w.cs[c].(pc := Starting([]))).(readers := w.readers + {c})
    case ReleaseOne(c) =>
      var p := w.cs[c].held[0];
      With(w, c, w.cs[c].(pc := Starting(w.cs[c].pc.freed + [p]), held := w.cs[c].held[1..])).(open := w.open - {p})
    case DockerStarts(c) =>
      With(w, c, w.cs[c].(pc := Ready, up := true))
        .(readers := w.readers - {c}, bound := w.bound + Ports(Bindings(w.cs[c])))
    case DockerFailsStart(c) => With(w, c, w.cs[c].(pc := Ready)).(readers := w.readers - {c})
    case StopContainer(c) => With(w, c, w.cs[c].(up := false)).(bound := w.bound - (if w.cs[c].up then Ports(Bindings(w.cs[c])) else {}))
    case RemoveContainer(c) =>
      With(w, c, w.cs[c].(docker := None, up := false)).(bound := w.bound - (if w.cs[c].up then Ports(Bindings(w.cs[c])) else {}))
  }

  const INITIAL: World := World(map[], {}, {}, {}, None, {})

  /* ---------- the invariant ---------- */

  predicate Disjoint(s: seq<Port>, t: seq<Port>) {
    forall p :: p in s ==> p !in t
  }

  /** What holds of one lifecycle on its own. */
  predicate LocalInv(k: Container) {
    && NoRepeats(k.held) && NoRepeats(PcOpen(k.pc)) && Disjoint(k.held, PcOpen(k.pc))
    && (k.pc.Starting? ==> NoRepeats(k.pc.freed) && Disjoint(k.pc.freed, k.held))
    && (k.up ==> k.docker.Some?)
    && (k.up && !k.pc.Creating? ==> k.held == [] && (k.pc.Starting? ==> k.pc.freed == []))
    && (!k.pc.Creating? && k.docker.Some? ==> Reserved(k))
  }

  /** An open reservation is for exactly the bindings docker was given; without one the container
      is running, or its start was already attempted. */
  predicate Reserved(k: Container) {
    if k.pc.Starting? then k.pc.freed + k.held == Bindings(k) || (k.pc.freed == [] && k.held == [])
    else k.held == Bindings(k) || k.held == []
  }

  predicate LockInv(w: World) {
    && (forall c :: c in w.cs ==> (w.cs[c].pc.Opening? <==> w.writer == Some(c)))
    && (forall c :: c in w.cs ==> (w.cs[c].pc.Starting? <==> c in w.readers))
    && (w.writer.Some? ==> w.readers == {} && w.writer.value in w.cs)
    && w.readers <= w.cs.Keys
  }

  /** The kernel's view is what the lifecycles hold, plus the leaked listeners. */
  ghost predicate KernelInv(w: World) {
    && (forall c, p :: c in w.cs && Opens(w.cs[c], p) ==> p in w.open)
    && (forall c, p :: c in w.cs && Binds(w.cs[c], p) ==> p in w.bound)
    && w.leaked <= w.open
    && (forall p :: p in w.open ==> p in w.leaked || exists c :: c in w.cs && Opens(w.cs[c], p))
    && (forall p :: p in w.bound ==> exists c :: c in w.cs && Binds(w.cs[c], p))
  }

  /** What one container keeps for itself against another, whatever the run. */
  ghost predicate Apart(k: Container, l: Container) {
    forall p: Port ::
      && (Opens(k, p) ==> !Claims(l, p))
      && (Frees(k, p) ==> !Opens(l, p) && !Frees(l, p))
      && (Binds(k, p) ==> !Opens(l, p) && !Binds(l, p))
  }

  ghost predicate Exclusive(w: World) {
    && (forall c, d :: c in w.cs && d in w.cs && c != d ==> Apart(w.cs[c], w.cs[d]))
    && (forall c, p :: c in w.cs && Claims(w.cs[c], p) ==> p !in w.leaked)
    && (forall c, p :: c in w.cs && Opens(w.cs[c], p) ==> !Binds(w.cs[c], p))
  }

  ghost predicate Inv(w: World) {
    && (forall c :: c in w.cs ==> LocalInv(w.cs[c]))
    && LockInv(w) && KernelInv(w) && Exclusive(w)
  }

  /* ---------- every step keeps the invariant ---------- */

  /** k' claims no more than k, and listens or is bound where k did. */
  ghost predicate Shrinks(k: Container, k': Container) {
    forall p: Port ::
      && (Opens(k', p) ==> Opens(k, p))
      && (Frees(k', p) ==> Opens(k, p) || Frees(k, p))
      && (Binds(k', p) ==> Binds(k, p))
  }

  /** w' is w with c replaced by k' and its lost listeners closed or leaked, its lost bindings free. */
  ghost predicate Shrunk(w: World, c: nat, k': Container, w': World) {
    && c in w.cs && w'.cs == w.cs[c := k']
    && (forall p :: p in w'.open <==> p in w.open && (Opens(w.cs[c], p) && !Opens(k', p) ==> p in w'.leaked))
    && (forall p :: p in w'.leaked ==> p in w.leaked || (Opens(w.cs[c], p) && !Opens(k', p) && !Frees(k', p)))
    && w.leaked <= w'.leaked
    && (forall p :: p in w'.bound <==> p in w.bound && (Binds(w.cs[c], p) ==> Binds(k', p)))
  }

  /** Moving one lifecycle, with the mutex following it. */
  lemma LocksFollow(w: World, c: nat, k': Container, w': World)
    requires LockInv(w) && w'.cs == w.cs[c := k']
    requires w'.writer == if k'.pc.Opening? then Some(c) else if w.writer == Some(c) then None else w.writer
    requires w'.readers == if k'.pc.Starting? then w.readers + {c} else w.readers - {c}
    requires k'.pc.Opening? ==> w.writer == Some(c) || (w.writer.None? && w.readers == {})
    requires k'.pc.Starting? ==> c in w.readers || w.writer.None?
    ensures LockInv(w')
  {
  }

  lemma StepKeepsLocks(w: World, step: Step)
    requires LockInv(w) && Enabled(w, step)
    ensures LockInv(Apply(w, step))
  {
    LocksFollow(w, step.c, Apply(w, step).cs[step.c], Apply(w, step));
  }

  lemma ShrinkExclusive(w: World, c: nat, k': Container, w': World)
    requires Inv(w) && Shrunk(w, c, k', w') && Shrinks(w.cs[c], k')
    ensures Exclusive(w')
  {
    var k := w.cs[c];
    forall d | d in w.cs && d != c ensures Apart(k', w.cs[d]) && Apart(w.cs[d], k') {
      assert Apart(k, w.cs[d]) && Apart(w.cs[d], k);
    }
  }

  lemma ShrinkKernel(w: World, c: nat, k': Container, w': World)
    requires Inv(w) && Shrunk(w, c, k', w') && Shrinks(w.cs[c], k')
    ensures KernelInv(w')
  {
    forall d, p | d in w'.cs && Opens(w'.cs[d], p) ensures p in w'.open {
      if d != c {
        assert Apart(w.cs[d], w.cs[c]);
      }
    }
    forall d, p | d in w'.cs && Binds(w'.cs[d], p) ensures p in w'.bound {
      if d != c {
        assert Apart(w.cs[d], w.cs[c]);
      }
    }
    forall p | p in w'.open ensures p in w'.leaked || exists d :: d in w'.cs && Opens(w'.cs[d], p) {
      if p !in w'.leaked {
        var d :| d in w.cs && Opens(w.cs[d], p);
        assert Opens(w'.cs[d], p);
      }
    }
    forall p | p in w'.bound ensures exists d :: d in w'.cs && Binds(w'.cs[d], p) {
      var d :| d in w.cs && Binds(w.cs[d], p);
      assert Binds(w'.cs[d], p);
    }
  }

  /** The steps at which a lifecycle gives something up, or only moves on. */
  lemma ShrinkKeepsInv(w: World, c: nat, k': Container, w': World)
    requires Inv(w) && Shrunk(w, c, k', w') && Shrinks(w.cs[c], k')
    requires LocalInv(k') && LockInv(w')
    ensures Inv(w')
  {
    ShrinkExclusive(w, c, k', w');
    ShrinkKernel(w, c, k', w');
  }

  /** A fresh port is claimed by nobody: no starter is in its release window while the write lock is held. */
  lemma FreshIsUnclaimed(w: World, c: nat, p: Port)
    requires Inv(w) && Enabled(w, ListenOk(c, p))
    ensures forall d :: d in w.cs ==> !Claims(w.cs[d], p)
    ensures p !in w.leaked
  {
  }

  /** w' is w with a listener of c opened on p. */
  ghost predicate Opened(w: World, c: nat, k': Container, p: Port, w': World) {
    && c in w.cs && w'.cs == w.cs[c := k']
    && (forall q :: Opens(k', q) <==> Opens(w.cs[c], q) || q == p)
    && (forall q :: Frees(k', q) <==> Frees(w.cs[c], q))
    && (forall q :: Binds(k', q) <==> Binds(w.cs[c], q))
    && w'.open == w.open + {p} && w'.bound == w.bound && w'.leaked == w.leaked
  }

  lemma OpenedExclusive(w: World, c: nat, k': Container, p: Port, w': World)
    requires Inv(w) && Opened(w, c, k', p, w')
    requires p !in w.leaked && forall d :: d in w.cs ==> !Claims(w.cs[d], p)
    ensures Exclusive(w')
  {
    forall d | d in w.cs && d != c ensures Apart(k', w.cs[d]) && Apart(w.cs[d], k') {
      assert Apart(w.cs[c], w.cs[d]) && Apart(w.cs[d], w.cs[c]);
    }
  }

  lemma OpenedKernel(w: World, c: nat, k': Container, p: Port, w': World)
    requires KernelInv(w) && Opened(w, c, k', p, w')
    ensures KernelInv(w')
  {
    forall q | q in w'.open ensures q in w'.leaked || exists d :: d in w'.cs && Opens(w'.cs[d], q) {
      if q == p {
        assert Opens(w'.cs[c], q);
      } else if q !in w.leaked {
        var d :| d in w.cs && Opens(w.cs[d], q);
        assert Opens(w'.cs[d], q);
      }
    }
    forall q | q in w'.bound ensures exists d :: d in w'.cs && Binds(w'.cs[d], q) {
      var d :| d in w.cs && Binds(w.cs[d], q);
      assert Binds(w'.cs[d], q);
    }
  }

  lemma ListenLocal(w: World, c: nat, p: Port)
    requires Enabled(w, ListenOk(c, p)) && LocalInv(w.cs[c]) && !Claims(w.cs[c], p)
    ensures LocalInv(Apply(w, ListenOk(c, p)).cs[c])
    ensures Opened(w, c, Apply(w, ListenOk(c, p)).cs[c], p, Apply(w, ListenOk(c, p)))
  {
  }

  lemma ListenKeepsInv(w: World, c: nat, p: Port)
    requires Inv(w) && Enabled(w, ListenOk(c, p))
    ensures Inv(Apply(w, ListenOk(c, p)))
  {
    var w' := Apply(w, ListenOk(c, p));
    FreshIsUnclaimed(w, c, p);
    ListenLocal(w, c, p);
    OpenedExclusive(w, c, w'.cs[c], p, w');
    OpenedKernel(w, c, w'.cs[c], p, w');
    StepKeepsLocks(w, ListenOk(c, p));
  }

  lemma DockerStartExclusive(w: World, c: nat)
    requires Inv(w) && Enabled(w, DockerStarts(c))
    ensures Exclusive(Apply(w, DockerStarts(c)))
  {
    var k, k' := w.cs[c], Apply(w, DockerStarts(c)).cs[c];
    forall p | Binds(k', p) ensures Binds(k, p) || (p !in w.open && p !in w.bound) {
      assert p in Ports(Bindings(k));
    }
    forall d | d in w.cs && d != c ensures Apart(k', w.cs[d]) && Apart(w.cs[d], k') {
      assert Apart(k, w.cs[d]) && Apart(w.cs[d], k);
    }
  }

  lemma DockerStartKernel(w: World, c: nat)
    requires Inv(w) && Enabled(w, DockerStarts(c))
    ensures KernelInv(Apply(w, DockerStarts(c)))
  {
    var w' := Apply(w, DockerStarts(c));
    forall q | q in w'.open ensures q in w'.leaked || exists d :: d in w'.cs && Opens(w'.cs[d], q) {
      if q !in w.leaked {
        var d :| d in w.cs && Opens(w.cs[d], q);
        assert Opens(w'.cs[d], q);
      }
    }
    forall q | q in w'.bound ensures exists d :: d in w'.cs && Binds(w'.cs[d], q) {
      if q in w.bound {
        var d :| d in w.cs && Binds(w.cs[d], q);
        assert Binds(w'.cs[d], q);
      } else {
        assert Binds(w'.cs[c], q);
      }
    }
  }

  lemma DockerStartKeepsInv(w: World, c: nat)
    requires Inv(w) && Enabled(w, DockerStarts(c))
    ensures Inv(Apply(w, DockerStarts(c)))
  {
    DockerStartExclusive(w, c);
    DockerStartKernel(w, c);
  }

  lemma NewKernel(w: World, c: nat)
    requires KernelInv(w) && c !in w.cs
    ensures KernelInv(Apply(w, NewLifecycle(c)))
  {
    var w' := Apply(w, NewLifecycle(c));
    forall q | q in w'.open ensures q in w'.leaked || exists d :: d in w'.cs && Opens(w'.cs[d], q) {
      if q !in w.leaked {
        var d :| d in w.cs && Opens(w.cs[d], q);
        assert Opens(w'.cs[d], q);
      }
    }
    forall q | q in w'.bound ensures exists d :: d in w'.cs && Binds(w'.cs[d], q) {
      var d :| d in w.cs && Binds(w.cs[d], q);
      assert Binds(w'.cs[d], q);
    }
  }

  lemma NewExclusive(w: World, c: nat)
    requires Exclusive(w) && c !in w.cs
    ensures Exclusive(Apply(w, NewLifecycle(c)))
  {
  }

  lemma NewKeepsInv(w: World, c: nat)
    requires Inv(w) && Enabled(w, NewLifecycle(c))
    ensures Inv(Apply(w, NewLifecycle(c)))
  {
    NewKernel(w, c);
    NewExclusive(w, c);
    StepKeepsLocks(w, NewLifecycle(c));
  }

  /** The two list facts behind closing listeners one at a time. */
  lemma Uncons(s: seq<Port>)
    requires s != [] && NoRepeats(s)
    ensures s == [s[0]] + s[1..] && NoRepeats(s[1..])
    ensures forall p :: p in s[1..] <==> p in s && p != s[0]
  {
  }

  lemma CloseLocal(k: Container)
    requires LocalInv(k) && k.pc.Closing? && k.pc.left != []
    ensures var k' := k.(pc := Closing(k.pc.left[1..]));
      LocalInv(k') && Shrinks(k, k') && forall p :: Opens(k', p) <==> Opens(k, p) && p != k.pc.left[0]
  {
    Uncons(k.pc.left);
  }

  lemma CloseKeepsInv(w: World, c: nat)
    requires Inv(w) && Enabled(w, CloseOneOnError(c))
    ensures Inv(Apply(w, CloseOneOnError(c)))
  {
    var w' := Apply(w, CloseOneOnError(c));
    if w.cs[c].pc.left != [] {
      CloseLocal(w.cs[c]);
    }
    ShrinkKeepsInv(w, c, w'.cs[c], w');
  }

  lemma ReleaseLocal(k: Container)
    requires LocalInv(k) && k.pc.Starting? && k.held != []
    ensures var k' := k.(pc := Starting(k.pc.freed + [k.held[0]]), held := k.held[1..]);
      && LocalInv(k') && Shrinks(k, k') && k'.pc.freed + k'.held == k.pc.freed + k.held
      && (forall p :: Opens(k', p) <==> Opens(k, p) && p != k.held[0]) && Frees(k', k.held[0])
  {
    Uncons(k.held);
    var freed := k.pc.freed + [k.held[0]];
    assert freed + k.held[1..] == k.pc.freed + k.held;
    assert k.held[0] in k.held;
    forall i | 0 <= i < |k.pc.freed| ensures freed[i] != k.held[0] {
      assert k.pc.freed[i] in k.pc.freed;
    }
    assert freed[|k.pc.freed|] == k.held[0];
  }

  lemma ReleaseKeepsInv(w: World, c: nat)
    requires Inv(w) && Enabled(w, ReleaseOne(c))
    ensures Inv(Apply(w, ReleaseOne(c)))
  {
    var w' := Apply(w, ReleaseOne(c));
    ReleaseLocal(w.cs[c]);
    ShrinkKeepsInv(w, c, w'.cs[c], w');
  }

  lemma HandOverKeepsInv(w: World, c: nat)
    requires Inv(w) && Enabled(w, PortsGenerated(c))
    ensures Inv(Apply(w, PortsGenerated(c)))
  {
    var w' := Apply(w, PortsGenerated(c));
    var k, k' := w.cs[c], w'.cs[c];
    ShrinkKeepsInv(w, c, k', w');
  }

  lemma RefuseKeepsInv(w: World, c: nat)
    requires Inv(w) && Enabled(w, DockerRefusesCreate(c))
    ensures Inv(Apply(w, DockerRefusesCreate(c)))
  {
    var w' := Apply(w, DockerRefusesCreate(c));
    var k, k' := w.cs[c], w'.cs[c];
    ShrinkKeepsInv(w, c, k', w');
  }

  /** Steps that only move on. */
  lemma MoveKeepsInv(w: World, step: Step)
    requires Inv(w) && Enabled(w, step)
    requires step.BeginCreate? || step.TakeWriteLock? || step.ListenFails? || step.DockerCreates? || step.BeginStart?
    ensures Inv(Apply(w, step))
  {
    var w' := Apply(w, step);
    var k, k' := w.cs[step.c], w'.cs[step.c];
    assert k'.held == k.held && PcOpen(k'.pc) == PcOpen(k.pc) && (Starting([]) == k'.pc || !k'.pc.Starting?);
    assert forall p :: (Opens(k', p) <==> Opens(k, p)) && !Frees(k', p) && (Binds(k', p) <==> Binds(k, p));
    StepKeepsLocks(w, step);
    ShrinkKeepsInv(w, step.c, w'.cs[step.c], w');
  }

  lemma FailedStartKeepsInv(w: World, c: nat)
    requires Inv(w) && Enabled(w, DockerFailsStart(c))
    ensures Inv(Apply(w, DockerFailsStart(c)))
  {
    var w' := Apply(w, DockerFailsStart(c));
    StepKeepsLocks(w, DockerFailsStart(c));
    ShrinkKeepsInv(w, c, w'.cs[c], w');
  }

  /** Steps that drop a container's bindings. */
  lemma DropKeepsInv(w: World, step: Step)
    requires Inv(w) && Enabled(w, step)
    requires step.StopContainer? || step.RemoveContainer?
    ensures Inv(Apply(w, step))
  {
    var w' := Apply(w, step);
    var k, k' := w.cs[step.c], w'.cs[step.c];
    StepKeepsLocks(w, step);
    assert forall p :: (Opens(k', p) <==> Opens(k, p)) && (Frees(k', p) <==> Frees(k, p)) && !Binds(k', p);
    assert k.up ==> forall p :: p in Ports(Bindings(k)) <==> Binds(k, p);
    ShrinkKeepsInv(w, step.c, k', w');
  }

  lemma StepKeepsInv(w: World, step: Step)
    requires Inv(w) && Enabled(w, step)
    ensures Inv(Apply(w, step))
  {
    match step
    case NewLifecycle(c) => NewKeepsInv(w, c);
    case ListenOk(c, p) => ListenKeepsInv(w, c, p);
    case PortsGenerated(c) => HandOverKeepsInv(w, c);
    case CloseOneOnError(c) => CloseKeepsInv(w, c);
    case DockerRefusesCreate(c) => RefuseKeepsInv(w, c);
    case ReleaseOne(c) => ReleaseKeepsInv(w, c);
    case DockerStarts(c) => DockerStartKeepsInv(w, c);
    case DockerFailsStart(c) => FailedStartKeepsInv(w, c);
    case StopContainer(_) => DropKeepsInv(w, step);
    case RemoveContainer(_) => DropKeepsInv(w, step);
    case _ => MoveKeepsInv(w, step);
  }

  /* ---------- runs ---------- */

  /** The world after the given steps, None when one of them was not enabled. */
  ghost function After(steps: seq<Step>): Option<World> {
    if steps == [] then Some(INITIAL)
    else
      match After(steps[..|steps| - 1])
      case None => None
      case Some(w) => if Enabled(w, steps[|steps| - 1]) then Some(Apply(w, steps[|steps| - 1])) else None
  }

  lemma {:induction false} RunKeepsInv(steps: seq<Step>)
    requires After(steps).Some?
    ensures Inv(After(steps).value)
  {
    if steps != [] {
      RunKeepsInv(steps[..|steps| - 1]);
      StepKeepsInv(After(steps[..|steps| - 1]).value, steps[|steps| - 1]);
    }
  }

  /** Whatever the run: an allocator is never given a port that another container listens on, is
      bound to, or has released for its own start. */
  lemma AllocationNeverSteals(steps: seq<Step>, c: nat, p: Port)
    requires After(steps).Some? && Enabled(After(steps).value, ListenOk(c, p))
    ensures var w := After(steps).value;
      p !in w.leaked && forall d :: d in w.cs ==> !Claims(w.cs[d], p)
  {
    RunKeepsInv(steps);
    FreshIsUnclaimed(After(steps).value, c, p);
  }
}
