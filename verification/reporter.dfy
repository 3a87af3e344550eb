/**
 The test reporter (testreporter/reporter.go): senders put messages into one bounded channel, a single
 goroutine writes them out, and `Close` waits for it.
*/
module Reporting {
  import opened Outcomes
  import opened Sequences

  datatype Message = BeginSuite | FinishSuite | Report(text: string)

  const CAPACITY := 256

  /** How far the goroutine that owns the reporter got. */
  datatype Owner = Constructing | Running | Finishing | Closing | Waiting | Returned

  /** `sent` is ghost history: the order in which sends completed. */
  datatype World = World(
    buffer: seq<Message>,
    closed: bool,
    written: seq<Message>,
    writerDone: bool,           // the writer closed the underlying writer and reported back
    owner: Owner,
    sent: seq<Message>)

  const INITIAL := World([], false, [], false, Constructing, [])

  datatype Step =
    | SendBegin                 // the send in NewReporter; no one else has the reporter yet
    | Send(text: string)        // a Track call, from any goroutine
    | CallClose
    | SendFinish
    | CloseChannel
    | WriteOne                  // the writer receives a message and encodes it
    | WriterEnds                // the range over the closed, drained channel ends
    | CloseReturns

  predicate Enabled(w: World, step: Step) {
    match step
    case SendBegin => w.owner.Constructing? && |w.buffer| < CAPACITY
    case Send(_) => !w.owner.Constructing? && !w.closed && |w.buffer| < CAPACITY
    case CallClose => w.owner.Running?
    case SendFinish => w.owner.Finishing? && |w.buffer| < CAPACITY
    case CloseChannel => w.owner.Closing?
    case WriteOne => !w.writerDone && w.buffer != []
    case WriterEnds => !w.writerDone && w.closed && w.buffer == []
    case CloseReturns => w.owner.Waiting? && w.writerDone
  }

  function Put(w: World, m: Message): World {
    w.(buffer := w.buffer + [m], sent := w.sent + [m])
  }

  function Apply(w: World, step: Step): World
    requires Enabled(w, step)
  {
    match step
    case SendBegin => Put(w, BeginSuite).(owner := Running)
    case Send(text) => Put(w, Report(text))
    case CallClose => w.(owner := Finishing)
    case SendFinish => Put(w, FinishSuite).(owner := Closing)
    case CloseChannel => w.(closed := true, owner := Waiting)
    case WriteOne => w.(written := w.written + [w.buffer[0]], buffer := w.buffer[1..])
    case WriterEnds => w.(writerDone := true)
    case CloseReturns => w.(owner := Returned)
  }

  /** The messages of the Track calls among the steps, in send order. */
  function Reports(steps: seq<Step>): seq<Message> {
    if steps == [] then []
    else
      var last := steps[|steps| - 1];
      Reports(steps[..|steps| - 1]) + (if last.Send? then [Report(last.text)] else [])
  }

  ghost function After(steps: seq<Step>): Option<World> {
    if steps == [] then Some(INITIAL)
    else
      match After(steps[..|steps| - 1])
      case None => None
      case Some(w) => if Enabled(w, steps[|steps| - 1]) then Some(Apply(w, steps[|steps| - 1])) else None
  }

  /** The last of the steps is a Track call made after FinishSuite went into the channel. */
  ghost predicate SentLate(steps: seq<Step>) {
    && steps != [] && steps[|steps| - 1].Send?
    && After(steps[..|steps| - 1]).Some? && After(steps[..|steps| - 1]).value.owner.Closing?
  }

  /** The reports that went in ahead of FinishSuite. */
  ghost function Early(steps: seq<Step>): seq<Message> {
    if steps == [] then []
    else
      var last := steps[|steps| - 1];
      Early(steps[..|steps| - 1]) + (if last.Send? && !SentLate(steps) then [Report(last.text)] else [])
  }

  /** The reports behind it. */
  ghost function Late(steps: seq<Step>): seq<Message> {
    if steps == [] then []
    else
      Late(steps[..|steps| - 1]) + (if SentLate(steps) then [Report(steps[|steps| - 1].text)] else [])
  }

  /** No report is sent between FinishSuite and the closing of the channel. */
  ghost predicate NoneLate(steps: seq<Step>) {
    steps != [] ==> NoneLate(steps[..|steps| - 1]) && !SentLate(steps)
  }

  lemma {:induction false} NoneLateExactly(steps: seq<Step>)
    ensures NoneLate(steps) <==> Late(steps) == []
    ensures NoneLate(steps) ==> Early(steps) == Reports(steps)
  {
    if steps != [] {
      NoneLateExactly(steps[..|steps| - 1]);
    }
  }

  /** What was sent when: nothing, or the opening message and reports, then perhaps the closing one
      and what came too late. */
  function Expected(owner: Owner, early: seq<Message>, late: seq<Message>): seq<Message> {
    match owner
    case Constructing => []
    case Running => [BeginSuite] + early
    case Finishing => [BeginSuite] + early
    case _ => [BeginSuite] + early + [FinishSuite] + late
  }

  ghost predicate Inv(w: World) {
    && w.written + w.buffer == w.sent
    && |w.buffer| <= CAPACITY
    && (w.closed <==> w.owner.Waiting? || w.owner.Returned?)
    && (w.writerDone ==> w.closed && w.buffer == [])
    && (w.owner.Returned? ==> w.writerDone)
    && (w.owner.Constructing? ==> w.sent == [])
  }

  lemma StepKeepsInv(w: World, step: Step)
    requires Inv(w) && Enabled(w, step)
    ensures Inv(Apply(w, step))
  {
    if step.WriteOne? {
      assert w.written + [w.buffer[0]] + w.buffer[1..] == w.written + w.buffer;
    }
  }

  /** In every interleaving: what is written, then what is buffered, is what was sent, in send order. */
  lemma {:induction false} RunKeepsInv(steps: seq<Step>)
    requires After(steps).Some?
    ensures var w := After(steps).value;
      Inv(w) && w.written + w.buffer == w.sent && |w.buffer| <= 256
  {
    if steps != [] {
      RunKeepsInv(steps[..|steps| - 1]);
      StepKeepsInv(After(steps[..|steps| - 1]).value, steps[|steps| - 1]);
    }
  }

  /** Nobody has the reporter before NewReporter returns it, and FinishSuite is not sent before Close. */
  lemma {:induction false} NoReportsYet(steps: seq<Step>)
    requires After(steps).Some?
    ensures After(steps).value.owner.Constructing? ==> Early(steps) == []
    ensures var o := After(steps).value.owner; o.Constructing? || o.Running? || o.Finishing? ==> Late(steps) == []
  {
    if steps != [] {
      NoReportsYet(steps[..|steps| - 1]);
    }
  }

  lemma LateSend(sent: seq<Message>, early: seq<Message>, late: seq<Message>, m: Message)
    requires sent == [BeginSuite] + early + [FinishSuite] + late
    ensures sent + [m] == [BeginSuite] + (early + []) + [FinishSuite] + (late + [m])
  {
  }

  lemma EarlySend(sent: seq<Message>, early: seq<Message>, m: Message)
    requires sent == [BeginSuite] + early
    ensures sent + [m] == [BeginSuite] + (early + [m])
  {
  }

  lemma FinishSent(sent: seq<Message>, early: seq<Message>, late: seq<Message>)
    requires sent == [BeginSuite] + early && late == []
    ensures sent + [FinishSuite] == [BeginSuite] + early + [FinishSuite] + late
  {
  }

  /** What a step other than a report does to the expectation. */
  lemma ExpectedStep(w: World, step: Step, early: seq<Message>, late: seq<Message>)
    requires Inv(w) && Enabled(w, step) && !step.Send? && w.sent == Expected(w.owner, early, late)
    requires w.owner.Constructing? ==> early == []
    requires w.owner.Constructing? || w.owner.Running? || w.owner.Finishing? ==> late == []
    ensures Apply(w, step).sent == Expected(Apply(w, step).owner, early, late)
  {
    if step.SendFinish? {
      FinishSent(w.sent, early, late);
    }
  }

  /** In every run: BeginSuite, the early reports, FinishSuite once Close sent it, and the late ones. */
  lemma {:induction false} SentIsExpected(steps: seq<Step>)
    requires After(steps).Some?
    ensures After(steps).value.sent == Expected(After(steps).value.owner, Early(steps), Late(steps))
  {
    if steps != [] {
      var front, last := steps[..|steps| - 1], steps[|steps| - 1];
      var w := After(front).value;
      SentIsExpected(front);
      RunKeepsInv(front);
      NoReportsYet(front);
      NotASend(steps);
      if SentLate(steps) {
        LateSend(w.sent, Early(front), Late(front), Report(last.text));
      } else if last.Send? {
        EarlySend(w.sent, Early(front), Report(last.text));
        assert Late(front) + [] == Late(front);
      } else {
        ExpectedStep(w, last, Early(front), Late(front));
      }
    }
  }

  lemma NotASend(steps: seq<Step>)
    requires steps != []
    ensures !steps[|steps| - 1].Send? ==>
              Early(steps) == Early(steps[..|steps| - 1]) && Late(steps) == Late(steps[..|steps| - 1])
  {
  }

  /** Once it is sent, FinishSuite is the last message if and only if no report came late. */
  lemma FinishIsLastExactly(steps: seq<Step>)
    requires After(steps).Some?
    requires var o := After(steps).value.owner; o.Closing? || o.Waiting? || o.Returned?
    ensures var sent := After(steps).value.sent;
      sent != [] && (sent[|sent| - 1] == FinishSuite <==> NoneLate(steps))
  {
    SentIsExpected(steps);
    NoneLateExactly(steps);
    LateAreReports(steps);
    var sent, late := After(steps).value.sent, Late(steps);
    if late != [] {
      assert sent[|sent| - 1] == late[|late| - 1] && late[|late| - 1] in late;
    }
  }

  lemma {:induction false} LateAreReports(steps: seq<Step>)
    ensures forall m :: m in Late(steps) ==> m.Report?
  {
    if steps != [] {
      LateAreReports(steps[..|steps| - 1]);
    }
  }

  /** When Close returns, everything is written: the opening message first, the reports sent before
      FinishSuite in send order, the closing message, and whatever came late. The closing message is
      last, with every report before it, if and only if nothing came late. */
  lemma ClosedMeansWritten(steps: seq<Step>)
    requires After(steps).Some? && After(steps).value.owner.Returned?
    ensures After(steps).value.written == [BeginSuite] + Early(steps) + [FinishSuite] + Late(steps)
    ensures NoneLate(steps) <==> After(steps).value.written == [BeginSuite] + Reports(steps) + [FinishSuite]
  {
    RunKeepsInv(steps);
    SentIsExpected(steps);
    NoneLateExactly(steps);
    var w := After(steps).value;
    assert w.written + [] == w.written;
    if NoneLate(steps) {
      assert [BeginSuite] + Early(steps) + [FinishSuite] + [] == [BeginSuite] + Reports(steps) + [FinishSuite];
    } else {
      FinishIsLastExactly(steps);
      assert ([BeginSuite] + Reports(steps) + [FinishSuite])[|Reports(steps)| + 1] == FinishSuite;
    }
  }

  /** The remaining steps of the writer once the channel is closed. */
  function Draining(n: nat): seq<Step> {
    if n == 0 then [WriterEnds, CloseReturns] else [WriteOne] + Draining(n - 1)
  }

  lemma Extend(steps: seq<Step>, step: Step)
    requires After(steps).Some? && Enabled(After(steps).value, step)
    ensures After(steps + [step]) == Some(Apply(After(steps).value, step))
  {
    assert (steps + [step])[..|steps|] == steps;
  }

  /** The world in which Close has returned after the writer drained the buffer. */
  function Drained(w: World): World {
    w.(written := w.written + w.buffer, buffer := [], writerDone := true, owner := Returned)
  }

  lemma DrainedAlike(w: World)
    requires Enabled(w, WriteOne)
    ensures Drained(Apply(w, WriteOne)) == Drained(w)
  {
    assert w.written + [w.buffer[0]] + w.buffer[1..] == w.written + w.buffer;
  }

  lemma WriterFinishes(steps: seq<Step>, w: World)
    requires After(steps) == Some(w) && w.owner.Waiting? && w.closed && !w.writerDone && w.buffer == []
    ensures After(steps + Draining(0)) == Some(Drained(w))
  {
    Extend(steps, WriterEnds);
    Extend(steps + [WriterEnds], CloseReturns);
    assert steps + [WriterEnds] + [CloseReturns] == steps + Draining(0);
    assert w.written + w.buffer == w.written;
  }

  lemma {:induction false} WriterDrains(steps: seq<Step>, w: World)
    requires After(steps) == Some(w) && w.owner.Waiting? && w.closed && !w.writerDone
    ensures After(steps + Draining(|w.buffer|)) == Some(Drained(w))
    decreases |w.buffer|
  {
    if w.buffer == [] {
      WriterFinishes(steps, w);
    } else {
      Extend(steps, WriteOne);
      DrainedAlike(w);
      WriterDrains(steps + [WriteOne], Apply(w, WriteOne));
      Regroup(steps, [WriteOne], Draining(|w.buffer| - 1));
    }
  }

  /** Close cannot hang: from any state in which it waits, the writer alone brings it to return,
      with everything written. */
  lemma CloseCanReturn(steps: seq<Step>)
    requires After(steps).Some? && After(steps).value.owner.Waiting? && !After(steps).value.writerDone
    ensures var end := After(steps + Draining(|After(steps).value.buffer|));
      end.Some? && end.value.owner.Returned? && end.value.written == After(steps).value.sent
  {
    RunKeepsInv(steps);
    WriterDrains(steps, After(steps).value);
  }

  /** How many steps are left until Close has returned, once it waits. */
  function StepsLeft(w: World): nat {
    |w.buffer| + (if w.writerDone then 0 else 1) + (if w.owner.Returned? then 0 else 1)
  }

  /** While Close waits, every step that can happen brings its return closer, and there always is one. */
  lemma WaitingStep(w: World, step: Step)
    requires Inv(w) && (w.owner.Waiting? || w.owner.Returned?) && Enabled(w, step)
    ensures var w' := Apply(w, step);
      (w'.owner.Waiting? || w'.owner.Returned?) && StepsLeft(w') == StepsLeft(w) - 1 && w'.sent == w.sent
  {
  }

  /** Whatever the schedule: once Close waits, the steps that follow are bounded, it has returned exactly
      when the bound is used up, with everything written, and until then some step can happen. */
  lemma {:induction false} EveryScheduleReturns(steps: seq<Step>, more: seq<Step>)
    requires After(steps).Some? && After(steps).value.owner.Waiting? && After(steps + more).Some?
    ensures var w, w' := After(steps).value, After(steps + more).value;
      && (w'.owner.Waiting? || w'.owner.Returned?)
      && |more| + StepsLeft(w') == StepsLeft(w)
      && (w'.owner.Returned? <==> |more| == StepsLeft(w))
      && (w'.owner.Returned? ==> w'.written == w.sent)
      && (w'.owner.Waiting? ==> exists step :: Enabled(w', step))
      && w'.sent == w.sent
  {
    RunKeepsInv(steps + more);
    if more == [] {
      assert steps + more == steps;
    } else {
      var front, last := more[..|more| - 1], more[|more| - 1];
      assert (steps + more)[..|steps + more| - 1] == steps + front;
      EveryScheduleReturns(steps, front);
      RunKeepsInv(steps + front);
      WaitingStep(After(steps + front).value, last);
    }
    SomeoneCanMove(steps + more);
    var w' := After(steps + more).value;
    assert w'.written + [] == w'.written;
  }

  /** No deadlock: a full buffer always lets the writer receive, so a blocked sender gets its turn, and
      from the call of Close to its return some party other than a reporting goroutine can move. */
  lemma SomeoneCanMove(steps: seq<Step>)
    requires After(steps).Some?
    ensures |After(steps).value.buffer| == CAPACITY ==> Enabled(After(steps).value, WriteOne)
    ensures !After(steps).value.owner.Running? && !After(steps).value.owner.Returned? ==>
              exists step :: Enabled(After(steps).value, step) && !step.Send? && !step.CallClose?
  {
    RunKeepsInv(steps);
    var w := After(steps).value;
    if !w.owner.Running? && !w.owner.Returned? {
      var step := match w.owner
        case Constructing => SendBegin
        case Finishing => if w.buffer == [] then SendFinish else WriteOne
        case Closing => CloseChannel
        case _ => if w.writerDone then CloseReturns else if w.buffer == [] then WriterEnds else WriteOne;
      assert Enabled(w, step);
    }
  }

  /** A report sent while Close is under way, with room in the buffer, is written behind the closing
      message, in every such run. */
  lemma LateReportIsWrittenLast(steps: seq<Step>, text: string) returns (all: seq<Step>)
    requires After(steps).Some? && After(steps).value.owner.Closing? && |After(steps).value.buffer| < CAPACITY
    ensures After(all).Some? && After(all).value.owner.Returned?
    ensures After(all).value.written == After(steps).value.sent + [Report(text)]
  {
    RunKeepsInv(steps);
    Extend(steps, Send(text));
    var late := steps + [Send(text)];
    Extend(late, CloseChannel);
    var closed := late + [CloseChannel];
    RunKeepsInv(late);
    CloseCanReturn(closed);
    all := closed + Draining(|After(closed).value.buffer|);
  }

  /** Such a run exists. */
  lemma LateReportIsLast() returns (steps: seq<Step>)
    ensures After(steps).Some? && After(steps).value.owner.Returned?
    ensures After(steps).value.written == [BeginSuite, FinishSuite, Report("late")]
  {
    Extend([], SendBegin);
    steps := [] + [SendBegin];
    Extend(steps, CallClose);
    steps := steps + [CallClose];
    Extend(steps, SendFinish);
    steps := steps + [SendFinish];
    steps := LateReportIsWrittenLast(steps, "late");
  }
}
