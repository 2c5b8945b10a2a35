/**
 Runs that sleep, wait and restart refine one pass over the steps: whatever the persisted row of a
 workflow says was reached through suspensions is what one uninterrupted pass reaches.
 */
module WorkflowRefinement {
  import opened Wrappers
  import opened Json
  import opened WorkflowModel
  import opened WorkflowSignals

  // ----- the one-pass interpreter -----

  /** How a step was passed. Only waits have two ways. */
  datatype Choice = Took | TimedOut

  /** How many of the first `i` steps took a signal of that name. */
  function TakenBefore(steps: seq<Step>, ch: seq<Choice>, name: string, i: nat): nat
    requires i <= |steps| && i <= |ch|
  {
    if i == 0 then 0
    else
      TakenBefore(steps, ch, name, i - 1)
      + if steps[i - 1].WaitStep? && steps[i - 1].signal == name && ch[i - 1].Took? then 1 else 0
  }

  /** The state after the first `i` steps of one pass, where a wait takes the next signal of its stream. */
  function StateAfter(
    reg: Registry, def: Definition, input: Json, signals: seq<Signal>, id: string, ch: seq<Choice>, i: nat)
    : Outcome<Json>
    requires i <= |def.steps| && i <= |ch|
  {
    if i == 0 then def.initialState(input)
    else
      match StateAfter(reg, def, input, signals, id, ch, i - 1)
      case Threw => Threw
      case Ok(state) => PassStep(reg, def.steps, input, signals, id, ch, i - 1, state)
  }

  function PassStep(
    reg: Registry, steps: seq<Step>, input: Json, signals: seq<Signal>, id: string, ch: seq<Choice>, i: nat, state: Json)
    : Outcome<Json>
    requires i < |steps| && i < |ch|
  {
    match steps[i]
    case ActionStep(_, _, _, _) => RunAction(reg, steps[i], input, state)
    case SleepStep(_, _) => Ok(state)
    case WaitStep(_, signal, _, onSignal, onTimeout) =>
      if ch[i].TimedOut? then
        match onTimeout
        case Fail => Threw
        case Continue => Ok(state)
        case Update(f) => f(input, state)
      else
        var stream := Sent(signals, id, signal);
        var k := TakenBefore(steps, ch, signal, i);
        if k < |stream| then onSignal(input, stream[k], state) else Threw
  }

  ghost predicate NeverTimesOut(step: Step)
    requires step.WaitStep?
  {
    forall input, state :: step.timeoutMs(input, state).Ok? ==> step.timeoutMs(input, state).value.None?
  }

  /** Only waits that have a timeout ever time out. */
  ghost predicate Allowed(steps: seq<Step>, ch: seq<Choice>) {
    |ch| <= |steps| && forall i :: 0 <= i < |ch| && ch[i].TimedOut? ==> steps[i].WaitStep? && !NeverTimesOut(steps[i])
  }

  // ----- what every committed row satisfies -----

  /** The row is a resting point of the pass that made these choices. */
  ghost predicate Explains(reg: Registry, def: Definition, row: Row, signals: seq<Signal>, id: string, ch: seq<Choice>) {
    && |ch| == row.stepIndex && Allowed(def.steps, ch)
    && StateAfter(reg, def, row.input, signals, id, ch, |ch|) == Ok(row.state)
    && (forall name :: StreamAt(def.steps, signals, id, ch, name))
  }

  /** The stream has been consumed exactly as far as the pass has taken it. */
  ghost predicate StreamAt(steps: seq<Step>, signals: seq<Signal>, id: string, ch: seq<Choice>, name: string)
    requires |ch| <= |steps|
  {
    var k := TakenBefore(steps, ch, name, |ch|);
    k <= |Sent(signals, id, name)| && ConsumedInOrder(signals, id, name, k)
  }

  ghost predicate Shape(def: Definition, row: Row) {
    && row.stepIndex <= |def.steps|
    && row.stepId == StepIdAt(def.steps, row.stepIndex)
    && row.status != Failed
    && (row.status == Completed ==> row.stepIndex == |def.steps|)
    && (row.wakeAt.Some? ==> row.status == Sleeping || row.status == WaitingSignal)
    && (row.status == Sleeping ==> row.wakeAt.Some? && row.stepIndex > 0)
    && (row.status == WaitingSignal ==> row.stepIndex < |def.steps| && def.steps[row.stepIndex].WaitStep?)
    && (row.status == WaitingSignal && row.wakeAt.Some? ==> !NeverTimesOut(def.steps[row.stepIndex]))
  }

  ghost predicate RowOk(reg: Registry, db: Db, id: string)
    requires id in db.instances
  {
    var row := db.instances[id];
    && row.workflow in reg.workflows
    && Shape(reg.workflows[row.workflow], row)
    && exists ch :: Explains(reg, reg.workflows[row.workflow], row, db.signals, id, ch)
  }

  // ----- the pass is not disturbed by later signals or later choices -----

  ghost predicate StreamsGrow(before: seq<Signal>, after: seq<Signal>, id: string) {
    forall name :: Sent(before, id, name) <= Sent(after, id, name)
  }

  lemma {:induction false} PassKeepsUp(
    reg: Registry, def: Definition, input: Json, before: seq<Signal>, after: seq<Signal>, id: string,
    ch: seq<Choice>, longer: seq<Choice>, i: nat)
    requires i <= |def.steps| && i <= |ch| && ch <= longer && StreamsGrow(before, after, id)
    requires StateAfter(reg, def, input, before, id, ch, i).Ok?
    ensures StateAfter(reg, def, input, after, id, longer, i) == StateAfter(reg, def, input, before, id, ch, i)
  {
    if i > 0 {
      PassKeepsUp(reg, def, input, before, after, id, ch, longer, i - 1);
      if def.steps[i - 1].WaitStep? {
        var signal := def.steps[i - 1].signal;
        TakenPrefix(def.steps, ch, longer, signal, i - 1);
        assert Sent(before, id, signal) <= Sent(after, id, signal);
      }
    }
  }

  lemma {:induction false} TakenPrefix(steps: seq<Step>, ch: seq<Choice>, longer: seq<Choice>, name: string, i: nat)
    requires i <= |steps| && i <= |ch| && ch <= longer
    ensures TakenBefore(steps, longer, name, i) == TakenBefore(steps, ch, name, i)
  {
    if i > 0 { TakenPrefix(steps, ch, longer, name, i - 1); }
  }

  // ----- moving on by one step keeps the explanation -----

  /** A step that takes no signal. */
  lemma PassOne(
    reg: Registry, def: Definition, row: Row, next: Row, signals: seq<Signal>, id: string, ch: seq<Choice>, c: Choice)
    requires Explains(reg, def, row, signals, id, ch) && row.stepIndex < |def.steps|
    requires next.input == row.input && next.stepIndex == row.stepIndex + 1
    requires def.steps[row.stepIndex].WaitStep? <==> c.TimedOut?
    requires c.TimedOut? ==> !NeverTimesOut(def.steps[row.stepIndex])
    requires PassStep(reg, def.steps, row.input, signals, id, ch + [c], |ch|, row.state) == Ok(next.state)
    ensures Explains(reg, def, next, signals, id, ch + [c])
  {
    PassKeepsUp(reg, def, row.input, signals, signals, id, ch, ch + [c], |ch|);
    forall name ensures StreamAt(def.steps, signals, id, ch + [c], name) {
      assert StreamAt(def.steps, signals, id, ch, name);
      TakenPrefix(def.steps, ch, ch + [c], name, |ch|);
    }
  }

  /** A wait that takes the oldest pending signal. */
  lemma PassSignal(reg: Registry, def: Definition, row: Row, next: Row, signals: seq<Signal>, id: string, ch: seq<Choice>)
    requires Explains(reg, def, row, signals, id, ch) && row.stepIndex < |def.steps|
    requires next.input == row.input && next.stepIndex == row.stepIndex + 1
    requires def.steps[row.stepIndex].WaitStep?
    requires FirstPending(signals, id, def.steps[row.stepIndex].signal, 0).Some?
    requires var j := FirstPending(signals, id, def.steps[row.stepIndex].signal, 0).value;
      def.steps[row.stepIndex].onSignal(row.input, signals[j].payload, row.state) == Ok(next.state)
    ensures var j := FirstPending(signals, id, def.steps[row.stepIndex].signal, 0).value;
      Explains(reg, def, next, Consume(signals, j), id, ch + [Took])
  {
    var signal := def.steps[row.stepIndex].signal;
    var j := FirstPending(signals, id, signal, 0).value;
    var after := Consume(signals, j);
    assert StreamAt(def.steps, signals, id, ch, signal);
    PendingIsNext(signals, id, signal, TakenBefore(def.steps, ch, signal, |ch|));
    forall name ensures Sent(after, id, name) == Sent(signals, id, name) {
      ConsumeKeepsSent(signals, j, id, name);
    }
    PassKeepsUp(reg, def, row.input, signals, after, id, ch, ch + [Took], |ch|);
    TakenPrefix(def.steps, ch, ch + [Took], signal, |ch|);
    forall name ensures StreamAt(def.steps, after, id, ch + [Took], name) {
      assert StreamAt(def.steps, signals, id, ch, name);
      TakenPrefix(def.steps, ch, ch + [Took], name, |ch|);
      if name == signal {
        ConsumeAdvances(signals, id, name, TakenBefore(def.steps, ch, name, |ch|));
      } else {
        ConsumeKeepsOthers(signals, j, id, name, TakenBefore(def.steps, ch, name, |ch|));
      }
    }
  }

  // ----- every turn of the run loop keeps every row explained -----

  ghost predicate TurnTo(reg: Registry, clock: nat -> int, db: Db, id: string, tick: nat, after: Db) {
    var turn := OneTurn(reg, clock, db, id, tick);
    !turn.Throw? && turn.db == after
  }

  lemma TurnKeepsShape(reg: Registry, clock: nat -> int, db: Db, id: string, tick: nat, after: Db)
    requires TurnTo(reg, clock, db, id, tick, after)
    requires id in db.instances && RowOk(reg, db, id)
    ensures id in after.instances && after.instances[id].workflow == db.instances[id].workflow
    ensures Shape(reg.workflows[db.instances[id].workflow], after.instances[id])
  {
  }

  lemma TurnKeepsRow(reg: Registry, clock: nat -> int, db: Db, id: string, tick: nat, after: Db)
    requires TurnTo(reg, clock, db, id, tick, after)
    requires id in db.instances && RowOk(reg, db, id)
    ensures id in after.instances && RowOk(reg, after, id)
  {
    TurnKeepsShape(reg, clock, db, id, tick, after);
    var row, next := db.instances[id], after.instances[id];
    var def := reg.workflows[row.workflow];
    var ch :| Explains(reg, def, row, db.signals, id, ch);
    if next.stepIndex == row.stepIndex {
      assert after.signals == db.signals && next.state == row.state && next.input == row.input;
      assert Explains(reg, def, next, after.signals, id, ch);
    } else if after.signals != db.signals {
      PassSignal(reg, def, row, next, db.signals, id, ch);
    } else if def.steps[row.stepIndex].WaitStep? {
      TurnTookOrTimedOut(reg, clock, db, id, tick, after);
      if FirstPending(db.signals, id, def.steps[row.stepIndex].signal, 0).Some? {
        PassSignal(reg, def, row, next, db.signals, id, ch);
      } else {
        PassOne(reg, def, row, next, db.signals, id, ch, TimedOut);
      }
    } else {
      PassOne(reg, def, row, next, db.signals, id, ch, Took);
    }
  }

  /** A turn that passes a wait either consumed the oldest pending signal or found the wait's timeout due. */
  lemma TurnTookOrTimedOut(reg: Registry, clock: nat -> int, db: Db, id: string, tick: nat, after: Db)
    requires TurnTo(reg, clock, db, id, tick, after)
    requires id in db.instances && RowOk(reg, db, id)
    requires after.instances[id].stepIndex != db.instances[id].stepIndex
    requires var row := db.instances[id];
      row.stepIndex < |reg.workflows[row.workflow].steps| && reg.workflows[row.workflow].steps[row.stepIndex].WaitStep?
    ensures var row, next := db.instances[id], after.instances[id];
      var step := reg.workflows[row.workflow].steps[row.stepIndex];
      match FirstPending(db.signals, id, step.signal, 0)
      case Some(j) =>
        after.signals == Consume(db.signals, j)
        && step.onSignal(row.input, db.signals[j].payload, row.state) == Ok(next.state)
      case None =>
        && after.signals == db.signals && !NeverTimesOut(step)
        && (match step.onTimeout
            case Fail => false
            case Continue => next.state == row.state
            case Update(f) => f(row.input, row.state) == Ok(next.state))
  {
  }
}
