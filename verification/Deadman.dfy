/** The deadman's switch of the wheel driver: a loop on its own thread that stops the wheels
    when no speed command has come for a while, interleaved step by step with the thread
    that carries out commands. */
module Deadman {
  import opened Basics

  /** What a wheel was last told: a speed, or an angle to turn through. */
  datatype Goal = Speed(rpm: int) | Turn(angle: int)

  datatype Wheels = Wheels(fl: Goal, rl: Goal, fr: Goal, rr: Goal)

  const STOPPED := Wheels(Speed(0), Speed(0), Speed(0), Speed(0))

  datatype Side = Left | Right

  datatype Command =
    | AllSpeed(fl: int, fr: int, rl: int, rr: int)
    | SideSpeed(side: Side, rpm: int)
    | AllPosition(fl: int, fr: int, rl: int, rr: int)
    | SidePosition(side: Side, angle: int)

  // ------------------------------------------------------------ atomic operations

  datatype Op =
    | Lock
    | Unlock
    | PutFront(side: Side, goal: Goal)
    | PutRear(side: Side, goal: Goal)
    | PutAll(goals: Wheels)
    | Enable(on: bool)
    | ResetSwitch

  /** The right motors are mounted the other way round. */
  function Along(side: Side, rpm: int): int {
    if side == Left then rpm else -rpm
  }

  function Length(c: Command): nat {
    match c
    case AllSpeed(_, _, _, _) => 5
    case SideSpeed(_, _) => 6
    case AllPosition(_, _, _, _) => 4
    case SidePosition(_, _) => 5
  }

  /** The operations of a command in order. A one-sided speed command touches the flags after
      it has given up the mutex, a command for all wheels before. Position commands disable
      the switch before they take it. */
  function OpAt(c: Command, pc: nat): Op
    requires pc < Length(c)
  {
    match c
    case AllSpeed(fl, fr, rl, rr) =>
      if pc == 0 then Lock
      else if pc == 1 then PutAll(Wheels(Speed(fl), Speed(rl), Speed(-fr), Speed(-rr)))
      else if pc == 2 then Enable(true)
      else if pc == 3 then ResetSwitch
      else Unlock
    case SideSpeed(side, rpm) =>
      if pc == 0 then Lock
      else if pc == 1 then PutFront(side, Speed(Along(side, rpm)))
      else if pc == 2 then PutRear(side, Speed(Along(side, rpm)))
      else if pc == 3 then Unlock
      else if pc == 4 then Enable(true)
      else ResetSwitch
    case AllPosition(fl, fr, rl, rr) =>
      if pc == 0 then Enable(false)
      else if pc == 1 then Lock
      else if pc == 2 then PutAll(Wheels(Turn(fl), Turn(rl), Turn(fr), Turn(rr)))
      else Unlock
    case SidePosition(side, angle) =>
      if pc == 0 then Enable(false)
      else if pc == 1 then Lock
      else if pc == 2 then PutFront(side, Turn(angle))
      else if pc == 3 then PutRear(side, Turn(angle))
      else Unlock
  }

  predicate IsSpeed(c: Command) {
    c.AllSpeed? || c.SideSpeed?
  }

  // -------------------------------------------------------------------- the state

  datatype Owner = Nobody | Commander | Watcher

  /** Where the loop is; Stopping(k) has stopped k wheels under the mutex. */
  datatype LoopAt = Asleep | AtEnabled | AtSwitch | AtLock | Stopping(k: nat) | AtRaise

  /** A locked section, and the sections entered so far in the order that the mutex gave them. */
  datatype Section = StopAll | Of(command: Command)
  datatype History = Nothing | Then(before: History, last: Section)

  /** The shared flags, the mutex and the wheels; the loop; the command last issued, of which
      pc operations have been carried out; the commands issued and the sections entered. */
  datatype State = State(
    enabled: bool,
    raised: bool,
    owner: Owner,
    wheels: Wheels,
    loop: LoopAt,
    job: Option<Command>,
    pc: nat,
    issued: seq<Command>,
    log: History)

  predicate Idle(s: State) {
    s.job == None || s.pc >= Length(s.job.value)
  }

  datatype Event = Issue(command: Command) | CommandStep | LoopStep

  /** A thread that wants the mutex waits until nobody has it; one thread issues commands,
      each after the last has returned. */
  predicate Can(s: State, e: Event) {
    match e
    case Issue(_) => Idle(s)
    case CommandStep => !Idle(s) && (OpAt(s.job.value, s.pc).Lock? ==> s.owner == Nobody)
    case LoopStep => s.loop == AtLock ==> s.owner == Nobody
  }

  function Do(s: State, e: Event): State
    requires Can(s, e)
  {
    match e
    case Issue(c) => s.(job := Some(c), pc := 0, issued := s.issued + [c])
    case CommandStep => Perform(s.(pc := s.pc + 1), OpAt(s.job.value, s.pc))
    case LoopStep => Watch(s)
  }

  function Perform(s: State, op: Op): State
    requires s.job != None
  {
    match op
    case Lock => s.(owner := Commander, log := Then(s.log, Of(s.job.value)))
    case Unlock => s.(owner := Nobody)
    case PutFront(side, goal) => s.(wheels := if side == Left then s.wheels.(fl := goal) else s.wheels.(fr := goal))
    case PutRear(side, goal) => s.(wheels := if side == Left then s.wheels.(rl := goal) else s.wheels.(rr := goal))
    case PutAll(goals) => s.(wheels := goals)
    case Enable(on) => s.(enabled := on)
    case ResetSwitch => s.(raised := false)
  }

  /** The loop sleeps, tests the two flags one after the other, stops the wheels if both are
      up, and raises the switch if the first was. */
  function Watch(s: State): State {
    match s.loop
    case Asleep => s.(loop := AtEnabled)
    case AtEnabled => s.(loop := if s.enabled then AtSwitch else Asleep)
    case AtSwitch => s.(loop := if s.raised then AtLock else AtRaise)
    case AtLock => s.(owner := Watcher, log := Then(s.log, StopAll), loop := Stopping(0))
    case Stopping(k) =>
      if k == 0 then s.(wheels := s.wheels.(fl := Speed(0)), loop := Stopping(1))
      else if k == 1 then s.(wheels := s.wheels.(rl := Speed(0)), loop := Stopping(2))
      else if k == 2 then s.(wheels := s.wheels.(fr := Speed(0)), loop := Stopping(3))
      else if k == 3 then s.(wheels := s.wheels.(rr := Speed(0)), loop := Stopping(4))
      else s.(owner := Nobody, loop := AtRaise)
    case AtRaise => s.(raised := true, loop := Asleep)
  }

  // --------------------------------------------------------------------- the runs

  predicate Possible(s: State, es: seq<Event>)
    decreases |es|
  {
    es == [] || (Can(s, es[0]) && Possible(Do(s, es[0]), es[1..]))
  }

  function After(s: State, es: seq<Event>): State
    requires Possible(s, es)
    decreases |es|
  {
    if es == [] then s else After(Do(s, es[0]), es[1..])
  }

  lemma FirstStep(s: State, e: Event, es: seq<Event>)
    requires Can(s, e) && Possible(Do(s, e), es)
    ensures Possible(s, [e] + es) && After(s, [e] + es) == After(Do(s, e), es)
  {
    assert ([e] + es)[1..] == es;
  }

  /** The loop starts asleep and nobody has the mutex. Neither flag is initialised, so both
      may be anything, and so may the wheels. */
  predicate Initial(s: State) {
    s.owner == Nobody && s.loop == Asleep && s.job == None && s.issued == [] && s.log == Nothing
  }

  // ---------------------------------------------------------------- serialisation

  /** What a whole locked section does to the wheels. */
  function Effect(x: Section, w: Wheels): Wheels {
    match x
    case StopAll => STOPPED
    case Of(AllSpeed(fl, fr, rl, rr)) => Wheels(Speed(fl), Speed(rl), Speed(-fr), Speed(-rr))
    case Of(AllPosition(fl, fr, rl, rr)) => Wheels(Turn(fl), Turn(rl), Turn(fr), Turn(rr))
    case Of(SideSpeed(Left, rpm)) => w.(fl := Speed(rpm), rl := Speed(rpm))
    case Of(SideSpeed(Right, rpm)) => w.(fr := Speed(-rpm), rr := Speed(-rpm))
    case Of(SidePosition(Left, angle)) => w.(fl := Turn(angle), rl := Turn(angle))
    case Of(SidePosition(Right, angle)) => w.(fr := Turn(angle), rr := Turn(angle))
  }

  /** The sections one after the other. */
  function Replay(w: Wheels, log: History): Wheels {
    match log
    case Nothing => w
    case Then(before, x) => Effect(x, Replay(w, before))
  }

  function Commands(log: History): seq<Command> {
    match log
    case Nothing => []
    case Then(before, StopAll) => Commands(before)
    case Then(before, Of(c)) => Commands(before) + [c]
  }

  function LockAt(c: Command): nat {
    if IsSpeed(c) then 0 else 1
  }

  function UnlockAt(c: Command): nat {
    match c
    case AllSpeed(_, _, _, _) => 4
    case SideSpeed(_, _) => 3
    case AllPosition(_, _, _, _) => 3
    case SidePosition(_, _) => 4
  }

  function EnableAt(c: Command): nat {
    match c
    case AllSpeed(_, _, _, _) => 2
    case SideSpeed(_, _) => 4
    case AllPosition(_, _, _, _) => 0
    case SidePosition(_, _) => 0
  }

  /** The command has taken the mutex, and has not yet given it up. */
  predicate Inside(s: State) {
    s.job != None && LockAt(s.job.value) < s.pc <= UnlockAt(s.job.value)
  }

  /** The wheels after the loop has stopped k of them. */
  function Halted(k: nat, w: Wheels): Wheels {
    Wheels(if k > 0 then Speed(0) else w.fl, if k > 1 then Speed(0) else w.rl,
           if k > 2 then Speed(0) else w.fr, if k > 3 then Speed(0) else w.rr)
  }

  /** The wheels after the first n operations of the locked section of a command. */
  function Written(c: Command, n: int, w: Wheels): Wheels {
    var whole := Effect(Of(c), w);
    if n <= 0 then w
    else if n >= 2 || c.AllSpeed? || c.AllPosition? then whole
    else w.(fl := whole.fl, fr := whole.fr)
  }

  /** The wheels part of the way through a section that found them as w. */
  predicate Midway(s: State, w: Wheels) {
    match s.owner
    case Nobody => s.wheels == w
    case Watcher =>
      && s.loop.Stopping? && s.log.Then? && s.log.last == StopAll
      && s.wheels == Halted(s.loop.k, w)
    case Commander =>
      && s.job != None && s.log.Then? && s.log.last == Of(s.job.value)
      && s.wheels == Written(s.job.value, s.pc - LockAt(s.job.value) - 1, w)
  }

  function Base(first: Wheels, s: State): Wheels {
    Replay(first, if s.owner == Nobody || s.log == Nothing then s.log else s.log.before)
  }

  /** The mutex and the flags agree with where the two threads are. */
  predicate Control(s: State) {
    && (s.job != None ==> s.pc <= Length(s.job.value))
    && (s.owner == Commander <==> Inside(s))
    && (s.owner == Watcher <==> s.loop.Stopping?)
    && (s.loop.Stopping? ==> s.loop.k <= 4)
    && (s.job != None && s.pc > EnableAt(s.job.value) ==> s.enabled == IsSpeed(s.job.value))
  }

  /** The commands issued are those in the log, and the latest if it is still outside. */
  predicate Recorded(s: State) {
    s.issued == Commands(s.log) + if s.job != None && s.pc <= LockAt(s.job.value) then [s.job.value] else []
  }

  /** What every step of either thread keeps. */
  predicate Inv(first: Wheels, s: State) {
    Control(s) && Midway(s, Base(first, s)) && Recorded(s)
  }

  lemma ControlCommand(s: State)
    requires Control(s) && Can(s, CommandStep)
    ensures Control(Do(s, CommandStep))
  {
  }

  lemma ControlLoop(s: State)
    requires Control(s) && Can(s, LoopStep)
    ensures Control(Do(s, LoopStep))
  {
  }

  lemma MidwayCommand(first: Wheels, s: State)
    requires Control(s) && Midway(s, Base(first, s)) && Can(s, CommandStep)
    ensures var s' := Do(s, CommandStep); Midway(s', Base(first, s'))
  {
  }

  lemma MidwayLoop(first: Wheels, s: State)
    requires Control(s) && Midway(s, Base(first, s)) && Can(s, LoopStep)
    ensures var s' := Do(s, LoopStep); Midway(s', Base(first, s'))
  {
  }

  lemma RecordedCommand(s: State)
    requires Recorded(s) && Can(s, CommandStep)
    ensures Recorded(Do(s, CommandStep))
  {
  }

  lemma RecordedLoop(s: State)
    requires Recorded(s) && Can(s, LoopStep)
    ensures Recorded(Do(s, LoopStep))
  {
  }

  lemma InvIssue(first: Wheels, s: State, c: Command)
    requires Inv(first, s) && Can(s, Issue(c))
    ensures Inv(first, Do(s, Issue(c)))
  {
  }

  lemma InvCommand(first: Wheels, s: State)
    requires Inv(first, s) && Can(s, CommandStep)
    ensures Inv(first, Do(s, CommandStep))
  {
    ControlCommand(s);
    MidwayCommand(first, s);
    RecordedCommand(s);
  }

  lemma InvLoop(first: Wheels, s: State)
    requires Inv(first, s) && Can(s, LoopStep)
    ensures Inv(first, Do(s, LoopStep))
  {
    ControlLoop(s);
    MidwayLoop(first, s);
    RecordedLoop(s);
  }

  lemma {:induction false} InvRun(first: Wheels, s: State, es: seq<Event>)
    requires Inv(first, s) && Possible(s, es)
    ensures Inv(first, After(s, es))
    decreases |es|
  {
    if es != [] {
      match es[0] {
        case Issue(c) => InvIssue(first, s, c);
        case CommandStep => InvCommand(first, s);
        case LoopStep => InvLoop(first, s);
      }
      InvRun(first, Do(s, es[0]), es[1..]);
    }
  }

  /** Under every interleaving, whenever the mutex is free the wheels are as if whole
      commands and whole stops had been carried out one after the other, the commands in
      the order in which they were issued; and no two threads are ever inside at once. */
  lemma Serialised(s: State, es: seq<Event>)
    requires Initial(s) && Possible(s, es)
    ensures var t := After(s, es);
            && !(Inside(t) && t.loop.Stopping?)
            && (t.owner == Nobody ==> t.wheels == Replay(s.wheels, t.log))
            && Commands(t.log) <= t.issued
            && (Idle(t) ==> Commands(t.log) == t.issued)
  {
    InvRun(s.wheels, s, es);
  }

  // ---------------------------------------------------------------- the guarantee

  predicate Quiet(es: seq<Event>) {
    forall e :: e in es ==> !e.Issue?
  }

  /** The wake-ups that lie wholly within the run: the loop leaves its sleep and comes back
      to it. The flag says whether the one under way, if any, began within the run. */
  function WakeUps(s: State, es: seq<Event>, began: bool): nat
    requires Possible(s, es)
    decreases |es|
  {
    if es == [] then 0
    else
      var s' := Do(s, es[0]);
      (if began && s.loop != Asleep && s'.loop == Asleep then 1 else 0)
      + WakeUps(s', es[1..], began || (s.loop == Asleep && s'.loop != Asleep))
  }

  /** After c complete wake-ups under an enabled switch and no commands. */
  predicate Awaited(s: State, began: bool, c: nat) {
    && Idle(s) && s.enabled
    && (c >= 1 ==> began && s.raised)
    && (c >= 1 && s.loop == AtRaise ==> s.wheels == STOPPED)
    && (c >= 1 && s.loop.Stopping? ==> s.wheels == Halted(s.loop.k, s.wheels))
    && (c >= 2 ==> s.wheels == STOPPED)
  }

  lemma {:induction false} StoppedBySecond(s: State, es: seq<Event>, began: bool, c: nat)
    requires Possible(s, es) && Quiet(es) && Awaited(s, began, c)
    ensures c + WakeUps(s, es, began) >= 2 ==> After(s, es).wheels == STOPPED
    decreases |es|
  {
    if es != [] {
      assert es[0] in es;
      assert es[0] == LoopStep;
      var s' := Do(s, LoopStep);
      var n := if began && s.loop != Asleep && s'.loop == Asleep then 1 else 0;
      StoppedBySecond(s', es[1..], began || s.loop == Asleep, c + n);
    }
  }

  /** The most steps that the loop can take before it sleeps again. */
  function Distance(at: LoopAt): nat {
    match at
    case Asleep => 10
    case AtEnabled => 9
    case AtSwitch => 8
    case AtLock => 7
    case Stopping(k) => if k < 4 then 6 - k else 2
    case AtRaise => 1
  }

  /** Without commands the loop is never held up: ten of its steps complete a wake-up. */
  lemma {:induction false} WakeUpsComplete(s: State, es: seq<Event>, began: bool, n: nat)
    requires Possible(s, es) && Quiet(es) && Idle(s)
    requires |es| >= Distance(s.loop) + 10 * n
    ensures WakeUps(s, es, began) >= n + (if began || s.loop == Asleep then 1 else 0)
    decreases |es|
  {
    assert es[0] in es;
    assert es[0] == LoopStep;
    var s' := Do(s, LoopStep);
    var began' := began || (s.loop == Asleep && s'.loop != Asleep);
    if s'.loop != Asleep {
      WakeUpsComplete(s', es[1..], began', n);
    } else if n > 0 {
      WakeUpsComplete(s', es[1..], began', n - 1);
    }
  }

  /** Once a speed command has returned, whatever both threads did before, and no further
      command is issued: after two complete wake-ups at the latest all four wheels have been
      told to stop, and stay stopped. */
  lemma DeadmanStops(s: State, before: seq<Event>, after: seq<Event>)
    requires Initial(s) && Possible(s, before) && Possible(After(s, before), after) && Quiet(after)
    requires var t := After(s, before); t.job != None && Idle(t) && IsSpeed(t.job.value)
    ensures var t := After(s, before);
            WakeUps(t, after, false) >= 2 || |after| >= 30 ==> After(t, after).wheels == STOPPED
  {
    InvRun(s.wheels, s, before);
    var t := After(s, before);
    StoppedBySecond(t, after, false, 0);
    if |after| >= 30 {
      WakeUpsComplete(t, after, false, if t.loop == Asleep then 1 else 2);
    }
  }

  /** One wake-up need not be enough: the first only raises the switch. */
  lemma OneWakeUpIsNotEnough(s: State)
    requires Idle(s) && s.enabled && !s.raised && s.loop == Asleep
    ensures exists es :: Possible(s, es) && WakeUps(s, es, false) == 1 && After(s, es) == s.(raised := true)
  {
    var a := Do(s, LoopStep);
    var b := Do(a, LoopStep);
    var c := Do(b, LoopStep);
    var es1 := [LoopStep] + [];
    var es2 := [LoopStep] + es1;
    var es3 := [LoopStep] + es2;
    FirstStep(c, LoopStep, []);
    FirstStep(b, LoopStep, es1);
    FirstStep(a, LoopStep, es2);
    FirstStep(s, LoopStep, es3);
    assert es1[1..] == [] && es2[1..] == es1 && es3[1..] == es2 && ([LoopStep] + es3)[1..] == es3;
    assert WakeUps(c, es1, true) == 1 && WakeUps(b, es2, true) == 1 && WakeUps(a, es3, true) == 1;
    assert WakeUps(s, [LoopStep] + es3, false) == 1;
  }

  // --------------------------------------------------------------- a stop too late

  /** The loop has passed its tests and will stop the wheels whatever the flags say now. */
  predicate Committed(s: State) {
    s.loop == AtLock || s.loop.Stopping? || (s.loop == AtSwitch && s.raised)
  }

  function Outcome(s: State): Wheels {
    if Committed(s) then STOPPED else s.wheels
  }

  lemma {:induction false} OutcomeKept(s: State, es: seq<Event>)
    requires Idle(s) && !s.enabled && Possible(s, es) && Quiet(es)
    requires s.loop.Stopping? ==> s.wheels == Halted(s.loop.k, s.wheels)
    ensures Outcome(After(s, es)) == Outcome(s)
    ensures |es| >= Distance(s.loop) || s.loop in {Asleep, AtEnabled} ==> After(s, es).loop in {Asleep, AtEnabled}
    decreases |es|
  {
    if es != [] {
      assert es[0] in es;
      assert es[0] == LoopStep;
      OutcomeKept(Do(s, LoopStep), es[1..]);
    }
  }

  /** After a position command has returned the wheels keep their goals exactly when the loop
      was not already committed to a stop; otherwise that stop overrides the command. */
  lemma PositionKept(s: State, before: seq<Event>, after: seq<Event>)
    requires Initial(s) && Possible(s, before) && Possible(After(s, before), after)
    requires Quiet(after) && |after| >= 10
    requires var t := After(s, before); t.job != None && Idle(t) && !IsSpeed(t.job.value)
    ensures var t := After(s, before);
            After(t, after).wheels == if Committed(t) then STOPPED else t.wheels
  {
    InvRun(s.wheels, s, before);
    OutcomeKept(After(s, before), after);
  }

  /** A committed loop stops the wheels, whatever the command was, and they stay stopped. */
  lemma {:induction false} CommittedStops(s: State, es: seq<Event>)
    requires Idle(s) && Possible(s, es) && Quiet(es)
    requires s.loop.Stopping? ==> s.loop.k <= 4 && s.wheels == Halted(s.loop.k, s.wheels)
    requires s.wheels == STOPPED || (Committed(s) && |es| >= Distance(s.loop))
    ensures After(s, es).wheels == STOPPED
    decreases |es|
  {
    if es != [] {
      assert es[0] in es;
      assert es[0] == LoopStep;
      CommittedStops(Do(s, LoopStep), es[1..]);
    }
  }

  function Steps(n: nat): seq<Event> {
    if n == 0 then [] else [CommandStep] + Steps(n - 1)
  }

  /** The operation that resets the switch, for speed commands. */
  function ResetAt(c: Command): nat {
    if c.AllSpeed? then 3 else 5
  }

  /** While the loop is outside the mutex the commander is never held up. */
  lemma CommanderFree(s: State)
    requires Control(s) && !Idle(s) && !s.loop.Stopping?
    ensures Can(s, CommandStep)
    ensures var s' := Do(s, CommandStep);
            && s'.loop == s.loop && s'.job == s.job && s'.pc == s.pc + 1
            && (IsSpeed(s.job.value) && (s.pc == ResetAt(s.job.value) || !s.raised) ==> !s'.raised)
  {
  }

  lemma {:induction false} CommandFinishes(s: State)
    requires Control(s) && s.job != None && !s.loop.Stopping?
    ensures var es := Steps(Length(s.job.value) - s.pc);
            && Possible(s, es)
            && var t := After(s, es);
            && Idle(t) && Control(t) && t.loop == s.loop && t.job == s.job
            && (IsSpeed(s.job.value) && (s.pc <= ResetAt(s.job.value) || !s.raised) ==> !t.raised)
    decreases Length(s.job.value) - s.pc
  {
    hide Control;
    ControlBounds(s);
    var n := Length(s.job.value) - s.pc;
    if n > 0 {
      CommanderFree(s);
      ControlCommand(s);
      CommandFinishes(Do(s, CommandStep));
      FirstStep(s, CommandStep, Steps(n - 1));
    }
  }

  lemma ControlBounds(s: State)
    requires Control(s) && s.job != None
    ensures s.pc <= Length(s.job.value)
  {
  }

  lemma {:induction false} RunsCompose(s: State, es: seq<Event>, fs: seq<Event>)
    requires Possible(s, es) && Possible(After(s, es), fs)
    ensures Possible(s, es + fs) && After(s, es + fs) == After(After(s, es), fs)
    decreases |es|
  {
    if es == [] {
      assert es + fs == fs;
    } else {
      assert (es + fs)[0] == es[0] && (es + fs)[1..] == es[1..] + fs;
      RunsCompose(Do(s, es[0]), es[1..], fs);
    }
  }

  function Loops(n: nat): seq<Event> {
    if n == 0 then [] else [LoopStep] + Loops(n - 1)
  }

  /** One wake-up under an enabled switch that is down raises it; the next gets as far as
      asking for the mutex. */
  lemma SecondWakeUpAsks(s: State)
    requires Idle(s) && s.enabled && !s.raised && s.loop == Asleep
    ensures Possible(s, Loops(7)) && After(s, Loops(7)) == s.(raised := true, loop := AtLock)
  {
    var up := s.(raised := true);
    FirstStep(up.(loop := AtSwitch), LoopStep, Loops(0));
    FirstStep(up.(loop := AtEnabled), LoopStep, Loops(1));
    FirstStep(up, LoopStep, Loops(2));
    FirstStep(s.(loop := AtRaise), LoopStep, Loops(3));
    FirstStep(s.(loop := AtSwitch), LoopStep, Loops(4));
    FirstStep(s.(loop := AtEnabled), LoopStep, Loops(5));
    FirstStep(s, LoopStep, Loops(6));
  }

  /** Carrying out a command while the loop stays outside the mutex. */
  lemma CommandDone(s: State, c: Command)
    requires Control(s) && Idle(s) && !s.loop.Stopping?
    ensures var es := [Issue(c)] + Steps(Length(c));
            && Possible(s, es)
            && var t := After(s, es);
            && Idle(t) && Control(t) && t.loop == s.loop && t.job == Some(c) && (IsSpeed(c) ==> t.enabled && !t.raised)
  {
    hide Control;
    var s' := Do(s, Issue(c));
    ControlIssue(s, c);
    CommandFinishes(s');
    FirstStep(s, Issue(c), Steps(Length(c)));
    FinishedEnabled(After(s', Steps(Length(c))));
  }

  lemma ControlIssue(s: State, c: Command)
    requires Control(s) && Can(s, Issue(c))
    ensures Control(Do(s, Issue(c)))
  {
  }

  lemma FinishedEnabled(s: State)
    requires Control(s) && Idle(s) && s.job != None
    ensures s.enabled == IsSpeed(s.job.value)
  {
  }

  /** Any command can return while the loop is committed to a stop: from every initial state,
      by a speed command, a wake-up that raises the switch, and a second one that reaches the
      mutex just before the command. */
  lemma CommandUnderCommittedStop(s: State, speed: Command, c: Command)
    requires Initial(s) && IsSpeed(speed)
    ensures exists es :: Possible(s, es) && Idle(After(s, es)) && After(s, es).job == Some(c) && Committed(After(s, es))
  {
    hide Control, Possible, After;
    var first, second := [Issue(speed)] + Steps(Length(speed)), [Issue(c)] + Steps(Length(c));
    InitialControl(s);
    CommandDone(s, speed);
    var t := After(s, first);
    SecondWakeUpAsks(t);
    LoopLeavesControl(t);
    CommandDone(t.(raised := true, loop := AtLock), c);
    RunsCompose(t, Loops(7), second);
    RunsCompose(s, first, Loops(7) + second);
  }

  lemma InitialControl(s: State)
    requires Initial(s)
    ensures Control(s)
  {
  }

  lemma LoopLeavesControl(s: State)
    requires Control(s) && s.loop == Asleep
    ensures Control(s.(raised := true, loop := AtLock))
  {
  }

  // ------------------------------------------------------- commands on their own

  lemma StepOnce(s: State, n: nat)
    requires Can(s, CommandStep) && Possible(Do(s, CommandStep), Steps(n))
    ensures Possible(s, Steps(n + 1)) && After(s, Steps(n + 1)) == After(Do(s, CommandStep), Steps(n))
  {
    FirstStep(s, CommandStep, Steps(n));
  }

  /** A speed command for all wheels, with nobody in its way: each wheel is told its own speed,
      the right ones backwards, and the switch is enabled and down. */
  lemma AllSpeedLeaves(s: State, fl: int, fr: int, rl: int, rr: int)
    requires Idle(s) && s.owner == Nobody
    ensures var c := AllSpeed(fl, fr, rl, rr);
            && Possible(s, [Issue(c)] + Steps(5))
            && After(s, [Issue(c)] + Steps(5)) ==
               State(true, false, Nobody, Wheels(Speed(fl), Speed(rl), Speed(-fr), Speed(-rr)), s.loop,
                     Some(c), 5, s.issued + [c], Then(s.log, Of(c)))
  {
    hide Possible, After, Steps;
    var c := AllSpeed(fl, fr, rl, rr);
    var s0 := Do(s, Issue(c));
    var s1 := Do(s0, CommandStep);
    var s2 := Do(s1, CommandStep);
    FlagsInside(s2);
    StepOnce(s1, 3);
    StepOnce(s0, 4);
    FirstStep(s, Issue(c), Steps(5));
  }

  /** A speed command for all wheels ends with the two flags and the mutex. */
  lemma FlagsInside(s: State)
    requires s.job.Some? && s.job.value.AllSpeed? && s.pc == 2
    ensures Possible(s, Steps(3)) && After(s, Steps(3)) == s.(enabled := true, raised := false, owner := Nobody, pc := 5)
  {
    var s3 := Do(s, CommandStep);
    StepOnce(Do(s3, CommandStep), 0);
    StepOnce(s3, 1);
    StepOnce(s, 2);
  }

  /** One for a side leaves the other side's wheels alone. */
  lemma SideSpeedLeaves(s: State, side: Side, rpm: int)
    requires Idle(s) && s.owner == Nobody
    ensures var c := SideSpeed(side, rpm);
            && Possible(s, [Issue(c)] + Steps(6))
            && After(s, [Issue(c)] + Steps(6)) ==
               State(true, false, Nobody,
                     if side == Left then Wheels(Speed(rpm), Speed(rpm), s.wheels.fr, s.wheels.rr)
                     else Wheels(s.wheels.fl, s.wheels.rl, Speed(-rpm), Speed(-rpm)),
                     s.loop, Some(c), 6, s.issued + [c], Then(s.log, Of(c)))
  {
    hide Possible, After, Steps;
    var c := SideSpeed(side, rpm);
    var s0 := Do(s, Issue(c));
    var s1 := Do(s0, CommandStep);
    var s2 := Do(s1, CommandStep);
    var s3 := Do(s2, CommandStep);
    var s4 := Do(s3, CommandStep);
    FlagsLast(s4);
    StepOnce(s3, 2);
    StepOnce(s2, 3);
    StepOnce(s1, 4);
    StepOnce(s0, 5);
    FirstStep(s, Issue(c), Steps(6));
  }

  /** A one-sided speed command ends with the two flags. */
  lemma FlagsLast(s: State)
    requires s.job.Some? && s.job.value.SideSpeed? && s.pc == 4
    ensures Possible(s, Steps(2)) && After(s, Steps(2)) == s.(enabled := true, raised := false, pc := 6)
  {
    StepOnce(Do(s, CommandStep), 0);
    StepOnce(s, 1);
  }

  /** A position command for all wheels disables the switch and leaves it up or down. */
  lemma AllPositionLeaves(s: State, fl: int, fr: int, rl: int, rr: int)
    requires Idle(s) && s.owner == Nobody
    ensures var c := AllPosition(fl, fr, rl, rr);
            && Possible(s, [Issue(c)] + Steps(4))
            && After(s, [Issue(c)] + Steps(4)) ==
               State(false, s.raised, Nobody, Wheels(Turn(fl), Turn(rl), Turn(fr), Turn(rr)), s.loop,
                     Some(c), 4, s.issued + [c], Then(s.log, Of(c)))
  {
    var c := AllPosition(fl, fr, rl, rr);
    var s0 := Do(s, Issue(c));
    var s1 := Do(s0, CommandStep);
    var s2 := Do(s1, CommandStep);
    var s3 := Do(s2, CommandStep);
    StepOnce(s3, 0);
    StepOnce(s2, 1);
    StepOnce(s1, 2);
    StepOnce(s0, 3);
    FirstStep(s, Issue(c), Steps(4));
  }

  /** And so does one for a side, for both sides. */
  lemma SidePositionLeaves(s: State, side: Side, angle: int)
    requires Idle(s) && s.owner == Nobody
    ensures var c := SidePosition(side, angle);
            && Possible(s, [Issue(c)] + Steps(5))
            && After(s, [Issue(c)] + Steps(5)) ==
               State(false, s.raised, Nobody,
                     if side == Left then Wheels(Turn(angle), Turn(angle), s.wheels.fr, s.wheels.rr)
                     else Wheels(s.wheels.fl, s.wheels.rl, Turn(angle), Turn(angle)),
                     s.loop, Some(c), 5, s.issued + [c], Then(s.log, Of(c)))
  {
    var c := SidePosition(side, angle);
    var s0 := Do(s, Issue(c));
    var s1 := Do(s0, CommandStep);
    var s2 := Do(s1, CommandStep);
    var s3 := Do(s2, CommandStep);
    var s4 := Do(s3, CommandStep);
    StepOnce(s4, 0);
    StepOnce(s3, 1);
    StepOnce(s2, 2);
    StepOnce(s1, 3);
    StepOnce(s0, 4);
    FirstStep(s, Issue(c), Steps(5));
  }

  /** Under a disabled switch a wake-up does nothing at all, raised or not. */
  lemma DisabledWakeUp(s: State)
    requires !s.enabled && s.loop == Asleep
    ensures Possible(s, Loops(2)) && After(s, Loops(2)) == s
  {
    FirstStep(s.(loop := AtEnabled), LoopStep, Loops(0));
    FirstStep(s, LoopStep, Loops(1));
  }
}
