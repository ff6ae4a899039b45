/** The task executor, the keyboard and timer interrupts, and the two kinds of wait, as one single-core step
    system: an interrupt may come between any two steps of the program while interrupts are enabled. */
module Executor {
  import opened Wrappers

  type Id = nat

  const QUEUE_SLOTS: nat := 100
  const SCANCODE_SLOTS: nat := 256

  /** What a spawned task is doing. `Polled` is the task the processor is running. */
  datatype Wait = Fresh | OnKeys | OnTimer(target: nat) | Polled

  /** Where the processor is: the next atomic operation. */
  datatype Pc =
    | Popping                             // taking the next id off the task queue
    | Polling(id: Id)                     // in the task's own code
    | KeyFirst(id: Id)                    // the first pop of the scancode queue
    | KeyRegister(id: Id)                 // found empty, storing the waker
    | KeySecond(id: Id)                   // the second pop
    | KeyTake(id: Id)                     // found something, clearing the waker
    | SleepLoad(id: Id, target: nat)      // comparing the tick counter
    | SleepRegister(id: Id, target: nat)  // not due yet, storing the waker
    | Idle                                // no id left, about to disable interrupts
    | Disabled                            // interrupts off, testing the queue
    | Enabling                            // interrupts off, about to enable them
    | Halted                              // stopped until the next interrupt
    | Panicked
  {
    predicate Polls(task: Id) {
      match this
      case Polling(id) => id == task
      case KeyFirst(id) => id == task
      case KeyRegister(id) => id == task
      case KeySecond(id) => id == task
      case KeyTake(id) => id == task
      case SleepLoad(id, target) => id == task
      case SleepRegister(id, target) => id == task
      case _ => false
    }

    predicate Busy() {
      Polling? || KeyFirst? || KeyRegister? || KeySecond? || KeyTake? || SleepLoad? || SleepRegister?
    }

    /** Between storing the keyboard waker and knowing whether it is needed. */
    predicate InWindow() {
      KeySecond? || KeyTake?
    }

    predicate InKeys() {
      KeyFirst? || KeyRegister? || InWindow()
    }

    predicate InterruptsOn() {
      !Disabled? && !Enabling? && !Panicked?
    }
  }

  /** The two wakers are slots for one task each; `open` says whether the shell has created the scancode queue.
      `read` records the scancodes that the shell has been given. */
  datatype State = State(
    tasks: map<Id, Wait>, queue: seq<Id>, open: bool, keys: seq<nat>, keyWaker: Option<Id>, timerWaker: Option<Id>,
    ticks: nat, pc: Pc, read: seq<nat>)

  /** What a running task does next. */
  datatype Choice = AwaitKeys | AwaitSleep(ticks: nat) | Finish

  datatype Event = Cpu(choice: Choice) | Timer | Key(code: nat)

  // ----- The steps

  function Resume(s: State, id: Id): Pc
    requires id in s.tasks
  {
    match s.tasks[id]
    case OnKeys => KeyFirst(id)
    case OnTimer(target) => SleepLoad(id, target)
    case _ => Polling(id)
  }

  function PopTask(s: State): State {
    if s.queue == [] then s.(pc := Idle)
    else
      var id := s.queue[0];
      if id !in s.tasks then s.(queue := s.queue[1..])
      else s.(queue := s.queue[1..], pc := Resume(s, id), tasks := s.tasks[id := Polled])
  }

  function PopKey(s: State, next: Pc): State
    requires s.keys != []
  {
    s.(keys := s.keys[1..], read := s.read + [s.keys[0]], pc := next)
  }

  /** Only the shell owns the scancode stream, which it creates before it first waits: a second owner fails at
      its creation. */
  function RunTask(shell: Id, s: State, id: Id, c: Choice): State {
    match c
    case AwaitKeys =>
      if id != shell then s.(pc := Panicked) else if s.open then s.(pc := KeyFirst(id)) else s.(open := true)
    case AwaitSleep(n) => s.(pc := SleepLoad(id, s.ticks + n))
    case Finish => s.(tasks := s.tasks - {id}, pc := Popping)
  }

  /** One atomic operation of the program. */
  function CpuStep(shell: Id, s: State, c: Choice): State {
    match s.pc
    case Popping => PopTask(s)
    case Polling(id) => RunTask(shell, s, id, c)
    case KeyFirst(id) => if s.keys != [] then PopKey(s, Polling(id)) else s.(pc := KeyRegister(id))
    case KeyRegister(id) => s.(keyWaker := Some(id), pc := KeySecond(id))
    case KeySecond(id) =>
      if s.keys != [] then PopKey(s, KeyTake(id)) else s.(tasks := s.tasks[id := OnKeys], pc := Popping)
    case KeyTake(id) => s.(keyWaker := None, pc := Polling(id))
    case SleepLoad(id, target) => s.(pc := if s.ticks >= target then Polling(id) else SleepRegister(id, target))
    case SleepRegister(id, target) =>
      s.(timerWaker := Some(id), tasks := s.tasks[id := OnTimer(target)], pc := Popping)
    case Idle => s.(pc := Disabled)
    case Disabled => s.(pc := if s.queue == [] then Halted else Enabling)
    case Enabling => s.(pc := Popping)
    case Halted => s
    case Panicked => s
  }

  /** An interrupt ends a halt. Waking pushes the id; a full task queue is a panic. */
  function Wake(s: State, waker: Option<Id>): State {
    var awake := if s.pc.Halted? then s.(pc := Popping) else s;
    if waker.None? then awake
    else if |s.queue| >= QUEUE_SLOTS then s.(pc := Panicked)
    else awake.(queue := s.queue + [waker.value])
  }

  function TimerStep(s: State): State {
    Wake(s.(ticks := s.ticks + 1, timerWaker := None), s.timerWaker)
  }

  /** A scancode that finds the queue full, or not yet created, is dropped. */
  function KeyStep(s: State, code: nat): State {
    var fed := if s.open && |s.keys| < SCANCODE_SLOTS then s.(keys := s.keys + [code]) else s;
    Wake(fed.(keyWaker := None), s.keyWaker)
  }

  function Step(shell: Id, s: State, e: Event): State {
    match e
    case Cpu(c) => CpuStep(shell, s, c)
    case Timer => if s.pc.InterruptsOn() then TimerStep(s) else s
    case Key(code) => if s.pc.InterruptsOn() then KeyStep(s, code) else s
  }

  function Run(shell: Id, s: State, events: seq<Event>): State
    decreases |events|
  {
    if events == [] then s else Run(shell, Step(shell, s, events[0]), events[1..])
  }

  /** The executor after spawning `ids` in order. */
  function Start(ids: seq<Id>): State {
    State(map id | id in ids :: Fresh, ids, false, [], None, None, 0, Popping, [])
  }

  lemma {:induction false} RunSplit(shell: Id, s: State, a: seq<Event>, b: seq<Event>)
    ensures Run(shell, s, a + b) == Run(shell, Run(shell, s, a), b)
    decreases |a|
  {
    if a == [] {
      assert a + b == b;
    } else {
      assert (a + b)[1..] == a[1..] + b;
      RunSplit(shell, Step(shell, s, a[0]), a[1..], b);
    }
  }

  // ----- The invariant

  ghost predicate Waits(s: State, id: Id) {
    id in s.tasks && s.tasks[id].OnKeys?
  }

  ghost predicate Sleeps(s: State, id: Id) {
    id in s.tasks && s.tasks[id].OnTimer?
  }

  /** The task under the processor is the one marked so. */
  ghost predicate PollsOne(s: State) {
    !s.pc.Panicked? ==> forall id :: id in s.tasks && s.tasks[id].Polled? <==> s.pc.Polls(id)
  }

  /** The keyboard waker only ever holds the shell, and only while the shell waits or is in the middle of
      waiting; outside the window it is stored only while no scancode waits. */
  ghost predicate KeyWakerSound(shell: Id, s: State) {
    && (s.pc.InKeys() ==> s.pc.Polls(shell))
    && (s.pc.InKeys() || Waits(s, shell) ==> s.open)
    && (forall id | id in s.tasks && s.tasks[id].OnKeys? :: id == shell)
    && (s.keyWaker.Some? ==>
          && s.keyWaker == Some(shell) && (Waits(s, shell) || s.pc.InKeys())
          && (s.keys == [] || s.pc.InWindow()))
  }

  /** A shell that waits, or is about to, will be woken. */
  ghost predicate ShellReachable(shell: Id, s: State) {
    && (Waits(s, shell) ==> shell in s.queue || (s.keyWaker == Some(shell) && s.keys == []))
    && (s.pc.KeySecond? ==> shell in s.queue || s.keyWaker == Some(shell))
  }

  ghost predicate Inv(shell: Id, s: State) {
    !s.pc.Panicked? ==>
      && PollsOne(s) && KeyWakerSound(shell, s) && ShellReachable(shell, s)
      && (s.pc.Halted? ==> s.queue == [])
  }

  lemma PopKeeps(shell: Id, s: State)
    requires Inv(shell, s) && s.pc.Popping?
    ensures Inv(shell, PopTask(s))
  {
  }

  lemma KeysKeep(shell: Id, s: State, c: Choice)
    requires Inv(shell, s) && s.pc.InKeys()
    ensures Inv(shell, CpuStep(shell, s, c))
  {
  }

  lemma TaskKeeps(shell: Id, s: State, c: Choice)
    requires Inv(shell, s) && s.pc.Polling?
    ensures Inv(shell, CpuStep(shell, s, c))
  {
  }

  lemma SleepKeeps(shell: Id, s: State, c: Choice)
    requires Inv(shell, s) && (s.pc.SleepLoad? || s.pc.SleepRegister?)
    ensures Inv(shell, CpuStep(shell, s, c))
  {
  }

  lemma CpuKeeps(shell: Id, s: State, c: Choice)
    requires Inv(shell, s)
    ensures Inv(shell, CpuStep(shell, s, c))
  {
    if s.pc.Popping? {
      PopKeeps(shell, s);
    } else if s.pc.InKeys() {
      KeysKeep(shell, s, c);
    } else if s.pc.Polling? {
      TaskKeeps(shell, s, c);
    } else if s.pc.SleepLoad? || s.pc.SleepRegister? {
      SleepKeeps(shell, s, c);
    }
  }

  lemma TimerKeeps(shell: Id, s: State)
    requires Inv(shell, s)
    ensures Inv(shell, TimerStep(s))
  {
  }

  lemma KeyKeeps(shell: Id, s: State, code: nat)
    requires Inv(shell, s)
    ensures Inv(shell, KeyStep(s, code))
  {
  }

  /** In every interleaving the invariant holds. */
  lemma {:induction false} RunKeeps(shell: Id, s: State, events: seq<Event>)
    requires Inv(shell, s)
    ensures Inv(shell, Run(shell, s, events))
    decreases |events|
  {
    hide Inv, CpuStep, TimerStep, KeyStep;
    if events != [] {
      match events[0] {
        case Cpu(c) => CpuKeeps(shell, s, c);
        case Timer => TimerKeeps(shell, s);
        case Key(code) => KeyKeeps(shell, s, code);
      }
      RunKeeps(shell, Step(shell, s, events[0]), events[1..]);
    }
  }

  lemma StartInv(shell: Id, ids: seq<Id>)
    ensures Inv(shell, Start(ids))
  {
  }

  // ----- The keyboard

  /** An interrupt can strike. */
  ghost predicate Struck(s: State) {
    s.pc != Disabled && s.pc != Enabling && s.pc != Panicked
  }

  /** The codes of the keys that strike while the shell has its stream, in order: of all such keys, or of those
      alone that find fewer than 256 scancodes waiting. */
  ghost function Pressed(shell: Id, s: State, events: seq<Event>, roomOnly: bool): seq<nat>
    decreases |events|
  {
    if events == [] then []
    else
      var e := events[0];
      (if e.Key? && Struck(s) && s.open && (roomOnly ==> |s.keys| < 256) then [e.code] else [])
      + Pressed(shell, Step(shell, s, e), events[1..], roomOnly)
  }

  /** No key of the run strikes an open stream while 256 scancodes wait. */
  ghost predicate NeverFull(shell: Id, s: State, events: seq<Event>) {
    forall i | 0 <= i < |events| ::
      var at := Run(shell, s, events[..i]);
      events[i].Key? && Struck(at) && at.open ==> |at.keys| != 256
  }

  lemma StepKeys(shell: Id, s: State, e: Event)
    requires |s.keys| <= 256
    ensures var next := Step(shell, s, e);
      && |next.keys| <= 256
      && next.read + next.keys == s.read + s.keys
         + if e.Key? && Struck(s) && s.open && |s.keys| < 256 then [e.code] else []
  {
    match e
    case Cpu(c) =>
      assert s.keys != [] ==> s.read + [s.keys[0]] + s.keys[1..] == s.read + s.keys;
    case Timer =>
    case Key(code) =>
      assert s.read + (s.keys + [code]) == s.read + s.keys + [code];
  }

  /** Whatever the interleaving: the scancodes the shell has read and those that wait are those of before and
      the keys that struck its stream with fewer than 256 waiting, in order, without loss or repetition. */
  lemma {:induction false} KeysInOrder(shell: Id, s: State, events: seq<Event>)
    requires |s.keys| <= 256
    ensures var later := Run(shell, s, events);
      |later.keys| <= 256 && later.read + later.keys == s.read + s.keys + Pressed(shell, s, events, true)
    decreases |events|
  {
    hide Step;
    if events != [] {
      var next := Step(shell, s, events[0]);
      StepKeys(shell, s, events[0]);
      KeysInOrder(shell, next, events[1..]);
      var rest := Pressed(shell, next, events[1..], true);
      assert next.read + next.keys + rest == s.read + s.keys + Pressed(shell, s, events, true);
    }
  }

  /** A pressed key is missing exactly when some key strikes while 256 scancodes wait. */
  lemma {:induction false} NothingMissingIff(shell: Id, s: State, events: seq<Event>)
    requires |s.keys| <= 256
    ensures |Pressed(shell, s, events, true)| <= |Pressed(shell, s, events, false)|
    ensures Pressed(shell, s, events, true) == Pressed(shell, s, events, false) <==> NeverFull(shell, s, events)
    ensures |Pressed(shell, s, events, true)| == |Pressed(shell, s, events, false)| ==> NeverFull(shell, s, events)
    decreases |events|
  {
    hide Step;
    if events != [] {
      var next := Step(shell, s, events[0]);
      StepKeys(shell, s, events[0]);
      NothingMissingIff(shell, next, events[1..]);
      NeverFullFirst(shell, s, events);
      var some, all := Pressed(shell, next, events[1..], true), Pressed(shell, next, events[1..], false);
      assert forall a: nat :: [a] + some == [a] + all ==> ([a] + some)[1..] == some && ([a] + all)[1..] == all;
    }
  }

  lemma NeverFullFirst(shell: Id, s: State, events: seq<Event>)
    requires events != []
    ensures NeverFull(shell, s, events) <==>
            (events[0].Key? && Struck(s) && s.open ==> |s.keys| != 256)
            && NeverFull(shell, Step(shell, s, events[0]), events[1..])
  {
    hide Step;
    var next := Step(shell, s, events[0]);
    assert events[..0] == [] && Run(shell, s, []) == s;
    forall i | 0 < i < |events|
      ensures Run(shell, s, events[..i]) == Run(shell, next, events[1..][..i - 1])
      ensures events[i] == events[1..][i - 1]
    {
      assert events[..i][1..] == events[1..][..i - 1];
    }
    if NeverFull(shell, s, events) {
      forall i | 0 <= i < |events[1..]|
        ensures var at := Run(shell, next, events[1..][..i]);
          events[1..][i].Key? && Struck(at) && at.open ==> |at.keys| != 256
      {
        assert Run(shell, s, events[..i + 1]) == Run(shell, next, events[1..][..i]);
      }
    }
  }

  /** The shell has its stream exactly when it asked for a scancode before. */
  lemma {:induction false} OpenIff(shell: Id, s: State, events: seq<Event>)
    ensures Run(shell, s, events).open <==>
            s.open || exists i :: 0 <= i < |events| && events[i] == Cpu(AwaitKeys)
                                  && Run(shell, s, events[..i]).pc == Polling(shell)
    decreases |events|
  {
    hide Step;
    if events != [] {
      var next := Step(shell, s, events[0]);
      OpenStep(shell, s, events[0]);
      OpenIff(shell, next, events[1..]);
      assert events[..0] == [] && Run(shell, s, []) == s;
      forall i | 0 < i < |events|
        ensures Run(shell, s, events[..i]) == Run(shell, next, events[1..][..i - 1])
        ensures events[i] == events[1..][i - 1]
      {
        assert events[..i][1..] == events[1..][..i - 1];
      }
      forall i | 0 <= i < |events[1..]|
        ensures Run(shell, next, events[1..][..i]) == Run(shell, s, events[..i + 1])
        ensures events[1..][i] == events[i + 1]
      {
      }
    }
  }

  lemma OpenStep(shell: Id, s: State, e: Event)
    ensures Step(shell, s, e).open <==> s.open || (e == Cpu(AwaitKeys) && s.pc == Polling(shell))
  {
  }

  /** From the start on: what the shell has read and what waits are the keys that struck its stream with fewer
      than 256 waiting, so all of them exactly if it never was full; a shell suspended on the stream with a
      scancode waiting is on the task queue; and the processor never halts with an id queued, nor with a
      scancode waiting for a suspended shell. */
  lemma {:induction false} NoLostKeystroke(shell: Id, ids: seq<Id>, events: seq<Event>)
    ensures var s := Run(shell, Start(ids), events);
      && s.read + s.keys == Pressed(shell, Start(ids), events, true)
      && (s.read + s.keys == Pressed(shell, Start(ids), events, false) <==> NeverFull(shell, Start(ids), events))
      && (!s.pc.Panicked? ==>
            && (Waits(s, shell) && s.keys != [] ==> shell in s.queue)
            && (s.pc.Halted? ==> s.queue == [] && !(Waits(s, shell) && s.keys != [])))
  {
    hide CpuStep, TimerStep, KeyStep, PollsOne;
    StartInv(shell, ids);
    KeysInOrder(shell, Start(ids), events);
    NothingMissingIff(shell, Start(ids), events);
    RunKeeps(shell, Start(ids), events);
  }

  /** A key pressed while the processor is halted and the shell waits is given to the shell in three steps. */
  lemma {:induction false} HaltedKeyIsDelivered(shell: Id, s: State, code: nat, c: Choice)
    requires Inv(shell, s) && s.pc.Halted? && Waits(s, shell)
    ensures var later := Run(shell, s, [Key(code), Cpu(c), Cpu(c)]);
      later.pc == Polling(shell) && later.read == s.read + [code] && later.keys == [] && later.queue == []
  {
    hide PollsOne;
    var one := Step(shell, s, Key(code));
    var two := Step(shell, one, Cpu(c));
    var three := Step(shell, two, Cpu(c));
    assert s.keyWaker == Some(shell) && s.keys == [];
    assert one.queue == [shell] && one.keys == [code];
    assert two.pc == KeyFirst(shell);
    assert Run(shell, s, [Key(code), Cpu(c), Cpu(c)]) == three by {
      RunSplit(shell, s, [Key(code)], [Cpu(c), Cpu(c)]);
      RunSplit(shell, one, [Cpu(c)], [Cpu(c)]);
    }
  }

  /** With nothing left to do the processor halts exactly when the task queue is still empty once interrupts are
      off; otherwise it goes on with the queue. Nothing that strikes while they are off is seen. */
  lemma {:induction false} HaltsIffNothingQueued(shell: Id, s: State, e: Event, c: Choice)
    requires s.pc.Idle? && !e.Cpu?
    ensures var off := Run(shell, s, [Cpu(c)]);
      && Step(shell, off, e) == off
      && Run(shell, s, [Cpu(c), Cpu(c), Cpu(c)]) == s.(pc := if s.queue == [] then Halted else Popping)
  {
    RunSplit(shell, s, [Cpu(c)], [Cpu(c), Cpu(c)]);
    RunSplit(shell, Run(shell, s, [Cpu(c)]), [Cpu(c)], [Cpu(c)]);
  }

  // ----- The timer

  /** A suspended sleeper that nothing will ever wake. */
  ghost predicate Lost(s: State, id: Id) {
    Sleeps(s, id) && id !in s.queue && s.timerWaker != Some(id) && s.keyWaker != Some(id)
  }

  /** A suspended sleeper that the next tick wakes, or that is already woken. */
  ghost predicate WillWake(s: State, id: Id) {
    Sleeps(s, id) && (id in s.queue || s.timerWaker == Some(id))
  }

  /** A sleeper is lost exactly when another one takes its waker slot before a tick. */
  lemma LostExactlyWhenOverwritten(shell: Id, s: State, e: Event, id: Id)
    requires Inv(shell, s) && !s.pc.Panicked? && !Step(shell, s, e).pc.Panicked? && WillWake(s, id)
    ensures Lost(Step(shell, s, e), id)
       <==> e.Cpu? && s.pc.SleepRegister? && s.pc.id != id && id !in s.queue
  {
    hide CpuStep, KeyStep;
    match e
    case Cpu(c) => LostByCpu(shell, s, c, id);
    case Timer =>
    case Key(code) =>
      if s.pc.InterruptsOn() {
        NotLostByKey(s, code, id);
      }
  }

  lemma LostByCpu(shell: Id, s: State, c: Choice, id: Id)
    requires Inv(shell, s) && !s.pc.Panicked? && !CpuStep(shell, s, c).pc.Panicked? && WillWake(s, id)
    ensures Lost(CpuStep(shell, s, c), id) <==> s.pc.SleepRegister? && s.pc.id != id && id !in s.queue
  {
    hide ShellReachable;
    if s.pc.Popping? && s.queue != [] {
      assert id in s.queue ==> id == s.queue[0] || id in s.queue[1..];
    }
  }

  lemma NotLostByKey(s: State, code: nat, id: Id)
    requires WillWake(s, id) && !KeyStep(s, code).pc.Panicked?
    ensures !Lost(KeyStep(s, code), id)
  {
  }

  /** No continuation, however many ticks and keys it has, runs a lost sleeper again. */
  lemma {:induction false} LostForever(shell: Id, s: State, events: seq<Event>, id: Id)
    requires Inv(shell, s) && Lost(s, id) && !s.pc.Panicked?
    ensures var later := Run(shell, s, events); later.pc.Panicked? || Lost(later, id)
    decreases |events|
  {
    hide Inv;
    if events != [] {
      var next := Step(shell, s, events[0]);
      LostStep(shell, s, events[0], id);
      RunKeeps(shell, s, [events[0]]);
      if next.pc.Panicked? {
        PanicStays(shell, next, events[1..]);
      } else {
        LostForever(shell, next, events[1..], id);
      }
    }
  }

  lemma {:induction false} PanicStays(shell: Id, s: State, events: seq<Event>)
    requires s.pc.Panicked?
    ensures Run(shell, s, events).pc.Panicked?
    decreases |events|
  {
    if events != [] {
      PanicStays(shell, Step(shell, s, events[0]), events[1..]);
    }
  }

  lemma LostStep(shell: Id, s: State, e: Event, id: Id)
    requires Inv(shell, s) && Lost(s, id) && !s.pc.Panicked?
    ensures Step(shell, s, e).pc.Panicked? || Lost(Step(shell, s, e), id)
  {
    hide KeyWakerSound, ShellReachable;
    assert !s.pc.Polls(id);
    match e
    case Cpu(c) =>
      if s.pc.KeyRegister? || s.pc.SleepRegister? {
        assert s.pc.id != id;
      }
    case Timer =>
    case Key(code) =>
  }

  /** Two tasks that sleep: when the second stores its waker, the first is lost, and stays lost whatever
      happens afterwards. */
  lemma {:induction false} TwoSleepersLoseTheFirst(shell: Id, n: nat, m: nat, c: Choice, events: seq<Event>)
    requires n > 0 && m > 0
    ensures var schedule := [Cpu(c), Cpu(AwaitSleep(n)), Cpu(c), Cpu(c), Cpu(c), Cpu(AwaitSleep(m)), Cpu(c), Cpu(c)];
      var later := Run(shell, Start([0, 1]), schedule + events);
      later.pc.Panicked? || Lost(later, 0)
  {
    hide Inv, Lost;
    var schedule := [Cpu(c), Cpu(AwaitSleep(n)), Cpu(c), Cpu(c), Cpu(c), Cpu(AwaitSleep(m)), Cpu(c), Cpu(c)];
    var first, second := SleepNow(n, c), SleepNow(m, c);
    assert schedule == first + second;
    RunSplit(shell, Start([0, 1]), schedule, events);
    RunSplit(shell, Start([0, 1]), first, second);
    var a := SleepsNext(shell, Start([0, 1]), n, c);
    var b := SleepsNext(shell, a, m, c);
    StartInv(shell, [0, 1]);
    RunKeeps(shell, Start([0, 1]), schedule);
    SecondTakesTheSlot(b);
    LostForever(shell, b, events, 0);
  }

  lemma SecondTakesTheSlot(s: State)
    requires Sleeps(s, 0) && s.queue == [] && s.timerWaker == Some(1) && s.keyWaker == None
    ensures Lost(s, 0)
  {
  }

  /** A task is popped, asks for a sleep, finds it not due and stores its waker. */
  function SleepNow(n: nat, c: Choice): seq<Event> {
    [Cpu(c), Cpu(AwaitSleep(n)), Cpu(c), Cpu(c)]
  }

  lemma SleepsNext(shell: Id, s: State, n: nat, c: Choice) returns (later: State)
    requires s.pc.Popping? && s.queue != [] && s.queue[0] in s.tasks && s.tasks[s.queue[0]].Fresh? && n > 0
    ensures later == Run(shell, s, SleepNow(n, c))
    ensures later == s.(queue := s.queue[1..], timerWaker := Some(s.queue[0]), tasks := later.tasks)
    ensures later.tasks == s.tasks[s.queue[0] := OnTimer(s.ticks + n)]
  {
    var id := s.queue[0];
    var one := Step(shell, s, Cpu(c));
    var two := Step(shell, one, Cpu(AwaitSleep(n)));
    var three := Step(shell, two, Cpu(c));
    later := Step(shell, three, Cpu(c));
    assert two.pc == SleepLoad(id, s.ticks + n);
    RunSplit(shell, s, [Cpu(c)], [Cpu(AwaitSleep(n)), Cpu(c), Cpu(c)]);
    RunSplit(shell, one, [Cpu(AwaitSleep(n))], [Cpu(c), Cpu(c)]);
    RunSplit(shell, two, [Cpu(c)], [Cpu(c)]);
    assert [Cpu(c)] + [Cpu(AwaitSleep(n)), Cpu(c), Cpu(c)] == SleepNow(n, c);
    assert [Cpu(AwaitSleep(n))] + [Cpu(c), Cpu(c)] == [Cpu(AwaitSleep(n)), Cpu(c), Cpu(c)];
    assert s.tasks[id := Polled][id := OnTimer(s.ticks + n)] == s.tasks[id := OnTimer(s.ticks + n)];
  }

  /** Along the run no task but `z` asks for a sleep. */
  ghost predicate OnlySleeper(shell: Id, s: State, events: seq<Event>, z: Id)
    decreases |events|
  {
    events == [] ||
    (&& (events[0].Cpu? && events[0].choice.AwaitSleep? && s.pc.Polling? ==> s.pc.id == z)
     && OnlySleeper(shell, Step(shell, s, events[0]), events[1..], z))
  }

  ghost predicate LoneInv(s: State, z: Id) {
    && (forall id | id in s.tasks && s.tasks[id].OnTimer? :: id == z)
    && (s.pc.SleepLoad? || s.pc.SleepRegister? ==> s.pc.id == z)
    && (Sleeps(s, z) ==> WillWake(s, z))
  }

  lemma LoneStep(shell: Id, s: State, e: Event, z: Id)
    requires Inv(shell, s) && LoneInv(s, z) && !s.pc.Panicked?
    requires e.Cpu? && e.choice.AwaitSleep? && s.pc.Polling? ==> s.pc.id == z
    ensures Step(shell, s, e).pc.Panicked? || LoneInv(Step(shell, s, e), z)
  {
    hide CpuStep;
    match e
    case Cpu(c) => LoneCpu(shell, s, c, z);
    case Timer =>
    case Key(code) =>
  }

  lemma LoneCpu(shell: Id, s: State, c: Choice, z: Id)
    requires Inv(shell, s) && LoneInv(s, z) && !s.pc.Panicked?
    requires c.AwaitSleep? && s.pc.Polling? ==> s.pc.id == z
    ensures CpuStep(shell, s, c).pc.Panicked? || LoneInv(CpuStep(shell, s, c), z)
  {
    hide KeyWakerSound, ShellReachable;
    if s.pc.Popping? && s.queue != [] {
      assert z in s.queue ==> z == s.queue[0] || z in s.queue[1..];
    }
  }

  /** A lone suspended sleeper is always registered or queued, in every interleaving. */
  lemma {:induction false} LoneSleeperWakes(shell: Id, s: State, events: seq<Event>, z: Id)
    requires Inv(shell, s) && LoneInv(s, z) && OnlySleeper(shell, s, events, z)
    ensures var later := Run(shell, s, events);
      later.pc.Panicked? || (LoneInv(later, z) && (Sleeps(later, z) ==> WillWake(later, z)))
    decreases |events|
  {
    hide Inv, LoneInv, WillWake;
    if events == [] {
      assert LoneInv(s, z) && (Sleeps(s, z) ==> WillWake(s, z)) by {
        LoneMeans(s, z);
      }
    } else if s.pc.Panicked? {
      PanicStays(shell, s, events);
    } else {
      var next := Step(shell, s, events[0]);
      LoneStep(shell, s, events[0], z);
      RunKeeps(shell, s, [events[0]]);
      if next.pc.Panicked? {
        PanicStays(shell, next, events[1..]);
      } else {
        LoneSleeperWakes(shell, next, events[1..], z);
      }
    }
  }

  lemma LoneMeans(s: State, z: Id)
    requires LoneInv(s, z)
    ensures Sleeps(s, z) ==> WillWake(s, z)
  {
  }

  /** The program as shipped spawns the shell alone: its sleeps always end in a wake. */
  lemma {:induction false} ShellSleepsSafely(shell: Id, events: seq<Event>)
    ensures var later := Run(shell, Start([shell]), events);
      later.pc.Panicked? || (Sleeps(later, shell) ==> WillWake(later, shell))
  {
    hide Inv, LoneInv, OnlySleeper;
    StartInv(shell, [shell]);
    AloneIsOnly(shell, Start([shell]), events);
    assert LoneInv(Start([shell]), shell) by {
      StartLone(shell);
    }
    LoneSleeperWakes(shell, Start([shell]), events, shell);
  }

  lemma StartLone(z: Id)
    ensures LoneInv(Start([z]), z)
  {
  }

  lemma StepAlone(shell: Id, s: State, e: Event)
    requires Inv(shell, s) && forall id | id in s.tasks :: id == shell
    ensures (s.pc.Polling? ==> s.pc.id == shell) && forall id | id in Step(shell, s, e).tasks :: id == shell
  {
    hide KeyWakerSound, ShellReachable;
    assert s.pc.Busy() ==> s.pc.Polls(s.pc.id);
  }

  lemma {:induction false} AloneIsOnly(shell: Id, s: State, events: seq<Event>)
    requires Inv(shell, s) && forall id | id in s.tasks :: id == shell
    ensures OnlySleeper(shell, s, events, shell)
    decreases |events|
  {
    if events != [] {
      hide Inv, Step;
      RunKeeps(shell, s, [events[0]]);
      StepAlone(shell, s, events[0]);
      AloneIsOnly(shell, Step(shell, s, events[0]), events[1..]);
    }
  }

  /** At a halt, the tick at which a lone sleeper is due runs it in three steps. */
  lemma {:induction false} HaltedTickRunsSleeper(shell: Id, s: State, z: Id, c: Choice)
    requires Inv(shell, s) && LoneInv(s, z) && s.pc.Halted? && Sleeps(s, z) && s.ticks + 1 >= s.tasks[z].target
    ensures var later := Run(shell, s, [Timer, Cpu(c), Cpu(c)]);
      later.pc == Polling(z) && later.queue == [] && later.timerWaker == None
  {
    hide PollsOne, KeyWakerSound, ShellReachable;
    var one := Step(shell, s, Timer);
    var two := Step(shell, one, Cpu(c));
    var three := Step(shell, two, Cpu(c));
    assert s.timerWaker == Some(z) && one.queue == [z];
    assert two.pc == SleepLoad(z, s.tasks[z].target);
    RunSplit(shell, s, [Timer], [Cpu(c), Cpu(c)]);
    RunSplit(shell, one, [Cpu(c)], [Cpu(c)]);
  }

  /** The timer interrupts of a run that strike. */
  ghost function TicksIn(shell: Id, s: State, events: seq<Event>): nat
    decreases |events|
  {
    if events == [] then 0
    else Bit(events[0] == Timer && Struck(s)) + TicksIn(shell, Step(shell, s, events[0]), events[1..])
  }

  /** The task is in the middle of a sleep that ends at tick `target`. */
  ghost predicate Asleep(s: State, id: Id, target: nat) {
    || s.pc == SleepLoad(id, target) || s.pc == SleepRegister(id, target)
    || (id in s.tasks && s.tasks[id] == OnTimer(target))
  }

  lemma SleepStep(shell: Id, s: State, e: Event, id: Id, target: nat)
    requires Inv(shell, s) && !s.pc.Panicked? && Asleep(s, id, target)
    ensures var next := Step(shell, s, e);
      next.pc.Panicked? || Asleep(next, id, target) || (next.pc == Polling(id) && next.ticks >= target)
  {
    hide KeyWakerSound, ShellReachable;
    assert s.pc.Busy() ==> s.pc.Polls(s.pc.id);
  }

  lemma StepTicks(shell: Id, s: State, e: Event)
    ensures Step(shell, s, e).ticks == s.ticks + Bit(e == Timer && Struck(s))
  {
  }

  /** Between two points at which a sleeping task runs there are all the ticks that it sleeps for. */
  lemma {:induction false} AsleepUntil(shell: Id, s: State, events: seq<Event>, id: Id, target: nat)
    requires Inv(shell, s) && !s.pc.Panicked? && Asleep(s, id, target) && s.pc != Polling(id)
    requires Run(shell, s, events).pc == Polling(id)
    ensures s.ticks + TicksIn(shell, s, events) >= target
    decreases |events|
  {
    hide Step, Inv, Asleep;
    var next := Step(shell, s, events[0]);
    SleepStep(shell, s, events[0], id, target);
    StepTicks(shell, s, events[0]);
    RunKeeps(shell, s, [events[0]]);
    assert Run(shell, s, [events[0]]) == next;
    if next.pc.Panicked? {
      PanicStays(shell, next, events[1..]);
    } else if !(next.pc == Polling(id) && next.ticks >= target) {
      if next.pc == Polling(id) {
        NotAsleep(shell, next, id, target);
      } else {
        AsleepUntil(shell, next, events[1..], id, target);
      }
    }
  }

  lemma NotAsleep(shell: Id, s: State, id: Id, target: nat)
    requires Inv(shell, s) && s.pc == Polling(id)
    ensures !Asleep(s, id, target)
  {
  }

  /** A task that asks to sleep for `n` ticks does not run its own code again before `n` ticks have struck, in
      any interleaving and whatever wakes it. */
  lemma {:induction false} SleepsLongEnough(shell: Id, s: State, n: nat, events: seq<Event>, id: Id)
    requires Inv(shell, s) && s.pc == Polling(id)
    requires Run(shell, s, [Cpu(AwaitSleep(n))] + events).pc == Polling(id)
    ensures TicksIn(shell, s, [Cpu(AwaitSleep(n))] + events) >= n
  {
    var asked := Step(shell, s, Cpu(AwaitSleep(n)));
    assert ([Cpu(AwaitSleep(n))] + events)[1..] == events;
    RunKeeps(shell, s, [Cpu(AwaitSleep(n))]);
    AsleepUntil(shell, asked, events, id, s.ticks + n);
  }

  // ----- The task queue

  /** The ids that the wakers of a run put on the task queue, in order. */
  ghost function Woken(shell: Id, s: State, events: seq<Event>): seq<Id>
    decreases |events|
  {
    if events == [] then []
    else
      var waker := match events[0] case Timer => s.timerWaker case Key(code) => s.keyWaker case Cpu(c) => None;
      (if Struck(s) && waker.Some? && |s.queue| < 100 then [waker.value] else [])
      + Woken(shell, Step(shell, s, events[0]), events[1..])
  }

  /** The ids that the executor takes off the task queue, in order. */
  ghost function Taken(shell: Id, s: State, events: seq<Event>): seq<Id>
    decreases |events|
  {
    if events == [] then []
    else
      (if events[0].Cpu? && s.pc == Popping && s.queue != [] then [s.queue[0]] else [])
      + Taken(shell, Step(shell, s, events[0]), events[1..])
  }

  lemma {:induction false} StepQueue(shell: Id, s: State, e: Event)
    ensures Taken(shell, s, [e]) + Step(shell, s, e).queue == s.queue + Woken(shell, s, [e])
  {
    assert [e][1..] == [];
    var next := Step(shell, s, e);
    assert Taken(shell, next, []) == [] && Woken(shell, next, []) == [];
    match e
    case Cpu(c) =>
    case Timer =>
    case Key(code) =>
  }

  /** The task queue is first in, first out: the ids taken and those still queued are those queued at first and
      those woken since, in order. */
  lemma {:induction false} FirstComeFirstServed(shell: Id, s: State, events: seq<Event>)
    ensures Taken(shell, s, events) + Run(shell, s, events).queue == s.queue + Woken(shell, s, events)
    decreases |events|
  {
    hide Step;
    if events != [] {
      var e := events[0];
      var next := Step(shell, s, e);
      StepQueue(shell, s, e);
      FirstComeFirstServed(shell, next, events[1..]);
      assert [e][1..] == [] && Taken(shell, next, []) == [] && Woken(shell, next, []) == [];
      InOrder(Taken(shell, s, [e]), next.queue, s.queue, Woken(shell, s, [e]),
              Taken(shell, next, events[1..]), Run(shell, next, events[1..]).queue, Woken(shell, next, events[1..]));
    }
  }

  lemma InOrder(taken: seq<Id>, next: seq<Id>, queue: seq<Id>, woken: seq<Id>, later: seq<Id>, left: seq<Id>,
                wokenLater: seq<Id>)
    requires taken + next == queue + woken && later + left == next + wokenLater
    ensures (taken + later) + left == queue + (woken + wokenLater)
  {
    assert taken + (later + left) == (taken + later) + left;
    assert taken + (next + wokenLater) == (taken + next) + wokenLater;
    assert (queue + woken) + wokenLater == queue + (woken + wokenLater);
  }

  ghost function Bit(b: bool): nat {
    if b then 1 else 0
  }

  /** The ids in circulation: queued, stored in a waker slot outside the window, or being polled. */
  ghost function Tokens(s: State): nat {
    |s.queue| + Bit(s.timerWaker.Some?) + Bit(s.keyWaker.Some? && !s.pc.InWindow()) + Bit(s.pc.Busy())
  }

  /** A key that arrives in the window: the shell is queued although it goes on running. */
  ghost function IsHit(s: State, e: Event): bool {
    e.Key? && s.pc.InWindow() && s.keyWaker.Some?
  }

  ghost function Hits(shell: Id, s: State, events: seq<Event>): nat
    decreases |events|
  {
    if events == [] then 0 else Bit(IsHit(s, events[0])) + Hits(shell, Step(shell, s, events[0]), events[1..])
  }

  lemma StartTokens(ids: seq<Id>)
    ensures Tokens(Start(ids)) == |ids|
  {
  }

  lemma TokensOfCpu(shell: Id, s: State, c: Choice)
    requires !s.pc.Panicked? && !s.pc.InKeys()
    ensures var next := CpuStep(shell, s, c);
      next.pc.Panicked? || Tokens(next) <= Tokens(s)
  {
  }

  lemma TokensOfKeys(shell: Id, s: State, c: Choice)
    requires s.pc.InKeys()
    ensures Tokens(CpuStep(shell, s, c)) <= Tokens(s)
  {
  }

  lemma TokensOfKey(s: State, code: nat)
    requires s.pc.InterruptsOn()
    ensures var next := KeyStep(s, code);
      next.pc.Panicked? || Tokens(next) <= Tokens(s) + Bit(IsHit(s, Key(code)))
  {
  }

  lemma TokensOfTimer(s: State)
    requires s.pc.InterruptsOn()
    ensures TimerStep(s).pc.Panicked? || Tokens(TimerStep(s)) <= Tokens(s)
  {
  }

  lemma TokensStep(shell: Id, s: State, e: Event)
    requires !s.pc.Panicked?
    ensures var next := Step(shell, s, e);
      next.pc.Panicked? || Tokens(next) <= Tokens(s) + Bit(IsHit(s, e))
  {
    hide CpuStep, KeyStep, TimerStep, Tokens;
    match e
    case Cpu(c) =>
      if s.pc.InKeys() {
        TokensOfKeys(shell, s, c);
      } else {
        TokensOfCpu(shell, s, c);
      }
    case Timer =>
      if s.pc.InterruptsOn() {
        TokensOfTimer(s);
      }
    case Key(code) =>
      if s.pc.InterruptsOn() {
        TokensOfKey(s, code);
      }
  }

  /** A wake can only find the task queue full when more than a queue of ids circulates. */
  lemma PanicNeedsTokens(shell: Id, s: State, e: Event)
    requires Inv(shell, s) && !s.pc.Panicked? && Step(shell, s, e).pc.Panicked?
    ensures Tokens(s) + Bit(IsHit(s, e)) > QUEUE_SLOTS || (e == Cpu(AwaitKeys) && s.pc.Polling? && s.pc.id != shell)
  {
    hide Inv, CpuStep;
    if e.Cpu? {
      PanicByCpu(shell, s, e.choice);
    }
  }

  lemma PanicByCpu(shell: Id, s: State, c: Choice)
    requires !s.pc.Panicked? && CpuStep(shell, s, c).pc.Panicked?
    ensures c == AwaitKeys && s.pc.Polling? && s.pc.id != shell
  {
  }

  /** Only the shell asks for scancodes. */
  ghost predicate OneStream(shell: Id, s: State, events: seq<Event>)
    decreases |events|
  {
    events == [] ||
    (&& (events[0] == Cpu(AwaitKeys) && s.pc.Polling? ==> s.pc.id == shell)
     && OneStream(shell, Step(shell, s, events[0]), events[1..]))
  }

  /** While the tasks and the keys that hit the window are together at most the slots of the task queue, no
      wake panics, in any interleaving. */
  lemma {:induction false} NoPanic(shell: Id, s: State, events: seq<Event>)
    requires Inv(shell, s) && !s.pc.Panicked? && OneStream(shell, s, events)
    requires Tokens(s) + Hits(shell, s, events) <= QUEUE_SLOTS
    ensures !Run(shell, s, events).pc.Panicked?
    decreases |events|
  {
    hide Inv, Tokens, Step;
    if events != [] {
      if Step(shell, s, events[0]).pc.Panicked? {
        PanicNeedsTokens(shell, s, events[0]);
      }
      TokensStep(shell, s, events[0]);
      RunKeeps(shell, s, [events[0]]);
      NoPanic(shell, Step(shell, s, events[0]), events[1..]);
    }
  }

  // ----- The bound is exact

  lemma {:induction false} HitsSplit(shell: Id, s: State, a: seq<Event>, b: seq<Event>)
    ensures Hits(shell, s, a + b) == Hits(shell, s, a) + Hits(shell, Run(shell, s, a), b)
    ensures OneStream(shell, s, a + b) <==> OneStream(shell, s, a) && OneStream(shell, Run(shell, s, a), b)
    decreases |a|
  {
    hide Step;
    if a == [] {
      assert a + b == b;
    } else {
      assert (a + b)[1..] == a[1..] + b;
      HitsSplit(shell, Step(shell, s, a[0]), a[1..], b);
    }
  }

  /** From `s` the events lead to `t`, with so many hits and one stream. */
  ghost predicate Leads(shell: Id, s: State, events: seq<Event>, t: State, hits: nat) {
    Run(shell, s, events) == t && Hits(shell, s, events) == hits && OneStream(shell, s, events)
  }

  lemma LeadsThen(shell: Id, s: State, a: seq<Event>, t: State, m: nat, b: seq<Event>, u: State, n: nat)
    requires Leads(shell, s, a, t, m) && Leads(shell, t, b, u, n)
    ensures Leads(shell, s, a + b, u, m + n)
  {
    hide Step;
    RunSplit(shell, s, a, b);
    HitsSplit(shell, s, a, b);
  }

  lemma LeadsNowhere(shell: Id, s: State)
    ensures Leads(shell, s, [], s, 0)
  {
  }

  lemma LeadsOne(shell: Id, s: State, e: Event)
    requires e == Cpu(AwaitKeys) && s.pc.Polling? ==> s.pc.id == shell
    ensures Leads(shell, s, [e], Step(shell, s, e), Bit(IsHit(s, e)))
  {
    hide Step;
    assert [e][1..] == [];
    var t := Step(shell, s, e);
    assert Run(shell, t, []) == t && Hits(shell, t, []) == 0 && OneStream(shell, t, []);
  }

  /** Nothing but the task queue is in use: the processor is about to take an id, and no waker is stored. */
  ghost predicate Quiet(s: State) {
    s.pc.Popping? && s.keyWaker.None? && s.timerWaker.None? && !s.open && s.keys == []
  }

  /** A task that has not run yet sleeps a tick and is queued again, at the end. */
  lemma Rotate(shell: Id, s: State) returns (events: seq<Event>, t: State)
    requires Quiet(s) && 0 < |s.queue| <= QUEUE_SLOTS
    requires s.queue[0] in s.tasks && s.tasks[s.queue[0]].Fresh?
    ensures Leads(shell, s, events, t, 0) && Quiet(t) && t.queue == s.queue[1..] + [s.queue[0]]
    ensures t.tasks.Keys == s.tasks.Keys && forall id | id in s.tasks && id != s.queue[0] :: t.tasks[id] == s.tasks[id]
  {
    hide Leads;
    var c := Cpu(AwaitSleep(1));
    var a := Step(shell, s, c);
    LeadsOne(shell, s, c);
    var b := Step(shell, a, c);
    LeadsOne(shell, a, c);
    LeadsThen(shell, s, [c], a, 0, [c], b, 0);
    var d := Step(shell, b, c);
    LeadsOne(shell, b, c);
    LeadsThen(shell, s, [c] + [c], b, 0, [c], d, 0);
    var e := Step(shell, d, c);
    LeadsOne(shell, d, c);
    LeadsThen(shell, s, [c] + [c] + [c], d, 0, [c], e, 0);
    t := Step(shell, e, Timer);
    LeadsOne(shell, e, Timer);
    LeadsThen(shell, s, [c] + [c] + [c] + [c], e, 0, [Timer], t, 0);
    events := [c] + [c] + [c] + [c] + [Timer];
  }

  /** The tasks in front of the shell sleep in turn, so that the shell comes first. */
  lemma {:induction false} ShellFirst(shell: Id, s: State, p: nat) returns (events: seq<Event>, t: State)
    requires Quiet(s) && p < |s.queue| <= QUEUE_SLOTS && s.queue[p] == shell
    requires forall i | 0 <= i <= p :: s.queue[i] in s.tasks && s.tasks[s.queue[i]].Fresh?
    requires forall i, j | 0 <= i < j <= p :: s.queue[i] != s.queue[j]
    ensures Leads(shell, s, events, t, 0) && Quiet(t)
    ensures |t.queue| == |s.queue| && t.queue[0] == shell && shell in t.tasks && t.tasks[shell].Fresh?
    decreases p
  {
    hide Leads;
    if p == 0 {
      LeadsNowhere(shell, s);
      events, t := [], s;
    } else {
      var first, next := Rotate(shell, s);
      assert forall i | 0 <= i < p :: next.queue[i] == s.queue[i + 1];
      var rest: seq<Event>;
      rest, t := ShellFirst(shell, next, p - 1);
      LeadsThen(shell, s, first, next, 0, rest, t, 0);
      events := first + rest;
    }
  }

  /** The shell is running, with its stream created and nothing to read. */
  ghost predicate Running(shell: Id, s: State) {
    s.pc == Polling(shell) && s.open && s.keys == [] && s.keyWaker.None?
  }

  /** The shell is taken off the queue and creates its stream. */
  lemma ShellStarts(shell: Id, s: State) returns (t: State)
    requires Quiet(s) && s.queue != [] && s.queue[0] == shell && shell in s.tasks && s.tasks[shell].Fresh?
    ensures Leads(shell, s, [Cpu(AwaitKeys)] + [Cpu(AwaitKeys)], t, 0) && Running(shell, t)
    ensures |t.queue| == |s.queue| - 1
  {
    hide Leads;
    var a := Step(shell, s, Cpu(AwaitKeys));
    LeadsOne(shell, s, Cpu(AwaitKeys));
    t := Step(shell, a, Cpu(AwaitKeys));
    LeadsOne(shell, a, Cpu(AwaitKeys));
    LeadsThen(shell, s, [Cpu(AwaitKeys)], a, 0, [Cpu(AwaitKeys)], t, 0);
  }

  /** The shell asks for a key, finds none and stores its waker. */
  function Ask(): seq<Event> {
    [Cpu(AwaitKeys)] + [Cpu(AwaitKeys)] + [Cpu(AwaitKeys)]
  }

  lemma ShellAsks(shell: Id, s: State) returns (t: State)
    requires Running(shell, s)
    ensures Leads(shell, s, Ask(), t, 0)
    ensures t == s.(keyWaker := Some(shell), pc := KeySecond(shell))
  {
    hide Leads;
    var c := Cpu(AwaitKeys);
    var a := Step(shell, s, c);
    LeadsOne(shell, s, c);
    var b := Step(shell, a, c);
    LeadsOne(shell, a, c);
    LeadsThen(shell, s, [c], a, 0, [c], b, 0);
    t := Step(shell, b, c);
    LeadsOne(shell, b, c);
    LeadsThen(shell, s, [c] + [c], b, 0, [c], t, 0);
  }

  /** One key per window: the shell stores its waker, is woken although it runs, and reads the key. */
  function Burst(code: nat): seq<Event> {
    Ask() + ([Key(code)] + [Cpu(AwaitKeys)] + [Cpu(AwaitKeys)])
  }

  lemma BurstQueues(shell: Id, s: State, code: nat) returns (t: State)
    requires Running(shell, s) && |s.queue| < QUEUE_SLOTS
    ensures Leads(shell, s, Burst(code), t, 1) && Running(shell, t) && |t.queue| == |s.queue| + 1
  {
    hide Leads;
    var c := Cpu(AwaitKeys);
    var asked := ShellAsks(shell, s);
    var a := Step(shell, asked, Key(code));
    LeadsOne(shell, asked, Key(code));
    var b := Step(shell, a, c);
    LeadsOne(shell, a, c);
    LeadsThen(shell, asked, [Key(code)], a, 1, [c], b, 0);
    t := Step(shell, b, c);
    LeadsOne(shell, b, c);
    LeadsThen(shell, asked, [Key(code)] + [c], b, 1, [c], t, 0);
    LeadsThen(shell, s, Ask(), asked, 0, [Key(code)] + [c] + [c], t, 1);
  }

  lemma {:induction false} BurstsQueue(shell: Id, s: State, n: nat, code: nat) returns (events: seq<Event>, t: State)
    requires Running(shell, s) && |s.queue| + n <= QUEUE_SLOTS
    ensures Leads(shell, s, events, t, n) && Running(shell, t) && |t.queue| == |s.queue| + n
    decreases n
  {
    hide Leads, Burst;
    if n == 0 {
      LeadsNowhere(shell, s);
      events, t := [], s;
    } else {
      var next := BurstQueues(shell, s, code);
      events, t := BurstsQueue(shell, next, n - 1, code);
      LeadsThen(shell, s, Burst(code), next, 1, events, t, n - 1);
      events := Burst(code) + events;
    }
  }

  /** With a full queue the shell stores its waker, waits, and the next key finds no slot. */
  lemma FullPanics(shell: Id, s: State, code: nat) returns (t: State)
    requires Running(shell, s) && |s.queue| == QUEUE_SLOTS
    ensures Leads(shell, s, Ask() + ([Cpu(AwaitKeys)] + [Key(code)]), t, 0) && t.pc.Panicked?
  {
    hide Leads;
    var c := Cpu(AwaitKeys);
    var asked := ShellAsks(shell, s);
    var a := Step(shell, asked, c);
    LeadsOne(shell, asked, c);
    t := Step(shell, a, Key(code));
    LeadsOne(shell, a, Key(code));
    LeadsThen(shell, asked, [c], a, 0, [Key(code)], t, 0);
    LeadsThen(shell, s, Ask(), asked, 0, [c] + [Key(code)], t, 0);
  }

  /** The tasks that the executor is started with: no id twice, the shell among them, no more than it has slots
      for. */
  ghost predicate Spawned(shell: Id, ids: seq<Id>) {
    shell in ids && |ids| <= QUEUE_SLOTS && forall i, j | 0 <= i < j < |ids| :: ids[i] != ids[j]
  }

  /** Enough hits for the queue to fill up, and one key more, make the keyboard interrupt panic. */
  lemma PanicReachable(shell: Id, ids: seq<Id>, code: nat) returns (events: seq<Event>)
    requires Spawned(shell, ids)
    ensures OneStream(shell, Start(ids), events) && Run(shell, Start(ids), events).pc.Panicked?
    ensures Hits(shell, Start(ids), events) == QUEUE_SLOTS + 1 - |ids|
  {
    hide Leads, Running, Quiet, Step, Ask;
    var s := Start(ids);
    var p :| 0 <= p < |ids| && ids[p] == shell;
    StartQuiet(ids);
    var rotations, first := ShellFirst(shell, s, p);
    var running := ShellStarts(shell, first);
    var create, n := [Cpu(AwaitKeys)] + [Cpu(AwaitKeys)], QUEUE_SLOTS + 1 - |ids|;
    LeadsThen(shell, s, rotations, first, 0, create, running, 0);
    var bursts, full := BurstsQueue(shell, running, n, code);
    LeadsThen(shell, s, rotations + create, running, 0, bursts, full, n);
    var last := FullPanics(shell, full, code);
    LeadsThen(shell, s, rotations + create + bursts, full, n, Ask() + ([Cpu(AwaitKeys)] + [Key(code)]), last, 0);
    events := rotations + create + bursts + (Ask() + ([Cpu(AwaitKeys)] + [Key(code)]));
    LeadsMeans(shell, s, events, last, n);
  }

  lemma StartQuiet(ids: seq<Id>)
    ensures Quiet(Start(ids))
  {
  }

  lemma {:induction false} LeadsMeans(shell: Id, s: State, events: seq<Event>, t: State, hits: nat)
    requires Leads(shell, s, events, t, hits)
    ensures Run(shell, s, events) == t && Hits(shell, s, events) == hits && OneStream(shell, s, events)
  {
  }

  /** For every set of tasks: no schedule with at most `h` hits panics if and only if the tasks and the hits
      together are at most the slots of the task queue. */
  lemma {:induction false} NoPanicIff(shell: Id, ids: seq<Id>, h: nat)
    requires Spawned(shell, ids)
    ensures (forall events | OneStream(shell, Start(ids), events) && Hits(shell, Start(ids), events) <= h ::
               !Run(shell, Start(ids), events).pc.Panicked?)
       <==> |ids| + h <= QUEUE_SLOTS
  {
    hide Run, OneStream, Hits;
    StartInv(shell, ids);
    StartTokens(ids);
    if |ids| + h <= QUEUE_SLOTS {
      forall events | OneStream(shell, Start(ids), events) && Hits(shell, Start(ids), events) <= h
        ensures !Run(shell, Start(ids), events).pc.Panicked?
      {
        NoPanic(shell, Start(ids), events);
      }
    } else {
      var events := PanicReachable(shell, ids, 0);
    }
  }
}
