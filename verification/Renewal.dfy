/** domainRenewal: the timer that renews one certificate, and the races between its callback, start and the one
    stop that the manager allows. Steps are what happens between two scheduling points. */
module Renewal {
  import opened Wrappers

  /** A time.AfterFunc timer: pending, stopped before it fired, or fired, when its callback is a goroutine. */
  datatype Timer =
    | Armed
    | Stopped
    | Waiting      // fired; the callback wants timerMu
    | Locked       // the callback has timerMu
    | Running      // the callback is inside do, with timerMu
    | Returned     // the callback is over

  /** Where the call of stop is. chan stands for the timerClose channel that it made. */
  datatype StopPc =
    | NotCalled
    | WantMu
    | HasMu
    | OnChannel
    | Done

  datatype Holder = Stopper | Callback(id: nat)

  /** The fields of a domainRenewal, the timers it has made, and the call of stop. closing: timerClose is not
      nil; closed: the channel has been closed; passes: how often the loop of stop has been entered. */
  datatype State = State(mu: Option<Holder>, timer: Option<nat>, closing: bool, closed: bool,
                         timers: seq<Timer>, stop: StopPc, passes: nat)

  datatype Action =
    | Start                    // start, whole: the mutex is taken and released without waiting inside
    | Fire(id: nat)
    | RenewLock(id: nat)
    | RenewClose(id: nat)      // renew finds timerClose
    | RenewDo(id: nat)         // renew goes on to do
    | RenewArm(id: nat)        // do has returned; the next timer is armed
    | StopCall
    | StopLock                 // first entry, or relocking after the channel
    | StopNil                  // the loop finds no timer
    | StopTimer                // timer.Stop() reports that it was in time
    | StopWait                 // timer.Stop() reports that it was too late
    | StopWake                 // the channel is closed

  predicate Enabled(s: State, a: Action) {
    match a
    // The manager makes an entry, starts it, and takes it out before stopping it, all under renewalMu.
    case Start => s.mu.None? && s.stop.NotCalled?
    case Fire(id) => id < |s.timers| && s.timers[id].Armed?
    case RenewLock(id) => id < |s.timers| && s.timers[id].Waiting? && s.mu.None?
    case RenewClose(id) => id < |s.timers| && s.timers[id].Locked? && s.closing
    case RenewDo(id) => id < |s.timers| && s.timers[id].Locked? && !s.closing
    case RenewArm(id) => id < |s.timers| && s.timers[id].Running?
    case StopCall => s.stop.NotCalled?
    case StopLock => s.stop.WantMu? && s.mu.None?
    case StopNil => s.stop.HasMu? && s.timer.None?
    case StopTimer => s.stop.HasMu? && s.timer.Some? && s.timer.value < |s.timers| && s.timers[s.timer.value].Armed?
    case StopWait => s.stop.HasMu? && s.timer.Some? && s.timer.value < |s.timers| && !s.timers[s.timer.value].Armed?
    case StopWake => s.stop.OnChannel? && s.closed
  }

  function Do(s: State, a: Action): State
    requires Enabled(s, a)
  {
    match a
    case Start =>
      if s.timer.Some? then s
      else s.(timer := Some(|s.timers|), timers := s.timers + [Armed])
    case Fire(id) => s.(timers := s.timers[id := Waiting])
    case RenewLock(id) => s.(timers := s.timers[id := Locked], mu := Some(Callback(id)))
    case RenewClose(id) =>
      s.(closed := true, timer := None, closing := false, timers := s.timers[id := Returned], mu := None)
    case RenewDo(id) => s.(timers := s.timers[id := Running])
    case RenewArm(id) =>
      s.(timer := Some(|s.timers|), timers := s.timers[id := Returned] + [Armed], mu := None)
    case StopCall => s.(stop := WantMu)
    case StopLock => s.(stop := HasMu, mu := Some(Stopper), passes := s.passes + 1)
    case StopNil => s.(stop := Done, mu := None)
    case StopTimer => s.(timers := s.timers[s.timer.value := Stopped], timer := None, stop := Done, mu := None)
    case StopWait => s.(closing := true, closed := false, stop := OnChannel, mu := None)
    case StopWake => s.(stop := WantMu)
  }

  // ---------------------------------------------------------------- what is kept

  /** A timer that is pending or whose callback is waiting or running. */
  predicate Live(t: Timer) {
    t.Armed? || t.Waiting? || t.Locked? || t.Running?
  }

  /** The field timer names the one live timer, and is nil when there is none. */
  predicate OneLive(s: State) {
    && (s.timer.Some? ==> s.timer.value < |s.timers| && Live(s.timers[s.timer.value]))
    && forall i :: 0 <= i < |s.timers| && Live(s.timers[i]) ==> s.timer == Some(i)
  }

  predicate MutexHeld(s: State) {
    && (forall i :: 0 <= i < |s.timers| ==>
          ((s.timers[i].Locked? || s.timers[i].Running?) <==> s.mu == Some(Callback(i))))
    && (s.stop.HasMu? <==> s.mu == Some(Stopper))
    && (s.mu.Some? && s.mu.value.Callback? ==> s.mu.value.id < |s.timers|)
  }

  /** stop waits on the channel only for a callback that has fired and will close it, and wakes up to a nil
      timer; so it enters its loop at most twice. */
  predicate StopProtocol(s: State) {
    && (s.stop.NotCalled? ==> s.passes == 0 && !s.closing)
    && (s.stop.WantMu? ==> s.passes <= 1 && !s.closing && (s.passes == 1 ==> s.timer.None?))
    && (s.stop.HasMu? ==> 1 <= s.passes <= 2 && !s.closing && (s.passes == 2 ==> s.timer.None?))
    && (s.stop.OnChannel? ==>
         && s.passes == 1
         && (if s.closed then !s.closing && s.timer.None?
             else
               s.closing && s.timer.Some? && s.timer.value < |s.timers|
               && (s.timers[s.timer.value].Waiting? || s.timers[s.timer.value].Locked?)))
    && (s.stop.Done? ==> 1 <= s.passes <= 2 && s.timer.None? && !s.closing)
  }

  predicate Inv(s: State) {
    OneLive(s) && MutexHeld(s) && StopProtocol(s)
  }

  const INITIAL := State(None, None, false, false, [], NotCalled, 0)

  lemma InitialInv()
    ensures Inv(INITIAL)
  {
  }

  lemma StepKeeps(s: State, a: Action)
    requires Inv(s) && Enabled(s, a)
    ensures Inv(Do(s, a))
  {
    KeepsOneLive(s, a);
    KeepsMutex(s, a);
    KeepsProtocol(s, a);
  }

  lemma KeepsOneLive(s: State, a: Action)
    requires Inv(s) && Enabled(s, a)
    ensures OneLive(Do(s, a))
  {
  }

  lemma KeepsMutex(s: State, a: Action)
    requires Inv(s) && Enabled(s, a)
    ensures MutexHeld(Do(s, a))
  {
  }

  lemma KeepsProtocol(s: State, a: Action)
    requires Inv(s) && Enabled(s, a)
    ensures StopProtocol(Do(s, a))
  {
  }

  // ---------------------------------------------------------------- runs

  predicate IsRun(s: State, run: seq<Action>)
    decreases |run|
  {
    run == [] || (Enabled(s, run[0]) && IsRun(Do(s, run[0]), run[1..]))
  }

  function After(s: State, run: seq<Action>): State
    requires IsRun(s, run)
    decreases |run|
  {
    if run == [] then s else After(Do(s, run[0]), run[1..])
  }

  lemma {:induction false} RunKeeps(s: State, run: seq<Action>)
    requires Inv(s) && IsRun(s, run)
    ensures Inv(After(s, run))
    decreases |run|
  {
    hide Inv, Do;
    if run != [] {
      StepKeeps(s, run[0]);
      RunKeeps(Do(s, run[0]), run[1..]);
    }
  }

  /** In every interleaving at most one callback is pending, waiting or running. */
  lemma AtMostOneCallback(run: seq<Action>, i: nat, j: nat)
    requires IsRun(INITIAL, run)
    requires i < |After(INITIAL, run).timers| && Live(After(INITIAL, run).timers[i])
    requires j < |After(INITIAL, run).timers| && Live(After(INITIAL, run).timers[j])
    ensures i == j
  {
    InitialInv();
    RunKeeps(INITIAL, run);
  }

  lemma StepArmed(s: State, a: Action)
    requires Inv(s) && Enabled(s, a) && Do(s, a).stop.NotCalled?
    ensures s.stop.NotCalled?
    ensures s.timer.Some? || a == Start ==> Do(s, a).timer.Some?
  {
  }

  lemma {:induction false} StopRemembered(s: State, run: seq<Action>)
    requires IsRun(s, run) && After(s, run).stop.NotCalled?
    ensures s.stop.NotCalled?
    decreases |run|
  {
    if run != [] {
      StopRemembered(Do(s, run[0]), run[1..]);
    }
  }

  lemma {:induction false} StaysArmed(s: State, run: seq<Action>)
    requires Inv(s) && IsRun(s, run) && After(s, run).stop.NotCalled?
    ensures s.timer.Some? || Start in run ==> After(s, run).timer.Some?
    decreases |run|
  {
    hide Inv, Do, Enabled;
    if run != [] {
      StopRemembered(Do(s, run[0]), run[1..]);
      StepArmed(s, run[0]);
      StepKeeps(s, run[0]);
      StaysArmed(Do(s, run[0]), run[1..]);
      assert run == [run[0]] + run[1..];
    }
  }

  /** Once start has happened and until stop is called, in every interleaving, the renewal goes on: exactly one
      timer is pending or has its callback waiting or running, and it is the one that the field names. */
  lemma AlwaysOneLive(run: seq<Action>)
    requires IsRun(INITIAL, run) && Start in run && After(INITIAL, run).stop.NotCalled?
    ensures var s := After(INITIAL, run);
      s.timer.Some? && forall i :: 0 <= i < |s.timers| ==> (Live(s.timers[i]) <==> s.timer == Some(i))
  {
    InitialInv();
    RunKeeps(INITIAL, run);
    StaysArmed(INITIAL, run);
  }

  /** A callback that has found no timerClose leaves, when it returns, a new pending timer that the field names. */
  lemma LeavesNextTimer(s: State, id: nat)
    requires Inv(s) && Enabled(s, RenewArm(id))
    ensures var s' := Do(s, RenewArm(id));
      && s'.timers[id].Returned? && s'.mu.None?
      && s'.timer.Some? && |s.timers| <= s'.timer.value < |s'.timers| && s'.timers[s'.timer.value].Armed?
  {
  }

  lemma OneStep(s: State, a: Action, rest: seq<Action>)
    requires Enabled(s, a) && IsRun(Do(s, a), rest)
    ensures IsRun(s, [a] + rest)
  {
    assert ([a] + rest)[1..] == rest;
    hide Do, Enabled;
  }

  predicate OwnSteps(run: seq<Action>) {
    forall a <- run :: a.Fire? || a.RenewLock? || a.RenewDo? || a.RenewArm?
  }

  /** Only the callback of the timer that the field names has the mutex. */
  lemma HolderIsTimer(s: State)
    requires Inv(s)
    ensures s.mu.Some? && s.mu.value.Callback? ==>
      var id := s.mu.value.id;
      s.timer == Some(id) && id < |s.timers| && (s.timers[id].Locked? || s.timers[id].Running?)
  {
    if s.mu.Some? && s.mu.value.Callback? {
      assert s.mu == Some(Callback(s.mu.value.id));
      assert Live(s.timers[s.mu.value.id]);
    }
  }

  lemma FromWaiting(s: State) returns (run: seq<Action>)
    requires Inv(s) && s.timer.Some? && s.stop.NotCalled? && s.timers[s.timer.value].Waiting?
    ensures IsRun(s, run) && |run| == 2 && run[1].RenewDo? && OwnSteps(run)
  {
    var id := s.timer.value;
    HolderIsTimer(s);
    var s' := Do(s, RenewLock(id));
    OneStep(s', RenewDo(id), []);
    OneStep(s, RenewLock(id), [RenewDo(id)] + []);
    run := [RenewLock(id)] + ([RenewDo(id)] + []);
  }

  lemma FromArmed(s: State) returns (run: seq<Action>)
    requires Inv(s) && s.timer.Some? && s.stop.NotCalled? && s.timers[s.timer.value].Armed?
    ensures IsRun(s, run) && |run| == 3 && run[2].RenewDo? && OwnSteps(run)
  {
    var id := s.timer.value;
    StepKeeps(s, Fire(id));
    var rest := FromWaiting(Do(s, Fire(id)));
    OneStep(s, Fire(id), rest);
    run := [Fire(id)] + rest;
  }

  /** And the certificate is renewed again and again: from wherever the renewal stands, so long as stop is not
      called, the steps of its own timer lead to the next call of do. */
  lemma RenewsAgain(s: State) returns (run: seq<Action>)
    requires Inv(s) && s.timer.Some? && s.stop.NotCalled?
    ensures IsRun(s, run) && 1 <= |run| <= 4 && run[|run| - 1].RenewDo? && OwnSteps(run)
  {
    var id := s.timer.value;
    if s.timers[id].Running? {
      StepKeeps(s, RenewArm(id));
      LeavesNextTimer(s, id);
      var rest := FromArmed(Do(s, RenewArm(id)));
      OneStep(s, RenewArm(id), rest);
      run := [RenewArm(id)] + rest;
    } else if s.timers[id].Armed? {
      run := FromArmed(s);
    } else if s.timers[id].Waiting? {
      run := FromWaiting(s);
    } else {
      OneStep(s, RenewDo(id), []);
      run := [RenewDo(id)] + [];
    }
  }

  /** Once stop has returned, after at most two passes of its loop, nothing is pending or running, and nothing
      ever will be: no step but those of callbacks already over remains, and there is none of those. */
  lemma StopIsFinal(run: seq<Action>, i: nat)
    requires IsRun(INITIAL, run) && After(INITIAL, run).stop == Done
    ensures After(INITIAL, run).passes <= 2
    ensures i < |After(INITIAL, run).timers| ==> !Live(After(INITIAL, run).timers[i])
    ensures forall a :: !Enabled(After(INITIAL, run), a)
  {
    InitialInv();
    RunKeeps(INITIAL, run);
  }

  // ---------------------------------------------------------------- stop gets through

  /** Steps still to take once stop has the mutex for the first time: an upper bound that every step lowers. */
  function Left(s: State): nat {
    match s.stop
    case NotCalled => 0
    case WantMu => 3
    case HasMu =>
      if s.passes != 1 then 2
      else if s.timer.Some? && s.timer.value < |s.timers| && s.timers[s.timer.value].Armed? then 9 else 8
    case OnChannel =>
      4 + (if s.closed || s.timer.None? || s.timer.value >= |s.timers| then 0
           else if s.timers[s.timer.value].Waiting? then 2 else 1)
    case Done => 0
  }

  /** From the first time stop has the mutex, every step of any goroutine brings its return nearer ... */
  lemma StopGetsCloser(s: State, a: Action)
    requires Inv(s) && Enabled(s, a) && s.passes >= 1 && !s.stop.Done?
    ensures Left(Do(s, a)) < Left(s)
  {
  }

  /** ... and until it has returned there is such a step: it is never left waiting for nothing. Between the
      call and the mutex, too, someone can always go on. */
  ghost predicate CanMove(s: State) {
    exists a :: Enabled(s, a) && !a.Fire? && !a.Start? && !a.StopCall?
  }

  lemma StopNeverStuck(s: State)
    requires Inv(s) && !s.stop.NotCalled? && !s.stop.Done?
    ensures CanMove(s)
  {
    if s.stop.WantMu? && s.mu.None? {
      assert Enabled(s, StopLock);
    } else if s.stop.WantMu? || s.stop.OnChannel? {
      if s.mu.Some? {
        var id := s.mu.value.id;
        assert Enabled(s, if s.timers[id].Running? then RenewArm(id)
                          else if s.closing then RenewClose(id)
                          else RenewDo(id));
      } else {
        assert Enabled(s, if s.closed then StopWake else RenewLock(s.timer.value));
      }
    } else {
      assert Enabled(s, if s.timer.None? then StopNil
                        else if s.timers[s.timer.value].Armed? then StopTimer
                        else StopWait);
    }
  }

  /** renew never closes the channel by mistake: whenever it does, stop is waiting on it. */
  lemma ClosesOnlyForStop(run: seq<Action>, id: nat)
    requires IsRun(INITIAL, run) && Enabled(After(INITIAL, run), RenewClose(id))
    ensures After(INITIAL, run).stop == OnChannel && !After(INITIAL, run).closed
  {
    InitialInv();
    RunKeeps(INITIAL, run);
  }
}
