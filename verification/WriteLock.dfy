/** Many goroutines on one connection, stepped under its two mutexes rio and wio. A goroutine sends frames of
    its own (Write, Send, Close), or reads and in the course of that sends replies (pongs, closes) while it
    holds rio. */
module WriteLock {
  import opened Bytes
  import opened Frames
  import opened Wrappers

  /** One call on the connection: send a frame, or read and send these frames on the way. */
  datatype Op = Send(f: WireFrame) | Read(replies: seq<WireFrame>)

  /** Where a goroutine is in its current call. within is Some(rest) in a read, rest being the replies left. */
  datatype Pc =
    | Idle
    | WantRio(replies: seq<WireFrame>)
    | Reading(replies: seq<WireFrame>)
    | WantWio(f: WireFrame, within: Option<seq<WireFrame>>)
    | Writing(f: WireFrame, k: nat, within: Option<seq<WireFrame>>)

  datatype Thread = Thread(todo: seq<Op>, pc: Pc)

  datatype Sent = Sent(tid: nat, f: WireFrame)

  /** broken: a write has failed, so the buffered writer lets nothing more through. done lists the frames
      wholly on the wire; torn is what a failed write left behind them. */
  datatype State = State(threads: seq<Thread>, rio: Option<nat>, wio: Option<nat>,
                         wire: seq<byte>, broken: bool, done: seq<Sent>, torn: seq<byte>)

  datatype Action = Start | LockRio | NextReply | UnlockRio | LockWio | WriteSome(n: nat) | Fail | UnlockWio

  predicate Enabled(s: State, t: nat, a: Action) {
    t < |s.threads| &&
    var th := s.threads[t];
    match a
    case Start => th.pc.Idle? && th.todo != []
    case LockRio => th.pc.WantRio? && s.rio.None?
    case NextReply => th.pc.Reading? && th.pc.replies != []
    case UnlockRio => th.pc.Reading? && (th.pc.replies == [] || s.broken)
    case LockWio => th.pc.WantWio? && s.wio.None?
    case WriteSome(n) => th.pc.Writing? && !s.broken && 0 < n <= |Encode(th.pc.f)| - th.pc.k
    case Fail => th.pc.Writing? && !s.broken
    case UnlockWio => th.pc.Writing? && (s.broken || th.pc.k == |Encode(th.pc.f)|)
  }

  function WithPc(s: State, t: nat, pc: Pc): State
    requires t < |s.threads|
  {
    s.(threads := s.threads[t := s.threads[t].(pc := pc)])
  }

  function Do(s: State, t: nat, a: Action): State
    requires Enabled(s, t, a)
  {
    var th := s.threads[t];
    match a
    case Start =>
      var pc := if th.todo[0].Send? then WantWio(th.todo[0].f, None) else WantRio(th.todo[0].replies);
      s.(threads := s.threads[t := Thread(th.todo[1..], pc)])
    case LockRio => WithPc(s, t, Reading(th.pc.replies)).(rio := Some(t))
    case NextReply => WithPc(s, t, WantWio(th.pc.replies[0], Some(th.pc.replies[1..])))
    case UnlockRio => WithPc(s, t, Idle).(rio := None)
    case LockWio => WithPc(s, t, Writing(th.pc.f, 0, th.pc.within)).(wio := Some(t))
    case WriteSome(n) =>
      if th.pc.k + n > |Encode(th.pc.f)| then s
      else WithPc(s, t, Writing(th.pc.f, th.pc.k + n, th.pc.within))
             .(wire := s.wire + Encode(th.pc.f)[th.pc.k..th.pc.k + n])
    case Fail => s.(broken := true)
    case UnlockWio =>
      var s' := WithPc(s, t, if th.pc.within.None? then Idle else Reading(th.pc.within.value)).(wio := None);
      if th.pc.k == |Encode(th.pc.f)| then s'.(done := s.done + [Sent(t, th.pc.f)])
      else if th.pc.k < |Encode(th.pc.f)| then s'.(torn := s.torn + Encode(th.pc.f)[..th.pc.k])
      else s'
  }

  // ---------------------------------------------------------------- what is kept

  function FramesOf(done: seq<Sent>): seq<WireFrame> {
    if done == [] then [] else FramesOf(done[..|done| - 1]) + [done[|done| - 1].f]
  }

  /** The frames of one goroutine, in the order in which they went out. */
  function SentBy(done: seq<Sent>, t: nat): seq<WireFrame> {
    if done == [] then []
    else SentBy(done[..|done| - 1], t) + if done[|done| - 1].tid == t then [done[|done| - 1].f] else []
  }

  function FramesOfOps(ops: seq<Op>): seq<WireFrame> {
    if ops == [] then []
    else (if ops[0].Send? then [ops[0].f] else ops[0].replies) + FramesOfOps(ops[1..])
  }

  function OrNothing(within: Option<seq<WireFrame>>): seq<WireFrame> {
    if within.Some? then within.value else []
  }

  function PcToSend(pc: Pc): seq<WireFrame> {
    match pc
    case Idle => []
    case WantRio(rs) => rs
    case Reading(rs) => rs
    case WantWio(f, within) => [f] + OrNothing(within)
    case Writing(f, k, within) => [f] + OrNothing(within)
  }

  /** The frames a goroutine has still to send, in order. */
  function ToSend(th: Thread): seq<WireFrame> {
    PcToSend(th.pc) + FramesOfOps(th.todo)
  }

  predicate HoldsRio(pc: Pc) {
    pc.Reading? || ((pc.WantWio? || pc.Writing?) && pc.within.Some?)
  }

  /** What the holder of wio has put on the wire of its frame. */
  function InFlight(s: State): seq<byte> {
    if s.wio.Some? && s.wio.value < |s.threads| && s.threads[s.wio.value].pc.Writing?
       && s.threads[s.wio.value].pc.k <= |Encode(s.threads[s.wio.value].pc.f)|
    then Encode(s.threads[s.wio.value].pc.f)[..s.threads[s.wio.value].pc.k]
    else []
  }

  /** Mutual exclusion: exactly the holder of a mutex is in the code that the mutex guards. In particular
      the holder of wio waits for nothing. */
  predicate LocksHeld(s: State) {
    && (forall t :: 0 <= t < |s.threads| ==> (s.threads[t].pc.Writing? <==> s.wio == Some(t)))
    && (forall t :: 0 <= t < |s.threads| ==> (HoldsRio(s.threads[t].pc) <==> s.rio == Some(t)))
    && (s.wio.Some? ==> s.wio.value < |s.threads|)
    && (s.rio.Some? ==> s.rio.value < |s.threads|)
  }

  /** The wire is whole frames, then at most one part of a frame: the lock holder's, or one torn by a failed
      write after which nothing follows. */
  predicate WireWhole(s: State) {
    && s.wire == EncodeAll(FramesOf(s.done)) + s.torn + InFlight(s)
    && (s.torn != [] ==> s.broken && InFlight(s) == [])
    && (forall t :: 0 <= t < |s.threads| && s.threads[t].pc.Writing? ==>
          s.threads[t].pc.k <= |Encode(s.threads[t].pc.f)|)
  }

  /** Until a write fails, what each goroutine has sent and has still to send is what it was given, in order. */
  predicate NothingLost(s: State, given: seq<seq<WireFrame>>) {
    && |given| == |s.threads|
    && (!s.broken ==> forall t :: 0 <= t < |s.threads| ==> SentBy(s.done, t) + ToSend(s.threads[t]) == given[t])
  }

  predicate Inv(s: State, given: seq<seq<WireFrame>>) {
    LocksHeld(s) && WireWhole(s) && NothingLost(s, given)
  }

  predicate Initial(s: State) {
    && s.rio.None? && s.wio.None? && s.wire == [] && !s.broken && s.done == [] && s.torn == []
    && forall t :: 0 <= t < |s.threads| ==> s.threads[t].pc.Idle?
  }

  function Given(s: State): seq<seq<WireFrame>> {
    seq(|s.threads|, t requires 0 <= t < |s.threads| => ToSend(s.threads[t]))
  }

  lemma InitInv(s: State)
    requires Initial(s)
    ensures Inv(s, Given(s))
  {
  }

  lemma KeepsLocks(s: State, t: nat, a: Action)
    requires LocksHeld(s) && Enabled(s, t, a)
    ensures LocksHeld(Do(s, t, a))
  {
    OwnLocks(s, t, a);
    hide Encode, Do, Enabled, HoldsRio;
    forall u | 0 <= u < |s.threads| && u != t
      ensures Do(s, t, a).threads[u] == s.threads[u]
      ensures Do(s, t, a).wio == Some(u) <==> s.wio == Some(u)
      ensures Do(s, t, a).rio == Some(u) <==> s.rio == Some(u)
    {
      OtherLocks(s, t, a, u);
    }
  }

  lemma OwnLocks(s: State, t: nat, a: Action)
    requires LocksHeld(s) && Enabled(s, t, a)
    ensures var s' := Do(s, t, a);
      && |s'.threads| == |s.threads|
      && (s'.threads[t].pc.Writing? <==> s'.wio == Some(t)) && (HoldsRio(s'.threads[t].pc) <==> s'.rio == Some(t))
      && (s'.wio.Some? ==> s'.wio.value < |s.threads|) && (s'.rio.Some? ==> s'.rio.value < |s.threads|)
  {
    assert s.threads[t].pc.Writing? <==> s.wio == Some(t);
    assert HoldsRio(s.threads[t].pc) <==> s.rio == Some(t);
    assert (s.wio.Some? ==> s.wio.value < |s.threads|) && (s.rio.Some? ==> s.rio.value < |s.threads|);
    hide Encode, LocksHeld;
  }

  /** A goroutine takes and gives only its own place. */
  lemma OtherLocks(s: State, t: nat, a: Action, u: nat)
    requires LocksHeld(s) && Enabled(s, t, a) && u < |s.threads| && u != t
    ensures var s' := Do(s, t, a);
      && |s'.threads| == |s.threads| && s'.threads[u] == s.threads[u]
      && (s'.wio == Some(u) <==> s.wio == Some(u)) && (s'.rio == Some(u) <==> s.rio == Some(u))
  {
    assert s.threads[t].pc.Writing? <==> s.wio == Some(t);
    assert HoldsRio(s.threads[t].pc) <==> s.rio == Some(t);
    hide Encode, LocksHeld;
  }

  lemma KeepsWire(s: State, t: nat, a: Action)
    requires LocksHeld(s) && WireWhole(s) && Enabled(s, t, a)
    ensures WireWhole(Do(s, t, a))
  {
    hide *;
    match a
    case WriteSome(n) => WriteKeepsWire(s, t, n);
    case UnlockWio => UnlockKeepsWire(s, t);
    case _ => OtherKeepsWire(s, t, a);
  }

  lemma WriteKeepsWire(s: State, t: nat, n: nat)
    requires LocksHeld(s) && WireWhole(s) && Enabled(s, t, WriteSome(n))
    ensures WireWhole(Do(s, t, WriteSome(n)))
  {
    hide Encode, EncodeAll, FramesOf;
    var e, k := Encode(s.threads[t].pc.f), s.threads[t].pc.k;
    assert e[..k + n] == e[..k] + e[k..k + n];
  }

  lemma UnlockKeepsWire(s: State, t: nat)
    requires LocksHeld(s) && WireWhole(s) && Enabled(s, t, UnlockWio)
    ensures WireWhole(Do(s, t, UnlockWio))
  {
    hide Encode, EncodeAll, FramesOf;
    var f := s.threads[t].pc.f;
    if s.threads[t].pc.k == |Encode(f)| {
      FramesOfSnoc(s.done, Sent(t, f));
      EncodeSnoc(FramesOf(s.done), f);
      assert Encode(f)[..|Encode(f)|] == Encode(f);
      NeverEmpty(f);
    }
  }

  lemma OtherKeepsWire(s: State, t: nat, a: Action)
    requires LocksHeld(s) && WireWhole(s) && Enabled(s, t, a) && !a.WriteSome? && a != UnlockWio
    ensures WireWhole(Do(s, t, a))
  {
    hide Encode, EncodeAll, FramesOf;
    assert InFlight(Do(s, t, a)) == InFlight(s);
  }

  lemma NeverEmpty(f: WireFrame)
    ensures Encode(f) != []
  {
  }

  lemma EncodeSnoc(fs: seq<WireFrame>, f: WireFrame)
    ensures EncodeAll(fs + [f]) == EncodeAll(fs) + Encode(f)
  {
    hide Encode;
    EncodeAllAppend(fs, [f]);
    assert EncodeAll([f]) == Encode(f) + EncodeAll([]);
  }

  lemma FramesOfSnoc(done: seq<Sent>, x: Sent)
    ensures FramesOf(done + [x]) == FramesOf(done) + [x.f]
    ensures forall t :: SentBy(done + [x], t) == SentBy(done, t) + if x.tid == t then [x.f] else []
  {
    assert (done + [x])[..|done|] == done;
  }

  /** What a step of a goroutine sends comes off the front of what it has to send. */
  lemma OwnFront(s: State, t: nat, a: Action)
    requires Enabled(s, t, a) && !Do(s, t, a).broken
    ensures ToSend(s.threads[t]) ==
      (if a == UnlockWio then [s.threads[t].pc.f] else []) + ToSend(Do(s, t, a).threads[t])
  {
    hide Encode;
    var th := s.threads[t];
    match a
    case UnlockWio =>
      assert PcToSend(th.pc) == [th.pc.f] + OrNothing(th.pc.within);
    case NextReply =>
      assert [th.pc.replies[0]] + th.pc.replies[1..] == th.pc.replies;
    case _ =>
  }

  lemma OwnOrder(s: State, t: nat, a: Action)
    requires Enabled(s, t, a) && !Do(s, t, a).broken
    ensures SentBy(Do(s, t, a).done, t) + ToSend(Do(s, t, a).threads[t]) == SentBy(s.done, t) + ToSend(s.threads[t])
  {
    OwnFront(s, t, a);
    if a == UnlockWio {
      FramesOfSnoc(s.done, Sent(t, s.threads[t].pc.f));
    }
    DoneGrows(s, t, a);
    var next := ToSend(Do(s, t, a).threads[t]);
    hide *;
    if a == UnlockWio {
      Regrouped(SentBy(s.done, t), [s.threads[t].pc.f], next);
    } else {
      assert [] + next == next;
    }
  }

  lemma DoneGrows(s: State, t: nat, a: Action)
    requires Enabled(s, t, a) && !Do(s, t, a).broken
    ensures Do(s, t, a).done == if a == UnlockWio then s.done + [Sent(t, s.threads[t].pc.f)] else s.done
  {
    hide Encode;
  }

  lemma Regrouped(a: seq<WireFrame>, b: seq<WireFrame>, c: seq<WireFrame>)
    ensures a + b + c == a + (b + c)
  {
  }

  lemma OthersOrder(s: State, t: nat, a: Action, u: nat)
    requires Enabled(s, t, a) && u < |s.threads| && u != t
    ensures Do(s, t, a).threads[u] == s.threads[u]
    ensures SentBy(Do(s, t, a).done, u) == SentBy(s.done, u)
  {
    hide Encode;
    if a == UnlockWio {
      FramesOfSnoc(s.done, Sent(t, s.threads[t].pc.f));
    }
  }

  lemma KeepsOrder(s: State, t: nat, a: Action, given: seq<seq<WireFrame>>)
    requires LocksHeld(s) && WireWhole(s) && NothingLost(s, given) && Enabled(s, t, a)
    ensures NothingLost(Do(s, t, a), given)
  {
    hide Encode, EncodeAll, LocksHeld, WireWhole, ToSend, SentBy;
    var s' := Do(s, t, a);
    if !s'.broken {
      forall u | 0 <= u < |s'.threads|
        ensures SentBy(s'.done, u) + ToSend(s'.threads[u]) == given[u]
      {
        if u == t {
          OwnOrder(s, t, a);
        } else {
          OthersOrder(s, t, a, u);
        }
      }
    }
  }

  // ---------------------------------------------------------------- runs

  datatype Step = Step(t: nat, a: Action)

  predicate IsRun(s: State, steps: seq<Step>)
    decreases |steps|
  {
    steps == [] || (Enabled(s, steps[0].t, steps[0].a) && IsRun(Do(s, steps[0].t, steps[0].a), steps[1..]))
  }

  function After(s: State, steps: seq<Step>): State
    requires IsRun(s, steps)
    decreases |steps|
  {
    if steps == [] then s else After(Do(s, steps[0].t, steps[0].a), steps[1..])
  }

  lemma {:induction false} RunKeeps(s: State, steps: seq<Step>, given: seq<seq<WireFrame>>)
    requires Inv(s, given) && IsRun(s, steps)
    ensures Inv(After(s, steps), given)
    decreases |steps|
  {
    hide Encode, EncodeAll, LocksHeld, WireWhole, NothingLost, Do;
    if steps != [] {
      var t, a := steps[0].t, steps[0].a;
      KeepsLocks(s, t, a);
      KeepsWire(s, t, a);
      KeepsOrder(s, t, a, given);
      RunKeeps(Do(s, t, a), steps[1..], given);
    }
  }

  /** In every interleaving the wire reads back as exactly the frames sent so far, followed by at most a part
      of one frame. */
  lemma WireReadsBack(s: State, steps: seq<Step>)
    requires Initial(s) && IsRun(s, steps)
    requires forall x <- After(s, steps).done :: x.f.opcode <= 15
    ensures var e := After(s, steps);
      ParseMany(e.wire, |FramesOf(e.done)|) == Some((FramesOf(e.done), e.torn + InFlight(e)))
  {
    hide Encode, EncodeAll, LocksHeld, NothingLost, Do, InFlight;
    InitInv(s);
    RunKeeps(s, steps, Given(s));
    var e := After(s, steps);
    SmallOpcodes(e.done);
    assert e.wire == EncodeAll(FramesOf(e.done)) + (e.torn + InFlight(e));
    RoundTripAll(FramesOf(e.done), e.torn + InFlight(e));
  }

  lemma {:induction false} SmallOpcodes(done: seq<Sent>)
    requires forall x <- done :: x.f.opcode <= 15
    ensures forall f <- FramesOf(done) :: f.opcode <= 15
  {
    if done != [] {
      assert done[|done| - 1] in done;
      SmallOpcodes(done[..|done| - 1]);
    }
  }

  // ---------------------------------------------------------------- no deadlock

  /** Steps other than a failing write. */
  ghost predicate CanMove(s: State) {
    exists t, a :: Enabled(s, t, a) && a != Fail
  }

  predicate Finished(s: State) {
    forall t :: 0 <= t < |s.threads| ==> s.threads[t] == Thread([], Idle)
  }

  /** Readers and writers never wait on each other in a cycle: someone can move unless everyone is done. */
  lemma NoDeadlock(s: State)
    requires LocksHeld(s) && WireWhole(s) && !Finished(s)
    ensures CanMove(s)
  {
    hide Encode, EncodeAll;
    if s.wio.Some? {
      HolderMoves(s, s.wio.value);
    } else if s.rio.Some? {
      var t := s.rio.value;
      var pc := s.threads[t].pc;
      assert Enabled(s, t, if pc.WantWio? then LockWio else if pc.replies == [] then UnlockRio else NextReply);
    } else {
      var t :| 0 <= t < |s.threads| && s.threads[t] != Thread([], Idle);
      var pc := s.threads[t].pc;
      assert Enabled(s, t, if pc.Idle? then Start else if pc.WantRio? then LockRio else LockWio);
    }
  }

  lemma HolderMoves(s: State, t: nat)
    requires LocksHeld(s) && WireWhole(s) && s.wio == Some(t)
    ensures CanMove(s)
  {
    hide Encode, EncodeAll;
    var n := |Encode(s.threads[t].pc.f)| - s.threads[t].pc.k;
    assert Enabled(s, t, if s.broken || n == 0 then UnlockWio else WriteSome(n));
  }

  function OpWork(op: Op): nat {
    if op.Send? then 4 + |Encode(op.f)| else 4 + RepliesWork(op.replies)
  }

  function RepliesWork(rs: seq<WireFrame>): nat {
    if rs == [] then 0 else 4 + |Encode(rs[0])| + RepliesWork(rs[1..])
  }

  function TodoWork(ops: seq<Op>): nat {
    if ops == [] then 0 else OpWork(ops[0]) + TodoWork(ops[1..])
  }

  function PcWork(pc: Pc): nat {
    match pc
    case Idle => 0
    case WantRio(rs) => 3 + RepliesWork(rs)
    case Reading(rs) => 1 + RepliesWork(rs)
    case WantWio(f, within) => 3 + |Encode(f)| + if within.Some? then 1 + RepliesWork(within.value) else 0
    case Writing(f, k, within) =>
      1 + (if k <= |Encode(f)| then |Encode(f)| - k else 0) + if within.Some? then 1 + RepliesWork(within.value) else 0
  }

  function ThreadWork(th: Thread): nat {
    TodoWork(th.todo) + PcWork(th.pc)
  }

  /** How many steps the goroutines can take between them. */
  function Work(threads: seq<Thread>): nat {
    if threads == [] then 0 else ThreadWork(threads[0]) + Work(threads[1..])
  }

  lemma {:induction false} WorkUpdate(threads: seq<Thread>, t: nat, th: Thread)
    requires t < |threads|
    ensures Work(threads[t := th]) + ThreadWork(threads[t]) == Work(threads) + ThreadWork(th)
  {
    if t > 0 {
      assert threads[t := th][1..] == threads[1..][t - 1 := th];
      WorkUpdate(threads[1..], t - 1, th);
    } else {
      assert threads[t := th][1..] == threads[1..];
    }
  }

  lemma OwnWork(s: State, t: nat, a: Action)
    requires Enabled(s, t, a) && a != Fail
    ensures ThreadWork(Do(s, t, a).threads[t]) < ThreadWork(s.threads[t])
    ensures Do(s, t, a).broken == s.broken
  {
    hide Encode;
  }

  lemma EveryStepWorks(s: State, t: nat, a: Action)
    requires Enabled(s, t, a) && a != Fail
    ensures Work(Do(s, t, a).threads) < Work(s.threads)
    ensures Do(s, t, a).broken == s.broken
  {
    hide Encode, ThreadWork;
    OwnWork(s, t, a);
    WorkUpdate(s.threads, t, Do(s, t, a).threads[t]);
    assert Do(s, t, a).threads == s.threads[t := Do(s, t, a).threads[t]];
  }

  /** A write fails once at most. */
  function Rank(s: State): nat {
    Work(s.threads) + if s.broken then 0 else 1
  }

  /** No schedule goes on for ever, whatever fails: it takes at most Work steps and one failure. */
  lemma {:induction false} RunsAreBounded(s: State, steps: seq<Step>)
    requires IsRun(s, steps)
    ensures |steps| + Rank(After(s, steps)) <= Rank(s)
    decreases |steps|
  {
    hide Encode, Do, Work;
    if steps != [] {
      RankFalls(s, steps[0].t, steps[0].a);
      RunsAreBounded(Do(s, steps[0].t, steps[0].a), steps[1..]);
    }
  }

  lemma RankFalls(s: State, t: nat, a: Action)
    requires Enabled(s, t, a)
    ensures Rank(Do(s, t, a)) < Rank(s)
  {
    if a != Fail {
      EveryStepWorks(s, t, a);
      hide Do, Work;
    }
  }

  lemma {:induction false} NothingBreaks(s: State, steps: seq<Step>)
    requires IsRun(s, steps) && forall x <- steps :: x.a != Fail
    ensures After(s, steps).broken == s.broken
    decreases |steps|
  {
    hide Encode, Do, Work;
    if steps != [] {
      EveryStepWorks(s, steps[0].t, steps[0].a);
      NothingBreaks(Do(s, steps[0].t, steps[0].a), steps[1..]);
    }
  }

  /** Wherever a schedule without failing writes comes to rest, every goroutine's frames are on the wire, each
      whole and in its goroutine's order, and nothing else is. */
  lemma AllDelivered(s: State, steps: seq<Step>)
    requires Initial(s) && IsRun(s, steps) && forall x <- steps :: x.a != Fail
    requires !CanMove(After(s, steps))
    ensures var e := After(s, steps);
      && Finished(e) && e.wire == EncodeAll(FramesOf(e.done))
      && forall t :: 0 <= t < |s.threads| ==> SentBy(e.done, t) == ToSend(s.threads[t])
  {
    hide Encode, EncodeAll;
    InitInv(s);
    RunKeeps(s, steps, Given(s));
    NothingBreaks(s, steps);
    if !Finished(After(s, steps)) {
      NoDeadlock(After(s, steps));
    }
    forall t | 0 <= t < |s.threads|
      ensures SentBy(After(s, steps).done, t) == ToSend(s.threads[t])
    {
      assert ToSend(Thread([], Idle)) == [];
      assert Given(s)[t] == ToSend(s.threads[t]);
    }
  }
}
