/** The life of the certificate states a Manager keeps: cert, certState, createCert, its retry timer, and the
    updates of the renewal loop, interleaved. A step is what one goroutine does under stateMu or under a
    certState's own lock, or between the two. */
module CertLifecycle {
  import opened Wrappers

  type Key = nat        // certKey
  type Id = nat         // the address of a certState
  type Tid = nat        // a goroutine inside createCert or cert

  /** A certificate, by what validCert looks at: the key it is for, whose domain and type it must match, and the
      time it is valid. */
  datatype Cert = Cert(key: Key, notBefore: int, notAfter: int)

  /** validCert: the leaf, which is the first certificate of the chain, if it is in order at the time now. */
  function ValidCert(k: Key, chain: seq<Cert>, now: int): Option<Cert> {
    if chain != [] && chain[0].key == k && chain[0].notBefore <= now <= chain[0].notAfter then Some(chain[0])
    else None
  }

  /** How the issuance for a certState has ended. */
  datatype Outcome = Awaited | Succeeded | Refused

  /** A certState: its key, the flag locked, whether its lock is held for writing, and its chain and leaf. */
  datatype CertState = CertState(
    key: Key, locked: bool, held: bool, chain: seq<Cert>, leaf: Option<Cert>, outcome: Outcome)

  /** Where a goroutine is. Got: certState has returned this object. Entering: it has read locked as true.
      Issuing: it has cleared locked and is asking the CA. Leaving: it is about to unlock. Reading: it waits for
      the read lock. */
  datatype Pc = Idle | Got(id: Id) | Entering(id: Id) | Issuing(id: Id) | Leaving(id: Id) | Reading(id: Id)

  /** took: how often the flag of an object has been read as true; asked: how often createCert has asked the CA
      with an object; fatal: a lock has been released that nobody held, which ends the program. */
  datatype State = State(
    objs: seq<CertState>,
    state: map<Key, Id>,
    pcs: map<Tid, Pc>,
    retries: multiset<Key>,      // retry timers not yet fired
    starters: multiset<Key>,     // startRenew goroutines on their way
    renewal: set<Key>,           // Manager.renewal
    renewers: multiset<Key>,     // renewal callbacks inside do
    took: multiset<Id>,
    asked: multiset<Id>,
    fatal: bool)

  datatype Action =
    | CertHit(t: Tid, k: Key)                              // cert finds a state
    | CertFill(t: Tid, k: Key, chain: seq<Cert>, now: int) // cert fills the state from the cache
    | CreateGet(t: Tid, k: Key)                            // createCert calls certState
    | ReadFlag(t: Tid)                                     // createCert reads state.locked
    | ClearFlag(t: Tid)                                    // ... clears it, and asks the CA
    | Succeed(t: Tid, chain: seq<Cert>, now: int)          // ... stores the chain and launches startRenew
    | Fail(t: Tid)                                         // ... sets the retry timer
    | Unlock(t: Tid)                                       // ... and releases the lock
    | ReadDone(t: Tid)                                     // the read lock is there
    | Retry(k: Key, now: int)                              // a retry timer fires
    | StartRenew(k: Key)
    | RenewBegin(k: Key)
    | RenewUpdate(k: Key, chain: seq<Cert>, now: int)
    | RenewEnd(k: Key)
    | StopRenew(k: Key)

  function PcOf(s: State, t: Tid): Pc {
    if t in s.pcs then s.pcs[t] else Idle
  }

  predicate IsObj(s: State, id: Id) {
    id < |s.objs|
  }

  predicate Enabled(s: State, a: Action) {
    !s.fatal &&
    match a
    case CertHit(t, k) => PcOf(s, t).Idle? && k in s.state
    case CertFill(t, k, chain, now) => PcOf(s, t).Idle? && k !in s.state && ValidCert(k, chain, now).Some?
    case CreateGet(t, k) => PcOf(s, t).Idle?
    case ReadFlag(t) => PcOf(s, t).Got? && IsObj(s, PcOf(s, t).id)
    case ClearFlag(t) => PcOf(s, t).Entering? && IsObj(s, PcOf(s, t).id)
    case Succeed(t, chain, now) =>
      PcOf(s, t).Issuing? && IsObj(s, PcOf(s, t).id) && ValidCert(s.objs[PcOf(s, t).id].key, chain, now).Some?
    case Fail(t) => PcOf(s, t).Issuing? && IsObj(s, PcOf(s, t).id)
    case Unlock(t) => PcOf(s, t).Leaving? && IsObj(s, PcOf(s, t).id)
    case ReadDone(t) => PcOf(s, t).Reading? && IsObj(s, PcOf(s, t).id) && !s.objs[PcOf(s, t).id].held
    case Retry(k, now) => s.retries[k] > 0 && (k in s.state ==> IsObj(s, s.state[k]))
    case StartRenew(k) => s.starters[k] > 0
    case RenewBegin(k) => k in s.renewal
    case RenewUpdate(k, chain, now) => s.renewers[k] > 0 && ValidCert(k, chain, now).Some?
    case RenewEnd(k) => s.renewers[k] > 0
    case StopRenew(k) => k in s.renewal
  }

  /** A certState with a certificate in it, as cert and the renewal loop make it. */
  function Filled(k: Key, chain: seq<Cert>, now: int): CertState {
    CertState(k, false, false, chain, ValidCert(k, chain, now), Succeeded)
  }

  function Issued(o: CertState, chain: seq<Cert>, now: int): CertState {
    o.(chain := chain, leaf := ValidCert(o.key, chain, now), outcome := Succeeded)
  }

  /** A failure leaves the object as it is. */
  function Failing(o: CertState): CertState {
    o.(outcome := if o.outcome.Awaited? then Refused else o.outcome)
  }

  function Do(s: State, a: Action): State
    requires Enabled(s, a)
  {
    match a
    case CertHit(t, k) => s.(pcs := s.pcs[t := Reading(s.state[k])])
    case CertFill(t, k, chain, now) =>
      s.(objs := s.objs + [Filled(k, chain, now)], state := s.state[k := |s.objs|],
         starters := s.starters + multiset{k})
    case CreateGet(t, k) =>
      if k in s.state then s.(pcs := s.pcs[t := Got(s.state[k])])
      else s.(objs := s.objs + [CertState(k, true, true, [], None, Awaited)], state := s.state[k := |s.objs|],
              pcs := s.pcs[t := Got(|s.objs|)])
    case ReadFlag(t) =>
      var id := PcOf(s, t).id;
      if s.objs[id].locked then s.(pcs := s.pcs[t := Entering(id)], took := s.took + multiset{id})
      else s.(pcs := s.pcs[t := Reading(id)])
    case ClearFlag(t) =>
      var id := PcOf(s, t).id;
      s.(objs := s.objs[id := s.objs[id].(locked := false)], pcs := s.pcs[t := Issuing(id)],
         asked := s.asked + multiset{id})
    case Succeed(t, chain, now) =>
      var id := PcOf(s, t).id;
      s.(objs := s.objs[id := Issued(s.objs[id], chain, now)], pcs := s.pcs[t := Leaving(id)],
         starters := s.starters + multiset{s.objs[id].key})
    case Fail(t) =>
      var id := PcOf(s, t).id;
      s.(objs := s.objs[id := Failing(s.objs[id])], pcs := s.pcs[t := Leaving(id)],
         retries := s.retries + multiset{s.objs[id].key})
    case Unlock(t) =>
      var id := PcOf(s, t).id;
      s.(objs := s.objs[id := s.objs[id].(held := false)], pcs := s.pcs[t := Idle], fatal := !s.objs[id].held)
    case ReadDone(t) => s.(pcs := s.pcs[t := Idle])
    case Retry(k, now) =>
      var drop := k in s.state && ValidCert(k, s.objs[s.state[k]].chain, now).None?;
      s.(retries := s.retries - multiset{k}, state := if drop then s.state - {k} else s.state)
    case StartRenew(k) => s.(starters := s.starters - multiset{k}, renewal := s.renewal + {k})
    case RenewBegin(k) => s.(renewers := s.renewers + multiset{k})
    case RenewUpdate(k, chain, now) =>
      s.(objs := s.objs + [Filled(k, chain, now)], state := s.state[k := |s.objs|])
    case RenewEnd(k) => s.(renewers := s.renewers - multiset{k})
    case StopRenew(k) => s.(renewal := s.renewal - {k})
  }

  const INITIAL := State([], map[], map[], multiset{}, multiset{}, {}, multiset{}, multiset{}, multiset{}, false)

  /** Two goroutines have read the flag of one object as true, the second before the first had cleared it. */
  ghost predicate Crowded(s: State) {
    exists id: Id :: s.took[id] >= 2
  }

  // ---------------------------------------------------------------- phases and the invariant

  datatype Phase = Absent | Issue | Ready | Failed

  function PhaseOf(s: State, k: Key): Phase {
    if k !in s.state || !IsObj(s, s.state[k]) then Absent
    else
      match s.objs[s.state[k]].outcome
      case Awaited => Issue
      case Succeeded => Ready
      case Refused => Failed
  }

  predicate MapOk(s: State) {
    forall k :: k in s.state ==> IsObj(s, s.state[k]) && s.objs[s.state[k]].key == k
  }

  /** A certificate is there exactly after a success. */
  predicate ChainOk(o: CertState) {
    if o.outcome.Succeeded? then o.chain != [] && o.chain[0].key == o.key && o.leaf == Some(o.chain[0])
    else o.chain == [] && o.leaf == None
  }

  /** The flag is set only while the lock is held and nobody has asked the CA; an object whose issuance is awaited
      is locked and the one in the map; and nobody asks with an object twice. */
  predicate ObjOk(s: State, id: Id) {
    if !IsObj(s, id) then s.took[id] == 0 && s.asked[id] == 0
    else
      var o := s.objs[id];
      && ChainOk(o)
      && (o.locked ==> o.held && o.outcome.Awaited? && s.asked[id] == 0)
      && (o.outcome.Awaited? ==> o.held && o.key in s.state && s.state[o.key] == id)
      && s.asked[id] <= 1
  }

  /** Past the flag, with the lock to release. */
  predicate Active(pc: Pc) {
    pc.Entering? || pc.Issuing? || pc.Leaving?
  }

  predicate ThreadOk(s: State, t: Tid) {
    var pc := PcOf(s, t);
    && (!pc.Idle? ==> IsObj(s, pc.id))
    && (Active(pc) ==>
         var o := s.objs[pc.id];
         && s.took[pc.id] > 0 && o.held
         && o.locked == pc.Entering? && o.outcome.Awaited? == !pc.Leaving?)
  }

  predicate Apart(s: State, t: Tid, u: Tid) {
    Active(PcOf(s, t)) && Active(PcOf(s, u)) ==> PcOf(s, t).id != PcOf(s, u).id
  }

  /** One retry timer for a key whose issuance has failed, none otherwise; renewal only for keys that are ready. */
  predicate KeyOk(s: State, k: Key) {
    && s.retries[k] == (if PhaseOf(s, k) == Failed then 1 else 0)
    && (k in s.renewal || s.starters[k] > 0 || s.renewers[k] > 0 ==> PhaseOf(s, k) == Ready)
  }

  ghost predicate Inv(s: State) {
    && !s.fatal
    && MapOk(s)
    && (forall id: Id :: ObjOk(s, id))
    && (forall t: Tid :: ThreadOk(s, t))
    && (forall t: Tid, u: Tid :: t != u ==> Apart(s, t, u))
    && (forall k: Key :: KeyOk(s, k))
  }

  lemma InitialInv()
    ensures Inv(INITIAL)
  {
  }

  // ---------------------------------------------------------------- one step

  /** The object that an action of a goroutine is about, where it has one. */
  predicate OnObject(a: Action) {
    a.ReadFlag? || a.ClearFlag? || a.Succeed? || a.Fail? || a.Unlock? || a.ReadDone?
  }

  predicate Moves(a: Action) {
    a.CertHit? || a.CreateGet? || OnObject(a)
  }

  predicate Makes(s: State, a: Action) {
    a.CertFill? || a.RenewUpdate? || (a.CreateGet? && a.k !in s.state)
  }

  /** Objects stay, keep their key, and never get the flag back. */
  lemma ObjChange(s: State, a: Action, id: Id)
    requires Enabled(s, a) && IsObj(s, id)
    ensures IsObj(Do(s, a), id) && Do(s, a).objs[id].key == s.objs[id].key
    ensures Do(s, a).objs[id].locked ==> s.objs[id].locked
  {
  }

  /** Only the goroutine past its flag changes an object, and its place in the books. */
  lemma ObjSame(s: State, a: Action, id: Id)
    requires Enabled(s, a) && IsObj(s, id)
    requires OnObject(a) ==> PcOf(s, a.t).id != id
    ensures IsObj(Do(s, a), id) && Do(s, a).objs[id] == s.objs[id]
    ensures Do(s, a).took[id] == s.took[id] && Do(s, a).asked[id] == s.asked[id]
  {
  }

  /** The map changes only where an object is made, and where a retry timer deletes one. */
  lemma MapChange(s: State, a: Action, k: Key)
    requires Enabled(s, a)
    ensures k in Do(s, a).state ==>
      || (k in s.state && Do(s, a).state[k] == s.state[k])
      || (Makes(s, a) && a.k == k && Do(s, a).state[k] == |s.objs| && |Do(s, a).objs| == |s.objs| + 1
          && Do(s, a).objs[|s.objs|].key == k)
    ensures k in s.state && k !in Do(s, a).state ==>
      a.Retry? && a.k == k && IsObj(s, s.state[k]) && ValidCert(k, s.objs[s.state[k]].chain, a.now).None?
    ensures k in s.state && k in Do(s, a).state && Do(s, a).state[k] != s.state[k] ==> a.RenewUpdate? && a.k == k
  {
  }

  lemma PcChange(s: State, a: Action, t: Tid)
    requires Enabled(s, a) && (Moves(a) ==> a.t != t)
    ensures PcOf(Do(s, a), t) == PcOf(s, t)
  {
  }

  lemma KeepsMap(s: State, a: Action)
    requires MapOk(s) && Enabled(s, a)
    ensures MapOk(Do(s, a))
  {
    hide Do, Enabled, ValidCert;
    forall k | k in Do(s, a).state
      ensures IsObj(Do(s, a), Do(s, a).state[k]) && Do(s, a).objs[Do(s, a).state[k]].key == k
    {
      MapChange(s, a, k);
      if k in s.state {
        ObjChange(s, a, s.state[k]);
      }
    }
  }

  /** The effect of an action on the object it is about. */
  lemma OwnObj(s: State, a: Action)
    requires Enabled(s, a) && OnObject(a) && ThreadOk(s, a.t) && ObjOk(s, PcOf(s, a.t).id)
    ensures var id, s' := PcOf(s, a.t).id, Do(s, a);
      && IsObj(s, id) && IsObj(s', id)
      && (s'.objs[id].outcome.Awaited? ==> s.objs[id].outcome.Awaited?)
      && (s'.state == s.state && s'.objs[id].key == s.objs[id].key)
      && ObjOk(s', id)
  {
  }

  lemma NewObj(s: State, a: Action, id: Id)
    requires Enabled(s, a) && ObjOk(s, id) && !IsObj(s, id)
    requires OnObject(a) ==> PcOf(s, a.t).id != id
    ensures ObjOk(Do(s, a), id)
  {
  }

  /** What is awaited is neither dropped from the map nor replaced in it. */
  lemma AwaitedStays(s: State, a: Action, k: Key)
    requires MapOk(s) && KeyOk(s, k) && Enabled(s, a) && PhaseOf(s, k) == Issue
    ensures k in Do(s, a).state && Do(s, a).state[k] == s.state[k]
  {
    MapChange(s, a, k);
    if a.Retry? && a.k == k {
      assert false;
    }
    hide Do, ValidCert;
  }

  lemma KeepsObj(s: State, a: Action, id: Id)
    requires Inv(s) && Enabled(s, a)
    ensures ObjOk(Do(s, a), id)
  {
    assert ObjOk(s, id) && MapOk(s);
    assert OnObject(a) ==> ThreadOk(s, a.t) && IsObj(s, PcOf(s, a.t).id);
    if IsObj(s, id) {
      assert KeyOk(s, s.objs[id].key);
    }
    hide Inv, Do, Enabled, ThreadOk, ValidCert;
    if OnObject(a) && PcOf(s, a.t).id == id {
      hide ObjOk;
      OwnObj(s, a);
    } else if !IsObj(s, id) {
      hide ObjOk;
      NewObj(s, a, id);
    } else {
      ObjSame(s, a, id);
      if s.objs[id].outcome.Awaited? {
        AwaitedStays(s, a, s.objs[id].key);
      }
    }
  }

  /** Another goroutine than the one that moves. */
  lemma OtherThread(s: State, a: Action, t: Tid)
    requires Enabled(s, a) && ThreadOk(s, t) && !Crowded(Do(s, a))
    requires Moves(a) ==> a.t != t && Apart(s, t, a.t)
    ensures ThreadOk(Do(s, a), t) && (Moves(a) ==> Apart(Do(s, a), t, a.t))
    ensures PcOf(Do(s, a), t) == PcOf(s, t)
  {
    PcChange(s, a, t);
    var pc := PcOf(s, t);
    if Active(pc) {
      if OnObject(a) && PcOf(s, a.t).id == pc.id {
        assert !Active(PcOf(s, a.t));
        SharedObj(s, a, t);
      } else {
        ObjSame(s, a, pc.id);
        if Moves(a) {
          MoverNear(s, a);
        }
      }
    } else if !pc.Idle? {
      ObjChange(s, a, pc.id);
    }
    hide Do, Enabled, ValidCert;
  }

  /** Two goroutines at one object, and the one that moves not past the flag: if it read the flag as true, there
      would be a crowd. */
  lemma SharedObj(s: State, a: Action, t: Tid)
    requires Enabled(s, a) && OnObject(a) && !Active(PcOf(s, a.t)) && !Crowded(Do(s, a))
    requires ThreadOk(s, t) && Active(PcOf(s, t)) && PcOf(s, a.t).id == PcOf(s, t).id
    ensures var id := PcOf(s, t).id;
      && Do(s, a).objs == s.objs && Do(s, a).took[id] == s.took[id] && !Active(PcOf(Do(s, a), a.t))
  {
    assert Do(s, a).took[PcOf(s, t).id] < 2;
  }

  /** A goroutine gets past the flag only at the object it was at. */
  lemma MoverNear(s: State, a: Action)
    requires Enabled(s, a) && Moves(a)
    ensures Active(PcOf(Do(s, a), a.t)) ==> OnObject(a) && PcOf(Do(s, a), a.t).id == PcOf(s, a.t).id
  {
  }

  lemma MovingThread(s: State, a: Action)
    requires Enabled(s, a) && Moves(a) && MapOk(s) && ThreadOk(s, a.t)
    requires OnObject(a) ==> ObjOk(s, PcOf(s, a.t).id)
    ensures ThreadOk(Do(s, a), a.t)
  {
  }

  lemma KeepsThreads(s: State, a: Action)
    requires Inv(s) && Enabled(s, a) && !Crowded(Do(s, a))
    ensures forall t: Tid :: ThreadOk(Do(s, a), t)
    ensures forall t: Tid, u: Tid :: t != u ==> Apart(Do(s, a), t, u)
  {
    assert forall t: Tid :: ThreadOk(s, t);
    assert forall t: Tid, u: Tid :: t != u ==> Apart(s, t, u);
    assert MapOk(s) && (OnObject(a) ==> ObjOk(s, PcOf(s, a.t).id));
    var s' := Do(s, a);
    if Moves(a) {
      MovingThread(s, a);
    }
    hide Inv, Do, Enabled, ThreadOk, ObjOk, MapOk, Crowded;
    forall t: Tid | !Moves(a) || t != a.t
      ensures ThreadOk(s', t) && PcOf(s', t) == PcOf(s, t) && (Moves(a) ==> Apart(s', t, a.t))
    {
      assert Moves(a) ==> Apart(s, t, a.t);
      OtherThread(s, a, t);
    }
    forall t: Tid, u: Tid | t != u ensures Apart(s', t, u) {
      assert Apart(s, t, u);
      if Moves(a) && (t == a.t || u == a.t) {
        assert Apart(s', if t == a.t then u else t, a.t);
      }
    }
  }

  /** The only ways a key's phase changes, and the steps that change it. */
  predicate Allowed(a: Action, k: Key, before: Phase, after: Phase) {
    || before == after
    || (before == Absent && after == Issue && a.CreateGet? && a.k == k)
    || (before == Absent && after == Ready && a.CertFill? && a.k == k)
    || (before == Issue && after == Ready && a.Succeed?)
    || (before == Issue && after == Failed && a.Fail?)
    || (before == Failed && after == Absent && a.Retry? && a.k == k)
  }

  /** The issuance for an object ends once, by the goroutine that is asking for it. */
  lemma OutcomeChange(s: State, a: Action, id: Id)
    requires Enabled(s, a) && IsObj(s, id) && (OnObject(a) ==> ThreadOk(s, a.t))
    ensures IsObj(Do(s, a), id)
    ensures var before, after := s.objs[id].outcome, Do(s, a).objs[id].outcome;
      && (before != after ==> before.Awaited? && OnObject(a) && PcOf(s, a.t).id == id)
      && (before != after && after.Succeeded? ==> a.Succeed?)
      && (before != after && after.Refused? ==> a.Fail?)
      && (before != after ==> !after.Awaited?)
  {
  }

  /** An object that an action makes is being issued, or ready. */
  lemma Made(s: State, a: Action)
    requires Enabled(s, a) && Makes(s, a)
    ensures |Do(s, a).objs| == |s.objs| + 1
    ensures Do(s, a).objs[|s.objs|].outcome == if a.CreateGet? then Awaited else Succeeded
    ensures Do(s, a).objs[|s.objs|].key == a.k && Do(s, a).state == s.state[a.k := |s.objs|]
    ensures !a.RenewUpdate? ==> a.k !in s.state
  {
  }

  lemma MapSame(s: State, a: Action, k: Key)
    requires Enabled(s, a) && !(a.Retry? && a.k == k) && !(Makes(s, a) && a.k == k)
    ensures k in Do(s, a).state <==> k in s.state
    ensures k in s.state ==> Do(s, a).state[k] == s.state[k]
  {
  }

  /** A key at whose place in the map nothing happens. */
  lemma PhaseInPlace(s: State, a: Action, k: Key)
    requires MapOk(s) && Enabled(s, a) && !(a.Retry? && a.k == k) && !(Makes(s, a) && a.k == k)
    requires OnObject(a) ==> ThreadOk(s, a.t)
    ensures Allowed(a, k, PhaseOf(s, k), PhaseOf(Do(s, a), k))
    ensures PhaseOf(s, k) != PhaseOf(Do(s, a), k) ==>
      OnObject(a) && IsObj(s, PcOf(s, a.t).id) && s.objs[PcOf(s, a.t).id].key == k
  {
    MapSame(s, a, k);
    if k in s.state {
      OutcomeChange(s, a, s.state[k]);
    }
    hide Do, Enabled, ThreadOk;
  }

  lemma PhaseMade(s: State, a: Action)
    requires MapOk(s) && Enabled(s, a) && Makes(s, a) && KeyOk(s, a.k)
    ensures PhaseOf(Do(s, a), a.k) == if a.CreateGet? then Issue else Ready
    ensures PhaseOf(s, a.k) == if a.RenewUpdate? then Ready else Absent
  {
    Made(s, a);
    hide Do, ValidCert;
  }

  lemma PhaseStep(s: State, a: Action, k: Key)
    requires Inv(s) && Enabled(s, a)
    ensures Allowed(a, k, PhaseOf(s, k), PhaseOf(Do(s, a), k))
    ensures a.Retry? && a.k == k ==> PhaseOf(s, k) == Failed && PhaseOf(Do(s, a), k) == Absent
    ensures PhaseOf(s, k) != PhaseOf(Do(s, a), k) && OnObject(a) ==>
      IsObj(s, PcOf(s, a.t).id) && s.objs[PcOf(s, a.t).id].key == k
  {
    assert MapOk(s) && KeyOk(s, k) && (OnObject(a) ==> ThreadOk(s, a.t));
    assert k in s.state ==> ObjOk(s, s.state[k]);
    hide Inv, Do, Enabled, ThreadOk, ObjOk, MapOk, KeyOk;
    if a.Retry? && a.k == k {
      RetryDrops(s, a);
    } else if Makes(s, a) && a.k == k {
      PhaseMade(s, a);
    } else {
      hide PhaseOf;
      PhaseInPlace(s, a, k);
    }
  }

  /** A retry timer finds the failed state, and drops it. */
  lemma RetryDrops(s: State, a: Action)
    requires Enabled(s, a) && a.Retry? && KeyOk(s, a.k) && (a.k in s.state ==> ObjOk(s, s.state[a.k]))
    ensures PhaseOf(s, a.k) == Failed && a.k !in Do(s, a).state
  {
    assert s.retries[a.k] > 0;
    assert PhaseOf(s, a.k) == Failed;
  }

  lemma BooksOf(s: State, a: Action, k: Key)
    requires Inv(s) && Enabled(s, a)
    ensures var s' := Do(s, a);
      && (s'.retries[k] == s.retries[k]
            + (if a.Fail? && s.objs[PcOf(s, a.t).id].key == k then 1 else 0)
            - (if a.Retry? && a.k == k then 1 else 0))
      && (k in s'.renewal || s'.starters[k] > 0 || s'.renewers[k] > 0 ==>
            || k in s.renewal || s.starters[k] > 0 || s.renewers[k] > 0
            || (a.Succeed? && s.objs[PcOf(s, a.t).id].key == k) || (a.CertFill? && a.k == k))
  {
    hide Inv;
  }

  /** An issuance that ends is that of the key in the map. */
  lemma EndedKey(s: State, a: Action)
    requires Inv(s) && Enabled(s, a) && (a.Succeed? || a.Fail?)
    ensures var k := s.objs[PcOf(s, a.t).id].key;
      PhaseOf(s, k) == Issue && PhaseOf(Do(s, a), k) == if a.Succeed? then Ready else Failed
  {
    assert ThreadOk(s, a.t) && ObjOk(s, PcOf(s, a.t).id);
    hide Inv, ValidCert;
  }

  lemma FilledKey(s: State, a: Action)
    requires Enabled(s, a) && a.CertFill?
    ensures PhaseOf(Do(s, a), a.k) == Ready
  {
  }

  lemma KeepsKey(s: State, a: Action, k: Key)
    requires Inv(s) && Enabled(s, a)
    ensures KeyOk(Do(s, a), k)
  {
    assert KeyOk(s, k);
    PhaseStep(s, a, k);
    BooksOf(s, a, k);
    if a.Succeed? || a.Fail? {
      EndedKey(s, a);
    } else if a.CertFill? {
      FilledKey(s, a);
    }
    hide Inv, Do, Enabled, PhaseOf;
  }

  lemma StaysAlive(s: State, a: Action)
    requires Inv(s) && Enabled(s, a)
    ensures !Do(s, a).fatal
  {
    if a.Unlock? {
      assert ThreadOk(s, a.t);
    }
  }

  lemma StepKeeps(s: State, a: Action)
    requires Inv(s) && Enabled(s, a) && !Crowded(Do(s, a))
    ensures Inv(Do(s, a))
  {
    StaysAlive(s, a);
    assert MapOk(s);
    KeepsMap(s, a);
    KeepsThreads(s, a);
    hide Do, Enabled, ObjOk, ThreadOk, KeyOk, Apart, MapOk;
    forall id: Id ensures ObjOk(Do(s, a), id) {
      KeepsObj(s, a, id);
    }
    forall k: Key ensures KeyOk(Do(s, a), k) {
      KeepsKey(s, a, k);
    }
  }

  // ---------------------------------------------------------------- the life of a key

  /** Absent -> Issue -> Ready or Failed, Failed -> Absent by the retry timer alone, or Absent -> Ready from
      the cache. Ready is for good: no retry timer, however late, deletes it. */
  lemma PhaseChanges(s: State, a: Action, k: Key)
    requires Inv(s) && Enabled(s, a)
    ensures Allowed(a, k, PhaseOf(s, k), PhaseOf(Do(s, a), k))
    ensures PhaseOf(s, k) == Ready ==> PhaseOf(Do(s, a), k) == Ready
  {
    PhaseStep(s, a, k);
    hide Do, PhaseOf, Inv;
  }

  /** A key that is ready has a chain that is not empty, for that key, and its first certificate as the leaf. */
  lemma ReadyHasChain(s: State, k: Key)
    requires Inv(s) && PhaseOf(s, k) == Ready
    ensures var o := s.objs[s.state[k]];
      o.chain != [] && o.leaf == Some(o.chain[0]) && o.chain[0].key == k
  {
    assert ObjOk(s, s.state[k]) && MapOk(s);
  }

  /** The chain a step brings for k: issued for the object of k, found in the cache, or renewed. */
  function Brought(s: State, a: Action, k: Key): Option<seq<Cert>>
    requires Enabled(s, a)
  {
    match a
    case Succeed(t, chain, _) => if s.objs[PcOf(s, t).id].key == k then Some(chain) else None
    case CertFill(_, k', chain, _) => if k' == k then Some(chain) else None
    case RenewUpdate(k', chain, _) => if k' == k then Some(chain) else None
    case _ => None
  }

  /** The chain kept for a ready key is, certificate for certificate, the one that a step has just brought for it,
      or else the one kept before. */
  lemma ChainKept(s: State, a: Action, k: Key)
    requires Inv(s) && Enabled(s, a) && PhaseOf(Do(s, a), k) == Ready
    ensures var kept, brought := Do(s, a).objs[Do(s, a).state[k]].chain, Brought(s, a, k);
      if brought.Some? then kept == brought.value
      else PhaseOf(s, k) == Ready && kept == s.objs[s.state[k]].chain
  {
    PhaseStep(s, a, k);
    MapChange(s, a, k);
    assert MapOk(s) && (OnObject(a) ==> ThreadOk(s, a.t) && ObjOk(s, PcOf(s, a.t).id));
    assert k in s.state ==> ObjOk(s, s.state[k]);
    if a.Succeed? {
      EndedKey(s, a);
    }
    hide Inv, ValidCert;
  }

  /** k is entered for renewal, or the goroutine that will enter it is on its way. */
  predicate Renewing(s: State, k: Key) {
    k in s.renewal || s.starters[k] > 0
  }

  lemma RenewingStep(s: State, a: Action, k: Key)
    requires Inv(s) && Enabled(s, a) && a != StopRenew(k)
    requires PhaseOf(s, k) == Ready ==> Renewing(s, k)
    ensures PhaseOf(Do(s, a), k) == Ready ==> Renewing(Do(s, a), k)
  {
    PhaseStep(s, a, k);
    hide Inv, ValidCert, PhaseOf;
  }

  /** createCert asks the CA only for a key in the phase Issue, with the object in the map, whose lock is held,
      and with which nobody has asked before. */
  lemma RequestOnlyWhileIssuing(s: State, t: Tid)
    requires Inv(s) && Enabled(s, ClearFlag(t))
    ensures var id := PcOf(s, t).id; var o := s.objs[id];
      && PhaseOf(s, o.key) == Issue && s.state[o.key] == id && o.held
      && s.asked[id] == 0 && Do(s, ClearFlag(t)).asked[id] == 1
  {
    assert ThreadOk(s, t) && ObjOk(s, PcOf(s, t).id);
    hide Inv;
  }

  /** Whoever has waited for the read lock finds the issuance over: with a certificate or refused. */
  lemma WaitersSeeTheEnd(s: State, t: Tid)
    requires Inv(s) && Enabled(s, ReadDone(t))
    ensures var o := s.objs[PcOf(s, t).id];
      !o.outcome.Awaited? && (o.outcome.Succeeded? <==> o.chain != [])
  {
    assert ObjOk(s, PcOf(s, t).id);
  }

  // ---------------------------------------------------------------- runs

  predicate IsRun(s: State, run: seq<Action>)
    decreases |run|
  {
    run == [] || (Enabled(s, run[0]) && IsRun(Do(s, run[0]), run[1..]))
  }

  function After(s: State, run: seq<Action>): State
    requires IsRun(s, run)
    decreases |run|
  {
    if run == [] then s else After(Do(s, run[0]), run[1..])
  }

  lemma TookGrows(s: State, a: Action)
    requires Enabled(s, a)
    ensures s.took <= Do(s, a).took
  {
  }

  /** A crowd is remembered. */
  lemma {:induction false} CrowdRemembered(s: State, run: seq<Action>)
    requires IsRun(s, run)
    ensures s.took <= After(s, run).took && (Crowded(s) ==> Crowded(After(s, run)))
    decreases |run|
  {
    hide Do, Enabled;
    if run != [] {
      TookGrows(s, run[0]);
      CrowdRemembered(Do(s, run[0]), run[1..]);
    }
    if Crowded(s) {
      var id: Id :| s.took[id] >= 2;
      assert After(s, run).took[id] >= 2;
    }
  }

  lemma {:induction false} RunKeeps(s: State, run: seq<Action>)
    requires Inv(s) && IsRun(s, run) && !Crowded(After(s, run))
    ensures Inv(After(s, run))
    decreases |run|
  {
    hide Inv, Do, Enabled, Crowded;
    if run != [] {
      CrowdRemembered(Do(s, run[0]), run[1..]);
      StepKeeps(s, run[0]);
      RunKeeps(Do(s, run[0]), run[1..]);
    }
  }

  /** Over a whole run a key that is ready stays ready, and a renewal entry means a key that is ready. */
  lemma {:induction false} ReadyForGood(s: State, run: seq<Action>, k: Key)
    requires Inv(s) && IsRun(s, run) && !Crowded(After(s, run))
    ensures PhaseOf(s, k) == Ready ==> PhaseOf(After(s, run), k) == Ready
    ensures k in After(s, run).renewal ==> PhaseOf(After(s, run), k) == Ready
    decreases |run|
  {
    assert KeyOk(s, k);
    hide Inv, Do, Enabled, PhaseOf, Crowded;
    if run != [] {
      CrowdRemembered(Do(s, run[0]), run[1..]);
      StepKeeps(s, run[0]);
      PhaseChanges(s, run[0], k);
      ReadyForGood(Do(s, run[0]), run[1..], k);
    }
  }

  /** Every ready key is renewed, in every run without a crowd, unless stopRenew has been called for it. */
  lemma {:induction false} ReadyIsRenewed(s: State, run: seq<Action>, k: Key)
    requires Inv(s) && IsRun(s, run) && !Crowded(After(s, run)) && StopRenew(k) !in run
    requires PhaseOf(s, k) == Ready ==> Renewing(s, k)
    ensures PhaseOf(After(s, run), k) == Ready ==> Renewing(After(s, run), k)
    decreases |run|
  {
    hide Inv, Do, Enabled, PhaseOf, Crowded, Renewing;
    if run != [] {
      CrowdRemembered(Do(s, run[0]), run[1..]);
      StepKeeps(s, run[0]);
      assert run[0] in run;
      RenewingStep(s, run[0], k);
      ReadyIsRenewed(Do(s, run[0]), run[1..], k);
    }
  }

  /** In a run without a crowd no object serves for two requests to the CA, and no lock is released twice. */
  lemma AtMostOneRequest(run: seq<Action>, id: Id)
    requires IsRun(INITIAL, run) && !Crowded(After(INITIAL, run))
    ensures After(INITIAL, run).asked[id] <= 1 && !After(INITIAL, run).fatal
  {
    RunKeeps(INITIAL, run);
    assert ObjOk(After(INITIAL, run), id);
  }

  // ---------------------------------------------------------------- the flag read without a lock

  function EnteringAt(pcs: map<Tid, Pc>, id: Id): set<Tid> {
    set t | t in pcs && pcs[t] == Entering(id)
  }

  /** The goroutines that have asked with an object and have its lock still to release. */
  function BusyAt(pcs: map<Tid, Pc>, id: Id): set<Tid> {
    set t | t in pcs && (pcs[t] == Issuing(id) || pcs[t] == Leaving(id))
  }

  /** The books of an object, in any run: who has read its flag as true is on the way to ask the CA or has asked;
      and who has asked has released the lock or is going to. */
  predicate HistOk(s: State, id: Id) {
    var busy := |BusyAt(s.pcs, id)|;
    && s.took[id] == s.asked[id] + |EnteringAt(s.pcs, id)|
    && busy <= s.asked[id]
    && (if !IsObj(s, id) then s.took[id] == 0
        else
          var o := s.objs[id];
          && (o.locked ==> o.held && s.asked[id] == 0)
          && (s.took[id] > 0 && !s.fatal ==> s.asked[id] == busy + if o.held then 0 else 1))
  }

  ghost predicate Twice(s: State) {
    exists id: Id :: s.asked[id] >= 2
  }

  ghost predicate Hist(s: State) {
    (forall id: Id :: HistOk(s, id)) && (s.fatal ==> Twice(s))
  }

  lemma InitialHist()
    ensures Hist(INITIAL)
  {
    forall id: Id ensures HistOk(INITIAL, id) {
      assert EnteringAt(INITIAL.pcs, id) == {} && BusyAt(INITIAL.pcs, id) == {};
    }
  }

  predicate IsBusy(pc: Pc, id: Id) {
    pc == Issuing(id) || pc == Leaving(id)
  }

  function PcIn(pcs: map<Tid, Pc>, t: Tid): Pc {
    if t in pcs then pcs[t] else Idle
  }

  lemma Toggled(x: set<Tid>, y: set<Tid>, t: Tid)
    requires x - {t} == y - {t}
    ensures |y| == |x| + (if t in y then 1 else 0) - (if t in x then 1 else 0)
  {
    assert x == if t in x then (x - {t}) + {t} else x - {t};
    assert y == if t in y then (y - {t}) + {t} else y - {t};
  }

  /** One goroutine goes elsewhere. */
  lemma CountedEntering(pcs: map<Tid, Pc>, t: Tid, pc: Pc, id: Id)
    ensures |EnteringAt(pcs[t := pc], id)| == |EnteringAt(pcs, id)|
      + (if pc == Entering(id) then 1 else 0) - (if PcIn(pcs, t) == Entering(id) then 1 else 0)
  {
    Toggled(EnteringAt(pcs, id), EnteringAt(pcs[t := pc], id), t);
  }

  lemma CountedBusy(pcs: map<Tid, Pc>, t: Tid, pc: Pc, id: Id)
    ensures |BusyAt(pcs[t := pc], id)| == |BusyAt(pcs, id)|
      + (if IsBusy(pc, id) then 1 else 0) - (if IsBusy(PcIn(pcs, t), id) then 1 else 0)
  {
    Toggled(BusyAt(pcs, id), BusyAt(pcs[t := pc], id), t);
  }

  /** Where the goroutine that moves goes. */
  lemma Destination(s: State, a: Action) returns (pc: Pc)
    requires Enabled(s, a)
    ensures Do(s, a).pcs == if Moves(a) then s.pcs[a.t := pc] else s.pcs
    ensures Moves(a) ==> PcOf(Do(s, a), a.t) == pc
  {
    match a
    case CertHit(_, k) => pc := Reading(s.state[k]);
    case CreateGet(_, k) => pc := Got(if k in s.state then s.state[k] else |s.objs|);
    case ReadFlag(t) =>
      var id := PcOf(s, t).id;
      pc := if s.objs[id].locked then Entering(id) else Reading(id);
    case ClearFlag(t) => pc := Issuing(PcOf(s, t).id);
    case Succeed(t, _, _) => pc := Leaving(PcOf(s, t).id);
    case Fail(t) => pc := Leaving(PcOf(s, t).id);
    case _ => pc := Idle;
  }

  lemma HistAt(s: State, a: Action)
    requires Enabled(s, a) && OnObject(a) && HistOk(s, PcOf(s, a.t).id)
    ensures HistOk(Do(s, a), PcOf(s, a.t).id)
  {
    var id := PcOf(s, a.t).id;
    var pc := Destination(s, a);
    CountedEntering(s.pcs, a.t, pc, id);
    CountedBusy(s.pcs, a.t, pc, id);
    hide EnteringAt, BusyAt, ValidCert;
  }

  lemma DestinationFar(s: State, a: Action, id: Id) returns (pc: Pc)
    requires Enabled(s, a) && Moves(a) && (OnObject(a) ==> PcOf(s, a.t).id != id)
    ensures Do(s, a).pcs == s.pcs[a.t := pc]
    ensures pc != Entering(id) && !IsBusy(pc, id)
    ensures PcIn(s.pcs, a.t) != Entering(id) && !IsBusy(PcIn(s.pcs, a.t), id)
  {
    pc := Destination(s, a);
    hide ValidCert;
  }

  lemma SetsSame(s: State, a: Action, id: Id)
    requires Enabled(s, a) && (OnObject(a) ==> PcOf(s, a.t).id != id)
    ensures |EnteringAt(Do(s, a).pcs, id)| == |EnteringAt(s.pcs, id)|
    ensures |BusyAt(Do(s, a).pcs, id)| == |BusyAt(s.pcs, id)|
  {
    if Moves(a) {
      var pc := DestinationFar(s, a, id);
      hide *;
      CountedEntering(s.pcs, a.t, pc, id);
      CountedBusy(s.pcs, a.t, pc, id);
    } else {
      var pc := Destination(s, a);
    }
  }

  lemma BooksSame(s: State, a: Action, id: Id)
    requires Enabled(s, a) && (OnObject(a) ==> PcOf(s, a.t).id != id)
    ensures Do(s, a).took[id] == s.took[id] && Do(s, a).asked[id] == s.asked[id]
    ensures IsObj(Do(s, a), id) && !IsObj(s, id) && Do(s, a).objs[id].locked ==> Do(s, a).objs[id].held
    ensures !s.fatal
  {
  }

  /** A step about another object, or none. */
  lemma HistElsewhere(s: State, a: Action, id: Id)
    requires Enabled(s, a) && HistOk(s, id) && (OnObject(a) ==> PcOf(s, a.t).id != id)
    ensures HistOk(Do(s, a), id)
  {
    SetsSame(s, a, id);
    BooksSame(s, a, id);
    if IsObj(s, id) {
      ObjSame(s, a, id);
    }
    hide Do, Enabled, EnteringAt, BusyAt;
  }

  lemma KeepsHistOf(s: State, a: Action, id: Id)
    requires Enabled(s, a) && HistOk(s, id)
    ensures HistOk(Do(s, a), id)
  {
    hide Do, HistOk;
    if OnObject(a) && PcOf(s, a.t).id == id {
      HistAt(s, a);
    } else {
      HistElsewhere(s, a, id);
    }
  }

  /** A lock that nobody holds is released only by a second goroutine that has asked with the object. */
  lemma FatalStep(s: State, a: Action)
    requires Enabled(s, a) && Hist(s) && Do(s, a).fatal
    ensures Twice(Do(s, a))
  {
    var id := PcOf(s, a.t).id;
    assert HistOk(s, id);
    assert a.t in BusyAt(s.pcs, id);
    hide EnteringAt, BusyAt;
    assert Do(s, a).asked[id] >= 2;
  }

  lemma KeepsHist(s: State, a: Action)
    requires Enabled(s, a) && Hist(s)
    ensures Hist(Do(s, a))
  {
    if Do(s, a).fatal {
      FatalStep(s, a);
    }
    hide Do, Enabled, HistOk, Twice;
    forall id: Id ensures HistOk(Do(s, a), id) {
      KeepsHistOf(s, a, id);
    }
  }

  lemma {:induction false} RunKeepsHist(s: State, run: seq<Action>)
    requires Hist(s) && IsRun(s, run)
    ensures Hist(After(s, run))
    decreases |run|
  {
    hide Hist, Do, Enabled;
    if run != [] {
      KeepsHist(s, run[0]);
      RunKeepsHist(Do(s, run[0]), run[1..]);
    }
  }

  // ---------------------------------------------------------------- nobody waits for nobody

  /** On the way to the flag of an object or past it, with its lock to release in the end. */
  predicate Owns(s: State, t: Tid, id: Id) {
    var pc := PcOf(s, t);
    (pc == Got(id) && IsObj(s, id) && s.objs[id].locked) || pc == Entering(id) || IsBusy(pc, id)
  }

  /** A lock that is held has an owner, and every goroutine is at an object that is there. */
  ghost predicate Owned(s: State) {
    && (forall id: Id :: IsObj(s, id) && s.objs[id].held ==> exists t: Tid :: Owns(s, t, id))
    && (forall t: Tid :: !PcOf(s, t).Idle? ==> IsObj(s, PcOf(s, t).id))
    && (forall k :: k in s.state ==> IsObj(s, s.state[k]))
  }

  lemma InitialOwned()
    ensures Owned(INITIAL)
  {
  }

  lemma OwnedStep(s: State, a: Action, id: Id)
    requires Owned(s) && Enabled(s, a) && IsObj(Do(s, a), id) && Do(s, a).objs[id].held
    ensures exists t: Tid :: Owns(Do(s, a), t, id)
  {
    var s' := Do(s, a);
    if IsObj(s, id) {
      assert s.objs[id].held;
      var t: Tid :| Owns(s, t, id);
      if Moves(a) && a.t == t {
        assert Owns(s', t, id);
      } else {
        OwnerStays(s, a, t, id);
      }
    } else {
      assert Owns(s', a.t, id);
    }
  }

  /** While another goroutine moves, an owner goes on owning, or that goroutine takes over. */
  lemma OwnerStays(s: State, a: Action, t: Tid, id: Id)
    requires Enabled(s, a) && IsObj(s, id) && Owns(s, t, id) && (Moves(a) ==> a.t != t)
    ensures Owns(Do(s, a), t, id) || (Moves(a) && Owns(Do(s, a), a.t, id))
  {
    PcChange(s, a, t);
  }

  lemma PlaceStep(s: State, a: Action)
    requires Owned(s) && Enabled(s, a)
    ensures forall t: Tid :: !PcOf(Do(s, a), t).Idle? ==> IsObj(Do(s, a), PcOf(Do(s, a), t).id)
    ensures forall k :: k in Do(s, a).state ==> IsObj(Do(s, a), Do(s, a).state[k])
  {
    var s' := Do(s, a);
    assert |s'.objs| >= |s.objs|;
    forall t: Tid | !PcOf(s', t).Idle? ensures IsObj(s', PcOf(s', t).id) {
      if Moves(a) && a.t == t {
        assert PcOf(s, t).Idle? || IsObj(s, PcOf(s, t).id);
      } else {
        PcChange(s, a, t);
        assert IsObj(s, PcOf(s, t).id);
      }
    }
  }

  lemma {:induction false} RunKeepsOwned(s: State, run: seq<Action>)
    requires Owned(s) && IsRun(s, run)
    ensures Owned(After(s, run))
    decreases |run|
  {
    if run != [] {
      var a := run[0];
      PlaceStep(s, a);
      forall id: Id | IsObj(Do(s, a), id) && Do(s, a).objs[id].held
        ensures exists t: Tid :: Owns(Do(s, a), t, id)
      {
        OwnedStep(s, a, id);
      }
      hide Do, Enabled, Owns;
      assert Owned(Do(s, a));
      RunKeepsOwned(Do(s, a), run[1..]);
    }
  }

  /** In every run, crowded or not, as long as the program is alive and some goroutine is not done, one of them can
      go on: who waits to read waits for a goroutine that is going to release the lock. */
  lemma NoDeadlock(run: seq<Action>, t: Tid)
    requires IsRun(INITIAL, run) && !After(INITIAL, run).fatal && !PcOf(After(INITIAL, run), t).Idle?
    ensures exists a :: OnObject(a) && Enabled(After(INITIAL, run), a)
  {
    var s := After(INITIAL, run);
    InitialOwned();
    RunKeepsOwned(INITIAL, run);
    var id := PcOf(s, t).id;
    assert IsObj(s, id);
    var u := t;
    if PcOf(s, t).Reading? && s.objs[id].held {
      u :| Owns(s, u, id);
    }
    var pc := PcOf(s, u);
    var a := if pc.Got? then ReadFlag(u) else if pc.Entering? then ClearFlag(u) else if pc.Issuing? then Fail(u)
             else if pc.Leaving? then Unlock(u) else ReadDone(u);
    assert OnObject(a) && Enabled(s, a);
  }

  /** Steps of goroutines that are past the flag: none reads it. */
  predicate Finishing(run: seq<Action>) {
    forall a <- run :: a.ClearFlag? || a.Fail? || a.Unlock?
  }

  lemma {:induction false} FinishingTakesNone(s: State, run: seq<Action>)
    requires IsRun(s, run) && Finishing(run)
    ensures After(s, run).took == s.took
    decreases |run|
  {
    if run != [] {
      assert run == [run[0]] + run[1..] && run[0] in run;
      FinishingTakesNone(Do(s, run[0]), run[1..]);
    }
  }

  lemma {:induction false} RunAppend(s: State, run: seq<Action>, more: seq<Action>)
    requires IsRun(s, run) && IsRun(After(s, run), more)
    ensures IsRun(s, run + more) && After(s, run + more) == After(After(s, run), more)
    decreases |run|
  {
    hide Do, Enabled;
    if run == [] {
      assert run + more == more;
    } else {
      assert (run + more)[1..] == run[1..] + more;
      RunAppend(Do(s, run[0]), run[1..], more);
    }
  }

  lemma OneStep(s: State, a: Action)
    requires Enabled(s, a)
    ensures IsRun(s, [a]) && After(s, [a]) == Do(s, a)
  {
    assert [a][1..] == [];
    hide Do, Enabled;
  }

  /** A goroutine that has read the flag as true goes on to ask the CA. */
  lemma AskNext(s: State, id: Id) returns (more: seq<Action>)
    requires Hist(s) && !s.fatal && s.took[id] > s.asked[id]
    ensures Finishing(more) && IsRun(s, more)
    ensures var e := After(s, more);
      Hist(e) && !e.fatal && e.took == s.took && e.asked[id] == s.asked[id] + 1
  {
    assert HistOk(s, id);
    var t :| t in EnteringAt(s.pcs, id);
    var a := ClearFlag(t);
    more := [a];
    assert IsObj(s, id);
    OneStep(s, a);
    KeepsHist(s, a);
    hide Hist, HistOk, EnteringAt, BusyAt;
  }

  /** A run has had a crowd exactly when the goroutines it has let past the flag, left to go on, ask the CA twice
      with one object. */
  lemma TwoRequestsIffCrowd(run: seq<Action>)
    requires IsRun(INITIAL, run)
    ensures var s := After(INITIAL, run);
      Crowded(s) <==> exists more :: Finishing(more) && IsRun(s, more) && Twice(After(s, more))
  {
    var s := After(INITIAL, run);
    InitialHist();
    RunKeepsHist(INITIAL, run);
    if Crowded(s) {
      var more := AskTwice(s);
    }
    if more :| Finishing(more) && IsRun(s, more) && Twice(After(s, more)) {
      OnlyCrowdsAskTwice(s, more);
    }
  }

  lemma OnlyCrowdsAskTwice(s: State, more: seq<Action>)
    requires Hist(s) && Finishing(more) && IsRun(s, more) && Twice(After(s, more))
    ensures Crowded(s)
  {
    RunKeepsHist(s, more);
    FinishingTakesNone(s, more);
    var e := After(s, more);
    var id: Id :| e.asked[id] >= 2;
    assert HistOk(e, id);
    assert s.took[id] >= 2;
  }

  lemma AskTwice(s: State) returns (more: seq<Action>)
    requires Hist(s) && Crowded(s)
    ensures Finishing(more) && IsRun(s, more) && Hist(After(s, more)) && Twice(After(s, more))
  {
    more := [];
    if s.fatal {
      return;
    }
    var id: Id :| s.took[id] >= 2;
    hide Hist, Enabled, Do, Crowded;
    while After(s, more).asked[id] < 2
      invariant Finishing(more) && IsRun(s, more)
      invariant var e := After(s, more); Hist(e) && !e.fatal && e.took == s.took
      decreases if After(s, more).asked[id] < 2 then 2 - After(s, more).asked[id] else 0
    {
      var next := AskNext(After(s, more), id);
      RunAppend(s, more, next);
      more := more + next;
    }
  }

  /** A goroutine that has asked goes on to release the lock; it may fail. */
  lemma ReleaseNext(s: State, id: Id, t: Tid) returns (more: seq<Action>)
    requires Hist(s) && !s.fatal && IsObj(s, id) && IsBusy(PcOf(s, t), id)
    ensures Finishing(more) && IsRun(s, more)
    ensures var e := After(s, more);
      && Hist(e) && e.fatal == !s.objs[id].held && e.asked == s.asked && e.took == s.took
      && IsObj(e, id) && !e.objs[id].held
  {
    var first := if PcOf(s, t).Issuing? then [Fail(t)] else [];
    if PcOf(s, t).Issuing? {
      OneStep(s, Fail(t));
    }
    assert IsRun(s, first);
    var mid := After(s, first);
    assert !mid.fatal && PcOf(mid, t) == Leaving(id) && IsObj(mid, id) && mid.objs[id].held == s.objs[id].held;
    assert mid.asked == s.asked && mid.took == s.took;
    OneStep(mid, Unlock(t));
    var e := Do(mid, Unlock(t));
    assert e.fatal == !s.objs[id].held && e.asked == s.asked && e.took == s.took;
    assert IsObj(e, id) && !e.objs[id].held;
    hide Hist, Do, Enabled;
    more := first + [Unlock(t)];
    RunAppend(s, first, [Unlock(t)]);
    RunKeepsHist(s, more);
  }

  /** And exactly then they can end by releasing a lock that nobody holds, which ends the program. */
  lemma FatalIffCrowd(run: seq<Action>)
    requires IsRun(INITIAL, run)
    ensures var s := After(INITIAL, run);
      Crowded(s) <==> exists more :: Finishing(more) && IsRun(s, more) && After(s, more).fatal
  {
    var s := After(INITIAL, run);
    InitialHist();
    RunKeepsHist(INITIAL, run);
    if Crowded(s) {
      var more := ReleaseTwice(s);
    }
    if more :| Finishing(more) && IsRun(s, more) && After(s, more).fatal {
      RunKeepsHist(s, more);
      OnlyCrowdsAskTwice(s, more);
    }
  }

  lemma BusyOne(s: State, id: Id) returns (t: Tid)
    requires Hist(s) && !s.fatal && s.asked[id] >= 2
    ensures IsObj(s, id) && IsBusy(PcOf(s, t), id)
  {
    assert HistOk(s, id);
    t :| t in BusyAt(s.pcs, id);
  }

  lemma ReleaseTwice(s: State) returns (more: seq<Action>)
    requires Hist(s) && Crowded(s)
    ensures Finishing(more) && IsRun(s, more) && After(s, more).fatal
  {
    more := AskTwice(s);
    var id: Id :| After(s, more).asked[id] >= 2;
    hide Hist, Do, Enabled, Crowded, Twice, IsBusy;
    for i := 0 to 2
      invariant Finishing(more) && IsRun(s, more)
      invariant var e := After(s, more);
        Hist(e) && e.asked[id] >= 2 && (!e.fatal && i > 0 ==> IsObj(e, id) && !e.objs[id].held)
      invariant i == 2 ==> After(s, more).fatal
    {
      if !After(s, more).fatal {
        var t := BusyOne(After(s, more), id);
        var next := ReleaseNext(After(s, more), id, t);
        RunAppend(s, more, next);
        more := more + next;
      }
    }
  }

  /** Crowds happen: from an idle manager, two callers for one key come to read the same flag. */
  lemma CrowdHappens(k: Key)
    ensures var run := [CreateGet(0, k), CreateGet(1, k), ReadFlag(0), ReadFlag(1)];
      IsRun(INITIAL, run) && Crowded(After(INITIAL, run))
  {
    var s1 := Do(INITIAL, CreateGet(0, k));
    var s2 := Do(s1, CreateGet(1, k));
    assert s2.objs == [CertState(k, true, true, [], None, Awaited)] && PcOf(s2, 0) == PcOf(s2, 1) == Got(0);
    var s3 := Do(s2, ReadFlag(0));
    var s4 := Do(s3, ReadFlag(1));
    assert s4.took[0] == 2;
    OneStep(INITIAL, CreateGet(0, k));
    OneStep(s1, CreateGet(1, k));
    OneStep(s2, ReadFlag(0));
    OneStep(s3, ReadFlag(1));
    hide Do, Enabled;
    RunAppend(INITIAL, [CreateGet(0, k)], [CreateGet(1, k)]);
    RunAppend(INITIAL, [CreateGet(0, k)] + [CreateGet(1, k)], [ReadFlag(0)]);
    RunAppend(INITIAL, [CreateGet(0, k)] + [CreateGet(1, k)] + [ReadFlag(0)], [ReadFlag(1)]);
    assert [CreateGet(0, k), CreateGet(1, k), ReadFlag(0), ReadFlag(1)]
      == [CreateGet(0, k)] + [CreateGet(1, k)] + [ReadFlag(0)] + [ReadFlag(1)];
  }
}
