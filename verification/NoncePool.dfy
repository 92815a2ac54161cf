/** The nonce pool of an ACME client, shared by any number of requests: replay protection as section 6.5 of
    RFC 8555 asks for it. */
module NoncePool {
  import opened Wrappers

  type Nonce = string
  type Tid = nat

  const MAX_NONCES: nat := 100

  /** Client.addNonce on the pool; an empty nonce is none, and a full pool takes no more. */
  function Added(pool: set<Nonce>, v: Nonce): set<Nonce> {
    if v == "" || |pool| >= MAX_NONCES then pool else pool + {v}
  }

  /** Where a request is. Fetching: in popNonce, waiting for a fresh nonce with noncesMu held. Holding: popNonce
      has returned the nonce. Waiting: it has signed a request that is on its way. Carrying: the answer has
      brought a nonce that has still to be added. */
  datatype Pc = Idle | Fetching | Holding(n: Nonce) | Waiting | Carrying(n: Nonce)

  /** issued: every nonce the server has ever given out; used: the nonces of the requests sent, in order. */
  datatype State = State(issued: set<Nonce>, pool: set<Nonce>, mu: Option<Tid>, pcs: map<Tid, Pc>, used: seq<Nonce>)

  datatype Action =
    | PopPool(t: Tid, n: Nonce)     // popNonce takes any member of the pool
    | PopFetch(t: Tid)              // popNonce finds the pool empty
    | Fetched(t: Tid, n: Nonce)     // the server gives a nonce it has not given before
    | FetchFails(t: Tid)
    | GiveUp(t: Tid)                // signing fails
    | Sign(t: Tid)                  // the request goes out
    | Answer(t: Tid, n: Nonce)      // an answer with a fresh nonce
    | NoNonce(t: Tid)               // an answer without, or none
    | Add(t: Tid)
    | Clear(t: Tid)                 // a bad-nonce answer

  function PcOf(s: State, t: Tid): Pc {
    if t in s.pcs then s.pcs[t] else Idle
  }

  predicate Fresh(s: State, n: Nonce) {
    n != "" && n !in s.issued
  }

  predicate Enabled(s: State, a: Action) {
    match a
    case PopPool(t, n) => PcOf(s, t).Idle? && s.mu.None? && n in s.pool
    case PopFetch(t) => PcOf(s, t).Idle? && s.mu.None? && s.pool == {}
    case Fetched(t, n) => PcOf(s, t).Fetching? && s.mu == Some(t) && Fresh(s, n)
    case FetchFails(t) => PcOf(s, t).Fetching? && s.mu == Some(t)
    case GiveUp(t) => PcOf(s, t).Holding?
    case Sign(t) => PcOf(s, t).Holding?
    case Answer(t, n) => PcOf(s, t).Waiting? && Fresh(s, n)
    case NoNonce(t) => PcOf(s, t).Waiting?
    case Add(t) => PcOf(s, t).Carrying? && s.mu.None?
    case Clear(t) => PcOf(s, t).Idle? && s.mu.None?
  }

  function Do(s: State, a: Action): State
    requires Enabled(s, a)
  {
    match a
    case PopPool(t, n) => s.(pool := s.pool - {n}, pcs := s.pcs[t := Holding(n)])
    case PopFetch(t) => s.(mu := Some(t), pcs := s.pcs[t := Fetching])
    case Fetched(t, n) => s.(issued := s.issued + {n}, mu := None, pcs := s.pcs[t := Holding(n)])
    case FetchFails(t) => s.(mu := None, pcs := s.pcs[t := Idle])
    case GiveUp(t) => s.(pcs := s.pcs[t := Idle])
    case Sign(t) => s.(used := s.used + [PcOf(s, t).n], pcs := s.pcs[t := Waiting])
    case Answer(t, n) => s.(issued := s.issued + {n}, pcs := s.pcs[t := Carrying(n)])
    case NoNonce(t) => s.(pcs := s.pcs[t := Idle])
    case Add(t) => s.(pool := Added(s.pool, PcOf(s, t).n), pcs := s.pcs[t := Idle])
    case Clear(t) => s.(pool := {})
  }

  // ---------------------------------------------------------------- what is kept

  function InHand(pc: Pc): Option<Nonce> {
    if pc.Holding? || pc.Carrying? then Some(pc.n) else None
  }

  /** Every nonce is in one place: in the pool, in the hands of one request, or spent, and spent once. */
  ghost predicate Inv(s: State) {
    && |s.pool| <= MAX_NONCES
    && s.pool <= s.issued
    && (forall n <- s.pool :: n !in s.used)
    && (forall n <- s.used :: n in s.issued)
    && (forall i, j :: 0 <= i < j < |s.used| ==> s.used[i] != s.used[j])
    && (forall t: Tid :: HandOk(s, t))
    && (forall t: Tid, u: Tid :: t != u ==> HandsApart(s, t, u))
  }

  predicate HandOk(s: State, t: Tid) {
    var h := InHand(PcOf(s, t));
    h.Some? ==> h.value in s.issued && h.value !in s.pool && h.value !in s.used
  }

  predicate HandsApart(s: State, t: Tid, u: Tid) {
    var h, k := InHand(PcOf(s, t)), InHand(PcOf(s, u));
    h.Some? && k.Some? ==> h.value != k.value
  }

  const INITIAL := State({}, {}, None, map[], [])

  /** What a step does to the pool and to the spent nonces, whoever else holds one. */
  lemma PlacesKept(s: State, a: Action)
    requires Inv(s) && Enabled(s, a)
    ensures var s' := Do(s, a);
      && |s'.pool| <= MAX_NONCES
      && s'.pool <= s'.issued && s.issued <= s'.issued
      && (forall n <- s'.pool :: n !in s'.used)
      && (forall n <- s'.used :: n in s'.issued)
      && (forall i, j :: 0 <= i < j < |s'.used| ==> s'.used[i] != s'.used[j])
  {
    assert HandOk(s, a.t);
  }

  /** The hand of a request that does not move is undisturbed. */
  lemma OthersKept(s: State, a: Action, t: Tid)
    requires HandOk(s, t) && HandOk(s, a.t) && Enabled(s, a)
    requires t != a.t && HandsApart(s, t, a.t)
    ensures HandOk(Do(s, a), t) && HandsApart(Do(s, a), t, a.t)
    ensures PcOf(Do(s, a), t) == PcOf(s, t)
  {
  }

  lemma MoverKept(s: State, a: Action)
    requires Inv(s) && Enabled(s, a)
    ensures HandOk(Do(s, a), a.t)
  {
    assert HandOk(s, a.t);
  }

  lemma StepKeeps(s: State, a: Action)
    requires Inv(s) && Enabled(s, a)
    ensures Inv(Do(s, a))
  {
    var s' := Do(s, a);
    PlacesKept(s, a);
    MoverKept(s, a);
    assert forall t: Tid :: HandOk(s, t);
    forall t: Tid | t != a.t ensures HandOk(s', t) && HandsApart(s', t, a.t) && PcOf(s', t) == PcOf(s, t) {
      assert HandsApart(s, t, a.t);
      OthersKept(s, a, t);
    }
    hide Do, Enabled, PcOf;
    forall t: Tid, u: Tid | t != u ensures HandsApart(s', t, u) {
      assert HandsApart(s, t, u);
      assert t != a.t ==> HandsApart(s', t, a.t);
      assert u != a.t ==> HandsApart(s', u, a.t);
    }
    forall t: Tid ensures HandOk(s', t) {
      assert t == a.t || HandOk(s', t);
    }
  }

  predicate IsRun(s: State, run: seq<Action>)
    decreases |run|
  {
    run == [] || (Enabled(s, run[0]) && IsRun(Do(s, run[0]), run[1..]))
  }

  function After(s: State, run: seq<Action>): State
    requires IsRun(s, run)
    decreases |run|
  {
    if run == [] then s else After(Do(s, run[0]), run[1..])
  }

  lemma {:induction false} RunKeeps(s: State, run: seq<Action>)
    requires Inv(s) && IsRun(s, run)
    ensures Inv(After(s, run))
    decreases |run|
  {
    hide Inv, Do;
    if run != [] {
      StepKeeps(s, run[0]);
      RunKeeps(Do(s, run[0]), run[1..]);
    }
  }

  /** If the server never repeats a nonce, no nonce signs two requests, however requests interleave; what is
      pooled has never been spent, and the pool stays within its bound. */
  lemma NoReplay(run: seq<Action>)
    requires IsRun(INITIAL, run)
    ensures var s := After(INITIAL, run);
      && (forall i, j :: 0 <= i < j < |s.used| ==> s.used[i] != s.used[j])
      && |s.pool| <= MAX_NONCES
      && forall n <- s.used :: n in s.issued && n !in s.pool
  {
    RunKeeps(INITIAL, run);
  }

  // ---------------------------------------------------------------- where the nonces go

  ghost predicate Placed(s: State, n: Nonce) {
    n in s.used || n in s.pool || exists t: Tid :: InHand(PcOf(s, t)) == Some(n)
  }

  /** What a step gives up: the nonce of a request that could not be signed, one that comes to a pool of a hundred,
      and the whole pool after a bad-nonce answer. */
  function LostBy(s: State, a: Action): set<Nonce>
    requires Enabled(s, a)
  {
    match a
    case GiveUp(t) => {PcOf(s, t).n}
    case Add(t) => if |s.pool| < 100 && PcOf(s, t).n != "" then {} else {PcOf(s, t).n}
    case Clear(_) => s.pool
    case _ => {}
  }

  function Lost(s: State, run: seq<Action>): set<Nonce>
    requires IsRun(s, run)
    decreases |run|
  {
    if run == [] then {} else LostBy(s, run[0]) + Lost(Do(s, run[0]), run[1..])
  }

  lemma PlacedStep(s: State, a: Action, n: Nonce)
    requires Enabled(s, a) && (n in s.issued ==> Placed(s, n))
    ensures n in Do(s, a).issued ==> Placed(Do(s, a), n) || n in LostBy(s, a)
  {
    var s' := Do(s, a);
    if n in s.issued && n !in s.used && n !in s.pool {
      var t: Tid :| InHand(PcOf(s, t)) == Some(n);
      if t != a.t {
        assert PcOf(s', t) == PcOf(s, t);
      }
    } else if n in s'.issued && n !in s.issued {
      assert InHand(PcOf(s', a.t)) == Some(n);
    }
    assert InHand(PcOf(s', a.t)) == InHand(PcOf(s', a.t));
  }

  /** Conservation: over every run each nonce the server has given is spent, pooled, in the hands of a request, or
      among those given up. */
  lemma {:induction false} EveryNonceAccounted(s: State, run: seq<Action>, n: Nonce)
    requires IsRun(s, run) && (n in s.issued ==> Placed(s, n))
    ensures n in After(s, run).issued ==> Placed(After(s, run), n) || n in Lost(s, run)
    decreases |run|
  {
    hide Do, Placed, LostBy;
    if run != [] {
      PlacedStep(s, run[0], n);
      if n in LostBy(s, run[0]) {
        return;
      }
      EveryNonceAccounted(Do(s, run[0]), run[1..], n);
    }
  }
}
