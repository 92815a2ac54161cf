/** Client.post: signed requests with a nonce pool, retried. A nonce is named by its place in the order in which
    the server has given nonces out, so that a larger one was obtained later. */
module Post {
  import opened Wrappers

  const MAX_NONCES: nat := 100
  const TOO_MANY_REQUESTS: int := 429

  datatype Response = Response(status: int, problem: string, nonce: Option<nat>)

  /** One signed request: the nonce it carried, its answer, and how many nonces the server had given out once it
      had answered. */
  datatype Attempt = Attempt(nonce: nat, res: Response, mark: nat)

  function Lower(c: char): char {
    if 'A' <= c <= 'Z' then c - 'A' + 'a' else c
  }

  function ToLower(s: string): (r: string)
    ensures |r| == |s|
  {
    seq(|s|, i requires 0 <= i < |s| => Lower(s[i]))
  }

  predicate HasSuffix(s: string, suffix: string) {
    |s| >= |suffix| && s[|s| - |suffix|..] == suffix
  }

  predicate IsBadNonce(res: Response) {
    HasSuffix(ToLower(res.problem), ":badnonce")
  }

  predicate IsRetriable(code: int) {
    code <= 399 || code >= 500 || code == TOO_MANY_REQUESTS
  }

  /** A client error is not worth a retry, but for the one that says to come back later; all else is. */
  lemma RetriableIs(code: int)
    ensures IsRetriable(code) <==> (400 <= code < 500 ==> code == 429)
  {
  }

  /** A bad nonce is told by the last nine characters of the problem, in either case of each letter. */
  lemma BadNonceIs(res: Response)
    ensures IsBadNonce(res) <==>
      |res.problem| >= 9
      && forall i :: 0 <= i < 9 ==>
           var c := res.problem[|res.problem| - 9 + i]; c == ":badnonce"[i] || c == ":BADNONCE"[i]
  {
    var p := res.problem;
    if |p| >= 9 {
      var tail := ToLower(p)[|p| - 9..];
      forall i | 0 <= i < 9
        ensures tail[i] == ":badnonce"[i] <==> (p[|p| - 9 + i] == ":badnonce"[i] || p[|p| - 9 + i] == ":BADNONCE"[i])
      {
        LowerIs(p[|p| - 9 + i], i);
      }
      hide ToLower, Lower;
      assert tail == ":badnonce" <==> forall i :: 0 <= i < 9 ==> tail[i] == ":badnonce"[i];
    }
  }

  lemma LowerIs(c: char, i: nat)
    requires i < 9
    ensures Lower(c) == ":badnonce"[i] <==> (c == ":badnonce"[i] || c == ":BADNONCE"[i])
  {
  }

  /** The server together with the request's context: budget is how many more requests go through. */
  class Server {
    var issued: nat
    var budget: nat
    ghost var used: set<nat>        // nonces that have come in with a request
    ghost var refused: bool         // what was last asked for, of the server or the context, was not to be had

    constructor (budget: nat)
      ensures issued == 0 && used == {} && this.budget == budget && !refused
    {
      issued, this.budget, used, refused := 0, budget, {}, false;
    }

    /** The caller does without what was refused. */
    ghost method Forget()
      modifies this`refused
      ensures !refused
    {
      refused := false;
    }

    /** A nonce never given out before, or none. */
    method MaybeNonce() returns (nonce: Option<nat>)
      modifies this`issued
      ensures issued >= old(issued)
      ensures nonce.Some? ==> old(issued) <= nonce.value < issued
    {
      var gives: bool :| true;
      nonce := None;
      if gives {
        nonce, issued := Some(issued), issued + 1;
      }
    }

    /** fetchNonce, whole. */
    method FetchNonce() returns (nonce: Option<nat>)
      modifies this`issued, this`budget, this`refused
      ensures issued >= old(issued) && budget <= old(budget) && refused == nonce.None?
      ensures nonce.Some? ==> old(issued) <= nonce.value < issued
    {
      nonce := None;
      if budget > 0 {
        budget := budget - 1;
        nonce := MaybeNonce();
      }
      refused := nonce.None?;
    }

    /** jwsEncodeJSON, which may fail. */
    method Sign() returns (ok: bool)
      modifies this`refused
      ensures refused == !ok
    {
      ok :| true;
      refused := !ok;
    }

    /** A wait, in which the context may end. */
    method Wait() returns (ok: bool)
      modifies this`refused
      ensures refused == !ok
    {
      ok :| true;
      refused := !ok;
    }

    /** A signed request comes in. The caller must see to it that its nonce has not come in before. */
    method Take(nonce: nat) returns (res: Response, ok: bool)
      requires nonce < issued && nonce !in used
      modifies this
      ensures issued >= old(issued) && budget <= old(budget) && (ok ==> budget < old(budget))
      ensures used == old(used) + {nonce} && refused == !ok
      ensures res.nonce.Some? ==> old(issued) <= res.nonce.value < issued
    {
      used := used + {nonce};
      ok := budget > 0;
      var status: int :| true;
      var problem: string :| true;
      var n := None;
      if ok {
        budget := budget - 1;
        n := MaybeNonce();
      }
      refused := !ok;
      res := Response(status, problem, n);
    }
  }

  class RetryTimer {
    const backoffFn: (int, Response) -> int
    var n: int

    constructor (backoffFn: (int, Response) -> int)
      ensures this.backoffFn == backoffFn && n == 0
    {
      this.backoffFn, n := backoffFn, 0;
    }

    method Inc()
      modifies this
      ensures n == old(n) + 1
    {
      n := n + 1;
    }

    /** Whether the caller may go on: not if the delay is not positive, nor if the context ends in the wait. */
    method Backoff(server: Server, res: Response) returns (goOn: bool)
      requires !server.refused
      modifies server`refused
      ensures goOn <==> backoffFn(n, res) > 0 && !server.refused
    {
      var d := backoffFn(n, res);
      if d <= 0 {
        return false;
      }
      goOn := server.Wait();
    }
  }

  /** What a run of post does: each answer but the last was neither accepted nor final, and was worth a retry;
      and after a bad-nonce answer the next request carries a nonce obtained after that answer. */
  predicate Retried(log: seq<Attempt>, accept: Response -> bool, backoff: (int, Response) -> int) {
    forall i :: 0 <= i < |log| - 1 ==>
      && !accept(log[i].res)
      && (IsBadNonce(log[i].res) || IsRetriable(log[i].res.status))
      && backoff(i + 1, log[i].res) > 0
      && (IsBadNonce(log[i].res) ==> log[i + 1].nonce >= log[i].mark)
  }

  /** Each attempt spent a nonce that had not been spent before, neither in the run nor before it. */
  predicate SpentAnew(log: seq<Attempt>, before: set<nat>, now: set<nat>) {
    && (forall i :: 0 <= i < |log| ==> log[i].nonce in now && log[i].nonce !in before)
    && (forall i, j :: 0 <= i < j < |log| ==> log[i].nonce != log[j].nonce)
  }

  /** After this last attempt post goes round again. */
  predicate WorthRetry(last: Attempt, count: nat, accept: Response -> bool, backoff: (int, Response) -> int) {
    && !accept(last.res)
    && (IsBadNonce(last.res) || IsRetriable(last.res.status))
    && backoff(count, last.res) > 0
  }

  /** How things stand when post goes round again: the pool is empty after a bad-nonce answer. */
  predicate GoesRound(log: seq<Attempt>, pool: set<nat>, issued: nat, accept: Response -> bool,
                      backoff: (int, Response) -> int) {
    log != [] ==>
      var last := log[|log| - 1];
      WorthRetry(last, |log|, accept, backoff) && last.mark <= issued && (IsBadNonce(last.res) ==> pool == {})
  }

  /** The last answer is not accepted, and final: neither a bad nonce nor worth a retry, or the backoff for it is
      not positive. */
  predicate Spent(log: seq<Attempt>, accept: Response -> bool, backoff: (int, Response) -> int) {
    log != [] &&
    var last := log[|log| - 1].res;
    !accept(last) && ((!IsBadNonce(last) && !IsRetriable(last.status)) || backoff(|log|, last) <= 0)
  }

  lemma NoMore(log: seq<Attempt>, last: Attempt, accept: Response -> bool, backoff: (int, Response) -> int)
    requires !accept(last.res)
    ensures (!IsBadNonce(last.res) && !IsRetriable(last.res.status)) || backoff(|log| + 1, last.res) <= 0 ==>
      Spent(log + [last], accept, backoff)
  {
    hide IsBadNonce, IsRetriable;
  }

  lemma WorthIt(last: Attempt, count: nat, accept: Response -> bool, backoff: (int, Response) -> int)
    requires !accept(last.res) && (IsBadNonce(last.res) || IsRetriable(last.res.status))
    requires backoff(count, last.res) > 0
    ensures WorthRetry(last, count, accept, backoff)
  {
  }

  lemma GoesOn(log: seq<Attempt>, last: Attempt, pool: set<nat>, issued: nat, accept: Response -> bool,
               backoff: (int, Response) -> int)
    requires WorthRetry(last, |log| + 1, accept, backoff) && last.mark <= issued
    requires IsBadNonce(last.res) ==> pool == {}
    ensures GoesRound(log + [last], pool, issued, accept, backoff)
  {
  }

  lemma RetriedMore(log: seq<Attempt>, next: Attempt, pool: set<nat>, issued: nat, accept: Response -> bool,
                    backoff: (int, Response) -> int)
    requires Retried(log, accept, backoff) && GoesRound(log, pool, issued, accept, backoff)
    requires next.nonce in pool || next.nonce >= issued
    ensures Retried(log + [next], accept, backoff)
  {
    forall i | 0 <= i < |log| ensures (log + [next])[i] == log[i] && (log + [next])[|log|] == next {}
  }

  lemma SpentMore(log: seq<Attempt>, next: Attempt, before: set<nat>, mid: set<nat>, now: set<nat>)
    requires SpentAnew(log, before, mid) && mid <= now && before <= now
    requires before <= mid && next.nonce in now && next.nonce !in mid
    ensures SpentAnew(log + [next], before, now)
  {
  }

  predicate Unspent(nonces: set<nat>, issued: nat, used: set<nat>) {
    && |nonces| <= MAX_NONCES
    && (forall n <- nonces :: n < issued && n !in used)
    && (forall n <- used :: n < issued)
  }

  /** The pool has only lost nonces and gained ones given out since the mark. */
  predicate Since(nonces: set<nat>, was: set<nat>, mark: nat) {
    forall n <- nonces :: n in was || n >= mark
  }

  lemma SinceMore(now: set<nat>, mid: set<nat>, was: set<nat>, later: nat, mark: nat)
    requires Since(now, mid, later) && Since(mid, was, mark) && mark <= later
    ensures Since(now, was, mark)
  {
  }

  /** A nonce that is in nobody's hands is spent, and the answer's nonce may be added. */
  lemma OneSpent(pool: set<nat>, issued: nat, used: set<nat>, nonce: nat, later: nat, added: set<nat>, v: Option<nat>)
    requires Unspent(pool, issued, used) && nonce < issued <= later && nonce !in pool
    requires v.Some? ==> issued <= v.value < later
    requires added == pool || (v.Some? && |pool| < MAX_NONCES && added == pool + {v.value})
    ensures Unspent(added, later, used + {nonce}) && Since(added, pool, issued)
  {
  }

  lemma SinceSmaller(now: set<nat>, was: set<nat>, mark: nat)
    requires now <= was
    ensures Since(now, was, mark)
  {
  }

  lemma EmptyPool(nonces: set<nat>, issued: nat, used: set<nat>, was: set<nat>, mark: nat)
    requires Unspent(nonces, issued, used)
    ensures Unspent({}, issued, used) && Since({}, was, mark)
  {
  }

  class Client {
    var nonces: set<nat>
    var hasKey: bool
    var hasKID: bool
    var hasNonceURL: bool
    const backoff: (int, Response) -> int

    constructor (backoff: (int, Response) -> int)
      ensures nonces == {} && this.backoff == backoff
    {
      nonces, hasKey, hasKID, hasNonceURL, this.backoff := {}, true, false, false, backoff;
    }

    /** The pool holds nonces that the server has given out and that no request has carried. */
    ghost predicate Valid(server: Server)
      reads this, server
    {
      Unspent(nonces, server.issued, server.used)
    }

    /** popNonce: from the pool, or else fetched, and if the server has no nonce URL from one of two others. */
    method PopNonce(server: Server) returns (nonce: Option<nat>)
      requires Valid(server) && !server.refused
      modifies this`nonces, server`issued, server`budget, server`refused
      ensures server.refused == nonce.None?
      ensures Valid(server) && server.issued >= old(server.issued) && server.budget <= old(server.budget)
      ensures nonce.Some? ==> nonce.value < server.issued && nonce.value !in server.used && nonce.value !in nonces
      ensures old(nonces) == {} ==> nonces == {} && (nonce.Some? ==> nonce.value >= old(server.issued))
      ensures old(nonces) != {} ==>
        && nonce.Some? && nonce.value in old(nonces) && nonces == old(nonces) - {nonce.value}
        && server.issued == old(server.issued) && server.budget == old(server.budget)
    {
      if nonces == {} {
        nonce := server.FetchNonce();
        if nonce.None? && !hasNonceURL {
          var otherURL: bool :| true;
          if otherURL {
            server.Forget();
            nonce := server.FetchNonce();
          }
        }
        return;
      }
      var n :| n in nonces;
      nonces := nonces - {n};
      nonce := Some(n);
    }

    method ClearNonces()
      modifies this`nonces
      ensures nonces == {}
    {
      nonces := {};
    }

    method AddNonce(res: Response)
      modifies this`nonces
      ensures nonces == if res.nonce.None? || |old(nonces)| >= MAX_NONCES then old(nonces)
                        else old(nonces) + {res.nonce.value}
    {
      if res.nonce.None? {
        return;
      }
      if |nonces| >= MAX_NONCES {
        return;
      }
      nonces := nonces + {res.nonce.value};
    }

    ghost predicate PoolSince(was: set<nat>, mark: nat)
      reads this
    {
      Since(nonces, was, mark)
    }

    /** accountKID: at most one nested call of post, and only a success is kept. */
    method AccountKID(server: Server)
      requires Valid(server) && !server.refused
      modifies this`nonces, this`hasKID, server
      ensures Valid(server) && server.issued >= old(server.issued) && server.budget <= old(server.budget)
      ensures PoolSince(old(nonces), old(server.issued)) && old(server.used) <= server.used
      ensures old(hasKID) ==> hasKID && nonces == old(nonces) && server.used == old(server.used)
      ensures !server.refused
      decreases server.budget, 2
    {
      if hasKID {
        return;
      }
      var res;
      ghost var log;
      res, log := Post(server, true, (r: Response) => r.status == 200);
      server.Forget();
      hasKID := res.Some?;
    }

    /** postNoRetry from popNonce on: one request, signed with a nonce taken from the pool or fetched for it. */
    method SendOne(server: Server) returns (res: Option<Response>, ghost nonce: nat)
      requires Valid(server) && !server.refused
      modifies this`nonces, server
      ensures Valid(server) && server.issued >= old(server.issued) && server.budget <= old(server.budget)
      ensures PoolSince(old(nonces), old(server.issued)) && old(server.used) <= server.used
      ensures server.refused == res.None?
      ensures res.Some? ==>
        && server.budget < old(server.budget)
        && nonce in server.used && nonce !in old(server.used)
        && (nonce in old(nonces) || nonce >= old(server.issued))
    {
      hide Unspent, Since;
      res, nonce := None, 0;
      var popped := PopNonce(server);
      SinceSmaller(nonces, old(nonces), old(server.issued));
      if popped.None? {
        return;
      }
      var signed := server.Sign();
      if !signed {
        return;
      }
      nonce := popped.value;
      ghost var pool, issued, used := nonces, server.issued, server.used;
      var r, ok := server.Take(popped.value);
      OneSpent(pool, issued, used, nonce, server.issued, pool, r.nonce);
      if !ok {
        return;
      }
      AddNonce(r);
      OneSpent(pool, issued, used, nonce, server.issued, nonces, r.nonce);
      SinceMore(nonces, pool, old(nonces), issued, old(server.issued));
      res := Some(r);
    }

    /** postNoRetry; keyGiven tells whether the caller passed a key of its own. */
    method PostNoRetry(server: Server, keyGiven: bool) returns (res: Option<Response>, ghost nonce: nat)
      requires Valid(server) && !server.refused
      modifies this`nonces, this`hasKID, server
      ensures Valid(server) && server.issued >= old(server.issued) && server.budget <= old(server.budget)
      ensures PoolSince(old(nonces), old(server.issued)) && old(server.used) <= server.used
      ensures res.None? <==> server.refused || (!keyGiven && !hasKey)
      ensures res.Some? ==>
        && server.budget < old(server.budget)
        && nonce in server.used && nonce !in old(server.used)
        && (nonce in old(nonces) || nonce >= old(server.issued))
      decreases server.budget, if keyGiven then 0 else 3
    {
      if !keyGiven {
        if !hasKey {
          return None, 0;
        }
        AccountKID(server);
      }
      res, nonce := SendOne(server);
    }

    /** post, once an answer has not been accepted: it goes round again exactly for an answer worth it, a positive
        backoff at the next count, and a context that does not end in the wait. */
    method MayRetry(server: Server, res: Response, retry: RetryTimer) returns (again: bool)
      requires Valid(server) && !server.refused
      modifies this`nonces, retry, server`refused
      ensures Valid(server) && nonces == if IsBadNonce(res) then {} else old(nonces)
      ensures again <==>
        && (IsBadNonce(res) || IsRetriable(res.status))
        && retry.backoffFn(old(retry.n) + 1, res) > 0 && !server.refused
      ensures again ==> retry.n == old(retry.n) + 1
    {
      if IsBadNonce(res) {
        ClearNonces();
      } else if !IsRetriable(res.status) {
        return false;
      }
      retry.Inc();
      again := retry.Backoff(server, res);
    }

    /** post: a response comes back exactly if the last one is accepted; log tells what happened on the way. None
        comes back only where there is no key, where a request, a nonce, a signature or the wait for the next
        attempt was not to be had, or where the last answer leaves no further attempt. */
    method Post(server: Server, keyGiven: bool, accept: Response -> bool)
      returns (res: Option<Response>, ghost log: seq<Attempt>)
      requires Valid(server) && !server.refused
      modifies this`nonces, this`hasKID, server
      ensures Valid(server) && server.issued >= old(server.issued) && server.budget <= old(server.budget)
      ensures PoolSince(old(nonces), old(server.issued)) && old(server.used) <= server.used
      ensures res.Some? <==> log != [] && accept(log[|log| - 1].res)
      ensures res.Some? ==> res.value == log[|log| - 1].res
      ensures res.None? ==> server.refused || (!keyGiven && !hasKey) || Spent(log, accept, backoff)
      ensures Retried(log, accept, backoff)
      ensures SpentAnew(log, old(server.used), server.used)
      decreases server.budget, if keyGiven then 1 else 4
    {
      assert Retried([], accept, backoff) && SpentAnew([], server.used, server.used);
      assert PoolSince(nonces, server.issued) && GoesRound([], nonces, server.issued, accept, backoff);
      hide Retried, SpentAnew, IsBadNonce, IsRetriable, Unspent, Since, GoesRound, WorthRetry, Spent;
      var retry := new RetryTimer(backoff);
      res, log := None, [];
      while true
        invariant Valid(server) && fresh(retry) && retry.backoffFn == backoff && retry.n == |log|
        invariant server.issued >= old(server.issued) && server.budget <= old(server.budget)
        invariant log != [] ==> server.budget < old(server.budget)
        invariant PoolSince(old(nonces), old(server.issued)) && old(server.used) <= server.used
        invariant Retried(log, accept, backoff)
        invariant !server.refused
        invariant GoesRound(log, nonces, server.issued, accept, backoff)
        invariant SpentAnew(log, old(server.used), server.used)
        decreases server.budget
      {
        ghost var nonce, spent := 0, server.used;
        ghost var pool, mark := nonces, server.issued;
        var r;
        r, nonce := PostNoRetry(server, keyGiven);
        SinceMore(nonces, pool, old(nonces), mark, old(server.issued));
        EmptyPool(nonces, server.issued, server.used, old(nonces), old(server.issued));
        if r.None? {
          return;
        }
        ghost var attempt := Attempt(nonce, r.value, server.issued);
        RetriedMore(log, attempt, pool, mark, accept, backoff);
        ghost var before := log;
        SpentMore(log, attempt, old(server.used), spent, server.used);
        log := log + [attempt];
        if accept(r.value) {
          return r, log;
        }
        var again := MayRetry(server, r.value, retry);
        if !again {
          NoMore(before, attempt, accept, backoff);
          return;
        }
        WorthIt(attempt, retry.n, accept, backoff);
        GoesOn(before, attempt, nonces, server.issued, accept, backoff);
      }
    }
  }

  /** If the backoff function is not positive from the count n on, post makes at most n attempts; but at least
      one, the count starting at one with the first failure. */
  lemma AttemptsBounded(log: seq<Attempt>, accept: Response -> bool, backoff: (int, Response) -> int, n: nat)
    requires Retried(log, accept, backoff)
    requires forall k: int, r: Response :: k >= n ==> backoff(k, r) <= 0
    ensures |log| <= if n == 0 then 1 else n
  {
    if |log| > 1 {
      assert backoff(|log| - 2 + 1, log[|log| - 2].res) > 0;
    }
  }
}
