/** Manager.verifyRFC: one domain's authorization, over as many orders as it takes. */
module VerifyOrder {
  import opened Wrappers

  datatype Status = Pending | Ready | Valid | Invalid | OtherStatus

  datatype Challenge = Challenge(kind: string, token: string)

  datatype Authz = Authz(uri: string, status: Status, challenges: seq<Challenge>)

  datatype Order = Order(uri: string, status: Status, authzURLs: seq<string>)

  /** Where the response to a challenge is put: under a domain in certTokens, or under a path in httpTokens. */
  datatype Place = CertPlace(domain: string) | HttpPlace(path: string)

  /** What a run does to the world outside, and learns from it, in order: each request with its outcome, and each
      choice of a challenge with the index of its type. */
  datatype Event =
    | Created(order: Order)
    | OrderFailed
    | Got(url: string, z: Authz)
    | GotFailed(url: string)
    | Tried(index: nat, chal: Challenge)
    | Fulfilled(place: Place)
    | FulfillFailed
    | Accepted(chal: Challenge)
    | AcceptFailed(chal: Challenge)
    | Authorized(url: string)          // the CA has found the authorization valid
    | AuthFailed(url: string)
    | Waited(uri: string, order: Order)
    | WaitFailed(uri: string)
    | Cleaned(place: Place)
    | Deactivated(urls: seq<string>)

  const TLS_ALPN_01 := "tls-alpn-01"
  const HTTP_01 := "http-01"

  /** The CA as one call of verifyRFC sees it, with that call's context: budget is how many more requests go through
      before it is done, and log is what the call has done so far. */
  class CA {
    var budget: nat
    ghost var log: seq<Event>

    constructor (budget: nat)
      ensures this.budget == budget && log == []
    {
      this.budget, log := budget, [];
    }

    /** One request; it fails when the context is done, and perhaps otherwise. */
    method Request() returns (ok: bool)
      modifies this`budget
      ensures budget <= old(budget) && (ok ==> budget < old(budget))
    {
      ok := budget > 0;
      if ok {
        budget := budget - 1;
        var served: bool :| true;
        ok := served;
      }
    }

    ghost method Note(e: Event)
      modifies this`log
      ensures log == old(log) + [e]
    {
      log := log + [e];
    }

    method AuthorizeOrder() returns (o: Order, ok: bool)
      modifies this
      ensures budget <= old(budget) && (ok ==> budget < old(budget))
      ensures log == old(log) + [if ok then Created(o) else OrderFailed]
    {
      ok := Request();
      o :| true;
      Note(if ok then Created(o) else OrderFailed);
    }

    method GetAuthorization(url: string) returns (z: Authz, ok: bool)
      modifies this
      ensures budget <= old(budget) && z.uri == url
      ensures log == old(log) + [if ok then Got(url, z) else GotFailed(url)]
    {
      ok := Request();
      z :| true;
      z := z.(uri := url);
      Note(if ok then Got(url, z) else GotFailed(url));
    }

    method Accept(chal: Challenge) returns (ok: bool)
      modifies this
      ensures budget <= old(budget)
      ensures log == old(log) + [if ok then Accepted(chal) else AcceptFailed(chal)]
    {
      ok := Request();
      Note(if ok then Accepted(chal) else AcceptFailed(chal));
    }

    method WaitAuthorization(url: string) returns (ok: bool)
      modifies this
      ensures budget <= old(budget)
      ensures log == old(log) + [if ok then Authorized(url) else AuthFailed(url)]
    {
      ok := Request();
      Note(if ok then Authorized(url) else AuthFailed(url));
    }

    /** Client.WaitOrder: polls until the order is final. An answer that cannot be read is skipped. */
    method WaitOrder(uri: string) returns (o: Order, ok: bool)
      modifies this
      ensures budget <= old(budget)
      ensures ok ==> o.status == Ready || o.status == Valid
      ensures log == old(log) + [if ok then Waited(uri, o) else WaitFailed(uri)]
    {
      while true
        invariant budget <= old(budget) && log == old(log)
        decreases budget
      {
        ok := Request();
        var readable: bool :| true;
        o :| true;
        if !ok || (readable && o.status == Invalid) {
          Note(WaitFailed(uri));
          return o, false;
        }
        if readable && (o.status == Ready || o.status == Valid) {
          Note(Waited(uri, o));
          return;
        }
      }
    }
  }

  // ---------------------------------------------------------------- deferred calls

  /** What the deferred call registered with an event does when verifyRFC returns, if there is one. */
  function Undoing(e: Event): seq<Event> {
    match e
    case Created(o) => [Deactivated(o.authzURLs)]
    case Fulfilled(place) => [Cleaned(place)]
    case _ => []
  }

  /** The deferred calls of a run, in the order in which they happen: the last registered first. */
  function Undo(flow: seq<Event>): seq<Event> {
    if flow == [] then [] else Undoing(flow[|flow| - 1]) + Undo(flow[..|flow| - 1])
  }

  datatype Deferred = Deactivate(urls: seq<string>) | Cleanup(place: Place)

  function EventOf(d: Deferred): Event {
    match d
    case Deactivate(urls) => Deactivated(urls)
    case Cleanup(place) => Cleaned(place)
  }

  function EventsOf(stack: seq<Deferred>): seq<Event> {
    if stack == [] then [] else [EventOf(stack[|stack| - 1])] + EventsOf(stack[..|stack| - 1])
  }

  /** The deferred calls that verifyRFC registers with an event. */
  function Pushes(e: Event): seq<Deferred> {
    match e
    case Created(o) => [Deactivate(o.authzURLs)]
    case Fulfilled(place) => [Cleanup(place)]
    case _ => []
  }

  function PlacesOf(flow: seq<Event>): set<Place> {
    set e | e in flow && e.Fulfilled? :: e.place
  }

  function CertKeys(places: set<Place>): set<string> {
    set p | p in places && p.CertPlace? :: p.domain
  }

  function HttpKeys(places: set<Place>): set<string> {
    set p | p in places && p.HttpPlace? :: p.path
  }

  function CountCreated(flow: seq<Event>): nat {
    if flow == [] then 0 else CountCreated(flow[..|flow| - 1]) + if flow[|flow| - 1].Created? then 1 else 0
  }

  function CountWaitFailed(flow: seq<Event>): nat {
    if flow == [] then 0 else CountWaitFailed(flow[..|flow| - 1]) + if flow[|flow| - 1].WaitFailed? then 1 else 0
  }

  function CountFulfilled(flow: seq<Event>): nat {
    if flow == [] then 0
    else CountFulfilled(flow[..|flow| - 1]) + if flow[|flow| - 1].Fulfilled? then 1 else 0
  }

  /** The indices of the challenge types used, in order. */
  function TriedOf(flow: seq<Event>): seq<nat> {
    if flow == [] then []
    else TriedOf(flow[..|flow| - 1]) + if flow[|flow| - 1].Tried? then [flow[|flow| - 1].index] else []
  }

  // ---------------------------------------------------------------- which events may follow which

  /** The domain, and the challenge types to try, in order. */
  datatype Job = Job(domain: string, types: seq<string>)

  function LatestOrder(flow: seq<Event>): Option<Order> {
    if flow == [] then None
    else if flow[|flow| - 1].Created? then Some(flow[|flow| - 1].order)
    else LatestOrder(flow[..|flow| - 1])
  }

  /** Those that need nothing done, or for which it has been done and the CA has agreed. */
  predicate Settles(e: Event) {
    e.Authorized? || (e.Got? && e.z.status != Pending)
  }

  /** The authorizations settled since the latest order was created, in order. */
  function SettledOf(flow: seq<Event>): seq<string> {
    if flow == [] || flow[|flow| - 1].Created? then []
    else
      var e := flow[|flow| - 1];
      SettledOf(flow[..|flow| - 1]) + if Settles(e) then [e.url] else []
  }

  /** The first challenge type not used up. */
  function NextOf(flow: seq<Event>): nat {
    if flow == [] then 0
    else if flow[|flow| - 1].Tried? then flow[|flow| - 1].index + 1
    else NextOf(flow[..|flow| - 1])
  }

  /** Where fulfill puts the response to a challenge. */
  function PlaceFor(chal: Challenge, domain: string): Place {
    if chal.kind == TLS_ALPN_01 then CertPlace(domain)
    else HttpPlace("/.well-known/acme-challenge/" + chal.token)
  }

  predicate Offers(z: Authz, typ: string) {
    exists c <- z.challenges :: c.kind == typ
  }

  predicate StartsOver(e: Event) {
    e.Created? || e.OrderFailed?
  }

  /** A failure after which verifyRFC makes a new order. */
  predicate Setback(e: Event) {
    e.FulfillFailed? || e.AcceptFailed? || e.AuthFailed? || e.WaitFailed?
  }

  /** On to the next authorization of the order, or when all are settled, to the wait for the order. */
  predicate GoesOn(flow: seq<Event>, e: Event) {
    var o, i := LatestOrder(flow), |SettledOf(flow)|;
    && o.Some?
    && if i < |o.value.authzURLs| then (e.Got? || e.GotFailed?) && e.url == o.value.authzURLs[i]
       else (e.Waited? || e.WaitFailed?) && e.uri == o.value.uri
  }

  /** The first type on offer, of those not used up. */
  predicate Picks(job: Job, flow: seq<Event>, z: Authz, i: nat, chal: Challenge) {
    && NextOf(flow) <= i < |job.types|
    && chal in z.challenges && chal.kind == job.types[i]
    && forall t :: NextOf(flow) <= t < i ==> !Offers(z, job.types[t])
  }

  /** The finding that the CA is asked for is on the authorization at hand. */
  predicate OnCurrent(flow: seq<Event>, e: Event) {
    var o, i := LatestOrder(flow), |SettledOf(flow)|;
    (e.Authorized? || e.AuthFailed?) && o.Some? && i < |o.value.authzURLs| && e.url == o.value.authzURLs[i]
  }

  /** What verifyRFC may do next, after what it has done. */
  predicate MayFollow(job: Job, flow: seq<Event>, e: Event) {
    if flow == [] then StartsOver(e)
    else
      match flow[|flow| - 1]
      case Created(o) => o.status == Pending && GoesOn(flow, e)
      case Got(_, z) =>
        if z.status != Pending then GoesOn(flow, e) else e.Tried? && Picks(job, flow, z, e.index, e.chal)
      case Tried(_, chal) => e == FulfillFailed || e == Fulfilled(PlaceFor(chal, job.domain))
      case Fulfilled(_) =>
        |flow| >= 2 && var tried := flow[|flow| - 2];
        tried.Tried? && (e == Accepted(tried.chal) || e == AcceptFailed(tried.chal))
      case Accepted(_) => OnCurrent(flow, e)
      case Authorized(_) => GoesOn(flow, e)
      case FulfillFailed | AcceptFailed(_) | AuthFailed(_) | WaitFailed(_) => StartsOver(e)
      case _ => false
  }

  predicate Lawful(job: Job, flow: seq<Event>) {
    forall k :: 0 <= k < |flow| ==> MayFollow(job, flow[..k], flow[k])
  }

  /** The only reasons for which verifyRFC returns no order: no order was to be had, or only one that is neither
      ready nor pending; an authorization could not be fetched; or one is pending and offers none of the types that
      are left. */
  predicate GaveUp(job: Job, flow: seq<Event>) {
    && flow != []
    && match flow[|flow| - 1]
       case OrderFailed => true
       case Created(o) => o.status != Ready && o.status != Pending
       case GotFailed(_) => true
       case Got(_, z) =>
         z.status == Pending && forall t :: NextOf(flow) <= t < |job.types| ==> !Offers(z, job.types[t])
       case _ => false
  }

  /** What a returned order is: the new one if it is ready at once, or the one that was waited for. */
  predicate Earned(o: Order, flow: seq<Event>) {
    && flow != []
    && var e := flow[|flow| - 1];
       (e == Created(o) && o.status == Ready) || (e.Waited? && e.order == o && (o.status == Ready || o.status == Valid))
  }

  // ---------------------------------------------------------------- one event more

  lemma Snoc(flow: seq<Event>, e: Event)
    ensures var g := flow + [e];
      && Undo(g) == Undoing(e) + Undo(flow)
      && (Undoing(e) == [] ==> Undo(g) == Undo(flow))
      && CountCreated(g) == CountCreated(flow) + (if e.Created? then 1 else 0)
      && CountWaitFailed(g) == CountWaitFailed(flow) + (if e.WaitFailed? then 1 else 0)
      && CountFulfilled(g) == CountFulfilled(flow) + (if e.Fulfilled? then 1 else 0)
      && TriedOf(g) == (if e.Tried? then TriedOf(flow) + [e.index] else TriedOf(flow))
      && PlacesOf(g) == (if e.Fulfilled? then PlacesOf(flow) + {e.place} else PlacesOf(flow))
  {
    assert (flow + [e])[..|flow|] == flow;
  }

  lemma OrderSnoc(flow: seq<Event>, e: Event)
    ensures var g := flow + [e];
      && LatestOrder(g) == (if e.Created? then Some(e.order) else LatestOrder(flow))
      && NextOf(g) == (if e.Tried? then e.index + 1 else NextOf(flow))
      && SettledOf(g) ==
           (if e.Created? then [] else if Settles(e) then SettledOf(flow) + [e.url] else SettledOf(flow))
  {
    assert (flow + [e])[..|flow|] == flow;
  }

  lemma LawfulSnoc(job: Job, flow: seq<Event>, e: Event)
    ensures Lawful(job, flow + [e]) <==> Lawful(job, flow) && MayFollow(job, flow, e)
  {
    var g := flow + [e];
    assert g[..|flow|] == flow && g[|flow|] == e;
    assert forall k :: 0 <= k < |flow| ==> g[..k] == flow[..k] && g[k] == flow[k];
  }

  lemma StackSnoc(stack: seq<Deferred>, d: Deferred)
    ensures EventsOf(stack + [d]) == [EventOf(d)] + EventsOf(stack)
  {
    assert (stack + [d])[..|stack|] == stack;
  }

  lemma KeysOfUnion(a: set<Place>, b: set<Place>)
    ensures CertKeys(a + b) == CertKeys(a) + CertKeys(b)
    ensures HttpKeys(a + b) == HttpKeys(a) + HttpKeys(b)
  {
  }

  /** Where a run stands: i authorizations of the order o are settled, and n is the next type. */
  predicate Stands(job: Job, flow: seq<Event>, deferred: seq<Deferred>, o: Option<Order>, i: nat, n: nat) {
    && Lawful(job, flow)
    && EventsOf(deferred) == Undo(flow)
    && LatestOrder(flow) == o && (o.Some? ==> i <= |o.value.authzURLs| && SettledOf(flow) == o.value.authzURLs[..i])
    && NextOf(flow) == n
  }

  lemma StandsNowhere(job: Job)
    ensures Stands(job, [], [], None, 0, 0)
  {
  }

  /** A lawful step moves on from where the run stands. */
  lemma Next(job: Job, flow: seq<Event>, deferred: seq<Deferred>, o: Option<Order>, i: nat, n: nat, e: Event)
    requires Stands(job, flow, deferred, o, i, n) && MayFollow(job, flow, e)
    ensures Stands(job, flow + [e], deferred + Pushes(e), if e.Created? then Some(e.order) else o,
                   if e.Created? then 0 else if Settles(e) then i + 1 else i, if e.Tried? then e.index + 1 else n)
    ensures PlacesOf(flow + [e]) == if e.Fulfilled? then PlacesOf(flow) + {e.place} else PlacesOf(flow)
  {
    Snoc(flow, e);
    OrderSnoc(flow, e);
    LawfulSnoc(job, flow, e);
    if Settles(e) {
      SettlesNext(job, flow, e, o, i);
    }
    Pushed(deferred, e);
    hide Lawful, MayFollow, Undo, LatestOrder, SettledOf, NextOf, PlacesOf, Settles, EventsOf;
  }

  lemma Pushed(deferred: seq<Deferred>, e: Event)
    ensures EventsOf(deferred + Pushes(e)) == Undoing(e) + EventsOf(deferred)
  {
    if Pushes(e) == [] {
      assert deferred + [] == deferred;
    } else {
      StackSnoc(deferred, Pushes(e)[0]);
    }
  }

  /** What is settled next is the next authorization of the order. */
  lemma SettlesNext(job: Job, flow: seq<Event>, e: Event, o: Option<Order>, i: nat)
    requires MayFollow(job, flow, e) && Settles(e) && LatestOrder(flow) == o
    requires o.Some? ==> i <= |o.value.authzURLs| && SettledOf(flow) == o.value.authzURLs[..i]
    ensures o.Some? && i < |o.value.authzURLs| && e.url == o.value.authzURLs[i]
    ensures o.value.authzURLs[..i] + [e.url] == o.value.authzURLs[..i + 1]
  {
    hide LatestOrder, SettledOf, NextOf;
  }

  lemma StartMay(job: Job, flow: seq<Event>, e: Event)
    requires (flow == [] || Setback(flow[|flow| - 1])) && StartsOver(e)
    ensures MayFollow(job, flow, e)
  {
  }

  /** Ready to go on: the order has just been made and is pending, or an authorization has been settled. */
  predicate Going(flow: seq<Event>) {
    flow != [] && var e := flow[|flow| - 1]; Settles(e) || (e.Created? && e.order.status == Pending)
  }

  lemma GoMay(job: Job, flow: seq<Event>, deferred: seq<Deferred>, o: Order, i: nat, n: nat, e: Event)
    requires Stands(job, flow, deferred, Some(o), i, n) && Going(flow)
    requires if i < |o.authzURLs| then (e.Got? || e.GotFailed?) && e.url == o.authzURLs[i]
             else (e.Waited? || e.WaitFailed?) && e.uri == o.uri
    ensures MayFollow(job, flow, e)
  {
    hide Lawful, LatestOrder, SettledOf, NextOf, EventsOf, Undo;
  }

  lemma TryMay(job: Job, flow: seq<Event>, z: Authz, i: nat, chal: Challenge)
    requires flow != [] && flow[|flow| - 1].Got? && flow[|flow| - 1].z == z && z.status == Pending
    requires Picks(job, flow, z, i, chal)
    ensures MayFollow(job, flow, Tried(i, chal))
  {
  }

  lemma PlaceMay(job: Job, flow: seq<Event>, i: nat, chal: Challenge, e: Event)
    requires e == FulfillFailed || e == Fulfilled(PlaceFor(chal, job.domain))
    ensures MayFollow(job, flow + [Tried(i, chal)], e)
  {
  }

  lemma AcceptMay(job: Job, flow: seq<Event>, i: nat, chal: Challenge, place: Place, e: Event)
    requires e == Accepted(chal) || e == AcceptFailed(chal)
    ensures MayFollow(job, flow + [Tried(i, chal)] + [Fulfilled(place)], e)
  {
  }

  lemma FindMay(job: Job, flow: seq<Event>, deferred: seq<Deferred>, o: Order, i: nat, n: nat, e: Event)
    requires Stands(job, flow, deferred, Some(o), i, n) && flow != [] && flow[|flow| - 1].Accepted?
    requires i < |o.authzURLs| && (e == Authorized(o.authzURLs[i]) || e == AuthFailed(o.authzURLs[i]))
    ensures MayFollow(job, flow, e)
  {
    hide Lawful, LatestOrder, SettledOf, NextOf, EventsOf, Undo;
  }

  /** The outcome of a step that is not an order, a type used, a response placed or an authorization settled. */
  lemma PlainEvents(url: string, chal: Challenge, uri: string)
    ensures Pushes(OrderFailed) == [] && Pushes(GotFailed(url)) == [] && Pushes(FulfillFailed) == []
    ensures Pushes(Accepted(chal)) == [] && Pushes(AcceptFailed(chal)) == []
    ensures Pushes(Authorized(url)) == [] && Pushes(AuthFailed(url)) == [] && Pushes(WaitFailed(uri)) == []
    ensures !Settles(GotFailed(url)) && !Settles(FulfillFailed) && !Settles(OrderFailed) && !Settles(WaitFailed(uri))
    ensures !Settles(Accepted(chal)) && !Settles(AcceptFailed(chal)) && !Settles(AuthFailed(url))
    ensures Settles(Authorized(url))
    ensures Setback(FulfillFailed) && Setback(AcceptFailed(chal))
    ensures Setback(AuthFailed(url)) && Setback(WaitFailed(uri))
  {
  }

  // ---------------------------------------------------------------- the Manager

  /** How dealing with an authorization ends: verifyRFC gives up, or a new order has to be made, or all is well. */
  datatype AttemptEnd = GivesUp | Restart | Granted

  /** The token maps have changed at these places only. */
  predicate TokensKept(cert: map<string, string>, http: map<string, string>,
                       cert0: map<string, string>, http0: map<string, string>, places: set<Place>) {
    && cert - CertKeys(places) == cert0 - CertKeys(places)
    && http - HttpKeys(places) == http0 - HttpKeys(places)
  }

  lemma TokensKeptMore(cert: map<string, string>, http: map<string, string>, key: string, token: string,
                       cert0: map<string, string>, http0: map<string, string>, places: set<Place>)
    requires TokensKept(cert, http, cert0, http0, places)
    ensures TokensKept(cert[key := token], http, cert0, http0, places + {CertPlace(key)})
    ensures TokensKept(cert, http[key := token], cert0, http0, places + {HttpPlace(key)})
  {
    KeysOfUnion(places, {CertPlace(key)});
    KeysOfUnion(places, {HttpPlace(key)});
    assert CertKeys({CertPlace(key)}) == {key} && HttpKeys({CertPlace(key)}) == {};
    assert HttpKeys({HttpPlace(key)}) == {key} && CertKeys({HttpPlace(key)}) == {};
    hide *;
    PutAndDrop(cert, cert0, key, token, CertKeys(places));
    PutAndDrop(http, http0, key, token, HttpKeys(places));
  }

  lemma PutAndDrop(now: map<string, string>, was: map<string, string>, key: string, token: string, keys: set<string>)
    requires now - keys == was - keys
    ensures now[key := token] - (keys + {key}) == was - (keys + {key})
    ensures now - (keys + {}) == was - (keys + {})
  {
    assert now - (keys + {key}) == (now - keys) - {key} && was - (keys + {key}) == (was - keys) - {key};
    assert now[key := token] - (keys + {key}) == now - (keys + {key});
    assert keys + {} == keys;
  }

  class Manager {
    var tryHTTP01: bool
    var certTokens: map<string, string>
    var httpTokens: map<string, string>

    method SupportedChallengeTypes() returns (types: seq<string>)
      ensures types == if tryHTTP01 then ["tls-alpn-01", "http-01"] else ["tls-alpn-01"]
    {
      types := [TLS_ALPN_01];
      if tryHTTP01 {
        types := types + [HTTP_01];
      }
    }

    /** fulfill: the response is put in its place, and the cleanup is for that place. */
    method Fulfill(ca: CA, chal: Challenge, domain: string) returns (cleanup: Option<Place>)
      modifies this`certTokens, this`httpTokens, ca`log
      ensures ca.log == old(ca.log) + [if cleanup.Some? then Fulfilled(cleanup.value) else FulfillFailed]
      ensures cleanup.None? ==> certTokens == old(certTokens) && httpTokens == old(httpTokens)
      ensures cleanup.Some? ==> cleanup.value == PlaceFor(chal, domain)
      ensures cleanup.Some? && cleanup.value.CertPlace? ==>
        && chal.kind == "tls-alpn-01" && cleanup.value.domain == domain
        && certTokens == old(certTokens)[domain := chal.token] && httpTokens == old(httpTokens)
      ensures cleanup.Some? && cleanup.value.HttpPlace? ==>
        && chal.kind == "http-01" && cleanup.value.path == "/.well-known/acme-challenge/" + chal.token
        && httpTokens == old(httpTokens)[cleanup.value.path := chal.token] && certTokens == old(certTokens)
    {
      var made: bool :| true;
      cleanup := None;
      if made && chal.kind == TLS_ALPN_01 {
        certTokens := certTokens[domain := chal.token];
        cleanup := Some(CertPlace(domain));
      } else if made && chal.kind == HTTP_01 {
        var path := "/.well-known/acme-challenge/" + chal.token;
        httpTokens := httpTokens[path := chal.token];
        cleanup := Some(HttpPlace(path));
      }
      ca.Note(if cleanup.Some? then Fulfilled(cleanup.value) else FulfillFailed);
    }

    /** The next challenge type that is on offer, from nextTyp on; the types passed over are not, and are used up
        with it. */
    method NextChallenge(ca: CA, types: seq<string>, nextTyp: nat, challenges: seq<Challenge>)
      returns (chal: Option<Challenge>, next: nat)
      requires nextTyp <= |types|
      modifies ca`log
      ensures nextTyp <= next <= |types|
      ensures chal.Some? ==> nextTyp < next && chal.value in challenges && chal.value.kind == types[next - 1]
      ensures chal.None? ==> next == |types|
      ensures forall t :: nextTyp <= t < (if chal.Some? then next - 1 else next) ==>
        forall c <- challenges :: c.kind != types[t]
      ensures ca.log == if chal.Some? then old(ca.log) + [Tried(next - 1, chal.value)] else old(ca.log)
    {
      chal, next := None, nextTyp;
      while chal.None? && next < |types|
        invariant nextTyp <= next <= |types|
        invariant chal.Some? ==> nextTyp < next && chal.value in challenges && chal.value.kind == types[next - 1]
        invariant forall t :: nextTyp <= t < (if chal.Some? then next - 1 else next) ==>
          forall c <- challenges :: c.kind != types[t]
      {
        chal := PickChallenge(types[next], challenges);
        next := next + 1;
      }
      if chal.Some? {
        ca.Note(Tried(next - 1, chal.value));
      }
    }

    /** verifyRFC on one pending authorization: pick a challenge, respond, and wait for the CA's finding. */
    method Attempt(ca: CA, domain: string, z: Authz, types: seq<string>, nextTyp: nat, deferred: seq<Deferred>,
                   ghost o: Order, ghost i: nat, ghost cert0: map<string, string>, ghost http0: map<string, string>)
      returns (end: AttemptEnd, next: nat, deferred': seq<Deferred>)
      requires TokensKept(certTokens, httpTokens, cert0, http0, PlacesOf(ca.log)) && nextTyp <= |types|
      requires Stands(Job(domain, types), ca.log, deferred, Some(o), i, nextTyp)
      requires i < |o.authzURLs| && z.uri == o.authzURLs[i] && z.status == Pending
      requires ca.log != [] && ca.log[|ca.log| - 1] == Got(z.uri, z)
      modifies this`certTokens, this`httpTokens, ca
      ensures ca.budget <= old(ca.budget) && nextTyp <= next <= |types|
      ensures TokensKept(certTokens, httpTokens, cert0, http0, PlacesOf(ca.log))
      ensures end.GivesUp? ==>
        && Stands(Job(domain, types), ca.log, deferred', Some(o), i, nextTyp) && GaveUp(Job(domain, types), ca.log)
      ensures end.Restart? ==>
        && Stands(Job(domain, types), ca.log, deferred', Some(o), i, next)
        && ca.log != [] && Setback(ca.log[|ca.log| - 1])
      ensures end.Granted? ==> Stands(Job(domain, types), ca.log, deferred', Some(o), i + 1, next) && Going(ca.log)
    {
      hide *;
      ghost var job, log0, places := Job(domain, types), ca.log, PlacesOf(ca.log);
      var chal;
      chal, next := NextChallenge(ca, types, nextTyp, z.challenges);
      deferred' := deferred;
      if chal.None? {
        NoneOffered(job, log0, deferred, Some(o), i, nextTyp, z);
        return GivesUp, next, deferred;
      }
      TryNext(job, log0, deferred, o, i, nextTyp, z, next - 1, chal.value);
      ghost var log1 := ca.log;
      var cleanup := Fulfill(ca, chal.value, domain);
      PlaceNext(job, log0, deferred, o, i, next - 1, chal.value);
      if cleanup.None? {
        return Restart, next, deferred;
      }
      deferred' := deferred + [Cleanup(cleanup.value)];
      ghost var key := if cleanup.value.CertPlace? then cleanup.value.domain else cleanup.value.path;
      TokensKeptMore(old(certTokens), old(httpTokens), key, chal.value.token, cert0, http0, places);
      end := Conclude(ca, chal.value, z, deferred', next, job, log0, next - 1, cleanup.value, o, i);
    }

    /** Accept and WaitAuthorization. */
    method Conclude(ca: CA, chal: Challenge, z: Authz, deferred: seq<Deferred>, next: nat, ghost job: Job,
                    ghost log0: seq<Event>, ghost typ: nat, ghost place: Place, ghost o: Order, ghost i: nat)
      returns (end: AttemptEnd)
      requires ca.log == log0 + [Tried(typ, chal)] + [Fulfilled(place)]
      requires Stands(job, ca.log, deferred, Some(o), i, next)
      requires i < |o.authzURLs| && z.uri == o.authzURLs[i]
      modifies ca
      ensures ca.budget <= old(ca.budget) && PlacesOf(ca.log) == PlacesOf(old(ca.log)) && !end.GivesUp?
      ensures end.Restart? ==>
        Stands(job, ca.log, deferred, Some(o), i, next) && ca.log != [] && Setback(ca.log[|ca.log| - 1])
      ensures end.Granted? ==> Stands(job, ca.log, deferred, Some(o), i + 1, next) && Going(ca.log)
    {
      hide *;
      ghost var log2 := ca.log;
      var ok := ca.Accept(chal);
      AcceptNext(job, log0, deferred, o, i, next, typ, chal, place);
      if !ok {
        return Restart;
      }
      ghost var log3 := ca.log;
      ok := ca.WaitAuthorization(z.uri);
      FindNext(job, log3, deferred, o, i, next);
      end := if ok then Granted else Restart;
    }

    /** The loop over the authorizations of an order. */
    method AuthorizeAll(ca: CA, domain: string, o: Order, types: seq<string>, nextTyp: nat,
                        deferred: seq<Deferred>, ghost cert0: map<string, string>, ghost http0: map<string, string>)
      returns (end: AttemptEnd, next: nat, deferred': seq<Deferred>, ghost i: nat)
      requires TokensKept(certTokens, httpTokens, cert0, http0, PlacesOf(ca.log)) && nextTyp <= |types|
      requires Stands(Job(domain, types), ca.log, deferred, Some(o), 0, nextTyp) && Going(ca.log)
      modifies this`certTokens, this`httpTokens, ca
      ensures ca.budget <= old(ca.budget) && nextTyp <= next <= |types|
      ensures TokensKept(certTokens, httpTokens, cert0, http0, PlacesOf(ca.log))
      ensures end.GivesUp? ==>
        && Lawful(Job(domain, types), ca.log) && EventsOf(deferred') == Undo(ca.log)
        && GaveUp(Job(domain, types), ca.log)
      ensures end.Restart? ==>
        && Stands(Job(domain, types), ca.log, deferred', Some(o), i, next)
        && ca.log != [] && Setback(ca.log[|ca.log| - 1])
      ensures end.Granted? ==>
        Stands(Job(domain, types), ca.log, deferred', Some(o), |o.authzURLs|, next) && Going(ca.log)
    {
      hide *;
      ghost var job := Job(domain, types);
      next, deferred', i := nextTyp, deferred, 0;
      for j := 0 to |o.authzURLs|
        invariant ca.budget <= old(ca.budget) && i == j && nextTyp <= next <= |types|
        invariant TokensKept(certTokens, httpTokens, cert0, http0, PlacesOf(ca.log))
        invariant Stands(job, ca.log, deferred', Some(o), j, next) && Going(ca.log)
      {
        ghost var log0 := ca.log;
        var z, ok := ca.GetAuthorization(o.authzURLs[j]);
        GetNext(job, log0, deferred', o, j, next, z);
        if !ok {
          end := GivesUp;
          StandsLawful(job, ca.log, deferred', Some(o), j, next);
          return;
        }
        if z.status == Pending {
          ghost var n := next;
          end, next, deferred' := Attempt(ca, domain, z, types, next, deferred', o, j, cert0, http0);
          if end.GivesUp? {
            StandsLawful(job, ca.log, deferred', Some(o), j, n);
          }
          if !end.Granted? {
            return;
          }
        }
        i := i + 1;
      }
      end := Granted;
    }

    /** verifyRFC up to its return, with the deferred calls it has registered: at every point it does what may
        follow, and it returns no order only for one of the reasons there are to give up. The context's budget
        alone bounds the restarts after failed waits. */
    method Flow(ca: CA, domain: string)
      returns (order: Option<Order>, deferred: seq<Deferred>, ghost types: seq<string>)
      requires ca.log == []
      modifies this`certTokens, this`httpTokens, ca
      ensures types == if tryHTTP01 then ["tls-alpn-01", "http-01"] else ["tls-alpn-01"]
      ensures TokensKept(certTokens, httpTokens, old(certTokens), old(httpTokens), PlacesOf(ca.log))
      ensures Lawful(Job(domain, types), ca.log) && EventsOf(deferred) == Undo(ca.log)
      ensures order.None? ==> GaveUp(Job(domain, types), ca.log)
      ensures order.Some? ==> Earned(order.value, ca.log)
    {
      assert TokensKept(certTokens, httpTokens, certTokens, httpTokens, PlacesOf([]));
      hide *;
      ghost var cert0, http0 := certTokens, httpTokens;
      var challengeTypes := SupportedChallengeTypes();
      types := challengeTypes;
      ghost var job := Job(domain, types);
      var nextTyp := 0;
      deferred, order := [], None;
      ghost var latest, i: nat := None, 0;
      StandsNowhere(job);
      while true
        invariant TokensKept(certTokens, httpTokens, cert0, http0, PlacesOf(ca.log)) && nextTyp <= |types|
        invariant Stands(job, ca.log, deferred, latest, i, nextTyp)
        invariant ca.log == [] || Setback(ca.log[|ca.log| - 1])
        decreases ca.budget
      {
        ghost var log0 := ca.log;
        var o, ok := ca.AuthorizeOrder();
        OrderNext(job, log0, deferred, latest, i, nextTyp, o);
        if !ok {
          return;
        }
        deferred := deferred + [Deactivate(o.authzURLs)];
        if o.status == Ready {
          order := Some(o);
          return;
        } else if o.status != Pending {
          return;
        }
        var end;
        end, nextTyp, deferred, i := AuthorizeAll(ca, domain, o, challengeTypes, nextTyp, deferred, cert0, http0);
        latest := Some(o);
        if end.GivesUp? {
          return;
        } else if end.Restart? {
          continue;
        }
        i, log0 := |o.authzURLs|, ca.log;
        var done;
        done, ok := ca.WaitOrder(o.uri);
        WaitNext(job, log0, deferred, o, nextTyp, done);
        if !ok {
          continue;
        }
        order := Some(done);
        return;
      }
    }
  }

  // ---------------------------------------------------------------- the steps of Flow

  lemma StandsLawful(job: Job, flow: seq<Event>, deferred: seq<Deferred>, o: Option<Order>, i: nat, n: nat)
    requires Stands(job, flow, deferred, o, i, n)
    ensures Lawful(job, flow) && EventsOf(deferred) == Undo(flow)
  {
  }

  lemma Same(deferred: seq<Deferred>)
    ensures deferred + [] == deferred
  {
  }

  lemma OrderNext(job: Job, flow: seq<Event>, deferred: seq<Deferred>, latest: Option<Order>, i: nat, n: nat, o: Order)
    requires Stands(job, flow, deferred, latest, i, n) && (flow == [] || Setback(flow[|flow| - 1]))
    ensures var g := flow + [Created(o)];
      && Stands(job, g, deferred + [Deactivate(o.authzURLs)], Some(o), 0, n) && PlacesOf(g) == PlacesOf(flow)
      && Lawful(job, g) && EventsOf(deferred + [Deactivate(o.authzURLs)]) == Undo(g)
      && (o.status == Pending ==> Going(g)) && (o.status == Ready ==> Earned(o, g))
      && (o.status != Ready && o.status != Pending ==> GaveUp(job, g))
    ensures var g := flow + [OrderFailed];
      && Lawful(job, g) && EventsOf(deferred) == Undo(g) && PlacesOf(g) == PlacesOf(flow) && GaveUp(job, g)
  {
    PlainEvents("", Challenge("", ""), "");
    Same(deferred);
    assert Pushes(Created(o)) == [Deactivate(o.authzURLs)] && !Settles(OrderFailed);
    assert GaveUp(job, flow + [OrderFailed]);
    assert o.status != Ready && o.status != Pending ==> GaveUp(job, flow + [Created(o)]);
    assert o.status == Ready ==> Earned(o, flow + [Created(o)]);
    assert o.status == Pending ==> Going(flow + [Created(o)]);
    assert StartsOver(Created(o)) && StartsOver(OrderFailed);
    hide *;
    StartMay(job, flow, Created(o));
    Next(job, flow, deferred, latest, i, n, Created(o));
    StandsLawful(job, flow + [Created(o)], deferred + [Deactivate(o.authzURLs)], Some(o), 0, n);
    StartMay(job, flow, OrderFailed);
    Next(job, flow, deferred, latest, i, n, OrderFailed);
    StandsLawful(job, flow + [OrderFailed], deferred, latest, i, n);
  }

  lemma GetNext(job: Job, flow: seq<Event>, deferred: seq<Deferred>, o: Order, i: nat, n: nat, z: Authz)
    requires Stands(job, flow, deferred, Some(o), i, n) && Going(flow) && i < |o.authzURLs|
    ensures var g := flow + [Got(o.authzURLs[i], z)];
      && PlacesOf(g) == PlacesOf(flow)
      && (z.status == Pending ==> Stands(job, g, deferred, Some(o), i, n))
      && (z.status != Pending ==> Stands(job, g, deferred, Some(o), i + 1, n) && Going(g))
    ensures var g := flow + [GotFailed(o.authzURLs[i])];
      && PlacesOf(g) == PlacesOf(flow) && Stands(job, g, deferred, Some(o), i, n) && GaveUp(job, g)
  {
    var url := o.authzURLs[i];
    PlainEvents(url, Challenge("", ""), "");
    Same(deferred);
    assert Pushes(Got(url, z)) == [] && (Settles(Got(url, z)) <==> z.status != Pending);
    assert z.status != Pending ==> Going(flow + [Got(url, z)]);
    assert GaveUp(job, flow + [GotFailed(url)]);
    hide *;
    GoMay(job, flow, deferred, o, i, n, Got(url, z));
    Next(job, flow, deferred, Some(o), i, n, Got(url, z));
    GoMay(job, flow, deferred, o, i, n, GotFailed(url));
    Next(job, flow, deferred, Some(o), i, n, GotFailed(url));
  }

  lemma NoneOffered(job: Job, flow: seq<Event>, deferred: seq<Deferred>, o: Option<Order>, i: nat, n: nat, z: Authz)
    requires Stands(job, flow, deferred, o, i, n) && flow != [] && flow[|flow| - 1].Got? && flow[|flow| - 1].z == z
    requires z.status == Pending
    requires forall t :: n <= t < |job.types| ==> forall c <- z.challenges :: c.kind != job.types[t]
    ensures GaveUp(job, flow)
  {
    hide Lawful, LatestOrder, SettledOf, NextOf, EventsOf, Undo;
  }

  lemma TryNext(job: Job, flow: seq<Event>, deferred: seq<Deferred>, o: Order, i: nat, n: nat, z: Authz, k: nat,
                chal: Challenge)
    requires Stands(job, flow, deferred, Some(o), i, n)
    requires flow != [] && flow[|flow| - 1].Got? && flow[|flow| - 1].z == z && z.status == Pending
    requires n <= k < |job.types| && chal in z.challenges && chal.kind == job.types[k]
    requires forall t :: n <= t < k ==> forall c <- z.challenges :: c.kind != job.types[t]
    ensures var g := flow + [Tried(k, chal)];
      Stands(job, g, deferred, Some(o), i, k + 1) && PlacesOf(g) == PlacesOf(flow)
  {
    var e := Tried(k, chal);
    PicksFirst(job, flow, deferred, Some(o), i, n, z, k, chal);
    Same(deferred);
    assert Pushes(e) == [] && !Settles(e);
    hide *;
    TryMay(job, flow, z, k, chal);
    Next(job, flow, deferred, Some(o), i, n, e);
  }

  lemma PicksFirst(job: Job, flow: seq<Event>, deferred: seq<Deferred>, o: Option<Order>, i: nat, n: nat, z: Authz,
                   k: nat, chal: Challenge)
    requires Stands(job, flow, deferred, o, i, n)
    requires n <= k < |job.types| && chal in z.challenges && chal.kind == job.types[k]
    requires forall t :: n <= t < k ==> forall c <- z.challenges :: c.kind != job.types[t]
    ensures Picks(job, flow, z, k, chal)
  {
    hide Lawful, LatestOrder, SettledOf, NextOf, EventsOf, Undo;
  }

  lemma PlaceNext(job: Job, flow: seq<Event>, deferred: seq<Deferred>, o: Order, i: nat, k: nat, chal: Challenge)
    requires Stands(job, flow + [Tried(k, chal)], deferred, Some(o), i, k + 1)
    ensures var p := flow + [Tried(k, chal)]; var g := p + [FulfillFailed];
      && Stands(job, g, deferred, Some(o), i, k + 1) && PlacesOf(g) == PlacesOf(p) && Setback(FulfillFailed)
    ensures var p := flow + [Tried(k, chal)]; var place := PlaceFor(chal, job.domain); var g := p + [Fulfilled(place)];
      && Stands(job, g, deferred + [Cleanup(place)], Some(o), i, k + 1) && PlacesOf(g) == PlacesOf(p) + {place}
  {
    var p, place := flow + [Tried(k, chal)], PlaceFor(chal, job.domain);
    PlainEvents("", chal, "");
    Same(deferred);
    assert Pushes(Fulfilled(place)) == [Cleanup(place)] && !Settles(Fulfilled(place));
    hide *;
    PlaceMay(job, flow, k, chal, FulfillFailed);
    Next(job, p, deferred, Some(o), i, k + 1, FulfillFailed);
    PlaceMay(job, flow, k, chal, Fulfilled(place));
    Next(job, p, deferred, Some(o), i, k + 1, Fulfilled(place));
  }

  lemma AcceptNext(job: Job, flow: seq<Event>, deferred: seq<Deferred>, o: Order, i: nat, n: nat, k: nat,
                   chal: Challenge, place: Place)
    requires Stands(job, flow + [Tried(k, chal)] + [Fulfilled(place)], deferred, Some(o), i, n)
    ensures var p := flow + [Tried(k, chal)] + [Fulfilled(place)];
      && Stands(job, p + [Accepted(chal)], deferred, Some(o), i, n) && PlacesOf(p + [Accepted(chal)]) == PlacesOf(p)
      && Stands(job, p + [AcceptFailed(chal)], deferred, Some(o), i, n)
      && PlacesOf(p + [AcceptFailed(chal)]) == PlacesOf(p) && Setback(AcceptFailed(chal))
  {
    var p := flow + [Tried(k, chal)] + [Fulfilled(place)];
    PlainEvents("", chal, "");
    Same(deferred);
    hide *;
    AcceptMay(job, flow, k, chal, place, Accepted(chal));
    Next(job, p, deferred, Some(o), i, n, Accepted(chal));
    AcceptMay(job, flow, k, chal, place, AcceptFailed(chal));
    Next(job, p, deferred, Some(o), i, n, AcceptFailed(chal));
  }

  lemma FindNext(job: Job, flow: seq<Event>, deferred: seq<Deferred>, o: Order, i: nat, n: nat)
    requires Stands(job, flow, deferred, Some(o), i, n) && flow != [] && flow[|flow| - 1].Accepted?
    requires i < |o.authzURLs|
    ensures var g := flow + [Authorized(o.authzURLs[i])];
      Stands(job, g, deferred, Some(o), i + 1, n) && Going(g) && PlacesOf(g) == PlacesOf(flow)
    ensures var e := AuthFailed(o.authzURLs[i]); var g := flow + [e];
      Stands(job, g, deferred, Some(o), i, n) && Setback(e) && PlacesOf(g) == PlacesOf(flow)
  {
    var url := o.authzURLs[i];
    PlainEvents(url, Challenge("", ""), "");
    Same(deferred);
    assert Going(flow + [Authorized(url)]);
    hide *;
    FindMay(job, flow, deferred, o, i, n, Authorized(url));
    Next(job, flow, deferred, Some(o), i, n, Authorized(url));
    FindMay(job, flow, deferred, o, i, n, AuthFailed(url));
    Next(job, flow, deferred, Some(o), i, n, AuthFailed(url));
  }

  lemma WaitNext(job: Job, flow: seq<Event>, deferred: seq<Deferred>, o: Order, n: nat, done: Order)
    requires Stands(job, flow, deferred, Some(o), |o.authzURLs|, n) && Going(flow)
    ensures var g := flow + [Waited(o.uri, done)];
      && Lawful(job, g) && EventsOf(deferred) == Undo(g) && PlacesOf(g) == PlacesOf(flow)
      && (done.status == Ready || done.status == Valid ==> Earned(done, g))
    ensures var e := WaitFailed(o.uri); var g := flow + [e];
      && Stands(job, g, deferred, Some(o), |o.authzURLs|, n) && Setback(e) && PlacesOf(g) == PlacesOf(flow)
  {
    var e := Waited(o.uri, done);
    PlainEvents("", Challenge("", ""), o.uri);
    Same(deferred);
    assert Pushes(e) == [] && !Settles(e);
    assert done.status == Ready || done.status == Valid ==> Earned(done, flow + [e]);
    hide *;
    GoMay(job, flow, deferred, o, |o.authzURLs|, n, e);
    Next(job, flow, deferred, Some(o), |o.authzURLs|, n, e);
    StandsLawful(job, flow + [e], deferred, Some(o), |o.authzURLs|, n);
    GoMay(job, flow, deferred, o, |o.authzURLs|, n, WaitFailed(o.uri));
    Next(job, flow, deferred, Some(o), |o.authzURLs|, n, WaitFailed(o.uri));
  }

  // ---------------------------------------------------------------- what the law entails

  predicate Increasing(s: seq<nat>) {
    forall i, j :: 0 <= i < j < |s| ==> s[i] < s[j]
  }

  predicate IndicesBelow(s: seq<nat>, n: nat) {
    Increasing(s) && forall i :: 0 <= i < |s| ==> s[i] < n
  }

  lemma NextIndex(s: seq<nat>, n: nat, i: nat)
    requires IndicesBelow(s, n) && n <= i
    ensures IndicesBelow(s + [i], i + 1)
  {
  }

  lemma {:induction false} IncreasingIsShort(s: seq<nat>, n: nat)
    requires IndicesBelow(s, n)
    ensures Increasing(s) && |s| <= n
  {
    if s != [] {
      IncreasingIsShort(s[..|s| - 1], s[|s| - 1]);
    }
  }

  lemma LawfulFront(job: Job, flow: seq<Event>)
    requires Lawful(job, flow) && flow != []
    ensures var front, e := flow[..|flow| - 1], flow[|flow| - 1];
      flow == front + [e] && Lawful(job, front) && MayFollow(job, front, e)
  {
    hide *;
    var front, e := flow[..|flow| - 1], flow[|flow| - 1];
    assert flow == front + [e];
    LawfulSnoc(job, front, e);
  }

  /** The indices of the types used increase, and there are no others. */
  lemma {:induction false} TypesOnce(job: Job, flow: seq<Event>)
    requires Lawful(job, flow)
    ensures IndicesBelow(TriedOf(flow), NextOf(flow)) && NextOf(flow) <= |job.types|
  {
    if flow != [] {
      LawfulFront(job, flow);
      var front, e := flow[..|flow| - 1], flow[|flow| - 1];
      TypesOnce(job, front);
      Snoc(front, e);
      OrderSnoc(front, e);
      if e.Tried? {
        TriedPicks(job, front, e);
        NextIndex(TriedOf(front), NextOf(front), e.index);
      }
      hide *;
    }
  }

  lemma TriedPicks(job: Job, flow: seq<Event>, e: Event)
    requires MayFollow(job, flow, e) && e.Tried?
    ensures NextOf(flow) <= e.index < |job.types|
    ensures flow != [] && flow[|flow| - 1].Got? && flow[|flow| - 1].z.status == Pending
    ensures var z := flow[|flow| - 1].z;
      && e.chal in z.challenges && e.chal.kind == job.types[e.index]
      && forall t :: NextOf(flow) <= t < e.index ==> !Offers(z, job.types[t])
  {
    hide NextOf, LatestOrder, SettledOf;
  }

  /** A type has been used, or a wait has failed, and no order made since. */
  predicate Covered(flow: seq<Event>) {
    flow == [] || var e := flow[|flow| - 1]; Setback(e) || e.Tried? || e.Fulfilled? || e.Accepted?
  }

  /** Responses are put in place for types used, and each order but the first follows a type used or a failed
      wait. */
  lemma {:induction false} Covers(job: Job, flow: seq<Event>)
    requires Lawful(job, flow)
    ensures CountFulfilled(flow) + (if flow != [] && flow[|flow| - 1].Tried? then 1 else 0) <= |TriedOf(flow)|
    ensures CountCreated(flow) + (if Covered(flow) then 1 else 0) <= 1 + |TriedOf(flow)| + CountWaitFailed(flow)
  {
    if flow != [] {
      LawfulFront(job, flow);
      var front, e := flow[..|flow| - 1], flow[|flow| - 1];
      Covers(job, front);
      Snoc(front, e);
      CoversStep(job, front, e);
      hide *;
    }
  }

  lemma CoversStep(job: Job, flow: seq<Event>, e: Event)
    requires MayFollow(job, flow, e)
    ensures e.Created? ==> Covered(flow)
    ensures e.Fulfilled? ==> flow != [] && flow[|flow| - 1].Tried?
    ensures Covered(flow + [e]) ==> Covered(flow) || e.Tried? || e.WaitFailed?
    ensures (flow + [e])[|flow|].Tried? ==> e.Tried?
    ensures e.Created? ==> !Covered(flow + [e])
  {
    hide NextOf, LatestOrder, SettledOf, Offers, Picks;
  }

  /** An authorization that was pending is found valid only after a type of it has been used, the response put where
      it belongs, and the CA told of that very challenge. */
  predicate Answered(job: Job, flow: seq<Event>, k: nat)
    requires 4 <= k < |flow|
  {
    && flow[k].Authorized? && flow[k - 4].Got? && flow[k - 4].z.status == Pending
    && flow[k - 3].Tried? && flow[k - 3].chal in flow[k - 4].z.challenges
    && flow[k - 2] == Fulfilled(PlaceFor(flow[k - 3].chal, job.domain))
    && flow[k - 1] == Accepted(flow[k - 3].chal)
  }

  lemma AuthorizedIsAnswered(job: Job, flow: seq<Event>, k: nat)
    requires Lawful(job, flow) && k < |flow| && flow[k].Authorized?
    ensures k >= 4 && Answered(job, flow, k)
  {
    Before(job, flow, k);
    Before(job, flow, k - 1);
    Before(job, flow, k - 2);
    Before(job, flow, k - 3);
  }

  /** What must stand right before an event. */
  lemma Before(job: Job, flow: seq<Event>, k: nat)
    requires Lawful(job, flow) && k < |flow|
    ensures flow[k].Authorized? ==> k >= 1 && flow[k - 1].Accepted?
    ensures flow[k].Accepted? ==>
      k >= 2 && flow[k - 1].Fulfilled? && flow[k - 2].Tried? && flow[k] == Accepted(flow[k - 2].chal)
    ensures flow[k].Fulfilled? ==>
      k >= 1 && flow[k - 1].Tried? && flow[k] == Fulfilled(PlaceFor(flow[k - 1].chal, job.domain))
    ensures flow[k].Tried? ==>
      k >= 1 && flow[k - 1].Got? && flow[k - 1].z.status == Pending && flow[k].chal in flow[k - 1].z.challenges
  {
    var front := flow[..k];
    assert MayFollow(job, front, flow[k]);
    assert k >= 1 ==> front[|front| - 1] == flow[k - 1];
    assert k >= 2 ==> front[|front| - 2] == flow[k - 2];
    hide Lawful, NextOf, LatestOrder, SettledOf, Offers, GoesOn, OnCurrent;
  }

  /** A failed response, acceptance, finding or wait is never the end: another order is asked for at once. */
  lemma SetbacksStartOver(job: Job, flow: seq<Event>, k: nat, order: Option<Order>)
    requires Lawful(job, flow) && k < |flow| && Setback(flow[k])
    requires if order.Some? then Earned(order.value, flow) else GaveUp(job, flow)
    ensures k + 1 < |flow| && StartsOver(flow[k + 1])
  {
    if k + 1 < |flow| {
      var front := flow[..k + 1];
      assert MayFollow(job, front, flow[k + 1]) && front[|front| - 1] == flow[k];
      hide Lawful, NextOf, LatestOrder, SettledOf, Offers;
    }
  }

  /** What has been settled of the latest order is the first of its authorizations, in order. */
  lemma {:induction false} SettledInOrder(job: Job, flow: seq<Event>)
    requires Lawful(job, flow) && LatestOrder(flow).Some?
    ensures SettledOf(flow) <= LatestOrder(flow).value.authzURLs
  {
    if flow != [] {
      LawfulFront(job, flow);
      var front, e := flow[..|flow| - 1], flow[|flow| - 1];
      OrderSnoc(front, e);
      if !e.Created? {
        SettledInOrder(job, front);
        var urls, i := LatestOrder(front).value.authzURLs, |SettledOf(front)|;
        if Settles(e) {
          assert SettledOf(front) == urls[..i];
          SettlesNext(job, front, e, LatestOrder(front), i);
        }
        hide *;
      }
    }
  }

  /** An order that was waited for has had all its authorizations settled. */
  lemma WaitedIsSettled(job: Job, flow: seq<Event>)
    requires Lawful(job, flow) && flow != [] && flow[|flow| - 1].Waited?
    ensures LatestOrder(flow).Some? && SettledOf(flow) == LatestOrder(flow).value.authzURLs
    ensures flow[|flow| - 1].uri == LatestOrder(flow).value.uri
  {
    LawfulFront(job, flow);
    var front, e := flow[..|flow| - 1], flow[|flow| - 1];
    OrderSnoc(front, e);
    WaitGoesOn(job, front, e);
    hide MayFollow, Lawful, LatestOrder, SettledOf;
    SettledInOrder(job, front);
  }

  lemma WaitGoesOn(job: Job, flow: seq<Event>, e: Event)
    requires MayFollow(job, flow, e) && e.Waited?
    ensures LatestOrder(flow).Some? && |SettledOf(flow)| >= |LatestOrder(flow).value.authzURLs|
    ensures e.uri == LatestOrder(flow).value.uri
  {
    hide LatestOrder, SettledOf, NextOf, Picks;
  }

  // ---------------------------------------------------------------- the deferred calls run

  /** verifyRFC. Whatever the exit, everything registered is undone, last first: each order created is handed
      to deactivation once and each fulfilment cleaned up once, so the token maps end as they were but for the
      entries under the places used, which are gone. */
  method VerifyRFC(m: Manager, ca: CA, domain: string) returns (order: Option<Order>, ghost flow: seq<Event>)
    requires ca.log == []
    modifies m`certTokens, m`httpTokens, ca
    ensures ca.log == flow + Undo(flow)
    ensures m.certTokens == old(m.certTokens) - CertKeys(PlacesOf(flow))
    ensures m.httpTokens == old(m.httpTokens) - HttpKeys(PlacesOf(flow))
    ensures var job := Job(domain, if m.tryHTTP01 then ["tls-alpn-01", "http-01"] else ["tls-alpn-01"]);
      Lawful(job, flow) && if order.Some? then Earned(order.value, flow) else GaveUp(job, flow)
    ensures Increasing(TriedOf(flow)) && |TriedOf(flow)| <= if m.tryHTTP01 then 2 else 1
    ensures CountFulfilled(flow) <= |TriedOf(flow)|
    ensures CountCreated(flow) <= 1 + |TriedOf(flow)| + CountWaitFailed(flow)
  {
    var deferred;
    ghost var types;
    order, deferred, types := m.Flow(ca, domain);
    flow := ca.log;
    hide *;
    ghost var job := Job(domain, types);
    TypesOnce(job, flow);
    IncreasingIsShort(TriedOf(flow), NextOf(flow));
    Covers(job, flow);
    StackPlaces(flow, deferred);
    RunDeferred(m, ca, deferred);
  }

  function StackOf(stack: seq<Deferred>): set<Place> {
    set d | d in stack && d.Cleanup? :: d.place
  }

  /** The deferred calls, last first. The token deletions, which run in goroutines of their own, are taken as
      done. */
  method RunDeferred(m: Manager, ca: CA, stack: seq<Deferred>)
    modifies m`certTokens, m`httpTokens, ca`log
    ensures ca.log == old(ca.log) + EventsOf(stack)
    ensures m.certTokens == old(m.certTokens) - CertKeys(StackOf(stack))
    ensures m.httpTokens == old(m.httpTokens) - HttpKeys(StackOf(stack))
  {
    if stack == [] {
      return;
    }
    var d, rest := stack[|stack| - 1], stack[..|stack| - 1];
    match d {
      case Deactivate(urls) =>
      case Cleanup(CertPlace(domain)) => m.certTokens := m.certTokens - {domain};
      case Cleanup(HttpPlace(path)) => m.httpTokens := m.httpTokens - {path};
    }
    ca.Note(EventOf(d));
    PlaceOnTop(rest, d);
    assert stack == rest + [d] && EventsOf(stack) == [EventOf(d)] + EventsOf(rest);
    hide *;
    RunDeferred(m, ca, rest);
  }

  /** The keys of the places of a stack, with its top. */
  lemma PlaceOnTop(rest: seq<Deferred>, d: Deferred)
    ensures CertKeys(StackOf(rest + [d])) ==
      CertKeys(StackOf(rest)) + if d.Cleanup? && d.place.CertPlace? then {d.place.domain} else {}
    ensures HttpKeys(StackOf(rest + [d])) ==
      HttpKeys(StackOf(rest)) + if d.Cleanup? && d.place.HttpPlace? then {d.place.path} else {}
  {
    var top: set<Place> := if d.Cleanup? then {d.place} else {};
    assert StackOf(rest + [d]) == StackOf(rest) + top;
    KeysOfUnion(StackOf(rest), top);
    assert CertKeys(top) == if d.Cleanup? && d.place.CertPlace? then {d.place.domain} else {};
    assert HttpKeys(top) == if d.Cleanup? && d.place.HttpPlace? then {d.place.path} else {};
  }

  lemma {:induction false} UndoPlaces(flow: seq<Event>)
    ensures forall p :: Cleaned(p) in Undo(flow) <==> p in PlacesOf(flow)
  {
    if flow != [] {
      var front, e := flow[..|flow| - 1], flow[|flow| - 1];
      assert flow == front + [e];
      UndoPlaces(front);
      Snoc(front, e);
    }
  }

  lemma {:induction false} StackEvents(stack: seq<Deferred>)
    ensures forall p :: Cleaned(p) in EventsOf(stack) <==> p in StackOf(stack)
  {
    if stack != [] {
      var front, d := stack[..|stack| - 1], stack[|stack| - 1];
      assert stack == front + [d];
      StackEvents(front);
      assert StackOf(stack) == StackOf(front) + if d.Cleanup? then {d.place} else {};
    }
  }

  lemma StackPlaces(flow: seq<Event>, stack: seq<Deferred>)
    requires EventsOf(stack) == Undo(flow)
    ensures StackOf(stack) == PlacesOf(flow)
  {
    UndoPlaces(flow);
    StackEvents(stack);
    assert forall p :: p in StackOf(stack) <==> p in PlacesOf(flow);
  }

  /** The event calls for that deferred call: an order for the deactivation of its authorizations, a response put
      in place for the cleanup of that place. */
  predicate CallsFor(e: Event, d: Event) {
    (e.Created? && d == Deactivated(e.order.authzURLs)) || (e.Fulfilled? && d == Cleaned(e.place))
  }

  function CountCalling(flow: seq<Event>, d: Event): nat {
    if flow == [] then 0 else CountCalling(flow[..|flow| - 1], d) + if CallsFor(flow[|flow| - 1], d) then 1 else 0
  }

  lemma UndoingOne(last: Event, d: Event)
    ensures multiset(Undoing(last))[d] == if CallsFor(last, d) then 1 else 0
  {
  }

  /** Undoing is complete: every deferred call is made as often as it is called for. */
  lemma {:induction false} UndoneExactly(flow: seq<Event>, d: Event)
    ensures multiset(Undo(flow))[d] == CountCalling(flow, d)
  {
    if flow != [] {
      var front, last := flow[..|flow| - 1], flow[|flow| - 1];
      assert flow == front + [last];
      UndoneExactly(front, d);
      Snoc(front, last);
      UndoingOne(last, d);
      assert CountCalling(flow, d) == CountCalling(front, d) + if CallsFor(last, d) then 1 else 0;
      hide *;
      assert multiset(Undoing(last) + Undo(front)) == multiset(Undoing(last)) + multiset(Undo(front));
    }
  }

  function PickChallenge(typ: string, chals: seq<Challenge>): (c: Option<Challenge>)
    ensures c.Some? ==> c.value in chals && c.value.kind == typ
    ensures c.Some? ==>
      exists i :: 0 <= i < |chals| && chals[i] == c.value && forall j :: 0 <= j < i ==> chals[j].kind != typ
    ensures c.None? ==> forall x <- chals :: x.kind != typ
  {
    if chals == [] then None
    else if chals[0].kind == typ then Some(chals[0])
    else PickChallenge(typ, chals[1..])
  }
}
