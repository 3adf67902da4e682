/**
 Interleaved tenancy requests over one ownership ledger. An allowed request reads the ledger once
 for every resource its path, query and body name, is forwarded, and on success claims what it
 created, releases what it deleted and keeps the list rows that are linked to its caller, again one
 store call at a time; steps of any number of requests interleave.
 */
module TenancyRuns {
  import opened Text
  import opened Json
  import opened Owners
  import opened Routes
  import opened RequestGate
  import opened ListFilter

  datatype CreateRoute = CreateRoute(verb: string, segs: seq<string>, rtype: string, idField: string)

  datatype DeleteRoute = DeleteRoute(verb: string, segs: seq<string>, rtype: string, param: string)

  datatype ListEntry = ListEntry(verb: string, segs: seq<string>, route: ListRoute)

  /** A request as it arrives. */
  datatype Ask = Ask(verb: string, what: Incoming)

  /** Whether a request is let in to be checked, and the resources the ledger is then read for. */
  type Gate = Ask -> Option<set<Ref>>

  /**
   One app's allow-list and tenancy block, with the gate that stands before it. What follows holds
   of any gate; Guarded says that it is the broker's.
   */
  datatype Tenancy = Tenancy(app: string, literals: set<(string, seq<string>)>, templates: seq<Allow>, cfg: Config,
                             creates: seq<CreateRoute>, deletes: seq<DeleteRoute>, lists: seq<ListEntry>, gate: Gate)

  /** A list row kept because of its k-th link, under list route l. */
  datatype Shown = Shown(l: nat, el: Tree, k: nat)

  datatype Request = Request(caller: string, verb: string, what: Incoming, pc: Pc, shown: seq<Shown>)

  /** ids is what the answer spells at each id field; c and d count the routes gone through. */
  datatype Pc =
    | Refused
    | Checking(todo: set<Ref>)
    | Claiming(c: nat, ids: map<string, string>)
    | Releasing(d: nat)
    | Listing
    | Closed

  function Patterns(t: Tenancy, verb: string, segs: seq<string>): seq<seq<string>> {
    PatternsFor(Paths(t.templates), t.literals, verb, segs)
  }

  function Params(t: Tenancy, r: Request): map<string, string> {
    Bind(Patterns(t, r.verb, r.what.segs), r.what.segs, map[])
  }

  /** The broker lets in legible requests that its allow-list admits, and reads the ledger for all they name. */
  ghost function BrokerGate(t: Tenancy, q: Ask): Option<set<Ref>> {
    if IsPath(q.what.segs) && Allowed(t.literals, t.templates, q.verb, q.what.segs) && Legible(t.cfg, q.what)
    then Some(NamedRefs(Patterns(t, q.verb, q.what.segs), t.cfg, q.what)) else None
  }

  ghost predicate Guarded(t: Tenancy) {
    forall q: Ask :: t.gate(q) == BrokerGate(t, q)
  }

  /** Every allow-list and tenancy block has its guarded form. */
  lemma GuardedExists(t: Tenancy)
    ensures Guarded(t.(gate := (q: Ask) => BrokerGate(t, q)))
  {
    var t' := t.(gate := (q: Ask) => BrokerGate(t, q));
    assert forall q: Ask :: BrokerGate(t', q) == BrokerGate(t, q);
  }

  predicate Admitted(t: Tenancy, r: Request) {
    t.gate(Ask(r.verb, r.what)).Some?
  }

  function Named(t: Tenancy, r: Request): set<Ref> {
    t.gate(Ask(r.verb, r.what)).GetOr({})
  }

  function Row(t: Tenancy, x: Ref): Resource {
    Resource(t.app, x.rtype, x.rid)
  }

  predicate Creates(t: Tenancy, r: Request, c: nat) {
    c < |t.creates| && t.creates[c].verb == r.verb && SegmentsMatch(t.creates[c].segs, r.what.segs)
  }

  predicate Deletes(t: Tenancy, r: Request, d: nat) {
    && d < |t.deletes|
    && t.deletes[d].verb == r.verb && SegmentsMatch(t.deletes[d].segs, r.what.segs)
    && t.deletes[d].param in Params(t, r) && Params(t, r)[t.deletes[d].param] != ""
  }

  function DeletedRef(t: Tenancy, r: Request, d: nat): Ref
    requires Deletes(t, r, d)
  {
    Ref(t.deletes[d].rtype, Params(t, r)[t.deletes[d].param])
  }

  predicate ListsHere(t: Tenancy, r: Request, l: nat) {
    l < |t.lists| && t.lists[l].verb == r.verb && SegmentsMatch(t.lists[l].segs, r.what.segs)
  }

  /** The first list route that matches filters the answer. */
  predicate Lists(t: Tenancy, r: Request, l: nat) {
    ListsHere(t, r, l) && forall l' :: 0 <= l' < l ==> !ListsHere(t, r, l')
  }

  /** The row's link points at a resource of the caller's. */
  predicate LinkHolds(t: Tenancy, o: Ownership, r: Request, sh: Shown) {
    && Lists(t, r, sh.l) && sh.el.TObj? && sh.k < |t.lists[sh.l].route.links|
    && LinkOwned(Job(t.app, r.caller, t.lists[sh.l].route), o, sh.el.fields, t.lists[sh.l].route.links[sh.k])
  }

  // ---- steps and runs ----

  datatype Action =
    | Arrive(caller: string, verb: string, what: Incoming)
    | CheckRef(i: nat, x: Ref)
    | Deny(i: nat)                                            // a store error
    | Answered(i: nat, ids: Option<map<string, string>>)      // None unless the upstream answered 2xx
    | ClaimNext(i: nat)
    | ReleaseNext(i: nat)
    | ReadLink(i: nat, sh: Shown)
    | ClaimShown(i: nat, n: nat)
    | Finish(i: nat)

  datatype Sys = Sys(o: Ownership, reqs: seq<Request>)

  function Arrived(t: Tenancy, caller: string, verb: string, what: Incoming): Request {
    var r := Request(caller, verb, what, Refused, []);
    if caller != "" && Admitted(t, r) then r.(pc := Checking(Named(t, r))) else r
  }

  function Next(t: Tenancy, o: Ownership, r: Request, a: Action): Request {
    match (a, r.pc)
    case (CheckRef(_, x), Checking(todo)) =>
      if x !in todo then r
      else r.(pc := if Owns(o, Row(t, x), r.caller) then Checking(todo - {x}) else Refused)
    case (Deny(_), Checking(_)) => r.(pc := Refused)
    case (Answered(_, ids), Checking(todo)) =>
      if todo != {} then r else r.(pc := if ids.Some? then Claiming(0, ids.value) else Closed)
    case (ClaimNext(_), Claiming(c, ids)) =>
      r.(pc := if c < |t.creates| then Claiming(c + 1, ids) else Releasing(0))
    case (ReleaseNext(_), Releasing(d)) => r.(pc := if d < |t.deletes| then Releasing(d + 1) else Listing)
    case (ReadLink(_, sh), Listing) => if LinkHolds(t, o, r, sh) then r.(shown := r.shown + [sh]) else r
    case (Finish(_), Listing) => r.(pc := Closed)
    case _ => r
  }

  /** What action a of request r claims for its caller: an id it created, or a list row it was shown. */
  function ClaimOf(t: Tenancy, r: Request, a: Action): Option<Ref> {
    match (a, r.pc)
    case (ClaimNext(_), Claiming(c, ids)) =>
      if Creates(t, r, c) && t.creates[c].idField in ids then Some(Ref(t.creates[c].rtype, ids[t.creates[c].idField]))
      else None
    case (ClaimShown(_, n), Listing) => if n < |r.shown| then ShownRef(t, r.shown[n]) else None
    case _ => None
  }

  function ShownRef(t: Tenancy, sh: Shown): Option<Ref> {
    if sh.l >= |t.lists| then None
    else
      var route := t.lists[sh.l].route;
      if route.claimAs != "" && sh.el.TObj? && route.claimField in sh.el.fields
         && AsID(sh.el.fields[route.claimField]).Some?
      then Some(Ref(route.claimAs, AsID(sh.el.fields[route.claimField]).value)) else None
  }

  function ReleaseOf(t: Tenancy, r: Request, a: Action): Option<Ref> {
    if a.ReleaseNext? && r.pc.Releasing? && Deletes(t, r, r.pc.d) then Some(DeletedRef(t, r, r.pc.d)) else None
  }

  function LedgerAfter(t: Tenancy, o: Ownership, r: Request, a: Action): Ownership {
    if ClaimOf(t, r, a).Some? then Claim(o, Row(t, ClaimOf(t, r, a).value), r.caller)
    else if ReleaseOf(t, r, a).Some? then Release(o, Row(t, ReleaseOf(t, r, a).value))
    else o
  }

  function Step(t: Tenancy, s: Sys, a: Action): Sys {
    if a.Arrive? then s.(reqs := s.reqs + [Arrived(t, a.caller, a.verb, a.what)])
    else if a.i >= |s.reqs| then s
    else Sys(LedgerAfter(t, s.o, s.reqs[a.i], a), s.reqs[a.i := Next(t, s.o, s.reqs[a.i], a)])
  }

  function Run(t: Tenancy, acts: seq<Action>): Sys {
    if acts == [] then Sys(map[], []) else Step(t, Run(t, acts[..|acts| - 1]), acts[|acts| - 1])
  }

  lemma RunStep(t: Tenancy, acts: seq<Action>, a: Action)
    ensures Run(t, acts + [a]) == Step(t, Run(t, acts), a)
  {
    assert (acts + [a])[..|acts|] == acts;
  }

  lemma RunLast(t: Tenancy, acts: seq<Action>, n: nat)
    requires n < |acts|
    ensures Run(t, acts[..n + 1]) == Step(t, Run(t, acts[..n]), acts[n])
  {
    assert acts[..n + 1][..n] == acts[..n];
  }

  /** Request i at this point of the run is in some state of being checked. */
  predicate IsChecking(s: Sys, i: nat) {
    i < |s.reqs| && s.reqs[i].pc.Checking?
  }

  /** Action a, taken in s, drops exactly this resource. */
  predicate Releases(t: Tenancy, s: Sys, a: Action, x: Ref) {
    a.ReleaseNext? && a.i < |s.reqs| && ReleaseOf(t, s.reqs[a.i], a) == Some(x)
  }

  // ---- a row keeps its owner ----

  lemma StepKeeps(t: Tenancy, s: Sys, a: Action, x: Ref)
    requires Row(t, x) in s.o && !Releases(t, s, a, x)
    ensures Row(t, x) in Step(t, s, a).o && Step(t, s, a).o[Row(t, x)] == s.o[Row(t, x)]
  {
  }

  /** Step k of the run releases the resource. */
  ghost predicate DroppedAt(t: Tenancy, acts: seq<Action>, k: nat, x: Ref) {
    k < |acts| && Releases(t, Run(t, acts[..k]), acts[k], x)
  }

  /** No step from k on releases the resource. */
  ghost predicate KeptSince(t: Tenancy, acts: seq<Action>, k: nat, x: Ref) {
    forall j :: k <= j < |acts| ==> !DroppedAt(t, acts, j, x)
  }

  lemma KeptShorter(t: Tenancy, acts: seq<Action>, m: nat, n: nat, x: Ref)
    requires m <= n <= |acts| && KeptSince(t, acts, m, x)
    ensures KeptSince(t, acts[..n], m, x)
  {
    forall j | m <= j < n ensures !DroppedAt(t, acts[..n], j, x) {
      assert acts[..n][..j] == acts[..j] && !DroppedAt(t, acts, j, x);
    }
  }

  lemma LastKeeps(t: Tenancy, acts: seq<Action>, n: nat, x: Ref)
    requires n < |acts| && Row(t, x) in Run(t, acts[..n]).o && !DroppedAt(t, acts, n, x)
    ensures Row(t, x) in Run(t, acts[..n + 1]).o && Run(t, acts[..n + 1]).o[Row(t, x)] == Run(t, acts[..n]).o[Row(t, x)]
  {
    RunLast(t, acts, n);
    StepKeeps(t, Run(t, acts[..n]), acts[n], x);
  }

  /** In every run, a row keeps its owner until that exact row is released. */
  lemma {:induction false} OwnerPersists(t: Tenancy, acts: seq<Action>, m: nat, x: Ref)
    requires m <= |acts| && Row(t, x) in Run(t, acts[..m]).o && KeptSince(t, acts, m, x)
    ensures Row(t, x) in Run(t, acts).o && Run(t, acts).o[Row(t, x)] == Run(t, acts[..m]).o[Row(t, x)]
    decreases |acts|
  {
    if m == |acts| {
      assert acts[..m] == acts;
    } else {
      var n := |acts| - 1;
      assert acts[..n][..m] == acts[..m] && acts[..n + 1] == acts;
      KeptShorter(t, acts, m, n, x);
      OwnerPersists(t, acts[..n], m, x);
      LastKeeps(t, acts, n, x);
    }
  }

  // ---- what a request names was owned while it was checked ----

  /** At some point of the run, request i was being checked while its caller owned the resource. */
  ghost predicate WasOwned(t: Tenancy, acts: seq<Action>, i: nat, x: Ref) {
    exists m :: 0 <= m <= |acts| && OwnedAt(t, acts, i, x, m)
  }

  ghost predicate OwnedAt(t: Tenancy, acts: seq<Action>, i: nat, x: Ref, m: nat)
    requires m <= |acts|
  {
    var s := Run(t, acts[..m]);
    IsChecking(s, i) && Owns(s.o, Row(t, x), s.reqs[i].caller)
  }

  lemma WasOwnedLater(t: Tenancy, acts: seq<Action>, n: nat, i: nat, x: Ref)
    requires n <= |acts| && WasOwned(t, acts[..n], i, x)
    ensures WasOwned(t, acts, i, x)
  {
    var m :| 0 <= m <= n && OwnedAt(t, acts[..n], i, x, m);
    assert acts[..n][..m] == acts[..m];
    assert OwnedAt(t, acts, i, x, m);
  }

  /** The reads request r has behind it: none if it was refused. */
  ghost predicate Past(t: Tenancy, r: Request, x: Ref) {
    !r.pc.Refused? && x in Named(t, r) && (r.pc.Checking? ==> x !in r.pc.todo)
  }

  /** Who a request is and what it asks never changes. */
  lemma NextSame(t: Tenancy, o: Ownership, r: Request, a: Action)
    ensures Next(t, o, r, a) == r.(pc := Next(t, o, r, a).pc, shown := Next(t, o, r, a).shown)
  {
  }

  predicate SameShape(r: Request, r': Request) {
    r.caller == r'.caller && r.verb == r'.verb && r.what == r'.what
  }

  /** A read is passed only by owning. */
  lemma NextPast(t: Tenancy, o: Ownership, r: Request, a: Action, x: Ref)
    ensures Past(t, Next(t, o, r, a), x) ==> Past(t, r, x) || (r.pc.Checking? && Owns(o, Row(t, x), r.caller))
  {
  }

  lemma SameRequest(t: Tenancy, s: Sys, a: Action, i: nat)
    requires i < |s.reqs|
    ensures i < |Step(t, s, a).reqs|
    ensures Step(t, s, a).reqs[i] == if !a.Arrive? && a.i == i then Next(t, s.o, s.reqs[i], a) else s.reqs[i]
  {
  }

  lemma StepShape(t: Tenancy, s: Sys, a: Action, i: nat)
    requires i < |s.reqs|
    ensures i < |Step(t, s, a).reqs| && SameShape(Step(t, s, a).reqs[i], s.reqs[i])
  {
    SameRequest(t, s, a, i);
    NextSame(t, s.o, s.reqs[i], a);
  }

  /** A step puts a read behind a request only if its caller owns what is read. */
  lemma StepPast(t: Tenancy, s: Sys, a: Action, i: nat, x: Ref)
    requires i < |Step(t, s, a).reqs| && Past(t, Step(t, s, a).reqs[i], x)
    ensures i < |s.reqs|
    ensures Past(t, s.reqs[i], x) || (IsChecking(s, i) && Owns(s.o, Row(t, x), s.reqs[i].caller))
  {
    if i < |s.reqs| {
      SameRequest(t, s, a, i);
      NextPast(t, s.o, s.reqs[i], a, x);
    }
  }

  /**
   In every interleaving, every resource that a request's path, query and body name was its caller's
   at the moment, while the request was being checked, when the ledger was read for it.
   */
  lemma {:induction false} PassedWereOwned(t: Tenancy, acts: seq<Action>, i: nat, x: Ref)
    requires i < |Run(t, acts).reqs| && Past(t, Run(t, acts).reqs[i], x)
    ensures WasOwned(t, acts, i, x)
  {
    var n := |acts| - 1;
    var s := Run(t, acts[..n]);
    StepPast(t, s, acts[n], i, x);
    if Past(t, s.reqs[i], x) {
      PassedWereOwned(t, acts[..n], i, x);
      WasOwnedLater(t, acts, n, i, x);
    } else {
      assert OwnedAt(t, acts, i, x, n);
    }
  }

  /**
   Behind the broker's gate: a request past its checks is one the allow-list admits and the gate can
   read, and whatever its path, query and body name was its caller's while it was being checked.
   */
  lemma PassedRequestWasOwned(t: Tenancy, acts: seq<Action>, i: nat)
    requires Guarded(t) && i < |Run(t, acts).reqs|
    requires !Run(t, acts).reqs[i].pc.Refused? && !Run(t, acts).reqs[i].pc.Checking?
    ensures var r := Run(t, acts).reqs[i];
            && |r.what.segs| >= 2 && r.what.segs[0] == ""
            && r.caller != "" && Allowed(t.literals, t.templates, r.verb, r.what.segs) && Legible(t.cfg, r.what)
            && forall x :: x in NamedRefs(Patterns(t, r.verb, r.what.segs), t.cfg, r.what) ==> WasOwned(t, acts, i, x)
  {
    PastWasAdmitted(t, acts, i);
    var r := Run(t, acts).reqs[i];
    forall x | x in Named(t, r) ensures WasOwned(t, acts, i, x) {
      PassedWereOwned(t, acts, i, x);
    }
  }

  // ---- what a list shows was linked when it was read ----

  /** At point m of the run request i was filtering its answer, and the row's link was its caller's. */
  ghost predicate LinkedAt(t: Tenancy, acts: seq<Action>, i: nat, sh: Shown, m: nat)
    requires m <= |acts|
  {
    var s := Run(t, acts[..m]);
    i < |s.reqs| && s.reqs[i].pc.Listing? && LinkHolds(t, s.o, s.reqs[i], sh)
  }

  /** A step shows a row only while the answer is filtered and the row's link is the caller's. */
  lemma StepShown(t: Tenancy, s: Sys, a: Action, i: nat, n: nat)
    requires i < |Step(t, s, a).reqs| && n < |Step(t, s, a).reqs[i].shown|
    ensures i < |s.reqs|
    ensures var sh := Step(t, s, a).reqs[i].shown[n];
            if n < |s.reqs[i].shown| then s.reqs[i].shown[n] == sh
            else s.reqs[i].pc.Listing? && LinkHolds(t, s.o, s.reqs[i], sh)
  {
    if i < |s.reqs| {
      SameRequest(t, s, a, i);
    }
  }

  lemma LinkedLater(t: Tenancy, acts: seq<Action>, n: nat, i: nat, sh: Shown, m: nat)
    requires m <= n <= |acts| && LinkedAt(t, acts[..n], i, sh, m)
    ensures LinkedAt(t, acts, i, sh, m)
  {
    assert acts[..n][..m] == acts[..m];
  }

  /** In every interleaving, every list row a request was shown had an owned link when it was kept. */
  lemma {:induction false} ShownWereLinked(t: Tenancy, acts: seq<Action>, i: nat, n: nat)
    requires i < |Run(t, acts).reqs| && n < |Run(t, acts).reqs[i].shown|
    ensures exists m :: 0 <= m < |acts| && LinkedAt(t, acts, i, Run(t, acts).reqs[i].shown[n], m)
  {
    var k := |acts| - 1;
    var s := Run(t, acts[..k]);
    var sh := Run(t, acts).reqs[i].shown[n];
    StepShown(t, s, acts[k], i, n);
    if n < |s.reqs[i].shown| {
      ShownWereLinked(t, acts[..k], i, n);
      var m :| 0 <= m < k && LinkedAt(t, acts[..k], i, sh, m);
      LinkedLater(t, acts, k, i, sh, m);
    } else {
      assert LinkedAt(t, acts, i, sh, k);
    }
  }

  // ---- what a step claims and releases, route by route ----

  /** A request bound by a literal allow entry has no params; any other has those of all matching templates. */
  lemma ParamsMean(t: Tenancy, r: Request, name: string)
    ensures name in Params(t, r)
       <==> (r.verb, r.what.segs) !in t.literals && ("", r.what.segs) !in t.literals
            && exists val :: Binds(Paths(t.templates), r.what.segs, name, val)
    ensures name in Params(t, r) ==> Binds(Paths(t.templates), r.what.segs, name, Params(t, r)[name])
  {
    BindBinds(Patterns(t, r.verb, r.what.segs), r.what.segs, map[], name);
  }

  /** Delete route d is one of this verb and path, for this type, and its param is bound to this id. */
  predicate RouteDeletes(t: Tenancy, r: Request, d: nat, x: Ref) {
    && d < |t.deletes| && t.deletes[d].verb == r.verb && SegmentsMatch(t.deletes[d].segs, r.what.segs)
    && t.deletes[d].rtype == x.rtype && x.rid != ""
    && t.deletes[d].param in Params(t, r) && Params(t, r)[t.deletes[d].param] == x.rid
  }

  /** A step takes a row away exactly if a request is at a delete route of its verb, path, param and type. */
  lemma DropsExactly(t: Tenancy, s: Sys, a: Action, x: Ref)
    ensures Releases(t, s, a, x)
       <==> a.ReleaseNext? && a.i < |s.reqs| && s.reqs[a.i].pc.Releasing?
            && RouteDeletes(t, s.reqs[a.i], s.reqs[a.i].pc.d, x)
    ensures Row(t, x) in s.o && Row(t, x) !in Step(t, s, a).o <==> Row(t, x) in s.o && Releases(t, s, a, x)
  {
    if Row(t, x) in s.o && !Releases(t, s, a, x) {
      StepKeeps(t, s, a, x);
    }
  }

  /** In every run a request whose verb is no delete route's takes nothing away. */
  lemma OtherVerbsDropNothing(t: Tenancy, acts: seq<Action>, k: nat, x: Ref)
    requires DroppedAt(t, acts, k, x)
    ensures var r := Run(t, acts[..k]).reqs[acts[k].i];
            exists d :: 0 <= d < |t.deletes| && t.deletes[d].verb == r.verb && t.deletes[d].rtype == x.rtype
  {
    var s := Run(t, acts[..k]);
    DropsExactly(t, s, acts[k], x);
    assert RouteDeletes(t, s.reqs[acts[k].i], s.reqs[acts[k].i].pc.d, x);
  }

  /** Create route c is one of this verb and path, for this type, and the answer spells this id at its id field. */
  predicate RouteCreates(t: Tenancy, r: Request, c: nat, ids: map<string, string>, x: Ref) {
    && c < |t.creates| && t.creates[c].verb == r.verb && SegmentsMatch(t.creates[c].segs, r.what.segs)
    && t.creates[c].rtype == x.rtype && t.creates[c].idField in ids && ids[t.creates[c].idField] == x.rid
  }

  /** A kept list row carries this id at its route's id field, and the route claims rows as this type. */
  predicate RowClaims(t: Tenancy, sh: Shown, x: Ref) {
    && sh.l < |t.lists| && t.lists[sh.l].route.claimAs == x.rtype && x.rtype != ""
    && sh.el.TObj? && t.lists[sh.l].route.claimField in sh.el.fields
    && AsID(sh.el.fields[t.lists[sh.l].route.claimField]) == Some(x.rid)
  }

  predicate ClaimsHere(t: Tenancy, r: Request, a: Action, x: Ref) {
    || (a.ClaimNext? && r.pc.Claiming? && RouteCreates(t, r, r.pc.c, r.pc.ids, x))
    || (a.ClaimShown? && r.pc.Listing? && a.n < |r.shown| && RowClaims(t, r.shown[a.n], x))
  }

  /** A step gives a free row to a caller exactly if a request of that caller claims it by a route or a kept row. */
  lemma GainsExactly(t: Tenancy, s: Sys, a: Action, x: Ref, caller: string)
    requires Row(t, x) !in s.o
    ensures HeldBy(Step(t, s, a).o, Row(t, x), caller)
       <==> !a.Arrive? && a.i < |s.reqs| && s.reqs[a.i].caller == caller && caller != "" && x.rid != ""
            && ClaimsHere(t, s.reqs[a.i], a, x)
  {
    StepOwner(t, s, a, x, caller);
    if !a.Arrive? && a.i < |s.reqs| {
      ClaimMeans(t, s.reqs[a.i], a, x);
    }
  }

  lemma ClaimMeans(t: Tenancy, r: Request, a: Action, x: Ref)
    ensures ClaimOf(t, r, a) == Some(x) <==> ClaimsHere(t, r, a, x)
  {
  }

  /** The list route that filters is the first one of the request's verb and path. */
  lemma ListsMeans(t: Tenancy, r: Request, l: nat)
    ensures Lists(t, r, l)
       <==> && l < |t.lists| && t.lists[l].verb == r.verb && SegmentsMatch(t.lists[l].segs, r.what.segs)
            && forall l' :: 0 <= l' < l ==> t.lists[l'].verb != r.verb || !SegmentsMatch(t.lists[l'].segs, r.what.segs)
  {
    if Lists(t, r, l) {
      forall l' | 0 <= l' < l
        ensures t.lists[l'].verb != r.verb || !SegmentsMatch(t.lists[l'].segs, r.what.segs)
      {
        assert !ListsHere(t, r, l');
      }
    } else if l < |t.lists| && ListsHere(t, r, l) {
      var l' :| 0 <= l' < l && ListsHere(t, r, l');
    }
  }

  /** At step m of the run request i stands at pc and takes action a. */
  ghost predicate StoodAt(t: Tenancy, acts: seq<Action>, i: nat, pc: Pc, a: Action) {
    exists m :: 0 <= m < |acts| && StandsAt(t, acts, i, pc, a, m)
  }

  ghost predicate StandsAt(t: Tenancy, acts: seq<Action>, i: nat, pc: Pc, a: Action, m: nat)
    requires m < |acts|
  {
    acts[m] == a && i < |Run(t, acts[..m]).reqs| && Run(t, acts[..m]).reqs[i].pc == pc
  }

  lemma StoodLater(t: Tenancy, acts: seq<Action>, n: nat, i: nat, pc: Pc, a: Action)
    requires n <= |acts| && StoodAt(t, acts[..n], i, pc, a)
    ensures StoodAt(t, acts, i, pc, a)
  {
    var m :| 0 <= m < n && StandsAt(t, acts[..n], i, pc, a, m);
    assert acts[..n][..m] == acts[..m];
    assert StandsAt(t, acts, i, pc, a, m);
  }

  /** How many delete routes a request has gone through. */
  function DeletesPast(t: Tenancy, r: Request): nat {
    match r.pc
    case Releasing(d) => if d < |t.deletes| then d else |t.deletes|
    case Listing => |t.deletes|
    case _ => 0
  }

  lemma NextRelease(t: Tenancy, o: Ownership, r: Request, a: Action)
    ensures var r' := Next(t, o, r, a);
            || DeletesPast(t, r') <= DeletesPast(t, r)
            || (a.ReleaseNext? && r.pc == Releasing(DeletesPast(t, r)) && DeletesPast(t, r') == DeletesPast(t, r) + 1)
  {
  }

  /** In every run a successful request goes through every delete route before it comes to its list. */
  lemma {:induction false} NoReleaseSkipped(t: Tenancy, acts: seq<Action>, i: nat, d: nat)
    requires i < |Run(t, acts).reqs| && d < DeletesPast(t, Run(t, acts).reqs[i])
    ensures StoodAt(t, acts, i, Releasing(d), ReleaseNext(i))
  {
    var n := |acts| - 1;
    var s, a := Run(t, acts[..n]), acts[n];
    assert i < |s.reqs|;
    SameRequest(t, s, a, i);
    NextRelease(t, s.o, s.reqs[i], a);
    if d < DeletesPast(t, s.reqs[i]) {
      NoReleaseSkipped(t, acts[..n], i, d);
      StoodLater(t, acts, n, i, Releasing(d), ReleaseNext(i));
    } else {
      assert StandsAt(t, acts, i, Releasing(d), ReleaseNext(i), n);
    }
  }

  /** How many create routes a request has gone through. */
  function CreatesPast(t: Tenancy, r: Request): nat {
    match r.pc
    case Claiming(c, _) => if c < |t.creates| then c else |t.creates|
    case Releasing(_) => |t.creates|
    case Listing => |t.creates|
    case _ => 0
  }

  /** At some step of the run request i was at create route c and took its step. */
  ghost predicate CreateTried(t: Tenancy, acts: seq<Action>, i: nat, c: nat) {
    exists ids :: StoodAt(t, acts, i, Claiming(c, ids), ClaimNext(i))
  }

  lemma NextClaim(t: Tenancy, o: Ownership, r: Request, a: Action)
    ensures var r' := Next(t, o, r, a);
            || CreatesPast(t, r') <= CreatesPast(t, r)
            || (a.ClaimNext? && r.pc.Claiming?
                && r.pc.c == CreatesPast(t, r) && CreatesPast(t, r') == CreatesPast(t, r) + 1)
  {
  }

  /** In every run a successful request goes through every create route before it comes to its releases. */
  lemma {:induction false} NoCreateSkipped(t: Tenancy, acts: seq<Action>, i: nat, c: nat)
    requires i < |Run(t, acts).reqs| && c < CreatesPast(t, Run(t, acts).reqs[i])
    ensures CreateTried(t, acts, i, c)
  {
    var n := |acts| - 1;
    var s, a := Run(t, acts[..n]), acts[n];
    assert i < |s.reqs|;
    SameRequest(t, s, a, i);
    NextClaim(t, s.o, s.reqs[i], a);
    if c < CreatesPast(t, s.reqs[i]) {
      NoCreateSkipped(t, acts[..n], i, c);
      var ids :| StoodAt(t, acts[..n], i, Claiming(c, ids), ClaimNext(i));
      StoodLater(t, acts, n, i, Claiming(c, ids), ClaimNext(i));
    } else {
      assert StandsAt(t, acts, i, Claiming(c, s.reqs[i].pc.ids), ClaimNext(i), n);
      assert StoodAt(t, acts, i, Claiming(c, s.reqs[i].pc.ids), ClaimNext(i));
    }
  }

  // ---- which releases are authorised ----

  /** Request r names, and so is checked for, what delete route d makes it release. */
  ghost predicate Covered(t: Tenancy, r: Request, d: nat)
    requires Deletes(t, r, d)
  {
    DeletedRef(t, r, d) in Named(t, r)
  }

  /** Every admitted request shape on which a delete route fires is covered. */
  ghost predicate AllCovered(t: Tenancy) {
    forall r: Request, d: nat :: Admitted(t, r) && Deletes(t, r, d) ==> Covered(t, r, d)
  }

  /** Each delete route's param is declared, with the route's own type. */
  predicate Aligned(t: Tenancy) {
    forall d :: 0 <= d < |t.deletes| ==>
      t.deletes[d].param in t.cfg.paramTypes && t.cfg.paramTypes[t.deletes[d].param] == t.deletes[d].rtype
  }

  lemma AlignedIsCovered(t: Tenancy)
    requires Guarded(t) && Aligned(t)
    ensures AllCovered(t)
  {
    forall r: Request, d: nat | Admitted(t, r) && Deletes(t, r, d) ensures Covered(t, r, d) {
      assert DeletedRef(t, r, d) in PathRefs(t.cfg.paramTypes, Params(t, r));
    }
  }

  /** A request past its checks was admitted. */
  lemma {:induction false} PastWasAdmitted(t: Tenancy, acts: seq<Action>, i: nat)
    requires i < |Run(t, acts).reqs| && !Run(t, acts).reqs[i].pc.Refused?
    ensures Admitted(t, Run(t, acts).reqs[i]) && Run(t, acts).reqs[i].caller != ""
  {
    var n := |acts| - 1;
    var s, a := Run(t, acts[..n]), acts[n];
    if i < |s.reqs| {
      SameRequest(t, s, a, i);
      PastWasAdmitted(t, acts[..n], i);
    }
  }

  /**
   A covered release drops a row that the releasing request's caller owned at a moment when that
   request's checks were running.
   */
  lemma ReleasedWasOwned(t: Tenancy, acts: seq<Action>, a: Action, x: Ref)
    requires Releases(t, Run(t, acts), a, x) && Covered(t, Run(t, acts).reqs[a.i], Run(t, acts).reqs[a.i].pc.d)
    ensures WasOwned(t, acts, a.i, x)
  {
    PassedWereOwned(t, acts, a.i, x);
  }

  // ---- whose row a release drops ----

  predicate HeldBy(o: Ownership, row: Resource, caller: string) {
    row in o && o[row] == caller
  }

  /** Action a, taken in s, is a claim of the resource, by caller, while nobody holds it. */
  predicate Takes(t: Tenancy, s: Sys, a: Action, x: Ref, caller: string) {
    && !a.Arrive? && a.i < |s.reqs| && ClaimOf(t, s.reqs[a.i], a) == Some(x) && s.reqs[a.i].caller == caller
    && x.rid != "" && caller != "" && Row(t, x) !in s.o
  }

  ghost predicate TakenAt(t: Tenancy, acts: seq<Action>, k: nat, x: Ref, caller: string) {
    k < |acts| && Takes(t, Run(t, acts[..k]), acts[k], x, caller)
  }

  ghost predicate LastTake(t: Tenancy, acts: seq<Action>, k: nat, x: Ref, caller: string) {
    TakenAt(t, acts, k, x, caller) && KeptSince(t, acts, k + 1, x)
  }

  ghost predicate LastTakenBy(t: Tenancy, acts: seq<Action>, x: Ref, caller: string) {
    exists k :: 0 <= k < |acts| && LastTake(t, acts, k, x, caller)
  }

  /** One step changes an owner only by taking a free row or by releasing it. */
  lemma StepOwner(t: Tenancy, s: Sys, a: Action, x: Ref, caller: string)
    ensures HeldBy(Step(t, s, a).o, Row(t, x), caller)
            <==> Takes(t, s, a, x, caller) || (HeldBy(s.o, Row(t, x), caller) && !Releases(t, s, a, x))
  {
  }

  lemma Earlier(t: Tenancy, acts: seq<Action>, n: nat, k: nat, x: Ref, caller: string)
    requires k < n <= |acts|
    ensures TakenAt(t, acts[..n], k, x, caller) == TakenAt(t, acts, k, x, caller)
    ensures DroppedAt(t, acts[..n], k, x) == DroppedAt(t, acts, k, x)
  {
    assert acts[..n][..k] == acts[..k];
  }

  lemma LastTakeShorter(t: Tenancy, acts: seq<Action>, k: nat, x: Ref, caller: string)
    requires k < |acts| - 1 && LastTake(t, acts, k, x, caller)
    ensures LastTake(t, acts[..|acts| - 1], k, x, caller) && !DroppedAt(t, acts, |acts| - 1, x)
  {
    Earlier(t, acts, |acts| - 1, k, x, caller);
    KeptShorter(t, acts, k + 1, |acts| - 1, x);
  }

  lemma LastTakeLonger(t: Tenancy, acts: seq<Action>, k: nat, x: Ref, caller: string)
    requires k < |acts| - 1 && LastTake(t, acts[..|acts| - 1], k, x, caller) && !DroppedAt(t, acts, |acts| - 1, x)
    ensures LastTake(t, acts, k, x, caller)
  {
    Earlier(t, acts, |acts| - 1, k, x, caller);
    KeptLonger(t, acts, k + 1, x);
  }

  lemma LastTakenStep(t: Tenancy, acts: seq<Action>, x: Ref, caller: string)
    requires acts != []
    ensures var n := |acts| - 1;
            LastTakenBy(t, acts, x, caller)
            <==> TakenAt(t, acts, n, x, caller) || (LastTakenBy(t, acts[..n], x, caller) && !DroppedAt(t, acts, n, x))
  {
    var n := |acts| - 1;
    if k :| 0 <= k < |acts| && LastTake(t, acts, k, x, caller) {
      if k < n {
        LastTakeShorter(t, acts, k, x, caller);
      }
    }
    if TakenAt(t, acts, n, x, caller) {
      assert LastTake(t, acts, n, x, caller);
    } else if !DroppedAt(t, acts, n, x) {
      if k :| 0 <= k < n && LastTake(t, acts[..n], k, x, caller) {
        LastTakeLonger(t, acts, k, x, caller);
      }
    }
  }

  lemma KeptLonger(t: Tenancy, acts: seq<Action>, m: nat, x: Ref)
    requires acts != [] && KeptSince(t, acts[..|acts| - 1], m, x) && !DroppedAt(t, acts, |acts| - 1, x)
    ensures KeptSince(t, acts, m, x)
  {
    var n := |acts| - 1;
    forall j | m <= j < n ensures !DroppedAt(t, acts, j, x) {
      assert acts[..n][..j] == acts[..j] && !DroppedAt(t, acts[..n], j, x);
    }
  }

  /** Whoever holds a row is whoever took it after its last release. */
  lemma {:induction false} OwnerIsLastTaker(t: Tenancy, acts: seq<Action>, x: Ref, caller: string)
    ensures HeldBy(Run(t, acts).o, Row(t, x), caller) <==> LastTakenBy(t, acts, x, caller)
  {
    if acts != [] {
      var n := |acts| - 1;
      OwnerIsLastTaker(t, acts[..n], x, caller);
      StepOwner(t, Run(t, acts[..n]), acts[n], x, caller);
      LastTakenStep(t, acts, x, caller);
    }
  }

  lemma DroppedBetween(t: Tenancy, acts: seq<Action>, m: nat, k': nat, x: Ref)
    requires m <= k' <= |acts| && Row(t, x) in Run(t, acts[..m]).o && Row(t, x) !in Run(t, acts[..k']).o
    ensures exists k :: m <= k < k' && DroppedAt(t, acts, k, x)
  {
    if forall k :: m <= k < k' ==> !DroppedAt(t, acts, k, x) {
      forall j | m <= j < k' ensures !DroppedAt(t, acts[..k'], j, x) {
        Earlier(t, acts, k', j, x, "");
      }
      assert acts[..k'][..m] == acts[..m];
      OwnerPersists(t, acts[..k'], m, x);
    }
  }

  /** Since step m some step released the row, and holder was the last to take it after that. */
  ghost predicate TakenOver(t: Tenancy, acts: seq<Action>, m: nat, x: Ref, holder: string) {
    exists k, k' :: m <= k < k' < |acts|
                    && DroppedAt(t, acts, k, x) && LastTake(t, acts, k', x, holder)
  }

  lemma LastTakerTookOver(t: Tenancy, acts: seq<Action>, m: nat, x: Ref, holder: string)
    requires m <= |acts| && Row(t, x) in Run(t, acts[..m]).o
    requires !KeptSince(t, acts, m, x) && LastTakenBy(t, acts, x, holder)
    ensures TakenOver(t, acts, m, x, holder)
  {
    var k' :| 0 <= k' < |acts| && LastTake(t, acts, k', x, holder);
    var j :| m <= j < |acts| && DroppedAt(t, acts, j, x);
    assert m <= k';
    DroppedBetween(t, acts, m, k', x);
  }

  /** Whoever holds a row held at m by c: c if nothing released it since, otherwise who took it over. */
  lemma HolderSince(t: Tenancy, acts: seq<Action>, m: nat, x: Ref, c: string, holder: string)
    requires m <= |acts| && HeldBy(Run(t, acts[..m]).o, Row(t, x), c)
    ensures HeldBy(Run(t, acts).o, Row(t, x), holder)
       <==> TakenOver(t, acts, m, x, holder) || (holder == c && KeptSince(t, acts, m, x))
  {
    OwnerIsLastTaker(t, acts, x, holder);
    if KeptSince(t, acts, m, x) {
      OwnerPersists(t, acts, m, x);
    } else if LastTakenBy(t, acts, x, holder) {
      LastTakerTookOver(t, acts, m, x, holder);
    }
  }

  /** Who holds the row now, given that c owned it at m. */
  ghost predicate HeldSince(t: Tenancy, acts: seq<Action>, m: nat, x: Ref, c: string) {
    && (Owns(Run(t, acts).o, Row(t, x), c) <==> KeptSince(t, acts, m, x) || TakenOver(t, acts, m, x, c))
    && (forall other :: other != c ==> (HeldBy(Run(t, acts).o, Row(t, x), other) <==> TakenOver(t, acts, m, x, other)))
  }

  lemma ChecksDecide(t: Tenancy, acts: seq<Action>, m: nat, x: Ref, c: string)
    requires m <= |acts| && Owns(Run(t, acts[..m]).o, Row(t, x), c)
    ensures HeldSince(t, acts, m, x, c)
  {
    HolderSince(t, acts, m, x, c, c);
    forall other | other != c
      ensures HeldBy(Run(t, acts).o, Row(t, x), other) <==> TakenOver(t, acts, m, x, other)
    {
      HolderSince(t, acts, m, x, c, other);
    }
  }

  lemma LastShape(t: Tenancy, acts: seq<Action>, i: nat)
    requires acts != [] && i < |Run(t, acts[..|acts| - 1]).reqs|
    ensures i < |Run(t, acts).reqs| && SameShape(Run(t, acts).reqs[i], Run(t, acts[..|acts| - 1]).reqs[i])
  {
    StepShape(t, Run(t, acts[..|acts| - 1]), acts[|acts| - 1], i);
  }

  lemma {:induction false} ShapeStays(t: Tenancy, acts: seq<Action>, m: nat, i: nat)
    requires m <= |acts| && i < |Run(t, acts[..m]).reqs|
    ensures i < |Run(t, acts).reqs| && SameShape(Run(t, acts).reqs[i], Run(t, acts[..m]).reqs[i])
    decreases |acts|
  {
    if m < |acts| {
      assert acts[..|acts| - 1][..m] == acts[..m];
      ShapeStays(t, acts[..|acts| - 1], m, i);
      LastShape(t, acts, i);
    } else {
      assert acts[..m] == acts;
    }
  }

  /**
   A covered release was authorised while its caller owned the row. At the release the row is still
   that caller's unless something released it since; and it is another caller's if and only if,
   since that check, some step released it and the other caller then claimed it.
   */
  lemma ReleaseIsOwnUnlessTakenOver(t: Tenancy, acts: seq<Action>, a: Action, x: Ref)
    requires Releases(t, Run(t, acts), a, x) && Covered(t, Run(t, acts).reqs[a.i], Run(t, acts).reqs[a.i].pc.d)
    ensures WasOwned(t, acts, a.i, x)
    ensures forall m: nat :: m <= |acts| && OwnedAt(t, acts, a.i, x, m) ==>
              HeldSince(t, acts, m, x, Run(t, acts).reqs[a.i].caller)
  {
    ReleasedWasOwned(t, acts, a, x);
    forall m: nat | m <= |acts| && OwnedAt(t, acts, a.i, x, m)
      ensures HeldSince(t, acts, m, x, Run(t, acts).reqs[a.i].caller)
    {
      ShapeStays(t, acts, m, a.i);
      ChecksDecide(t, acts, m, x, Run(t, acts).reqs[a.i].caller);
    }
  }
}
