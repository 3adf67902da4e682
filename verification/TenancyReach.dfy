/**
 Which ledgers and which releases the runs of a tenancy can reach: what can ever be owned, and the
 runs that show why the conditions on releases are there. Every run is built from requests that the
 allow-list admits and from claims that a route of the tenancy makes.
 */
module TenancyReach {
  import opened Text
  import opened Json
  import opened Owners
  import opened Routes
  import opened RequestGate
  import opened ListFilter
  import opened TenancyRuns

  // ---- what can ever be owned ----

  ghost predicate MakesBy(t: Tenancy, r: Request, c: nat, ty: string) {
    Admitted(t, r) && Creates(t, r, c) && t.creates[c].rtype == ty
  }

  ghost predicate ListsAs(t: Tenancy, r: Request, l: nat, k: nat, ty: string) {
    && Admitted(t, r) && Lists(t, r, l) && k < |t.lists[l].route.links|
    && t.lists[l].route.claimAs == ty && ty != ""
  }

  /**
   How to come to own rows of a type: a request that creates one, or lists it by a link to another
   row, and a plan for every type that the request names or the link points to.
   */
  datatype Plan =
    | ByCreate(r: Request, c: nat, subs: map<string, Plan>)
    | ByList(r: Request, l: nat, k: nat, subs: map<string, Plan>)

  predicate Supplies(subs: map<string, Plan>, xs: set<Ref>) {
    forall x :: x in xs ==> x.rid != "" && x.rtype in subs
  }

  ghost predicate Leads(t: Tenancy, p: Plan, ty: string) {
    && Supplies(p.subs, Named(t, p.r))
    && match p
       case ByCreate(r, c, _) => MakesBy(t, r, c, ty)
       case ByList(r, l, k, subs) => ListsAs(t, r, l, k, ty) && t.lists[l].route.links[k].rtype in subs
  }

  ghost predicate Works(t: Tenancy, p: Plan, ty: string)
    decreases p
  {
    Leads(t, p, ty) && forall ty' :: ty' in p.subs ==> Works(t, p.subs[ty'], ty')
  }

  /** A caller who owns nothing can get there by claims alone. */
  ghost predicate Attainable(t: Tenancy, ty: string) {
    exists p :: Works(t, p, ty)
  }

  ghost predicate AllWork(t: Tenancy, subs: map<string, Plan>) {
    forall ty :: ty in subs ==> Works(t, subs[ty], ty)
  }

  /** In every run only attainable types are ever in the ledger. */
  lemma {:induction false} HeldIsAttainable(t: Tenancy, acts: seq<Action>, x: Ref) returns (p: Plan)
    requires Row(t, x) in Run(t, acts).o
    ensures Works(t, p, x.rtype)
    decreases |acts|, 0, 0
  {
    var n := |acts| - 1;
    var s, a := Run(t, acts[..n]), acts[n];
    if Row(t, x) in s.o {
      p := HeldIsAttainable(t, acts[..n], x);
    } else {
      StepOwner(t, s, a, x, Run(t, acts).o[Row(t, x)]);
      p := ClaimedIsAttainable(t, acts[..n], a, x);
    }
  }

  /** What a request claims is attainable, because what it names and what its list row links to was held. */
  lemma {:induction false} ClaimedIsAttainable(t: Tenancy, acts: seq<Action>, a: Action, x: Ref) returns (p: Plan)
    requires !a.Arrive? && a.i < |Run(t, acts).reqs| && ClaimOf(t, Run(t, acts).reqs[a.i], a) == Some(x)
    ensures Works(t, p, x.rtype)
    decreases |acts|, 3, 0
  {
    var r := Run(t, acts).reqs[a.i];
    PastWasAdmitted(t, acts, a.i);
    var subs := PlansFor(t, acts, a.i, Named(t, r));
    if a.ClaimNext? {
      p := ByCreate(r, r.pc.c, subs);
    } else {
      var sh := r.shown[a.n];
      var ty, q := LinkIsAttainable(t, acts, a.i, a.n);
      p := ByList(r, sh.l, sh.k, subs[ty := q]);
    }
  }

  /** Everything a request past its checks names is attainable. */
  lemma {:induction false} PlansFor(t: Tenancy, acts: seq<Action>, i: nat, xs: set<Ref>)
    returns (subs: map<string, Plan>)
    requires i < |Run(t, acts).reqs| && xs <= Named(t, Run(t, acts).reqs[i])
    requires !Run(t, acts).reqs[i].pc.Refused? && !Run(t, acts).reqs[i].pc.Checking?
    ensures Supplies(subs, xs) && AllWork(t, subs)
    decreases |acts|, 2, |xs|
  {
    if xs == {} {
      return map[];
    }
    var x :| x in xs;
    subs := PlansFor(t, acts, i, xs - {x});
    var p := PlanForNamed(t, acts, i, x);
    subs := subs[x.rtype := p];
  }

  lemma {:induction false} PlanForNamed(t: Tenancy, acts: seq<Action>, i: nat, x: Ref) returns (p: Plan)
    requires i < |Run(t, acts).reqs| && Past(t, Run(t, acts).reqs[i], x)
    ensures Works(t, p, x.rtype) && x.rid != ""
    decreases |acts|, 1, 0
  {
    PassedWereOwned(t, acts, i, x);
    var m :| 0 <= m <= |acts| && OwnedAt(t, acts, i, x, m);
    p := HeldIsAttainable(t, acts[..m], x);
  }

  lemma {:induction false} LinkIsAttainable(t: Tenancy, acts: seq<Action>, i: nat, n: nat) returns (ty: string, p: Plan)
    requires i < |Run(t, acts).reqs| && n < |Run(t, acts).reqs[i].shown|
    ensures var r := Run(t, acts).reqs[i];
            var sh := r.shown[n];
            && Lists(t, r, sh.l) && sh.k < |t.lists[sh.l].route.links| && t.lists[sh.l].route.links[sh.k].rtype == ty
    ensures Works(t, p, ty)
    decreases |acts|, 1, 0
  {
    var r := Run(t, acts).reqs[i];
    var sh := r.shown[n];
    ShownWereLinked(t, acts, i, n);
    var m :| 0 <= m < |acts| && LinkedAt(t, acts, i, sh, m);
    ShapeStays(t, acts, m, i);
    SameLists(t, Run(t, acts[..m]).reqs[i], r, sh.l);
    var link := t.lists[sh.l].route.links[sh.k];
    ty := link.rtype;
    p := HeldIsAttainable(t, acts[..m], Ref(ty, AsID(sh.el.fields[link.field]).value));
  }

  lemma SameLists(t: Tenancy, r: Request, r': Request, l: nat)
    requires SameShape(r, r')
    ensures Lists(t, r, l) == Lists(t, r', l)
  {
    assert forall l': nat :: ListsHere(t, r, l') == ListsHere(t, r', l');
  }

  // ---- building runs ----

  /** acts extends to acts' without a release step. */
  predicate Quiet(acts: seq<Action>, acts': seq<Action>) {
    acts <= acts' && forall j :: |acts| <= j < |acts'| ==> !acts'[j].ReleaseNext?
  }

  /** A request of this caller's that has not arrived yet. */
  function Fresh(r: Request, caller: string): Request {
    Request(caller, r.verb, r.what, Refused, [])
  }

  lemma FreshSame(t: Tenancy, r: Request, caller: string)
    ensures Admitted(t, Fresh(r, caller)) == Admitted(t, r) && Named(t, Fresh(r, caller)) == Named(t, r)
    ensures forall d: nat :: Deletes(t, Fresh(r, caller), d) == Deletes(t, r, d)
    ensures forall d: nat :: Deletes(t, r, d) ==> DeletedRef(t, Fresh(r, caller), d) == DeletedRef(t, r, d)
    ensures forall c: nat :: Creates(t, Fresh(r, caller), c) == Creates(t, r, c)
    ensures forall l: nat :: Lists(t, Fresh(r, caller), l) == Lists(t, r, l)
  {
    assert forall l: nat :: ListsHere(t, Fresh(r, caller), l) == ListsHere(t, r, l);
  }

  predicate OwnsAll(t: Tenancy, o: Ownership, xs: set<Ref>, caller: string) {
    forall x :: x in xs ==> Owns(o, Row(t, x), caller)
  }

  /** A request whose caller owns what is left to check passes. */
  lemma {:induction false} PassesChecks(t: Tenancy, acts: seq<Action>, i: nat) returns (acts': seq<Action>)
    requires IsChecking(Run(t, acts), i)
    requires OwnsAll(t, Run(t, acts).o, Run(t, acts).reqs[i].pc.todo, Run(t, acts).reqs[i].caller)
    ensures Quiet(acts, acts')
    ensures var s := Run(t, acts);
            Run(t, acts') == s.(reqs := s.reqs[i := s.reqs[i].(pc := Checking({}))])
    decreases |Run(t, acts).reqs[i].pc.todo|
  {
    var s := Run(t, acts);
    if s.reqs[i].pc.todo == {} {
      assert s.reqs[i := s.reqs[i].(pc := Checking({}))] == s.reqs;
      return acts;
    }
    var x :| x in s.reqs[i].pc.todo;
    RunStep(t, acts, CheckRef(i, x));
    acts' := PassesChecks(t, acts + [CheckRef(i, x)], i);
  }

  lemma ArrivesChecking(t: Tenancy, acts: seq<Action>, r: Request)
    requires r.pc == Refused && r.shown == [] && r.caller != "" && Admitted(t, r)
    ensures var s := Run(t, acts);
            Run(t, acts + [Arrive(r.caller, r.verb, r.what)])
            == s.(reqs := s.reqs + [r.(pc := Checking(Named(t, r)))])
  {
    RunStep(t, acts, Arrive(r.caller, r.verb, r.what));
  }

  lemma Answers(t: Tenancy, acts: seq<Action>, i: nat, ids: map<string, string>)
    requires i < |Run(t, acts).reqs| && Run(t, acts).reqs[i].pc == Checking({})
    ensures var s := Run(t, acts);
            Run(t, acts + [Answered(i, Some(ids))]) == s.(reqs := s.reqs[i := s.reqs[i].(pc := Claiming(0, ids))])
  {
    RunStep(t, acts, Answered(i, Some(ids)));
  }

  /** An admitted request whose caller owns what it names is answered 2xx, spelling these ids. */
  lemma GetsThrough(t: Tenancy, acts: seq<Action>, r: Request, ids: map<string, string>) returns (acts': seq<Action>)
    requires r.pc == Refused && r.shown == [] && r.caller != "" && Admitted(t, r)
    requires OwnsAll(t, Run(t, acts).o, Named(t, r), r.caller)
    ensures Quiet(acts, acts')
    ensures var s := Run(t, acts);
            Run(t, acts') == s.(reqs := s.reqs + [r.(pc := Claiming(0, ids))])
  {
    var s, i := Run(t, acts), |Run(t, acts).reqs|;
    ArrivesChecking(t, acts, r);
    var a1 := PassesChecks(t, acts + [Arrive(r.caller, r.verb, r.what)], i);
    Answers(t, a1, i, ids);
    acts' := a1 + [Answered(i, Some(ids))];
  }

  /** The ledger once the first n create routes have been gone through. */
  function ClaimedUpTo(t: Tenancy, o: Ownership, r: Request, ids: map<string, string>, n: nat): Ownership {
    if n == 0 then o
    else
      var o1 := ClaimedUpTo(t, o, r, ids, n - 1);
      if Creates(t, r, n - 1) && t.creates[n - 1].idField in ids
      then Claim(o1, Row(t, Ref(t.creates[n - 1].rtype, ids[t.creates[n - 1].idField])), r.caller)
      else o1
  }

  lemma ClaimStep(t: Tenancy, acts: seq<Action>, i: nat, o: Ownership, r: Request, n: nat)
    requires n < |t.creates| && i < |Run(t, acts).reqs| && r.pc.Claiming?
    requires Run(t, acts).reqs[i] == r.(pc := Claiming(n, r.pc.ids))
    requires Run(t, acts).o == ClaimedUpTo(t, o, r, r.pc.ids, n)
    ensures var s := Run(t, acts);
            Run(t, acts + [ClaimNext(i)])
            == Sys(ClaimedUpTo(t, o, r, r.pc.ids, n + 1), s.reqs[i := r.(pc := Claiming(n + 1, r.pc.ids))])
  {
    RunStep(t, acts, ClaimNext(i));
    assert Creates(t, r.(pc := Claiming(n, r.pc.ids)), n) == Creates(t, r, n);
  }

  lemma {:induction false} WalkClaims(t: Tenancy, acts: seq<Action>, i: nat, n: nat) returns (acts': seq<Action>)
    requires n <= |t.creates| && i < |Run(t, acts).reqs|
    requires Run(t, acts).reqs[i].pc.Claiming? && Run(t, acts).reqs[i].pc.c == 0
    ensures Quiet(acts, acts')
    ensures var s := Run(t, acts);
            var r := s.reqs[i];
            Run(t, acts') == Sys(ClaimedUpTo(t, s.o, r, r.pc.ids, n), s.reqs[i := r.(pc := Claiming(n, r.pc.ids))])
  {
    var s := Run(t, acts);
    if n == 0 {
      assert s.reqs[i := s.reqs[i].(pc := Claiming(0, s.reqs[i].pc.ids))] == s.reqs;
      return acts;
    }
    var a1 := WalkClaims(t, acts, i, n - 1);
    ClaimStep(t, a1, i, s.o, s.reqs[i], n - 1);
    acts' := a1 + [ClaimNext(i)];
  }

  /** An answer that spells no id claims nothing, and the request comes to its releases. */
  lemma {:induction false} NothingClaimed(t: Tenancy, o: Ownership, r: Request, n: nat)
    ensures ClaimedUpTo(t, o, r, map[], n) == o
  {
    if n > 0 {
      NothingClaimed(t, o, r, n - 1);
    }
  }

  lemma GetsToReleases(t: Tenancy, acts: seq<Action>, r: Request) returns (acts': seq<Action>)
    requires r.pc == Refused && r.shown == [] && r.caller != "" && Admitted(t, r)
    requires OwnsAll(t, Run(t, acts).o, Named(t, r), r.caller)
    ensures Quiet(acts, acts')
    ensures var s := Run(t, acts);
            Run(t, acts') == s.(reqs := s.reqs + [r.(pc := Releasing(0))])
  {
    var s, i := Run(t, acts), |Run(t, acts).reqs|;
    var a1 := GetsThrough(t, acts, r, map[]);
    var a2 := WalkClaims(t, a1, i, |t.creates|);
    NothingClaimed(t, s.o, r.(pc := Claiming(0, map[])), |t.creates|);
    RunStep(t, a2, ClaimNext(i));
    acts' := a2 + [ClaimNext(i)];
  }

  /** Some delete route before d makes r release x. */
  predicate DropsBefore(t: Tenancy, r: Request, d: nat, x: Ref) {
    exists d' :: 0 <= d' < d && Deletes(t, r, d') && DeletedRef(t, r, d') == x
  }

  /** Between s and s' request i has gone through its first d delete routes, and nothing else has happened. */
  ghost predicate Walked(t: Tenancy, s: Sys, s': Sys, i: nat, d: nat)
    requires i < |s.reqs|
  {
    && s'.reqs == s.reqs[i := s.reqs[i].(pc := Releasing(d))]
    && (forall row :: row in s'.o ==> row in s.o && s'.o[row] == s.o[row])
    && (forall x :: Row(t, x) in s'.o <==> Row(t, x) in s.o && !DropsBefore(t, s.reqs[i], d, x))
  }

  ghost predicate KeepsOthers(t: Tenancy, acts: seq<Action>, acts': seq<Action>, r: Request, d: nat) {
    acts <= acts' && forall x :: !DropsBefore(t, r, d, x) ==> KeptSince(t, acts', |acts|, x)
  }

  /** Going through the first d delete routes releases just what they say. */
  lemma {:induction false} WalkReleases(t: Tenancy, acts: seq<Action>, i: nat, d: nat) returns (acts': seq<Action>)
    requires d <= |t.deletes| && i < |Run(t, acts).reqs| && Run(t, acts).reqs[i].pc == Releasing(0)
    ensures Walked(t, Run(t, acts), Run(t, acts'), i, d)
    ensures KeepsOthers(t, acts, acts', Run(t, acts).reqs[i], d)
  {
    var s := Run(t, acts);
    if d == 0 {
      assert s.reqs[i := s.reqs[i].(pc := Releasing(0))] == s.reqs;
      return acts;
    }
    var a1 := WalkReleases(t, acts, i, d - 1);
    acts' := a1 + [ReleaseNext(i)];
    WalkedMore(t, s, a1, i, d - 1);
    KeepsMore(t, acts, a1, i, d - 1, s.reqs[i]);
  }

  lemma WalkedMore(t: Tenancy, s: Sys, a1: seq<Action>, i: nat, d: nat)
    requires d < |t.deletes| && i < |s.reqs| && Walked(t, s, Run(t, a1), i, d)
    ensures Walked(t, s, Run(t, a1 + [ReleaseNext(i)]), i, d + 1)
  {
    RunStep(t, a1, ReleaseNext(i));
    WalkStep(t, Run(t, a1), i, d, s.reqs[i]);
  }

  lemma KeepsMore(t: Tenancy, acts: seq<Action>, a1: seq<Action>, i: nat, d: nat, r: Request)
    requires d < |t.deletes| && i < |Run(t, a1).reqs| && Run(t, a1).reqs[i] == r.(pc := Releasing(d))
    requires KeepsOthers(t, acts, a1, r, d)
    ensures KeepsOthers(t, acts, a1 + [ReleaseNext(i)], r, d + 1)
  {
    WalkStep(t, Run(t, a1), i, d, r);
    forall x | !DropsBefore(t, r, d + 1, x) ensures KeptSince(t, a1 + [ReleaseNext(i)], |acts|, x) {
      assert !DropsBefore(t, r, d, x);
      KeptOneMore(t, acts, a1, ReleaseNext(i), x);
    }
  }

  lemma WalkStep(t: Tenancy, s: Sys, i: nat, d: nat, r: Request)
    requires d < |t.deletes| && i < |s.reqs| && s.reqs[i] == r.(pc := Releasing(d))
    ensures var s' := Step(t, s, ReleaseNext(i));
            && s'.reqs == s.reqs[i := r.(pc := Releasing(d + 1))]
            && (forall row :: row in s'.o ==> row in s.o && s'.o[row] == s.o[row])
            && (forall x :: Row(t, x) in s'.o <==>
                  Row(t, x) in s.o && !(Deletes(t, r, d) && DeletedRef(t, r, d) == x))
            && (forall x :: Releases(t, s, ReleaseNext(i), x) <==> Deletes(t, r, d) && DeletedRef(t, r, d) == x)
  {
  }

  lemma KeptOneMore(t: Tenancy, acts: seq<Action>, acts': seq<Action>, a: Action, x: Ref)
    requires acts <= acts' && KeptSince(t, acts', |acts|, x) && !Releases(t, Run(t, acts'), a, x)
    ensures KeptSince(t, acts' + [a], |acts|, x)
  {
    var more := acts' + [a];
    forall j | |acts| <= j < |more| ensures !DroppedAt(t, more, j, x) {
      if j < |acts'| {
        assert more[..j] == acts'[..j] && !DroppedAt(t, acts', j, x);
      } else {
        assert more[..j] == acts';
      }
    }
  }

  // ---- every attainable type can be owned ----

  /** Only this caller owns anything. */
  predicate Solo(o: Ownership, caller: string) {
    forall row :: row in o ==> o[row] == caller
  }

  lemma {:induction false} ClaimsStaySolo(t: Tenancy, o: Ownership, r: Request, ids: map<string, string>, n: nat)
    requires Solo(o, r.caller)
    ensures Solo(ClaimedUpTo(t, o, r, ids, n), r.caller)
  {
    if n > 0 {
      ClaimsStaySolo(t, o, r, ids, n - 1);
    }
  }

  /** Request r of caller is one step from claiming x. */
  predicate Ready(t: Tenancy, r: Request, x: Ref, caller: string, a: Action) {
    r.caller == caller && !a.Arrive? && ClaimOf(t, r, a) == Some(x)
  }

  /** Caller alone has acted, only requests from n on have moved, and one of them is about to claim x. */
  ghost predicate GetsReady(t: Tenancy, s: Sys, s': Sys, x: Ref, caller: string, a: Action) {
    && s.reqs <= s'.reqs && Solo(s'.o, caller)
    && !a.Arrive? && |s.reqs| <= a.i < |s'.reqs| && Ready(t, s'.reqs[a.i], x, caller, a)
  }

  /** A create request whose caller owns what it names can be answered with the id asked for. */
  lemma CreateGetsReady(t: Tenancy, acts: seq<Action>, r: Request, c: nat, x: Ref)
    returns (acts': seq<Action>, a: Action)
    requires r.pc == Refused && r.shown == [] && r.caller != "" && Solo(Run(t, acts).o, r.caller)
    requires MakesBy(t, r, c, x.rtype) && OwnsAll(t, Run(t, acts).o, Named(t, r), r.caller)
    ensures GetsReady(t, Run(t, acts), Run(t, acts'), x, r.caller, a)
  {
    var i := |Run(t, acts).reqs|;
    var ids := map[t.creates[c].idField := x.rid];
    var a1 := GetsThrough(t, acts, r, ids);
    acts' := WalkClaims(t, a1, i, c);
    ClaimsStaySolo(t, Run(t, acts).o, r.(pc := Claiming(0, ids)), ids, c);
    a := ClaimNext(i);
    assert Run(t, acts').reqs == Run(t, acts).reqs + [r.(pc := Claiming(c, ids))];
    assert Creates(t, r.(pc := Claiming(c, ids)), c);
  }

  /** A list request whose caller owns what it names comes to filter its answer; its releases are done by then. */
  lemma GetsToListing(t: Tenancy, acts: seq<Action>, r: Request) returns (acts': seq<Action>)
    requires r.pc == Refused && r.shown == [] && r.caller != "" && Admitted(t, r) && Solo(Run(t, acts).o, r.caller)
    requires OwnsAll(t, Run(t, acts).o, Named(t, r), r.caller)
    ensures Run(t, acts').reqs == Run(t, acts).reqs + [r.(pc := Listing)] && Solo(Run(t, acts').o, r.caller)
  {
    var i := |Run(t, acts).reqs|;
    var a1 := GetsToReleases(t, acts, r);
    var a2 := WalkReleases(t, a1, i, |t.deletes|);
    RunStep(t, a2, ReleaseNext(i));
    acts' := a2 + [ReleaseNext(i)];
  }

  /** A list row whose k-th link is the resource named id, and whose own id is the same. */
  function LinkRow(route: ListRoute, k: nat, id: string): Tree
    requires k < |route.links|
  {
    TObj(map[route.links[k].field := TStr(id), route.claimField := TStr(id)])
  }

  /** A list request shown a row that is linked to its caller may claim the row's own id. */
  lemma LinkGetsReady(t: Tenancy, acts: seq<Action>, i: nat, l: nat, k: nat, x: Ref)
    returns (acts': seq<Action>, a: Action)
    requires i < |Run(t, acts).reqs| && x.rid != ""
    requires var r := Run(t, acts).reqs[i];
             && r.pc == Listing && r.shown == [] && r.caller != "" && Lists(t, r, l)
             && k < |t.lists[l].route.links| && t.lists[l].route.claimAs == x.rtype && x.rtype != ""
             && Owns(Run(t, acts).o, Row(t, Ref(t.lists[l].route.links[k].rtype, x.rid)), r.caller)
    ensures var s, s' := Run(t, acts), Run(t, acts');
            && s'.o == s.o && |s'.reqs| == |s.reqs| && s'.reqs[..i] == s.reqs[..i]
            && a == ClaimShown(i, 0) && Ready(t, s'.reqs[i], x, s.reqs[i].caller, a)
  {
    var s := Run(t, acts);
    var sh := Shown(l, LinkRow(t.lists[l].route, k, x.rid), k);
    assert LinkHolds(t, s.o, s.reqs[i], sh);
    RunStep(t, acts, ReadLink(i, sh));
    acts' := acts + [ReadLink(i, sh)];
    a := ClaimShown(i, 0);
    assert Run(t, acts').reqs[i] == s.reqs[i].(shown := [sh]);
    assert ShownRef(t, sh) == Some(x);
  }

  lemma {:induction false} ReadyByCreate(t: Tenancy, acts: seq<Action>, p: Plan, x: Ref, caller: string)
    returns (acts': seq<Action>, a: Action)
    requires p.ByCreate? && Leads(t, p, x.rtype) && AllWork(t, p.subs)
    requires caller != "" && Solo(Run(t, acts).o, caller)
    ensures GetsReady(t, Run(t, acts), Run(t, acts'), x, caller, a)
    decreases p, 1, 0
  {
    var r := Fresh(p.r, caller);
    FreshSame(t, p.r, caller);
    var a1 := OwnAll(t, acts, Named(t, r), p, caller);
    acts', a := CreateGetsReady(t, a1, r, p.c, x);
  }

  /** A list request that filters its answer, once its caller owns what the link points at. */
  lemma {:induction false} ReadyByLink(t: Tenancy, acts: seq<Action>, i: nat, p: Plan, x: Ref, caller: string)
    returns (acts': seq<Action>, a: Action)
    requires p.ByList? && Leads(t, p, x.rtype) && AllWork(t, p.subs) && x.rid != ""
    requires caller != "" && Solo(Run(t, acts).o, caller)
    requires i < |Run(t, acts).reqs| && Run(t, acts).reqs[i] == Fresh(p.r, caller).(pc := Listing)
    ensures GetsReadyAt(t, Run(t, acts), Run(t, acts'), i, x, caller, a)
    decreases p, 1, 0
  {
    var link := Ref(t.lists[p.l].route.links[p.k].rtype, x.rid);
    var a1 := OwnAll(t, acts, {link}, p, caller);
    assert Run(t, a1).reqs[i] == Run(t, acts).reqs[i];
    SameListsFor(t, p.r, Run(t, acts).reqs[i], caller);
    acts', a := LinkGetsReady(t, a1, i, p.l, p.k, x);
    SamePrefix(Run(t, acts).reqs[..i], Run(t, a1).reqs, Run(t, acts').reqs, i);
  }

  lemma SameListsFor(t: Tenancy, r: Request, r': Request, caller: string)
    requires r' == Fresh(r, caller).(pc := Listing)
    ensures forall l: nat :: Lists(t, r, l) == Lists(t, r', l)
  {
    assert forall l: nat :: ListsHere(t, r, l) == ListsHere(t, r', l);
  }

  /** As GetsReady, for request i and the requests before it. */
  ghost predicate GetsReadyAt(t: Tenancy, s: Sys, s': Sys, i: nat, x: Ref, caller: string, a: Action) {
    && i < |s.reqs| && s.reqs[..i] <= s'.reqs && Solo(s'.o, caller)
    && !a.Arrive? && a.i == i < |s'.reqs| && Ready(t, s'.reqs[i], x, caller, a)
  }

  lemma ReadyInTail(t: Tenancy, s: Sys, s1: Sys, s': Sys, i: nat, x: Ref, caller: string, a: Action)
    requires GetsReadyAt(t, s1, s', i, x, caller, a) && |s.reqs| <= i && s.reqs <= s1.reqs
    ensures GetsReady(t, s, s', x, caller, a)
  {
    assert s.reqs <= s1.reqs[..i];
  }

  lemma {:induction false} ReadyByList(t: Tenancy, acts: seq<Action>, p: Plan, x: Ref, caller: string)
    returns (acts': seq<Action>, a: Action)
    requires p.ByList? && Leads(t, p, x.rtype) && AllWork(t, p.subs) && x.rid != ""
    requires caller != "" && Solo(Run(t, acts).o, caller)
    ensures GetsReady(t, Run(t, acts), Run(t, acts'), x, caller, a)
    decreases p, 2, 0
  {
    var r := Fresh(p.r, caller);
    FreshSame(t, p.r, caller);
    var a1 := OwnAll(t, acts, Named(t, r), p, caller);
    var i := |Run(t, a1).reqs|;
    var a2 := GetsToListing(t, a1, r);
    acts', a := ReadyByLink(t, a2, i, p, x, caller);
    ReadyInTail(t, Run(t, acts), Run(t, a2), Run(t, acts'), i, x, caller, a);
  }

  lemma {:induction false} MakeReady(t: Tenancy, acts: seq<Action>, x: Ref, p: Plan, caller: string)
    returns (acts': seq<Action>, a: Action)
    requires caller != "" && x.rid != "" && Solo(Run(t, acts).o, caller) && Works(t, p, x.rtype)
    ensures GetsReady(t, Run(t, acts), Run(t, acts'), x, caller, a)
    decreases p, 3, 0
  {
    if p.ByCreate? {
      acts', a := ReadyByCreate(t, acts, p, x, caller);
    } else {
      acts', a := ReadyByList(t, acts, p, x, caller);
    }
  }

  /** The claim of a ready request adds its resource to what the caller owns. */
  lemma ClaimReady(t: Tenancy, s: Sys, x: Ref, xs: set<Ref>, caller: string, a: Action)
    requires !a.Arrive? && a.i < |s.reqs| && Ready(t, s.reqs[a.i], x, caller, a)
    requires caller != "" && x.rid != "" && Solo(s.o, caller) && OwnsAll(t, s.o, xs - {x}, caller)
    ensures var s' := Step(t, s, a);
            && Solo(s'.o, caller) && OwnsAll(t, s'.o, xs, caller)
            && |s'.reqs| == |s.reqs| && s'.reqs[..a.i] == s.reqs[..a.i]
  {
  }

  /**
   One caller comes to own all of these at once. Each is first brought to the point of being
   claimed, which may release others, and only then are they claimed, one after the other.
   */
  lemma {:induction false} OwnAll(t: Tenancy, acts: seq<Action>, xs: set<Ref>, p: Plan, caller: string)
    returns (acts': seq<Action>)
    requires caller != "" && Solo(Run(t, acts).o, caller)
    requires Supplies(p.subs, xs) && AllWork(t, p.subs)
    ensures Run(t, acts).reqs <= Run(t, acts').reqs
    ensures Solo(Run(t, acts').o, caller) && OwnsAll(t, Run(t, acts').o, xs, caller)
    decreases p, 0, |xs|
  {
    if xs == {} {
      return acts;
    }
    var x :| x in xs;
    var a1, a := MakeReady(t, acts, x, p.subs[x.rtype], caller);
    var a2 := OwnAll(t, a1, xs - {x}, p, caller);
    assert Run(t, a2).reqs[a.i] == Run(t, a1).reqs[a.i];
    ClaimReady(t, Run(t, a2), x, xs, caller, a);
    RunStep(t, a2, a);
    acts' := a2 + [a];
    SamePrefix(Run(t, acts).reqs, Run(t, a2).reqs, Run(t, acts').reqs, a.i);
  }

  lemma SamePrefix(p: seq<Request>, q: seq<Request>, q': seq<Request>, i: nat)
    requires p <= q && |p| <= i < |q| && |q'| == |q| && q'[..i] == q[..i]
    ensures p <= q'
  {
    assert forall j :: 0 <= j < |p| ==> p[j] == q[j] == q[..i][j] == q'[..i][j];
  }

  /** Whatever the tenancy, a caller can come to own a resource if and only if its type is attainable. */
  lemma OwnableIffAttainable(t: Tenancy, x: Ref, caller: string)
    requires caller != "" && x.rid != ""
    ensures (exists acts :: Owns(Run(t, acts).o, Row(t, x), caller)) <==> Attainable(t, x.rtype)
  {
    if acts :| Owns(Run(t, acts).o, Row(t, x), caller) {
      var p := HeldIsAttainable(t, acts, x);
    }
    if p :| Works(t, p, x.rtype) {
      var acts := PlanIsCarriedOut(t, p, x, caller);
    }
  }

  lemma PlanIsCarriedOut(t: Tenancy, p: Plan, x: Ref, caller: string) returns (acts: seq<Action>)
    requires caller != "" && x.rid != "" && Works(t, p, x.rtype)
    ensures Owns(Run(t, acts).o, Row(t, x), caller)
  {
    acts := OwnAll(t, [], {x}, p.(subs := map[x.rtype := p]), caller);
  }

  /** Without a create route nothing is ever owned, whatever the list routes claim. */
  lemma {:induction false} NoCreateNothingAttained(t: Tenancy, p: Plan, ty: string)
    requires t.creates == []
    ensures !Works(t, p, ty)
  {
    if Works(t, p, ty) {
      var link := t.lists[p.l].route.links[p.k].rtype;
      NoCreateNothingAttained(t, p.subs[link], link);
    }
  }

  lemma NoCreateNothingOwned(t: Tenancy, acts: seq<Action>, x: Ref)
    requires t.creates == []
    ensures Row(t, x) !in Run(t, acts).o
  {
    if Row(t, x) in Run(t, acts).o {
      var p := HeldIsAttainable(t, acts, x);
      NoCreateNothingAttained(t, p, x.rtype);
    }
  }
}
