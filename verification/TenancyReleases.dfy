/**
 Exactly when the releases of a tenancy are authorised, over all its runs. The failing runs are built
 from admitted requests and from claims that a create route of the tenancy makes.
 */
module TenancyReleases {
  import opened Text
  import opened Owners
  import opened Routes
  import opened RequestGate
  import opened TenancyRuns
  import opened TenancyReach

  // ---- claims that need nothing ----

  /**
   An admitted request that names nothing creates a row of this type, and no other type by the same
   id field.
   */
  ghost predicate CreatesFreely(t: Tenancy, r: Request, c: nat, ty: string) {
    && MakesBy(t, r, c, ty) && Named(t, r) == {}
    && forall c': nat :: Creates(t, r, c') && t.creates[c'].idField == t.creates[c].idField ==>
         t.creates[c'].rtype == ty
  }

  ghost predicate Creatable(t: Tenancy, ty: string) {
    exists r, c: nat :: CreatesFreely(t, r, c, ty)
  }

  ghost predicate AllCreatable(t: Tenancy, xs: set<Ref>) {
    forall x :: x in xs ==> x.rid != "" && Creatable(t, x.rtype)
  }

  lemma {:induction false} ClaimsOneRow(t: Tenancy, o: Ownership, r: Request, c: nat, x: Ref, n: nat)
    requires c < |t.creates| && x.rid != ""
    requires forall c': nat :: Creates(t, r, c') && t.creates[c'].idField == t.creates[c].idField ==>
               t.creates[c'].rtype == x.rtype
    ensures var o' := ClaimedUpTo(t, o, r, map[t.creates[c].idField := x.rid], n);
            && (o' == o || o' == Claim(o, Row(t, x), r.caller))
            && (c < n && Creates(t, r, c) ==> o' == Claim(o, Row(t, x), r.caller))
  {
    if n > 0 {
      ClaimsOneRow(t, o, r, c, x, n - 1);
    }
  }

  lemma SomeCreate(t: Tenancy, ty: string, caller: string) returns (r: Request, c: nat)
    requires Creatable(t, ty)
    ensures CreatesFreely(t, r, c, ty) && r.pc == Refused && r.shown == [] && r.caller == caller
  {
    var r', c' :| CreatesFreely(t, r', c', ty);
    FreshSame(t, r', caller);
    r, c := Fresh(r', caller), c';
  }

  /** Whoever asks can claim a row of a creatable type, without a release and without touching other requests. */
  lemma Claims(t: Tenancy, acts: seq<Action>, x: Ref, caller: string) returns (acts': seq<Action>)
    requires caller != "" && x.rid != "" && Creatable(t, x.rtype)
    ensures Quiet(acts, acts')
    ensures Run(t, acts').o == Claim(Run(t, acts).o, Row(t, x), caller)
    ensures Run(t, acts).reqs <= Run(t, acts').reqs
  {
    var r, c := SomeCreate(t, x.rtype, caller);
    var i := |Run(t, acts).reqs|;
    var ids := map[t.creates[c].idField := x.rid];
    var a1 := GetsThrough(t, acts, r, ids);
    acts' := WalkClaims(t, a1, i, |t.creates|);
    var r' := r.(pc := Claiming(0, ids));
    assert forall c': nat :: Creates(t, r', c') == Creates(t, r, c');
    ClaimsOneRow(t, Run(t, acts).o, r', c, x, |t.creates|);
  }

  predicate Grows(o: Ownership, o': Ownership) {
    forall row :: row in o ==> row in o' && o'[row] == o[row]
  }

  /** Nobody but caller holds any of these. */
  predicate FreeFor(t: Tenancy, o: Ownership, xs: set<Ref>, caller: string) {
    forall x :: x in xs && Row(t, x) in o ==> o[Row(t, x)] == caller
  }

  /** Caller claims one of these, if nobody else holds it. */
  lemma ClaimsOne(t: Tenancy, acts: seq<Action>, x: Ref, xs: set<Ref>, caller: string) returns (acts': seq<Action>)
    requires caller != "" && x.rid != "" && Creatable(t, x.rtype) && x in xs && FreeFor(t, Run(t, acts).o, xs, caller)
    ensures Quiet(acts, acts') && Grows(Run(t, acts).o, Run(t, acts').o)
    ensures Owns(Run(t, acts').o, Row(t, x), caller) && FreeFor(t, Run(t, acts').o, xs - {x}, caller)
  {
    acts' := Claims(t, acts, x, caller);
  }

  lemma OwnsOneMore(t: Tenancy, o: Ownership, o': Ownership, x: Ref, xs: set<Ref>, caller: string)
    requires Owns(o, Row(t, x), caller) && Grows(o, o') && OwnsAll(t, o', xs - {x}, caller)
    ensures OwnsAll(t, o', xs, caller)
  {
  }

  /** If nobody else holds them, caller comes to own all of these; no row changes hands. */
  lemma {:induction false} ClaimsEach(t: Tenancy, acts: seq<Action>, xs: set<Ref>, caller: string)
    returns (acts': seq<Action>)
    requires caller != "" && AllCreatable(t, xs) && FreeFor(t, Run(t, acts).o, xs, caller)
    ensures Quiet(acts, acts') && Grows(Run(t, acts).o, Run(t, acts').o)
    ensures OwnsAll(t, Run(t, acts').o, xs, caller)
    decreases |xs|
  {
    if xs == {} {
      return acts;
    }
    var x :| x in xs;
    var a1 := ClaimsOne(t, acts, x, xs, caller);
    acts' := ClaimsEach(t, a1, xs - {x}, caller);
    OwnsOneMore(t, Run(t, a1).o, Run(t, acts').o, x, xs, caller);
  }

  // ---- the failing runs ----

  /** d is the first delete route that makes r release this. */
  ghost predicate FirstDelete(t: Tenancy, r: Request, d: nat) {
    Deletes(t, r, d) && !DropsBefore(t, r, d, DeletedRef(t, r, d))
  }

  lemma {:induction false} SomeFirst(t: Tenancy, r: Request, d: nat) returns (d0: nat)
    requires Deletes(t, r, d)
    ensures FirstDelete(t, r, d0) && DeletedRef(t, r, d0) == DeletedRef(t, r, d)
    decreases d
  {
    if DropsBefore(t, r, d, DeletedRef(t, r, d)) {
      var d' :| 0 <= d' < d && Deletes(t, r, d') && DeletedRef(t, r, d') == DeletedRef(t, r, d);
      d0 := SomeFirst(t, r, d');
    } else {
      d0 := d;
    }
  }

  lemma QuietKeeps(t: Tenancy, acts: seq<Action>, x: Ref)
    requires Quiet([], acts)
    ensures KeptSince(t, acts, 0, x)
  {
  }

  lemma KeptBoth(t: Tenancy, acts: seq<Action>, acts': seq<Action>, x: Ref)
    requires acts <= acts' && KeptSince(t, acts, 0, x) && KeptSince(t, acts', |acts|, x)
    ensures KeptSince(t, acts', 0, x)
  {
    forall j | 0 <= j < |acts'| ensures !DroppedAt(t, acts', j, x) {
      if j < |acts| {
        assert acts'[..j] == acts[..j] && !DroppedAt(t, acts, j, x);
      }
    }
  }

  /** In a run that never released it, whoever owns a resource at the end is the only one who ever did. */
  lemma OnlyOwner(t: Tenancy, acts: seq<Action>, i: nat, x: Ref)
    requires KeptSince(t, acts, 0, x) && i < |Run(t, acts).reqs| && WasOwned(t, acts, i, x)
    ensures Owns(Run(t, acts).o, Row(t, x), Run(t, acts).reqs[i].caller)
  {
    var m :| 0 <= m <= |acts| && OwnedAt(t, acts, i, x, m);
    ShapeStays(t, acts, m, i);
    OwnerPersists(t, acts, m, x);
  }

  function Someone(other: string): (caller: string)
    ensures caller != "" && caller != other
  {
    other + "'"
  }

  /** r is an admitted request, not sent yet, that delete route d makes release something its checks leave out. */
  ghost predicate Uncovered(t: Tenancy, r: Request, d: nat) {
    && r.pc == Refused && r.shown == [] && r.caller != ""
    && Admitted(t, r) && Deletes(t, r, d) && !Covered(t, r, d)
  }

  /** What r checks and what d makes it release can be created without naming anything. */
  ghost predicate Stocks(t: Tenancy, r: Request, d: nat) {
    Deletes(t, r, d) && AllCreatable(t, Named(t, r)) && Creatable(t, t.deletes[d].rtype)
  }

  /** A sent request walks to the delete route that releases x, having released nothing of x so far. */
  lemma WalksTo(t: Tenancy, acts: seq<Action>, i: nat, r: Request, d: nat) returns (acts': seq<Action>, a: Action)
    requires FirstDelete(t, r, d) && i < |Run(t, acts).reqs| && Run(t, acts).reqs[i] == r.(pc := Releasing(0))
    ensures var s, s', x := Run(t, acts), Run(t, acts'), DeletedRef(t, r, d);
            && acts <= acts' && KeptSince(t, acts', |acts|, x)
            && (Row(t, x) in s.o ==> Row(t, x) in s'.o && s'.o[Row(t, x)] == s.o[Row(t, x)])
            && s'.reqs == s.reqs[i := r.(pc := Releasing(d))]
            && a == ReleaseNext(i) && Releases(t, s', a, x)
  {
    var r0 := r.(pc := Releasing(0));
    assert forall d': nat :: Deletes(t, r0, d') == Deletes(t, r, d');
    acts' := WalkReleases(t, acts, i, d);
    a := ReleaseNext(i);
    assert Deletes(t, r.(pc := Releasing(d)), d);
  }

  /** Somebody else takes the row, and the delete gets as far as its releases. */
  lemma SetsUp(t: Tenancy, r: Request, d: nat) returns (acts: seq<Action>, i: nat)
    requires Uncovered(t, r, d) && Stocks(t, r, d)
    ensures Quiet([], acts) && i < |Run(t, acts).reqs| && Run(t, acts).reqs[i] == r.(pc := Releasing(0))
    ensures Owns(Run(t, acts).o, Row(t, DeletedRef(t, r, d)), Someone(r.caller))
  {
    var x := DeletedRef(t, r, d);
    assert Run(t, []).o == map[];
    var a1 := Claims(t, [], x, Someone(r.caller));
    var a2 := ClaimsEach(t, a1, Named(t, r), r.caller);
    i := |Run(t, a2).reqs|;
    acts := GetsToReleases(t, a2, r);
  }

  /** An uncovered delete has a run that releases a row that is someone else's and never was its caller's. */
  lemma UncoveredReleasesUnowned(t: Tenancy, r: Request, d: nat) returns (acts: seq<Action>, a: Action)
    requires Uncovered(t, r, d) && Stocks(t, r, d)
    ensures Releases(t, Run(t, acts), a, DeletedRef(t, r, d))
    ensures SameShape(Run(t, acts).reqs[a.i], r)
    ensures Owns(Run(t, acts).o, Row(t, DeletedRef(t, r, d)), Someone(r.caller))
    ensures !WasOwned(t, acts, a.i, DeletedRef(t, r, d))
  {
    var x := DeletedRef(t, r, d);
    var d0 := SomeFirst(t, r, d);
    var a1, i := SetsUp(t, r, d);
    QuietKeeps(t, a1, x);
    acts, a := WalksTo(t, a1, i, r, d0);
    KeptBoth(t, a1, acts, x);
    NeverOwned(t, acts, a.i, x, Someone(r.caller));
  }

  lemma NeverOwned(t: Tenancy, acts: seq<Action>, i: nat, x: Ref, owner: string)
    requires KeptSince(t, acts, 0, x) && i < |Run(t, acts).reqs|
    requires Owns(Run(t, acts).o, Row(t, x), owner) && owner != Run(t, acts).reqs[i].caller
    ensures !WasOwned(t, acts, i, x)
  {
    if WasOwned(t, acts, i, x) {
      OnlyOwner(t, acts, i, x);
    }
  }

  /** Types that path params and delete routes name can all be created without naming anything. */
  ghost predicate Stocked(t: Tenancy) {
    && (forall n :: n in t.cfg.paramTypes ==> Creatable(t, t.cfg.paramTypes[n]))
    && (forall d :: 0 <= d < |t.deletes| ==> Creatable(t, t.deletes[d].rtype))
  }

  /** The same path and verb, without query and body. */
  function Bare(r: Request): Request {
    Request(Someone(""), r.verb, Incoming(r.what.segs, Some(map[]), NoBody), Refused, [])
  }

  lemma GateSays(t: Tenancy, r: Request)
    requires Guarded(t)
    ensures t.gate(Ask(r.verb, r.what)) == BrokerGate(t, Ask(r.verb, r.what))
  {
  }

  lemma BareNames(t: Tenancy, r: Request)
    requires Guarded(t) && Admitted(t, r)
    ensures Admitted(t, Bare(r)) && Named(t, Bare(r)) == PathRefs(t.cfg.paramTypes, Params(t, r)) <= Named(t, r)
  {
    GateSays(t, r);
    GateSays(t, Bare(r));
    BareRefs(Patterns(t, r.verb, r.what.segs), t.cfg, r.what);
  }

  lemma PathCreatable(t: Tenancy, r: Request)
    requires Stocked(t)
    ensures AllCreatable(t, PathRefs(t.cfg.paramTypes, Params(t, r)))
  {
    var params := Params(t, r);
    forall x | x in PathRefs(t.cfg.paramTypes, params) ensures x.rid != "" && Creatable(t, x.rtype) {
      var n :| n in params && n in t.cfg.paramTypes && x == Ref(t.cfg.paramTypes[n], params[n]);
      BoundNonEmpty(Patterns(t, r.verb, r.what.segs), r.what.segs, n);
    }
  }

  lemma BareIsUncovered(t: Tenancy, r: Request, d: nat)
    ensures Guarded(t) && Stocked(t) && Admitted(t, r) && Deletes(t, r, d) && !Covered(t, r, d) ==>
              Uncovered(t, Bare(r), d) && Stocks(t, Bare(r), d)
  {
    if Guarded(t) && Stocked(t) && Admitted(t, r) && Deletes(t, r, d) && !Covered(t, r, d) {
      BareNames(t, r);
      PathCreatable(t, r);
      BareDeletes(t, r, d);
    }
  }

  lemma BareDeletes(t: Tenancy, r: Request, d: nat)
    requires Deletes(t, r, d)
    ensures Deletes(t, Bare(r), d) && DeletedRef(t, Bare(r), d) == DeletedRef(t, r, d)
  {
  }

  ghost predicate ReleasesOwned(t: Tenancy) {
    forall acts, a, x :: Releases(t, Run(t, acts), a, x) ==> WasOwned(t, acts, a.i, x)
  }

  /**
   If every admitted request checks what a delete route makes it release, then every release of every
   run drops a row its caller owned when checked; and on a stocked tenancy only then.
   */
  lemma ReleasesOwnedIffCovered(t: Tenancy)
    ensures AllCovered(t) ==> ReleasesOwned(t)
    ensures Guarded(t) && Stocked(t) ==> (ReleasesOwned(t) <==> AllCovered(t))
  {
    if AllCovered(t) {
      CoveredReleasesOwned(t);
    } else if Guarded(t) && Stocked(t) {
      var r: Request, d: nat :| Admitted(t, r) && Deletes(t, r, d) && !Covered(t, r, d);
      BareIsUncovered(t, r, d);
      var acts, a := UncoveredReleasesUnowned(t, Bare(r), d);
    }
  }

  lemma CoveredReleasesOwned(t: Tenancy)
    requires AllCovered(t)
    ensures ReleasesOwned(t)
  {
    forall acts, a, x | Releases(t, Run(t, acts), a, x) ensures WasOwned(t, acts, a.i, x) {
      PastWasAdmitted(t, acts, a.i);
      ReleasedWasOwned(t, acts, a, x);
    }
  }

  /**
   The takeover does happen: every stocked delete has a run in which the row is another caller's by
   the time it is released. Two deletes of the row pass their checks, one releases it, somebody
   creates the recycled id, and then the other releases it.
   */
  lemma ReleaseMayBeLate(t: Tenancy, r: Request, d: nat) returns (acts: seq<Action>, a: Action)
    requires r.pc == Refused && r.shown == [] && r.caller != "" && Admitted(t, r) && Stocks(t, r, d)
    ensures Releases(t, Run(t, acts), a, DeletedRef(t, r, d))
    ensures SameShape(Run(t, acts).reqs[a.i], r)
    ensures Owns(Run(t, acts).o, Row(t, DeletedRef(t, r, d)), Someone(r.caller))
  {
    var x := DeletedRef(t, r, d);
    var d0 := SomeFirst(t, r, d);
    var a1 := ClaimsEach(t, [], Named(t, r), r.caller);
    var i := |Run(t, a1).reqs|;
    var a2 := GetsToReleases(t, a1, r);
    var a3 := GetsToReleases(t, a2, r);
    var a4, first := WalksTo(t, a3, i, r, d0);
    RunStep(t, a4, first);
    var a5 := a4 + [first];
    assert Row(t, x) !in Run(t, a5).o && Run(t, a5).reqs[i + 1] == r.(pc := Releasing(0));
    var a6 := Claims(t, a5, x, Someone(r.caller));
    acts, a := WalksTo(t, a6, i + 1, r, d0);
  }

  // ---- a tenancy on which the condition fails ----

  /** POST /docs creates a doc, DELETE /docs/{id} deletes one, and the param id names this type, if any. */
  ghost function Docs(types: map<string, string>): Tenancy {
    var t := Tenancy("app", {("POST", ["", "docs"])}, [Allow("DELETE", ["", "docs", "{id}"])], Config(types, map[]),
                     [CreateRoute("POST", ["", "docs"], "doc", "id")],
                     [DeleteRoute("DELETE", ["", "docs", "{id}"], "doc", "id")], [],
                     (q: Ask) => None);
    t.(gate := (q: Ask) => BrokerGate(t, q))
  }

  function Plain(verb: string, segs: seq<string>): Request {
    Request("me", verb, Incoming(segs, Some(map[]), NoBody), Refused, [])
  }

  lemma DocsGuarded(types: map<string, string>)
    ensures Guarded(Docs(types))
  {
    var t := Docs(types);
    assert forall q: Ask :: t.gate(q) == BrokerGate(t.(gate := (q: Ask) => None), q);
  }

  lemma DocsStocked(types: map<string, string>)
    requires forall n :: n in types ==> types[n] == "doc"
    ensures Stocked(Docs(types))
  {
    var t := Docs(types);
    var r := Plain("POST", ["", "docs"]);
    DocsGuarded(types);
    GateSays(t, r);
    assert QueryRefs(map[], map[]) == {} && PathRefs(types, map[]) == {};
    assert Named(t, r) == {};
    assert CreatesFreely(t, r, 0, "doc");
  }

  /** A delete of doc 7, where its param names no type, is let in without a read of the ledger. */
  lemma DeleteAdmitted()
    ensures var t, r := Docs(map[]), Plain("DELETE", ["", "docs", "7"]);
            t.gate(Ask(r.verb, r.what)) == Some({}) && Params(t, r) == map["id" := "7"]
  {
    var t, r := Docs(map[]), Plain("DELETE", ["", "docs", "7"]);
    DocsGuarded(map[]);
    GateSays(t, r);
    DocPath();
    assert AllowsHere(t.templates[0], r.verb, r.what.segs);
    assert Paths(t.templates) == [["", "docs", "{id}"]];
    assert QueryRefs(map[], map[]) == {} && PathRefs(map[], Params(t, r)) == {};
  }

  lemma DeleteFires()
    ensures Deletes(Docs(map[]), Plain("DELETE", ["", "docs", "7"]), 0)
  {
    DeleteAdmitted();
    DocPath();
  }

  /** If the param of the delete route names no type, runs of this tenancy release rows their callers never owned. */
  lemma UntypedDeleteFails()
    ensures var t := Docs(map[]);
            Guarded(t) && Stocked(t) && !AllCovered(t) && !ReleasesOwned(t)
  {
    var t, r := Docs(map[]), Plain("DELETE", ["", "docs", "7"]);
    DocsGuarded(map[]);
    DocsStocked(map[]);
    DeleteAdmitted();
    DeleteFires();
    NotAllCovered(t, r, 0);
    ReleasesOwnedIffCovered(t);
  }

  lemma NotAllCovered(t: Tenancy, r: Request, d: nat)
    requires t.gate(Ask(r.verb, r.what)) == Some({}) && Deletes(t, r, d)
    ensures !AllCovered(t)
  {
    assert Admitted(t, r) && !Covered(t, r, d);
  }

  lemma DocPath()
    ensures SegmentsMatch(["", "docs", "{id}"], ["", "docs", "7"])
    ensures Bind([["", "docs", "{id}"]], ["", "docs", "7"], map[]) == map["id" := "7"]
  {
    var p, q, u, v, w := ["", "docs", "{id}"], ["docs", "{id}"], ["{id}"], ["docs", "7"], ["7"];
    var segs := ["", "docs", "7"];
    assert p[1..] == q && q[1..] == u && segs[1..] == v && v[1..] == w;
    assert "{id}"[1..3] == "id";
    assert BindOne(u, w, map[]) == BindOne([], [], map["id" := "7"]);
    assert BindOne(p, segs, map[]) == BindOne(q, v, map[]) == map["id" := "7"];
    var none: seq<seq<string>> := [];
    assert [p][1..] == none;
  }
}
