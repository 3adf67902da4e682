/**
 Filtering an account-wide list answer down to the caller's rows, claiming kept rows on the way.
 The document is a decoded tree; the ownership ledger is updated in place while rows are kept.
 */
module ListFilter {
  import opened Text
  import opened Json
  import opened Owners
  import opened RequestGate

  datatype Link = Link(field: string, rtype: string)

  /** A dotted path, split: never empty. */
  type Path = p: seq<string> | |p| >= 1 witness [""]

  /** claimField is the configured id field, or "id" when none is configured. */
  datatype ListRoute = ListRoute(rowsAt: Path, links: seq<Link>, claimAs: string, claimField: string, counts: seq<Path>)

  // ---- dotted paths ----

  function Dig(t: Tree, parts: seq<string>): Option<Tree>
    decreases parts
  {
    if parts == [] then Some(t)
    else if t.TObj? && parts[0] in t.fields then Dig(t.fields[parts[0]], parts[1..])
    else None
  }

  method DigWalk(t: Tree, parts: Path) returns (found: Option<Tree>)
    ensures found == Dig(t, parts)
  {
    var cur := t;
    for i := 0 to |parts|
      invariant Dig(t, parts) == Dig(cur, parts[i..])
    {
      assert parts[i..][1..] == parts[i + 1..];
      if !cur.TObj? {
        return None;
      }
      if parts[i] !in cur.fields {
        return None;
      }
      cur := cur.fields[parts[i]];
    }
    return Some(cur);
  }

  function SetDug(t: Tree, parts: Path, val: Tree): Option<Tree>
    decreases |parts|
  {
    if !t.TObj? then None
    else if |parts| == 1 then Some(TObj(t.fields[parts[0] := val]))
    else if parts[0] !in t.fields then None
    else
      match SetDug(t.fields[parts[0]], parts[1..], val)
      case None => None
      case Some(child) => Some(TObj(t.fields[parts[0] := child]))
  }

  /** Overwrite what lies at a path, if anything does. */
  function Put(t: Tree, parts: seq<string>, val: Tree): Tree
    decreases parts
  {
    if parts == [] then val
    else if t.TObj? && parts[0] in t.fields then
      TObj(t.fields[parts[0] := Put(t.fields[parts[0]], parts[1..], val)])
    else t
  }

  /** Writing at a path that is present always succeeds, and is Put. */
  lemma {:induction false} SetDugIsPut(t: Tree, parts: Path, val: Tree)
    requires Dig(t, parts).Some?
    ensures SetDug(t, parts, val) == Some(Put(t, parts, val))
    decreases |parts|
  {
    if |parts| > 1 {
      SetDugIsPut(t.fields[parts[0]], parts[1..], val);
    } else {
      assert parts[1..] == [];
    }
  }

  lemma {:induction false} PutAbsent(t: Tree, parts: seq<string>, val: Tree)
    requires Dig(t, parts).None?
    ensures Put(t, parts, val) == t
    decreases parts
  {
    if parts != [] && t.TObj? && parts[0] in t.fields {
      PutAbsent(t.fields[parts[0]], parts[1..], val);
      assert t.fields[parts[0] := t.fields[parts[0]]] == t.fields;
    }
  }

  lemma {:induction false} DigPut(t: Tree, parts: seq<string>, val: Tree)
    requires Dig(t, parts).Some?
    ensures Dig(Put(t, parts, val), parts) == Some(val)
    decreases parts
  {
    if parts != [] {
      DigPut(t.fields[parts[0]], parts[1..], val);
    }
  }

  predicate Disjoint(p: seq<string>, q: seq<string>) {
    !(p <= q) && !(q <= p)
  }

  lemma {:induction false} DigPutElsewhere(t: Tree, p: seq<string>, val: Tree, q: seq<string>)
    requires Disjoint(p, q)
    ensures Dig(Put(t, p, val), q) == Dig(t, q)
    decreases p
  {
    if t.TObj? && p[0] in t.fields && p[0] == q[0] {
      assert p == [p[0]] + p[1..] && q == [q[0]] + q[1..];
      assert Disjoint(p[1..], q[1..]);
      DigPutElsewhere(t.fields[p[0]], p[1..], val, q[1..]);
    }
  }

  // ---- keeping and claiming rows ----

  /** Whose answer is filtered, and by which route. */
  datatype Job = Job(app: string, caller: string, route: ListRoute)

  predicate LinkOwned(j: Job, o: Ownership, fields: map<string, Tree>, link: Link) {
    && link.field in fields && AsID(fields[link.field]).Some?
    && Owns(o, Resource(j.app, link.rtype, AsID(fields[link.field]).value), j.caller)
  }

  /** Some link of the row points at a resource the caller owns. */
  predicate Linked(j: Job, o: Ownership, el: Tree) {
    el.TObj? && exists i :: 0 <= i < |j.route.links| && LinkOwned(j, o, el.fields, j.route.links[i])
  }

  /** The lazy claim of a kept row's own id. */
  function ClaimSelf(j: Job, o: Ownership, el: Tree): Ownership {
    if j.route.claimAs != "" && el.TObj? && j.route.claimField in el.fields
       && AsID(el.fields[j.route.claimField]).Some?
    then Claim(o, Resource(j.app, j.route.claimAs, AsID(el.fields[j.route.claimField]).value), j.caller)
    else o
  }

  function KeepRows(j: Job, o: Ownership, rows: seq<Tree>): (seq<Tree>, Ownership) {
    if rows == [] then ([], o)
    else
      var (kept, o1) := KeepRows(j, o, rows[..|rows| - 1]);
      var el := rows[|rows| - 1];
      if Linked(j, o1, el) then (kept + [el], ClaimSelf(j, o1, el)) else (kept, o1)
  }

  function PutCounts(t: Tree, counts: seq<Path>, n: nat): Tree {
    if counts == [] then t
    else Put(PutCounts(t, counts[..|counts| - 1], n), counts[|counts| - 1], TNum(Itoa(n)))
  }

  datatype Answer = PassedOn | Unfilterable | Filtered(doc: Tree)

  function Filter(j: Job, o: Ownership, v: Tree): (Answer, Ownership) {
    match Dig(v, j.route.rowsAt)
    case None => (PassedOn, o)
    case Some(TArr(rows)) =>
      var (kept, o') := KeepRows(j, o, rows);
      (Filtered(PutCounts(Put(v, j.route.rowsAt, TArr(kept)), j.route.counts, |kept|)), o')
    case _ => (Unfilterable, o)
  }

  /** The ledger the broker updates while it filters. */
  class OwnerLedger {
    var o: Ownership

    constructor (o: Ownership)
      ensures this.o == o
    {
      this.o := o;
    }

    method KeepElement(j: Job, el: Tree) returns (keep: bool)
      modifies this
      ensures keep == Linked(j, old(o), el)
      ensures o == if keep then ClaimSelf(j, old(o), el) else old(o)
    {
      if !el.TObj? {
        return false;
      }
      for i := 0 to |j.route.links|
        invariant o == old(o)
        invariant forall k :: 0 <= k < i ==> !LinkOwned(j, o, el.fields, j.route.links[k])
      {
        var link := j.route.links[i];
        if link.field in el.fields {
          var id := AsID(el.fields[link.field]);
          if id.Some? && Owns(o, Resource(j.app, link.rtype, id.value), j.caller) {
            assert LinkOwned(j, o, el.fields, j.route.links[i]);
            if j.route.claimAs != "" && j.route.claimField in el.fields {
              var selfID := AsID(el.fields[j.route.claimField]);
              if selfID.Some? {
                o := Claim(o, Resource(j.app, j.route.claimAs, selfID.value), j.caller);
              }
            }
            return true;
          }
        }
      }
      return false;
    }

    method FilterResponse(j: Job, v: Tree) returns (answer: Answer)
      modifies this
      ensures (answer, o) == Filter(j, old(o), v)
    {
      var found := DigWalk(v, j.route.rowsAt);
      if found.None? {
        return PassedOn;
      }
      if !found.value.TArr? {
        return Unfilterable;
      }
      var rows := found.value.items;
      var kept: seq<Tree> := [];
      for i := 0 to |rows|
        invariant (kept, o) == KeepRows(j, old(o), rows[..i])
      {
        assert rows[..i + 1][..i] == rows[..i];
        var keep := KeepElement(j, rows[i]);
        if keep {
          kept := kept + [rows[i]];
        }
      }
      assert rows[..|rows|] == rows;
      SetDugIsPut(v, j.route.rowsAt, TArr(kept));
      var doc := SetDug(v, j.route.rowsAt, TArr(kept)).value;
      ghost var start := doc;
      for i := 0 to |j.route.counts|
        invariant (kept, o) == KeepRows(j, old(o), rows)
        invariant doc == PutCounts(start, j.route.counts[..i], |kept|)
      {
        assert j.route.counts[..i + 1][..i] == j.route.counts[..i];
        var cf := j.route.counts[i];
        var present := DigWalk(doc, cf);
        if present.Some? {
          SetDugIsPut(doc, cf, TNum(Itoa(|kept|)));
          doc := SetDug(doc, cf, TNum(Itoa(|kept|))).value;
        } else {
          PutAbsent(doc, cf, TNum(Itoa(|kept|)));
        }
      }
      assert j.route.counts[..|j.route.counts|] == j.route.counts;
      return Filtered(doc);
    }
  }

  // ---- which rows are kept ----

  function LinkedRows(j: Job, o: Ownership, rows: seq<Tree>): seq<Tree> {
    if rows == [] then []
    else
      var rest := LinkedRows(j, o, rows[..|rows| - 1]);
      if Linked(j, o, rows[|rows| - 1]) then rest + [rows[|rows| - 1]] else rest
  }

  function ClaimAll(j: Job, o: Ownership, rows: seq<Tree>): Ownership {
    if rows == [] then o else ClaimSelf(j, ClaimAll(j, o, rows[..|rows| - 1]), rows[|rows| - 1])
  }

  predicate LinkFieldsAreOwnId(route: ListRoute) {
    forall i :: 0 <= i < |route.links| ==> route.links[i].field == route.claimField
  }

  /** Claims made while filtering cannot turn an unlinked row into a linked one. */
  predicate ClaimStable(route: ListRoute) {
    || route.claimAs == ""
    || (forall i :: 0 <= i < |route.links| ==> route.links[i].rtype != route.claimAs)
    || LinkFieldsAreOwnId(route)
  }

  ghost predicate Backed(j: Job, o: Ownership, id: string) {
    exists i :: 0 <= i < |j.route.links| && Owns(o, Resource(j.app, j.route.links[i].rtype, id), j.caller)
  }

  /** What the claims so far may have added to the caller's holdings. */
  ghost predicate Grown(j: Job, o: Ownership, o1: Ownership) {
    && (forall r :: Owns(o, r, j.caller) ==> Owns(o1, r, j.caller))
    && (forall r :: Owns(o1, r, j.caller) && !Owns(o, r, j.caller) ==>
          && j.route.claimAs != "" && r.app == j.app && r.rtype == j.route.claimAs
          && (LinkFieldsAreOwnId(j.route) ==> Backed(j, o, r.rid)))
  }

  lemma SameLinks(j: Job, o: Ownership, o1: Ownership, el: Tree)
    requires ClaimStable(j.route) && Grown(j, o, o1)
    ensures Linked(j, o1, el) <==> Linked(j, o, el)
  {
    if Linked(j, o, el) {
      var i :| 0 <= i < |j.route.links| && LinkOwned(j, o, el.fields, j.route.links[i]);
      assert LinkOwned(j, o1, el.fields, j.route.links[i]);
    }
    if Linked(j, o1, el) {
      var i :| 0 <= i < |j.route.links| && LinkOwned(j, o1, el.fields, j.route.links[i]);
      var id := AsID(el.fields[j.route.links[i].field]).value;
      var r := Resource(j.app, j.route.links[i].rtype, id);
      if !Owns(o, r, j.caller) {
        var k :| 0 <= k < |j.route.links| && Owns(o, Resource(j.app, j.route.links[k].rtype, id), j.caller);
        assert LinkOwned(j, o, el.fields, j.route.links[k]);
      } else {
        assert LinkOwned(j, o, el.fields, j.route.links[i]);
      }
    }
  }

  lemma ClaimGrows(j: Job, o: Ownership, o1: Ownership, el: Tree)
    requires Grown(j, o, o1) && Linked(j, o, el)
    ensures Grown(j, o, ClaimSelf(j, o1, el))
  {
    var i :| 0 <= i < |j.route.links| && LinkOwned(j, o, el.fields, j.route.links[i]);
    if LinkFieldsAreOwnId(j.route) {
      assert Backed(j, o, AsID(el.fields[j.route.claimField]).value);
    }
  }

  /** With stable claims the kept rows are the ordered sublist linked in the ledger before the call. */
  lemma {:induction false} KeptAreLinked(j: Job, o: Ownership, rows: seq<Tree>)
    requires ClaimStable(j.route)
    ensures KeepRows(j, o, rows) == (LinkedRows(j, o, rows), ClaimAll(j, o, LinkedRows(j, o, rows)))
    ensures Grown(j, o, KeepRows(j, o, rows).1)
  {
    if rows != [] {
      var n := |rows| - 1;
      KeptAreLinked(j, o, rows[..n]);
      var (kept, o1) := KeepRows(j, o, rows[..n]);
      SameLinks(j, o, o1, rows[n]);
      if Linked(j, o, rows[n]) {
        ClaimGrows(j, o, o1, rows[n]);
        assert (kept + [rows[n]])[..|kept|] == kept;
      }
    }
  }

  lemma KeepTwo(j: Job, o: Ownership, a: Tree, b: Tree)
    requires Linked(j, o, a) && !Linked(j, o, b) && Linked(j, ClaimSelf(j, o, a), b)
    ensures KeepRows(j, o, [a, b]).0 == [a, b] && LinkedRows(j, o, [a, b]) == [a]
  {
    var one, two := [a], [a, b];
    assert one[..0] == [] && two[..1] == one && [] + [a] == one;
    assert KeepRows(j, o, []) == ([], o) && LinkedRows(j, o, []) == [];
    assert KeepRows(j, o, one) == ([a], ClaimSelf(j, o, a));
    assert LinkedRows(j, o, one) == [a];
  }

  /** Otherwise some ledger and list keep a row that was not linked before the call. */
  lemma UnstableKeepsUnlinked(j: Job)
    requires !ClaimStable(j.route) && j.caller != ""
    ensures exists o, rows :: KeepRows(j, o, rows).0 != LinkedRows(j, o, rows)
  {
    var links := j.route.links;
    var a :| 0 <= a < |links| && links[a].rtype == j.route.claimAs;
    var b :| 0 <= b < |links| && links[b].field != j.route.claimField;
    var o: Ownership := map[Resource(j.app, links[b].rtype, "a") := j.caller];
    var row1 := TObj(map[links[b].field := TStr("a"), j.route.claimField := TStr("b")]);
    var row2 := TObj(map[links[a].field := TStr("b")]);
    assert LinkOwned(j, o, row1.fields, links[b]);
    assert !Linked(j, o, row2);
    var o1 := ClaimSelf(j, o, row1);
    assert Owns(o1, Resource(j.app, j.route.claimAs, "b"), j.caller);
    assert LinkOwned(j, o1, row2.fields, links[a]);
    KeepTwo(j, o, row1, row2);
    assert KeepRows(j, o, [row1, row2]).0 != LinkedRows(j, o, [row1, row2]);
  }

  /** Exactly the stable routes keep, on every ledger and list, just the rows linked beforehand. */
  lemma StableIffKeptAreLinked(j: Job)
    requires j.caller != ""
    ensures ClaimStable(j.route) <==> forall o, rows :: KeepRows(j, o, rows).0 == LinkedRows(j, o, rows)
  {
    if ClaimStable(j.route) {
      forall o, rows ensures KeepRows(j, o, rows).0 == LinkedRows(j, o, rows) {
        KeptAreLinked(j, o, rows);
      }
    } else {
      UnstableKeepsUnlinked(j);
    }
  }

  // ---- counts ----

  lemma {:induction false} CountStays(t: Tree, p: seq<string>, q: seq<string>, num: Tree)
    requires num.TNum? && (p == q || Dig(t, q) == None || Dig(t, q) == Some(num))
    ensures Dig(Put(t, p, num), q) == None || Dig(Put(t, p, num), q) == Some(num)
    decreases p
  {
    if p != [] && q != [] && t.TObj? && p[0] in t.fields && p[0] == q[0] {
      CountStays(t.fields[p[0]], p[1..], q[1..], num);
    }
  }

  lemma {:induction false} CountsEqual(t: Tree, counts: seq<Path>, n: nat, i: nat)
    requires i < |counts|
    ensures Dig(PutCounts(t, counts, n), counts[i]) in {None, Some(TNum(Itoa(n)))}
  {
    var m := |counts| - 1;
    if i < m {
      CountsEqual(t, counts[..m], n, i);
    }
    CountStays(PutCounts(t, counts[..m], n), counts[m], counts[i], TNum(Itoa(n)));
  }

  lemma {:induction false} ArrayStays(t: Tree, counts: seq<Path>, n: nat, rowsAt: Path)
    requires forall i :: 0 <= i < |counts| ==> Disjoint(counts[i], rowsAt)
    ensures Dig(PutCounts(t, counts, n), rowsAt) == Dig(t, rowsAt)
  {
    if counts != [] {
      var m := |counts| - 1;
      ArrayStays(t, counts[..m], n, rowsAt);
      DigPutElsewhere(PutCounts(t, counts[..m], n), counts[m], TNum(Itoa(n)), rowsAt);
    }
  }

  // ---- what the caller learns ----

  function Tails(ps: set<seq<string>>, k: string): set<seq<string>> {
    set p | p in ps && p != [] && p[0] == k :: p[1..]
  }

  /** The two trees agree everywhere except at, and below, the listed paths, which both have or both lack. */
  ghost predicate SameExcept(t: Tree, t': Tree, ps: set<seq<string>>)
    decreases t
  {
    || [] in ps
    || t == t'
    || (&& t.TObj? && t'.TObj? && t.fields.Keys == t'.fields.Keys
        && forall k :: k in t.fields ==> SameExcept(t.fields[k], t'.fields[k], Tails(ps, k)))
  }

  lemma TailsAdd(ps: set<seq<string>>, p: seq<string>, k: string)
    requires p != []
    ensures Tails(ps + {p}, k) == Tails(ps, k) + (if p[0] == k then {p[1..]} else {})
  {
  }

  /** Putting the same value at a listed path of both removes that path from the exceptions. */
  lemma {:induction false} PutBoth(t: Tree, t': Tree, ps: set<seq<string>>, p: seq<string>, val: Tree)
    requires SameExcept(t, t', ps + {p})
    ensures SameExcept(Put(t, p, val), Put(t', p, val), ps)
    decreases t
  {
    if [] !in ps && p != [] && t != t' {
      var u, u' := Put(t, p, val), Put(t', p, val);
      forall k | k in u.fields ensures SameExcept(u.fields[k], u'.fields[k], Tails(ps, k)) {
        TailsAdd(ps, p, k);
        if k == p[0] {
          PutBoth(t.fields[k], t'.fields[k], Tails(ps, k), p[1..], val);
        } else {
          assert Tails(ps + {p}, k) == Tails(ps, k);
        }
      }
    }
  }

  lemma {:induction false} NoExceptions(t: Tree, t': Tree)
    requires SameExcept(t, t', {})
    ensures t == t'
    decreases t
  {
    if t.TObj? && t'.TObj? && t.fields.Keys == t'.fields.Keys {
      forall k | k in t.fields ensures t.fields[k] == t'.fields[k] {
        assert Tails({}, k) == {};
        if t != t' {
          NoExceptions(t.fields[k], t'.fields[k]);
        }
      }
      assert t.fields == t'.fields;
    }
  }

  function CountPaths(counts: seq<Path>): set<seq<string>> {
    set i | 0 <= i < |counts| :: counts[i]
  }

  lemma {:induction false} PutCountsBoth(t: Tree, t': Tree, ps: set<seq<string>>, counts: seq<Path>, n: nat)
    requires SameExcept(t, t', ps + CountPaths(counts))
    ensures SameExcept(PutCounts(t, counts, n), PutCounts(t', counts, n), ps)
    decreases |counts|
  {
    if counts == [] {
      assert ps + CountPaths(counts) == ps;
    } else {
      var m := |counts| - 1;
      assert CountPaths(counts) == CountPaths(counts[..m]) + {counts[m]};
      assert ps + CountPaths(counts) == (ps + {counts[m]}) + CountPaths(counts[..m]);
      PutCountsBoth(t, t', ps + {counts[m]}, counts[..m], n);
      PutBoth(PutCounts(t, counts[..m], n), PutCounts(t', counts[..m], n), ps, counts[m], TNum(Itoa(n)));
    }
  }

  /**
   Filtering does not depend on other tenants: two upstream answers that differ only in rows not
   linked to the caller and in the listed counts give the same document and the same claims.
   */
  lemma FilterHidesOthers(j: Job, o: Ownership, v: Tree, v': Tree)
    requires ClaimStable(j.route)
    requires Dig(v, j.route.rowsAt).Some? && Dig(v, j.route.rowsAt).value.TArr?
    requires Dig(v', j.route.rowsAt).Some? && Dig(v', j.route.rowsAt).value.TArr?
    requires SameExcept(v, v', {j.route.rowsAt} + CountPaths(j.route.counts))
    requires LinkedRows(j, o, Dig(v, j.route.rowsAt).value.items)
          == LinkedRows(j, o, Dig(v', j.route.rowsAt).value.items)
    ensures Filter(j, o, v) == Filter(j, o, v')
  {
    var rows, rows' := Dig(v, j.route.rowsAt).value.items, Dig(v', j.route.rowsAt).value.items;
    KeptAreLinked(j, o, rows);
    KeptAreLinked(j, o, rows');
    var kept := LinkedRows(j, o, rows);
    var arr := TArr(kept);
    var paths := CountPaths(j.route.counts);
    assert {j.route.rowsAt} + paths == paths + {j.route.rowsAt};
    PutBoth(v, v', paths, j.route.rowsAt, arr);
    assert {} + paths == paths;
    PutCountsBoth(Put(v, j.route.rowsAt, arr), Put(v', j.route.rowsAt, arr), {}, j.route.counts, |kept|);
    NoExceptions(PutCounts(Put(v, j.route.rowsAt, arr), j.route.counts, |kept|),
                 PutCounts(Put(v', j.route.rowsAt, arr), j.route.counts, |kept|));
  }

  /** What the caller gets: exactly its linked rows in order, counts of those rows, and the rest untouched. */
  lemma FilterShows(j: Job, o: Ownership, v: Tree, rows: seq<Tree>)
    requires ClaimStable(j.route)
    requires Dig(v, j.route.rowsAt) == Some(TArr(rows))
    requires forall i :: 0 <= i < |j.route.counts| ==> Disjoint(j.route.counts[i], j.route.rowsAt)
    ensures var (answer, o') := Filter(j, o, v);
            var kept := LinkedRows(j, o, rows);
            && answer.Filtered?
            && Dig(answer.doc, j.route.rowsAt) == Some(TArr(kept))
            && (forall i :: 0 <= i < |j.route.counts| ==>
                  Dig(answer.doc, j.route.counts[i]) in {None, Some(TNum(Itoa(|kept|)))})
            && SameExcept(v, answer.doc, {j.route.rowsAt} + CountPaths(j.route.counts))
            && o' == ClaimAll(j, o, kept)
  {
    KeptAreLinked(j, o, rows);
    var kept := LinkedRows(j, o, rows);
    var arr := Put(v, j.route.rowsAt, TArr(kept));
    DigPut(v, j.route.rowsAt, TArr(kept));
    ArrayStays(arr, j.route.counts, |kept|, j.route.rowsAt);
    forall i | 0 <= i < |j.route.counts|
      ensures Dig(PutCounts(arr, j.route.counts, |kept|), j.route.counts[i]) in {None, Some(TNum(Itoa(|kept|)))}
    {
      CountsEqual(arr, j.route.counts, |kept|, i);
    }
    PutOnlyThere(v, v, {j.route.rowsAt} + CountPaths(j.route.counts), j.route.rowsAt, TArr(kept));
    PutCountsOnlyThere(v, arr, {j.route.rowsAt} + CountPaths(j.route.counts), j.route.counts, |kept|);
  }

  lemma {:induction false} PutOnlyThere(t: Tree, t': Tree, ps: set<seq<string>>, p: seq<string>, val: Tree)
    requires SameExcept(t, t', ps) && p in ps
    ensures SameExcept(t, Put(t', p, val), ps)
    decreases t
  {
    if [] !in ps && t'.TObj? && p[0] in t'.fields {
      var u := Put(t', p, val);
      assert t.TObj? && u.fields.Keys == t.fields.Keys;
      forall k | k in t.fields ensures SameExcept(t.fields[k], u.fields[k], Tails(ps, k)) {
        assert SameExcept(t.fields[k], t'.fields[k], Tails(ps, k));
        if k == p[0] {
          assert p[1..] in Tails(ps, k);
          PutOnlyThere(t.fields[k], t'.fields[k], Tails(ps, k), p[1..], val);
        }
      }
    }
  }

  lemma {:induction false} PutCountsOnlyThere(t: Tree, t': Tree, ps: set<seq<string>>, counts: seq<Path>, n: nat)
    requires SameExcept(t, t', ps) && CountPaths(counts) <= ps
    ensures SameExcept(t, PutCounts(t', counts, n), ps)
    decreases |counts|
  {
    if counts != [] {
      var m := |counts| - 1;
      assert CountPaths(counts) == CountPaths(counts[..m]) + {counts[m]};
      PutCountsOnlyThere(t, t', ps, counts[..m], n);
      PutOnlyThere(t, PutCounts(t', counts[..m], n), ps, counts[m], TNum(Itoa(n)));
    }
  }

  /** An answer without the configured array is passed on; one that holds anything else in its place never is. */
  lemma OnlyArraysAreFiltered(j: Job, o: Ownership, v: Tree)
    ensures Filter(j, o, v).0.PassedOn? <==> Dig(v, j.route.rowsAt).None?
    ensures Filter(j, o, v).0.Unfilterable? <==> Dig(v, j.route.rowsAt).Some? && !Dig(v, j.route.rowsAt).value.TArr?
    ensures !Filter(j, o, v).0.Filtered? ==> Filter(j, o, v).1 == o
  {
  }
}
