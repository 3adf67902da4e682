/**
 The resource-ownership ledger as a map from (app, type, id) to the owning caller, and the proof
 that the store's flat "app|type|id" keys implement it when app ids and type names hold no bar.
 */
module Owners {
  import opened Text
  import opened Ledger

  datatype Resource = Resource(app: string, rtype: string, rid: string)

  type Ownership = map<Resource, string>

  /** The single authorization predicate: an unclaimed resource belongs to nobody. */
  predicate Owns(o: Ownership, r: Resource, caller: string) {
    r.rid != "" && caller != "" && r in o && o[r] == caller
  }

  function Claim(o: Ownership, r: Resource, caller: string): Ownership {
    if r.rid == "" || caller == "" || r in o then o else o[r := caller]
  }

  function ClaimResult(o: Ownership, r: Resource, caller: string): ClaimAnswer {
    if r.rid == "" || caller == "" then BadClaim
    else if r in o && o[r] != caller then OwnedByOther
    else Claimed
  }

  function Release(o: Ownership, r: Resource): Ownership {
    o - {r}
  }

  function OwnedIds(o: Ownership, app: string, rtype: string, caller: string): set<string> {
    set r | r in o && r.app == app && r.rtype == rtype && o[r] == caller :: r.rid
  }

  // ---- the flat encoding ----

  predicate BarFree(r: Resource) {
    '|' !in r.app && '|' !in r.rtype
  }

  function FlatKey(r: Resource): string {
    OwnKey(r.app, r.rtype, r.rid)
  }

  ghost predicate Implements(flat: map<string, string>, o: Ownership) {
    && (forall r :: r in o ==> BarFree(r) && FlatKey(r) in flat && flat[FlatKey(r)] == o[r])
    && (forall k :: k in flat ==> exists r :: r in o && FlatKey(r) == k)
  }

  lemma FlatKeyParts(r: Resource)
    requires BarFree(r)
    ensures Cut(FlatKey(r), '|') == (r.app, Some(r.rtype + "|" + r.rid))
    ensures Cut(r.rtype + "|" + r.rid, '|') == (r.rtype, Some(r.rid))
  {
    assert FlatKey(r) == r.app + "|" + (r.rtype + "|" + r.rid);
    CutFirst(r.app, '|', r.rtype + "|" + r.rid);
    CutFirst(r.rtype, '|', r.rid);
  }

  /** Bar-free app and type: the flat key determines the resource, whatever its id contains. */
  lemma FlatKeyInjective(r: Resource, r': Resource)
    requires BarFree(r) && BarFree(r')
    ensures FlatKey(r) == FlatKey(r') <==> r == r'
  {
    FlatKeyParts(r);
    FlatKeyParts(r');
  }

  /** With a bar in the type two resources share a row, so the condition is needed. */
  lemma FlatKeyCollides()
    ensures FlatKey(Resource("a", "b|c", "d")) == FlatKey(Resource("a", "b", "c|d"))
  {
    assert FlatKey(Resource("a", "b|c", "d")) == "a|b|c|d";
    assert FlatKey(Resource("a", "b", "c|d")) == "a|b|c|d";
  }

  lemma FlatLookup(flat: map<string, string>, o: Ownership, r: Resource)
    requires Implements(flat, o) && BarFree(r)
    ensures FlatKey(r) in flat <==> r in o
    ensures r in o ==> flat[FlatKey(r)] == o[r]
  {
    if FlatKey(r) in flat {
      var r' :| r' in o && FlatKey(r') == FlatKey(r);
      FlatKeyInjective(r, r');
    }
  }

  /** The flat check is the ownership of the resource. */
  lemma FlatOwnsImplements(flat: map<string, string>, o: Ownership, r: Resource, caller: string)
    requires Implements(flat, o) && BarFree(r)
    ensures FlatOwns(flat, r.app, r.rtype, r.rid, caller) <==> Owns(o, r, caller)
  {
    FlatLookup(flat, o, r);
  }

  lemma FlatClaimImplements(flat: map<string, string>, o: Ownership, r: Resource, caller: string)
    requires Implements(flat, o) && BarFree(r)
    ensures Implements(FlatClaim(flat, r.app, r.rtype, r.rid, caller).0, Claim(o, r, caller))
    ensures FlatClaim(flat, r.app, r.rtype, r.rid, caller).1 == ClaimResult(o, r, caller)
  {
    FlatLookup(flat, o, r);
    var flat' := FlatClaim(flat, r.app, r.rtype, r.rid, caller).0;
    var o' := Claim(o, r, caller);
    forall q | q in o' ensures BarFree(q) && FlatKey(q) in flat' && flat'[FlatKey(q)] == o'[q] {
      FlatKeyInjective(q, r);
    }
    forall k | k in flat' ensures exists q :: q in o' && FlatKey(q) == k {
      if k in flat {
        var q :| q in o && FlatKey(q) == k;
        assert q in o';
      } else {
        assert r in o';
      }
    }
  }

  lemma FlatReleaseImplements(flat: map<string, string>, o: Ownership, r: Resource)
    requires Implements(flat, o) && BarFree(r)
    ensures Implements(flat - {FlatKey(r)}, Release(o, r))
  {
    forall q | q in o ensures FlatKey(q) == FlatKey(r) <==> q == r {
      FlatKeyInjective(q, r);
    }
    forall k | k in flat - {FlatKey(r)} ensures exists q :: q in Release(o, r) && FlatKey(q) == k {
      var q :| q in o && FlatKey(q) == k;
      assert q in Release(o, r);
    }
  }

  /** The prefix scan of OwnedSet finds exactly the caller's ids of that type. */
  lemma FlatOwnedIsOwned(flat: map<string, string>, o: Ownership, app: string, rtype: string, caller: string)
    requires Implements(flat, o) && '|' !in app && '|' !in rtype
    ensures FlatOwned(flat, app, rtype, caller) == OwnedIds(o, app, rtype, caller)
  {
    var prefix := OwnPrefix(app, rtype);
    forall id ensures id in FlatOwned(flat, app, rtype, caller) <==> id in OwnedIds(o, app, rtype, caller) {
      var r := Resource(app, rtype, id);
      FlatLookup(flat, o, r);
      assert FlatKey(r)[|prefix|..] == id && prefix <= FlatKey(r);
      if id in FlatOwned(flat, app, rtype, caller) {
        var k :| k in flat && flat[k] == caller && prefix <= k && k[|prefix|..] == id;
        assert k == FlatKey(r);
      }
      if id in OwnedIds(o, app, rtype, caller) {
        assert FlatKey(r) in flat;
      }
    }
  }
}
