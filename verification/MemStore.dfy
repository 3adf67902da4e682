/**
 The in-memory store: call counts, credit rows and ownership rows in flat string-keyed maps.
 Each method runs under the store's lock, so each is one atomic step whose contract ties the
 new map to a function of the old one.
 */
module MemStore {
  import opened Text
  import opened Ledger

  lemma OneLess(on: set<string>, todo: set<string>, k: string)
    requires k in todo
    ensures |on - (todo - {k})| == |on - todo| + if k in on then 1 else 0
  {
    assert on - (todo - {k}) == (on - todo) + (if k in on then {k} else {});
  }

  class Store {
    var calls: map<string, nat>
    var prov: Rows
    var owner: map<string, string>

    constructor ()
      ensures calls == map[] && prov == map[] && owner == map[]
    {
      calls, prov, owner := map[], map[], map[];
    }

    /** Check-and-count in one step: a counted call never takes the total past a positive quota. */
    method Admit(app: string, caller: string, quota: int) returns (admitted: bool, total: nat)
      modifies `calls
      ensures Key(app, caller) in calls && calls[Key(app, caller)] == total
      ensures var before := if Key(app, caller) in old(calls) then old(calls)[Key(app, caller)] else 0;
              && admitted == !(quota > 0 && before >= quota)
              && total == (if admitted then before + 1 else before)
              && (admitted && quota > 0 ==> total <= quota)
      ensures calls - {Key(app, caller)} == old(calls) - {Key(app, caller)}
    {
      var k := Key(app, caller);
      if k !in calls {
        calls := calls[k := 0];
      }
      if quota > 0 && calls[k] >= quota {
        return false, calls[k];
      }
      calls := calls[k := calls[k] + 1];
      return true, calls[k];
    }

    method CountOnIP(app: string, ip: string) returns (distinct: nat)
      ensures distinct == |OnIP(prov, app, ip)|
    {
      distinct := 0;
      var todo := prov.Keys;
      ghost var on := OnIP(prov, app, ip);
      while todo != {}
        invariant todo <= prov.Keys
        invariant distinct == |on - todo|
        decreases |todo|
      {
        var k :| k in todo;
        OneLess(on, todo, k);
        todo := todo - {k};
        if prov[k].app == app && prov[k].ip == ip {
          distinct := distinct + 1;
        }
      }
      assert on - {} == on;
    }

    method Provision(app: string, caller: string, ip: string, seed: int, maxPerIP: int, cooldown: int, now: int)
      returns (answer: Provisioned)
      modifies `prov
      ensures (prov, answer) == Ledger.Provision(old(prov), app, caller, ip, seed, maxPerIP, cooldown, now)
    {
      var k := Key(app, caller);
      if k in prov {
        if cooldown > 0 && now - prov[k].lastMint < cooldown {
          return Cooldown;
        }
        var row := prov[k].(lastMint := now);
        prov := prov[k := row];
        return Recorded(row, false);
      }
      if maxPerIP > 0 {
        var distinct := CountOnIP(app, ip);
        if distinct >= maxPerIP {
          return IPCap;
        }
      }
      var row := Row(app, caller, ip, now, now, seed, 0);
      prov := prov[k := row];
      return Recorded(row, true);
    }

    method Credit(app: string, caller: string) returns (credits: int)
      ensures credits == Credits(prov, Key(app, caller))
    {
      if Key(app, caller) in prov {
        return prov[Key(app, caller)].credits;
      }
      return 0;
    }

    method Debit(app: string, caller: string, n: int) returns (ok: bool, remaining: int)
      modifies `prov
      ensures (prov, ok) == Ledger.Debit(old(prov), Key(app, caller), n)
      ensures remaining == Credits(prov, Key(app, caller))
    {
      var k := Key(app, caller);
      if n <= 0 {
        remaining := Credit(app, caller);
        return true, remaining;
      }
      if k !in prov || prov[k].credits < n {
        return false, if k in prov then prov[k].credits else 0;
      }
      prov := prov[k := prov[k].(credits := prov[k].credits - n)];
      return true, prov[k].credits;
    }

    method Refund(app: string, caller: string, n: int)
      modifies `prov
      ensures prov == Ledger.Refund(old(prov), Key(app, caller), n)
    {
      var k := Key(app, caller);
      if n > 0 && k in prov {
        prov := prov[k := prov[k].(credits := prov[k].credits + n)];
      }
    }

    method Settle(app: string, caller: string, n: int) returns (remaining: int)
      modifies `prov
      ensures prov == Ledger.Settle(old(prov), Key(app, caller), n)
      ensures remaining == Credits(prov, Key(app, caller))
    {
      var k := Key(app, caller);
      if k !in prov {
        return 0;
      }
      var m := n;
      if m > 0 {
        if m > prov[k].credits {
          m := prov[k].credits;
        }
        prov := prov[k := prov[k].(credits := prov[k].credits - m)];
      } else {
        assert prov[k := prov[k].(credits := prov[k].credits - 0)] == prov;
      }
      return prov[k].credits;
    }

    method Get(app: string, caller: string) returns (row: Option<Row>)
      ensures row == if Key(app, caller) in prov then Some(prov[Key(app, caller)]) else None
    {
      if Key(app, caller) in prov {
        return Some(prov[Key(app, caller)]);
      }
      return None;
    }

    method Rotate(app: string, caller: string) returns (row: Option<Row>)
      modifies `prov
      ensures prov == Ledger.Rotate(old(prov), Key(app, caller))
      ensures row == if Key(app, caller) in prov then Some(prov[Key(app, caller)]) else None
    {
      var k := Key(app, caller);
      if k !in prov {
        return None;
      }
      prov := prov[k := prov[k].(rot := prov[k].rot + 1)];
      return Some(prov[k]);
    }

    method Claim(app: string, rtype: string, rid: string, caller: string) returns (answer: ClaimAnswer)
      modifies `owner
      ensures (owner, answer) == FlatClaim(old(owner), app, rtype, rid, caller)
    {
      if rid == "" || caller == "" {
        return BadClaim;
      }
      var k := OwnKey(app, rtype, rid);
      if k in owner {
        if owner[k] == caller {
          return Claimed;
        }
        return OwnedByOther;
      }
      owner := owner[k := caller];
      return Claimed;
    }

    method OwnerOf(app: string, rtype: string, rid: string) returns (caller: Option<string>)
      ensures caller == var k := OwnKey(app, rtype, rid); if k in owner then Some(owner[k]) else None
    {
      var k := OwnKey(app, rtype, rid);
      if k in owner {
        return Some(owner[k]);
      }
      return None;
    }

    /** The authorization check of the tenancy code: a missing row is a refusal. */
    method Owns(app: string, rtype: string, rid: string, caller: string) returns (ok: bool)
      ensures ok == FlatOwns(owner, app, rtype, rid, caller)
    {
      if rid == "" || caller == "" {
        return false;
      }
      var found := OwnerOf(app, rtype, rid);
      return found == Some(caller);
    }

    method OwnedSet(app: string, rtype: string, caller: string) returns (out: set<string>)
      ensures out == FlatOwned(owner, app, rtype, caller)
    {
      out := {};
      var prefix := OwnPrefix(app, rtype);
      var todo := owner.Keys;
      while todo != {}
        invariant todo <= owner.Keys
        invariant out == set k | k in owner.Keys - todo && owner[k] == caller && prefix <= k :: k[|prefix|..]
        decreases |todo|
      {
        var k :| k in todo;
        var rest := todo - {k};
        assert owner.Keys - rest == (owner.Keys - todo) + {k};
        if owner[k] == caller && prefix <= k {
          out := out + {k[|prefix|..]};
        }
        todo := rest;
      }
    }

    method Release(app: string, rtype: string, rid: string)
      modifies `owner
      ensures owner == old(owner) - {OwnKey(app, rtype, rid)}
    {
      owner := owner - {OwnKey(app, rtype, rid)};
    }
  }
}
