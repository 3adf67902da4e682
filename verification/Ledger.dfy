/**
 What one atomic store call does to the flat string-keyed maps: the per-caller credit rows and
 the resource-ownership rows. MemStore.Store implements these functions; the interleaving
 models reason about them.
 */
module Ledger {
  import opened Text

  // ---- credit ledger ----

  datatype Row = Row(app: string, caller: string, ip: string,
                     firstSeen: int, lastMint: int, credits: int, rot: nat)

  type Rows = map<string, Row>

  datatype Provisioned = Recorded(row: Row, isNew: bool) | IPCap | Cooldown

  function Key(app: string, caller: string): string {
    app + "|" + caller
  }

  /** The rows that count against the per-IP identity cap. */
  function OnIP(rows: Rows, app: string, ip: string): set<string> {
    set k | k in rows && rows[k].app == app && rows[k].ip == ip
  }

  function Provision(rows: Rows, app: string, caller: string, ip: string,
                     seed: int, maxPerIP: int, cooldown: int, now: int): (Rows, Provisioned)
  {
    var k := Key(app, caller);
    if k in rows then
      if cooldown > 0 && now - rows[k].lastMint < cooldown then (rows, Cooldown)
      else
        var row := rows[k].(lastMint := now);
        (rows[k := row], Recorded(row, false))
    else if maxPerIP > 0 && |OnIP(rows, app, ip)| >= maxPerIP then (rows, IPCap)
    else
      var row := Row(app, caller, ip, now, now, seed, 0);
      (rows[k := row], Recorded(row, true))
  }

  function Credits(rows: Rows, k: string): int {
    if k in rows then rows[k].credits else 0
  }

  function AddCredits(rows: Rows, k: string, n: int): Rows {
    if k in rows then rows[k := rows[k].(credits := rows[k].credits + n)] else rows
  }

  function Debit(rows: Rows, k: string, n: int): (Rows, bool) {
    if n <= 0 then (rows, true)
    else if k !in rows || rows[k].credits < n then (rows, false)
    else (AddCredits(rows, k, -n), true)
  }

  function Refund(rows: Rows, k: string, n: int): Rows {
    if n <= 0 then rows else AddCredits(rows, k, n)
  }

  /** What Settle takes: the asked amount, floored so that the balance stops at zero. */
  function Settled(rows: Rows, k: string, n: int): int {
    if k !in rows || n <= 0 then 0 else if n > rows[k].credits then rows[k].credits else n
  }

  function Settle(rows: Rows, k: string, n: int): Rows {
    AddCredits(rows, k, -Settled(rows, k, n))
  }

  function Rotate(rows: Rows, k: string): Rows {
    if k in rows then rows[k := rows[k].(rot := rows[k].rot + 1)] else rows
  }

  /** A debit is all or nothing, a refund undoes it, and a settlement floors the balance at zero. */
  lemma LedgerArithmetic(rows: Rows, k: string, n: int)
    requires k in rows && rows[k].credits >= 0
    ensures Debit(rows, k, n).1 <==> n <= rows[k].credits || n <= 0
    ensures var (rows', ok) := Debit(rows, k, n);
            && Credits(rows', k) == rows[k].credits - (if ok && n > 0 then n else 0)
            && (ok ==> Refund(rows', k, n) == rows)
    ensures Credits(Settle(rows, k, n), k)
         == if n <= 0 then rows[k].credits else if n >= rows[k].credits then 0 else rows[k].credits - n
  {
    var (rows', ok) := Debit(rows, k, n);
    if ok {
      assert Refund(rows', k, n) == rows;
    }
  }

  /** After a mint at t, a repeat at t' is refused exactly inside the cooldown; it never changes the grant. */
  lemma CooldownBetweenMints(rows: Rows, app: string, caller: string, ip: string, seed: int, maxPerIP: int,
                             cooldown: int, t: int, ip': string, seed': int, maxPerIP': int, t': int)
    requires Provision(rows, app, caller, ip, seed, maxPerIP, cooldown, t).1.Recorded?
    ensures var rows1 := Provision(rows, app, caller, ip, seed, maxPerIP, cooldown, t).0;
            var (rows2, answer) := Provision(rows1, app, caller, ip', seed', maxPerIP', cooldown, t');
            && (answer.Cooldown? <==> cooldown > 0 && t' - t < cooldown)
            && (answer.Cooldown? ==> rows2 == rows1)
            && (!answer.Cooldown? ==> answer.Recorded? && !answer.isNew)
            && Credits(rows2, Key(app, caller)) == Credits(rows1, Key(app, caller))
  {
    var rows1 := Provision(rows, app, caller, ip, seed, maxPerIP, cooldown, t).0;
    assert Key(app, caller) in rows1 && rows1[Key(app, caller)].lastMint == t;
  }

  /** With a bar-free app id the flat key determines the app and the caller. */
  lemma KeyInjective(app: string, caller: string, app': string, caller': string)
    requires '|' !in app && '|' !in app'
    ensures Key(app, caller) == Key(app', caller') <==> app == app' && caller == caller'
  {
    CutFirst(app, '|', caller);
    CutFirst(app', '|', caller');
  }

  /** Without that, two different identities share one row. */
  lemma KeyCollides()
    ensures Key("a|b", "c") == Key("a", "b|c")
  {
    assert Key("a|b", "c") == "a|b|c";
    assert Key("a", "b|c") == "a|b|c";
  }

  // ---- ownership rows ----

  datatype ClaimAnswer = Claimed | OwnedByOther | BadClaim

  function OwnKey(app: string, rtype: string, rid: string): string {
    OwnPrefix(app, rtype) + rid
  }

  function OwnPrefix(app: string, rtype: string): string {
    app + "|" + rtype + "|"
  }

  predicate FlatOwns(owner: map<string, string>, app: string, rtype: string, rid: string, caller: string) {
    var k := OwnKey(app, rtype, rid);
    rid != "" && caller != "" && k in owner && owner[k] == caller
  }

  function FlatClaim(owner: map<string, string>, app: string, rtype: string, rid: string, caller: string)
    : (map<string, string>, ClaimAnswer)
  {
    var k := OwnKey(app, rtype, rid);
    if rid == "" || caller == "" then (owner, BadClaim)
    else if k in owner then (owner, if owner[k] == caller then Claimed else OwnedByOther)
    else (owner[k := caller], Claimed)
  }

  function FlatOwned(owner: map<string, string>, app: string, rtype: string, caller: string): set<string> {
    set k | k in owner && owner[k] == caller && OwnPrefix(app, rtype) <= k :: k[|OwnPrefix(app, rtype)|..]
  }
}
