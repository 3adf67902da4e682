/**
 The credit section of the forward path, uninterrupted: seed the caller, reserve the price, call
 the partner, then keep the reservation or give it back. BrokerRuns has the same steps interleaved.
 */
module Broker {
  import opened Ledger
  import opened MemStore
  import opened BrokerRuns

  /** seedCaller as one function of the rows: past the cap the identity is recorded with nothing. */
  function Seeded(rows: Rows, app: string, caller: string, ip: string, c: AppConfig, now: int): (Rows, Provisioned) {
    var first := Provision(rows, app, caller, ip, c.seed, c.maxPerIP, c.cooldown, now);
    if first.1.IPCap? then Provision(rows, app, caller, ip, 0, 0, 0, now) else first
  }

  method SeedCaller(store: Store, app: string, caller: string, ip: string, c: AppConfig, now: int)
    returns (answer: Provisioned)
    modifies store`prov
    ensures (store.prov, answer) == Seeded(old(store.prov), app, caller, ip, c, now)
  {
    answer := store.Provision(app, caller, ip, c.seed, c.maxPerIP, c.cooldown, now);
    if answer.IPCap? {
      answer := store.Provision(app, caller, ip, 0, 0, 0, now);
    }
  }

  /** Seeding never blocks on the cap: it grants the seed under it and nothing past it, once. */
  lemma SeedingMeans(rows: Rows, app: string, caller: string, ip: string, c: AppConfig, now: int)
    ensures var k := Key(app, caller);
            var (rows', answer) := Seeded(rows, app, caller, ip, c, now);
            var full := c.maxPerIP > 0 && |OnIP(rows, app, ip)| >= c.maxPerIP;
            && !answer.IPCap?
            && (k in rows ==> k in rows' && Credits(rows', k) == Credits(rows, k))
            && (k !in rows ==> answer == Recorded(Row(app, caller, ip, now, now, if full then 0 else c.seed, 0), true))
            && (answer.Recorded? ==> k in rows')
            && rows' - {k} == rows - {k}
  {
    var k := Key(app, caller);
    var rows' := Seeded(rows, app, caller, ip, c, now).0;
    if k in rows' {
      UpdateOwn(rows, k, rows'[k]);
    }
  }

  /** A fixed-price call: the HTTP status it is answered with. */
  method FixedCall(store: Store, app: string, caller: string, ip: string, c: AppConfig, price: int, now: int,
                   outcome: Outcome)
    returns (status: int)
    requires Credits(store.prov, Key(app, caller)) >= 0
    modifies store`prov
    ensures var k := Key(app, caller);
            var (seeded, answer) := Seeded(old(store.prov), app, caller, ip, c, now);
            if answer.Cooldown? then status == 429 && store.prov == old(store.prov)
            else if price > 0 && price > Credits(seeded, k) then status == 402 && store.prov == seeded
            else if outcome.Replied? && Is2xx(outcome.status) then
              && status == outcome.status && store.prov - {k} == seeded - {k}
              && Credits(store.prov, k) == Credits(seeded, k) - Floor0(price)
            else
              && status == (if outcome.Replied? then outcome.status else 502)
              && store.prov == seeded
  {
    var answer := SeedCaller(store, app, caller, ip, c, now);
    SeedingMeans(old(store.prov), app, caller, ip, c, now);
    if answer.Cooldown? {
      return 429;
    }
    var k := Key(app, caller);
    ghost var seeded := store.prov;
    LedgerArithmetic(seeded, k, price);
    var admitted, _ := store.Debit(app, caller, price);
    if !admitted {
      return 402;
    }
    if outcome.CallFailed? || !Is2xx(outcome.status) {
      if price > 0 {
        store.Refund(app, caller, price);
      }
      return if outcome.CallFailed? then 502 else outcome.status;
    }
    UpdateOwn(seeded, k, store.prov[k]);
    return outcome.status;
  }

  /** A newcomer on a network that no identity of the app has used yet is granted the seed. */
  lemma NewNetworkIsSeeded(rows: Rows, app: string, caller: string, ip: string, c: AppConfig, now: int)
    requires Key(app, caller) !in rows && forall k :: k in rows ==> rows[k].app != app || rows[k].ip != ip
    ensures Credits(Seeded(rows, app, caller, ip, c, now).0, Key(app, caller)) == c.seed
  {
    assert OnIP(rows, app, ip) == {};
  }
}
