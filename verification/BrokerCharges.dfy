/**
 What each kind of request costs: the whole effect of one that runs alone, and, however requests
 interleave, exactly when and how much the log shows it settling or draining.
 */
module BrokerCharges {
  import opened Text
  import opened Ledger
  import opened BrokerRuns
  import opened Broker

  // ---- one request alone ----

  /** n steps of r with nothing in between, on one reading of the clock and one upstream answer. */
  function Alone(cfg: Registry, rows: Rows, r: Request, x: Input, n: nat): (Rows, Request)
    decreases n
  {
    if n == 0 then (rows, r)
    else
      var m := Advance(cfg, rows, r, x);
      Alone(cfg, m.rows, r.(pc := m.pc), x, n - 1)
  }

  /** More steps than any request takes. */
  const ENOUGH := 5

  predicate Finishes(cfg: Registry, rows: Rows, r: Request, x: Input, rows': Rows) {
    Alone(cfg, rows, r, x, ENOUGH).0 == rows' && Alone(cfg, rows, r, x, ENOUGH).1.pc.Done?
  }

  /** Whether the request has been forwarded by the time it is done. */
  predicate Forwarded(cfg: Registry, rows: Rows, r: Request, x: Input) {
    Alone(cfg, rows, r, x, ENOUGH).1.pc != Done(Untouched)
  }

  lemma Unroll(cfg: Registry, rows: Rows, r: Request, x: Input, n: nat)
    requires n > 0
    ensures Alone(cfg, rows, r, x, n)
         == Alone(cfg, Advance(cfg, rows, r, x).rows, r.(pc := Advance(cfg, rows, r, x).pc), x, n - 1)
  {
  }

  lemma {:induction false} DoneStays(cfg: Registry, rows: Rows, r: Request, x: Input, n: nat)
    requires r.pc.Done?
    ensures Alone(cfg, rows, r, x, n) == (rows, r)
  {
    if n > 0 {
      DoneStays(cfg, rows, r, x, n - 1);
    }
  }

  function Arrived(app: string, caller: string, ip: string, kind: Kind): Request {
    Request(app, caller, ip, kind, First(kind))
  }

  function Least(a: int, b: int): int {
    if a < b then a else b
  }

  predicate Succeeds(x: Input) {
    x.outcome.Replied? && 200 <= x.outcome.status <= 299
  }

  // Each phase of a request, with n steps to go.

  lemma GivesBack(cfg: Registry, rows: Rows, r: Request, x: Input, n: nat)
    requires r.pc.Refunding? && n >= 1
    ensures var (rows', r') := Alone(cfg, rows, r, x, n);
            r'.pc == Done(GivenBack(r.pc.held)) && rows' == Refund(rows, RequestKey(r), r.pc.held)
  {
    Unroll(cfg, rows, r, x, n);
    DoneStays(cfg, Refund(rows, RequestKey(r), r.pc.held), r.(pc := Done(GivenBack(r.pc.held))), x, n - 1);
  }

  lemma Settles(cfg: Registry, rows: Rows, r: Request, x: Input, n: nat)
    requires r.pc.Settling? && n >= 1
    ensures var (rows', r') := Alone(cfg, rows, r, x, n);
            r'.pc == Done(KeptAll(0)) && rows' == Settle(rows, RequestKey(r), r.pc.micros)
  {
    Unroll(cfg, rows, r, x, n);
    DoneStays(cfg, Settle(rows, RequestKey(r), r.pc.micros), r.(pc := Done(KeptAll(0))), x, n - 1);
  }

  /** From the upstream call on: keep on 2xx, and settle what the partner reports if billable; give back otherwise. */
  lemma Concludes(cfg: Registry, rows: Rows, r: Request, x: Input, n: nat)
    requires r.pc.InFlight? && n >= 2
    ensures var (rows', r') := Alone(cfg, rows, r, x, n);
            && r'.pc.Done? && r'.pc != Done(Untouched)
            && rows' == if !Succeeds(x) then Refund(rows, RequestKey(r), r.pc.held)
                        else if r.kind == ResponseCall(true) && x.outcome.micros > 0
                        then Settle(rows, RequestKey(r), x.outcome.micros) else rows
  {
    Unroll(cfg, rows, r, x, n);
    var m := Advance(cfg, rows, r, x);
    var r1 := r.(pc := m.pc);
    if m.pc.Refunding? {
      GivesBack(cfg, rows, r1, x, n - 1);
    } else if m.pc.Settling? {
      Settles(cfg, rows, r1, x, n - 1);
    } else {
      DoneStays(cfg, rows, r1, x, n - 1);
    }
  }

  predicate Affords(rows: Rows, k: string, price: int) {
    price <= 0 || (k in rows && price <= rows[k].credits)
  }

  /** The rows with a price taken off, if it is one. */
  function Charged(rows: Rows, k: string, price: int): Rows {
    if price > 0 && k in rows then rows[k := rows[k].(credits := rows[k].credits - price)] else rows
  }

  lemma RefundsCharged(rows: Rows, k: string, price: int)
    requires Affords(rows, k, price)
    ensures Debit(rows, k, price) == (Charged(rows, k, price), true)
    ensures Refund(Charged(rows, k, price), k, Floor0(price)) == rows
  {
    if price > 0 {
      assert rows[k].(credits := rows[k].credits - price).(credits := rows[k].credits) == rows[k];
      assert rows[k := rows[k]] == rows;
    }
  }

  /** A fixed-price request about to reserve: short of funds it does nothing; otherwise it pays on 2xx and only then. */
  lemma PaysFixed(cfg: Registry, rows: Rows, r: Request, x: Input, n: nat, price: int)
    requires r.pc.Reserving? && n >= 3 && (r.kind == FixedCall(price) || r.kind == PushCall(price))
    ensures var (rows', r') := Alone(cfg, rows, r, x, n);
            && r'.pc.Done? && (r'.pc != Done(Untouched) <==> Affords(rows, RequestKey(r), price))
            && rows' == if Affords(rows, RequestKey(r), price) && Succeeds(x)
                        then Charged(rows, RequestKey(r), price) else rows
  {
    var k := RequestKey(r);
    Unroll(cfg, rows, r, x, n);
    if Affords(rows, k, price) {
      RefundsCharged(rows, k, price);
      Concludes(cfg, Charged(rows, k, price), r.(pc := InFlight(Floor0(price))), x, n - 1);
    } else {
      DoneStays(cfg, rows, r.(pc := Done(Untouched)), x, n - 1);
    }
  }

  /** What a response-priced request leaves: what the partner reports on 2xx, down to zero, if it is billable. */
  function Reported(rows: Rows, k: string, billable: bool, x: Input): Rows {
    if billable && Succeeds(x) && x.outcome.micros > 0 && k in rows && rows[k].credits > 0
    then Charged(rows, k, Least(x.outcome.micros, rows[k].credits)) else rows
  }

  lemma PaysReported(cfg: Registry, rows: Rows, r: Request, x: Input, n: nat, billable: bool)
    requires r.pc.Reserving? && n >= 3 && r.kind == ResponseCall(billable)
    ensures var (rows', r') := Alone(cfg, rows, r, x, n);
            && r'.pc.Done? && rows' == Reported(rows, RequestKey(r), billable, x)
            && (r'.pc != Done(Untouched) <==> billable ==> Credits(rows, RequestKey(r)) > 0)
  {
    var k := RequestKey(r);
    Unroll(cfg, rows, r, x, n);
    if billable && Credits(rows, k) <= 0 {
      DoneStays(cfg, rows, r.(pc := Done(Untouched)), x, n - 1);
    } else {
      Concludes(cfg, rows, r.(pc := InFlight(0)), x, n - 1);
    }
  }

  /** The steps that seed a caller. */
  lemma Seeds(cfg: Registry, rows: Rows, r: Request, x: Input, n: nat)
    requires r.pc.Seeding? && n >= 2 && !r.kind.ProvisionCall?
    ensures var (seeded, answer) := Seeded(rows, r.app, r.caller, r.ip, Config(cfg, r.app), x.now);
            && (answer.Cooldown? ==>
                  Alone(cfg, rows, r, x, n) == (rows, r.(pc := Done(Untouched))))
            && (answer.Recorded? ==>
                  exists j: nat :: n - 2 <= j < n &&
                                   Alone(cfg, rows, r, x, n) == Alone(cfg, seeded, r.(pc := AfterSeed(r.kind)), x, j))
  {
    var c := Config(cfg, r.app);
    Unroll(cfg, rows, r, x, n);
    var first := Provision(rows, r.app, r.caller, r.ip, c.seed, c.maxPerIP, c.cooldown, x.now);
    match first.1 {
      case Cooldown => DoneStays(cfg, rows, r.(pc := Done(Untouched)), x, n - 1);
      case IPCap => Unroll(cfg, rows, r.(pc := SeedingZero), x, n - 1);
      case Recorded(_, _) =>
    }
  }

  /** A fixed-price call alone: refused inside the cooldown or short of funds, and billed on 2xx only. */
  lemma FixedCallAlone(cfg: Registry, rows: Rows, app: string, caller: string, ip: string, price: int, x: Input)
    requires app in cfg
    ensures var k := Key(app, caller);
            var (seeded, answer) := Seeded(rows, app, caller, ip, cfg[app], x.now);
            && Finishes(cfg, rows, Arrived(app, caller, ip, FixedCall(price)), x,
                        if answer.Cooldown? then rows
                        else if Affords(seeded, k, price) && Succeeds(x) then Charged(seeded, k, price)
                        else seeded)
            && (Forwarded(cfg, rows, Arrived(app, caller, ip, FixedCall(price)), x)
                <==> !answer.Cooldown? && Affords(seeded, k, price))
  {
    var r := Arrived(app, caller, ip, FixedCall(price));
    Seeds(cfg, rows, r, x, ENOUGH);
    SeedingMeans(rows, app, caller, ip, cfg[app], x.now);
    var (seeded, answer) := Seeded(rows, app, caller, ip, cfg[app], x.now);
    if answer.Recorded? {
      var j: nat :| ENOUGH - 2 <= j < ENOUGH
                    && Alone(cfg, rows, r, x, ENOUGH) == Alone(cfg, seeded, r.(pc := AfterSeed(r.kind)), x, j);
      PaysFixed(cfg, seeded, r.(pc := Reserving), x, j, price);
    }
  }

  /** A response-priced call alone pays what the partner reports on a billable 2xx, down to zero, and nothing else. */
  lemma ResponseCallAlone(cfg: Registry, rows: Rows, app: string, caller: string, ip: string, billable: bool, x: Input)
    requires app in cfg
    ensures var k := Key(app, caller);
            var (seeded, answer) := Seeded(rows, app, caller, ip, cfg[app], x.now);
            && Finishes(cfg, rows, Arrived(app, caller, ip, ResponseCall(billable)), x,
                        if answer.Cooldown? then rows else Reported(seeded, k, billable, x))
            && (Forwarded(cfg, rows, Arrived(app, caller, ip, ResponseCall(billable)), x)
                <==> !answer.Cooldown? && (billable ==> Credits(seeded, k) > 0))
  {
    var r := Arrived(app, caller, ip, ResponseCall(billable));
    Seeds(cfg, rows, r, x, ENOUGH);
    SeedingMeans(rows, app, caller, ip, cfg[app], x.now);
    var (seeded, answer) := Seeded(rows, app, caller, ip, cfg[app], x.now);
    if answer.Recorded? {
      var j: nat :| ENOUGH - 2 <= j < ENOUGH
                    && Alone(cfg, rows, r, x, ENOUGH) == Alone(cfg, seeded, r.(pc := AfterSeed(r.kind)), x, j);
      PaysReported(cfg, seeded, r.(pc := Reserving), x, j, billable);
    }
  }

  /** A cloud push alone: nothing without a positive balance that covers the price, and billed on 2xx only. */
  lemma PushAlone(cfg: Registry, rows: Rows, app: string, caller: string, ip: string, price: int, x: Input)
    ensures var k := Key(app, caller);
            && Finishes(cfg, rows, Arrived(app, caller, ip, PushCall(price)), x,
                        if k in rows && rows[k].credits > 0 && price <= rows[k].credits && Succeeds(x)
                        then Charged(rows, k, price) else rows)
            && (Forwarded(cfg, rows, Arrived(app, caller, ip, PushCall(price)), x)
                <==> k in rows && rows[k].credits > 0 && price <= rows[k].credits)
  {
    var r := Arrived(app, caller, ip, PushCall(price));
    Unroll(cfg, rows, r, x, ENOUGH);
    if Credits(rows, Key(app, caller)) > 0 {
      PaysFixed(cfg, rows, r.(pc := Reserving), x, ENOUGH - 1, price);
    } else {
      DoneStays(cfg, rows, r.(pc := Done(Untouched)), x, ENOUGH - 1);
    }
  }

  /** A balance read alone seeds a newcomer and leaves everybody else as they are. */
  lemma BalanceReadAlone(cfg: Registry, rows: Rows, app: string, caller: string, ip: string, x: Input)
    requires app in cfg
    ensures Finishes(cfg, rows, Arrived(app, caller, ip, BalanceRead), x,
                     if Key(app, caller) in rows then rows
                     else Seeded(rows, app, caller, ip, cfg[app], x.now).0)
  {
    var r := Arrived(app, caller, ip, BalanceRead);
    Unroll(cfg, rows, r, x, ENOUGH);
    if Key(app, caller) in rows {
      DoneStays(cfg, rows, r.(pc := Done(Untouched)), x, ENOUGH - 1);
    } else {
      var r1 := r.(pc := Seeding);
      Seeds(cfg, rows, r1, x, ENOUGH - 1);
      SeedingMeans(rows, app, caller, ip, cfg[app], x.now);
      var seeded := Seeded(rows, app, caller, ip, cfg[app], x.now).0;
      var j: nat :| ENOUGH - 3 <= j < ENOUGH - 1
                    && Alone(cfg, rows, r1, x, ENOUGH - 1) == Alone(cfg, seeded, r1.(pc := Done(Untouched)), x, j);
      DoneStays(cfg, seeded, r1.(pc := Done(Untouched)), x, j);
    }
  }

  /** A provisioning request alone is one Provision of the store, refused past the cap; a rotation only rotates. */
  lemma ProvisionAlone(cfg: Registry, rows: Rows, app: string, caller: string, ip: string, x: Input)
    requires app in cfg
    ensures var c := cfg[app];
            Finishes(cfg, rows, Arrived(app, caller, ip, ProvisionCall), x,
                     Provision(rows, app, caller, ip, c.seed, c.maxPerIP, c.cooldown, x.now).0)
    ensures Finishes(cfg, rows, Arrived(app, caller, ip, RotateCall), x, Rotate(rows, Key(app, caller)))
  {
    var c := cfg[app];
    var r, q := Arrived(app, caller, ip, ProvisionCall), Arrived(app, caller, ip, RotateCall);
    Unroll(cfg, rows, r, x, ENOUGH);
    DoneStays(cfg, Provision(rows, app, caller, ip, c.seed, c.maxPerIP, c.cooldown, x.now).0,
              r.(pc := Done(Untouched)), x, ENOUGH - 1);
    Unroll(cfg, rows, q, x, ENOUGH);
    DoneStays(cfg, Rotate(rows, Key(app, caller)), q.(pc := Done(Untouched)), x, ENOUGH - 1);
  }

  /** A meter charge alone takes the cost, down to zero. */
  lemma MeterAlone(cfg: Registry, rows: Rows, app: string, caller: string, ip: string, cost: int, x: Input)
    ensures var k := Key(app, caller);
            Finishes(cfg, rows, Arrived(app, caller, ip, MeterCharge(cost)), x,
                     if k in rows && rows[k].credits > 0 then Charged(rows, k, Least(cost, rows[k].credits)) else rows)
  {
    var k := Key(app, caller);
    var r := Arrived(app, caller, ip, MeterCharge(cost));
    Unroll(cfg, rows, r, x, ENOUGH);
    var m := Advance(cfg, rows, r, x);
    if m.pc.Draining? {
      Unroll(cfg, rows, r.(pc := m.pc), x, ENOUGH - 1);
      DoneStays(cfg, Debit(rows, k, m.pc.charge).0, r.(pc := Done(Untouched)), x, ENOUGH - 2);
    } else {
      DoneStays(cfg, rows, r.(pc := Done(Untouched)), x, ENOUGH - 1);
    }
  }

  // ---- what the log of any run shows a request settling ----

  /** The amounts request i has settled, in order. */
  function SettledBy(log: seq<Entry>, i: nat): seq<int> {
    if log == [] then []
    else
      var e := log[|log| - 1];
      SettledBy(log[..|log| - 1], i) + if e.rid == i && e.event.Settled? then [e.event.paid] else []
  }

  /** The amounts request i has drained, in order. */
  function DrainedBy(log: seq<Entry>, i: nat): seq<int> {
    if log == [] then []
    else
      var e := log[|log| - 1];
      DrainedBy(log[..|log| - 1], i) + if e.rid == i && e.event.Drained? then [e.event.paid] else []
  }

  lemma StampTallies(log: seq<Entry>, rid: nat, key: string, events: seq<Event>, i: nat)
    requires |events| <= 1
    ensures SettledBy(log + Stamp(rid, key, events), i)
         == SettledBy(log, i) + if rid == i && events != [] && events[0].Settled? then [events[0].paid] else []
    ensures DrainedBy(log + Stamp(rid, key, events), i)
         == DrainedBy(log, i) + if rid == i && events != [] && events[0].Drained? then [events[0].paid] else []
  {
    StampOne(log, rid, key, events);
  }

  /** The state after request j's own step, read off its move. */
  lemma OwnStep(cfg: Registry, acts: seq<Action>, j: nat, x: Input) returns (m: Move)
    requires acts != [] && acts[|acts| - 1] == Act(j, x) && j < |Run(cfg, acts[..|acts| - 1]).reqs|
    ensures var s, s' := Run(cfg, acts[..|acts| - 1]), Run(cfg, acts);
            && m == Advance(cfg, s.rows, s.reqs[j], x) && |m.events| <= 1
            && s'.rows == m.rows && s'.reqs == s.reqs[j := s.reqs[j].(pc := m.pc)]
            && (forall i :: SettledBy(s'.log, i) == SettledBy(s.log, i)
                  + if j == i && m.events != [] && m.events[0].Settled? then [m.events[0].paid] else [])
            && (forall i :: DrainedBy(s'.log, i) == DrainedBy(s.log, i)
                  + if j == i && m.events != [] && m.events[0].Drained? then [m.events[0].paid] else [])
  {
    var s := Run(cfg, acts[..|acts| - 1]);
    m := Advance(cfg, s.rows, s.reqs[j], x);
    AdvanceLawful(cfg, s.rows, s.reqs[j], x);
    forall i: nat { StampTallies(s.log, j, RequestKey(s.reqs[j]), m.events, i); }
  }

  /** The partner's answer makes a call of this kind owe what it reports. */
  predicate Owes(kind: Kind, answer: Option<Outcome>) {
    && kind == ResponseCall(true) && answer.Some? && answer.value.Replied?
    && 200 <= answer.value.status <= 299 && answer.value.micros > 0
  }

  /** How far a request has come with what it owes. */
  predicate SettleOk(r: Request, answer: Option<Outcome>, settled: seq<int>) {
    && (answer.Some? ==> !(r.pc.Reading? || r.pc.Seeding? || r.pc.SeedingZero? || r.pc.Reserving? || r.pc.InFlight?
                           || r.pc.Draining? || r.pc.Rotating?))
    && (r.pc.Refunding? ==> !Owes(r.kind, answer))
    && (r.pc.Settling? ==> Owes(r.kind, answer) && r.pc.micros == answer.value.micros)
    && |settled| == if r.pc.Done? && Owes(r.kind, answer) then 1 else 0
  }

  lemma AdvanceSettles(cfg: Registry, rows: Rows, r: Request, x: Input, answer: Option<Outcome>, settled: seq<int>)
    requires SettleOk(r, answer, settled)
    ensures var m := Advance(cfg, rows, r, x);
            && |m.events| <= 1
            && SettleOk(r.(pc := m.pc), if r.pc.InFlight? then Some(x.outcome) else answer,
                        settled + if m.events != [] && m.events[0].Settled? then [m.events[0].paid] else [])
            && (m.events != [] && m.events[0].Settled? ==> r.pc.Settling?)
  {
    AdvanceLawful(cfg, rows, r, x);
  }

  /** At step m of the run request i settles this: what the partner reported, or the balance if that is less. */
  ghost predicate SettlesAt(cfg: Registry, acts: seq<Action>, i: nat, m: nat, paid: int)
    requires m < |acts|
  {
    var s, s' := Run(cfg, acts[..m]), Run(cfg, acts[..m + 1]);
    && acts[m].Act? && acts[m].i == i && i < |s.reqs| && s.reqs[i].pc.Settling?
    && var k := RequestKey(s.reqs[i]);
       paid == Least(s.reqs[i].pc.micros, Credits(s.rows, k)) && Credits(s'.rows, k) == Credits(s.rows, k) - paid
  }

  ghost predicate SettledSome(cfg: Registry, acts: seq<Action>, i: nat, paid: int) {
    exists m :: 0 <= m < |acts| && SettlesAt(cfg, acts, i, m, paid)
  }

  lemma SettledLater(cfg: Registry, acts: seq<Action>, n: nat, i: nat, paid: int)
    requires n <= |acts| && SettledSome(cfg, acts[..n], i, paid)
    ensures SettledSome(cfg, acts, i, paid)
  {
    var m :| 0 <= m < n && SettlesAt(cfg, acts[..n], i, m, paid);
    assert acts[..n][..m] == acts[..m] && acts[..n][..m + 1] == acts[..m + 1];
    assert SettlesAt(cfg, acts, i, m, paid);
  }

  /** A settling step logs and takes what the partner reported, or the balance if that is less. */
  lemma SettleStep(cfg: Registry, rows: Rows, r: Request, x: Input)
    requires r.pc.Settling? && r.pc.micros > 0 && Credits(rows, RequestKey(r)) >= 0
    ensures var m, k := Advance(cfg, rows, r, x), RequestKey(r);
            && m.events == [Settled(Least(r.pc.micros, Credits(rows, k)))]
            && Credits(m.rows, k) == Credits(rows, k) - Least(r.pc.micros, Credits(rows, k))
  {
  }

  /** What request i has settled so far, and when. */
  ghost predicate SettleStory(cfg: Registry, acts: seq<Action>, i: nat) {
    var s := Run(cfg, acts);
    && (i >= |s.reqs| ==> SettledBy(s.log, i) == [])
    && (i < |s.reqs| ==> SettleOk(s.reqs[i], UpstreamAnswer(cfg, acts, i), SettledBy(s.log, i)))
    && (forall paid :: paid in SettledBy(s.log, i) ==> SettledSome(cfg, acts, i, paid))
  }

  lemma {:induction false} RunSettles(cfg: Registry, acts: seq<Action>, i: nat)
    ensures SettleStory(cfg, acts, i)
  {
    if acts != [] {
      var n := |acts| - 1;
      var s, a := Run(cfg, acts[..n]), acts[n];
      RunSettles(cfg, acts[..n], i);
      forall paid | paid in SettledBy(s.log, i) ensures SettledSome(cfg, acts, i, paid) {
        SettledLater(cfg, acts, n, i, paid);
      }
      match a {
        case Arrive(_, _, _, _) =>
          if i >= |s.reqs| {
            NoAnswerYet(cfg, acts[..n], i);
          }
        case Act(j, x) =>
          if j < |s.reqs| {
            ActSettles(cfg, acts, j, x, i);
          }
      }
    }
  }

  lemma SettledNow(cfg: Registry, acts: seq<Action>, i: nat, x: Input, m: Move)
    requires acts != [] && acts[|acts| - 1] == Act(i, x) && i < |Run(cfg, acts[..|acts| - 1]).reqs|
    requires var s := Run(cfg, acts[..|acts| - 1]);
             && s.reqs[i].pc.Settling? && s.reqs[i].pc.micros > 0
             && m == Advance(cfg, s.rows, s.reqs[i], x) && Run(cfg, acts).rows == m.rows
    ensures m.events != [] && m.events[0].Settled? && SettledSome(cfg, acts, i, m.events[0].paid)
  {
    var n := |acts| - 1;
    var s := Run(cfg, acts[..n]);
    RunConserves(cfg, acts[..n], RequestKey(s.reqs[i]));
    SettleStep(cfg, s.rows, s.reqs[i], x);
    assert acts[..n + 1] == acts;
    assert SettlesAt(cfg, acts, i, n, m.events[0].paid);
  }

  /** Before and after request i's own step. */
  lemma OwnSettles(cfg: Registry, acts: seq<Action>, i: nat, x: Input)
    requires acts != [] && acts[|acts| - 1] == Act(i, x) && i < |Run(cfg, acts[..|acts| - 1]).reqs|
    requires SettleStory(cfg, acts[..|acts| - 1], i)
    requires forall paid :: paid in SettledBy(Run(cfg, acts[..|acts| - 1]).log, i) ==> SettledSome(cfg, acts, i, paid)
    ensures SettleStory(cfg, acts, i)
  {
    var n := |acts| - 1;
    var s := Run(cfg, acts[..n]);
    var m := OwnStep(cfg, acts, i, x);
    AdvanceSettles(cfg, s.rows, s.reqs[i], x, UpstreamAnswer(cfg, acts[..n], i), SettledBy(s.log, i));
    if s.reqs[i].pc.Settling? {
      SettledNow(cfg, acts, i, x, m);
    }
  }

  lemma ActSettles(cfg: Registry, acts: seq<Action>, j: nat, x: Input, i: nat)
    requires acts != [] && acts[|acts| - 1] == Act(j, x) && j < |Run(cfg, acts[..|acts| - 1]).reqs|
    requires SettleStory(cfg, acts[..|acts| - 1], i)
    requires forall paid :: paid in SettledBy(Run(cfg, acts[..|acts| - 1]).log, i) ==> SettledSome(cfg, acts, i, paid)
    ensures SettleStory(cfg, acts, i)
  {
    if j == i {
      OwnSettles(cfg, acts, i, x);
    } else {
      var m := OwnStep(cfg, acts, j, x);
    }
  }

  /**
   In every run a finished request has settled exactly once if it was a billable response-priced call
   answered 2xx with a positive cost, and otherwise never; and then it took, at that step, what the
   partner reported, or the whole balance if that was less.
   */
  lemma SettlesExactly(cfg: Registry, acts: seq<Action>, i: nat)
    requires i < |Run(cfg, acts).reqs| && Run(cfg, acts).reqs[i].pc.Done?
    ensures var s, answer := Run(cfg, acts), UpstreamAnswer(cfg, acts, i);
            var settled := SettledBy(s.log, i);
            && |settled| == (if Owes(s.reqs[i].kind, answer) then 1 else 0)
            && forall paid :: paid in settled ==> SettledFor(cfg, acts, i, answer.value.micros, paid)
  {
    RunSettles(cfg, acts, i);
    var settled := SettledBy(Run(cfg, acts).log, i);
    forall paid | paid in settled ensures SettledFor(cfg, acts, i, UpstreamAnswer(cfg, acts, i).value.micros, paid) {
      var m :| 0 <= m < |acts| && SettlesAt(cfg, acts, i, m, paid);
      RunSettles(cfg, acts[..m], i);
      AnswerStays(cfg, acts, i, m);
      assert SettlesFor(cfg, acts, i, m, UpstreamAnswer(cfg, acts, i).value.micros, paid);
    }
  }

  /** At step m request i takes micros from its caller, or the whole balance if that is less. */
  ghost predicate SettlesFor(cfg: Registry, acts: seq<Action>, i: nat, m: nat, micros: int, paid: int)
    requires m < |acts|
  {
    var s, s' := Run(cfg, acts[..m]), Run(cfg, acts[..m + 1]);
    && acts[m].Act? && acts[m].i == i && i < |s.reqs|
    && var k := RequestKey(s.reqs[i]);
       paid == Least(micros, Credits(s.rows, k)) && Credits(s'.rows, k) == Credits(s.rows, k) - paid
  }

  ghost predicate SettledFor(cfg: Registry, acts: seq<Action>, i: nat, micros: int, paid: int) {
    exists m :: 0 <= m < |acts| && SettlesFor(cfg, acts, i, m, micros, paid)
  }

  /** Once answered, a request is not answered again. */
  lemma {:induction false} AnswerStays(cfg: Registry, acts: seq<Action>, i: nat, m: nat)
    requires m <= |acts| && i < |Run(cfg, acts[..m]).reqs| && UpstreamAnswer(cfg, acts[..m], i).Some?
    ensures UpstreamAnswer(cfg, acts, i) == UpstreamAnswer(cfg, acts[..m], i)
    decreases |acts|
  {
    if m == |acts| {
      assert acts[..m] == acts;
    } else {
      var n := |acts| - 1;
      assert acts[..n][..m] == acts[..m];
      AnswerStays(cfg, acts[..n], i, m);
      RunSettles(cfg, acts[..n], i);
      StaysThere(cfg, acts[..n], i, m);
    }
  }

  lemma {:induction false} StaysThere(cfg: Registry, acts: seq<Action>, i: nat, m: nat)
    requires m <= |acts| && i < |Run(cfg, acts[..m]).reqs|
    ensures i < |Run(cfg, acts).reqs|
    decreases |acts|
  {
    if m == |acts| {
      assert acts[..m] == acts;
    } else {
      assert acts[..|acts| - 1][..m] == acts[..m];
      StaysThere(cfg, acts[..|acts| - 1], i, m);
    }
  }

  // ---- what the log of any run shows a meter charge draining ----

  /** At step m request i is taken, its caller's balance being bal before and bal' after. */
  ghost predicate StepsAt(cfg: Registry, acts: seq<Action>, i: nat, m: nat, bal: int, bal': int) {
    && m < |acts| && acts[m].Act? && acts[m].i == i && i < |Run(cfg, acts[..m]).reqs|
    && var k := RequestKey(Run(cfg, acts[..m]).reqs[i]);
       Credits(Run(cfg, acts[..m]).rows, k) == bal && Credits(Run(cfg, acts[..m + 1]).rows, k) == bal'
  }

  /** Request i has read its caller's balance, found bal there, and changed nothing. */
  ghost predicate ReadBal(cfg: Registry, acts: seq<Action>, i: nat, bal: int) {
    exists m: nat :: StepsAt(cfg, acts, i, m, bal, bal)
  }

  /** What is left of bal once charge is taken, if it is there. */
  function Left(bal: int, charge: int): int {
    if charge <= bal then bal - charge else bal
  }

  /** Request i has found bal in the row when it came to take charge, and taken it if it was there. */
  ghost predicate TookCharge(cfg: Registry, acts: seq<Action>, i: nat, charge: int, bal: int) {
    exists m: nat :: StepsAt(cfg, acts, i, m, bal, Left(bal, charge))
  }

  lemma StepsLater(cfg: Registry, acts: seq<Action>, n: nat, i: nat, m: nat, bal: int, bal': int)
    requires n <= |acts| && StepsAt(cfg, acts[..n], i, m, bal, bal')
    ensures StepsAt(cfg, acts, i, m, bal, bal')
  {
    assert acts[..n][..m] == acts[..m] && acts[..n][..m + 1] == acts[..m + 1];
  }

  /** The charge a meter decides on when it reads the balance. */
  function ChargeFor(cost: int, bal: int): int {
    if bal <= 0 || cost <= 0 then 0 else Least(cost, bal)
  }

  /** What a finished meter charge read, and what it then found and took. */
  ghost predicate MeterDone(cfg: Registry, acts: seq<Action>, i: nat, cost: int, drained: seq<int>) {
    exists bal :: ReadBal(cfg, acts, i, bal) && MeterTook(cfg, acts, i, ChargeFor(cost, bal), drained)
  }

  ghost predicate MeterTook(cfg: Registry, acts: seq<Action>, i: nat, charge: int, drained: seq<int>) {
    if charge == 0 then drained == []
    else exists now :: TookCharge(cfg, acts, i, charge, now) && drained == if charge <= now then [charge] else []
  }

  ghost predicate MeterReady(cfg: Registry, acts: seq<Action>, i: nat, cost: int, charge: int) {
    charge > 0 && exists bal :: ReadBal(cfg, acts, i, bal) && charge == ChargeFor(cost, bal)
  }

  ghost predicate DrainStory(cfg: Registry, acts: seq<Action>, i: nat) {
    var s := Run(cfg, acts);
    var drained := DrainedBy(s.log, i);
    if i < |s.reqs| && s.reqs[i].kind.MeterCharge? then
      match s.reqs[i].pc
      case Reading => drained == []
      case Draining(charge) => drained == [] && MeterReady(cfg, acts, i, s.reqs[i].kind.cost, charge)
      case Done(_) => MeterDone(cfg, acts, i, s.reqs[i].kind.cost, drained)
      case _ => false
    else
      drained == [] && (i < |s.reqs| ==> !s.reqs[i].pc.Draining?)
  }

  lemma MeterDoneLater(cfg: Registry, acts: seq<Action>, n: nat, i: nat, cost: int, drained: seq<int>)
    requires n <= |acts| && MeterDone(cfg, acts[..n], i, cost, drained)
    ensures MeterDone(cfg, acts, i, cost, drained)
  {
    var bal :| ReadBal(cfg, acts[..n], i, bal) && MeterTook(cfg, acts[..n], i, ChargeFor(cost, bal), drained);
    ReadLater(cfg, acts, n, i, bal);
    TookLater(cfg, acts, n, i, ChargeFor(cost, bal), drained);
  }

  lemma ReadLater(cfg: Registry, acts: seq<Action>, n: nat, i: nat, bal: int)
    requires n <= |acts| && ReadBal(cfg, acts[..n], i, bal)
    ensures ReadBal(cfg, acts, i, bal)
  {
    var m: nat :| StepsAt(cfg, acts[..n], i, m, bal, bal);
    StepsLater(cfg, acts, n, i, m, bal, bal);
  }

  lemma TookLater(cfg: Registry, acts: seq<Action>, n: nat, i: nat, charge: int, drained: seq<int>)
    requires n <= |acts| && MeterTook(cfg, acts[..n], i, charge, drained)
    ensures MeterTook(cfg, acts, i, charge, drained)
  {
    if charge != 0 {
      var now :| TookCharge(cfg, acts[..n], i, charge, now) && drained == if charge <= now then [charge] else [];
      var bal' := Left(now, charge);
      var m: nat :| StepsAt(cfg, acts[..n], i, m, now, bal');
      StepsLater(cfg, acts, n, i, m, now, bal');
      assert TookCharge(cfg, acts, i, charge, now);
    }
  }

  lemma {:induction false} RunDrains(cfg: Registry, acts: seq<Action>, i: nat)
    ensures DrainStory(cfg, acts, i)
  {
    if acts != [] {
      var n := |acts| - 1;
      var s, a := Run(cfg, acts[..n]), acts[n];
      RunDrains(cfg, acts[..n], i);
      if a.Act? && a.i < |s.reqs| {
        var r := s.reqs[a.i];
        var m := OwnStep(cfg, acts, a.i, a.x);
        if a.i == i && r.kind.MeterCharge? && !r.pc.Done? {
          RunConserves(cfg, acts[..n], RequestKey(r));
          MeterStep(cfg, acts, i, a.x);
        } else if a.i == i {
          OtherStep(cfg, s.rows, r, a.x);
          KeepsDrainStory(cfg, acts, i);
        } else {
          KeepsDrainStory(cfg, acts, i);
        }
      } else {
        KeepsDrainStory(cfg, acts, i);
      }
    }
  }

  /** Requests of other kinds never drain. */
  lemma OtherStep(cfg: Registry, rows: Rows, r: Request, x: Input)
    requires !r.pc.Draining?
    ensures var m := Advance(cfg, rows, r, x);
            && (m.events != [] ==> !m.events[0].Drained?)
            && (m.pc.Draining? ==> r.kind.MeterCharge? && r.pc.Reading?)
            && (r.pc.Done? ==> m.pc == r.pc)
  {
  }

  /** A step after which request i stands as before and has drained as before. */
  lemma KeepsDrainStory(cfg: Registry, acts: seq<Action>, i: nat)
    requires acts != [] && DrainStory(cfg, acts[..|acts| - 1], i)
    requires var s, s' := Run(cfg, acts[..|acts| - 1]), Run(cfg, acts);
             && DrainedBy(s'.log, i) == DrainedBy(s.log, i)
             && (i < |s.reqs| ==>
                   && i < |s'.reqs| && s'.reqs[i].kind == s.reqs[i].kind
                   && (s.reqs[i].kind.MeterCharge? ==> s'.reqs[i].pc == s.reqs[i].pc)
                   && (!s.reqs[i].kind.MeterCharge? ==> !s'.reqs[i].pc.Draining?))
             && (i >= |s.reqs| && i < |s'.reqs| ==> s'.reqs[i].pc == First(s'.reqs[i].kind))
    ensures DrainStory(cfg, acts, i)
  {
    var n := |acts| - 1;
    var s := Run(cfg, acts[..n]);
    if i < |s.reqs| && s.reqs[i].kind.MeterCharge? {
      match s.reqs[i].pc {
        case Draining(charge) =>
          var bal :| ReadBal(cfg, acts[..n], i, bal) && charge == ChargeFor(s.reqs[i].kind.cost, bal);
          ReadLater(cfg, acts, n, i, bal);
        case Done(_) => MeterDoneLater(cfg, acts, n, i, s.reqs[i].kind.cost, DrainedBy(s.log, i));
        case _ =>
      }
    }
  }

  /** A meter that reads the balance decides what to take. */
  lemma MeterReads(cfg: Registry, rows: Rows, r: Request, x: Input)
    requires r.kind.MeterCharge? && r.pc.Reading?
    ensures var m := Advance(cfg, rows, r, x);
            var charge := ChargeFor(r.kind.cost, Credits(rows, RequestKey(r)));
            m.rows == rows && m.events == [] && m.pc == if charge > 0 then Draining(charge) else Done(Untouched)
  {
  }

  /** It takes that from the balance if it is still there. */
  lemma MeterTakes(cfg: Registry, rows: Rows, r: Request, x: Input)
    requires r.kind.MeterCharge? && r.pc.Draining? && r.pc.charge > 0
    ensures var m, bal := Advance(cfg, rows, r, x), Credits(rows, RequestKey(r));
            && m.pc == Done(Untouched) && Credits(m.rows, RequestKey(r)) == Left(bal, r.pc.charge)
            && m.events == if r.pc.charge <= bal then [Drained(r.pc.charge)] else []
  {
  }

  lemma MeterStep(cfg: Registry, acts: seq<Action>, i: nat, x: Input)
    requires acts != [] && acts[|acts| - 1] == Act(i, x) && DrainStory(cfg, acts[..|acts| - 1], i)
    requires var s := Run(cfg, acts[..|acts| - 1]);
             && i < |s.reqs| && s.reqs[i].kind.MeterCharge? && !s.reqs[i].pc.Done?
             && Credits(s.rows, RequestKey(s.reqs[i])) >= 0
    ensures DrainStory(cfg, acts, i)
  {
    var s := Run(cfg, acts[..|acts| - 1]);
    var r := s.reqs[i];
    var bal := Credits(s.rows, RequestKey(r));
    var m := OwnStep(cfg, acts, i, x);
    StepTaken(cfg, acts, i, x, m);
    if r.pc.Reading? {
      MeterReads(cfg, s.rows, r, x);
      AfterRead(cfg, acts, i, r.kind.cost, bal);
    } else {
      MeterTakes(cfg, s.rows, r, x);
      AfterTake(cfg, acts, i, r.kind.cost, r.pc.charge, bal);
    }
  }

  lemma StepTaken(cfg: Registry, acts: seq<Action>, i: nat, x: Input, m: Move)
    requires acts != [] && acts[|acts| - 1] == Act(i, x) && i < |Run(cfg, acts[..|acts| - 1]).reqs|
    requires Run(cfg, acts).rows == m.rows
    ensures var s := Run(cfg, acts[..|acts| - 1]);
            var k := RequestKey(s.reqs[i]);
            StepsAt(cfg, acts, i, |acts| - 1, Credits(s.rows, k), Credits(m.rows, k))
  {
    assert acts[..|acts| - 1 + 1] == acts;
  }

  lemma AfterRead(cfg: Registry, acts: seq<Action>, i: nat, cost: int, bal: int)
    requires acts != [] && StepsAt(cfg, acts, i, |acts| - 1, bal, bal)
    ensures ChargeFor(cost, bal) > 0 ==> MeterReady(cfg, acts, i, cost, ChargeFor(cost, bal))
    ensures ChargeFor(cost, bal) == 0 ==> MeterDone(cfg, acts, i, cost, [])
  {
    assert ReadBal(cfg, acts, i, bal);
    if ChargeFor(cost, bal) == 0 {
      assert MeterTook(cfg, acts, i, ChargeFor(cost, bal), []);
    }
  }

  lemma AfterTake(cfg: Registry, acts: seq<Action>, i: nat, cost: int, charge: int, bal: int)
    requires acts != [] && StepsAt(cfg, acts, i, |acts| - 1, bal, Left(bal, charge))
    requires MeterReady(cfg, acts[..|acts| - 1], i, cost, charge)
    ensures MeterDone(cfg, acts, i, cost, if charge <= bal then [charge] else [])
  {
    var n := |acts| - 1;
    var was :| ReadBal(cfg, acts[..n], i, was) && charge == ChargeFor(cost, was);
    ReadLater(cfg, acts, n, i, was);
    assert TookCharge(cfg, acts, i, charge, bal);
    assert MeterTook(cfg, acts, i, ChargeFor(cost, was), if charge <= bal then [charge] else []);
  }

  /**
   In every run a finished meter charge decided, at a balance it read, on its cost or that whole
   balance; if that was something, it took exactly that from the balance it found later, provided it
   was still there, and nothing otherwise. No other request drains.
   */
  lemma DrainsExactly(cfg: Registry, acts: seq<Action>, i: nat)
    requires i < |Run(cfg, acts).reqs|
    ensures var s := Run(cfg, acts);
            && (!s.reqs[i].kind.MeterCharge? ==> DrainedBy(s.log, i) == [])
            && (s.reqs[i].kind.MeterCharge? && s.reqs[i].pc.Done? ==>
                  MeterDone(cfg, acts, i, s.reqs[i].kind.cost, DrainedBy(s.log, i)))
  {
    RunDrains(cfg, acts, i);
  }

  // ---- alone in a run ----

  function Steps(i: nat, x: Input, n: nat): seq<Action> {
    seq(n, _ => Act(i, x))
  }

  lemma RunStep(cfg: Registry, acts: seq<Action>, a: Action)
    ensures Run(cfg, acts + [a]) == Step(cfg, Run(cfg, acts), a)
  {
    assert (acts + [a])[..|acts|] == acts;
  }

  lemma {:induction false} AloneBackwards(cfg: Registry, rows: Rows, r: Request, x: Input, n: nat)
    requires n > 0
    ensures var (rows', r') := Alone(cfg, rows, r, x, n - 1);
            var m := Advance(cfg, rows', r', x);
            Alone(cfg, rows, r, x, n) == (m.rows, r'.(pc := m.pc))
    decreases n
  {
    Unroll(cfg, rows, r, x, n);
    if n > 1 {
      var m := Advance(cfg, rows, r, x);
      AloneBackwards(cfg, m.rows, r.(pc := m.pc), x, n - 1);
      Unroll(cfg, rows, r, x, n - 1);
    }
  }

  lemma StepsSnoc(first: seq<Action>, i: nat, x: Input, n: nat)
    requires n > 0
    ensures first + Steps(i, x, n) == (first + Steps(i, x, n - 1)) + [Act(i, x)]
  {
  }

  lemma ActLast(cfg: Registry, s: Sys, before: seq<Request>, r: Request, x: Input)
    requires s.reqs == before + [r]
    ensures var m := Advance(cfg, s.rows, r, x);
            var s' := Step(cfg, s, Act(|before|, x));
            s'.rows == m.rows && s'.reqs == before + [r.(pc := m.pc)]
  {
  }

  /** In any run, a request of a known app that arrives and takes its steps undisturbed has the effect told above. */
  lemma {:induction false} AloneIsRun(cfg: Registry, acts: seq<Action>, app: string, caller: string, ip: string,
                                      kind: Kind, x: Input, n: nat)
    requires app in cfg
    ensures var s := Run(cfg, acts);
            var s' := Run(cfg, acts + [Arrive(app, caller, ip, kind)] + Steps(|s.reqs|, x, n));
            var (rows', r') := Alone(cfg, s.rows, Arrived(app, caller, ip, kind), x, n);
            s'.rows == rows' && s'.reqs == s.reqs + [r']
  {
    var s := Run(cfg, acts);
    var first := acts + [Arrive(app, caller, ip, kind)];
    if n == 0 {
      RunStep(cfg, acts, Arrive(app, caller, ip, kind));
      assert first + Steps(|s.reqs|, x, 0) == first;
    } else {
      AloneIsRun(cfg, acts, app, caller, ip, kind, x, n - 1);
      AloneNext(cfg, s, first + Steps(|s.reqs|, x, n - 1), Arrived(app, caller, ip, kind), x, n);
      StepsSnoc(first, |s.reqs|, x, n);
    }
  }

  lemma AloneNext(cfg: Registry, s: Sys, before: seq<Action>, r: Request, x: Input, n: nat)
    requires n > 0
    requires var (rows', r') := Alone(cfg, s.rows, r, x, n - 1);
             Run(cfg, before).rows == rows' && Run(cfg, before).reqs == s.reqs + [r']
    ensures var (rows', r') := Alone(cfg, s.rows, r, x, n);
            var s' := Run(cfg, before + [Act(|s.reqs|, x)]);
            s'.rows == rows' && s'.reqs == s.reqs + [r']
  {
    AloneBackwards(cfg, s.rows, r, x, n);
    RunStep(cfg, before, Act(|s.reqs|, x));
    ActLast(cfg, Run(cfg, before), s.reqs, Alone(cfg, s.rows, r, x, n - 1).1, x);
  }
}
