/**
 Interleaved broker requests over one credit ledger. A request is a small program counter
 machine; every step is at most one atomic store call, and any number of requests, cloud
 pushes, balance reads, rotations and meter charges interleave freely. The upstream's answer,
 the clock and the order of steps are chosen by the run.
 */
module BrokerRuns {
  import opened Text
  import opened Ledger

  datatype AppConfig = AppConfig(seed: nat, maxPerIP: int, cooldown: int)

  /** The registry: the managed apps by id. */
  type Registry = map<string, AppConfig>

  datatype Kind =
    | FixedCall(price: int)         // forwarded call with a pre-flight reservation
    | ResponseCall(billable: bool)  // forwarded call whose price the partner reports
    | BalanceRead
    | PushCall(price: int)
    | ProvisionCall
    | RotateCall
    | MeterCharge(cost: int)        // one running machine in one metering tick

  /** What has become of the one reservation a request may make. */
  datatype Story = Untouched | Holding(n: nat) | KeptAll(n: nat) | GivenBack(n: nat) | Broken

  datatype Pc =
    | Reading
    | Seeding
    | SeedingZero
    | Reserving
    | InFlight(held: nat)
    | Refunding(held: nat)
    | Settling(micros: int)
    | Draining(charge: nat)
    | Rotating
    | Done(story: Story)

  datatype Request = Request(app: string, caller: string, ip: string, kind: Kind, pc: Pc)

  datatype Outcome = CallFailed | Replied(status: int, micros: int)

  datatype Input = Input(now: int, outcome: Outcome)

  datatype Event =
    | Minted(app: string, ip: string, n: nat)
    | Reserved(n: nat)
    | Refunded(n: nat)
    | Kept(n: nat)
    | Settled(paid: int)
    | Drained(paid: int)

  datatype Entry = Entry(rid: nat, key: string, event: Event)

  datatype Move = Move(rows: Rows, pc: Pc, events: seq<Event>)

  datatype Action = Arrive(app: string, caller: string, ip: string, kind: Kind) | Act(i: nat, x: Input)

  datatype Sys = Sys(rows: Rows, reqs: seq<Request>, log: seq<Entry>)

  // ---- one request, one step ----

  function RequestKey(r: Request): string {
    Key(r.app, r.caller)
  }

  function Config(cfg: Registry, app: string): AppConfig {
    if app in cfg then cfg[app] else AppConfig(0, 0, 0)
  }

  function Floor0(n: int): nat {
    if n > 0 then n else 0
  }

  predicate Is2xx(status: int) {
    200 <= status < 300
  }

  function First(kind: Kind): Pc {
    match kind
    case FixedCall(_) => Seeding
    case ResponseCall(_) => Seeding
    case ProvisionCall => Seeding
    case RotateCall => Rotating
    case _ => Reading
  }

  function AfterSeed(kind: Kind): Pc {
    if kind.FixedCall? || kind.ResponseCall? then Reserving else Done(Untouched)
  }

  /** The Provision call of seedCaller and serveProvision; only seedCaller retries with nothing to grant. */
  function Seed(rows: Rows, r: Request, seed: nat, maxPerIP: int, cooldown: int, now: int): Move {
    match Provision(rows, r.app, r.caller, r.ip, seed, maxPerIP, cooldown, now)
    case (rows', Recorded(_, isNew)) =>
      Move(rows', AfterSeed(r.kind), if isNew then [Minted(r.app, r.ip, seed)] else [])
    case (_, IPCap) => Move(rows, if r.kind.ProvisionCall? then Done(Untouched) else SeedingZero, [])
    case (_, Cooldown) => Move(rows, Done(Untouched), [])
  }

  function Read(rows: Rows, r: Request): Move {
    var k := RequestKey(r);
    match r.kind
    case BalanceRead => Move(rows, if k in rows then Done(Untouched) else Seeding, [])
    case PushCall(_) => Move(rows, if Credits(rows, k) <= 0 then Done(Untouched) else Reserving, [])
    case MeterCharge(cost) =>
      var charge := if cost > Credits(rows, k) then Credits(rows, k) else cost;
      Move(rows, if Credits(rows, k) > 0 && charge > 0 then Draining(charge) else Done(Untouched), [])
    case _ => Move(rows, r.pc, [])
  }

  function Reserve(rows: Rows, r: Request): Move {
    match r.kind
    case FixedCall(price) => ReserveAmount(rows, r, price)
    case PushCall(price) => ReserveAmount(rows, r, price)
    case ResponseCall(billable) =>
      if billable && Credits(rows, RequestKey(r)) <= 0 then Move(rows, Done(Untouched), [])
      else Move(rows, InFlight(0), [Reserved(0)])
    case _ => Move(rows, r.pc, [])
  }

  function ReserveAmount(rows: Rows, r: Request, price: int): Move {
    var (rows', ok) := Debit(rows, RequestKey(r), price);
    if ok then Move(rows', InFlight(Floor0(price)), [Reserved(Floor0(price))])
    else Move(rows, Done(Untouched), [])
  }

  function Answer(rows: Rows, r: Request, held: nat, outcome: Outcome): Move {
    if outcome.CallFailed? || !Is2xx(outcome.status) then Move(rows, Refunding(held), [])
    else if r.kind == ResponseCall(true) && outcome.micros > 0 then
      Move(rows, Settling(outcome.micros), [Kept(held)])
    else Move(rows, Done(KeptAll(held)), [Kept(held)])
  }

  function Advance(cfg: Registry, rows: Rows, r: Request, x: Input): Move {
    var k := RequestKey(r);
    var c := Config(cfg, r.app);
    match r.pc
    case Reading => Read(rows, r)
    case Seeding => Seed(rows, r, c.seed, c.maxPerIP, c.cooldown, x.now)
    case SeedingZero => Seed(rows, r, 0, 0, 0, x.now)
    case Reserving => Reserve(rows, r)
    case InFlight(held) => Answer(rows, r, held, x.outcome)
    case Refunding(held) => Move(Refund(rows, k, held), Done(GivenBack(held)), [Refunded(held)])
    case Settling(micros) =>
      Move(Settle(rows, k, micros), Done(KeptAll(0)), [Settled(Ledger.Settled(rows, k, micros))])
    case Draining(charge) =>
      var (rows', ok) := Debit(rows, k, charge);
      Move(rows', Done(Untouched), if ok then [Drained(charge)] else [])
    case Rotating => Move(Rotate(rows, k), Done(Untouched), [])
    case Done(_) => Move(rows, r.pc, [])
  }

  // ---- runs ----

  function Stamp(rid: nat, key: string, events: seq<Event>): seq<Entry> {
    seq(|events|, i requires 0 <= i < |events| => Entry(rid, key, events[i]))
  }

  function Step(cfg: Registry, s: Sys, a: Action): Sys {
    match a
    case Arrive(app, caller, ip, kind) =>
      if app !in cfg then s else s.(reqs := s.reqs + [Request(app, caller, ip, kind, First(kind))])
    case Act(i, x) =>
      if i >= |s.reqs| then s else
        var r := s.reqs[i];
        Apply(s, i, Advance(cfg, s.rows, r, x))
  }

  function Apply(s: Sys, i: nat, m: Move): Sys
    requires i < |s.reqs|
  {
    Sys(m.rows, s.reqs[i := s.reqs[i].(pc := m.pc)], s.log + Stamp(i, RequestKey(s.reqs[i]), m.events))
  }

  function Run(cfg: Registry, acts: seq<Action>): Sys {
    if acts == [] then Sys(map[], [], [])
    else Step(cfg, Run(cfg, acts[..|acts| - 1]), acts[|acts| - 1])
  }

  // ---- what a run has done, read off its log ----

  datatype Tag = Mint | Keep | SettleTag | Drain

  function Amount(e: Event, tag: Tag): int {
    match (e, tag)
    case (Minted(_, _, n), Mint) => n
    case (Kept(n), Keep) => n
    case (Settled(n), SettleTag) => n
    case (Drained(n), Drain) => n
    case _ => 0
  }

  function Total(log: seq<Entry>, k: string, tag: Tag): int {
    if log == [] then 0
    else
      var e := log[|log| - 1];
      Total(log[..|log| - 1], k, tag) + if e.key == k then Amount(e.event, tag) else 0
  }

  function Held(pc: Pc): nat {
    if pc.InFlight? || pc.Refunding? then pc.held else 0
  }

  /** Reservations of k that are neither kept nor refunded yet. */
  function InFlightFor(reqs: seq<Request>, k: string): nat {
    if reqs == [] then 0
    else
      var r := reqs[|reqs| - 1];
      InFlightFor(reqs[..|reqs| - 1], k) + if RequestKey(r) == k then Held(r.pc) else 0
  }

  /** Follows one request's Reserved, Kept and Refunded entries; anything but one-then-one is Broken. */
  function Follow(st: Story, e: Event): Story {
    match e
    case Reserved(n) => if st.Untouched? then Holding(n) else Broken
    case Kept(n) => if st == Holding(n) then KeptAll(n) else Broken
    case Refunded(n) => if st == Holding(n) then GivenBack(n) else Broken
    case _ => st
  }

  function StoryOf(log: seq<Entry>, rid: nat): Story {
    if log == [] then Untouched
    else
      var e := log[|log| - 1];
      var before := StoryOf(log[..|log| - 1], rid);
      if e.rid == rid then Follow(before, e.event) else before
  }

  function MintsOf(log: seq<Entry>, k: string): nat {
    if log == [] then 0
    else
      var e := log[|log| - 1];
      MintsOf(log[..|log| - 1], k) + if e.key == k && e.event.Minted? then 1 else 0
  }

  predicate FundedAt(e: Entry, app: string, ip: string) {
    e.event.Minted? && e.event.app == app && e.event.ip == ip && e.event.n > 0
  }

  /** How many identities of app were granted a positive seed from ip. */
  function FundedFrom(log: seq<Entry>, app: string, ip: string): nat {
    if log == [] then 0
    else FundedFrom(log[..|log| - 1], app, ip) + if FundedAt(log[|log| - 1], app, ip) then 1 else 0
  }

  /** The credit minted for app from ip. */
  function MintedFrom(log: seq<Entry>, app: string, ip: string): nat {
    if log == [] then 0
    else
      var e := log[|log| - 1];
      MintedFrom(log[..|log| - 1], app, ip) + if FundedAt(e, app, ip) then e.event.n else 0
  }

  // ---- conservation ----

  /** Every micro-dollar ever minted for k is in the balance, in flight, kept, settled or drained. */
  ghost predicate Conserved(s: Sys, k: string) {
    && Credits(s.rows, k) + InFlightFor(s.reqs, k)
       + Total(s.log, k, Keep) + Total(s.log, k, SettleTag) + Total(s.log, k, Drain)
       == Total(s.log, k, Mint)
    && Credits(s.rows, k) >= 0
    && Total(s.log, k, Keep) >= 0 && Total(s.log, k, SettleTag) >= 0 && Total(s.log, k, Drain) >= 0
  }

  ghost predicate HoldersRecorded(s: Sys, k: string) {
    forall i :: 0 <= i < |s.reqs| && RequestKey(s.reqs[i]) == k && Held(s.reqs[i].pc) > 0 ==> k in s.rows
  }

  lemma {:induction false} InFlightUpdate(reqs: seq<Request>, i: nat, r: Request, k: string)
    requires i < |reqs| && RequestKey(r) == RequestKey(reqs[i])
    ensures InFlightFor(reqs[i := r], k)
         == InFlightFor(reqs, k) + (if RequestKey(r) == k then Held(r.pc) - Held(reqs[i].pc) else 0)
  {
    var n := |reqs| - 1;
    if i == n {
      assert reqs[i := r][..n] == reqs[..n];
    } else {
      assert reqs[i := r][..n] == reqs[..n][i := r];
      InFlightUpdate(reqs[..n], i, r, k);
    }
  }

  lemma StampOne(log: seq<Entry>, rid: nat, key: string, events: seq<Event>)
    requires |events| <= 1
    ensures events == [] ==> log + Stamp(rid, key, events) == log
    ensures events != [] ==> var log' := log + Stamp(rid, key, events);
                             log'[..|log'| - 1] == log && log'[|log'| - 1] == Entry(rid, key, events[0])
  {
  }

  /** The tallies after a step that logged at most one event. */
  lemma TotalStamp(log: seq<Entry>, rid: nat, key: string, events: seq<Event>, k: string, tag: Tag)
    requires |events| <= 1
    ensures Total(log + Stamp(rid, key, events), k, tag)
         == Total(log, k, tag) + (if key == k && events != [] then Amount(events[0], tag) else 0)
  {
    StampOne(log, rid, key, events);
  }

  function Out(m: Move, tag: Tag): int {
    if m.events == [] then 0 else Amount(m.events[0], tag)
  }

  /**
   What any step may do: touch its own row only, keep a recorded identity as it is, and record a
   fresh one with the seed or nothing, the seed only while the network is under the cap.
   */
  ghost predicate Lawful(cfg: Registry, rows: Rows, r: Request, m: Move) {
    var k := RequestKey(r);
    && |m.events| <= 1
    && m.rows - {k} == rows - {k}
    && (if k in rows then
          && k in m.rows
          && (m.rows[k].app, m.rows[k].caller, m.rows[k].ip) == (rows[k].app, rows[k].caller, rows[k].ip)
          && (m.events != [] ==> !m.events[0].Minted?)
        else if k in m.rows then
          && (m.rows[k].app, m.rows[k].caller, m.rows[k].ip) == (r.app, r.caller, r.ip)
          && m.events != [] && m.events[0].Minted?
          && (m.events[0].app, m.events[0].ip) == (r.app, r.ip)
          && MayGrant(cfg, rows, r, m.events[0].n)
        else m.events != [] ==> !m.events[0].Minted?)
  }

  ghost predicate MayGrant(cfg: Registry, rows: Rows, r: Request, n: nat) {
    var c := Config(cfg, r.app);
    n == 0 || (n == c.seed && (c.maxPerIP > 0 ==> |OnIP(rows, r.app, r.ip)| < c.maxPerIP))
  }

  /** One step moves money between the pots of the request's own row and loses none. */
  ghost predicate Fair(rows: Rows, r: Request, m: Move) {
    var k := RequestKey(r);
    && Credits(m.rows, k) >= 0 && Out(m, Keep) >= 0 && Out(m, SettleTag) >= 0 && Out(m, Drain) >= 0
    && Credits(m.rows, k) + Held(m.pc) + Out(m, Keep) + Out(m, SettleTag) + Out(m, Drain)
       == Credits(rows, k) + Held(r.pc) + Out(m, Mint)
    && (Held(m.pc) > 0 ==> k in m.rows)
  }

  lemma UpdateOwn(rows: Rows, k: string, row: Row)
    ensures rows[k := row] - {k} == rows - {k}
  {
  }

  lemma SeedLawful(cfg: Registry, rows: Rows, r: Request, seed: nat, maxPerIP: int, cooldown: int, now: int)
    requires seed == 0 || (seed == Config(cfg, r.app).seed && maxPerIP == Config(cfg, r.app).maxPerIP)
    ensures Lawful(cfg, rows, r, Seed(rows, r, seed, maxPerIP, cooldown, now))
  {
    var k := RequestKey(r);
    var m := Seed(rows, r, seed, maxPerIP, cooldown, now);
    if k in m.rows {
      UpdateOwn(rows, k, m.rows[k]);
    }
  }

  lemma AdvanceLawful(cfg: Registry, rows: Rows, r: Request, x: Input)
    ensures Lawful(cfg, rows, r, Advance(cfg, rows, r, x))
  {
    var k, c := RequestKey(r), Config(cfg, r.app);
    if r.pc.Seeding? {
      SeedLawful(cfg, rows, r, c.seed, c.maxPerIP, c.cooldown, x.now);
    } else if r.pc.SeedingZero? {
      SeedLawful(cfg, rows, r, 0, 0, 0, x.now);
    } else if k in rows {
      var m := Advance(cfg, rows, r, x);
      assert m.rows == rows || m.rows == rows[k := m.rows[k]];
      UpdateOwn(rows, k, m.rows[k]);
    }
  }

  /** A step of request i is some lawful move of it. */
  lemma LawfulStep(cfg: Registry, s: Sys, i: nat, x: Input) returns (m: Move)
    requires i < |s.reqs|
    ensures Step(cfg, s, Act(i, x)) == Apply(s, i, m) && Lawful(cfg, s.rows, s.reqs[i], m)
  {
    m := Advance(cfg, s.rows, s.reqs[i], x);
    AdvanceLawful(cfg, s.rows, s.reqs[i], x);
  }

  lemma SeedFair(rows: Rows, r: Request, seed: nat, maxPerIP: int, cooldown: int, now: int)
    requires Credits(rows, RequestKey(r)) >= 0 && Held(r.pc) == 0
    ensures Fair(rows, r, Seed(rows, r, seed, maxPerIP, cooldown, now))
  {
  }

  lemma ReserveFair(rows: Rows, r: Request)
    requires Credits(rows, RequestKey(r)) >= 0 && Held(r.pc) == 0
    ensures Fair(rows, r, Reserve(rows, r))
  {
  }

  lemma AdvanceFair(cfg: Registry, rows: Rows, r: Request, x: Input)
    requires Credits(rows, RequestKey(r)) >= 0
    requires Held(r.pc) > 0 ==> RequestKey(r) in rows
    ensures Fair(rows, r, Advance(cfg, rows, r, x))
  {
    var c := Config(cfg, r.app);
    if r.pc.Seeding? {
      SeedFair(rows, r, c.seed, c.maxPerIP, c.cooldown, x.now);
    } else if r.pc.SeedingZero? {
      SeedFair(rows, r, 0, 0, 0, x.now);
    } else if r.pc.Reserving? {
      ReserveFair(rows, r);
    }
  }

  lemma SameElsewhere(rows: Rows, rows': Rows, k: string, k': string)
    requires rows' - {k} == rows - {k} && k' != k
    ensures k' in rows <==> k' in rows'
    ensures k' in rows ==> rows'[k'] == rows[k']
  {
    assert k' in rows - {k} <==> k' in rows' - {k};
    if k' in rows {
      assert (rows - {k})[k'] == (rows' - {k})[k'];
    }
  }

  lemma ApplyConserves(cfg: Registry, s: Sys, i: nat, m: Move, k: string)
    requires i < |s.reqs|
    requires Conserved(s, k) && HoldersRecorded(s, k)
    requires Lawful(cfg, s.rows, s.reqs[i], m)
    requires RequestKey(s.reqs[i]) == k ==> Fair(s.rows, s.reqs[i], m)
    ensures Conserved(Apply(s, i, m), k) && HoldersRecorded(Apply(s, i, m), k)
  {
    var r := s.reqs[i];
    if RequestKey(r) != k {
      SameElsewhere(s.rows, m.rows, RequestKey(r), k);
    }
    InFlightUpdate(s.reqs, i, r.(pc := m.pc), k);
    TotalStamp(s.log, i, RequestKey(r), m.events, k, Keep);
    TotalStamp(s.log, i, RequestKey(r), m.events, k, SettleTag);
    TotalStamp(s.log, i, RequestKey(r), m.events, k, Drain);
    TotalStamp(s.log, i, RequestKey(r), m.events, k, Mint);
  }

  lemma StepConserves(cfg: Registry, s: Sys, a: Action, k: string)
    requires Conserved(s, k) && HoldersRecorded(s, k)
    ensures Conserved(Step(cfg, s, a), k) && HoldersRecorded(Step(cfg, s, a), k)
  {
    match a {
      case Arrive(app, caller, ip, kind) =>
        var r := Request(app, caller, ip, kind, First(kind));
        assert (s.reqs + [r])[..|s.reqs|] == s.reqs;
      case Act(i, x) =>
        if i < |s.reqs| {
          AdvanceLawful(cfg, s.rows, s.reqs[i], x);
          if RequestKey(s.reqs[i]) == k {
            AdvanceFair(cfg, s.rows, s.reqs[i], x);
          }
          ApplyConserves(cfg, s, i, Advance(cfg, s.rows, s.reqs[i], x), k);
        }
    }
  }

  lemma {:induction false} RunConserves(cfg: Registry, acts: seq<Action>, k: string)
    ensures Conserved(Run(cfg, acts), k) && HoldersRecorded(Run(cfg, acts), k)
  {
    if acts != [] {
      RunConserves(cfg, acts[..|acts| - 1], k);
      StepConserves(cfg, Run(cfg, acts[..|acts| - 1]), acts[|acts| - 1], k);
    }
  }

  // ---- each reservation ends exactly once ----

  function PcStory(pc: Pc): Story {
    match pc
    case InFlight(n) => Holding(n)
    case Refunding(n) => Holding(n)
    case Settling(_) => KeptAll(0)
    case Done(st) => st
    case _ => Untouched
  }

  /** What a reservation of this kind must amount to. */
  function Price(kind: Kind): nat {
    if kind.FixedCall? || kind.PushCall? then Floor0(kind.price) else 0
  }

  function StoryAmount(st: Story): nat {
    match st
    case Holding(n) => n
    case KeptAll(n) => n
    case GivenBack(n) => n
    case _ => 0
  }

  predicate RequestOk(r: Request) {
    var st := PcStory(r.pc);
    && (st.Holding? || st.KeptAll? || st.GivenBack? ==> StoryAmount(st) == Price(r.kind))
    && (r.pc.Settling? ==> Price(r.kind) == 0)
    && (r.pc.Done? ==> !st.Broken? && !st.Holding?)
  }

  ghost predicate StoriesAgree(s: Sys) {
    && (forall i :: 0 <= i < |s.reqs| ==> RequestOk(s.reqs[i]) && StoryOf(s.log, i) == PcStory(s.reqs[i].pc))
    && (forall i :: i >= |s.reqs| ==> StoryOf(s.log, i) == Untouched)
  }

  lemma StoryStamp(log: seq<Entry>, rid: nat, key: string, events: seq<Event>, i: nat)
    requires |events| <= 1
    ensures StoryOf(log + Stamp(rid, key, events), i)
         == if i == rid && events != [] then Follow(StoryOf(log, i), events[0]) else StoryOf(log, i)
  {
    StampOne(log, rid, key, events);
  }

  /** A move tells of the reservation what it logs. */
  predicate Tells(r: Request, m: Move) {
    && |m.events| <= 1
    && RequestOk(r.(pc := m.pc))
    && PcStory(m.pc) == if m.events == [] then PcStory(r.pc) else Follow(PcStory(r.pc), m.events[0])
  }

  lemma SeedTells(rows: Rows, r: Request, seed: nat, maxPerIP: int, cooldown: int, now: int)
    requires RequestOk(r) && (r.pc.Seeding? || r.pc.SeedingZero?)
    ensures Tells(r, Seed(rows, r, seed, maxPerIP, cooldown, now))
  {
  }

  lemma ReserveTells(rows: Rows, r: Request)
    requires RequestOk(r) && r.pc.Reserving?
    ensures Tells(r, Reserve(rows, r))
  {
  }

  lemma AdvanceStory(cfg: Registry, rows: Rows, r: Request, x: Input)
    requires RequestOk(r)
    ensures Tells(r, Advance(cfg, rows, r, x))
  {
    var c := Config(cfg, r.app);
    match r.pc {
      case Seeding => SeedTells(rows, r, c.seed, c.maxPerIP, c.cooldown, x.now);
      case SeedingZero => SeedTells(rows, r, 0, 0, 0, x.now);
      case Reserving => ReserveTells(rows, r);
      case _ =>
    }
  }

  lemma {:induction false} RunStories(cfg: Registry, acts: seq<Action>)
    ensures StoriesAgree(Run(cfg, acts))
  {
    if acts != [] {
      var s := Run(cfg, acts[..|acts| - 1]);
      var a := acts[|acts| - 1];
      RunStories(cfg, acts[..|acts| - 1]);
      if a.Act? && a.i < |s.reqs| {
        var r := s.reqs[a.i];
        var m := Advance(cfg, s.rows, r, a.x);
        AdvanceStory(cfg, s.rows, r, a.x);
        forall i: nat { StoryStamp(s.log, a.i, RequestKey(r), m.events, i); }
      }
    }
  }

  /**
   In every run each reservation amounts to the call's price and is held, or was kept once, or
   was refunded once; none is left over when the request is done.
   */
  lemma ReservationEndsOnce(cfg: Registry, acts: seq<Action>, i: nat)
    ensures var s := Run(cfg, acts);
            var st := StoryOf(s.log, i);
            && !st.Broken?
            && (i < |s.reqs| && !st.Untouched? ==> StoryAmount(st) == Price(s.reqs[i].kind))
            && (i < |s.reqs| && s.reqs[i].pc.Done? ==> !st.Holding?)
            && (i < |s.reqs| ==> Held(s.reqs[i].pc) == if st.Holding? then st.n else 0)
  {
    RunStories(cfg, acts);
  }

  /** The answer the upstream gave request i, read off the actions of the run. */
  function UpstreamAnswer(cfg: Registry, acts: seq<Action>, i: nat): Option<Outcome> {
    if acts == [] then None
    else
      var before := acts[..|acts| - 1];
      AnswerAfter(Run(cfg, before), acts[|acts| - 1], i, UpstreamAnswer(cfg, before, i))
  }

  predicate Good(answer: Option<Outcome>) {
    answer.Some? && answer.value.Replied? && Is2xx(answer.value.status)
  }

  /** A debit is kept exactly on a 2xx answer and goes back on anything else. */
  predicate Billed(pc: Pc, answer: Option<Outcome>) {
    && (PcStory(pc).KeptAll? <==> Good(answer))
    && (pc.Refunding? || PcStory(pc).GivenBack? <==> answer.Some? && !Good(answer))
  }

  lemma AdvanceBilled(cfg: Registry, rows: Rows, r: Request, x: Input, answer: Option<Outcome>)
    requires Billed(r.pc, answer)
    ensures Billed(Advance(cfg, rows, r, x).pc, if r.pc.InFlight? then Some(x.outcome) else answer)
  {
  }

  /** What request i has been answered after one more action. */
  function AnswerAfter(s: Sys, a: Action, i: nat, answer: Option<Outcome>): Option<Outcome> {
    if a.Act? && a.i == i && i < |s.reqs| && s.reqs[i].pc.InFlight? then Some(a.x.outcome) else answer
  }

  lemma StepBilled(cfg: Registry, s: Sys, a: Action, i: nat, answer: Option<Outcome>)
    requires i < |s.reqs| && Billed(s.reqs[i].pc, answer)
    ensures i < |Step(cfg, s, a).reqs| && Billed(Step(cfg, s, a).reqs[i].pc, AnswerAfter(s, a, i, answer))
  {
    if a.Act? && a.i == i {
      AdvanceBilled(cfg, s.rows, s.reqs[i], a.x, answer);
    }
  }

  lemma {:induction false} RunBilled(cfg: Registry, acts: seq<Action>, i: nat)
    requires i < |Run(cfg, acts).reqs|
    ensures Billed(Run(cfg, acts).reqs[i].pc, UpstreamAnswer(cfg, acts, i))
  {
    var before := acts[..|acts| - 1];
    var s := Run(cfg, before);
    if i >= |s.reqs| {
      NoAnswerYet(cfg, before, i);
    } else {
      RunBilled(cfg, before, i);
      StepBilled(cfg, s, acts[|acts| - 1], i, UpstreamAnswer(cfg, before, i));
    }
  }

  lemma {:induction false} NoAnswerYet(cfg: Registry, acts: seq<Action>, i: nat)
    requires i >= |Run(cfg, acts).reqs|
    ensures UpstreamAnswer(cfg, acts, i) == None
  {
    if acts != [] {
      NoAnswerYet(cfg, acts[..|acts| - 1], i);
    }
  }

  /**
   Billed for value, not errors: in every run the log shows request i's reservation kept if and
   only if the upstream answered it 2xx, and given back, or about to be, if and only if it answered
   anything else or failed.
   */
  lemma KeptOnlyOn2xx(cfg: Registry, acts: seq<Action>, i: nat)
    requires i < |Run(cfg, acts).reqs|
    ensures var s, answer := Run(cfg, acts), UpstreamAnswer(cfg, acts, i);
            var st := StoryOf(s.log, i);
            && (st.KeptAll? <==> Good(answer))
            && (st.GivenBack? || s.reqs[i].pc.Refunding? <==> answer.Some? && !Good(answer))
            && (s.reqs[i].pc.Done? ==> (st.GivenBack? <==> answer.Some? && !Good(answer)))
            && (st.Untouched? ==> answer.None?)
  {
    RunBilled(cfg, acts, i);
    RunStories(cfg, acts);
  }

  // ---- minting ----

  /** A recorded row was minted once, for the seed or nothing; any other never was. */
  predicate MintsFit(cfg: Registry, rows: Rows, k: string, mints: nat, total: int) {
    if k in rows then mints == 1 && (total == 0 || total == Config(cfg, rows[k].app).seed)
    else mints == 0 && total == 0
  }

  ghost predicate MintsAgree(cfg: Registry, s: Sys, k: string) {
    MintsFit(cfg, s.rows, k, MintsOf(s.log, k), Total(s.log, k, Mint))
  }

  lemma MintsStamp(log: seq<Entry>, rid: nat, key: string, events: seq<Event>, k: string)
    requires |events| <= 1
    ensures MintsOf(log + Stamp(rid, key, events), k)
         == MintsOf(log, k) + (if key == k && events != [] && events[0].Minted? then 1 else 0)
  {
    StampOne(log, rid, key, events);
  }

  predicate MintsHere(r: Request, m: Move, k: string) {
    RequestKey(r) == k && m.events != [] && m.events[0].Minted?
  }

  /** A move mints for a row exactly when it records it, and then the seed or nothing. */
  ghost predicate MintsLawfully(cfg: Registry, rows: Rows, r: Request, m: Move, k: string) {
    && |m.events| <= 1
    && (MintsHere(r, m, k) <==> k !in rows && k in m.rows)
    && (k in rows ==> k in m.rows && m.rows[k].app == rows[k].app)
    && (MintsHere(r, m, k) ==> m.rows[k].app == r.app && m.events[0].n in {0, Config(cfg, r.app).seed})
  }

  lemma LawfulMint(cfg: Registry, rows: Rows, r: Request, m: Move, k: string)
    requires Lawful(cfg, rows, r, m)
    ensures MintsLawfully(cfg, rows, r, m, k)
  {
    if RequestKey(r) != k {
      SameElsewhere(rows, m.rows, RequestKey(r), k);
    }
  }

  lemma MintAmount(r: Request, m: Move, k: string)
    ensures (if RequestKey(r) == k && m.events != [] then Amount(m.events[0], Mint) else 0)
         == if MintsHere(r, m, k) then m.events[0].n else 0
  {
  }

  lemma MintsCarry(cfg: Registry, rows: Rows, r: Request, m: Move, k: string, mints: nat, total: int)
    requires MintsLawfully(cfg, rows, r, m, k) && MintsFit(cfg, rows, k, mints, total)
    ensures MintsFit(cfg, m.rows, k, mints + (if MintsHere(r, m, k) then 1 else 0),
                     total + (if MintsHere(r, m, k) then m.events[0].n else 0))
  {
  }

  lemma ApplyMints(cfg: Registry, s: Sys, i: nat, m: Move, k: string)
    requires i < |s.reqs| && MintsLawfully(cfg, s.rows, s.reqs[i], m, k) && MintsAgree(cfg, s, k)
    ensures MintsAgree(cfg, Apply(s, i, m), k)
    ensures k in s.rows ==> k in m.rows && Total(Apply(s, i, m).log, k, Mint) == Total(s.log, k, Mint)
  {
    var r := s.reqs[i];
    MintsStamp(s.log, i, RequestKey(r), m.events, k);
    TotalStamp(s.log, i, RequestKey(r), m.events, k, Mint);
    MintAmount(r, m, k);
    MintsCarry(cfg, s.rows, r, m, k, MintsOf(s.log, k), Total(s.log, k, Mint));
  }

  /** One step keeps the mints in agreement, and a recorded row recorded as it was minted. */
  lemma StepMints(cfg: Registry, s: Sys, a: Action, k: string)
    requires MintsAgree(cfg, s, k)
    ensures MintsAgree(cfg, Step(cfg, s, a), k)
    ensures k in s.rows ==> k in Step(cfg, s, a).rows && Total(Step(cfg, s, a).log, k, Mint) == Total(s.log, k, Mint)
  {
    match a {
      case Arrive(_, _, _, _) =>
      case Act(i, x) =>
        if i < |s.reqs| {
          var m := LawfulStep(cfg, s, i, x);
          LawfulMint(cfg, s.rows, s.reqs[i], m, k);
          ApplyMints(cfg, s, i, m, k);
        }
    }
  }

  lemma {:induction false} RunMints(cfg: Registry, acts: seq<Action>, k: string)
    ensures MintsAgree(cfg, Run(cfg, acts), k)
  {
    if acts != [] {
      RunMints(cfg, acts[..|acts| - 1], k);
      StepMints(cfg, Run(cfg, acts[..|acts| - 1]), acts[|acts| - 1], k);
    }
  }

  ghost predicate CapKept(cfg: Registry, s: Sys, app: string, ip: string) {
    && FundedFrom(s.log, app, ip) <= |OnIP(s.rows, app, ip)|
    && (Config(cfg, app).maxPerIP > 0 ==> FundedFrom(s.log, app, ip) <= Config(cfg, app).maxPerIP)
    && AllSeeds(s.log, app, ip, Config(cfg, app).seed)
  }

  /** Every positive grant for app from ip is the seed. */
  ghost predicate AllSeeds(log: seq<Entry>, app: string, ip: string, seed: nat) {
    forall j :: 0 <= j < |log| && FundedAt(log[j], app, ip) ==> log[j].event.n == seed
  }

  lemma FundedStamp(log: seq<Entry>, rid: nat, key: string, events: seq<Event>, app: string, ip: string)
    requires |events| <= 1
    ensures FundedFrom(log + Stamp(rid, key, events), app, ip)
         == FundedFrom(log, app, ip) + (if events != [] && FundedAt(Entry(rid, key, events[0]), app, ip) then 1 else 0)
  {
    StampOne(log, rid, key, events);
  }

  lemma SeedsStamp(log: seq<Entry>, rid: nat, key: string, events: seq<Event>, app: string, ip: string, seed: nat)
    requires |events| <= 1 && AllSeeds(log, app, ip, seed)
    requires events != [] && FundedAt(Entry(rid, key, events[0]), app, ip) ==> events[0].n == seed
    ensures AllSeeds(log + Stamp(rid, key, events), app, ip, seed)
  {
  }

  /** Only a fresh identity joins an IP's population, and nobody leaves. */
  lemma PopulationGrows(cfg: Registry, rows: Rows, r: Request, m: Move, app: string, ip: string)
    requires Lawful(cfg, rows, r, m)
    ensures OnIP(m.rows, app, ip)
         == OnIP(rows, app, ip) + (if RequestKey(r) !in rows && RequestKey(r) in m.rows && (app, ip) == (r.app, r.ip)
                                   then {RequestKey(r)} else {})
  {
    forall k | k != RequestKey(r)
      ensures k in OnIP(m.rows, app, ip) <==> k in OnIP(rows, app, ip)
    {
      SameElsewhere(rows, m.rows, RequestKey(r), k);
    }
  }

  lemma ApplyCap(cfg: Registry, s: Sys, i: nat, m: Move, app: string, ip: string)
    requires i < |s.reqs| && Lawful(cfg, s.rows, s.reqs[i], m) && CapKept(cfg, s, app, ip)
    ensures CapKept(cfg, Apply(s, i, m), app, ip)
  {
    PopulationGrows(cfg, s.rows, s.reqs[i], m, app, ip);
    FundedStamp(s.log, i, RequestKey(s.reqs[i]), m.events, app, ip);
    SeedsStamp(s.log, i, RequestKey(s.reqs[i]), m.events, app, ip, Config(cfg, app).seed);
  }

  lemma {:induction false} RunCap(cfg: Registry, acts: seq<Action>, app: string, ip: string)
    ensures CapKept(cfg, Run(cfg, acts), app, ip)
  {
    if acts != [] {
      var s := Run(cfg, acts[..|acts| - 1]);
      RunCap(cfg, acts[..|acts| - 1], app, ip);
      match acts[|acts| - 1] {
        case Arrive(_, _, _, _) =>
        case Act(i, x) =>
          if i < |s.reqs| {
            var m := LawfulStep(cfg, s, i, x);
            ApplyCap(cfg, s, i, m, app, ip);
          }
      }
    }
  }

  lemma {:induction false} MintedIsCounted(log: seq<Entry>, app: string, ip: string, seed: nat)
    requires AllSeeds(log, app, ip, seed)
    ensures MintedFrom(log, app, ip) == FundedFrom(log, app, ip) * seed
  {
    if log != [] {
      MintedIsCounted(log[..|log| - 1], app, ip, seed);
      var n := FundedFrom(log[..|log| - 1], app, ip);
      assert (n + 1) * seed == n * seed + seed;
    }
  }

  lemma TimesMonotone(a: nat, b: nat, n: nat)
    requires a <= b
    ensures a * n <= b * n
  {
  }

  /**
   The mint bound: with a positive cap, however the two Provision calls of a seed interleave with
   others, one network funds at most cap identities and mints at most cap times the seed.
   */
  lemma MintBound(cfg: Registry, acts: seq<Action>, app: string, ip: string)
    requires app in cfg && cfg[app].maxPerIP > 0
    ensures FundedFrom(Run(cfg, acts).log, app, ip) <= cfg[app].maxPerIP
    ensures MintedFrom(Run(cfg, acts).log, app, ip) <= cfg[app].maxPerIP * cfg[app].seed
  {
    RunCap(cfg, acts, app, ip);
    MintedIsCounted(Run(cfg, acts).log, app, ip, Config(cfg, app).seed);
    TimesMonotone(FundedFrom(Run(cfg, acts).log, app, ip), Config(cfg, app).maxPerIP, Config(cfg, app).seed);
  }

  lemma RunOneMore(cfg: Registry, acts: seq<Action>, more: seq<Action>)
    requires more != []
    ensures var n := |more| - 1;
            Run(cfg, acts + more) == Step(cfg, Run(cfg, acts + more[..n]), more[n])
  {
    assert (acts + more)[..|acts + more| - 1] == acts + more[..|more| - 1];
  }

  /** A run and a continuation of it agree on what was minted for a row recorded in the first. */
  ghost predicate SameGrant(s: Sys, s': Sys, k: string) {
    k in s'.rows && Total(s'.log, k, Mint) == Total(s.log, k, Mint)
  }

  /** Rows are never dropped and a recorded row is never minted again. */
  lemma {:induction false} GrantIsFinal(cfg: Registry, acts: seq<Action>, more: seq<Action>, k: string)
    requires k in Run(cfg, acts).rows
    ensures SameGrant(Run(cfg, acts), Run(cfg, acts + more), k)
  {
    if more == [] {
      assert acts + more == acts;
    } else {
      var n := |more| - 1;
      var before := acts + more[..n];
      GrantIsFinal(cfg, acts, more[..n], k);
      RunOneMore(cfg, acts, more);
      RunMints(cfg, before, k);
      StepMints(cfg, Run(cfg, before), more[n], k);
    }
  }

  /** An identity recorded with a zero grant has a zero balance in every continuation of the run. */
  lemma ZeroGrantStaysZero(cfg: Registry, acts: seq<Action>, more: seq<Action>, k: string)
    requires k in Run(cfg, acts).rows && Total(Run(cfg, acts).log, k, Mint) == 0
    ensures Credits(Run(cfg, acts + more).rows, k) == 0
    ensures InFlightFor(Run(cfg, acts + more).reqs, k) == 0
  {
    GrantIsFinal(cfg, acts, more, k);
    RunConserves(cfg, acts + more, k);
  }

  // ---- conservation per app and caller ----

  ghost predicate Named(cfg: Registry, s: Sys) {
    && (forall k :: k in s.rows ==> s.rows[k].app in cfg && k == Key(s.rows[k].app, s.rows[k].caller))
    && (forall i :: 0 <= i < |s.reqs| ==> s.reqs[i].app in cfg)
  }

  lemma ApplyNamed(cfg: Registry, s: Sys, i: nat, m: Move)
    requires i < |s.reqs| && Lawful(cfg, s.rows, s.reqs[i], m) && Named(cfg, s)
    ensures Named(cfg, Apply(s, i, m))
  {
    forall k | k in m.rows && k != RequestKey(s.reqs[i])
      ensures k in s.rows && m.rows[k] == s.rows[k]
    {
      SameElsewhere(s.rows, m.rows, RequestKey(s.reqs[i]), k);
    }
  }

  lemma {:induction false} RunNamed(cfg: Registry, acts: seq<Action>)
    ensures Named(cfg, Run(cfg, acts))
  {
    if acts != [] {
      var s := Run(cfg, acts[..|acts| - 1]);
      RunNamed(cfg, acts[..|acts| - 1]);
      match acts[|acts| - 1] {
        case Arrive(_, _, _, _) =>
        case Act(i, x) =>
          if i < |s.reqs| {
            var m := LawfulStep(cfg, s, i, x);
            ApplyNamed(cfg, s, i, m);
          }
      }
    }
  }

  /**
   Conservation in every interleaving: the balance of a caller, its reservations in flight, the
   cost its 2xx calls kept, its clamped settlements and its meter drains always add up to its one
   grant, which is the app's seed or nothing; and the balance is never negative.
   */
  lemma Conservation(cfg: Registry, acts: seq<Action>, app: string, caller: string)
    requires forall a :: a in cfg ==> '|' !in a
    requires app in cfg
    ensures var s := Run(cfg, acts);
            var k := Key(app, caller);
            && Credits(s.rows, k) + InFlightFor(s.reqs, k)
               + Total(s.log, k, Keep) + Total(s.log, k, SettleTag) + Total(s.log, k, Drain)
               == Total(s.log, k, Mint)
            && 0 <= Credits(s.rows, k)
            && 0 <= Total(s.log, k, Keep) && 0 <= Total(s.log, k, SettleTag) && 0 <= Total(s.log, k, Drain)
            && MintsOf(s.log, k) <= 1
            && Total(s.log, k, Mint) in {0, cfg[app].seed}
            && (forall i :: 0 <= i < |s.reqs| ==>
                  (RequestKey(s.reqs[i]) == k <==> s.reqs[i].app == app && s.reqs[i].caller == caller))
  {
    var s, k := Run(cfg, acts), Key(app, caller);
    RunConserves(cfg, acts, k);
    RunMints(cfg, acts, k);
    RunNamed(cfg, acts);
    if k in s.rows {
      KeyInjective(app, caller, s.rows[k].app, s.rows[k].caller);
    }
    forall i | 0 <= i < |s.reqs|
      ensures RequestKey(s.reqs[i]) == k <==> s.reqs[i].app == app && s.reqs[i].caller == caller
    {
      KeyInjective(app, caller, s.reqs[i].app, s.reqs[i].caller);
    }
  }
}
