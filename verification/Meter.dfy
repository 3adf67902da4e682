/**
 Usage metering: one tick charges every running machine's cost to its owner and asks to stop
 the machines of an owner whose balance is exhausted. Costs are computed over exact reals.
 */
module Meter {
  import opened Text
  import opened Ledger
  import opened MemStore

  datatype Machine = Machine(id: string, owner: string, state: string, cpus: real, memoryMb: real, diskGb: real)

  datatype Rates = Rates(cpuHour: int, memGbHour: int, diskGbHour: int)

  predicate Running(m: Machine) {
    m.state == "started" || m.state == "running"
  }

  function PerHour(r: Rates, m: Machine): real {
    r.cpuHour as real * m.cpus + r.memGbHour as real * (m.memoryMb / 1024.0) + r.diskGbHour as real * m.diskGb
  }

  /** Conversion of a float to an integer: toward zero. */
  function Truncate(x: real): int {
    if x >= 0.0 then x.Floor else -((-x).Floor)
  }

  function CostAt(perHour: real, hours: real): int {
    Truncate(perHour * hours)
  }

  function CostMicros(r: Rates, m: Machine, hours: real): int {
    CostAt(PerHour(r, m), hours)
  }

  // ---- one tick ----

  /** One machine: its owner's new rows, and whether the machine is asked to stop. */
  function Charge(rows: Rows, app: string, m: Machine, cost: int): (Rows, bool) {
    var k := Key(app, m.owner);
    if m.owner == "" || !Running(m) || k !in rows then (rows, false)
    else
      var bal := rows[k].credits;
      var charge := if bal <= 0 then 0 else if cost > bal then bal else cost;
      if charge > 0 then (Debit(rows, k, charge).0, bal - charge <= 0) else (rows, bal <= 0)
  }

  /** A whole tick: the rows it leaves and the positions of the machines it asks to stop. */
  function Tick(rows: Rows, app: string, r: Rates, ms: seq<Machine>, hours: real): (Rows, set<nat>) {
    if ms == [] then (rows, {})
    else
      var n := |ms| - 1;
      var (before, asked) := Tick(rows, app, r, ms[..n], hours);
      var (after, stop) := Charge(before, app, ms[n], CostMicros(r, ms[n], hours));
      (after, if stop then asked + {n} else asked)
  }

  predicate Enabled(r: Rates) {
    r.cpuHour > 0 || r.memGbHour > 0 || r.diskGbHour > 0
  }

  method MeterMachine(store: Store, app: string, m: Machine, cost: int) returns (stop: bool)
    modifies store`prov
    ensures (store.prov, stop) == Charge(old(store.prov), app, m, cost)
  {
    if m.owner == "" || !Running(m) {
      return false;
    }
    var row := store.Get(app, m.owner);
    if row.None? {
      return false;
    }
    var bal := row.value.credits;
    if bal > 0 {
      var charge := cost;
      if charge > bal {
        charge := bal;
      }
      if charge > 0 {
        var _, _ := store.Debit(app, m.owner, charge);
        bal := bal - charge;
      }
    }
    return bal <= 0;
  }

  /** MeterOnce: stopOk says which stop requests the provider grants. */
  method MeterOnce(store: Store, app: string, r: Rates, ms: seq<Machine>, hours: real, stopOk: nat -> bool)
    returns (stopped: nat, asked: set<nat>)
    modifies store`prov
    ensures Enabled(r) ==> (store.prov, asked) == Tick(old(store.prov), app, r, ms, hours)
    ensures !Enabled(r) ==> store.prov == old(store.prov) && asked == {}
    ensures stopped == |set j | j in asked && stopOk(j)|
  {
    stopped, asked := 0, {};
    if !Enabled(r) {
      return;
    }
    ghost var granted: set<nat> := {};
    for i := 0 to |ms|
      modifies store`prov
      invariant (store.prov, asked) == Tick(old(store.prov), app, r, ms[..i], hours)
      invariant forall j :: j in asked ==> j < i
      invariant granted == set j | j in asked && stopOk(j)
      invariant stopped == |granted|
    {
      var stop := MeterMachine(store, app, ms[i], CostMicros(r, ms[i], hours));
      assert ms[..i + 1][..i] == ms[..i];
      if stop {
        asked := asked + {i};
        if stopOk(i) {
          stopped := stopped + 1;
          granted := granted + {i};
        }
      }
    }
    assert ms[..|ms|] == ms;
  }

  /** What owner o owes for its running machines among ms; a negative price charges nothing. */
  function Owed(r: Rates, ms: seq<Machine>, hours: real, o: string): nat {
    if ms == [] then 0
    else
      var m := ms[|ms| - 1];
      var cost := CostMicros(r, m, hours);
      Owed(r, ms[..|ms| - 1], hours, o) + if m.owner == o && Running(m) && cost > 0 then cost else 0
  }

  /**
   One uninterrupted tick leaves an owner of balance B at max(0, B - what it owes), whatever
   other owners' machines lie between, and asks to stop exactly those of its running machines
   at which the running debt has reached B.
   */
  lemma {:induction false} TickDrains(rows: Rows, app: string, r: Rates, ms: seq<Machine>, hours: real, o: string)
    requires o != "" && Key(app, o) in rows && rows[Key(app, o)].credits >= 0
    ensures var k, bal := Key(app, o), rows[Key(app, o)].credits;
            var (rows', asked) := Tick(rows, app, r, ms, hours);
            && k in rows'
            && rows'[k] == rows[k].(credits := if bal <= Owed(r, ms, hours, o) then 0 else bal - Owed(r, ms, hours, o))
            && (forall j: nat :: j < |ms| && ms[j].owner == o && Running(ms[j]) ==>
                  (j in asked <==> bal <= Owed(r, ms[..j + 1], hours, o)))
  {
    if ms != [] {
      var n := |ms| - 1;
      TickDrains(rows, app, r, ms[..n], hours, o);
      AskedInRange(rows, app, r, ms[..n], hours);
      var (before, _) := Tick(rows, app, r, ms[..n], hours);
      ChargeDrains(before, app, ms[n], CostMicros(r, ms[n], hours), o);
      assert forall e :: 0 <= e <= n ==> ms[..n][..e] == ms[..e];
      assert ms[..n + 1] == ms;
    }
  }

  /** One machine takes its cost from its own owner, down to zero, and is stopped at zero. */
  lemma ChargeDrains(rows: Rows, app: string, m: Machine, cost: int, o: string)
    requires o != "" && Key(app, o) in rows && rows[Key(app, o)].credits >= 0
    ensures var k, bal := Key(app, o), rows[Key(app, o)].credits;
            var owed := if m.owner == o && Running(m) && cost > 0 then cost else 0;
            var (rows', stop) := Charge(rows, app, m, cost);
            && k in rows' && rows'[k] == rows[k].(credits := if bal <= owed then 0 else bal - owed)
            && (m.owner == o && Running(m) ==> (stop <==> bal <= owed))
  {
    if m.owner != o {
      assert Key(app, m.owner)[|app| + 1..] == m.owner && Key(app, o)[|app| + 1..] == o;
    }
  }

  lemma {:induction false} AskedInRange(rows: Rows, app: string, r: Rates, ms: seq<Machine>, hours: real)
    ensures forall j :: j in Tick(rows, app, r, ms, hours).1 ==> j < |ms|
  {
    if ms != [] {
      AskedInRange(rows, app, r, ms[..|ms| - 1], hours);
    }
  }

  // ---- splitting a duration into ticks ----

  function Sum(ds: seq<real>): real {
    if ds == [] then 0.0 else Sum(ds[..|ds| - 1]) + ds[|ds| - 1]
  }

  function SumCosts(perHour: real, ds: seq<real>): int {
    if ds == [] then 0 else SumCosts(perHour, ds[..|ds| - 1]) + CostAt(perHour, ds[|ds| - 1])
  }

  lemma CostAdds(p: real, x: real, y: real)
    requires p >= 0.0 && x >= 0.0 && y >= 0.0
    ensures CostAt(p, x) + CostAt(p, y) <= CostAt(p, x + y) <= CostAt(p, x) + CostAt(p, y) + 1
  {
    var px, py := p * x, p * y;
    assert p * (x + y) == px + py;
    assert px >= 0.0 && py >= 0.0;
  }

  lemma {:induction false} SumNonNegative(ds: seq<real>)
    requires forall i :: 0 <= i < |ds| ==> ds[i] >= 0.0
    ensures Sum(ds) >= 0.0
  {
    if ds != [] {
      SumNonNegative(ds[..|ds| - 1]);
    }
  }

  /**
   Splitting a duration into n ticks never charges a machine more than one tick over the whole,
   and loses at most one micro-dollar per extra tick.
   */
  lemma {:induction false} SplittingTicks(p: real, ds: seq<real>)
    requires |ds| >= 1 && forall i :: 0 <= i < |ds| ==> ds[i] >= 0.0
    requires p >= 0.0
    ensures SumCosts(p, ds) <= CostAt(p, Sum(ds)) <= SumCosts(p, ds) + |ds| - 1
  {
    var n := |ds| - 1;
    if n == 0 {
      assert ds[..0] == [] && Sum(ds) == ds[0];
    } else {
      SplittingTicks(p, ds[..n]);
      SumNonNegative(ds[..n]);
      CostAdds(p, Sum(ds[..n]), ds[n]);
    }
  }

  /** The durations RunMeter passes on: the gaps between the instants it woke up at. */
  function Gaps(times: seq<real>): seq<real>
    requires |times| >= 1
  {
    if |times| == 1 then [] else Gaps(times[..|times| - 1]) + [times[|times| - 1] - times[|times| - 2]]
  }

  lemma {:induction false} GapsAddUp(times: seq<real>)
    requires |times| >= 1
    requires forall i, j :: 0 <= i < j < |times| ==> times[i] <= times[j]
    ensures |Gaps(times)| == |times| - 1
    ensures Sum(Gaps(times)) == times[|times| - 1] - times[0]
    ensures forall i :: 0 <= i < |Gaps(times)| ==> Gaps(times)[i] >= 0.0
  {
    if |times| > 1 {
      var n := |times| - 1;
      GapsAddUp(times[..n]);
      assert Gaps(times)[..|Gaps(times)| - 1] == Gaps(times[..n]);
    }
  }

  /** A metering loop over any monotone clock charges within its tick count of one exact charge. */
  lemma MeterLoopCharge(p: real, times: seq<real>)
    requires |times| >= 2 && p >= 0.0
    requires forall i, j :: 0 <= i < j < |times| ==> times[i] <= times[j]
    ensures var exact := CostAt(p, times[|times| - 1] - times[0]);
            exact - (|times| - 2) <= SumCosts(p, Gaps(times)) <= exact
  {
    GapsAddUp(times);
    SplittingTicks(p, Gaps(times));
  }

  lemma WholeTruncates(n: nat)
    ensures Truncate(n as real) == n
  {
  }

  /**
   A machine of n cpus, g times 1024 MB of memory and d GB of disk accrues in h hours n, g and d times
   the hourly rates.
   */
  lemma WholeHours(cpuHour: nat, memGbHour: nat, diskGbHour: nat, m: Machine, n: nat, g: nat, d: nat, h: nat)
    requires m.cpus == n as real && m.memoryMb == 1024.0 * g as real && m.diskGb == d as real
    ensures CostMicros(Rates(cpuHour, memGbHour, diskGbHour), m, h as real)
         == (cpuHour * n + memGbHour * g + diskGbHour * d) * h
  {
    var perHour := cpuHour * n + memGbHour * g + diskGbHour * d;
    assert m.memoryMb / 1024.0 == g as real;
    Multiplies(cpuHour, n);
    Multiplies(memGbHour, g);
    Multiplies(diskGbHour, d);
    Multiplies(perHour, h);
    assert PerHour(Rates(cpuHour, memGbHour, diskGbHour), m) == perHour as real;
    WholeTruncates(perHour * h);
  }

  lemma Multiplies(x: nat, y: nat)
    ensures x as real * y as real == (x * y) as real && x * y >= 0
  {
  }

  predicate Sized(m: Machine) {
    m.cpus >= 0.0 && m.memoryMb >= 0.0 && m.diskGb >= 0.0
  }

  /** Metering is on exactly if some machine can cost something. */
  lemma EnabledIffSomethingCosts(r: Rates)
    ensures Enabled(r) <==> exists m, hours :: Sized(m) && hours >= 0.0 && CostMicros(r, m, hours) > 0
  {
    if Enabled(r) {
      var m := if r.cpuHour > 0 then Machine("", "", "", 1.0, 0.0, 0.0)
               else if r.memGbHour > 0 then Machine("", "", "", 0.0, 1024.0, 0.0)
               else Machine("", "", "", 0.0, 0.0, 1.0);
      assert PerHour(r, m) >= 1.0;
      assert PerHour(r, m) * 1.0 == PerHour(r, m);
      assert Sized(m) && CostMicros(r, m, 1.0) > 0;
    } else {
      forall m, hours | Sized(m) && hours >= 0.0 ensures CostMicros(r, m, hours) <= 0 {
        NoPrice(r.cpuHour, m.cpus);
        NoPrice(r.memGbHour, m.memoryMb / 1024.0);
        NoPrice(r.diskGbHour, m.diskGb);
        NotPositive(PerHour(r, m), hours);
      }
    }
  }

  lemma NoPrice(price: int, x: real)
    requires price <= 0 && x >= 0.0
    ensures price as real * x <= 0.0
  {
    NotPositive(price as real, x);
  }

  lemma NotPositive(p: real, x: real)
    requires p <= 0.0 && x >= 0.0
    ensures p * x <= 0.0
  {
  }

  /** Machines reported as started or running are charged, and no others. */
  lemma OnlyRunningCharged(rows: Rows, app: string, m: Machine, cost: int)
    requires m.state != "started" && m.state != "running"
    ensures Charge(rows, app, m, cost) == (rows, false)
  {
  }

  /** Conversion drops the fraction on either side of zero. */
  lemma TruncatesTowardZero(n: nat, f: real)
    requires 0.0 <= f < 1.0
    ensures Truncate(n as real + f) == n && Truncate(-(n as real + f)) == -(n as int)
  {
  }
}
