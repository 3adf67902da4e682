/**
 The token bucket on the free balance reads, over exact reals: 20 tokens of burst, refilled at 5
 per second, one bucket per (app, caller).
 */
module BalanceLimiter {
  import opened Text

  const BURST := 20.0
  const REFILL_PER_SEC := 5.0

  datatype Bucket = Bucket(tokens: real, last: real)

  function BucketKey(app: string, caller: string): string {
    app + ['\0'] + caller
  }

  /** The bucket as the call at now sees it, before it takes a token. */
  function Refilled(buckets: map<string, Bucket>, k: string, now: real): Bucket {
    if k !in buckets then Bucket(BURST, now)
    else
      var b := buckets[k];
      if now - b.last > 0.0 then
        var t := b.tokens + (now - b.last) * REFILL_PER_SEC;
        Bucket(if t > BURST then BURST else t, now)
      else b
  }

  predicate Granted(buckets: map<string, Bucket>, k: string, now: real) {
    Refilled(buckets, k, now).tokens >= 1.0
  }

  function AfterRead(buckets: map<string, Bucket>, k: string, now: real): map<string, Bucket> {
    var b := Refilled(buckets, k, now);
    buckets[k := if b.tokens < 1.0 then b else b.(tokens := b.tokens - 1.0)]
  }

  class Limiter {
    var buckets: map<string, Bucket>

    constructor ()
      ensures buckets == map[]
    {
      buckets := map[];
    }

    method AllowBalanceRead(app: string, caller: string, now: real) returns (ok: bool)
      modifies this
      ensures ok == Granted(old(buckets), BucketKey(app, caller), now)
      ensures buckets == AfterRead(old(buckets), BucketKey(app, caller), now)
    {
      var k := BucketKey(app, caller);
      if k !in buckets {
        buckets := buckets[k := Bucket(BURST, now)];
      } else {
        var elapsed := now - buckets[k].last;
        if elapsed > 0.0 {
          var tokens := buckets[k].tokens + elapsed * REFILL_PER_SEC;
          if tokens > BURST {
            tokens := BURST;
          }
          buckets := buckets[k := Bucket(tokens, now)];
        }
      }
      if buckets[k].tokens < 1.0 {
        assert buckets[k := buckets[k]] == buckets;
        return false;
      }
      buckets := buckets[k := buckets[k].(tokens := buckets[k].tokens - 1.0)];
      return true;
    }
  }

  lemma BucketKeyInjective(app: string, caller: string, app': string, caller': string)
    requires '\0' !in app && '\0' !in app'
    ensures BucketKey(app, caller) == BucketKey(app', caller') <==> app == app' && caller == caller'
  {
    CutFirst(app, '\0', caller);
    CutFirst(app', '\0', caller');
  }

  // ---- whole histories: any callers' reads, interleaved ----

  datatype Read = Read(key: string, now: real)

  function Buckets(h: seq<Read>): map<string, Bucket> {
    if h == [] then map[]
    else AfterRead(Buckets(h[..|h| - 1]), h[|h| - 1].key, h[|h| - 1].now)
  }

  /** Reads of k that were let through at an instant in [t0, t1]. */
  function GrantsIn(h: seq<Read>, k: string, t0: real, t1: real): nat {
    if h == [] then 0
    else
      var r := h[|h| - 1];
      GrantsIn(h[..|h| - 1], k, t0, t1)
      + if r.key == k && t0 <= r.now <= t1 && Granted(Buckets(h[..|h| - 1]), k, r.now) then 1 else 0
  }

  ghost predicate Monotone(h: seq<Read>) {
    forall i, j :: 0 <= i < j < |h| ==> h[i].now <= h[j].now
  }

  /** The bucket of k is in range and remembers when k last read. */
  ghost predicate InRange(h: seq<Read>, k: string) {
    if k in Buckets(h) then
      var b := Buckets(h)[k];
      && 0.0 <= b.tokens <= BURST
      && (exists i :: 0 <= i < |h| && h[i].key == k && h[i].now == b.last)
      && (forall i :: 0 <= i < |h| && h[i].key == k ==> h[i].now <= b.last)
    else forall i :: 0 <= i < |h| ==> h[i].key != k
  }

  lemma {:induction false} BucketInRange(h: seq<Read>, k: string)
    requires Monotone(h)
    ensures InRange(h, k)
  {
    if h != [] {
      var n := |h| - 1;
      BucketInRange(h[..n], k);
      if h[n].key == k && k in Buckets(h[..n]) {
        var i :| 0 <= i < n && h[..n][i].key == k && h[..n][i].now == Buckets(h[..n])[k].last;
        assert h[i].now <= h[n].now;
      }
    }
  }

  /** Grants inside the window plus tokens left never exceed the burst plus the refill since t0. */
  ghost predicate Paid(h: seq<Read>, k: string, t0: real, t1: real) {
    && GrantsIn(h, k, t0, t1) as real <= BURST + REFILL_PER_SEC * (t1 - t0)
    && (k !in Buckets(h) ==> GrantsIn(h, k, t0, t1) == 0)
    && (k in Buckets(h) && Buckets(h)[k].last < t0 ==> GrantsIn(h, k, t0, t1) == 0)
    && (k in Buckets(h) && t0 <= Buckets(h)[k].last <= t1 ==>
          GrantsIn(h, k, t0, t1) as real + Buckets(h)[k].tokens
            <= BURST + REFILL_PER_SEC * (Buckets(h)[k].last - t0))
  }

  /** One read of k: what the window pays for it. */
  lemma ReadPaid(b: Bucket, now: real, g: nat, t0: real, t1: real)
    requires 0.0 <= b.tokens <= BURST && b.last <= now && t0 <= t1
    requires g as real <= BURST + REFILL_PER_SEC * (t1 - t0)
    requires b.last < t0 ==> g == 0
    requires t0 <= b.last <= t1 ==> g as real + b.tokens <= BURST + REFILL_PER_SEC * (b.last - t0)
    ensures var r := Refilled(map["" := b], "", now);
            var g' := g + if t0 <= now <= t1 && r.tokens >= 1.0 then 1 else 0;
            var left := if r.tokens < 1.0 then r.tokens else r.tokens - 1.0;
            && r.last == now
            && g' as real <= BURST + REFILL_PER_SEC * (t1 - t0)
            && (now < t0 ==> g' == 0)
            && (t0 <= now <= t1 ==> g' as real + left <= BURST + REFILL_PER_SEC * (now - t0))
  {
  }

  /** The last read is not before the one the bucket remembers. */
  lemma LaterRead(h: seq<Read>, k: string)
    requires Monotone(h) && h != []
    ensures var buckets := Buckets(h[..|h| - 1]);
            k in buckets ==> 0.0 <= buckets[k].tokens <= BURST && buckets[k].last <= h[|h| - 1].now
  {
    var n := |h| - 1;
    BucketInRange(h[..n], k);
    if k in Buckets(h[..n]) {
      var i :| 0 <= i < n && h[..n][i].key == k && h[..n][i].now == Buckets(h[..n])[k].last;
      assert h[i].now <= h[n].now;
    }
  }

  /** A read of k itself keeps the window paid. */
  lemma OwnReadPaid(h: seq<Read>, now: real, k: string, t0: real, t1: real)
    requires Paid(h, k, t0, t1) && t0 <= t1
    requires k in Buckets(h) ==> 0.0 <= Buckets(h)[k].tokens <= BURST && Buckets(h)[k].last <= now
    ensures Paid(h + [Read(k, now)], k, t0, t1)
  {
    var more := h + [Read(k, now)];
    assert more[..|more| - 1] == h;
    if k in Buckets(h) {
      var b := Buckets(h)[k];
      ReadPaid(b, now, GrantsIn(h, k, t0, t1), t0, t1);
      assert Refilled(Buckets(h), k, now) == Refilled(map["" := b], "", now);
    }
  }

  lemma {:induction false} WindowPaid(h: seq<Read>, k: string, t0: real, t1: real)
    requires Monotone(h) && t0 <= t1
    ensures Paid(h, k, t0, t1)
  {
    if h != [] {
      var n := |h| - 1;
      WindowPaid(h[..n], k, t0, t1);
      LaterRead(h, k);
      if h[n].key == k {
        OwnReadPaid(h[..n], h[n].now, k, t0, t1);
        assert h[..n] + [Read(k, h[n].now)] == h;
      } else {
        assert Buckets(h) == AfterRead(Buckets(h[..n]), h[n].key, h[n].now);
      }
    }
  }

  /** A read of one app's caller; the bucket it uses is BucketKey of the two. */
  datatype CallerRead = CallerRead(app: string, caller: string, now: real)

  function Keyed(h: seq<CallerRead>): seq<Read> {
    seq(|h|, i requires 0 <= i < |h| => Read(BucketKey(h[i].app, h[i].caller), h[i].now))
  }

  /** Reads of this app's caller that were let through at an instant in [t0, t1]. */
  function GrantsTo(h: seq<CallerRead>, app: string, caller: string, t0: real, t1: real): nat {
    if h == [] then 0
    else
      var before, r := h[..|h| - 1], h[|h| - 1];
      GrantsTo(before, app, caller, t0, t1)
      + if r.app == app && r.caller == caller && t0 <= r.now <= t1
           && Granted(Buckets(Keyed(before)), BucketKey(app, caller), r.now) then 1 else 0
  }

  predicate NoNul(h: seq<CallerRead>, app: string) {
    '\0' !in app && forall i :: 0 <= i < |h| ==> '\0' !in h[i].app
  }

  /** Callers do not share buckets, so a bucket's grants are one caller's. */
  lemma {:induction false} GrantsToIsGrantsIn(h: seq<CallerRead>, app: string, caller: string, t0: real, t1: real)
    requires NoNul(h, app)
    ensures GrantsTo(h, app, caller, t0, t1) == GrantsIn(Keyed(h), BucketKey(app, caller), t0, t1)
  {
    if h != [] {
      var n := |h| - 1;
      assert Keyed(h)[..n] == Keyed(h[..n]);
      BucketKeyInjective(app, caller, h[n].app, h[n].caller);
      GrantsToIsGrantsIn(h[..n], app, caller, t0, t1);
    }
  }

  ghost predicate Ordered(h: seq<CallerRead>) {
    forall i, j :: 0 <= i < j < |h| ==> h[i].now <= h[j].now
  }

  /** In any window of any run with a monotone clock, a caller is granted at most 20 + 5 * (t1 - t0) reads. */
  lemma WindowBound(h: seq<CallerRead>, app: string, caller: string, t0: real, t1: real)
    requires NoNul(h, app) && Ordered(h) && t0 <= t1
    ensures GrantsTo(h, app, caller, t0, t1) as real <= 20.0 + 5.0 * (t1 - t0)
  {
    GrantsToIsGrantsIn(h, app, caller, t0, t1);
    WindowPaid(Keyed(h), BucketKey(app, caller), t0, t1);
  }

  /** A read at least 0.2 seconds after the caller's earlier ones is never refused, whatever others do. */
  lemma SpacedNeverRefused(h: seq<CallerRead>, app: string, caller: string, now: real)
    requires NoNul(h, app) && Ordered(h)
    requires forall i :: 0 <= i < |h| && h[i].app == app && h[i].caller == caller ==> now - h[i].now >= 0.2
    ensures Granted(Buckets(Keyed(h)), BucketKey(app, caller), now)
  {
    var k := BucketKey(app, caller);
    BucketInRange(Keyed(h), k);
    forall i | 0 <= i < |h| && Keyed(h)[i].key == k ensures now - h[i].now >= 0.2 {
      BucketKeyInjective(app, caller, h[i].app, h[i].caller);
    }
  }

  // ---- a refusal needs a busy window ----

  /** The bucket has been full at t0, and since then has lost a token a grant and gained only its refill. */
  ghost predicate FullAt(h: seq<Read>, k: string, t0: real)
    requires k in Buckets(h)
  {
    var b := Buckets(h)[k];
    t0 <= b.last && b.tokens == BURST + REFILL_PER_SEC * (b.last - t0) - GrantsIn(h, k, t0, b.last) as real
  }

  /** Grants in a window that ends with the last read of k are those up to any later instant. */
  lemma {:induction false} NoLaterGrants(h: seq<Read>, k: string, t0: real, t1: real, t2: real)
    requires t1 <= t2 && forall i :: 0 <= i < |h| && h[i].key == k ==> h[i].now <= t1
    ensures GrantsIn(h, k, t0, t1) == GrantsIn(h, k, t0, t2)
  {
    if h != [] {
      NoLaterGrants(h[..|h| - 1], k, t0, t1, t2);
    }
  }

  lemma {:induction false} NoGrantsYet(h: seq<Read>, k: string, t0: real, t1: real)
    requires forall i :: 0 <= i < |h| && h[i].key == k ==> h[i].now < t0
    ensures GrantsIn(h, k, t0, t1) == 0
  {
    if h != [] {
      NoGrantsYet(h[..|h| - 1], k, t0, t1);
    }
  }

  /** A read of k at now carries the full instant on, or sets it to now if the refill fills the bucket. */
  lemma ReadCarries(h: seq<Read>, k: string, now: real) returns (t0: real)
    requires Monotone(h + [Read(k, now)])
    requires k in Buckets(h) ==> exists t :: FullAt(h, k, t)
    ensures k in Buckets(h + [Read(k, now)]) && FullAt(h + [Read(k, now)], k, t0)
  {
    var more := h + [Read(k, now)];
    assert more[..|h|] == h;
    assert forall i :: 0 <= i < |h| ==> more[i] == h[i] && more[i].now <= more[|h|].now;
    BucketInRange(h, k);
    if k !in Buckets(h) {
      t0 := now;
      NoGrantsYet(h, k, now, now);
    } else {
      var b := Buckets(h)[k];
      var t :| FullAt(h, k, t);
      var i :| 0 <= i < |h| && h[i].key == k && h[i].now == b.last;
      if b.last < now && b.tokens + (now - b.last) * REFILL_PER_SEC > BURST {
        t0 := now;
        NoGrantsYet(h, k, now, now);
      } else {
        t0 := t;
        NoLaterGrants(h, k, t, b.last, now);
      }
    }
  }

  lemma OtherCarries(h: seq<Read>, k: string, r: Read, t: real)
    requires r.key != k && k in Buckets(h) && FullAt(h, k, t)
    ensures k in Buckets(h + [r]) && FullAt(h + [r], k, t)
  {
    assert (h + [r])[..|h|] == h;
  }

  lemma {:induction false} SomeFullInstant(h: seq<Read>, k: string) returns (t0: real)
    requires Monotone(h) && k in Buckets(h)
    ensures FullAt(h, k, t0)
  {
    var n := |h| - 1;
    assert h[..n] + [h[n]] == h;
    if h[n].key == k {
      if k in Buckets(h[..n]) {
        var t := SomeFullInstant(h[..n], k);
      }
      assert Read(k, h[n].now) == h[n];
      t0 := ReadCarries(h[..n], k, h[n].now);
    } else {
      t0 := SomeFullInstant(h[..n], k);
      OtherCarries(h[..n], k, h[n], t0);
    }
  }

  /** A read is refused only if some window that ends with it holds more than 19 + 5 * length grants already. */
  lemma RefusedOnlyWhenBusy(h: seq<CallerRead>, app: string, caller: string, now: real) returns (t0: real)
    requires NoNul(h, app) && Ordered(h + [CallerRead(app, caller, now)])
    requires !Granted(Buckets(Keyed(h)), BucketKey(app, caller), now)
    ensures t0 <= now && GrantsTo(h, app, caller, t0, now) as real > 19.0 + 5.0 * (now - t0)
  {
    var k := BucketKey(app, caller);
    var more := h + [CallerRead(app, caller, now)];
    assert forall i :: 0 <= i < |h| ==> more[i] == h[i] && h[i].now <= more[|h|].now;
    t0 := SomeFullInstant(Keyed(h), k);
    BucketInRange(Keyed(h), k);
    NoLaterGrants(Keyed(h), k, t0, Buckets(Keyed(h))[k].last, now);
    GrantsToIsGrantsIn(h, app, caller, t0, now);
  }
}
