/**
 The per-app circuit breaker. Its four mutable fields are shown to be a function of the whole
 history of Allow and Record calls: the run of failures since the last success, the time of the
 last failure, and whether a trial call is out.
 */
module Breaker {
  import opened Text

  datatype State = State(failures: nat, isOpen: bool, openedAt: int, probing: bool)

  const FRESH := State(0, false, 0, false)

  function AllowAnswer(s: State, cooldown: int, now: int): bool {
    !s.isOpen || (now - s.openedAt >= cooldown && !s.probing)
  }

  function AfterAllow(s: State, cooldown: int, now: int): State {
    if s.isOpen && AllowAnswer(s, cooldown, now) then s.(probing := true) else s
  }

  function AfterRecord(s: State, threshold: int, success: bool, now: int): State {
    if success then s.(failures := 0, isOpen := false, probing := false)
    else
      var f := s.failures + 1;
      if s.isOpen then s.(failures := f, probing := false, openedAt := now)
      else if f >= threshold then s.(failures := f, isOpen := true, openedAt := now)
      else s.(failures := f)
  }

  class CircuitBreaker {
    const threshold: int
    const cooldown: int
    var failures: nat
    var isOpen: bool
    var openedAt: int
    var probing: bool

    constructor (threshold: int, cooldown: int)
      ensures View() == FRESH && this.threshold == threshold && this.cooldown == cooldown
    {
      this.threshold, this.cooldown := threshold, cooldown;
      failures, isOpen, openedAt, probing := 0, false, 0, false;
    }

    function View(): State
      reads this
    {
      State(failures, isOpen, openedAt, probing)
    }

    method Allow(now: int) returns (ok: bool)
      modifies this
      ensures threshold <= 0 ==> ok && View() == old(View())
      ensures threshold > 0 ==> ok == AllowAnswer(old(View()), cooldown, now)
      ensures threshold > 0 ==> View() == AfterAllow(old(View()), cooldown, now)
    {
      if threshold <= 0 {
        return true;
      }
      if !isOpen {
        return true;
      }
      if now - openedAt >= cooldown && !probing {
        probing := true;
        return true;
      }
      return false;
    }

    method Record(success: bool, now: int)
      modifies this
      ensures threshold <= 0 ==> View() == old(View())
      ensures threshold > 0 ==> View() == AfterRecord(old(View()), threshold, success, now)
    {
      if threshold <= 0 {
        return;
      }
      if success {
        failures, isOpen, probing := 0, false, false;
        return;
      }
      failures := failures + 1;
      if isOpen {
        probing := false;
        openedAt := now;
        return;
      }
      if failures >= threshold {
        isOpen := true;
        openedAt := now;
      }
    }
  }

  // ---- whole histories ----

  datatype Event = AllowAt(now: int) | RecordAt(now: int, success: bool)

  function Replay(threshold: int, cooldown: int, h: seq<Event>): State {
    if h == [] then FRESH
    else
      var s := Replay(threshold, cooldown, h[..|h| - 1]);
      match h[|h| - 1]
      case AllowAt(now) => AfterAllow(s, cooldown, now)
      case RecordAt(now, success) => AfterRecord(s, threshold, success, now)
  }

  /** How many failures were recorded since the last recorded success. */
  function TrailingFailures(h: seq<Event>): nat {
    if h == [] then 0
    else match h[|h| - 1]
      case AllowAt(_) => TrailingFailures(h[..|h| - 1])
      case RecordAt(_, success) => if success then 0 else TrailingFailures(h[..|h| - 1]) + 1
  }

  function LastFailure(h: seq<Event>): Option<int> {
    if h == [] then None
    else if h[|h| - 1].RecordAt? && !h[|h| - 1].success then Some(h[|h| - 1].now)
    else LastFailure(h[..|h| - 1])
  }

  /** How many calls the breaker has let through since the last Record. */
  function GrantsSinceRecord(threshold: int, cooldown: int, h: seq<Event>): nat {
    if h == [] || h[|h| - 1].RecordAt? then 0
    else
      var s := Replay(threshold, cooldown, h[..|h| - 1]);
      GrantsSinceRecord(threshold, cooldown, h[..|h| - 1])
      + if AllowAnswer(s, cooldown, h[|h| - 1].now) then 1 else 0
  }

  /** The breaker is open exactly when the trailing run of failures has reached the threshold. */
  lemma {:induction false} OpenIffFailing(threshold: int, cooldown: int, h: seq<Event>)
    requires threshold > 0
    ensures var s := Replay(threshold, cooldown, h);
            && s.failures == TrailingFailures(h)
            && (s.isOpen <==> TrailingFailures(h) >= threshold)
            && (s.isOpen ==> LastFailure(h) == Some(s.openedAt))
            && (!s.isOpen ==> !s.probing)
  {
    if h != [] {
      OpenIffFailing(threshold, cooldown, h[..|h| - 1]);
    }
  }

  /** While it is open, at most one call passes between two consecutive Records. */
  lemma {:induction false} OneProbe(threshold: int, cooldown: int, h: seq<Event>)
    requires threshold > 0
    requires TrailingFailures(h) >= threshold
    ensures GrantsSinceRecord(threshold, cooldown, h) == if Replay(threshold, cooldown, h).probing then 1 else 0
  {
    OpenIffFailing(threshold, cooldown, h);
    var before := h[..|h| - 1];
    OpenIffFailing(threshold, cooldown, before);
    if h[|h| - 1].AllowAt? {
      OneProbe(threshold, cooldown, before);
    }
  }

  /** A call is let through while failing only as that one trial, and only once the cooldown has run. */
  lemma GrantWhileOpen(threshold: int, cooldown: int, h: seq<Event>, now: int)
    requires threshold > 0
    requires TrailingFailures(h) >= threshold
    ensures LastFailure(h).Some?
    ensures AllowAnswer(Replay(threshold, cooldown, h), cooldown, now)
         <==> now - LastFailure(h).value >= cooldown && GrantsSinceRecord(threshold, cooldown, h) == 0
    ensures GrantsSinceRecord(threshold, cooldown, h + [AllowAt(now)]) <= 1
  {
    OpenIffFailing(threshold, cooldown, h);
    OneProbe(threshold, cooldown, h);
    assert (h + [AllowAt(now)])[..|h|] == h;
  }

  /** While the trailing run is shorter than the threshold every call passes. */
  lemma GrantWhileClosed(threshold: int, cooldown: int, h: seq<Event>, now: int)
    requires threshold > 0
    requires TrailingFailures(h) < threshold
    ensures AllowAnswer(Replay(threshold, cooldown, h), cooldown, now)
  {
    OpenIffFailing(threshold, cooldown, h);
  }
}
