/**
 Derived per-user keys: a token seals a caller id and a rotation counter under a MAC, and is
 checked against the caller's current counter in the credit ledger. The MAC is a parameter:
 HMAC-SHA256 in the broker, here any function to 32-byte tags.
 */
module DerivedKey {
  import opened Text
  import opened Ledger
  import opened Base64Url
  import opened BrokerRuns

  const PREFIX := "sk-smol-"
  const TAG_SIZE := 32

  /** mac(secret, message). */
  type Mac = (string, string) -> string

  ghost predicate IsMac(mac: Mac) {
    forall s, m :: IsBytes(mac(s, m)) && |mac(s, m)| == TAG_SIZE
  }

  function MacMessage(version: int, rot: nat, caller: string): string
    requires 0 <= version < 256
  {
    [version as char] + Itoa(rot) + "\n" + caller
  }

  function DeriveKey(mac: Mac, secret: string, version: int, rot: nat, caller: string): string
    requires 0 <= version < 256 && IsBytes(caller)
    requires IsBytes(mac(secret, MacMessage(version, rot, caller)))
  {
    PREFIX + Itoa(version) + "." + Encode(caller) + "."
    + Encode(mac(secret, MacMessage(version, rot, caller)))
  }

  /** strconv.Atoi: an optional sign, then digits only. */
  function ParseInt(s: string): Option<int> {
    var negative := s != "" && s[0] == '-';
    var digits := if s != "" && (s[0] == '-' || s[0] == '+') then s[1..] else s;
    if digits == "" || !AllDigits(digits) then None
    else
      var n: int := Value(digits);
      Some(if negative then -n else n)
  }

  datatype Parsed = Parsed(version: int, caller: string, tag: string)

  function ParseDerived(token: string): (p: Option<Parsed>)
    ensures p.Some? ==> 0 <= p.value.version < 256 && IsBytes(p.value.caller) && |p.value.tag| == TAG_SIZE
  {
    if !(PREFIX <= token) then None
    else
      var (vStr, tail) := Cut(token[|PREFIX|..], '.');
      if tail.None? then None
      else
        var (callerB64, macB64) := Cut(tail.value, '.');
        if macB64.None? then None
        else
          var v := ParseInt(vStr);
          var caller := Decode(callerB64);
          var tag := Decode(macB64.value);
          if v.None? || v.value < 0 || v.value > 255 || caller.None? || tag.None? || |tag.value| != TAG_SIZE then None
          else Some(Parsed(v.value, caller.value, tag.value))
  }

  function ValidateDerived(mac: Mac, secrets: map<int, string>, token: string, rot: nat): Option<string> {
    var p := ParseDerived(token);
    if p.None? || p.value.version !in secrets || secrets[p.value.version] == "" then None
    else if p.value.tag != mac(secrets[p.value.version], MacMessage(p.value.version, rot, p.value.caller)) then None
    else Some(p.value.caller)
  }

  /** Looks the claimed caller's current counter up, then validates against it. */
  function CallerFromKey(mac: Mac, secrets: map<int, string>, rows: Rows, app: string, token: string): Option<string> {
    var p := ParseDerived(token);
    if p.None? then None
    else
      var k := Key(app, p.value.caller);
      if k !in rows then None
      else
        var got := ValidateDerived(mac, secrets, token, rows[k].rot);
        if got.None? || got.value != p.value.caller then None else Some(p.value.caller)
  }

  // ---- what the message and the token determine ----

  /** The MAC message determines version, rotation and caller. */
  lemma MacMessageInjective(v: int, rot: nat, caller: string, v': int, rot': nat, caller': string)
    requires 0 <= v < 256 && 0 <= v' < 256
    requires MacMessage(v, rot, caller) == MacMessage(v', rot', caller')
    ensures v == v' && rot == rot' && caller == caller'
  {
    var m, m' := MacMessage(v, rot, caller), MacMessage(v', rot', caller');
    assert m[0] == v as char && m'[0] == v' as char;
    assert m[1..] == Itoa(rot) + "\n" + caller;
    assert m'[1..] == Itoa(rot') + "\n" + caller';
    CutFirst(Itoa(rot), '\n', caller);
    CutFirst(Itoa(rot'), '\n', caller');
    assert Value(Itoa(rot)) == Value(Itoa(rot'));
  }

  lemma ParseIntItoa(n: nat)
    ensures ParseInt(Itoa(n)) == Some(n)
  {
    assert IsDigit(Itoa(n)[0]);
  }

  /** Parsing a minted token gives back exactly what was sealed in it. */
  lemma ParseMinted(mac: Mac, secret: string, version: int, rot: nat, caller: string)
    requires 0 <= version < 256 && IsBytes(caller) && IsMac(mac)
    ensures ParseDerived(DeriveKey(mac, secret, version, rot, caller))
         == Some(Parsed(version, caller, mac(secret, MacMessage(version, rot, caller))))
  {
    var tag := mac(secret, MacMessage(version, rot, caller));
    var token := DeriveKey(mac, secret, version, rot, caller);
    var tail := Encode(caller) + "." + Encode(tag);
    assert token == PREFIX + (Itoa(version) + "." + tail);
    assert token[|PREFIX|..] == Itoa(version) + "." + tail;
    CutFirst(Itoa(version), '.', tail);
    CutFirst(Encode(caller), '.', Encode(tag));
    ParseIntItoa(version);
    RoundTrip(caller);
    RoundTrip(tag);
  }

  /** The two messages do not collide under the secret. */
  predicate NoCollision(mac: Mac, secret: string, m: string, m': string) {
    mac(secret, m) == mac(secret, m') ==> m == m'
  }

  /** A key minted for c at rotation r is accepted, and as c, exactly while c's counter is r. */
  lemma AcceptedWhileCurrent(mac: Mac, secret: string, version: int, rows: Rows, app: string, caller: string, r: nat)
    requires 0 <= version < 256 && IsBytes(caller) && IsMac(mac) && secret != ""
    requires var k := Key(app, caller);
             k in rows ==> NoCollision(mac, secret, MacMessage(version, r, caller),
                                       MacMessage(version, rows[k].rot, caller))
    ensures var k := Key(app, caller);
            CallerFromKey(mac, map[version := secret], rows, app, DeriveKey(mac, secret, version, r, caller))
            == if k in rows && rows[k].rot == r then Some(caller) else None
  {
    ParseMinted(mac, secret, version, r, caller);
    var k := Key(app, caller);
    if k in rows
       && mac(secret, MacMessage(version, r, caller)) == mac(secret, MacMessage(version, rows[k].rot, caller))
    {
      MacMessageInjective(version, r, caller, version, rows[k].rot, caller);
    }
  }

  /** Whatever token is accepted as c carries the MAC of c at its current rotation under a known secret. */
  lemma AcceptedIsSealed(mac: Mac, secrets: map<int, string>, rows: Rows, app: string, token: string, caller: string)
    ensures CallerFromKey(mac, secrets, rows, app, token) == Some(caller) <==>
            exists v :: 0 <= v < 256 && v in secrets && secrets[v] != "" && Key(app, caller) in rows
              && ParseDerived(token)
                 == Some(Parsed(v, caller, mac(secrets[v], MacMessage(v, rows[Key(app, caller)].rot, caller))))
  {
    var p := ParseDerived(token);
    if p.Some? && p.value.caller == caller && p.value.version in secrets {
      var v := p.value.version;
      assert p == Some(Parsed(v, caller, p.value.tag));
    }
  }

  // ---- rotation over whole runs ----

  /** How many rotations of k's row the run has performed. */
  function Rotations(cfg: Registry, acts: seq<Action>, k: string): nat {
    if acts == [] then 0
    else
      var s, a := Run(cfg, acts[..|acts| - 1]), acts[|acts| - 1];
      Rotations(cfg, acts[..|acts| - 1], k)
      + if a.Act? && a.i < |s.reqs| && s.reqs[a.i].pc.Rotating? && RequestKey(s.reqs[a.i]) == k && k in s.rows
        then 1 else 0
  }

  lemma AdvanceRot(cfg: Registry, rows: Rows, r: Request, x: Input, k: string)
    ensures var m := Advance(cfg, rows, r, x);
            && (k in rows ==> k in m.rows)
            && (k in rows ==> m.rows[k].rot == rows[k].rot + if r.pc.Rotating? && RequestKey(r) == k then 1 else 0)
            && (k !in rows && k in m.rows ==> m.rows[k].rot == 0)
            && (r.pc.Rotating? ==> Credits(m.rows, k) == Credits(rows, k))
  {
  }

  /** A row's counter is the number of rotations performed on it. */
  lemma {:induction false} RotIsRotations(cfg: Registry, acts: seq<Action>, k: string)
    ensures var s := Run(cfg, acts);
            if k in s.rows then s.rows[k].rot == Rotations(cfg, acts, k) else Rotations(cfg, acts, k) == 0
  {
    if acts != [] {
      var s := Run(cfg, acts[..|acts| - 1]);
      RotIsRotations(cfg, acts[..|acts| - 1], k);
      match acts[|acts| - 1] {
        case Arrive(_, _, _, _) =>
        case Act(i, x) =>
          if i < |s.reqs| {
            AdvanceRot(cfg, s.rows, s.reqs[i], x, k);
          }
      }
    }
  }

  lemma {:induction false} RotationsGrow(cfg: Registry, acts: seq<Action>, more: seq<Action>, k: string)
    ensures Rotations(cfg, acts, k) <= Rotations(cfg, acts + more, k)
  {
    if more == [] {
      assert acts + more == acts;
    } else {
      var n := |more| - 1;
      RotationsGrow(cfg, acts, more[..n], k);
      assert (acts + more)[..|acts + more| - 1] == acts + more[..n];
    }
  }

  /**
   A key minted after any run is accepted after any continuation exactly if no rotation of that
   caller happened in between; one rotation revokes it for good.
   */
  lemma RotationRevokes(mac: Mac, secret: string, version: int, cfg: Registry, acts: seq<Action>, more: seq<Action>,
                        app: string, caller: string)
    requires 0 <= version < 256 && IsBytes(caller) && IsMac(mac) && secret != ""
    requires Key(app, caller) in Run(cfg, acts).rows
    requires NoCollision(mac, secret,
                         MacMessage(version, Rotations(cfg, acts, Key(app, caller)), caller),
                         MacMessage(version, Rotations(cfg, acts + more, Key(app, caller)), caller))
    ensures var k := Key(app, caller);
            var key := DeriveKey(mac, secret, version, Run(cfg, acts).rows[k].rot, caller);
            && k in Run(cfg, acts + more).rows
            && CallerFromKey(mac, map[version := secret], Run(cfg, acts + more).rows, app, key)
               == (if Rotations(cfg, acts + more, k) == Rotations(cfg, acts, k) then Some(caller) else None)
            && Rotations(cfg, acts + more, k) >= Rotations(cfg, acts, k)
  {
    var k := Key(app, caller);
    RotIsRotations(cfg, acts, k);
    RotIsRotations(cfg, acts + more, k);
    RotationsGrow(cfg, acts, more, k);
    GrantIsFinal(cfg, acts, more, k);
    AcceptedWhileCurrent(mac, secret, version, Run(cfg, acts + more).rows, app, caller, Run(cfg, acts).rows[k].rot);
  }

  // ---- the formats themselves ----

  /** A version tag may carry a sign, as strconv.Atoi reads it. */
  lemma SignedVersion(n: nat)
    ensures ParseInt("+" + Itoa(n)) == Some(n)
    ensures ParseInt("-" + Itoa(n)).Some? && ParseInt("-" + Itoa(n)).value + n == 0
  {
    assert ("+" + Itoa(n))[1..] == Itoa(n) && ("-" + Itoa(n))[1..] == Itoa(n);
  }

  /** What is sealed for caller c1 at version 1 and rotation 7, and how its token begins. */
  lemma SealedForm(mac: Mac, secret: string)
    requires IsMac(mac)
    ensures MacMessage(1, 7, "c1") == [1 as char] + "7\nc1"
    ensures "sk-smol-1.YzE." <= DeriveKey(mac, secret, 1, 7, "c1")
    ensures |mac(secret, MacMessage(1, 7, "c1"))| == 32
  {
    assert Itoa(7) == "7" && Itoa(1) == "1";
    assert Encode("c1") == "YzE";
    var tail := Encode(mac(secret, MacMessage(1, 7, "c1")));
    assert DeriveKey(mac, secret, 1, 7, "c1") == "sk-smol-1.YzE." + tail;
  }
}
