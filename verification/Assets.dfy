/**
 Resolving one platform's assets into install order: Kahn's algorithm over dependency names, with
 (order, name) as the tiebreak. The result is pinned down without reference to the algorithm: it is
 the lexicographically least order in which every asset follows its dependencies.
 */
module Assets {
  import opened Text

  datatype Asset = Asset(name: string, os: string, arch: string, execPath: string, order: int, deps: seq<string>)

  datatype Resolution = Resolved(assets: seq<Asset>) | UnknownDep(asset: string, dep: string) | Cycle

  function LastSlash(s: string): int
    ensures -1 <= LastSlash(s) < |s|
  {
    if s == "" then -1 else if s[|s| - 1] == '/' then |s| - 1 else LastSlash(s[..|s| - 1])
  }

  /** The explicit name, or the last element of the exec path. */
  function NameOf(a: Asset): string {
    if a.name != "" then a.name else a.execPath[LastSlash(a.execPath) + 1..]
  }

  /** Without an explicit name an asset is called by the part of its exec path after the last slash. */
  lemma {:induction false} BaseName(a: Asset, dir: string, base: string)
    requires a.name == "" && '/' !in base && (a.execPath == base || a.execPath == dir + "/" + base)
    ensures NameOf(a) == base
  {
    var prefix := a.execPath[..|a.execPath| - |base|];
    assert a.execPath == prefix + base && (prefix == "" || prefix == dir + "/");
    AfterSlash(prefix, base);
    assert (prefix + base)[|prefix|..] == base;
  }

  lemma {:induction false} AfterSlash(prefix: string, base: string)
    requires '/' !in base && (prefix == "" || prefix[|prefix| - 1] == '/')
    ensures LastSlash(prefix + base) == |prefix| - 1
    decreases |base|
  {
    if base != "" {
      var n := |base| - 1;
      assert base[n] in base;
      AfterSlash(prefix, base[..n]);
      assert (prefix + base)[..|prefix + base| - 1] == prefix + base[..n];
    } else {
      assert prefix + base == prefix;
    }
  }

  /** order, then name. */
  predicate Less(x: Asset, y: Asset) {
    if x.order != y.order then x.order < y.order else TextLess(NameOf(x), NameOf(y))
  }

  function OnPlatform(assets: seq<Asset>, os: string, arch: string): seq<Asset> {
    if assets == [] then []
    else
      var a := assets[|assets| - 1];
      var rest := OnPlatform(assets[..|assets| - 1], os, arch);
      if a.os == os && a.arch == arch then rest + [a] else rest
  }

  // ---- what an install order is ----

  function NamesOf(s: seq<Asset>): set<string> {
    set i | 0 <= i < |s| :: NameOf(s[i])
  }

  predicate DistinctNames(s: seq<Asset>) {
    forall i, j :: 0 <= i < j < |s| ==> NameOf(s[i]) != NameOf(s[j])
  }

  predicate KnownDeps(s: seq<Asset>) {
    forall i :: 0 <= i < |s| ==> DepsIn(s[i], NamesOf(s))
  }

  predicate DepsIn(a: Asset, names: set<string>) {
    forall d :: d in a.deps ==> d in names
  }

  /** Every asset comes after everything it depends on. */
  predicate DepsFirst(s: seq<Asset>) {
    forall i, d :: 0 <= i < |s| && d in s[i].deps ==> d in NamesOf(s[..i])
  }

  /** An install order of plat: the same assets, dependencies first. */
  predicate InstallOrder(plat: seq<Asset>, s: seq<Asset>) {
    multiset(s) == multiset(plat) && DepsFirst(s)
  }

  /** s is before t at the first place where they differ. */
  ghost predicate Precedes(s: seq<Asset>, t: seq<Asset>) {
    exists i :: 0 <= i < |s| && i < |t| && s[..i] == t[..i] && Less(s[i], t[i])
  }

  predicate DependsOn(plat: seq<Asset>, n: string, d: string) {
    exists i :: 0 <= i < |plat| && NameOf(plat[i]) == n && d in plat[i].deps
  }

  /** A chain of dependencies that returns to where it began. */
  predicate IsCycle(plat: seq<Asset>, p: seq<string>) {
    && |p| >= 2 && p[0] == p[|p| - 1]
    && forall i :: 0 <= i < |p| - 1 ==> DependsOn(plat, p[i], p[i + 1])
  }

  // ---- the algorithm ----

  /** How often d occurs among deps. */
  function Occurs(deps: seq<string>, d: string): nat {
    if deps == [] then 0 else Occurs(deps[..|deps| - 1], d) + if deps[|deps| - 1] == d then 1 else 0
  }

  /** Dependency entries not in done. */
  function Open(deps: seq<string>, done: set<string>): nat {
    if deps == [] then 0 else Open(deps[..|deps| - 1], done) + if deps[|deps| - 1] !in done then 1 else 0
  }

  /** The in-degree of name n once the names in done are consumed. */
  function Pending(plat: seq<Asset>, n: string, done: set<string>): nat {
    if plat == [] then 0
    else
      var a := plat[|plat| - 1];
      Pending(plat[..|plat| - 1], n, done) + if NameOf(a) == n then Open(a.deps, done) else 0
  }

  /** The entries by which consuming d lowers n. */
  function Hits(plat: seq<Asset>, n: string, d: string): nat {
    if plat == [] then 0
    else
      var a := plat[|plat| - 1];
      Hits(plat[..|plat| - 1], n, d) + if NameOf(a) == n then Occurs(a.deps, d) else 0
  }

  /** All its dependency entries, and those of any namesake, are consumed and it is not. */
  predicate Ready(plat: seq<Asset>, a: Asset, done: set<string>) {
    && NameOf(a) !in done
    && forall i, d :: 0 <= i < |plat| && NameOf(plat[i]) == NameOf(a) && d in plat[i].deps ==> d in done
  }

  ghost predicate IndegOk(plat: seq<Asset>, indeg: map<string, int>, done: set<string>) {
    && indeg.Keys == NamesOf(plat)
    && forall n :: n in indeg ==> if n in done then indeg[n] < 0 else indeg[n] == Pending(plat, n, done)
  }

  method Filter(assets: seq<Asset>, os: string, arch: string) returns (plat: seq<Asset>)
    ensures plat == OnPlatform(assets, os, arch)
  {
    plat := [];
    for i := 0 to |assets|
      invariant plat == OnPlatform(assets[..i], os, arch)
    {
      assert assets[..i + 1][..i] == assets[..i];
      if assets[i].os == os && assets[i].arch == arch {
        plat := plat + [assets[i]];
      }
    }
    assert assets[..|assets|] == assets;
  }

  method ZeroNames(plat: seq<Asset>) returns (indeg: map<string, int>)
    ensures indeg.Keys == NamesOf(plat)
    ensures forall n :: n in indeg ==> indeg[n] == 0
  {
    indeg := map[];
    for i := 0 to |plat|
      invariant indeg.Keys == NamesOf(plat[..i])
      invariant forall n :: n in indeg ==> indeg[n] == 0
    {
      assert NamesOf(plat[..i + 1]) == NamesOf(plat[..i]) + {NameOf(plat[i])};
      indeg := indeg[NameOf(plat[i]) := 0];
    }
    assert plat[..|plat|] == plat;
  }

  /** Counts one asset's entries, or reports its first entry that names no asset. */
  method CountAsset(a: Asset, indeg: map<string, int>) returns (out: map<string, int>, bad: Option<string>)
    requires NameOf(a) in indeg
    ensures bad.None? ==>
              && out == indeg[NameOf(a) := indeg[NameOf(a)] + Open(a.deps, {})]
              && DepsIn(a, indeg.Keys)
    ensures bad.Some? ==> bad.value in a.deps && bad.value !in indeg
  {
    out, bad := indeg, None;
    assert indeg == indeg[NameOf(a) := indeg[NameOf(a)]];
    for j := 0 to |a.deps|
      invariant bad.None?
      invariant out == indeg[NameOf(a) := indeg[NameOf(a)] + Open(a.deps[..j], {})]
      invariant forall d :: d in a.deps[..j] ==> d in indeg
    {
      assert a.deps[..j + 1] == a.deps[..j] + [a.deps[j]];
      if a.deps[j] !in indeg {
        bad := Some(a.deps[j]);
        return;
      }
      out := out[NameOf(a) := out[NameOf(a)] + 1];
    }
    assert a.deps[..|a.deps|] == a.deps;
  }

  lemma PendingSnoc(plat: seq<Asset>, i: nat, n: string, done: set<string>)
    requires i < |plat|
    ensures Pending(plat[..i + 1], n, done)
         == Pending(plat[..i], n, done) + if NameOf(plat[i]) == n then Open(plat[i].deps, done) else 0
  {
    assert plat[..i + 1][..i] == plat[..i];
  }

  lemma HitsSnoc(plat: seq<Asset>, i: nat, n: string, d: string)
    requires i < |plat|
    ensures Hits(plat[..i + 1], n, d)
         == Hits(plat[..i], n, d) + if NameOf(plat[i]) == n then Occurs(plat[i].deps, d) else 0
  {
    assert plat[..i + 1][..i] == plat[..i];
  }

  /** The initial in-degrees, or the first dependency that names no asset. */
  lemma CountedNext(plat: seq<Asset>, i: nat, indeg: map<string, int>, counted: map<string, int>)
    requires i < |plat| && NameOf(plat[i]) in indeg
    requires forall n :: n in indeg ==> indeg[n] == Pending(plat[..i], n, {})
    requires counted == indeg[NameOf(plat[i]) := indeg[NameOf(plat[i])] + Open(plat[i].deps, {})]
    ensures counted.Keys == indeg.Keys
    ensures forall n :: n in counted ==> counted[n] == Pending(plat[..i + 1], n, {})
  {
    forall n | n in counted ensures counted[n] == Pending(plat[..i + 1], n, {}) {
      PendingSnoc(plat, i, n, {});
    }
  }

  method CountDeps(plat: seq<Asset>) returns (indeg: map<string, int>, bad: Option<(nat, string)>)
    ensures bad.None? ==> KnownDeps(plat) && IndegOk(plat, indeg, {})
    ensures bad.Some? ==> bad.value.0 < |plat| && bad.value.1 in plat[bad.value.0].deps && bad.value.1 !in NamesOf(plat)
  {
    indeg := ZeroNames(plat);
    bad := None;
    for i := 0 to |plat|
      invariant bad.None?
      invariant indeg.Keys == NamesOf(plat)
      invariant forall n :: n in indeg ==> indeg[n] == Pending(plat[..i], n, {})
      invariant forall j :: 0 <= j < i ==> DepsIn(plat[j], NamesOf(plat))
    {
      var counted, unknown := CountAsset(plat[i], indeg);
      if unknown.Some? {
        bad := Some((i, unknown.value));
        return;
      }
      CountedNext(plat, i, indeg, counted);
      indeg := counted;
    }
    assert plat[..|plat|] == plat;
  }

  /** The least of the assets whose in-degree is zero, if any. */
  method PickReady(plat: seq<Asset>, indeg: map<string, int>) returns (next: Option<Asset>)
    requires indeg.Keys == NamesOf(plat)
    ensures next.None? ==> forall i :: 0 <= i < |plat| ==> indeg[NameOf(plat[i])] != 0
    ensures next.Some? ==> next.value in plat && indeg[NameOf(next.value)] == 0
    ensures next.Some? ==> forall i :: 0 <= i < |plat| && indeg[NameOf(plat[i])] == 0 ==> !Less(plat[i], next.value)
  {
    next := None;
    for i := 0 to |plat|
      invariant next.None? ==> forall j :: 0 <= j < i ==> indeg[NameOf(plat[j])] != 0
      invariant next.Some? ==> next.value in plat && indeg[NameOf(next.value)] == 0
      invariant next.Some? ==> forall j :: 0 <= j < i && indeg[NameOf(plat[j])] == 0 ==> !Less(plat[j], next.value)
    {
      if indeg[NameOf(plat[i])] == 0 {
        if next.None? || Less(plat[i], next.value) {
          forall j | 0 <= j < i && indeg[NameOf(plat[j])] == 0 ensures !Less(plat[j], plat[i]) {
            LessTransitive(plat[j], plat[i], next.value);
          }
          LessIrreflexive(plat[i]);
          next := Some(plat[i]);
        }
      }
    }
  }

  method LowerAsset(a: Asset, indeg: map<string, int>, d: string) returns (out: map<string, int>)
    requires NameOf(a) in indeg
    ensures out == indeg[NameOf(a) := indeg[NameOf(a)] - Occurs(a.deps, d)]
  {
    out := indeg;
    assert indeg == indeg[NameOf(a) := indeg[NameOf(a)]];
    for j := 0 to |a.deps|
      invariant out == indeg[NameOf(a) := indeg[NameOf(a)] - Occurs(a.deps[..j], d)]
    {
      assert a.deps[..j + 1][..j] == a.deps[..j];
      if a.deps[j] == d {
        out := out[NameOf(a) := out[NameOf(a)] - 1];
      }
    }
    assert a.deps[..|a.deps|] == a.deps;
  }

  /** Consuming d: one less for every entry that names it. */
  method Lower(plat: seq<Asset>, indeg: map<string, int>, d: string) returns (out: map<string, int>)
    requires indeg.Keys == NamesOf(plat)
    ensures out.Keys == indeg.Keys
    ensures forall n :: n in indeg ==> out[n] == indeg[n] - Hits(plat, n, d)
  {
    out := indeg;
    for i := 0 to |plat|
      invariant out.Keys == indeg.Keys
      invariant forall n :: n in indeg ==> out[n] == indeg[n] - Hits(plat[..i], n, d)
    {
      var lowered := LowerAsset(plat[i], out, d);
      forall n | n in indeg ensures lowered[n] == indeg[n] - Hits(plat[..i + 1], n, d) {
        HitsSnoc(plat, i, n, d);
      }
      out := lowered;
    }
    assert plat[..|plat|] == plat;
  }

  /** out was built by always taking a least ready asset. */
  ghost predicate Greedy(plat: seq<Asset>, out: seq<Asset>) {
    forall k :: 0 <= k < |out| ==> TakesLeast(plat, out[k], NamesOf(out[..k]))
  }

  ghost predicate TakesLeast(plat: seq<Asset>, a: Asset, done: set<string>) {
    && a in plat && Ready(plat, a, done)
    && forall i :: 0 <= i < |plat| && Ready(plat, plat[i], done) ==> !Less(plat[i], a)
  }

  /** A greedy prefix after which nothing is ready although something is left. */
  ghost predicate Stuck(plat: seq<Asset>, out: seq<Asset>) {
    && Greedy(plat, out) && |out| < |plat|
    && forall i {:trigger Ready(plat, plat[i], NamesOf(out))} :: 0 <= i < |plat| ==> !Ready(plat, plat[i], NamesOf(out))
  }

  lemma GreedySnoc(plat: seq<Asset>, out: seq<Asset>, a: Asset)
    requires Greedy(plat, out) && TakesLeast(plat, a, NamesOf(out))
    ensures Greedy(plat, out + [a]) && NamesOf(out + [a]) == NamesOf(out) + {NameOf(a)}
  {
    var out' := out + [a];
    forall k | 0 <= k < |out'| ensures TakesLeast(plat, out'[k], NamesOf(out'[..k])) {
      assert out'[..k] == out[..k];
      assert out[..|out|] == out;
    }
    forall n | n in NamesOf(out) + {NameOf(a)} ensures n in NamesOf(out') {
      if n in NamesOf(out) {
        var i :| 0 <= i < |out| && NameOf(out[i]) == n;
        assert NameOf(out'[i]) == n;
      } else {
        assert NameOf(out'[|out|]) == n;
      }
    }
  }

  /** One round: take the least ready asset and lower what depends on it. */
  method Round(plat: seq<Asset>, indeg: map<string, int>, ghost done: set<string>)
    returns (next: Option<Asset>, lowered: map<string, int>)
    requires IndegOk(plat, indeg, done)
    ensures next.None? ==> forall i :: 0 <= i < |plat| ==> !Ready(plat, plat[i], done)
    ensures next.Some? ==> TakesLeast(plat, next.value, done) && IndegOk(plat, lowered, done + {NameOf(next.value)})
  {
    next := PickReady(plat, indeg);
    ReadyIffZero(plat, indeg, done);
    lowered := indeg;
    if next.Some? {
      var name := NameOf(next.value);
      lowered := Lower(plat, indeg[name := -1], name);
      ConsumeName(plat, indeg, lowered, done, name);
    }
  }

  /** How the loop can end. */
  ghost predicate KahnOutcome(plat: seq<Asset>, r: Resolution) {
    match r
    case Resolved(out) => KnownDeps(plat) && Greedy(plat, out) && |out| == |plat|
    case UnknownDep(a, d) => d !in NamesOf(plat) && DependsOn(plat, a, d)
    case Cycle => KnownDeps(plat) && exists out :: Stuck(plat, out)
  }

  method Kahn(plat: seq<Asset>) returns (r: Resolution)
    ensures KahnOutcome(plat, r)
  {
    var indeg, bad := CountDeps(plat);
    if bad.Some? {
      var (i, d) := bad.value;
      assert DependsOn(plat, NameOf(plat[i]), d);
      return UnknownDep(NameOf(plat[i]), d);
    }
    var out: seq<Asset> := [];
    assert NamesOf(out) == {};
    while |out| < |plat|
      invariant |out| <= |plat|
      invariant Greedy(plat, out)
      invariant IndegOk(plat, indeg, NamesOf(out))
    {
      var next, lowered := Round(plat, indeg, NamesOf(out));
      if next.None? {
        assert Stuck(plat, out);
        return Cycle;
      }
      GreedySnoc(plat, out, next.value);
      out := out + [next.value];
      indeg := lowered;
    }
    return Resolved(out);
  }

  // ---- in-degrees ----

  lemma {:induction false} OpenSplits(deps: seq<string>, done: set<string>, d: string)
    requires d !in done
    ensures Open(deps, done + {d}) == Open(deps, done) - Occurs(deps, d)
  {
    if deps != [] {
      OpenSplits(deps[..|deps| - 1], done, d);
    }
  }

  lemma {:induction false} PendingSplits(plat: seq<Asset>, n: string, done: set<string>, d: string)
    requires d !in done
    ensures Pending(plat, n, done + {d}) == Pending(plat, n, done) - Hits(plat, n, d)
  {
    if plat != [] {
      PendingSplits(plat[..|plat| - 1], n, done, d);
      OpenSplits(plat[|plat| - 1].deps, done, d);
    }
  }

  lemma {:induction false} OpenZero(deps: seq<string>, done: set<string>)
    ensures Open(deps, done) == 0 <==> forall d :: d in deps ==> d in done
  {
    if deps != [] {
      var n := |deps| - 1;
      OpenZero(deps[..n], done);
      assert deps == deps[..n] + [deps[n]];
    }
  }

  lemma {:induction false} PendingZero(plat: seq<Asset>, n: string, done: set<string>)
    ensures Pending(plat, n, done) == 0 <==>
            forall i, d :: 0 <= i < |plat| && NameOf(plat[i]) == n && d in plat[i].deps ==> d in done
  {
    if plat != [] {
      var m := |plat| - 1;
      PendingZero(plat[..m], n, done);
      OpenZero(plat[m].deps, done);
      assert forall i :: 0 <= i < m ==> plat[..m][i] == plat[i];
    }
  }

  lemma ReadyIffZero(plat: seq<Asset>, indeg: map<string, int>, done: set<string>)
    requires IndegOk(plat, indeg, done)
    ensures forall a :: a in plat ==> NameOf(a) in indeg && (indeg[NameOf(a)] == 0 <==> Ready(plat, a, done))
  {
    forall a | a in plat ensures NameOf(a) in indeg && (indeg[NameOf(a)] == 0 <==> Ready(plat, a, done)) {
      var i :| 0 <= i < |plat| && plat[i] == a;
      PendingZero(plat, NameOf(a), done);
    }
  }

  lemma ConsumeName(plat: seq<Asset>, indeg: map<string, int>, lowered: map<string, int>, done: set<string>, d: string)
    requires IndegOk(plat, indeg, done) && d in indeg && indeg[d] == 0
    requires lowered.Keys == indeg.Keys
    requires forall n :: n in indeg ==> lowered[n] == indeg[d := -1][n] - Hits(plat, n, d)
    ensures IndegOk(plat, lowered, done + {d})
  {
    forall n | n in lowered
      ensures if n in done + {d} then lowered[n] < 0 else lowered[n] == Pending(plat, n, done + {d})
    {
      PendingSplits(plat, n, done, d);
    }
  }

  // ---- the tiebreak is a strict order ----

  lemma LessIrreflexive(x: Asset)
    ensures !Less(x, x)
  {
    CompareTextZero(NameOf(x), NameOf(x));
  }

  lemma LessTransitive(x: Asset, y: Asset, z: Asset)
    ensures Less(x, y) && Less(y, z) ==> Less(x, z)
  {
    CompareTextOrder();
    var a, b, c := NameOf(x), NameOf(y), NameOf(z);
    if CompareText(a, b) < 0 && CompareText(b, c) < 0 {
      assert CompareText(a, c) <= 0 && CompareText(a, b) == -CompareText(b, a);
      CompareTextZero(a, c);
    }
  }

  lemma LessTotal(x: Asset, y: Asset)
    requires NameOf(x) != NameOf(y)
    ensures Less(x, y) || Less(y, x)
  {
    CompareTextZero(NameOf(x), NameOf(y));
    CompareTextOrder();
    assert CompareText(NameOf(x), NameOf(y)) == -CompareText(NameOf(y), NameOf(x));
  }

  // ---- what the greedy order is ----

  lemma GreedyDistinct(plat: seq<Asset>, out: seq<Asset>)
    requires Greedy(plat, out)
    ensures DistinctNames(out) && DepsFirst(out) && forall k :: 0 <= k < |out| ==> out[k] in plat
  {
    forall i, j | 0 <= i < j < |out| ensures NameOf(out[i]) != NameOf(out[j]) {
      assert TakesLeast(plat, out[j], NamesOf(out[..j]));
      assert out[..j][i] == out[i] && NameOf(out[i]) in NamesOf(out[..j]);
    }
    forall k | 0 <= k < |out| ensures out[k] in plat && forall d :: d in out[k].deps ==> d in NamesOf(out[..k]) {
      assert TakesLeast(plat, out[k], NamesOf(out[..k]));
      var i :| 0 <= i < |plat| && plat[i] == out[k];
    }
  }

  lemma {:induction false} DistinctCount(s: seq<Asset>, a: Asset)
    requires DistinctNames(s)
    ensures multiset(s)[a] <= 1
  {
    if s != [] {
      var n := |s| - 1;
      assert s == s[..n] + [s[n]];
      DistinctCount(s[..n], a);
      forall i | 0 <= i < n ensures s[..n][i] != s[n] {
        assert NameOf(s[i]) != NameOf(s[n]);
      }
      assert s[n] !in s[..n];
    }
  }

  lemma EqualSize(a: multiset<Asset>, b: multiset<Asset>)
    requires a <= b && |a| == |b|
    ensures a == b
  {
    assert b == a + (b - a);
  }

  /** Distinct assets of plat, as many as plat has, are plat rearranged. */
  lemma SamePopulation(plat: seq<Asset>, out: seq<Asset>)
    requires DistinctNames(out) && |out| == |plat| && forall k :: 0 <= k < |out| ==> out[k] in plat
    ensures multiset(out) == multiset(plat) && DistinctNames(plat)
  {
    forall a | a in multiset(out) ensures multiset(out)[a] <= multiset(plat)[a] {
      DistinctCount(out, a);
      assert a in out;
    }
    assert multiset(out) <= multiset(plat);
    EqualSize(multiset(out), multiset(plat));
    forall i, j | 0 <= i < j < |plat| ensures NameOf(plat[i]) != NameOf(plat[j]) {
      PairInMultiset(plat, out, i, j);
    }
  }

  lemma CountTwo(s: seq<Asset>, i: nat, j: nat)
    requires i < j < |s| && s[i] == s[j]
    ensures multiset(s)[s[i]] >= 2
  {
    assert s == s[..j] + s[j..];
    assert s[..j][i] == s[i] && s[j..][0] == s[j];
    assert multiset(s)[s[i]] == multiset(s[..j])[s[i]] + multiset(s[j..])[s[i]];
  }

  lemma PairInMultiset(plat: seq<Asset>, out: seq<Asset>, i: nat, j: nat)
    requires DistinctNames(out) && multiset(out) == multiset(plat) && i < j < |plat|
    ensures NameOf(plat[i]) != NameOf(plat[j])
  {
    DistinctCount(out, plat[i]);
    if plat[i] == plat[j] {
      CountTwo(plat, i, j);
    }
    assert plat[i] in multiset(out) && plat[j] in multiset(out);
    var k :| 0 <= k < |out| && out[k] == plat[i];
    var l :| 0 <= l < |out| && out[l] == plat[j];
    assert k != l;
  }

  /** With distinct names, whatever may come next in some install order is ready. */
  lemma NextIsReady(plat: seq<Asset>, s: seq<Asset>, k: nat)
    requires DistinctNames(plat) && InstallOrder(plat, s) && k < |s|
    ensures s[k] in plat && Ready(plat, s[k], NamesOf(s[..k]))
  {
    assert s[k] in multiset(plat);
    DistinctFromMultiset(plat, s);
    forall i, d | 0 <= i < |plat| && NameOf(plat[i]) == NameOf(s[k]) && d in plat[i].deps ensures d in NamesOf(s[..k]) {
      var j :| 0 <= j < |plat| && plat[j] == s[k];
      assert i == j;
    }
    forall i | 0 <= i < k ensures NameOf(s[..k][i]) != NameOf(s[k]) {
    }
  }

  lemma DistinctFromMultiset(plat: seq<Asset>, s: seq<Asset>)
    requires DistinctNames(plat) && multiset(s) == multiset(plat)
    ensures DistinctNames(s)
  {
    forall i, j | 0 <= i < j < |s| ensures NameOf(s[i]) != NameOf(s[j]) {
      PairInMultiset(s, plat, i, j);
    }
  }

  /** A full greedy run is an install order and precedes every other one. */
  lemma GreedyIsLeast(plat: seq<Asset>, out: seq<Asset>, other: seq<Asset>)
    requires Greedy(plat, out) && |out| == |plat| && InstallOrder(plat, other)
    ensures DistinctNames(plat) && InstallOrder(plat, out)
    ensures out == other || Precedes(out, other)
  {
    GreedyDistinct(plat, out);
    SamePopulation(plat, out);
    assert |other| == |multiset(other)| == |multiset(plat)| == |plat|;
    var i := FirstDifference(out, other);
    if i < |out| {
      NextIsReady(plat, other, i);
      DistinctFromMultiset(plat, other);
      assert TakesLeast(plat, out[i], NamesOf(out[..i]));
      var k :| 0 <= k < |plat| && plat[k] == other[i];
      assert !Less(other[i], out[i]);
      var j :| 0 <= j < |plat| && plat[j] == out[i];
      assert j != k && NameOf(plat[j]) != NameOf(plat[k]);
      LessTotal(out[i], other[i]);
    }
  }

  lemma FirstDifference(s: seq<Asset>, t: seq<Asset>) returns (i: nat)
    requires |s| == |t|
    ensures i <= |s| && s[..i] == t[..i] && (i < |s| ==> s[i] != t[i])
    ensures i == |s| ==> s == t
  {
    i := 0;
    while i < |s| && s[i] == t[i]
      invariant i <= |s| && s[..i] == t[..i]
    {
      assert s[..i + 1] == s[..i] + [s[i]] && t[..i + 1] == t[..i] + [t[i]];
      i := i + 1;
    }
    assert s[..|s|] == s && t[..|t|] == t;
  }

  lemma DifferAfter(s: seq<Asset>, t: seq<Asset>, i: nat, j: nat)
    requires i < |s| && i < |t| && s[i] != t[i]
    requires j <= |s| && j <= |t| && s[..j] == t[..j]
    ensures j <= i
  {
    assert forall k :: 0 <= k < j ==> s[..j][k] == s[k] && t[..j][k] == t[k];
  }

  lemma PrecedesIsStrict(s: seq<Asset>, t: seq<Asset>)
    requires Precedes(s, t)
    ensures !Precedes(t, s)
  {
    var i :| 0 <= i < |s| && i < |t| && s[..i] == t[..i] && Less(s[i], t[i]);
    LessIrreflexive(s[i]);
    forall j | 0 <= j < |t| && j < |s| && t[..j] == s[..j] ensures !Less(t[j], s[j]) {
      DifferAfter(s, t, i, j);
      LessIrreflexive(s[j]);
      if j < i {
        assert s[..i][j] == t[..i][j];
      } else {
        LessTransitive(s[i], t[i], s[i]);
      }
    }
  }

  lemma {:induction false} PlatformMultiset(assets: seq<Asset>, os: string, arch: string, a: Asset)
    ensures multiset(OnPlatform(assets, os, arch))[a] == if a.os == os && a.arch == arch then multiset(assets)[a] else 0
  {
    if assets != [] {
      var n := |assets| - 1;
      assert assets == assets[..n] + [assets[n]];
      PlatformMultiset(assets[..n], os, arch, a);
    }
  }

  /** Listing the same assets in another order gives each platform the same population. */
  lemma PlatformOrderIndependent(assets: seq<Asset>, assets': seq<Asset>, os: string, arch: string)
    requires multiset(assets) == multiset(assets')
    ensures multiset(OnPlatform(assets, os, arch)) == multiset(OnPlatform(assets', os, arch))
  {
    forall a ensures multiset(OnPlatform(assets, os, arch))[a] == multiset(OnPlatform(assets', os, arch))[a] {
      PlatformMultiset(assets, os, arch, a);
      PlatformMultiset(assets', os, arch, a);
    }
  }

  // ---- when it fails ----

  /** In an install order a dependency sits strictly before its dependent, so no chain returns. */
  lemma {:induction false} ChainDescends(plat: seq<Asset>, s: seq<Asset>, p: seq<string>, at: nat)
    requires DistinctNames(plat) && InstallOrder(plat, s) && |p| >= 1
    requires forall i :: 0 <= i < |p| - 1 ==> DependsOn(plat, p[i], p[i + 1])
    requires at < |s| && NameOf(s[at]) == p[0]
    ensures exists b :: 0 <= b <= at && NameOf(s[b]) == p[|p| - 1] && (|p| > 1 ==> b < at)
    decreases |p|
  {
    if |p| > 1 {
      assert DependsOn(plat, p[0], p[1]);
      var i :| 0 <= i < |plat| && NameOf(plat[i]) == p[0] && p[1] in plat[i].deps;
      DistinctFromMultiset(plat, s);
      assert s[at] in multiset(plat) && plat[i] in multiset(s);
      var j :| 0 <= j < |s| && s[j] == plat[i];
      assert j == at;
      var c :| 0 <= c < |s[..at]| && NameOf(s[..at][c]) == p[1];
      forall k | 0 <= k < |p[1..]| - 1 ensures DependsOn(plat, p[1..][k], p[1..][k + 1]) {
        assert DependsOn(plat, p[k + 1], p[k + 2]);
      }
      ChainDescends(plat, s, p[1..], c);
      var b :| 0 <= b <= c && NameOf(s[b]) == p[1..][|p[1..]| - 1];
    }
  }

  lemma OrderHasNoCycle(plat: seq<Asset>, s: seq<Asset>, p: seq<string>)
    requires DistinctNames(plat) && InstallOrder(plat, s)
    ensures !IsCycle(plat, p)
  {
    if IsCycle(plat, p) {
      assert DependsOn(plat, p[0], p[1]);
      var i :| 0 <= i < |plat| && NameOf(plat[i]) == p[0];
      assert plat[i] in multiset(s);
      var at :| 0 <= at < |s| && s[at] == plat[i];
      ChainDescends(plat, s, p, at);
      var b :| 0 <= b < at && NameOf(s[b]) == p[|p| - 1];
      DistinctFromMultiset(plat, s);
    }
  }

  /** An unconsumed asset that is not ready depends on some other unconsumed asset. */
  lemma BlockedHasDep(plat: seq<Asset>, done: set<string>, i: nat)
    requires KnownDeps(plat) && i < |plat| && NameOf(plat[i]) !in done && !Ready(plat, plat[i], done)
    ensures exists d :: d in NamesOf(plat) - done && DependsOn(plat, NameOf(plat[i]), d)
  {
    var j, d :| 0 <= j < |plat| && NameOf(plat[j]) == NameOf(plat[i]) && d in plat[j].deps && d !in done;
    assert DependsOn(plat, NameOf(plat[i]), d) && d in NamesOf(plat) - done;
  }

  function Elements(p: seq<string>): set<string> {
    set i | 0 <= i < |p| :: p[i]
  }

  lemma {:induction false} DistinctSize(p: seq<string>)
    requires forall i, j :: 0 <= i < j < |p| ==> p[i] != p[j]
    ensures |Elements(p)| == |p|
  {
    if p != [] {
      var n := |p| - 1;
      DistinctSize(p[..n]);
      assert Elements(p) == Elements(p[..n]) + {p[n]};
      forall i | 0 <= i < n ensures p[..n][i] != p[n] {
        assert p[i] != p[n];
      }
      assert p[n] !in Elements(p[..n]);
    }
  }

  /** A walk in a finite set that always has a next step must come back to a place it has been. */
  lemma WalkReturns(places: set<string>, next: map<string, string>, start: string) returns (p: seq<string>)
    requires start in places && next.Keys == places
    requires forall n {:trigger next[n]} :: n in next ==> next[n] in places
    ensures |p| >= 2 && p[0] == p[|p| - 1]
    ensures forall i :: 0 <= i < |p| - 1 ==> p[i] in next && next[p[i]] == p[i + 1]
  {
    p := [start];
    while true
      invariant |p| >= 1
      invariant forall i, j :: 0 <= i < j < |p| ==> p[i] != p[j]
      invariant forall i :: 0 <= i < |p| ==> p[i] in places
      invariant forall i :: 0 <= i < |p| - 1 ==> next[p[i]] == p[i + 1]
      decreases |places| - |p|
    {
      var d := next[p[|p| - 1]];
      if i :| 0 <= i < |p| && p[i] == d {
        p := p[i..] + [d];
        return;
      }
      p := p + [d];
      DistinctSize(p);
      SubsetSize(Elements(p), places);
    }
  }

  lemma SubsetSize(a: set<string>, b: set<string>)
    requires a <= b
    ensures |a| <= |b|
  {
    assert b == a + (b - a);
  }

  /** Every name in the set depends on a name in the set. */
  ghost predicate SelfSupplied(plat: seq<Asset>, left: set<string>) {
    forall n {:trigger HasNext(plat, left, n)} :: n in left ==> HasNext(plat, left, n)
  }

  ghost predicate HasNext(plat: seq<Asset>, left: set<string>, n: string) {
    exists d :: d in left && DependsOn(plat, n, d)
  }

  ghost function NextOf(plat: seq<Asset>, left: set<string>, n: string): (d: string)
    requires HasNext(plat, left, n)
    ensures d in left && DependsOn(plat, n, d)
  {
    var d :| d in left && DependsOn(plat, n, d);
    d
  }

  lemma LeftDepend(plat: seq<Asset>, out: seq<Asset>)
    requires KnownDeps(plat) && Stuck(plat, out)
    ensures SelfSupplied(plat, NamesOf(plat) - NamesOf(out))
  {
    var left := NamesOf(plat) - NamesOf(out);
    forall n | n in left ensures HasNext(plat, left, n) {
      OneDepends(plat, out, n);
    }
  }

  lemma OneDepends(plat: seq<Asset>, out: seq<Asset>, n: string)
    requires KnownDeps(plat) && Stuck(plat, out) && n in NamesOf(plat) - NamesOf(out)
    ensures HasNext(plat, NamesOf(plat) - NamesOf(out), n)
  {
    var i :| 0 <= i < |plat| && NameOf(plat[i]) == n;
    assert !Ready(plat, plat[i], NamesOf(out));
    BlockedHasDep(plat, NamesOf(out), i);
  }

  lemma CycleAmong(plat: seq<Asset>, left: set<string>, start: string)
    requires SelfSupplied(plat, left) && start in left
    ensures exists p :: IsCycle(plat, p)
  {
    var next := map n | n in left :: NextOf(plat, left, n);
    var p := WalkReturns(left, next, start);
    forall i | 0 <= i < |p| - 1 ensures DependsOn(plat, p[i], p[i + 1]) {
      assert next[p[i]] == p[i + 1];
    }
    assert IsCycle(plat, p);
  }

  /** With distinct names a stuck run means a real dependency cycle. */
  lemma StuckMeansCycle(plat: seq<Asset>, out: seq<Asset>)
    requires KnownDeps(plat) && Stuck(plat, out) && DistinctNames(plat)
    ensures exists p :: IsCycle(plat, p)
  {
    LeftDepend(plat, out);
    SomethingLeft(plat, out);
    var start :| start in NamesOf(plat) && start !in NamesOf(out);
    CycleAmong(plat, NamesOf(plat) - NamesOf(out), start);
  }

  lemma SomethingLeft(plat: seq<Asset>, out: seq<Asset>)
    requires Greedy(plat, out) && DistinctNames(plat) && |out| < |plat|
    ensures !(NamesOf(plat) <= NamesOf(out))
  {
    GreedyDistinct(plat, out);
    if NamesOf(plat) <= NamesOf(out) {
      AllNamesTaken(plat, out);
    }
  }

  function NameSeq(s: seq<Asset>): seq<string> {
    seq(|s|, i requires 0 <= i < |s| => NameOf(s[i]))
  }

  lemma AllNamesTaken(plat: seq<Asset>, out: seq<Asset>)
    requires DistinctNames(plat) && DistinctNames(out)
    requires NamesOf(plat) <= NamesOf(out)
    ensures |plat| <= |out|
  {
    DistinctSize(NameSeq(plat));
    DistinctSize(NameSeq(out));
    assert Elements(NameSeq(plat)) <= Elements(NameSeq(out)) by {
      forall i | 0 <= i < |plat| ensures NameOf(plat[i]) in Elements(NameSeq(out)) {
        assert NameOf(plat[i]) in NamesOf(plat);
        var j :| 0 <= j < |out| && NameOf(out[j]) == NameOf(plat[i]);
        assert NameSeq(out)[j] == NameOf(plat[i]);
      }
    }
    SubsetSize(Elements(NameSeq(plat)), Elements(NameSeq(out)));
  }

  /** plat can be installed at all. */
  ghost predicate Resolvable(plat: seq<Asset>) {
    DistinctNames(plat) && KnownDeps(plat) && !exists p :: IsCycle(plat, p)
  }

  /** s is an install order of plat and comes before every other one. */
  ghost predicate LeastOrder(plat: seq<Asset>, s: seq<Asset>) {
    InstallOrder(plat, s) && forall t :: InstallOrder(plat, t) ==> t == s || Precedes(s, t)
  }

  /**
   It succeeds exactly when names are distinct, every dependency is known and no dependency cycle
   exists, and then returns the least install order; an unknown dependency is what it reports first.
   */
  method ResolveAssets(assets: seq<Asset>, os: string, arch: string) returns (r: Resolution)
    ensures var plat := OnPlatform(assets, os, arch);
            && (r.Resolved? <==> Resolvable(plat))
            && (r.Resolved? ==> LeastOrder(plat, r.assets))
            && (r.UnknownDep? <==> !KnownDeps(plat))
            && (r.UnknownDep? ==> r.dep !in NamesOf(plat) && DependsOn(plat, r.asset, r.dep))
  {
    var plat := Filter(assets, os, arch);
    r := Kahn(plat);
    OutcomeMeans(plat, r);
  }

  lemma OutcomeMeans(plat: seq<Asset>, r: Resolution)
    requires KahnOutcome(plat, r)
    ensures r.Resolved? <==> Resolvable(plat)
    ensures r.Resolved? ==> LeastOrder(plat, r.assets)
    ensures r.UnknownDep? <==> !KnownDeps(plat)
  {
    match r {
      case Resolved(out) =>
        GreedyDistinct(plat, out);
        SamePopulation(plat, out);
        forall p ensures !IsCycle(plat, p) {
          OrderHasNoCycle(plat, out, p);
        }
        forall s | InstallOrder(plat, s) ensures s == out || Precedes(out, s) {
          GreedyIsLeast(plat, out, s);
        }
      case UnknownDep(a, d) =>
        var i :| 0 <= i < |plat| && NameOf(plat[i]) == a && d in plat[i].deps;
        assert !DepsIn(plat[i], NamesOf(plat));
      case Cycle =>
        var out :| Stuck(plat, out);
        if DistinctNames(plat) {
          StuckMeansCycle(plat, out);
        }
    }
  }

  // ---- independence of the listing order ----

  lemma SameMembers(plat: seq<Asset>, plat': seq<Asset>, i: nat) returns (j: nat)
    requires multiset(plat) == multiset(plat') && i < |plat|
    ensures j < |plat'| && plat'[j] == plat[i]
  {
    assert plat[i] in multiset(plat');
    j :| 0 <= j < |plat'| && plat'[j] == plat[i];
  }

  lemma KnownDepsPermuted(plat: seq<Asset>, plat': seq<Asset>)
    requires multiset(plat) == multiset(plat') && KnownDeps(plat)
    ensures KnownDeps(plat')
  {
    forall i | 0 <= i < |plat'| ensures DepsIn(plat'[i], NamesOf(plat')) {
      var j := SameMembers(plat', plat, i);
      forall d | d in plat'[i].deps ensures d in NamesOf(plat') {
        assert DepsIn(plat[j], NamesOf(plat)) && d in NamesOf(plat);
        var k :| 0 <= k < |plat| && NameOf(plat[k]) == d;
        var l := SameMembers(plat, plat', k);
      }
    }
  }

  lemma CyclePermuted(plat: seq<Asset>, plat': seq<Asset>, p: seq<string>)
    requires multiset(plat) == multiset(plat') && IsCycle(plat, p)
    ensures IsCycle(plat', p)
  {
    forall i | 0 <= i < |p| - 1 ensures DependsOn(plat', p[i], p[i + 1]) {
      assert DependsOn(plat, p[i], p[i + 1]);
      var k :| 0 <= k < |plat| && NameOf(plat[k]) == p[i] && p[i + 1] in plat[k].deps;
      var l := SameMembers(plat, plat', k);
    }
  }

  lemma ResolvablePermuted(plat: seq<Asset>, plat': seq<Asset>)
    requires multiset(plat) == multiset(plat') && Resolvable(plat)
    ensures Resolvable(plat')
  {
    DistinctFromMultiset(plat, plat');
    KnownDepsPermuted(plat, plat');
    forall p ensures !IsCycle(plat', p) {
      if IsCycle(plat', p) {
        CyclePermuted(plat', plat, p);
      }
    }
  }

  /** Listing the same assets in another order changes neither success nor the result. */
  lemma OrderIndependent(assets: seq<Asset>, assets': seq<Asset>, os: string, arch: string)
    requires multiset(assets) == multiset(assets')
    ensures var plat, plat' := OnPlatform(assets, os, arch), OnPlatform(assets', os, arch);
            && (Resolvable(plat) <==> Resolvable(plat'))
            && forall s, s' :: LeastOrder(plat, s) && LeastOrder(plat', s') ==> s == s'
  {
    var plat, plat' := OnPlatform(assets, os, arch), OnPlatform(assets', os, arch);
    PlatformOrderIndependent(assets, assets', os, arch);
    if Resolvable(plat) {
      ResolvablePermuted(plat, plat');
    }
    if Resolvable(plat') {
      ResolvablePermuted(plat', plat);
    }
    forall s, s' | LeastOrder(plat, s) && LeastOrder(plat', s') ensures s == s' {
      assert InstallOrder(plat, s') && InstallOrder(plat', s);
      if s != s' {
        PrecedesIsStrict(s, s');
      }
    }
  }
}
