/**
 What an install order means for a reader of the configuration: by asset names, orders and byte order
 alone.
 */
module AssetOrder {
  import opened Text
  import opened Assets

  /** An asset with an explicit name is called by it, wherever it is put. */
  lemma ExplicitName(a: Asset)
    requires a.name != ""
    ensures NameOf(a) == a.name
  {
  }

  predicate AllNamed(plat: seq<Asset>) {
    forall i :: 0 <= i < |plat| ==> plat[i].name != ""
  }

  /** The asset depends on a name that some asset of the listing carries. */
  predicate Listed(plat: seq<Asset>, d: string) {
    exists j :: 0 <= j < |plat| && plat[j].name == d
  }

  predicate Links(plat: seq<Asset>, n: string, d: string) {
    exists j :: 0 <= j < |plat| && plat[j].name == n && d in plat[j].deps
  }

  predicate Loop(plat: seq<Asset>, p: seq<string>) {
    |p| >= 2 && p[0] == p[|p| - 1] && forall i :: 0 <= i < |p| - 1 ==> Links(plat, p[i], p[i + 1])
  }

  /** Names are distinct, dependencies are listed, and no chain of them returns to its start. */
  ghost predicate CanInstall(plat: seq<Asset>) {
    && (forall i, j :: 0 <= i < j < |plat| ==> plat[i].name != plat[j].name)
    && (forall i, d :: 0 <= i < |plat| && d in plat[i].deps ==> Listed(plat, d))
    && !exists p :: Loop(plat, p)
  }

  lemma NamedLinks(plat: seq<Asset>, n: string, d: string)
    requires AllNamed(plat)
    ensures DependsOn(plat, n, d) <==> Links(plat, n, d)
    ensures d in NamesOf(plat) <==> Listed(plat, d)
  {
    forall j | 0 <= j < |plat| ensures NameOf(plat[j]) == plat[j].name {
      ExplicitName(plat[j]);
    }
  }

  lemma NamedLoops(plat: seq<Asset>, p: seq<string>)
    requires AllNamed(plat)
    ensures IsCycle(plat, p) <==> Loop(plat, p)
  {
    forall i | 0 <= i < |p| - 1 ensures DependsOn(plat, p[i], p[i + 1]) <==> Links(plat, p[i], p[i + 1]) {
      NamedLinks(plat, p[i], p[i + 1]);
    }
  }

  lemma NamedDeps(plat: seq<Asset>)
    requires AllNamed(plat)
    ensures KnownDeps(plat) <==> forall i, d :: 0 <= i < |plat| && d in plat[i].deps ==> Listed(plat, d)
  {
    forall d ensures d in NamesOf(plat) <==> Listed(plat, d) {
      NamedLinks(plat, "", d);
    }
    if forall i, d :: 0 <= i < |plat| && d in plat[i].deps ==> Listed(plat, d) {
      forall i | 0 <= i < |plat| ensures DepsIn(plat[i], NamesOf(plat)) {
      }
    }
    if KnownDeps(plat) {
      forall i, d | 0 <= i < |plat| && d in plat[i].deps ensures Listed(plat, d) {
        assert DepsIn(plat[i], NamesOf(plat));
      }
    }
  }

  /** A listing of named assets can be installed exactly if its names, dependencies and their chains allow it. */
  lemma ResolvableByNames(plat: seq<Asset>)
    requires AllNamed(plat)
    ensures Resolvable(plat) <==> CanInstall(plat)
  {
    forall j | 0 <= j < |plat| ensures NameOf(plat[j]) == plat[j].name {
      ExplicitName(plat[j]);
    }
    NamedDeps(plat);
    forall p ensures IsCycle(plat, p) <==> Loop(plat, p) {
      NamedLoops(plat, p);
    }
  }

  /** The same assets, put elsewhere. */
  predicate SameButPaths(plat: seq<Asset>, plat': seq<Asset>) {
    |plat| == |plat'| && forall i :: 0 <= i < |plat| ==> plat'[i] == plat[i].(execPath := plat'[i].execPath)
  }

  /** Where named assets are put does not change whether they can be installed. */
  lemma PathsDoNotMatter(plat: seq<Asset>, plat': seq<Asset>)
    requires AllNamed(plat) && SameButPaths(plat, plat')
    ensures Resolvable(plat) <==> Resolvable(plat')
  {
    ResolvableByNames(plat);
    ResolvableByNames(plat');
    forall n, d ensures Links(plat, n, d) <==> Links(plat', n, d) {
    }
    forall d ensures Listed(plat, d) <==> Listed(plat', d) {
    }
    forall p ensures Loop(plat, p) <==> Loop(plat', p) {
    }
  }

  /** On named assets every dependency is installed earlier. */
  lemma DepsComeFirst(plat: seq<Asset>, out: seq<Asset>, i: nat, d: string)
    requires AllNamed(plat) && InstallOrder(plat, out) && i < |out| && d in out[i].deps
    ensures exists j :: 0 <= j < i && out[j].name == d
  {
    assert d in NamesOf(out[..i]);
    var j :| 0 <= j < i && NameOf(out[..i][j]) == d;
    assert out[j] in multiset(plat);
    ExplicitName(out[j]);
  }

  // ---- the tiebreak between neighbours ----

  function Swapped(out: seq<Asset>, i: nat): seq<Asset>
    requires i + 1 < |out|
  {
    out[i := out[i + 1]][i + 1 := out[i]]
  }

  lemma SwapKeeps(out: seq<Asset>, i: nat)
    requires i + 1 < |out|
    ensures multiset(Swapped(out, i)) == multiset(out)
    ensures forall j :: 0 <= j <= |out| && j != i + 1 ==> NamesOf(Swapped(out, i)[..j]) == NamesOf(out[..j])
  {
    var t := Swapped(out, i);
    forall j | 0 <= j <= |out| && j != i + 1 ensures NamesOf(t[..j]) == NamesOf(out[..j]) {
      if j <= i {
        assert t[..j] == out[..j];
      } else {
        forall n ensures n in NamesOf(t[..j]) <==> n in NamesOf(out[..j]) {
          SameNames(out, i, j, n);
        }
      }
    }
  }

  lemma SameNames(out: seq<Asset>, i: nat, j: nat, n: string)
    requires i + 1 < j <= |out|
    ensures n in NamesOf(Swapped(out, i)[..j]) <==> n in NamesOf(out[..j])
  {
    var t := Swapped(out, i);
    if n in NamesOf(out[..j]) {
      var k :| 0 <= k < j && NameOf(out[..j][k]) == n;
      var l := if k == i then i + 1 else if k == i + 1 then i else k;
      assert t[..j][l] == out[k];
    }
    if n in NamesOf(t[..j]) {
      var k :| 0 <= k < j && NameOf(t[..j][k]) == n;
      var l := if k == i then i + 1 else if k == i + 1 then i else k;
      assert out[..j][l] == t[k];
    }
  }

  /** Neighbours of which the later does not need the earlier can trade places. */
  lemma SwapInstalls(plat: seq<Asset>, out: seq<Asset>, i: nat)
    requires InstallOrder(plat, out) && i + 1 < |out| && NameOf(out[i]) !in out[i + 1].deps
    ensures InstallOrder(plat, Swapped(out, i))
  {
    var t := Swapped(out, i);
    SwapKeeps(out, i);
    forall j, d | 0 <= j < |t| && d in t[j].deps ensures d in NamesOf(t[..j]) {
      if j == i {
        assert d in NamesOf(out[..i + 1]);
        var k :| 0 <= k < i + 1 && NameOf(out[..i + 1][k]) == d;
        assert out[..i][k] == out[k];
      } else if j == i + 1 {
        assert d in NamesOf(out[..i]) && t[..i] == out[..i];
        var k :| 0 <= k < i && NameOf(t[..i][k]) == d;
        assert t[..i + 1][k] == t[k];
      } else {
        assert t[j] == out[j] && d in NamesOf(out[..j]);
      }
    }
  }

  /** So in the least order the earlier of such neighbours is the lesser. */
  lemma NeighboursInOrder(plat: seq<Asset>, out: seq<Asset>, i: nat)
    requires DistinctNames(plat) && LeastOrder(plat, out) && i + 1 < |out| && NameOf(out[i]) !in out[i + 1].deps
    ensures Less(out[i], out[i + 1])
  {
    var t := Swapped(out, i);
    SwapInstalls(plat, out, i);
    DistinctFromMultiset(plat, out);
    assert out[i] != out[i + 1];
    assert t != out;
    var p :| 0 <= p < |out| && p < |t| && out[..p] == t[..p] && Less(out[p], t[p]);
    DifferAfter(out, t, i, p);
    LessIrreflexive(out[p]);
  }

  /**
   Neighbours of a resolved listing of named assets: the later one needs the earlier, or has the
   greater order, or on equal order the name that comes later in byte order.
   */
  lemma Tiebreak(plat: seq<Asset>, out: seq<Asset>, i: nat)
    requires AllNamed(plat) && Resolvable(plat) && LeastOrder(plat, out) && i + 1 < |out|
    ensures || out[i].name in out[i + 1].deps
            || out[i].order < out[i + 1].order
            || (out[i].order == out[i + 1].order && Before(out[i].name, out[i + 1].name))
  {
    assert out[i] in multiset(plat) && out[i + 1] in multiset(plat);
    ExplicitName(out[i]);
    ExplicitName(out[i + 1]);
    if out[i].name !in out[i + 1].deps {
      NeighboursInOrder(plat, out, i);
      CompareTextMeans(out[i].name, out[i + 1].name);
    }
  }

  /** A resolved listing of named assets, said by names and orders alone. */
  lemma InstalledByNames(plat: seq<Asset>, out: seq<Asset>)
    requires AllNamed(plat) && Resolvable(plat) && LeastOrder(plat, out)
    ensures multiset(out) == multiset(plat)
    ensures forall i, d :: 0 <= i < |out| && d in out[i].deps ==> exists j :: 0 <= j < i && out[j].name == d
    ensures forall i: nat :: i + 1 < |out| ==>
              || out[i].name in out[i + 1].deps
              || out[i].order < out[i + 1].order
              || (out[i].order == out[i + 1].order && Before(out[i].name, out[i + 1].name))
  {
    forall i, d | 0 <= i < |out| && d in out[i].deps ensures exists j :: 0 <= j < i && out[j].name == d {
      DepsComeFirst(plat, out, i, d);
    }
    forall i: nat | i + 1 < |out|
      ensures || out[i].name in out[i + 1].deps
              || out[i].order < out[i + 1].order
              || (out[i].order == out[i + 1].order && Before(out[i].name, out[i + 1].name))
    {
      Tiebreak(plat, out, i);
    }
  }
}
