/**
 Route templates: matching a request's segments against the allow entries, and reading its path
 params off the templates that match.
 */
module Routes {
  import opened Text

  predicate IsTemplate(p: string) {
    |p| >= 2 && p[0] == '{' && p[|p| - 1] == '}'
  }

  /** Same length; a {name} segment takes any non-empty segment, every other one is literal. */
  predicate SegmentsMatch(pat: seq<string>, segs: seq<string>) {
    && |pat| == |segs|
    && forall i :: 0 <= i < |pat| ==> if IsTemplate(pat[i]) then segs[i] != "" else pat[i] == segs[i]
  }

  method MatchSegments(pat: seq<string>, segs: seq<string>) returns (ok: bool)
    ensures ok == SegmentsMatch(pat, segs)
  {
    if |pat| != |segs| {
      return false;
    }
    for i := 0 to |pat|
      invariant forall j :: 0 <= j < i ==> if IsTemplate(pat[j]) then segs[j] != "" else pat[j] == segs[j]
    {
      var p := pat[i];
      if |p| >= 2 && p[0] == '{' && p[|p| - 1] == '}' {
        if segs[i] == "" {
          return false;
        }
      } else if p != segs[i] {
        return false;
      }
    }
    return true;
  }

  predicate Names(p: string) {
    |p| > 2 && IsTemplate(p)
  }

  /** The params one matching template binds; a repeated name keeps its last segment. */
  function BindOne(pat: seq<string>, segs: seq<string>, out: map<string, string>): map<string, string>
    requires |pat| == |segs|
  {
    if pat == [] then out
    else BindOne(pat[1..], segs[1..], if Names(pat[0]) then out[pat[0][1..|pat[0]| - 1] := segs[0]] else out)
  }

  /** All matching templates, in order; a later binding of the same name replaces an earlier one. */
  function Bind(patterns: seq<seq<string>>, segs: seq<string>, out: map<string, string>): map<string, string> {
    if patterns == [] then out
    else Bind(patterns[1..], segs,
              if SegmentsMatch(patterns[0], segs) then BindOne(patterns[0], segs, out) else out)
  }

  method PathParams(patterns: seq<seq<string>>, segs: seq<string>) returns (out: map<string, string>)
    ensures out == Bind(patterns, segs, map[])
  {
    out := map[];
    for n := 0 to |patterns|
      invariant Bind(patterns, segs, map[]) == Bind(patterns[n..], segs, out)
    {
      var pat := patterns[n];
      assert patterns[n..][1..] == patterns[n + 1..];
      var matches := MatchSegments(pat, segs);
      if matches {
        ghost var start := out;
        for i := 0 to |pat|
          invariant BindOne(pat, segs, start) == BindOne(pat[i..], segs[i..], out)
        {
          assert pat[i..][1..] == pat[i + 1..] && segs[i..][1..] == segs[i + 1..];
          var p := pat[i];
          if |p| > 2 && p[0] == '{' && p[|p| - 1] == '}' {
            out := out[p[1..|p| - 1] := segs[i]];
          }
        }
      }
    }
  }

  /** Some matching template binds name to val. */
  predicate Binds(patterns: seq<seq<string>>, segs: seq<string>, name: string, val: string) {
    exists j :: 0 <= j < |patterns| && BindsHere(patterns[j], segs, name, val)
  }

  predicate BindsHere(pat: seq<string>, segs: seq<string>, name: string, val: string) {
    SegmentsMatch(pat, segs) && BindsSegment(pat, segs, name, val)
  }

  predicate BindsSegment(pat: seq<string>, segs: seq<string>, name: string, val: string)
    requires |pat| == |segs|
  {
    exists i :: 0 <= i < |pat| && Names(pat[i]) && pat[i][1..|pat[i]| - 1] == name && segs[i] == val
  }

  lemma {:induction false} BindOneBinds(pat: seq<string>, segs: seq<string>, out: map<string, string>, name: string)
    requires |pat| == |segs|
    ensures name in BindOne(pat, segs, out) <==> name in out || exists val :: BindsSegment(pat, segs, name, val)
    ensures name in BindOne(pat, segs, out) ==>
              var val := BindOne(pat, segs, out)[name];
              BindsSegment(pat, segs, name, val) || (name in out && val == out[name])
    decreases pat
  {
    if pat != [] {
      var out' := if Names(pat[0]) then out[pat[0][1..|pat[0]| - 1] := segs[0]] else out;
      BindOneBinds(pat[1..], segs[1..], out', name);
      forall val ensures BindsSegment(pat, segs, name, val) <==>
                         BindsSegment(pat[1..], segs[1..], name, val)
                         || (Names(pat[0]) && pat[0][1..|pat[0]| - 1] == name && segs[0] == val)
      {
        assert forall i :: 0 < i < |pat| ==> pat[i] == pat[1..][i - 1] && segs[i] == segs[1..][i - 1];
        if i :| 0 <= i < |pat[1..]| && Names(pat[1..][i])
                && pat[1..][i][1..|pat[1..][i]| - 1] == name && segs[1..][i] == val {
          assert pat[i + 1] == pat[1..][i] && segs[i + 1] == segs[1..][i];
        }
      }
      if Names(pat[0]) && pat[0][1..|pat[0]| - 1] == name {
        assert BindsSegment(pat, segs, name, segs[0]);
      }
    }
  }

  lemma {:induction false} BindBinds(patterns: seq<seq<string>>, segs: seq<string>, out: map<string, string>,
                                     name: string)
    ensures name in Bind(patterns, segs, out) <==> name in out || exists val :: Binds(patterns, segs, name, val)
    ensures name in Bind(patterns, segs, out) ==>
              var val := Bind(patterns, segs, out)[name];
              Binds(patterns, segs, name, val) || (name in out && val == out[name])
    decreases patterns
  {
    if patterns != [] {
      var pat := patterns[0];
      var out' := if SegmentsMatch(pat, segs) then BindOne(pat, segs, out) else out;
      if SegmentsMatch(pat, segs) {
        BindOneBinds(pat, segs, out, name);
      }
      BindBinds(patterns[1..], segs, out', name);
      forall val ensures Binds(patterns, segs, name, val) <==>
                         BindsHere(pat, segs, name, val) || Binds(patterns[1..], segs, name, val)
      {
        assert forall j :: 0 < j < |patterns| ==> patterns[j] == patterns[1..][j - 1];
        if j :| 0 <= j < |patterns[1..]| && BindsHere(patterns[1..][j], segs, name, val) {
          assert patterns[j + 1] == patterns[1..][j];
        }
      }
    }
  }

  /** Every binding reaches the check exactly when the matching templates never bind a name twice over. */
  lemma EveryBindingChecked(patterns: seq<seq<string>>, segs: seq<string>)
    ensures (forall name, val :: Binds(patterns, segs, name, val) ==>
               name in Bind(patterns, segs, map[]) && Bind(patterns, segs, map[])[name] == val)
       <==> forall name, val, val' ::
              Binds(patterns, segs, name, val) && Binds(patterns, segs, name, val') ==> val == val'
  {
    forall name, val | Binds(patterns, segs, name, val)
      ensures name in Bind(patterns, segs, map[]) && Binds(patterns, segs, name, Bind(patterns, segs, map[])[name])
    {
      BindBinds(patterns, segs, map[], name);
    }
  }

  /** A repeated name is missed: "7" is bound as well, and only "d" reaches the check. */
  lemma BindingMissed()
    ensures var patterns, segs := [["", "d", "{id}"], ["", "{id}", "7"]], ["", "d", "7"];
            && Binds(patterns, segs, "id", "7")
            && Bind(patterns, segs, map[]) == map["id" := "d"]
  {
    var p, q, segs := ["", "d", "{id}"], ["", "{id}", "7"], ["", "d", "7"];
    assert SegmentsMatch(p, segs) && SegmentsMatch(q, segs);
    assert "{id}"[1..3] == "id" && p[2] == "{id}" && q[1] == "{id}";
    assert BindsSegment(p, segs, "id", "7");
    assert [p, q][0] == p && BindsHere([p, q][0], segs, "id", "7");
    var p1, p2, q1, q2, s1, s2 := ["d", "{id}"], ["{id}"], ["{id}", "7"], ["7"], ["d", "7"], ["7"];
    assert p[1..] == p1 && p1[1..] == p2 && q[1..] == q1 && q1[1..] == q2 && segs[1..] == s1 && s1[1..] == s2;
    assert BindOne(p2, s2, map[]) == BindOne([], [], map["id" := "7"]);
    assert BindOne(p, segs, map[]) == BindOne(p1, s1, map[]) == map["id" := "7"];
    assert BindOne(q1, s1, map["id" := "7"]) == BindOne(q2, s2, map["id" := "d"]) == map["id" := "d"];
    assert BindOne(q, segs, map["id" := "7"]) == map["id" := "d"];
    assert [p, q][1..] == [q];
  }

  /** A bound segment is never empty. */
  lemma BoundNonEmpty(patterns: seq<seq<string>>, segs: seq<string>, name: string)
    requires name in Bind(patterns, segs, map[])
    ensures Bind(patterns, segs, map[])[name] != ""
  {
    BindBinds(patterns, segs, map[], name);
  }

  /** The templates a request is bound against: none when it hits a literal allow entry. */
  function PatternsFor(patterns: seq<seq<string>>, literals: set<(string, seq<string>)>, verb: string,
                       segs: seq<string>): seq<seq<string>>
  {
    if (verb, segs) in literals || ("", segs) in literals then [] else patterns
  }

  // ---- the allow-list ----

  /** A request path split at its slashes; it starts with one. */
  predicate IsPath(segs: seq<string>) {
    |segs| >= 2 && segs[0] == "" && forall i :: 0 <= i < |segs| ==> '/' !in segs[i]
  }

  /** The paths are the splits at slashes of the texts that begin with one. */
  lemma IsPathMeans(segs: seq<string>)
    ensures IsPath(segs) <==> exists rest :: segs == Split("/" + rest, '/')
  {
    if IsPath(segs) {
      var rest := Join(segs[1..], '/');
      SplitJoin(segs, '/');
      assert Join(segs, '/') == "" + ['/'] + rest == "/" + rest;
    }
    forall rest ensures Split("/" + rest, '/') == [""] + Split(rest, '/') {
      SplitFirst("", '/', rest);
      assert "" + ['/'] + rest == "/" + rest;
    }
  }

  /** A templated allow entry; verb "" matches any. */
  datatype Allow = Allow(verb: string, segs: seq<string>)

  predicate AllowsHere(a: Allow, verb: string, segs: seq<string>) {
    (a.verb == "" || a.verb == verb) && SegmentsMatch(a.segs, segs)
  }

  predicate Allowed(literals: set<(string, seq<string>)>, templates: seq<Allow>, verb: string, segs: seq<string>) {
    || (verb, segs) in literals || ("", segs) in literals
    || exists i :: 0 <= i < |templates| && AllowsHere(templates[i], verb, segs)
  }

  method CheckAllowed(literals: set<(string, seq<string>)>, templates: seq<Allow>, verb: string, segs: seq<string>)
    returns (ok: bool)
    ensures ok == Allowed(literals, templates, verb, segs)
  {
    if |literals| == 0 && |templates| == 0 {
      return false;
    }
    if (verb, segs) in literals || ("", segs) in literals {
      return true;
    }
    for i := 0 to |templates|
      invariant forall j :: 0 <= j < i ==> !AllowsHere(templates[j], verb, segs)
    {
      if templates[i].verb != "" && templates[i].verb != verb {
        continue;
      }
      var matches := MatchSegments(templates[i].segs, segs);
      if matches {
        assert AllowsHere(templates[i], verb, segs);
        return true;
      }
    }
    return false;
  }

  /** Params are bound on every template, whatever its verb. */
  function Paths(templates: seq<Allow>): seq<seq<string>> {
    seq(|templates|, i requires 0 <= i < |templates| => templates[i].segs)
  }

  /** A templated entry admits its own verb, or any if it names none, on the paths it matches. */
  lemma VerbScoped(a: Allow, verb: string, segs: seq<string>)
    ensures Allowed({}, [a], verb, segs) <==> (a.verb == "" || verb == a.verb) && SegmentsMatch(a.segs, segs)
  {
    assert [a][0] == a;
  }
}
