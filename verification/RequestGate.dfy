/**
 The tenancy gate that runs before a request is forwarded: every resource named in the path, the
 query or the JSON body must be owned by the caller. The body is validated with one decoder but
 forwarded raw, so what the gate promises is stated for every way the partner may read it.
 */
module RequestGate {
  import opened Text
  import opened Json
  import opened DuplicateKeys
  import opened Owners
  import opened Routes

  const MAX_REF_DEPTH := 24

  /** Only strings and numbers are ids, and the empty string is not one. */
  function AsID(t: Tree): Option<string> {
    match t
    case TStr(s) => if s == "" then None else Some(s)
    case TNum(n) => Some(n)
    case _ => None
  }

  /** Whom to check against, and which body keys name which resource type. */
  datatype Check = Check(o: Ownership, app: string, refs: map<string, string>, caller: string)

  predicate OwnsId(c: Check, rtype: string, id: string) {
    Owns(c.o, Resource(c.app, rtype, id), c.caller)
  }

  /** A field that names a resource is null, or the id of a resource the caller owns. */
  predicate RefOk(c: Check, key: string, val: Tree) {
    key in c.refs ==> val.TNull? || (AsID(val).Some? && OwnsId(c, c.refs[key], AsID(val).value))
  }

  // ---- the bounded-depth walk ----

  predicate Accepts(c: Check, t: Tree, depth: nat) {
    && depth <= MAX_REF_DEPTH
    && match t
       case TObj(fields) => forall k :: k in fields ==> RefOk(c, k, fields[k]) && Accepts(c, fields[k], depth + 1)
       case TArr(items) => forall i :: 0 <= i < |items| ==> Accepts(c, items[i], depth + 1)
       case _ => true
  }

  /** checkRefs, with the fields of an object visited in an arbitrary order. */
  method CheckRefs(c: Check, t: Tree, depth: nat) returns (ok: bool)
    ensures ok == Accepts(c, t, depth)
    decreases t
  {
    if depth > MAX_REF_DEPTH {
      return false;
    }
    match t {
      case TObj(fields) =>
        var todo := fields.Keys;
        while todo != {}
          invariant todo <= fields.Keys
          invariant forall k :: k in fields.Keys - todo ==> RefOk(c, k, fields[k]) && Accepts(c, fields[k], depth + 1)
          decreases |todo|
        {
          var k :| k in todo;
          var val := fields[k];
          if k in c.refs {
            var id := AsID(val);
            if id.Some? {
              if !OwnsId(c, c.refs[k], id.value) {
                assert !RefOk(c, k, fields[k]);
                return false;
              }
            } else if !val.TNull? {
              assert !RefOk(c, k, fields[k]);
              return false;
            }
          }
          var deep := CheckRefs(c, val, depth + 1);
          if !deep {
            return false;
          }
          todo := todo - {k};
        }
        return true;
      case TArr(items) =>
        for i := 0 to |items|
          invariant forall j :: 0 <= j < i ==> Accepts(c, items[j], depth + 1)
        {
          var deep := CheckRefs(c, items[i], depth + 1);
          if !deep {
            return false;
          }
        }
        return true;
      case _ =>
        return true;
    }
  }

  // ---- what the walk means, by paths into the tree ----

  datatype Hop = Field(k: string) | Item(i: nat)

  function At(t: Tree, path: seq<Hop>): Option<Tree>
    decreases path
  {
    if path == [] then Some(t)
    else match (path[0], t)
      case (Field(k), TObj(fields)) => if k in fields then At(fields[k], path[1..]) else None
      case (Item(i), TArr(items)) => if i < |items| then At(items[i], path[1..]) else None
      case _ => None
  }

  /** No node lies deeper than the bound. */
  ghost predicate Shallow(t: Tree, depth: nat) {
    forall path :: At(t, path).Some? ==> |path| + depth <= MAX_REF_DEPTH
  }

  /** Wherever an object sits in the tree, each of its resource fields is in order. */
  ghost predicate AllRefsOk(c: Check, t: Tree) {
    forall path, k :: At(t, path + [Field(k)]).Some? ==> RefOk(c, k, At(t, path + [Field(k)]).value)
  }

  lemma {:induction false} AcceptedAt(c: Check, t: Tree, depth: nat, path: seq<Hop>)
    requires Accepts(c, t, depth) && At(t, path).Some?
    ensures |path| + depth <= MAX_REF_DEPTH
    ensures path != [] && path[|path| - 1].Field? ==> RefOk(c, path[|path| - 1].k, At(t, path).value)
    decreases path
  {
    if path != [] {
      match (path[0], t) {
        case (Field(k), TObj(fields)) => AcceptedAt(c, fields[k], depth + 1, path[1..]);
        case (Item(i), TArr(items)) => AcceptedAt(c, items[i], depth + 1, path[1..]);
      }
    }
  }

  lemma {:induction false} SoundAt(c: Check, t: Tree, depth: nat)
    requires Shallow(t, depth) && AllRefsOk(c, t)
    ensures Accepts(c, t, depth)
    decreases t
  {
    assert At(t, []).Some?;
    match t {
      case TObj(fields) =>
        forall k | k in fields ensures RefOk(c, k, fields[k]) && Accepts(c, fields[k], depth + 1) {
          assert [] + [Field(k)] == [Field(k)];
          assert At(t, [] + [Field(k)]) == At(fields[k], [Field(k)][1..]);
          Below(c, t, depth, Field(k), fields[k]);
          SoundAt(c, fields[k], depth + 1);
        }
      case TArr(items) =>
        forall i | 0 <= i < |items| ensures Accepts(c, items[i], depth + 1) {
          Below(c, t, depth, Item(i), items[i]);
          SoundAt(c, items[i], depth + 1);
        }
      case _ =>
    }
  }

  lemma Below(c: Check, t: Tree, depth: nat, hop: Hop, child: Tree)
    requires Shallow(t, depth) && AllRefsOk(c, t)
    requires At(t, [hop]) == Some(child)
    ensures Shallow(child, depth + 1) && AllRefsOk(c, child)
  {
    forall path ensures At(t, [hop] + path) == At(child, path) {
      assert ([hop] + path)[1..] == path;
      assert [hop][1..] == [];
    }
    forall path | At(child, path).Some? ensures |path| + depth + 1 <= MAX_REF_DEPTH {
      assert At(t, [hop] + path).Some?;
    }
    forall path, k | At(child, path + [Field(k)]).Some? ensures RefOk(c, k, At(child, path + [Field(k)]).value) {
      assert [hop] + (path + [Field(k)]) == ([hop] + path) + [Field(k)];
      assert At(t, ([hop] + path) + [Field(k)]).Some?;
    }
  }

  /** The walk accepts exactly the trees at most 24 deep whose every resource field is in order. */
  lemma AcceptsIff(c: Check, t: Tree)
    ensures Accepts(c, t, 0) <==> Shallow(t, 0) && AllRefsOk(c, t)
  {
    if Accepts(c, t, 0) {
      forall path | At(t, path).Some? ensures |path| <= MAX_REF_DEPTH {
        AcceptedAt(c, t, 0, path);
      }
      forall path, k | At(t, path + [Field(k)]).Some? ensures RefOk(c, k, At(t, path + [Field(k)]).value) {
        AcceptedAt(c, t, 0, path + [Field(k)]);
      }
    }
    if Shallow(t, 0) && AllRefsOk(c, t) {
      SoundAt(c, t, 0);
    }
  }

  // ---- multipart bodies ----

  const MAX_PARTS := 64
  const MAX_REF_BYTES := 4096

  /** One part of a form: its field name, its length in bytes, and its text without surrounding blanks. */
  datatype Part = Part(name: string, isFile: bool, size: nat, value: string)

  /** A field that names a resource is a short text field. */
  predicate PartFormed(refs: map<string, string>, p: Part) {
    p.name in refs ==> !p.isFile && p.size <= MAX_REF_BYTES
  }

  /** The form can be read to its end, is small, and no field that names a resource is repeated. */
  predicate FormFormed(refs: map<string, string>, parts: seq<Part>, wellFormed: bool) {
    && wellFormed && |parts| <= MAX_PARTS
    && (forall i :: 0 <= i < |parts| ==> PartFormed(refs, parts[i]))
    && (forall i, j :: 0 <= i < j < |parts| && parts[i].name in refs ==> parts[i].name != parts[j].name)
  }

  /** An empty field names nothing. */
  predicate PartOwned(c: Check, p: Part) {
    p.name in c.refs && p.value != "" ==> OwnsId(c, c.refs[p.name], p.value)
  }

  predicate FormOk(c: Check, parts: seq<Part>, wellFormed: bool) {
    FormFormed(c.refs, parts, wellFormed) && forall i :: 0 <= i < |parts| ==> PartOwned(c, parts[i])
  }

  /** found holds the fields read so far that name resources, each once. */
  ghost predicate Collected(refs: map<string, string>, parts: seq<Part>, found: map<string, string>) {
    && FormFormed(refs, parts, true)
    && (forall i :: 0 <= i < |parts| && parts[i].name in refs ==>
          parts[i].name in found && found[parts[i].name] == parts[i].value)
    && (forall n :: n in found ==> n in refs && exists i :: 0 <= i < |parts| && parts[i].name == n)
  }

  lemma CollectedNext(refs: map<string, string>, parts: seq<Part>, found: map<string, string>, p: Part)
    requires Collected(refs, parts, found) && |parts| < MAX_PARTS && PartFormed(refs, p)
    requires p.name in refs ==> p.name !in found
    ensures Collected(refs, parts + [p], if p.name in refs then found[p.name := p.value] else found)
  {
    var more := parts + [p];
    assert more[|parts|] == p;
    forall n | n in found ensures exists i :: 0 <= i < |more| && more[i].name == n {
      var i :| 0 <= i < |parts| && parts[i].name == n;
      assert more[i].name == n;
    }
  }

  method CheckForm(c: Check, parts: seq<Part>, wellFormed: bool) returns (ok: bool)
    ensures ok == FormOk(c, parts, wellFormed)
  {
    var found: map<string, string> := map[];
    for n := 0 to |parts|
      invariant Collected(c.refs, parts[..n], found)
    {
      if n >= MAX_PARTS {
        return false;
      }
      var p := parts[n];
      assert parts[..n + 1] == parts[..n] + [p];
      if p.name in c.refs {
        if p.isFile {
          assert !PartFormed(c.refs, parts[n]);
          return false;
        }
        if p.name in found {
          ghost var i :| 0 <= i < n && parts[..n][i].name == p.name;
          assert parts[i].name == parts[n].name;
          return false;
        }
        if p.size > MAX_REF_BYTES {
          assert !PartFormed(c.refs, parts[n]);
          return false;
        }
        CollectedNext(c.refs, parts[..n], found, p);
        found := found[p.name := p.value];
      } else {
        CollectedNext(c.refs, parts[..n], found, p);
      }
    }
    assert parts[..|parts|] == parts;
    if !wellFormed {
      return false;
    }
    ok := CheckFound(c, found);
    FoundIsOwned(c, parts, found);
  }

  predicate FoundOwned(c: Check, found: map<string, string>) {
    forall n :: n in found && n in c.refs && found[n] != "" ==> OwnsId(c, c.refs[n], found[n])
  }

  lemma FoundIsOwned(c: Check, parts: seq<Part>, found: map<string, string>)
    requires Collected(c.refs, parts, found)
    ensures FoundOwned(c, found) <==> forall i :: 0 <= i < |parts| ==> PartOwned(c, parts[i])
  {
    if forall i :: 0 <= i < |parts| ==> PartOwned(c, parts[i]) {
      forall n | n in found && found[n] != "" ensures OwnsId(c, c.refs[n], found[n]) {
        var i :| 0 <= i < |parts| && parts[i].name == n;
        assert PartOwned(c, parts[i]);
      }
    }
  }

  method CheckFound(c: Check, found: map<string, string>) returns (ok: bool)
    requires found.Keys <= c.refs.Keys
    ensures ok == FoundOwned(c, found)
  {
    var todo := found.Keys;
    while todo != {}
      invariant todo <= found.Keys
      invariant forall n :: n in found.Keys - todo && found[n] != "" ==> OwnsId(c, c.refs[n], found[n])
      decreases |todo|
    {
      var n :| n in todo;
      if found[n] != "" && !OwnsId(c, c.refs[n], found[n]) {
        return false;
      }
      todo := todo - {n};
    }
    return true;
  }

  // ---- the whole gate ----

  datatype Config = Config(paramTypes: map<string, string>, bodyRefs: map<string, string>)

  /** A body as its content type has it read: a run of JSON values, or the parts of a form. */
  datatype Body = NoBody | JsonBody(values: seq<Value>, end: StreamEnd) | FormBody(parts: seq<Part>, wellFormed: bool)

  /** A request as the gate reads it; the query is absent if it does not parse. */
  datatype Incoming = Incoming(segs: seq<string>, query: Option<map<string, seq<string>>>, body: Body)

  predicate ParamsOwned(c: Check, types: map<string, string>, params: map<string, string>) {
    forall n :: n in params && n in types ==> OwnsId(c, types[n], params[n])
  }

  predicate QueryOwned(c: Check, q: map<string, seq<string>>) {
    forall f, i :: f in q && f in c.refs && 0 <= i < |q[f]| && q[f][i] != "" ==> OwnsId(c, c.refs[f], q[f][i])
  }

  method CheckParams(c: Check, types: map<string, string>, params: map<string, string>) returns (ok: bool)
    ensures ok == ParamsOwned(c, types, params)
  {
    var todo := params.Keys;
    while todo != {}
      invariant todo <= params.Keys
      invariant forall n :: n in params.Keys - todo && n in types ==> OwnsId(c, types[n], params[n])
      decreases |todo|
    {
      var n :| n in todo;
      if n in types && !OwnsId(c, types[n], params[n]) {
        return false;
      }
      todo := todo - {n};
    }
    return true;
  }

  method CheckQuery(c: Check, q: map<string, seq<string>>) returns (ok: bool)
    ensures ok == QueryOwned(c, q)
  {
    var todo := q.Keys;
    while todo != {}
      invariant todo <= q.Keys
      invariant forall f, i :: f in q.Keys - todo && f in c.refs && 0 <= i < |q[f]| && q[f][i] != "" ==>
                  OwnsId(c, c.refs[f], q[f][i])
      decreases |todo|
    {
      var f :| f in todo;
      if f in c.refs {
        for i := 0 to |q[f]|
          invariant forall j :: 0 <= j < i && q[f][j] != "" ==> OwnsId(c, c.refs[f], q[f][j])
        {
          if q[f][i] != "" && !OwnsId(c, c.refs[f], q[f][i]) {
            return false;
          }
        }
      }
      todo := todo - {f};
    }
    return true;
  }

  /** The JSON body says one thing, and that thing names only the caller's resources. */
  ghost predicate JsonOk(c: Check, values: seq<Value>, end: StreamEnd) {
    && end.EndOfInput? && |values| == 1 && !RepeatsKey(values[0])
    && Shallow(DecodeLast(values[0]), 0) && AllRefsOk(c, DecodeLast(values[0]))
  }

  method CheckJson(c: Check, values: seq<Value>, end: StreamEnd) returns (ok: bool)
    ensures ok == JsonOk(c, values, end)
  {
    DuplicatedIffRepeats(values);
    var dup := HasDuplicateKeys(ItemTokens(values), end);
    if dup {
      return false;
    }
    if |values| == 0 {
      return false; // nothing to decode
    }
    if |values| > 1 {
      return false; // trailing content
    }
    AcceptsIff(c, DecodeLast(values[0]));
    ok := CheckRefs(c, DecodeLast(values[0]), 0);
  }

  /** Without any resource fields configured no body is looked at. */
  ghost predicate BodyOk(c: Check, body: Body) {
    |c.refs| > 0 ==>
      match body
      case NoBody => true
      case JsonBody(values, end) => JsonOk(c, values, end)
      case FormBody(parts, wellFormed) => FormOk(c, parts, wellFormed)
  }

  method EnforceRequest(o: Ownership, app: string, patterns: seq<seq<string>>, cfg: Config, req: Incoming,
                        caller: string)
    returns (ok: bool)
    ensures var c := Check(o, app, cfg.bodyRefs, caller);
            ok <==>
            && caller != ""
            && ParamsOwned(c, cfg.paramTypes, Bind(patterns, req.segs, map[]))
            && req.query.Some? && QueryOwned(c, req.query.value)
            && BodyOk(c, req.body)
  {
    var c := Check(o, app, cfg.bodyRefs, caller);
    if caller == "" {
      return false;
    }
    var params := PathParams(patterns, req.segs);
    ok := CheckParams(c, cfg.paramTypes, params);
    if !ok {
      return;
    }
    if req.query.None? {
      return false;
    }
    ok := CheckQuery(c, req.query.value);
    if !ok {
      return;
    }
    if req.body != NoBody && |cfg.bodyRefs| > 0 {
      match req.body {
        case JsonBody(values, end) => ok := CheckJson(c, values, end);
        case FormBody(parts, wellFormed) => ok := CheckForm(c, parts, wellFormed);
      }
    }
  }

  // ---- the gate as a set of ownership reads ----

  datatype Ref = Ref(rtype: string, rid: string)

  predicate OwnsRef(c: Check, x: Ref) {
    OwnsId(c, x.rtype, x.rid)
  }

  /** Every resource field of the tree is null or an id, at most 24 deep. */
  predicate TreeFormed(refs: map<string, string>, t: Tree, depth: nat) {
    && depth <= MAX_REF_DEPTH
    && match t
       case TObj(fields) => forall k :: k in fields ==>
           && (k in refs ==> fields[k].TNull? || AsID(fields[k]).Some?)
           && TreeFormed(refs, fields[k], depth + 1)
       case TArr(items) => forall i :: 0 <= i < |items| ==> TreeFormed(refs, items[i], depth + 1)
       case _ => true
  }

  function TreeRefs(refs: map<string, string>, t: Tree): set<Ref> {
    match t
    case TObj(fields) =>
      (set k | k in fields && k in refs && AsID(fields[k]).Some? :: Ref(refs[k], AsID(fields[k]).value))
      + (set k, x | k in fields && x in TreeRefs(refs, fields[k]) :: x)
    case TArr(items) => set i, x | 0 <= i < |items| && x in TreeRefs(refs, items[i]) :: x
    case _ => {}
  }

  lemma {:induction false} TreeSplits(c: Check, t: Tree, depth: nat)
    ensures Accepts(c, t, depth)
       <==> TreeFormed(c.refs, t, depth) && forall x :: x in TreeRefs(c.refs, t) ==> OwnsRef(c, x)
    decreases t
  {
    match t {
      case TObj(fields) =>
        forall k | k in fields
          ensures Accepts(c, fields[k], depth + 1)
             <==> TreeFormed(c.refs, fields[k], depth + 1)
                  && forall x :: x in TreeRefs(c.refs, fields[k]) ==> OwnsRef(c, x)
        {
          TreeSplits(c, fields[k], depth + 1);
        }
        FieldsSplit(c, fields);
      case TArr(items) =>
        forall i | 0 <= i < |items|
          ensures Accepts(c, items[i], depth + 1)
             <==> TreeFormed(c.refs, items[i], depth + 1)
                  && forall x :: x in TreeRefs(c.refs, items[i]) ==> OwnsRef(c, x)
        {
          TreeSplits(c, items[i], depth + 1);
        }
      case _ =>
    }
  }

  /** What an object's own and nested fields name, field by field. */
  lemma FieldsSplit(c: Check, fields: map<string, Tree>)
    ensures (forall x :: x in TreeRefs(c.refs, TObj(fields)) ==> OwnsRef(c, x))
       <==> forall k :: k in fields ==>
              && (k in c.refs && AsID(fields[k]).Some? ==> OwnsId(c, c.refs[k], AsID(fields[k]).value))
              && (forall x :: x in TreeRefs(c.refs, fields[k]) ==> OwnsRef(c, x))
  {
    var all := TreeRefs(c.refs, TObj(fields));
    if forall x :: x in all ==> OwnsRef(c, x) {
      forall k | k in fields
        ensures k in c.refs && AsID(fields[k]).Some? ==> OwnsId(c, c.refs[k], AsID(fields[k]).value)
        ensures forall x :: x in TreeRefs(c.refs, fields[k]) ==> OwnsRef(c, x)
      {
        if k in c.refs && AsID(fields[k]).Some? {
          assert Ref(c.refs[k], AsID(fields[k]).value) in all;
        }
        assert forall x :: x in TreeRefs(c.refs, fields[k]) ==> x in all;
      }
    }
  }

  function PathRefs(types: map<string, string>, params: map<string, string>): set<Ref> {
    set n | n in params && n in types :: Ref(types[n], params[n])
  }

  function QueryRefs(refs: map<string, string>, q: map<string, seq<string>>): set<Ref> {
    set f, i | f in q && f in refs && 0 <= i < |q[f]| && q[f][i] != "" :: Ref(refs[f], q[f][i])
  }

  function FormRefs(refs: map<string, string>, parts: seq<Part>): set<Ref> {
    set i | 0 <= i < |parts| && parts[i].name in refs && parts[i].value != ""
          :: Ref(refs[parts[i].name], parts[i].value)
  }

  ghost function BodyRefs(refs: map<string, string>, body: Body): set<Ref> {
    match body
    case NoBody => {}
    case JsonBody(values, _) => if |values| == 1 then TreeRefs(refs, DecodeLast(values[0])) else {}
    case FormBody(parts, _) => FormRefs(refs, parts)
  }

  ghost predicate BodyFormed(refs: map<string, string>, body: Body) {
    match body
    case NoBody => true
    case JsonBody(values, end) =>
      end.EndOfInput? && |values| == 1 && !RepeatsKey(values[0]) && TreeFormed(refs, DecodeLast(values[0]), 0)
    case FormBody(parts, wellFormed) => FormFormed(refs, parts, wellFormed)
  }

  /** The gate can read all that the request names. */
  ghost predicate Legible(cfg: Config, req: Incoming) {
    req.query.Some? && (|cfg.bodyRefs| > 0 ==> BodyFormed(cfg.bodyRefs, req.body))
  }

  /** The resources a request names: in its path, its query and its body. */
  ghost function NamedRefs(patterns: seq<seq<string>>, cfg: Config, req: Incoming): set<Ref> {
    PathRefs(cfg.paramTypes, Bind(patterns, req.segs, map[]))
    + (if req.query.Some? then QueryRefs(cfg.bodyRefs, req.query.value) else {})
    + (if |cfg.bodyRefs| > 0 then BodyRefs(cfg.bodyRefs, req.body) else {})
  }

  /** Without query and body a request names what its path names. */
  lemma BareRefs(patterns: seq<seq<string>>, cfg: Config, req: Incoming)
    ensures var bare := Incoming(req.segs, Some(map[]), NoBody);
            && NamedRefs(patterns, cfg, bare) == PathRefs(cfg.paramTypes, Bind(patterns, req.segs, map[]))
            && NamedRefs(patterns, cfg, bare) <= NamedRefs(patterns, cfg, req) && Legible(cfg, bare)
  {
    assert QueryRefs(cfg.bodyRefs, map[]) == {};
  }

  lemma BodySplits(c: Check, body: Body)
    requires |c.refs| > 0
    ensures BodyOk(c, body) <==> BodyFormed(c.refs, body) && forall x :: x in BodyRefs(c.refs, body) ==> OwnsRef(c, x)
  {
    match body {
      case NoBody =>
      case JsonBody(values, end) =>
        if |values| == 1 {
          AcceptsIff(c, DecodeLast(values[0]));
          TreeSplits(c, DecodeLast(values[0]), 0);
        }
      case FormBody(parts, wellFormed) =>
        FormSplits(c, parts);
    }
  }

  lemma FormSplits(c: Check, parts: seq<Part>)
    ensures (forall i :: 0 <= i < |parts| ==> PartOwned(c, parts[i]))
       <==> forall x :: x in FormRefs(c.refs, parts) ==> OwnsRef(c, x)
  {
    if forall x :: x in FormRefs(c.refs, parts) ==> OwnsRef(c, x) {
      forall i | 0 <= i < |parts| ensures PartOwned(c, parts[i]) {
        if parts[i].name in c.refs && parts[i].value != "" {
          assert Ref(c.refs[parts[i].name], parts[i].value) in FormRefs(c.refs, parts);
        }
      }
    }
  }

  lemma PathSplits(c: Check, types: map<string, string>, params: map<string, string>)
    ensures ParamsOwned(c, types, params) <==> forall x :: x in PathRefs(types, params) ==> OwnsRef(c, x)
  {
    forall n | n in params && n in types ensures Ref(types[n], params[n]) in PathRefs(types, params) {
    }
    assert forall n :: n in params && n in types ==>
             (OwnsRef(c, Ref(types[n], params[n])) <==> OwnsId(c, types[n], params[n]));
  }

  lemma QuerySplits(c: Check, q: map<string, seq<string>>)
    ensures QueryOwned(c, q) <==> forall x :: x in QueryRefs(c.refs, q) ==> OwnsRef(c, x)
  {
    if forall x :: x in QueryRefs(c.refs, q) ==> OwnsRef(c, x) {
      forall f, i | f in q && f in c.refs && 0 <= i < |q[f]| && q[f][i] != "" ensures OwnsId(c, c.refs[f], q[f][i]) {
        assert Ref(c.refs[f], q[f][i]) in QueryRefs(c.refs, q);
      }
    }
  }

  /** The gate passes exactly the legible requests of a caller who owns every resource they name. */
  lemma GateSplits(o: Ownership, app: string, patterns: seq<seq<string>>, cfg: Config, req: Incoming, caller: string)
    ensures var c := Check(o, app, cfg.bodyRefs, caller);
            (&& ParamsOwned(c, cfg.paramTypes, Bind(patterns, req.segs, map[]))
             && req.query.Some? && QueryOwned(c, req.query.value) && BodyOk(c, req.body))
            <==> Legible(cfg, req) && forall x :: x in NamedRefs(patterns, cfg, req) ==> OwnsRef(c, x)
  {
    var c := Check(o, app, cfg.bodyRefs, caller);
    PathSplits(c, cfg.paramTypes, Bind(patterns, req.segs, map[]));
    if req.query.Some? {
      QuerySplits(c, req.query.value);
    }
    if |cfg.bodyRefs| > 0 {
      BodySplits(c, req.body);
    }
  }

  /** Every binding of every matching template names a resource the caller owns. */
  ghost predicate BindingsOwned(c: Check, types: map<string, string>, patterns: seq<seq<string>>, segs: seq<string>) {
    forall n, val :: n in types && Binds(patterns, segs, n, val) ==> OwnsId(c, types[n], val)
  }

  /** Every resource a template binds is, under some name, among those the path check looks at. */
  ghost predicate BindingsReached(types: map<string, string>, patterns: seq<seq<string>>, segs: seq<string>) {
    var params := Bind(patterns, segs, map[]);
    forall n, val :: n in types && Binds(patterns, segs, n, val) ==>
      exists n' :: n' in params && n' in types && types[n'] == types[n] && params[n'] == val
  }

  function CheckedRows(types: map<string, string>, params: map<string, string>, app: string): set<Resource> {
    set n | n in params && n in types :: Resource(app, types[n], params[n])
  }

  /** The ledger in which the caller owns just what the path check looks at. */
  function CheckedOnly(types: map<string, string>, params: map<string, string>, app: string, caller: string)
    : Ownership
  {
    map row | row in CheckedRows(types, params, app) :: caller
  }

  /**
   The path check passes whenever every binding names the caller's own resource; and passing it
   guarantees that, on every ledger, exactly when every bound resource is among those it looks at.
   */
  lemma PathCheckSuffices(types: map<string, string>, patterns: seq<seq<string>>, segs: seq<string>,
                          refs: map<string, string>, app: string, caller: string)
    requires caller != ""
    ensures forall o :: BindingsOwned(Check(o, app, refs, caller), types, patterns, segs) ==>
              ParamsOwned(Check(o, app, refs, caller), types, Bind(patterns, segs, map[]))
    ensures BindingsReached(types, patterns, segs)
       <==> forall o :: ParamsOwned(Check(o, app, refs, caller), types, Bind(patterns, segs, map[])) ==>
                        BindingsOwned(Check(o, app, refs, caller), types, patterns, segs)
  {
    var params := Bind(patterns, segs, map[]);
    forall n | n in params ensures Binds(patterns, segs, n, params[n]) && params[n] != "" {
      BindBinds(patterns, segs, map[], n);
      BoundNonEmpty(patterns, segs, n);
    }
    if !BindingsReached(types, patterns, segs) {
      var o := CheckedOnly(types, params, app, caller);
      forall n | n in params && n in types ensures Resource(app, types[n], params[n]) in o {
      }
      assert ParamsOwned(Check(o, app, refs, caller), types, params);
      assert !BindingsOwned(Check(o, app, refs, caller), types, patterns, segs);
    }
  }

  /**
   No parser differential: once the gate has passed a body, every reading of it, whichever
   duplicates a parser would keep, names only resources the caller owns, at any depth.
   */
  lemma EveryReadingIsOwned(c: Check, values: seq<Value>, end: StreamEnd, t: Tree)
    requires JsonOk(c, values, end) && Reads(values[0], t)
    ensures AllRefsOk(c, t) && Shallow(t, 0)
  {
    LastIsReading(values[0]);
    OneReading(values[0], t, DecodeLast(values[0]));
  }

  /** A resource field holding an empty string is refused: it is neither null nor an id. */
  lemma EmptyRefIsRefused(c: Check, k: string)
    requires k in c.refs
    ensures !Accepts(c, TObj(map[k := TStr("")]), 0)
  {
    assert !RefOk(c, k, map[k := TStr("")][k]);
  }

  // ---- what the gate takes for an id, and its bounds ----

  /** One resource field passes on null or on an owned non-empty string or number, and on nothing else. */
  lemma OneField(c: Check, k: string, v: Value)
    requires k in c.refs
    ensures JsonOk(c, [Obj([Member(k, v)])], EndOfInput)
       <==> match v
            case Null => true
            case Num(n) => OwnsId(c, c.refs[k], n)
            case Str(s) => s != "" && OwnsId(c, c.refs[k], s)
            case _ => false
  {
    var body, ms := Obj([Member(k, v)]), [Member(k, v)];
    var t := TObj(map[k := DecodeLast(v)]);
    assert ms[..0] == [] && ms[..|ms| - 1] == [];
    assert FieldsLast(ms) == map[k := DecodeLast(v)];
    assert DecodeLast(body) == t;
    assert ms[0].value == v;
    AcceptsIff(c, t);
    OneFieldAccepted(c, k, DecodeLast(v));
    if v.Null? || v.Num? || v.Str? {
      assert !RepeatsKey(body);
    }
  }

  lemma OneFieldAccepted(c: Check, k: string, x: Tree)
    requires k in c.refs
    ensures Accepts(c, TObj(map[k := x]), 0)
       <==> x.TNull? || (x.TNum? && OwnsId(c, c.refs[k], x.text)) || (x.TStr? && x.s != "" && OwnsId(c, c.refs[k], x.s))
  {
    assert map[k := x][k] == x;
    if x.TNull? || x.TNum? || x.TStr? {
      assert Accepts(c, x, 1);
    }
  }

  /** n arrays around a null. */
  function Nest(n: nat): Value {
    if n == 0 then Null else Arr([Nest(n - 1)])
  }

  lemma {:induction false} NestedAccepted(c: Check, n: nat, depth: nat)
    ensures !RepeatsKey(Nest(n)) && (Accepts(c, DecodeLast(Nest(n)), depth) <==> n + depth <= 24)
    decreases n
  {
    if n > 0 {
      NestedAccepted(c, n - 1, depth + 1);
      assert DecodeLast(Nest(n)) == TArr([DecodeLast(Nest(n - 1))]);
      assert [DecodeLast(Nest(n - 1))][0] == DecodeLast(Nest(n - 1));
      assert Nest(n).items[0] == Nest(n - 1);
    }
  }

  /** A body is read 24 levels deep and refused beyond. */
  lemma DepthBound(c: Check, n: nat)
    ensures JsonOk(c, [Nest(n)], EndOfInput) <==> n <= 24
  {
    NestedAccepted(c, n, 0);
    AcceptsIff(c, DecodeLast(Nest(n)));
  }

  /** A form is read up to 64 parts, and a field that names a resource up to 4096 bytes. */
  lemma FormBounds(c: Check, n: nat, other: Part, k: string, size: nat, id: string)
    requires other.name !in c.refs && k in c.refs && id != ""
    ensures FormOk(c, seq(n, _ => other), true) <==> n <= 64
    ensures FormOk(c, [Part(k, false, size, id)], true) <==> size <= 4096 && OwnsId(c, c.refs[k], id)
  {
    var p := Part(k, false, size, id);
    assert [p][0] == p;
    if n > 64 {
      assert !FormFormed(c.refs, seq(n, _ => other), true);
    }
  }

  /** A field that names a resource may not be a file, nor come twice, nor stand in a form that breaks off. */
  lemma RefusedForms(c: Check, k: string, p: Part, q: Part, before: seq<Part>, between: seq<Part>, after: seq<Part>)
    requires k in c.refs && p.name == k && q.name == k
    ensures p.isFile ==> !FormOk(c, before + [p] + after, true)
    ensures !FormOk(c, before + [p] + between + [q] + after, true)
    ensures !FormOk(c, before, false)
  {
    var one, two := before + [p] + after, before + [p] + between + [q] + after;
    assert one[|before|] == p;
    assert two[|before|] == p && two[|before| + 1 + |between|] == q;
  }
}
