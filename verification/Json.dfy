/**
 JSON as the broker meets it: the value a body spells, where an object is an ordered list of
 members and may repeat a key; its token stream; and the decoded tree, where an object is a map.
 */
module Json {
  import opened Text

  datatype Value =
    | Null
    | Bool(b: bool)
    | Num(text: string)
    | Str(s: string)
    | Arr(items: seq<Value>)
    | Obj(members: seq<Member>)

  datatype Member = Member(key: string, value: Value)

  datatype Token = OpenObj | OpenArr | CloseObj | CloseArr | StrTok(s: string) | OtherTok

  datatype Tree =
    | TNull
    | TBool(b: bool)
    | TNum(text: string)
    | TStr(s: string)
    | TArr(items: seq<Tree>)
    | TObj(fields: map<string, Tree>)

  /** Some object, at any depth, repeats a key. */
  ghost predicate RepeatsKey(v: Value) {
    match v
    case Arr(items) => exists i :: 0 <= i < |items| && RepeatsKey(items[i])
    case Obj(ms) =>
      || (exists i, j :: 0 <= i < j < |ms| && ms[i].key == ms[j].key)
      || (exists i :: 0 <= i < |ms| && RepeatsKey(ms[i].value))
    case _ => false
  }

  function Tokens(v: Value): seq<Token> {
    match v
    case Str(s) => [StrTok(s)]
    case Arr(items) => [OpenArr] + ItemTokens(items) + [CloseArr]
    case Obj(ms) => [OpenObj] + MemberTokens(ms) + [CloseObj]
    case _ => [OtherTok]
  }

  function ItemTokens(vs: seq<Value>): seq<Token> {
    if vs == [] then [] else Tokens(vs[0]) + ItemTokens(vs[1..])
  }

  function MemberTokens(ms: seq<Member>): seq<Token> {
    if ms == [] then [] else [StrTok(ms[0].key)] + Tokens(ms[0].value) + MemberTokens(ms[1..])
  }

  // ---- decoding ----

  /**
   t is a reading of v: an object's fields are its keys, and each field is a reading of SOME member
   with that key. A parser that keeps the first duplicate, the last, or any other, obeys this.
   */
  ghost predicate Reads(v: Value, t: Tree) {
    match v
    case Null => t == TNull
    case Bool(b) => t == TBool(b)
    case Num(n) => t == TNum(n)
    case Str(s) => t == TStr(s)
    case Arr(items) =>
      && t.TArr? && |t.items| == |items|
      && (forall i :: 0 <= i < |items| ==> Reads(items[i], t.items[i]))
    case Obj(ms) =>
      && t.TObj?
      && t.fields.Keys == (set i | 0 <= i < |ms| :: ms[i].key)
      && (forall k :: k in t.fields ==> exists i :: 0 <= i < |ms| && ms[i].key == k && Reads(ms[i].value, t.fields[k]))
  }

  /** Go's decoder: a later duplicate overwrites an earlier one. */
  function DecodeLast(v: Value): Tree {
    match v
    case Null => TNull
    case Bool(b) => TBool(b)
    case Num(n) => TNum(n)
    case Str(s) => TStr(s)
    case Arr(items) => TArr(seq(|items|, i requires 0 <= i < |items| => DecodeLast(items[i])))
    case Obj(ms) => TObj(FieldsLast(ms))
  }

  function FieldsLast(ms: seq<Member>): map<string, Tree> {
    if ms == [] then map[] else FieldsLast(ms[..|ms| - 1])[ms[|ms| - 1].key := DecodeLast(ms[|ms| - 1].value)]
  }

  /** A decoder that keeps the first duplicate. */
  function DecodeFirst(v: Value): Tree {
    match v
    case Null => TNull
    case Bool(b) => TBool(b)
    case Num(n) => TNum(n)
    case Str(s) => TStr(s)
    case Arr(items) => TArr(seq(|items|, i requires 0 <= i < |items| => DecodeFirst(items[i])))
    case Obj(ms) => TObj(FieldsFirst(ms))
  }

  function FieldsFirst(ms: seq<Member>): map<string, Tree> {
    if ms == [] then map[]
    else
      var last := ms[|ms| - 1];
      var before := FieldsFirst(ms[..|ms| - 1]);
      if last.key in before then before else before[last.key := DecodeFirst(last.value)]
  }

  /** Without repeated keys a body has only one reading, at every depth. */
  lemma {:induction false} OneReading(v: Value, t: Tree, t': Tree)
    requires !RepeatsKey(v) && Reads(v, t) && Reads(v, t')
    ensures t == t'
    decreases v
  {
    match v {
      case Arr(items) =>
        forall i | 0 <= i < |items| ensures t.items[i] == t'.items[i] {
          OneReading(items[i], t.items[i], t'.items[i]);
        }
      case Obj(ms) =>
        forall k | k in t.fields ensures t.fields[k] == t'.fields[k] {
          var i :| 0 <= i < |ms| && ms[i].key == k && Reads(ms[i].value, t.fields[k]);
          var j :| 0 <= j < |ms| && ms[j].key == k && Reads(ms[j].value, t'.fields[k]);
          assert i == j;
          OneReading(ms[i].value, t.fields[k], t'.fields[k]);
        }
        assert t.fields == t'.fields;
      case _ =>
    }
  }

  lemma {:induction false} LastIsReading(v: Value)
    ensures Reads(v, DecodeLast(v))
    decreases v, 1
  {
    match v {
      case Arr(items) =>
        forall i | 0 <= i < |items| ensures Reads(items[i], DecodeLast(items[i])) {
          LastIsReading(items[i]);
        }
      case Obj(ms) =>
        FieldsLastRead(v, |ms|);
        assert ms[..|ms|] == ms;
      case _ =>
    }
  }

  lemma {:induction false} FieldsLastRead(v: Value, n: nat)
    requires v.Obj? && n <= |v.members|
    ensures FieldsLast(v.members[..n]).Keys == set i | 0 <= i < n :: v.members[i].key
    ensures forall k :: k in FieldsLast(v.members[..n]) ==>
              exists i :: 0 <= i < n && v.members[i].key == k
                          && Reads(v.members[i].value, FieldsLast(v.members[..n])[k])
    decreases v, 0, n
  {
    if n > 0 {
      var ms := v.members;
      assert ms[..n][..n - 1] == ms[..n - 1];
      FieldsLastRead(v, n - 1);
      LastIsReading(ms[n - 1].value);
    }
  }

  lemma {:induction false} FirstIsReading(v: Value)
    ensures Reads(v, DecodeFirst(v))
    decreases v, 1
  {
    match v {
      case Arr(items) =>
        forall i | 0 <= i < |items| ensures Reads(items[i], DecodeFirst(items[i])) {
          FirstIsReading(items[i]);
        }
      case Obj(ms) =>
        FieldsFirstRead(v, |ms|);
        assert ms[..|ms|] == ms;
      case _ =>
    }
  }

  lemma {:induction false} FieldsFirstRead(v: Value, n: nat)
    requires v.Obj? && n <= |v.members|
    ensures FieldsFirst(v.members[..n]).Keys == set i | 0 <= i < n :: v.members[i].key
    ensures forall k :: k in FieldsFirst(v.members[..n]) ==>
              exists i :: 0 <= i < n && v.members[i].key == k
                          && Reads(v.members[i].value, FieldsFirst(v.members[..n])[k])
    decreases v, 0, n
  {
    if n > 0 {
      var ms := v.members;
      assert ms[..n][..n - 1] == ms[..n - 1];
      FieldsFirstRead(v, n - 1);
      FirstIsReading(ms[n - 1].value);
    }
  }

  /** Keep-first and keep-last decoding agree on every body without repeated keys. */
  lemma FirstIsLast(v: Value)
    requires !RepeatsKey(v)
    ensures DecodeFirst(v) == DecodeLast(v)
  {
    FirstIsReading(v);
    LastIsReading(v);
    OneReading(v, DecodeFirst(v), DecodeLast(v));
  }

  /** With a repeated key they need not. */
  lemma DuplicatesDiverge()
    ensures var v := Obj([Member("agent_id", Str("theirs")), Member("agent_id", Str("mine"))]);
            && RepeatsKey(v)
            && DecodeFirst(v) == TObj(map["agent_id" := TStr("theirs")])
            && DecodeLast(v) == TObj(map["agent_id" := TStr("mine")])
  {
    var ms := [Member("agent_id", Str("theirs")), Member("agent_id", Str("mine"))];
    assert ms[0].key == ms[1].key;
    assert ms[..1] == [ms[0]] && ms[..1][..0] == [];
    assert FieldsFirst(ms[..1]) == map["agent_id" := TStr("theirs")];
    assert FieldsLast(ms[..1]) == map["agent_id" := TStr("theirs")];
  }
}
