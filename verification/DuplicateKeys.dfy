/**
 The streaming check for repeated JSON keys: a stack of frames, one per open container, fed one
 token at a time. It answers true when a key repeats and whenever the stream is not balanced.
 */
module DuplicateKeys {
  import opened Text
  import opened Json

  datatype Frame = ObjFrame(keys: set<string>, expectVal: bool) | ArrFrame

  /** How the token stream ended: cleanly, or with a syntax error. */
  datatype StreamEnd = EndOfInput | Malformed

  /** The enclosing object's pending key now has its value. */
  function Consumed(stack: seq<Frame>): seq<Frame> {
    if stack != [] && stack[|stack| - 1].ObjFrame?
    then stack[..|stack| - 1] + [stack[|stack| - 1].(expectVal := false)]
    else stack
  }

  /** One token; None is the early "duplicated" answer. */
  function Feed(stack: seq<Frame>, tok: Token): Option<seq<Frame>> {
    match tok
    case OpenObj => Some(Consumed(stack) + [ObjFrame({}, false)])
    case OpenArr => Some(Consumed(stack) + [ArrFrame])
    case CloseObj => if stack == [] then None else Some(stack[..|stack| - 1])
    case CloseArr => if stack == [] then None else Some(stack[..|stack| - 1])
    case StrTok(s) =>
      if stack == [] then Some(stack)
      else
        var top := stack[|stack| - 1];
        if top.ObjFrame? && !top.expectVal then
          if s in top.keys then None else Some(stack[..|stack| - 1] + [ObjFrame(top.keys + {s}, true)])
        else Some(Consumed(stack))
    case OtherTok => Some(Consumed(stack))
  }

  function FeedAll(stack: seq<Frame>, toks: seq<Token>): Option<seq<Frame>>
    decreases toks
  {
    if toks == [] then Some(stack)
    else match Feed(stack, toks[0])
      case None => None
      case Some(next) => FeedAll(next, toks[1..])
  }

  method HasDuplicateKeys(toks: seq<Token>, end: StreamEnd) returns (dup: bool)
    ensures dup == (end.Malformed? || FeedAll([], toks) != Some([]))
  {
    var stack: seq<Frame> := [];
    for i := 0 to |toks|
      invariant FeedAll([], toks) == FeedAll(stack, toks[i..])
    {
      assert toks[i..][1..] == toks[i + 1..];
      match toks[i] {
        case OpenObj =>
          stack := ValueConsumed(stack);
          stack := stack + [ObjFrame({}, false)];
        case OpenArr =>
          stack := ValueConsumed(stack);
          stack := stack + [ArrFrame];
        case CloseObj =>
          if |stack| == 0 {
            return true;
          }
          stack := stack[..|stack| - 1];
        case CloseArr =>
          if |stack| == 0 {
            return true;
          }
          stack := stack[..|stack| - 1];
        case StrTok(s) =>
          var n := |stack|;
          if n > 0 {
            var top := stack[n - 1];
            if top.ObjFrame? && !top.expectVal {
              if s in top.keys {
                return true;
              }
              stack := stack[n - 1 := ObjFrame(top.keys + {s}, true)];
              assert stack == stack[..n - 1] + [ObjFrame(top.keys + {s}, true)];
            } else {
              stack := ValueConsumed(stack);
            }
          }
        case OtherTok =>
          stack := ValueConsumed(stack);
      }
    }
    return end.Malformed? || |stack| != 0;
  }

  method ValueConsumed(stack: seq<Frame>) returns (next: seq<Frame>)
    ensures next == Consumed(stack)
  {
    var n := |stack|;
    if n > 0 && stack[n - 1].ObjFrame? {
      next := stack[n - 1 := stack[n - 1].(expectVal := false)];
      assert next == stack[..n - 1] + [stack[n - 1].(expectVal := false)];
      return;
    }
    return stack;
  }

  // ---- well-formed streams ----

  /** The stack is at a position where a value may start. */
  predicate WantsValue(stack: seq<Frame>) {
    stack != [] ==> stack[|stack| - 1].ArrFrame? || stack[|stack| - 1].expectVal
  }

  lemma {:induction false} FeedSplit(stack: seq<Frame>, a: seq<Token>, b: seq<Token>)
    ensures FeedAll(stack, a + b)
         == if FeedAll(stack, a).None? then None else FeedAll(FeedAll(stack, a).value, b)
    decreases a
  {
    if a == [] {
      assert a + b == b;
    } else {
      assert (a + b)[1..] == a[1..] + b;
      if Feed(stack, a[0]).Some? {
        FeedSplit(Feed(stack, a[0]).value, a[1..], b);
      }
    }
  }

  lemma FeedOne(stack: seq<Frame>, tok: Token)
    ensures FeedAll(stack, [tok]) == Feed(stack, tok)
  {
    assert [tok][1..] == [];
    if Feed(stack, tok).Some? {
      assert FeedAll(Feed(stack, tok).value, []) == Feed(stack, tok);
    }
  }

  /** A container whose inside is read from its opening frame leaves the stack below that frame. */
  lemma FeedWrapped(stack: seq<Frame>, open: Token, frame: Frame, inner: seq<Token>, close: Token)
    requires Feed(stack, open) == Some(Consumed(stack) + [frame])
    requires close.CloseArr? || close.CloseObj?
    ensures var inside := FeedAll(Consumed(stack) + [frame], inner);
            FeedAll(stack, [open] + inner + [close])
            == if inside.None? then None else FeedAll(inside.value, [close])
  {
    FeedSplit(stack, [open] + inner, [close]);
    FeedSplit(stack, [open], inner);
    FeedOne(stack, open);
  }

  lemma FeedClose(base: seq<Frame>, frame: Frame, close: Token)
    requires close.CloseArr? || close.CloseObj?
    ensures FeedAll(base + [frame], [close]) == Some(base)
  {
    FeedOne(base + [frame], close);
    assert (base + [frame])[..|base|] == base;
  }

  /** Feeding a value is one consumed value, or the early answer if some object in it repeats a key. */
  lemma {:induction false} FeedValue(stack: seq<Frame>, v: Value)
    requires WantsValue(stack)
    ensures FeedAll(stack, Tokens(v)) == if RepeatsKey(v) then None else Some(Consumed(stack))
    decreases v, 2
  {
    match v {
      case Arr(items) => FeedArr(stack, v);
      case Obj(ms) => FeedObj(stack, v);
      case Str(s) => FeedOne(stack, StrTok(s));
      case _ => FeedOne(stack, OtherTok);
    }
  }

  lemma {:induction false} FeedArr(stack: seq<Frame>, v: Value)
    requires v.Arr?
    ensures FeedAll(stack, Tokens(v)) == if RepeatsKey(v) then None else Some(Consumed(stack))
    decreases v, 1
  {
    var base, items := Consumed(stack), v.items;
    FeedWrapped(stack, OpenArr, ArrFrame, ItemTokens(items), CloseArr);
    FeedItems(v, base + [ArrFrame], 0);
    assert items[0..] == items;
    assert RepeatsKey(v) <==> ItemsRepeat(items, 0);
    FeedClose(base, ArrFrame, CloseArr);
  }

  lemma {:induction false} FeedObj(stack: seq<Frame>, v: Value)
    requires v.Obj?
    ensures FeedAll(stack, Tokens(v)) == if RepeatsKey(v) then None else Some(Consumed(stack))
    decreases v, 1
  {
    var base, ms := Consumed(stack), v.members;
    FeedWrapped(stack, OpenObj, ObjFrame({}, false), MemberTokens(ms), CloseObj);
    FeedMembers(v, base, {}, 0);
    assert ms[0..] == ms;
    ObjRepeats(v);
    FeedClose(base, ObjFrame({} + KeysFrom(ms, 0), false), CloseObj);
  }

  lemma ObjRepeats(v: Value)
    requires v.Obj?
    ensures RepeatsKey(v) <==> MembersRepeat(v.members, {}, 0)
  {
  }

  ghost predicate ItemsRepeat(items: seq<Value>, n: nat) {
    exists i :: n <= i < |items| && RepeatsKey(items[i])
  }

  lemma {:induction false} FeedItems(v: Value, stack: seq<Frame>, n: nat)
    requires v.Arr? && n <= |v.items|
    requires stack != [] && stack[|stack| - 1].ArrFrame?
    ensures FeedAll(stack, ItemTokens(v.items[n..])) == if ItemsRepeat(v.items, n) then None else Some(stack)
    decreases v, 0, |v.items| - n
  {
    var items := v.items;
    if n < |items| {
      assert items[n..][1..] == items[n + 1..];
      FeedSplit(stack, Tokens(items[n]), ItemTokens(items[n + 1..]));
      FeedValue(stack, items[n]);
      FeedItems(v, stack, n + 1);
    }
  }

  function KeysFrom(ms: seq<Member>, n: nat): set<string> {
    set i | n <= i < |ms| :: ms[i].key
  }

  /** What makes the members from n on fail, given the keys already seen. */
  ghost predicate MembersRepeat(ms: seq<Member>, keys: set<string>, n: nat) {
    || (exists i :: n <= i < |ms| && ms[i].key in keys)
    || (exists i, j :: n <= i < j < |ms| && ms[i].key == ms[j].key)
    || (exists i :: n <= i < |ms| && RepeatsKey(ms[i].value))
  }

  lemma MembersRepeatStep(ms: seq<Member>, keys: set<string>, n: nat)
    requires n < |ms|
    ensures MembersRepeat(ms, keys, n)
       <==> ms[n].key in keys || RepeatsKey(ms[n].value) || MembersRepeat(ms, keys + {ms[n].key}, n + 1)
    ensures KeysFrom(ms, n) == KeysFrom(ms, n + 1) + {ms[n].key}
  {
    if MembersRepeat(ms, keys + {ms[n].key}, n + 1) {
      if i :| n + 1 <= i < |ms| && ms[i].key in keys + {ms[n].key} {
        assert ms[i].key in keys || ms[n].key == ms[i].key;
      }
    }
  }

  lemma {:induction false} FeedMembers(v: Value, base: seq<Frame>, keys: set<string>, n: nat)
    requires v.Obj? && n <= |v.members|
    ensures FeedAll(base + [ObjFrame(keys, false)], MemberTokens(v.members[n..]))
         == if MembersRepeat(v.members, keys, n) then None
            else Some(base + [ObjFrame(keys + KeysFrom(v.members, n), false)])
    decreases v, 0, |v.members| - n
  {
    var ms := v.members;
    var start := base + [ObjFrame(keys, false)];
    if n == |ms| {
      assert keys + KeysFrom(ms, n) == keys;
    } else {
      MembersRepeatStep(ms, keys, n);
      var k, rest := ms[n].key, MemberTokens(ms[n + 1..]);
      assert ms[n..][1..] == ms[n + 1..];
      FeedSplit(start, [StrTok(k)] + Tokens(ms[n].value), rest);
      FeedSplit(start, [StrTok(k)], Tokens(ms[n].value));
      FeedOne(start, StrTok(k));
      if k !in keys {
        var pending := base + [ObjFrame(keys + {k}, true)];
        assert start[..|start| - 1] == base;
        FeedValue(pending, ms[n].value);
        assert pending[..|pending| - 1] == base;
        FeedMembers(v, base, keys + {k}, n + 1);
        assert keys + {k} + KeysFrom(ms, n + 1) == keys + KeysFrom(ms, n);
      }
    }
  }

  /** On the tokens of any run of JSON values, the answer is true exactly when some object repeats a key. */
  lemma {:induction false} DuplicatedIffRepeats(vs: seq<Value>)
    ensures FeedAll([], ItemTokens(vs)) == if exists i :: 0 <= i < |vs| && RepeatsKey(vs[i]) then None else Some([])
  {
    if vs != [] {
      FeedSplit([], Tokens(vs[0]), ItemTokens(vs[1..]));
      FeedValue([], vs[0]);
      DuplicatedIffRepeats(vs[1..]);
      assert forall i :: 0 < i < |vs| ==> vs[i] == vs[1..][i - 1];
    }
  }

  // ---- truncated and unbalanced streams ----

  function Depth(toks: seq<Token>): int {
    if toks == [] then 0
    else
      var t := toks[|toks| - 1];
      Depth(toks[..|toks| - 1]) + if t.OpenObj? || t.OpenArr? then 1 else if t.CloseObj? || t.CloseArr? then -1 else 0
  }

  lemma {:induction false} DepthAdds(a: seq<Token>, b: seq<Token>)
    ensures Depth(a + b) == Depth(a) + Depth(b)
  {
    if b == [] {
      assert a + b == a;
    } else {
      assert (a + b)[..|a + b| - 1] == a + b[..|b| - 1];
      DepthAdds(a, b[..|b| - 1]);
    }
  }

  /** Whatever the tokens, a surviving stack is as tall as the stream is deep. */
  lemma {:induction false} StackIsDepth(toks: seq<Token>)
    ensures FeedAll([], toks).Some? ==> |FeedAll([], toks).value| == Depth(toks)
  {
    if toks != [] {
      var n := |toks| - 1;
      assert toks == toks[..n] + [toks[n]];
      StackIsDepth(toks[..n]);
      FeedSplit([], toks[..n], [toks[n]]);
      if FeedAll([], toks[..n]).Some? {
        FeedOne(FeedAll([], toks[..n]).value, toks[n]);
      }
    }
  }

  /** Every stream that is not balanced is answered true, whatever else it holds. */
  lemma UnbalancedIsDuplicated(toks: seq<Token>, n: nat)
    requires n <= |toks|
    requires Depth(toks) != 0 || Depth(toks[..n]) < 0
    ensures FeedAll([], toks) != Some([])
  {
    if Depth(toks) != 0 {
      StackIsDepth(toks);
    } else {
      StackIsDepth(toks[..n]);
      assert toks == toks[..n] + toks[n..];
      FeedSplit([], toks[..n], toks[n..]);
    }
  }

  lemma {:induction false} ValueDepth(v: Value, n: nat)
    requires n <= |Tokens(v)|
    ensures Depth(Tokens(v)[..n]) >= if 0 < n < |Tokens(v)| then 1 else 0
    ensures Depth(Tokens(v)) == 0
    decreases v, 1
  {
    match v {
      case Arr(items) =>
        assert items[0..] == items;
        ItemsDepth(v, 0, if n == 0 then 0 else if n == |Tokens(v)| then n - 2 else n - 1);
        WrapDepth(OpenArr, ItemTokens(items), CloseArr, n);
      case Obj(ms) =>
        assert ms[0..] == ms;
        MembersDepth(v, 0, if n == 0 then 0 else if n == |Tokens(v)| then n - 2 else n - 1);
        WrapDepth(OpenObj, MemberTokens(ms), CloseObj, n);
      case _ =>
        assert |Tokens(v)| == 1;
        assert Tokens(v)[..0] == [] && Tokens(v)[..1] == Tokens(v);
    }
  }

  lemma WrapDepth(open: Token, inner: seq<Token>, close: Token, n: nat)
    requires open.OpenArr? || open.OpenObj?
    requires close.CloseArr? || close.CloseObj?
    requires n <= |inner| + 2 && Depth(inner) == 0
    requires 0 < n <= |inner| + 1 ==> Depth(inner[..n - 1]) >= 0
    ensures Depth(([open] + inner + [close])[..n]) >= if 0 < n < |inner| + 2 then 1 else 0
    ensures Depth([open] + inner + [close]) == 0
  {
    var whole := [open] + inner + [close];
    DepthAdds([open] + inner, [close]);
    DepthAdds([open], inner);
    assert [open][..0] == [] && [close][..0] == [];
    if n == |whole| {
      assert whole[..n] == whole;
    } else if n > 0 {
      assert whole[..n] == [open] + inner[..n - 1];
      DepthAdds([open], inner[..n - 1]);
    }
  }

  lemma ConcatDepth(a: seq<Token>, b: seq<Token>, n: nat)
    requires n <= |a| + |b|
    requires n <= |a| ==> Depth(a[..n]) >= 0
    requires Depth(a) == 0
    requires n > |a| ==> Depth(b[..n - |a|]) >= 0
    ensures Depth((a + b)[..n]) >= 0
    ensures Depth(a + b) == Depth(b)
  {
    DepthAdds(a, b);
    if n <= |a| {
      assert (a + b)[..n] == a[..n];
    } else {
      assert (a + b)[..n] == a + b[..n - |a|];
      DepthAdds(a, b[..n - |a|]);
    }
  }

  lemma {:induction false} ItemsDepth(v: Value, i: nat, n: nat)
    requires v.Arr? && i <= |v.items| && n <= |ItemTokens(v.items[i..])|
    ensures Depth(ItemTokens(v.items[i..])[..n]) >= 0 && Depth(ItemTokens(v.items[i..])) == 0
    decreases v, 0, |v.items| - i
  {
    if i < |v.items| {
      var a, b := Tokens(v.items[i]), ItemTokens(v.items[i + 1..]);
      assert v.items[i..][1..] == v.items[i + 1..];
      ValueDepth(v.items[i], if n <= |a| then n else 0);
      ItemsDepth(v, i + 1, if n > |a| then n - |a| else 0);
      ConcatDepth(a, b, n);
    }
  }

  lemma {:induction false} MembersDepth(v: Value, i: nat, n: nat)
    requires v.Obj? && i <= |v.members| && n <= |MemberTokens(v.members[i..])|
    ensures Depth(MemberTokens(v.members[i..])[..n]) >= 0 && Depth(MemberTokens(v.members[i..])) == 0
    decreases v, 0, |v.members| - i
  {
    if i < |v.members| {
      var key, val := [StrTok(v.members[i].key)], Tokens(v.members[i].value);
      var b := MemberTokens(v.members[i + 1..]);
      assert v.members[i..][1..] == v.members[i + 1..];
      assert key[..0] == [] && key[..1] == key;
      ValueDepth(v.members[i].value, if 1 < n <= 1 + |val| then n - 1 else 0);
      MembersDepth(v, i + 1, if n > 1 + |val| then n - 1 - |val| else 0);
      ConcatDepth(key, val, if n <= 1 + |val| then n else 0);
      ConcatDepth(key + val, b, n);
    }
  }

  /** A stream cut off inside a value is answered true. */
  lemma TruncatedIsDuplicated(v: Value, n: nat)
    requires 0 < n < |Tokens(v)|
    ensures FeedAll([], Tokens(v)[..n]) != Some([])
  {
    ValueDepth(v, n);
    StackIsDepth(Tokens(v)[..n]);
  }

  /** The first n tokens of vs are those of its first k values, none of which repeats a key. */
  ghost predicate CutAfter(vs: seq<Value>, n: nat, k: nat)
    requires k <= |vs|
  {
    |ItemTokens(vs[..k])| == n && forall i :: 0 <= i < k ==> !RepeatsKey(vs[i])
  }

  lemma CutAfterStep(vs: seq<Value>, n: nat, k: nat)
    requires vs != [] && 0 < k <= |vs|
    ensures CutAfter(vs, n, k) <==>
              !RepeatsKey(vs[0]) && |Tokens(vs[0])| <= n && CutAfter(vs[1..], n - |Tokens(vs[0])|, k - 1)
  {
    assert vs[..k][1..] == vs[1..][..k - 1];
    assert forall i :: 0 < i < k ==> vs[i] == vs[1..][i - 1];
    if CutAfter(vs, n, k) {
      assert forall i :: 0 <= i < k - 1 ==> vs[1..][i] == vs[i + 1];
    }
  }

  /**
   Cut a stream of JSON values anywhere: the answer is false exactly when the cut falls between two
   values, or at either end, and no value before it repeats a key.
   */
  lemma {:induction false} PrefixIsClean(vs: seq<Value>, n: nat)
    requires n <= |ItemTokens(vs)|
    ensures FeedAll([], ItemTokens(vs)[..n]) == Some([]) <==> exists k: nat :: k <= |vs| && CutAfter(vs, n, k)
    decreases |vs|
  {
    if n == 0 {
      assert vs[..0] == [] && CutAfter(vs, n, 0);
    } else {
      var a, b := Tokens(vs[0]), ItemTokens(vs[1..]);
      forall k: nat | k <= |vs| && CutAfter(vs, n, k)
        ensures k > 0 && !RepeatsKey(vs[0]) && |a| <= n && CutAfter(vs[1..], n - |a|, k - 1)
      {
        assert vs[..0] == [];
        CutAfterStep(vs, n, k);
      }
      if n < |a| {
        assert (a + b)[..n] == a[..n];
        TruncatedIsDuplicated(vs[0], n);
      } else {
        var m := n - |a|;
        assert (a + b)[..n] == a + b[..m];
        FeedSplit([], a, b[..m]);
        FeedValue([], vs[0]);
        PrefixIsClean(vs[1..], m);
        forall k: nat | k <= |vs[1..]| && CutAfter(vs[1..], m, k) && !RepeatsKey(vs[0]) ensures CutAfter(vs, n, k + 1) {
          CutAfterStep(vs, n, k + 1);
        }
      }
    }
  }
}
