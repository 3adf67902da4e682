/**
 Version comparison in the catalogue and version bumping in the CLI, over all strings; the order is
 tied to section 11 of Semantic Versioning 2.0.0 on well-formed versions without build metadata.
 */
module Semver {
  import opened Text

  // ---- numbers ----

  /** What the hand-written loops read: the value of the leading digits. */
  function Leading(s: string): nat {
    Value(DigitPrefix(s))
  }

  method Atoi(s: string) returns (n: nat)
    ensures n == Leading(s)
  {
    n := 0;
    for i := 0 to |s|
      invariant AllDigits(s[..i])
      invariant n == Value(s[..i])
    {
      if s[i] < '0' || s[i] > '9' {
        DigitPrefixUnique(s, s[..i]);
        return;
      }
      assert s[..i + 1][..i] == s[..i];
      n := n * 10 + (s[i] as int - '0' as int);
    }
    assert s[..|s|] == s;
    DigitPrefixUnique(s, s);
  }

  /** An all-digit identifier and its value. */
  function Numeric(s: string): Option<nat> {
    if s != "" && AllDigits(s) then Some(Value(s)) else None
  }

  method NumericIdent(s: string) returns (n: nat, ok: bool)
    ensures ok == Numeric(s).Some?
    ensures ok ==> n == Numeric(s).value
  {
    if s == "" {
      return 0, false;
    }
    n := 0;
    for i := 0 to |s|
      invariant AllDigits(s[..i])
      invariant n == Value(s[..i])
    {
      if s[i] < '0' || s[i] > '9' {
        return 0, false;
      }
      assert s[..i + 1][..i] == s[..i];
      n := n * 10 + (s[i] as int - '0' as int);
    }
    assert s[..|s|] == s;
    return n, true;
  }

  // ---- comparison ----

  /** Numbers by value, below words; words by their bytes. */
  function CompareIdent(x: string, y: string): int {
    match (Numeric(x), Numeric(y))
    case (Some(m), Some(n)) => CompareInt(m, n)
    case (Some(_), None) => -1
    case (None, Some(_)) => 1
    case (None, None) => CompareText(x, y)
  }

  function ComparePre(a: string, b: string): int {
    Lex(CompareIdent, Split(a, '.'), Split(b, '.'))
  }

  /** strings.Split and get: the i-th dotted part, or "0". */
  function Part(core: string, i: nat): string {
    var ps := Split(core, '.');
    if i < |ps| then ps[i] else "0"
  }

  function Core(v: string): seq<int> {
    var core := Cut(v, '-').0;
    [Leading(Part(core, 0)), Leading(Part(core, 1)), Leading(Part(core, 2))]
  }

  function Pre(v: string): Option<string> {
    Cut(v, '-').1
  }

  function CompareOptional(a: Option<string>, b: Option<string>): int {
    match (a, b)
    case (None, None) => 0
    case (Some(_), None) => -1
    case (None, Some(_)) => 1
    case (Some(x), Some(y)) => ComparePre(x, y)
  }

  function Compare(a: string, b: string): int {
    var c := Lex(CompareInt, Core(a), Core(b));
    if c != 0 then c else CompareOptional(Pre(a), Pre(b))
  }

  method ComparePrerelease(a: string, b: string) returns (c: int)
    ensures c == ComparePre(a, b)
  {
    var ai, bi := Split(a, '.'), Split(b, '.');
    var i := 0;
    while i < |ai| || i < |bi|
      invariant 0 <= i <= |ai| && i <= |bi|
      invariant ComparePre(a, b) == Lex(CompareIdent, ai[i..], bi[i..])
      decreases |ai| + |bi| - i
    {
      if i >= |ai| {
        return -1;
      }
      if i >= |bi| {
        return 1;
      }
      var x, y := ai[i], bi[i];
      assert ai[i..][1..] == ai[i + 1..] && bi[i..][1..] == bi[i + 1..];
      var xn, xNum := NumericIdent(x);
      var yn, yNum := NumericIdent(y);
      CompareTextZero(x, y);
      if xNum && yNum {
        if xn != yn {
          return if xn < yn then -1 else 1;
        }
      } else if xNum {
        return -1;
      } else if yNum {
        return 1;
      } else if x != y {
        CompareTextOrder();
        return if TextLess(x, y) then -1 else 1;
      }
      i := i + 1;
    }
    return 0;
  }

  method CompareSemver(a: string, b: string) returns (c: int)
    ensures c == Compare(a, b)
  {
    var (aCore, aPre) := Cut(a, '-');
    var (bCore, bPre) := Cut(b, '-');
    for i := 0 to 3
      invariant Lex(CompareInt, Core(a), Core(b)) == Lex(CompareInt, Core(a)[i..], Core(b)[i..])
    {
      var av := Atoi(Part(aCore, i));
      var bv := Atoi(Part(bCore, i));
      assert Core(a)[i] == av && Core(b)[i] == bv;
      assert Core(a)[i..][1..] == Core(a)[i + 1..] && Core(b)[i..][1..] == Core(b)[i + 1..];
      if av != bv {
        return if av < bv then -1 else 1;
      }
    }
    match (aPre, bPre) {
      case (None, None) => return 0;
      case (Some(_), None) => return -1;
      case (None, Some(_)) => return 1;
      case (Some(x), Some(y)) => c := ComparePrerelease(x, y);
    }
  }

  // ---- a total preorder on all strings ----

  lemma CompareIntOrder()
    ensures IsOrder(CompareInt)
  {
  }

  lemma CompareIdentOrder()
    ensures IsOrder(CompareIdent)
  {
    CompareTextOrder();
    forall x, y ensures -1 <= CompareIdent(x, y) <= 1 && CompareIdent(x, y) == -CompareIdent(y, x) {
      assert CompareText(x, y) == -CompareText(y, x);
    }
    forall x, y, z | CompareIdent(x, y) <= 0 && CompareIdent(y, z) <= 0 ensures CompareIdent(x, z) <= 0 {
      assert CompareText(x, y) <= 0 && CompareText(y, z) <= 0 ==> CompareText(x, z) <= 0;
    }
  }

  lemma CompareAntisymmetric(a: string, b: string)
    ensures -1 <= Compare(a, b) <= 1 && Compare(a, b) == -Compare(b, a)
  {
    CompareIntOrder();
    LexAntisymmetric(CompareInt, Core(a), Core(b));
    if Pre(a).Some? && Pre(b).Some? {
      CompareIdentOrder();
      LexAntisymmetric(CompareIdent, Split(Pre(a).value, '.'), Split(Pre(b).value, '.'));
    }
  }

  lemma OptionalTransitive(a: Option<string>, b: Option<string>, c: Option<string>)
    requires CompareOptional(a, b) <= 0 && CompareOptional(b, c) <= 0
    ensures CompareOptional(a, c) <= 0
  {
    if a.Some? && b.Some? && c.Some? {
      CompareIdentOrder();
      LexTransitive(CompareIdent, Split(a.value, '.'), Split(b.value, '.'), Split(c.value, '.'));
    }
  }

  lemma CompareTransitive(a: string, b: string, c: string)
    requires Compare(a, b) <= 0 && Compare(b, c) <= 0
    ensures Compare(a, c) <= 0
  {
    CompareIntOrder();
    var x, y, z := Core(a), Core(b), Core(c);
    LexTransitive(CompareInt, x, y, z);
    LexAntisymmetric(CompareInt, x, y);
    LexAntisymmetric(CompareInt, y, z);
    LexAntisymmetric(CompareInt, x, z);
    if Lex(CompareInt, x, z) == 0 {
      LexTransitive(CompareInt, y, z, x);
      LexTransitive(CompareInt, z, x, y);
      OptionalTransitive(Pre(a), Pre(b), Pre(c));
    }
  }

  /** compareSemver is a total preorder on all strings, well-formed or not. */
  lemma TotalPreorder()
    ensures IsOrder(Compare)
  {
    forall a, b ensures -1 <= Compare(a, b) <= 1 && Compare(a, b) == -Compare(b, a) {
      CompareAntisymmetric(a, b);
    }
    forall a, b, c | Compare(a, b) <= 0 && Compare(b, c) <= 0 ensures Compare(a, c) <= 0 {
      CompareTransitive(a, b, c);
    }
  }

  // ---- agreement with the standard ----

  /** A pre-release identifier: a number, or a word that is not all digits. */
  datatype Ident = Number(n: nat) | Word(w: string)

  /** A version without build metadata; pre == [] is a release. */
  datatype Version = Version(major: nat, minor: nat, patch: nat, pre: seq<Ident>)

  predicate IsWord(w: string) {
    && !AllDigits(w)
    && forall i :: 0 <= i < |w| ==> IsDigit(w[i]) || 'a' <= w[i] <= 'z' || 'A' <= w[i] <= 'Z' || w[i] == '-'
  }

  predicate WellFormed(v: Version) {
    WordsOk(v.pre)
  }

  function RenderIdent(x: Ident): string {
    match x case Number(n) => Itoa(n) case Word(w) => w
  }

  function RenderIdents(pre: seq<Ident>): seq<string> {
    seq(|pre|, i requires 0 <= i < |pre| => RenderIdent(pre[i]))
  }

  function RenderCore(v: Version): string {
    Itoa(v.major) + "." + Itoa(v.minor) + "." + Itoa(v.patch)
  }

  /** The text of a version. */
  function Render(v: Version): string {
    if v.pre == [] then RenderCore(v) else RenderCore(v) + "-" + Join(RenderIdents(v.pre), '.')
  }

  /** Section 11.4: a number below another by value and below every word, words in ASCII order. */
  predicate IdentBelow(x: Ident, y: Ident) {
    match (x, y)
    case (Number(m), Number(n)) => m < n
    case (Number(_), Word(_)) => true
    case (Word(_), Number(_)) => false
    case (Word(u), Word(w)) => Before(u, w)
  }

  /** The lists first differ at k, where u has the lower identifier or has ended. */
  predicate LowerAt(u: seq<Ident>, v: seq<Ident>, k: nat)
    requires k <= |u| && k <= |v|
  {
    u[..k] == v[..k] && k < |v| && (k == |u| || IdentBelow(u[k], v[k]))
  }

  predicate ListBelow(u: seq<Ident>, v: seq<Ident>) {
    exists k :: 0 <= k <= |u| && k <= |v| && LowerAt(u, v, k)
  }

  /** Section 11: by major, minor and patch; then a pre-release below its release; then by the identifiers. */
  predicate Below(u: Version, v: Version) {
    if u.major != v.major then u.major < v.major
    else if u.minor != v.minor then u.minor < v.minor
    else if u.patch != v.patch then u.patch < v.patch
    else if u.pre == [] then false
    else v.pre == [] || ListBelow(u.pre, v.pre)
  }

  function Precedence(u: Version, v: Version): int {
    if u == v then 0 else if Below(u, v) then -1 else 1
  }

  lemma LeadingItoa(n: nat)
    ensures Leading(Itoa(n)) == n
  {
    DigitPrefixUnique(Itoa(n), Itoa(n));
  }

  lemma DigitsAvoid(s: string, c: char)
    requires AllDigits(s) && !IsDigit(c)
    ensures c !in s
  {
  }

  lemma ThreeParts(x: string, y: string, z: string)
    requires '.' !in x && '.' !in y && '.' !in z
    ensures Split(x + "." + y + "." + z, '.') == [x, y, z]
  {
    SplitFirst(x, '.', y + "." + z);
    SplitFirst(y, '.', z);
    SplitWhole(z, '.');
    assert x + "." + (y + "." + z) == x + "." + y + "." + z;
  }

  lemma CoreParts(a: nat, b: nat, c: nat)
    ensures var core := Itoa(a) + "." + Itoa(b) + "." + Itoa(c);
            '-' !in core && Split(core, '.') == [Itoa(a), Itoa(b), Itoa(c)]
  {
    var x, y, z := Itoa(a), Itoa(b), Itoa(c);
    DigitsAvoid(x, '.');
    DigitsAvoid(y, '.');
    DigitsAvoid(z, '.');
    DigitsAvoid(x, '-');
    DigitsAvoid(y, '-');
    DigitsAvoid(z, '-');
    ThreeParts(x, y, z);
  }

  lemma RenderedCore(v: Version)
    ensures Core(Render(v)) == [v.major, v.minor, v.patch]
    ensures Pre(Render(v)) == if v.pre == [] then None else Some(Join(RenderIdents(v.pre), '.'))
  {
    CoreParts(v.major, v.minor, v.patch);
    LeadingItoa(v.major);
    LeadingItoa(v.minor);
    LeadingItoa(v.patch);
    if v.pre == [] {
      CutWhole(RenderCore(v), '-');
    } else {
      CutFirst(RenderCore(v), '-', Join(RenderIdents(v.pre), '.'));
    }
  }

  predicate WordsOk(pre: seq<Ident>) {
    forall i :: 0 <= i < |pre| ==> pre[i].Word? ==> IsWord(pre[i].w)
  }

  lemma RenderedIdent(x: Ident, y: Ident)
    requires x.Word? ==> IsWord(x.w)
    requires y.Word? ==> IsWord(y.w)
    ensures CompareIdent(RenderIdent(x), RenderIdent(y)) == IdentSign(x, y)
  {
    if x.Word? && y.Word? {
      CompareTextMeans(x.w, y.w);
    }
  }

  lemma ListTail(u: seq<Ident>, v: seq<Ident>)
    requires u != [] && v != []
    ensures ListBelow(u, v) <==> IdentBelow(u[0], v[0]) || (u[0] == v[0] && ListBelow(u[1..], v[1..]))
  {
    if ListBelow(u, v) {
      var k :| 0 <= k <= |u| && k <= |v| && LowerAt(u, v, k);
      if k > 0 {
        assert u[..k][0] == v[..k][0] && u[..k][1..] == u[1..][..k - 1] && v[..k][1..] == v[1..][..k - 1];
        assert LowerAt(u[1..], v[1..], k - 1);
      }
    }
    if IdentBelow(u[0], v[0]) {
      assert LowerAt(u, v, 0);
    } else if u[0] == v[0] && ListBelow(u[1..], v[1..]) {
      var k :| 0 <= k <= |u[1..]| && k <= |v[1..]| && LowerAt(u[1..], v[1..], k);
      assert u[..k + 1] == [u[0]] + u[1..][..k] && v[..k + 1] == [v[0]] + v[1..][..k];
      assert LowerAt(u, v, k + 1);
    }
  }

  function IdentSign(x: Ident, y: Ident): int {
    if x == y then 0 else if IdentBelow(x, y) then -1 else 1
  }

  function ListSign(u: seq<Ident>, v: seq<Ident>): int {
    if u == v then 0 else if ListBelow(u, v) then -1 else 1
  }

  /** The sign of two lists is that of their heads, or else of their tails. */
  lemma SignStep(u: seq<Ident>, v: seq<Ident>)
    requires u != [] && v != []
    ensures ListSign(u, v) == if IdentSign(u[0], v[0]) != 0 then IdentSign(u[0], v[0]) else ListSign(u[1..], v[1..])
  {
    ListTail(u, v);
    NotBelowSelf(u[0]);
    assert u == [u[0]] + u[1..] && v == [v[0]] + v[1..];
  }

  lemma SignOfEnded(u: seq<Ident>, v: seq<Ident>)
    requires u == [] || v == []
    ensures ListSign(u, v) == if u == v then 0 else if u == [] then -1 else 1
  {
    if u == [] && v != [] {
      assert LowerAt(u, v, 0);
    }
  }

  lemma {:induction false} RenderedIdents(u: seq<Ident>, v: seq<Ident>)
    requires WordsOk(u) && WordsOk(v)
    ensures Lex(CompareIdent, RenderIdents(u), RenderIdents(v)) == ListSign(u, v)
    decreases |u|
  {
    if u == [] || v == [] {
      SignOfEnded(u, v);
    } else {
      var us, vs := RenderIdents(u), RenderIdents(v);
      assert us[1..] == RenderIdents(u[1..]) && vs[1..] == RenderIdents(v[1..]);
      RenderedIdents(u[1..], v[1..]);
      RenderedIdent(u[0], v[0]);
      SignStep(u, v);
    }
  }

  lemma NotBelowSelf(x: Ident)
    ensures !IdentBelow(x, x)
  {
  }

  lemma IdentsSplit(pre: seq<Ident>)
    requires pre != [] && WordsOk(pre)
    ensures Split(Join(RenderIdents(pre), '.'), '.') == RenderIdents(pre)
  {
    forall i | 0 <= i < |RenderIdents(pre)| ensures '.' !in RenderIdents(pre)[i] {
      assert RenderIdents(pre)[i] == RenderIdent(pre[i]);
    }
    SplitJoin(RenderIdents(pre), '.');
  }

  /** The order of the pre-release parts: none is above any. */
  function PreSign(u: seq<Ident>, v: seq<Ident>): int {
    if u == v then 0 else if u != [] && (v == [] || ListBelow(u, v)) then -1 else 1
  }

  lemma RenderedPre(u: Version, v: Version)
    requires WellFormed(u) && WellFormed(v)
    ensures CompareOptional(Pre(Render(u)), Pre(Render(v))) == PreSign(u.pre, v.pre)
  {
    RenderedCore(u);
    RenderedCore(v);
    if u.pre != [] && v.pre != [] {
      IdentsSplit(u.pre);
      IdentsSplit(v.pre);
      RenderedIdents(u.pre, v.pre);
    }
  }

  lemma PrecedenceParts(u: Version, v: Version)
    ensures Precedence(u, v) == if u.major != v.major then CompareInt(u.major, v.major)
                                else if u.minor != v.minor then CompareInt(u.minor, v.minor)
                                else if u.patch != v.patch then CompareInt(u.patch, v.patch)
                                else PreSign(u.pre, v.pre)
  {
  }

  /** On well-formed versions without build metadata the comparison is the standard's precedence. */
  lemma AgreesWithStandard(u: Version, v: Version)
    requires WellFormed(u) && WellFormed(v)
    ensures Compare(Render(u), Render(v)) == Precedence(u, v)
  {
    RenderedCore(u);
    RenderedCore(v);
    LexThree([u.major, u.minor, u.patch], [v.major, v.minor, v.patch]);
    RenderedPre(u, v);
    PrecedenceParts(u, v);
  }

  // ---- version texts ----

  /** A numeric identifier: digits without a superfluous leading zero. */
  predicate NumericText(s: string) {
    s != "" && AllDigits(s) && (|s| > 1 ==> s[0] != '0')
  }

  predicate IdentText(s: string) {
    if AllDigits(s) then NumericText(s) else IsWord(s)
  }

  /** Section 2 and section 9: a valid version without build metadata. */
  predicate VersionText(s: string) {
    var (core, pre) := Cut(s, '-');
    var ps := Split(core, '.');
    && |ps| == 3 && NumericText(ps[0]) && NumericText(ps[1]) && NumericText(ps[2])
    && (pre.Some? ==> forall i :: 0 <= i < |Split(pre.value, '.')| ==> IdentText(Split(pre.value, '.')[i]))
  }

  lemma {:induction false} ItoaNumeric(n: nat)
    ensures NumericText(Itoa(n)) && (n > 0 ==> Itoa(n)[0] != '0')
  {
    if n >= 10 {
      ItoaNumeric(n / 10);
    }
  }

  lemma DivTen(v: nat, d: nat)
    requires d < 10
    ensures (v * 10 + d) / 10 == v && (v * 10 + d) % 10 == d
  {
  }

  lemma {:induction false} ItoaOfValue(s: string)
    requires NumericText(s)
    ensures Itoa(Value(s)) == s && (s[0] != '0' ==> Value(s) > 0)
  {
    var n := |s| - 1;
    if n > 0 {
      assert s[..n][0] == s[0];
      ItoaOfValue(s[..n]);
      assert s == s[..n] + [s[n]];
      DivTen(Value(s[..n]), DigitValue(s[n]));
    } else {
      assert s == [s[0]] && s[..0] == "";
    }
  }

  function ReadIdent(s: string): Ident
    requires IdentText(s)
  {
    if AllDigits(s) then Number(Value(s)) else Word(s)
  }

  /** The version a valid text denotes. */
  function ReadVersion(s: string): Version
    requires VersionText(s)
  {
    var (core, pre) := Cut(s, '-');
    var ps := Split(core, '.');
    Version(Value(ps[0]), Value(ps[1]), Value(ps[2]), if pre.None? then [] else ReadIdents(Split(pre.value, '.')))
  }

  function ReadIdents(parts: seq<string>): seq<Ident>
    requires forall i :: 0 <= i < |parts| ==> IdentText(parts[i])
  {
    seq(|parts|, i requires 0 <= i < |parts| => ReadIdent(parts[i]))
  }

  /** Rendering undoes reading: a valid text is the rendering of the well-formed version it denotes. */
  lemma RenderRead(s: string)
    requires VersionText(s)
    ensures WellFormed(ReadVersion(s)) && Render(ReadVersion(s)) == s
  {
    var (core, pre) := Cut(s, '-');
    var ps := Split(core, '.');
    var v := ReadVersion(s);
    ItoaOfValue(ps[0]);
    ItoaOfValue(ps[1]);
    ItoaOfValue(ps[2]);
    JoinSplit(core, '.');
    JoinThree(ps);
    assert RenderCore(v) == core;
    if pre.Some? {
      var parts := Split(pre.value, '.');
      forall i | 0 <= i < |parts| ensures RenderIdent(ReadIdent(parts[i])) == parts[i] {
        if AllDigits(parts[i]) {
          ItoaOfValue(parts[i]);
        }
      }
      assert RenderIdents(v.pre) == parts;
      JoinSplit(pre.value, '.');
    }
  }

  lemma JoinThree(ps: seq<string>)
    requires |ps| == 3
    ensures Join(ps, '.') == ps[0] + "." + ps[1] + "." + ps[2]
  {
    assert ps[1..][1..] == [ps[2]];
    assert Join(ps[1..], '.') == ps[1] + "." + ps[2];
    assert ps[0] + "." + (ps[1] + "." + ps[2]) == ps[0] + "." + ps[1] + "." + ps[2];
  }

  /** Reading undoes rendering, so valid texts and well-formed versions correspond one to one. */
  lemma ReadRender(v: Version)
    requires WellFormed(v)
    ensures VersionText(Render(v)) && ReadVersion(Render(v)) == v
  {
    CoreParts(v.major, v.minor, v.patch);
    ItoaNumeric(v.major);
    ItoaNumeric(v.minor);
    ItoaNumeric(v.patch);
    if v.pre == [] {
      CutWhole(RenderCore(v), '-');
    } else {
      CutFirst(RenderCore(v), '-', Join(RenderIdents(v.pre), '.'));
      IdentsSplit(v.pre);
      forall i | 0 <= i < |v.pre|
        ensures IdentText(RenderIdent(v.pre[i])) && ReadIdent(RenderIdent(v.pre[i])) == v.pre[i]
      {
        if v.pre[i].Number? {
          ItoaNumeric(v.pre[i].n);
        }
      }
      assert ReadIdents(RenderIdents(v.pre)) == v.pre;
    }
  }

  /** On every two valid texts without build metadata the comparison is the precedence of what they denote. */
  lemma AgreesOnTexts(a: string, b: string)
    requires VersionText(a) && VersionText(b)
    ensures Compare(a, b) == Precedence(ReadVersion(a), ReadVersion(b))
  {
    RenderRead(a);
    RenderRead(b);
    AgreesWithStandard(ReadVersion(a), ReadVersion(b));
  }

  /** The word that is smaller where two words first differ, or is a proper prefix, makes the lower version. */
  lemma LowerWord(major: nat, minor: nat, patch: nat, pre: seq<Ident>, u: string, w: string)
    requires WordsOk(pre) && IsWord(u) && IsWord(w) && Before(u, w)
    ensures Compare(Render(Version(major, minor, patch, pre + [Word(u)])),
                    Render(Version(major, minor, patch, pre + [Word(w)]))) == -1
  {
    var a, b := Version(major, minor, patch, pre + [Word(u)]), Version(major, minor, patch, pre + [Word(w)]);
    AgreesWithStandard(a, b);
    assert a.pre[..|pre|] == pre == b.pre[..|pre|];
    assert LowerAt(a.pre, b.pre, |pre|);
    CompareTextMeans(u, w);
    NotBelowSelf(Word(u));
    assert u != w;
    assert a.pre[|pre|] != b.pre[|pre|];
  }

  lemma FirstCharDecides(p: string, c: char, s: string, d: char, t: string)
    requires c < d
    ensures Before(p + [c] + s, p + [d] + t) && Before(p, p + [c] + s)
  {
    var u, w := p + [c] + s, p + [d] + t;
    assert u[..|p|] == p == w[..|p|];
    assert BeforeAt(u, w, |p|);
    assert p[..|p|] == p && BeforeAt(p, u, |p|);
  }

  /** Fewer identifiers, all equal, make the lower version. */
  lemma FewerIsLower(major: nat, minor: nat, patch: nat, pre: seq<Ident>, more: seq<Ident>)
    requires pre != [] && more != [] && WordsOk(pre) && WordsOk(more)
    ensures Compare(Render(Version(major, minor, patch, pre)), Render(Version(major, minor, patch, pre + more))) == -1
  {
    var a, b := Version(major, minor, patch, pre), Version(major, minor, patch, pre + more);
    AgreesWithStandard(a, b);
    assert pre[..|pre|] == pre && (pre + more)[..|pre|] == pre;
    assert LowerAt(a.pre, b.pre, |pre|);
    assert |a.pre| < |b.pre|;
  }

  lemma LexThree(a: seq<int>, b: seq<int>)
    requires |a| == 3 && |b| == 3
    ensures Lex(CompareInt, a, b)
         == if a[0] != b[0] then CompareInt(a[0], b[0])
            else if a[1] != b[1] then CompareInt(a[1], b[1]) else CompareInt(a[2], b[2])
  {
    assert a[1..][0] == a[1] && b[1..][0] == b[1];
    assert a[1..][1..] == [a[2]] && b[1..][1..] == [b[2]];
    assert Lex(CompareInt, [a[2]], [b[2]]) == CompareInt(a[2], b[2]) by {
      assert [a[2]][1..] == [] && [b[2]][1..] == [];
    }
  }

  /** A version with fewer than three parts reads as if the missing ones were zero. */
  lemma MissingPartsAreZero(a: nat, b: nat)
    ensures Compare(Itoa(a), Render(Version(a, 0, 0, []))) == 0
    ensures Compare(Itoa(a) + "." + Itoa(b), Render(Version(a, b, 0, []))) == 0
  {
    RenderedCore(Version(a, 0, 0, []));
    RenderedCore(Version(a, b, 0, []));
    var one, two := Itoa(a), Itoa(a) + "." + Itoa(b);
    DigitsAvoid(Itoa(a), '.');
    DigitsAvoid(Itoa(b), '.');
    DigitsAvoid(Itoa(a), '-');
    DigitsAvoid(Itoa(b), '-');
    CutWhole(one, '-');
    CutWhole(two, '-');
    SplitWhole(one, '.');
    SplitFirst(Itoa(a), '.', Itoa(b));
    SplitWhole(Itoa(b), '.');
    LeadingItoa(a);
    LeadingItoa(b);
    LeadingZero();
    assert Core(one) == [a, 0, 0] && Core(two) == [a, b, 0];
    LexThree([a, 0, 0], [a, 0, 0]);
    LexThree([a, b, 0], [a, b, 0]);
  }

  lemma LeadingZero()
    ensures Leading("0") == 0
  {
    DigitPrefixUnique("0", "0");
    assert "0"[..0] == "";
  }

  // ---- bumping ----

  datatype Bump = Major | Minor | Patch | Other

  /** strings.IndexAny(v, "-+"): what precedes the first '-' or '+'. */
  function Plain(v: string): string {
    if v == "" || v[0] == '-' || v[0] == '+' then "" else [v[0]] + Plain(v[1..])
  }

  method CutPlain(v: string) returns (core: string)
    ensures core == Plain(v)
  {
    var i := 0;
    while i < |v| && v[i] != '-' && v[i] != '+'
      invariant 0 <= i <= |v|
      invariant Plain(v) == v[..i] + Plain(v[i..])
    {
      assert v[..i + 1] == v[..i] + [v[i]] && v[i..][1..] == v[i + 1..];
      i := i + 1;
    }
    return v[..i];
  }

  /** The bumped triple: the part goes up by one and the parts after it go to zero. */
  function Bumped(a: nat, b: nat, c: nat, bump: Bump): Version {
    match bump
    case Major => Version(a + 1, 0, 0, [])
    case Minor => Version(a, b + 1, 0, [])
    case _ => Version(a, b, c + 1, [])
  }

  /** The next version's text, where there is one. */
  function NextVersion(v: string, bump: Bump): Option<string> {
    if bump == Other || |Split(Plain(v), '.')| != 3 then None
    else Some(Render(Bumped(Core(v)[0], Core(v)[1], Core(v)[2], bump)))
  }

  predicate IsSuffix(s: string) {
    s == "" || s[0] == '-' || s[0] == '+'
  }

  lemma {:induction false} PlainOf(core: string, suffix: string)
    requires '-' !in core && '+' !in core && IsSuffix(suffix)
    ensures Plain(core + suffix) == core
  {
    if core == "" {
      assert core + suffix == suffix;
    } else {
      assert (core + suffix)[1..] == core[1..] + suffix && core == [core[0]] + core[1..];
      assert core[0] in core;
      PlainOf(core[1..], suffix);
    }
  }

  lemma BumpParts3(a: nat, b: nat, c: nat, suffix: string)
    requires IsSuffix(suffix)
    ensures var v := Itoa(a) + "." + Itoa(b) + "." + Itoa(c) + suffix;
            |Split(Plain(v), '.')| == 3 && Core(v) == [a, b, c]
  {
    var core := Itoa(a) + "." + Itoa(b) + "." + Itoa(c);
    CoreParts(a, b, c);
    DigitsAvoid(Itoa(a), '+');
    DigitsAvoid(Itoa(b), '+');
    DigitsAvoid(Itoa(c), '+');
    PlainOf(core, suffix);
    PlainCore(core + suffix);
    LeadingItoa(a);
    LeadingItoa(b);
    LeadingItoa(c);
  }

  lemma TextOfBumped(a: nat, b: nat, c: nat)
    ensures Render(Bumped(a, b, c, Major)) == Itoa(a + 1) + ".0.0"
    ensures Render(Bumped(a, b, c, Minor)) == Itoa(a) + "." + Itoa(b + 1) + ".0"
    ensures Render(Bumped(a, b, c, Patch)) == Itoa(a) + "." + Itoa(b) + "." + Itoa(c + 1)
  {
    assert Itoa(0) == "0";
    assert Itoa(a + 1) + "." + "0" + "." + "0" == Itoa(a + 1) + ".0.0";
    assert Itoa(a) + "." + Itoa(b + 1) + "." + "0" == Itoa(a) + "." + Itoa(b + 1) + ".0";
  }

  /** The part that is bumped goes up by one, the parts after it to zero, and any suffix is dropped. */
  lemma BumpedText(a: nat, b: nat, c: nat, suffix: string)
    requires IsSuffix(suffix)
    ensures var v := Itoa(a) + "." + Itoa(b) + "." + Itoa(c) + suffix;
            && NextVersion(v, Major) == Some(Itoa(a + 1) + ".0.0")
            && NextVersion(v, Minor) == Some(Itoa(a) + "." + Itoa(b + 1) + ".0")
            && NextVersion(v, Patch) == Some(Itoa(a) + "." + Itoa(b) + "." + Itoa(c + 1))
            && NextVersion(v, Other) == None
  {
    BumpParts3(a, b, c, suffix);
    TextOfBumped(a, b, c);
  }

  /** It succeeds exactly on three dotted parts and a known bump, and then gives a strictly greater version. */
  method BumpSemver(v: string, bump: Bump) returns (next: Option<string>)
    ensures next.Some? <==> bump != Other && |Split(Plain(v), '.')| == 3
    ensures next == NextVersion(v, bump)
    ensures next.Some? ==> Compare(next.value, v) == 1
  {
    var core := CutPlain(v);
    var ps := Split(core, '.');
    if |ps| != 3 {
      return None;
    }
    var maj := Atoi(ps[0]);
    var mnr := Atoi(ps[1]);
    var pat := Atoi(ps[2]);
    PlainCore(v);
    next := BumpParts(maj, mnr, pat, bump);
    BumpedGreater(v, maj, mnr, pat, bump);
  }

  method BumpParts(a: nat, b: nat, c: nat, bump: Bump) returns (next: Option<string>)
    ensures next == if bump == Other then None else Some(Render(Bumped(a, b, c, bump)))
  {
    var maj, mnr, pat := a, b, c;
    match bump {
      case Major => maj, mnr, pat := maj + 1, 0, 0;
      case Minor => mnr, pat := mnr + 1, 0;
      case Patch => pat := pat + 1;
      case Other => return None;
    }
    next := Some(Itoa(maj) + "." + Itoa(mnr) + "." + Itoa(pat));
  }

  lemma BumpedGreater(v: string, a: nat, b: nat, c: nat, bump: Bump)
    requires Core(v) == [a, b, c]
    ensures Compare(Render(Bumped(a, b, c, bump)), v) == 1
  {
    var r := Bumped(a, b, c, bump);
    RenderedCore(r);
    LexThree([r.major, r.minor, r.patch], [a, b, c]);
  }

  lemma {:induction false} PlainPrefix(v: string)
    ensures Plain(v) <= Cut(v, '-').0
    ensures |Plain(v)| < |Cut(v, '-').0| ==> Cut(v, '-').0[|Plain(v)|] == '+'
  {
    if v != "" && v[0] != '-' && v[0] != '+' {
      PlainPrefix(v[1..]);
    }
  }

  lemma SplitCons(c: char, s: string)
    requires c != '.'
    ensures Split([c] + s, '.') == [[c] + Split(s, '.')[0]] + Split(s, '.')[1..]
  {
    assert ([c] + s)[1..] == s;
  }

  lemma SplitDot(s: string)
    ensures Split("." + s, '.') == [""] + Split(s, '.')
  {
    assert ("." + s)[1..] == s;
  }

  /** Same numbers, part by part, in the parts of p. */
  predicate SameNumbers(ps: seq<string>, ss: seq<string>) {
    |ss| >= |ps| && forall i :: 0 <= i < |ps| ==> DigitPrefix(ss[i]) == DigitPrefix(ps[i])
  }

  lemma SameNumbersCons(c: char, ps: seq<string>, ss: seq<string>)
    requires |ps| >= 1 && SameNumbers(ps, ss)
    ensures SameNumbers([[c] + ps[0]] + ps[1..], [[c] + ss[0]] + ss[1..])
  {
    assert ([c] + ps[0])[1..] == ps[0] && ([c] + ss[0])[1..] == ss[0];
    assert DigitPrefix([c] + ps[0]) == DigitPrefix([c] + ss[0]);
  }

  /** Text after a '+' does not change what is read from the parts before it. */
  lemma {:induction false} PartsBeforePlus(p: string, s: string)
    requires p <= s && (|p| < |s| ==> s[|p|] == '+')
    ensures SameNumbers(Split(p, '.'), Split(s, '.'))
  {
    if p == "" {
      if s != "" {
        SplitCons('+', s[1..]);
        assert s == ['+'] + s[1..];
      }
    } else {
      PartsBeforePlus(p[1..], s[1..]);
      assert p == [p[0]] + p[1..] && s == [p[0]] + s[1..];
      if p[0] == '.' {
        SplitDot(p[1..]);
        SplitDot(s[1..]);
      } else {
        SplitCons(p[0], p[1..]);
        SplitCons(p[0], s[1..]);
        SameNumbersCons(p[0], Split(p[1..], '.'), Split(s[1..], '.'));
      }
    }
  }

  lemma PlainCore(v: string)
    requires |Split(Plain(v), '.')| == 3
    ensures var ps := Split(Plain(v), '.');
            Core(v) == [Leading(ps[0]), Leading(ps[1]), Leading(ps[2])]
  {
    PlainPrefix(v);
    PartsBeforePlus(Plain(v), Cut(v, '-').0);
  }

  // ---- updates ----

  datatype Owner = Owner(version: string, publisher: string)

  /** CheckUpdate: whether every check it lists passes. */
  predicate UpdateAccepted(owners: map<string, Owner>, id: string, version: string, publisher: string) {
    id in owners ==>
      && Compare(version, owners[id].version) >= 0
      && owners[id].publisher != ""
      && (publisher == "" || publisher == owners[id].publisher)
  }

  method CheckUpdate(owners: map<string, Owner>, id: string, version: string, publisher: string)
    returns (checks: seq<bool>)
    ensures (forall i :: 0 <= i < |checks| ==> checks[i]) <==> UpdateAccepted(owners, id, version, publisher)
  {
    if id !in owners {
      return [true];
    }
    var owner := owners[id];
    var c := CompareSemver(version, owner.version);
    checks := [c >= 0];
    var pinned := if owner.publisher == "" then false
                  else if publisher == "" then true
                  else publisher == owner.publisher;
    checks := checks + [pinned];
    assert checks[0] == (c >= 0) && checks[1] == pinned;
  }

  /** What is submitted; publisher is "" when the signer is not known yet. */
  datatype Submission = Submission(id: string, version: string, publisher: string)

  /** A submission and the key that then signs what is published. */
  datatype Update = Update(sub: Submission, signer: string)

  predicate Accepted(o: map<string, Owner>, sub: Submission) {
    UpdateAccepted(o, sub.id, sub.version, sub.publisher)
  }

  /** A publisher that is named is the signer. */
  predicate Consistent(sub: Submission, signer: string) {
    sub.publisher != "" ==> signer == sub.publisher
  }

  /** The catalogue after a run of submissions, each published if its checks pass. */
  function Publish(owners: map<string, Owner>, us: seq<Update>): map<string, Owner> {
    if us == [] then owners else PublishOne(Publish(owners, us[..|us| - 1]), us[|us| - 1])
  }

  function PublishOne(o: map<string, Owner>, u: Update): map<string, Owner> {
    if Accepted(o, u.sub) then o[u.sub.id := Owner(u.sub.version, u.signer)] else o
  }

  /** id is still published, at a version no lower. */
  predicate NotLower(o: map<string, Owner>, o': map<string, Owner>, id: string) {
    id in o ==> id in o' && Compare(o[id].version, o'[id].version) <= 0
  }

  lemma NotLowerByOne(o: map<string, Owner>, u: Update, id: string)
    ensures NotLower(o, PublishOne(o, u), id)
  {
    if id in o {
      CompareAntisymmetric(o[id].version, o[id].version);
      CompareAntisymmetric(o[id].version, u.sub.version);
    }
  }

  lemma NotLowerTransitive(o: map<string, Owner>, o': map<string, Owner>, o'': map<string, Owner>, id: string)
    requires NotLower(o, o', id) && NotLower(o', o'', id)
    ensures NotLower(o, o'', id)
  {
    if id in o {
      CompareTransitive(o[id].version, o'[id].version, o''[id].version);
    }
  }

  lemma RunOneMore(owners: map<string, Owner>, us: seq<Update>, more: seq<Update>)
    requires more != []
    ensures var n := |more| - 1;
            Publish(owners, us + more) == PublishOne(Publish(owners, us + more[..n]), more[n])
  {
    var n := |more| - 1;
    assert (us + more)[..|us + more| - 1] == us + more[..n];
  }

  /** Along any run of submissions an id's published version never decreases. */
  lemma {:induction false} NeverDowngraded(owners: map<string, Owner>, us: seq<Update>, more: seq<Update>, id: string)
    ensures NotLower(Publish(owners, us), Publish(owners, us + more), id)
  {
    var o := Publish(owners, us);
    if more == [] {
      assert us + more == us;
      if id in o {
        CompareAntisymmetric(o[id].version, o[id].version);
      }
    } else {
      var n := |more| - 1;
      var o' := Publish(owners, us + more[..n]);
      NeverDowngraded(owners, us, more[..n], id);
      NotLowerByOne(o', more[n], id);
      NotLowerTransitive(o, o', PublishOne(o', more[n]), id);
      RunOneMore(owners, us, more);
    }
  }

  /**
   An accepted update is sure to keep the publisher pin, whichever key signs it consistently with
   what was submitted, exactly when the submission named its publisher.
   */
  lemma PinSurvivesIff(o: map<string, Owner>, sub: Submission)
    requires sub.id in o && Accepted(o, sub)
    ensures sub.publisher != ""
       <==> forall signer :: Consistent(sub, signer) ==>
              PublishOne(o, Update(sub, signer))[sub.id].publisher == o[sub.id].publisher
  {
    if sub.publisher == "" {
      var other := o[sub.id].publisher + "'";
      assert Consistent(sub, other) && PublishOne(o, Update(sub, other))[sub.id].publisher == other;
    }
  }

  function Sign(subs: seq<Submission>, signers: seq<string>): seq<Update>
    requires |subs| == |signers|
  {
    seq(|subs|, n requires 0 <= n < |subs| => Update(subs[n], signers[n]))
  }

  ghost predicate AllConsistent(subs: seq<Submission>, signers: seq<string>) {
    |subs| == |signers| && forall n :: 0 <= n < |subs| ==> Consistent(subs[n], signers[n])
  }

  /** Throughout the run id is published under this pin. */
  ghost predicate PinHeld(owners: map<string, Owner>, us: seq<Update>, id: string, pin: string) {
    forall n :: 0 <= n <= |us| ==> PinIs(Publish(owners, us[..n]), id, pin)
  }

  predicate PinIs(o: map<string, Owner>, id: string, pin: string) {
    id in o && o[id].publisher == pin
  }

  /** While id is at version v under this pin, the submission of it is accepted. */
  predicate Moves(id: string, v: string, pin: string, sub: Submission) {
    sub.id == id && Compare(sub.version, v) >= 0 && pin != "" && (sub.publisher == "" || sub.publisher == pin)
  }

  /** The version of id after the submissions, while its pin holds. */
  function VersionAfter(id: string, v: string, pin: string, subs: seq<Submission>): string {
    if subs == [] then v
    else
      var before := VersionAfter(id, v, pin, subs[..|subs| - 1]);
      var sub := subs[|subs| - 1];
      if Moves(id, before, pin, sub) then sub.version else before
  }

  /** The n-th submission is one of id that is accepted while the pin holds. */
  predicate MovesAt(id: string, owner: Owner, subs: seq<Submission>, n: nat)
    requires n < |subs|
  {
    Moves(id, VersionAfter(id, owner.version, owner.publisher, subs[..n]), owner.publisher, subs[n])
  }

  /** Every accepted submission of id names its publisher. */
  ghost predicate AllNamed(id: string, owner: Owner, subs: seq<Submission>) {
    forall n :: 0 <= n < |subs| && MovesAt(id, owner, subs, n) ==> subs[n].publisher != ""
  }

  /** One submission, on a catalogue that has id at version v under the pin. */
  lemma EntryStep(o: map<string, Owner>, id: string, v: string, pin: string, u: Update)
    requires id in o && o[id] == Owner(v, pin)
    ensures id in PublishOne(o, u)
    ensures PublishOne(o, u)[id] == if Moves(id, v, pin, u.sub) then Owner(u.sub.version, u.signer) else Owner(v, pin)
  {
  }

  /** Signed by the pin wherever it is accepted, id goes through the versions VersionAfter tells. */
  lemma {:induction false} EntryAt(owners: map<string, Owner>, subs: seq<Submission>, signers: seq<string>, id: string,
                                   n: nat)
    requires id in owners && |subs| == |signers| && n <= |subs|
    requires forall j :: 0 <= j < n && MovesAt(id, owners[id], subs, j) ==> signers[j] == owners[id].publisher
    ensures var o := Publish(owners, Sign(subs, signers)[..n]);
            var pin := owners[id].publisher;
            id in o && o[id] == Owner(VersionAfter(id, owners[id].version, pin, subs[..n]), pin)
  {
    if n > 0 {
      var m := n - 1;
      var us := Sign(subs, signers);
      EntryAt(owners, subs, signers, id, m);
      assert us[..n][..m] == us[..m] && subs[..n][..m] == subs[..m];
      EntryStep(Publish(owners, us[..m]), id, VersionAfter(id, owners[id].version, owners[id].publisher, subs[..m]),
                owners[id].publisher, us[m]);
    }
  }

  /** Signed by someone else where it is accepted, id loses its pin. */
  lemma PinLost(owners: map<string, Owner>, subs: seq<Submission>, id: string, n: nat) returns (signers: seq<string>)
    requires id in owners && n < |subs| && MovesAt(id, owners[id], subs, n) && subs[n].publisher == ""
    ensures AllConsistent(subs, signers) && !PinHeld(owners, Sign(subs, signers), id, owners[id].publisher)
  {
    var pin := owners[id].publisher;
    signers := seq(|subs|, j requires 0 <= j < |subs| =>
      if subs[j].publisher != "" then subs[j].publisher else if j < n then pin else pin + "'");
    EntryAt(owners, subs, signers, id, n);
    var us := Sign(subs, signers);
    LosesOne(Publish(owners, us[..n]), id, VersionAfter(id, owners[id].version, pin, subs[..n]), pin, us[n]);
    LostThere(owners, us, id, pin, n);
  }

  lemma LosesOne(o: map<string, Owner>, id: string, v: string, pin: string, u: Update)
    requires id in o && o[id] == Owner(v, pin) && Moves(id, v, pin, u.sub) && u.signer != pin
    ensures !PinIs(PublishOne(o, u), id, pin)
  {
  }

  lemma LostThere(owners: map<string, Owner>, us: seq<Update>, id: string, pin: string, n: nat)
    requires n < |us| && !PinIs(PublishOne(Publish(owners, us[..n]), us[n]), id, pin)
    ensures !PinHeld(owners, us, id, pin)
  {
    assert us[..n + 1][..n] == us[..n];
    assert !PinIs(Publish(owners, us[..n + 1]), id, pin);
  }

  /**
   A pin survives a run of submissions, however they are then signed consistently with what was
   submitted, exactly when every submission of the id that gets accepted names its publisher.
   */
  lemma PinHeldIff(owners: map<string, Owner>, subs: seq<Submission>, id: string)
    requires id in owners
    ensures AllNamed(id, owners[id], subs)
       <==> forall signers :: AllConsistent(subs, signers) ==>
              PinHeld(owners, Sign(subs, signers), id, owners[id].publisher)
  {
    if AllNamed(id, owners[id], subs) {
      forall signers | AllConsistent(subs, signers)
        ensures PinHeld(owners, Sign(subs, signers), id, owners[id].publisher)
      {
        forall n | 0 <= n <= |subs| ensures PinIs(Publish(owners, Sign(subs, signers)[..n]), id, owners[id].publisher) {
          EntryAt(owners, subs, signers, id, n);
        }
      }
    } else {
      var n :| 0 <= n < |subs| && MovesAt(id, owners[id], subs, n) && subs[n].publisher == "";
      var signers := PinLost(owners, subs, id, n);
    }
  }

  /** The characters of an identifier are those of section 9 of the standard. */
  lemma WordCharacters(c: char)
    ensures IsWord([c]) <==> 'A' <= c <= 'Z' || 'a' <= c <= 'z' || c == '-'
    ensures IsWord(['a', c]) <==> 'A' <= c <= 'Z' || 'a' <= c <= 'z' || c == '-' || '0' <= c <= '9'
  {
    assert !IsDigit(['a', c][0]);
    assert [c][0] == c && ['a', c][1] == c;
  }
}
