/**
 Text primitives shared by the models: decimal numerals, splitting and joining on a
 separator, and lexicographic comparison lifted from an element comparison.
 */
module Text {

  datatype Option<+T> = None | Some(value: T) {
    function GetOr(default: T): T {
      if Some? then value else default
    }
  }

  // ---- decimal numerals ----

  predicate IsDigit(c: char) {
    '0' <= c <= '9'
  }

  predicate AllDigits(s: string) {
    forall i :: 0 <= i < |s| ==> IsDigit(s[i])
  }

  function DigitValue(c: char): nat
    requires IsDigit(c)
  {
    c as int - '0' as int
  }

  /** The number an all-digit string denotes; leading zeros are allowed and "" is 0. */
  function Value(s: string): nat
    requires AllDigits(s)
  {
    if s == "" then 0 else Value(s[..|s| - 1]) * 10 + DigitValue(s[|s| - 1])
  }

  /** strconv.Itoa on a non-negative number. */
  function Itoa(n: nat): (s: string)
    ensures s != "" && AllDigits(s) && Value(s) == n
  {
    var last := [('0' as int + n % 10) as char];
    if n < 10 then last else Itoa(n / 10) + last
  }

  /** The longest all-digit prefix, which is all that the hand-written atoi loops read. */
  function DigitPrefix(s: string): (p: string)
    ensures AllDigits(p) && p <= s
    ensures |p| < |s| ==> !IsDigit(s[|p|])
  {
    if s == "" || !IsDigit(s[0]) then "" else
      var rest := DigitPrefix(s[1..]);
      assert s == [s[0]] + s[1..];
      [s[0]] + rest
  }

  lemma {:induction false} DigitPrefixUnique(s: string, p: string)
    requires AllDigits(p) && p <= s
    requires |p| < |s| ==> !IsDigit(s[|p|])
    ensures DigitPrefix(s) == p
  {
    var q := DigitPrefix(s);
    assert forall i :: 0 <= i < |p| ==> IsDigit(s[i]) && s[i] == p[i];
    assert forall i :: 0 <= i < |q| ==> IsDigit(s[i]) && s[i] == q[i];
  }

  // ---- split and join ----

  /** strings.Split: never empty, and no part contains the separator. */
  function Split(s: string, sep: char): (parts: seq<string>)
    ensures |parts| >= 1
    ensures forall i :: 0 <= i < |parts| ==> sep !in parts[i]
  {
    if s == "" then [""]
    else
      var rest := Split(s[1..], sep);
      if s[0] == sep then [""] + rest else [[s[0]] + rest[0]] + rest[1..]
  }

  function Join(parts: seq<string>, sep: char): string
    requires |parts| >= 1
  {
    if |parts| == 1 then parts[0] else parts[0] + [sep] + Join(parts[1..], sep)
  }

  lemma {:induction false} SplitWhole(p: string, sep: char)
    requires sep !in p
    ensures Split(p, sep) == [p]
  {
    if p != "" {
      SplitWhole(p[1..], sep);
      assert p[0] in p && p == [p[0]] + p[1..];
    }
  }

  lemma {:induction false} SplitFirst(p: string, sep: char, s: string)
    requires sep !in p
    ensures Split(p + [sep] + s, sep) == [p] + Split(s, sep)
  {
    var whole := p + [sep] + s;
    if p == "" {
      assert whole[1..] == s;
    } else {
      SplitFirst(p[1..], sep, s);
      assert p[0] in p && p == [p[0]] + p[1..];
      assert whole[1..] == p[1..] + [sep] + s;
    }
  }

  /** Splitting undoes joining whenever no part contains the separator. */
  lemma {:induction false} SplitJoin(parts: seq<string>, sep: char)
    requires |parts| >= 1
    requires forall i :: 0 <= i < |parts| ==> sep !in parts[i]
    ensures Split(Join(parts, sep), sep) == parts
  {
    if |parts| == 1 {
      SplitWhole(parts[0], sep);
    } else {
      SplitJoin(parts[1..], sep);
      SplitFirst(parts[0], sep, Join(parts[1..], sep));
    }
  }

  /** Joining undoes splitting. */
  lemma {:induction false} JoinSplit(s: string, sep: char)
    ensures Join(Split(s, sep), sep) == s
  {
    if s != "" {
      JoinSplit(s[1..], sep);
      var rest := Split(s[1..], sep);
      assert s == [s[0]] + s[1..];
      if s[0] == sep {
        assert ([""] + rest)[1..] == rest;
      } else if |rest| > 1 {
        var head := [s[0]] + rest[0];
        assert ([head] + rest[1..])[1..] == rest[1..];
        assert Join([head] + rest[1..], sep) == [s[0]] + (rest[0] + [sep] + Join(rest[1..], sep));
      }
    }
  }

  /** strings.Cut and strings.SplitN(s, sep, 2): what precedes the first separator, and what follows it. */
  function Cut(s: string, sep: char): (r: (string, Option<string>))
    ensures sep !in r.0
    ensures s == if r.1.Some? then r.0 + [sep] + r.1.value else r.0
  {
    if s == "" then ("", None)
    else if s[0] == sep then ("", Some(s[1..]))
    else
      var (before, after) := Cut(s[1..], sep);
      assert s == [s[0]] + s[1..];
      ([s[0]] + before, after)
  }

  lemma CutCons(c: char, s: string, sep: char)
    ensures Cut([c] + s, sep) == if c == sep then ("", Some(s)) else ([c] + Cut(s, sep).0, Cut(s, sep).1)
  {
    assert ([c] + s)[1..] == s;
  }

  lemma {:induction false} CutFirst(p: string, sep: char, s: string)
    requires sep !in p
    ensures Cut(p + [sep] + s, sep) == (p, Some(s))
  {
    var whole := p + [sep] + s;
    if p == "" {
      assert whole == [sep] + s;
      CutCons(sep, s, sep);
    } else {
      var rest := p[1..] + [sep] + s;
      CutFirst(p[1..], sep, s);
      assert p[0] in p && p == [p[0]] + p[1..];
      assert whole == [p[0]] + rest;
      CutCons(p[0], rest, sep);
    }
  }

  lemma {:induction false} CutWhole(p: string, sep: char)
    requires sep !in p
    ensures Cut(p, sep) == (p, None)
  {
    if p != "" {
      CutWhole(p[1..], sep);
      assert p[0] in p && p == [p[0]] + p[1..];
    }
  }

  // ---- comparisons ----

  /** A three-way comparison that behaves like a total preorder. */
  ghost predicate IsOrder<T(!new)>(cmp: (T, T) -> int) {
    && (forall x, y :: -1 <= cmp(x, y) <= 1 && cmp(x, y) == -cmp(y, x))
    && (forall x, y, z :: cmp(x, y) <= 0 && cmp(y, z) <= 0 ==> cmp(x, z) <= 0)
  }

  function CompareInt(x: int, y: int): int {
    if x < y then -1 else if x > y then 1 else 0
  }

  function CompareChar(x: char, y: char): int {
    if x < y then -1 else if x > y then 1 else 0
  }

  /** Element by element; when one runs out first it is the smaller. */
  function Lex<T>(cmp: (T, T) -> int, a: seq<T>, b: seq<T>): int {
    if a == [] then (if b == [] then 0 else -1)
    else if b == [] then 1
    else if cmp(a[0], b[0]) != 0 then cmp(a[0], b[0])
    else Lex(cmp, a[1..], b[1..])
  }

  lemma {:induction false} LexAntisymmetric<T(!new)>(cmp: (T, T) -> int, a: seq<T>, b: seq<T>)
    requires IsOrder(cmp)
    ensures -1 <= Lex(cmp, a, b) <= 1 && Lex(cmp, a, b) == -Lex(cmp, b, a)
  {
    if a != [] && b != [] {
      assert cmp(a[0], b[0]) == -cmp(b[0], a[0]);
      LexAntisymmetric(cmp, a[1..], b[1..]);
    }
  }

  lemma {:induction false} LexTransitive<T(!new)>(cmp: (T, T) -> int, a: seq<T>, b: seq<T>, c: seq<T>)
    requires IsOrder(cmp)
    requires Lex(cmp, a, b) <= 0 && Lex(cmp, b, c) <= 0
    ensures Lex(cmp, a, c) <= 0
  {
    if a != [] && b != [] && c != [] {
      var x, y, z := a[0], b[0], c[0];
      assert cmp(x, y) == -cmp(y, x) && cmp(y, z) == -cmp(z, y) && cmp(x, z) == -cmp(z, x);
      assert cmp(x, z) <= 0;
      if cmp(x, z) == 0 {
        assert cmp(y, x) <= 0 by { assert cmp(y, z) <= 0 && cmp(z, x) <= 0; }
        assert cmp(z, y) <= 0 by { assert cmp(z, x) <= 0 && cmp(x, y) <= 0; }
        LexTransitive(cmp, a[1..], b[1..], c[1..]);
      }
    }
  }

  lemma LexIsOrder<T(!new)>(cmp: (T, T) -> int)
    requires IsOrder(cmp)
    ensures IsOrder((a: seq<T>, b: seq<T>) => Lex(cmp, a, b))
  {
    var lex := (a: seq<T>, b: seq<T>) => Lex(cmp, a, b);
    forall a, b ensures -1 <= lex(a, b) <= 1 && lex(a, b) == -lex(b, a) {
      LexAntisymmetric(cmp, a, b);
    }
    forall a, b, c | lex(a, b) <= 0 && lex(b, c) <= 0 ensures lex(a, c) <= 0 {
      LexTransitive(cmp, a, b, c);
    }
  }

  /** Byte-wise string order, as Go's < on strings. */
  function CompareText(a: string, b: string): int {
    Lex(CompareChar, a, b)
  }

  predicate TextLess(a: string, b: string) {
    CompareText(a, b) < 0
  }

  lemma {:induction false} CompareTextZero(a: string, b: string)
    ensures CompareText(a, b) == 0 <==> a == b
  {
    if a != [] && b != [] {
      CompareTextZero(a[1..], b[1..]);
      assert a == [a[0]] + a[1..] && b == [b[0]] + b[1..];
    }
  }

  lemma CompareTextOrder()
    ensures IsOrder(CompareText)
  {
    LexIsOrder(CompareChar);
    var lex := (a: seq<char>, b: seq<char>) => Lex(CompareChar, a, b);
    assert forall a, b :: CompareText(a, b) == lex(a, b);
  }

  /** u is before w in byte order: a proper prefix of it, or the smaller where they first differ. */
  predicate Before(u: string, w: string) {
    exists k :: 0 <= k <= |u| && k <= |w| && BeforeAt(u, w, k)
  }

  predicate BeforeAt(u: string, w: string, k: nat)
    requires k <= |u| && k <= |w|
  {
    u[..k] == w[..k] && k < |w| && (k == |u| || u[k] < w[k])
  }

  lemma BeforeTail(u: string, w: string)
    requires u != "" && w != ""
    ensures Before(u, w) <==> u[0] < w[0] || (u[0] == w[0] && Before(u[1..], w[1..]))
  {
    if Before(u, w) {
      var k :| 0 <= k <= |u| && k <= |w| && BeforeAt(u, w, k);
      if k > 0 {
        assert u[..k][0] == w[..k][0] && u[..k][1..] == u[1..][..k - 1] && w[..k][1..] == w[1..][..k - 1];
        assert BeforeAt(u[1..], w[1..], k - 1);
      }
    }
    if u[0] < w[0] {
      assert BeforeAt(u, w, 0);
    } else if u[0] == w[0] && Before(u[1..], w[1..]) {
      var k :| 0 <= k <= |u[1..]| && k <= |w[1..]| && BeforeAt(u[1..], w[1..], k);
      assert u[..k + 1] == [u[0]] + u[1..][..k] && w[..k + 1] == [w[0]] + w[1..][..k];
      assert BeforeAt(u, w, k + 1);
    }
  }

  /** The comparison of texts is byte order. */
  lemma {:induction false} CompareTextMeans(u: string, w: string)
    ensures CompareText(u, w) == if u == w then 0 else if Before(u, w) then -1 else 1
    decreases u
  {
    if u == "" || w == "" {
      if u == "" && w != "" {
        assert BeforeAt(u, w, 0);
      }
    } else {
      CompareTextMeans(u[1..], w[1..]);
      BeforeTail(u, w);
      assert u == [u[0]] + u[1..] && w == [w[0]] + w[1..];
    }
  }
}
