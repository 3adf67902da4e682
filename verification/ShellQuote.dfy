/**
 Rendering an argument list for a POSIX shell: each argument in single quotes, an embedded quote as
 quote, backslash, quote, quote. The reader below is the quoting of the Shell Command Language
 (IEEE Std 1003.1), sections 2.2.1 (backslash) and 2.2.2 (single quotes), with blank-separated words.
 */
module ShellQuote {
  import opened Text

  const ESCAPED_QUOTE := "'\\''"

  /** strings.ReplaceAll(a, "'", `'\''`). */
  function Escape(a: string): string {
    if a == "" then "" else (if a[0] == '\'' then ESCAPED_QUOTE else [a[0]]) + Escape(a[1..])
  }

  function Quote(a: string): string {
    "'" + Escape(a) + "'"
  }

  function Joined(parts: seq<string>): string {
    if parts == [] then "" else Join(parts, ' ')
  }

  method ShJoin(args: seq<string>) returns (line: string)
    ensures line == Joined(Quoted(args))
    ensures Words(line, None, false) == Some(args)
  {
    var parts := [];
    for i := 0 to |args|
      invariant parts == Quoted(args[..i])
    {
      parts := parts + ["'" + Escape(args[i]) + "'"];
      assert args[..i + 1][..i] == args[..i];
    }
    assert args[..|args|] == args;
    ReadsBack(args);
    return Joined(parts);
  }

  function Quoted(args: seq<string>): seq<string> {
    seq(|args|, i requires 0 <= i < |args| => Quote(args[i]))
  }

  /** Characters with a meaning of their own when unquoted; a line that uses one is not plain words. */
  predicate Special(c: char) {
    c in "\"$`|&;<>()*?[#~=%{}!\n"
  }

  /**
   The words of a command line: word is the one being built, if any, and quoted says whether single
   quotes are open. None if quotes stay open, a backslash ends the line, or a special character is bare.
   */
  function Words(s: string, word: Option<string>, quoted: bool): Option<seq<string>>
    decreases |s|
  {
    var w := if word.Some? then word.value else "";
    if s == "" then
      if quoted then None else Some(if word.Some? then [w] else [])
    else if quoted then
      if s[0] == '\'' then Words(s[1..], Some(w), false) else Words(s[1..], Some(w + [s[0]]), true)
    else if s[0] == '\'' then Words(s[1..], Some(w), true)
    else if s[0] == '\\' then
      if |s| == 1 then None
      else if s[1] == '\n' then Words(s[2..], word, false)
      else Words(s[2..], Some(w + [s[1]]), false)
    else if s[0] == ' ' || s[0] == '\t' then
      match Words(s[1..], None, false)
      case None => None
      case Some(rest) => Some(if word.Some? then [w] + rest else rest)
    else if Special(s[0]) then None
    else Words(s[1..], Some(w + [s[0]]), false)
  }

  /** Inside quotes, an escaped argument adds exactly the argument to the word. */
  lemma {:induction false} ReadEscaped(a: string, w: string, rest: string)
    ensures Words(Escape(a) + rest, Some(w), true) == Words(rest, Some(w + a), true)
  {
    var s := Escape(a) + rest;
    if a == "" {
      assert s == rest && w + a == w;
    } else {
      var tail := Escape(a[1..]) + rest;
      ReadEscaped(a[1..], w + [a[0]], rest);
      assert w + [a[0]] + a[1..] == w + a;
      if a[0] == '\'' {
        assert s == ESCAPED_QUOTE + tail;
        assert s[1..] == "\\''" + tail;
        assert s[1..][2..] == "'" + tail;
        assert ("'" + tail)[1..] == tail;
        assert Words(s, Some(w), true) == Words(s[1..], Some(w), false);
        assert Words(s[1..], Some(w), false) == Words("'" + tail, Some(w + ['\'']), false);
        assert Words("'" + tail, Some(w + ['\'']), false) == Words(tail, Some(w + ['\'']), true);
      } else {
        assert s == [a[0]] + tail && s[1..] == tail;
      }
    }
  }

  lemma ReadQuoted(a: string, rest: string)
    ensures Words(Quote(a) + rest, None, false) == Words(rest, Some(a), false)
  {
    var s := Quote(a) + rest;
    assert s[1..] == Escape(a) + ("'" + rest);
    assert Words(s, None, false) == Words(s[1..], Some(""), true);
    ReadEscaped(a, "", "'" + rest);
    assert "" + a == a;
    assert ("'" + rest)[1..] == rest;
  }

  /** The shell reads back exactly the arguments, empty ones and ones full of quotes included. */
  lemma {:induction false} ReadsBack(args: seq<string>)
    ensures Words(Joined(Quoted(args)), None, false) == Some(args)
  {
    if |args| == 1 {
      assert Quoted(args) == [Quote(args[0])];
      ReadQuoted(args[0], "");
      assert Quote(args[0]) + "" == Quote(args[0]);
      assert args == [args[0]];
    } else if |args| > 1 {
      var tail := Joined(Quoted(args[1..]));
      ReadsBack(args[1..]);
      assert Quoted(args)[1..] == Quoted(args[1..]);
      assert Joined(Quoted(args)) == Quote(args[0]) + " " + tail;
      assert Quote(args[0]) + " " + tail == Quote(args[0]) + (" " + tail);
      ReadQuoted(args[0], " " + tail);
      assert (" " + tail)[1..] == tail;
      assert args == [args[0]] + args[1..];
    }
  }

  /** Each further argument follows after one space. */
  lemma {:induction false} OneMore(args: seq<string>, a: string)
    requires args != []
    ensures Joined(Quoted(args + [a])) == Joined(Quoted(args)) + " " + Quote(a)
  {
    var more := args + [a];
    if |args| == 1 {
      var parts := Quoted(more);
      assert Join(parts, ' ') == parts[0] + [' '] + Join(parts[1..], ' ');
      assert parts[1..] == [Quote(a)];
      assert Join([Quote(a)], ' ') == Quote(a) && Join([Quote(args[0])], ' ') == Quote(args[0]);
      assert Quoted(args) == [Quote(args[0])];
    } else {
      OneMore(args[1..], a);
      assert more[1..] == args[1..] + [a];
      assert Quoted(more)[1..] == Quoted(more[1..]) && Quoted(args)[1..] == Quoted(args[1..]);
      assert Quote(args[0]) + [' '] + (Joined(Quoted(args[1..])) + " " + Quote(a))
          == (Quote(args[0]) + [' '] + Joined(Quoted(args[1..]))) + " " + Quote(a);
    }
  }
}
