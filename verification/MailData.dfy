/**
 The DATA phase of the mail receiver: read lines up to the lone dot, undo dot-stuffing
 (section 4.5.2 of RFC 5321), and stop keeping lines once the size limit is reached.
 */
module MailData {
  import opened Text

  /** ReadString('\n'): through the next line feed, or nothing if the stream ends first. */
  function NextLine(s: string): (line: Option<string>)
    ensures line.Some? ==> 1 <= |line.value| <= |s| && line.value <= s
  {
    if s == "" then None
    else if s[0] == '\n' then Some("\n")
    else
      match NextLine(s[1..])
      case None => None
      case Some(rest) =>
        assert s == [s[0]] + s[1..];
        Some([s[0]] + rest)
  }

  predicate Terminates(line: string) {
    line == ".\r\n" || line == ".\n"
  }

  function Unstuff(line: string): string {
    if ".." <= line then line[1..] else line
  }

  /** What has been read: the kept text, and how much of the stream it took. */
  datatype Data = Data(text: string, consumed: nat)

  /** The complete lines of a stream, in turn. */
  function Lines(s: string): seq<string>
    decreases |s|
  {
    match NextLine(s)
    case None => []
    case Some(line) => [line] + Lines(s[|line|..])
  }

  /** The loop over lines, with at characters consumed and buf kept so far. */
  function Read(ls: seq<string>, at: nat, buf: string, max: int): Option<Data> {
    if ls == [] then None
    else if Terminates(ls[0]) then Some(Data(buf, at + |ls[0]|))
    else Read(ls[1..], at + |ls[0]|, if |buf| < max then buf + Unstuff(ls[0]) else buf, max)
  }

  method ReadData(stream: string, max: int) returns (r: Option<Data>)
    ensures r == Read(Lines(stream), 0, "", max)
  {
    var buf, at := "", 0;
    assert stream[0..] == stream;
    while true
      invariant 0 <= at <= |stream|
      invariant Read(Lines(stream), 0, "", max) == Read(Lines(stream[at..]), at, buf, max)
      decreases |stream| - at
    {
      var line := NextLine(stream[at..]);
      if line.None? {
        return None;
      }
      var l := line.value;
      ReadCons(stream, at, l, buf, max);
      at := at + |l|;
      if l == ".\r\n" || l == ".\n" {
        return Some(Data(buf, at));
      }
      if ".." <= l {
        l := l[1..];
      }
      if |buf| < max {
        buf := buf + l;
      }
    }
  }

  lemma LinesCons(s: string, line: string)
    requires NextLine(s) == Some(line)
    ensures Lines(s) != [] && Lines(s)[0] == line && Lines(s)[1..] == Lines(s[|line|..])
  {
  }

  lemma ReadCons(s: string, at: nat, line: string, buf: string, max: int)
    requires at <= |s| && NextLine(s[at..]) == Some(line)
    ensures at + |line| <= |s|
    ensures Read(Lines(s[at..]), at, buf, max)
         == if Terminates(line) then Some(Data(buf, at + |line|))
            else Read(Lines(s[at + |line|..]), at + |line|, if |buf| < max then buf + Unstuff(line) else buf, max)
  {
    LinesCons(s[at..], line);
    assert s[at..][|line|..] == s[at + |line|..];
  }

  // ---- a conforming sender ----

  /** A message as its lines, without their CRLF. */
  predicate IsMessage(lines: seq<string>) {
    forall i :: 0 <= i < |lines| ==> '\n' !in lines[i]
  }

  function Content(lines: seq<string>): string {
    if lines == [] then "" else Content(lines[..|lines| - 1]) + lines[|lines| - 1] + "\r\n"
  }

  function Stuff(line: string): string {
    if line != "" && line[0] == '.' then "." + line else line
  }

  /** Dot-stuffed lines, then the lone dot. */
  function Wire(lines: seq<string>): string {
    if lines == [] then ".\r\n" else Stuff(lines[0]) + "\r\n" + Wire(lines[1..])
  }

  lemma {:induction false} LineEnds(body: string, rest: string)
    requires '\n' !in body
    ensures NextLine(body + "\n" + rest) == Some(body + "\n")
  {
    var s := body + "\n" + rest;
    if body != "" {
      LineEnds(body[1..], rest);
      assert body[0] in body && s[1..] == body[1..] + "\n" + rest;
      assert body + "\n" == [body[0]] + (body[1..] + "\n");
    } else {
      assert s[0] == '\n' && body + "\n" == "\n";
    }
  }

  lemma UnstuffStuff(line: string)
    requires '\n' !in line
    ensures Unstuff(Stuff(line) + "\r\n") == line + "\r\n"
    ensures !Terminates(Stuff(line) + "\r\n")
  {
    var wire := Stuff(line) + "\r\n";
    if line != "" && line[0] == '.' {
      assert wire[0] == '.' && wire[1] == '.';
      assert ".." <= wire && wire[1..] == line + "\r\n";
    } else {
      assert wire[0] != '.';
    }
  }

  /** The kept text after lines, given what was kept before them. */
  function KeepFrom(lines: seq<string>, buf: string, max: int): string {
    if lines == [] then buf
    else KeepFrom(lines[1..], if |buf| < max then buf + lines[0] + "\r\n" else buf, max)
  }

  /** The lines a conforming sender puts on the wire. */
  function WireLines(lines: seq<string>): seq<string> {
    if lines == [] then [".\r\n"] else [Stuff(lines[0]) + "\r\n"] + WireLines(lines[1..])
  }

  lemma LinesFirst(body: string, rest: string)
    requires '\n' !in body
    ensures Lines(body + "\n" + rest) == [body + "\n"] + Lines(rest)
  {
    var line := body + "\n";
    LineEnds(body, rest);
    assert (line + rest)[|line|..] == rest;
  }

  lemma {:induction false} LinesOfWire(lines: seq<string>, rest: string)
    requires IsMessage(lines)
    ensures Lines(Wire(lines) + rest) == WireLines(lines) + Lines(rest)
  {
    if lines == [] {
      LinesFirst(".\r", rest);
      assert ".\r" + "\n" == ".\r\n";
    } else {
      var body, tail := Stuff(lines[0]) + "\r", Wire(lines[1..]) + rest;
      WireSplit(lines, rest);
      LinesFirst(body, tail);
      LinesOfWire(lines[1..], rest);
      Regroup([body + "\n"], WireLines(lines[1..]), Lines(rest));
    }
  }

  lemma WireSplit(lines: seq<string>, rest: string)
    requires lines != []
    ensures Wire(lines) + rest == (Stuff(lines[0]) + "\r") + "\n" + (Wire(lines[1..]) + rest)
    ensures WireLines(lines) == [(Stuff(lines[0]) + "\r") + "\n"] + WireLines(lines[1..])
  {
    assert (Stuff(lines[0]) + "\r") + "\n" == Stuff(lines[0]) + "\r\n";
  }

  lemma Regroup<T>(a: seq<T>, b: seq<T>, c: seq<T>)
    ensures (a + b) + c == a + (b + c)
  {
  }

  lemma {:induction false} ReadWire(lines: seq<string>, more: seq<string>, at: nat, buf: string, max: int)
    requires IsMessage(lines)
    ensures Read(WireLines(lines) + more, at, buf, max)
         == Some(Data(KeepFrom(lines, buf, max), at + |Wire(lines)|))
    decreases |lines|
  {
    var ls := WireLines(lines) + more;
    if lines == [] {
      assert ls[0] == ".\r\n";
    } else {
      var line := Stuff(lines[0]) + "\r\n";
      Regroup([line], WireLines(lines[1..]), more);
      assert ls[0] == line && ls[1..] == WireLines(lines[1..]) + more;
      UnstuffStuff(lines[0]);
      assert buf + (lines[0] + "\r\n") == buf + lines[0] + "\r\n";
      ReadWire(lines[1..], more, at + |line|, if |buf| < max then buf + lines[0] + "\r\n" else buf, max);
    }
  }

  /** How many lines are kept: the fewest whose text reaches max, or all of them. */
  lemma {:induction false} KeptLines(lines: seq<string>, n: nat, max: int) returns (k: nat)
    requires n <= |lines|
    requires forall j :: 0 <= j < n ==> |Content(lines[..j])| < max
    ensures n <= k <= |lines|
    ensures KeepFrom(lines[n..], Content(lines[..n]), max) == Content(lines[..k])
    ensures k == |lines| || |Content(lines[..k])| >= max
    ensures forall j :: 0 <= j < k ==> |Content(lines[..j])| < max
    decreases |lines| - n
  {
    k := n;
    if n < |lines| {
      assert lines[n..][1..] == lines[n + 1..];
      assert lines[..n + 1][..n] == lines[..n];
      if |Content(lines[..n])| < max {
        k := KeptLines(lines, n + 1, max);
      } else {
        KeepNothing(lines[n..], Content(lines[..n]), max);
      }
    }
  }

  lemma {:induction false} KeepNothing(lines: seq<string>, buf: string, max: int)
    requires |buf| >= max
    ensures KeepFrom(lines, buf, max) == buf
  {
    if lines != [] {
      KeepNothing(lines[1..], buf, max);
    }
  }

  lemma {:induction false} TextGrows(lines: seq<string>, j: nat)
    requires j < |lines|
    ensures |Content(lines[..j])| < |Content(lines)|
  {
    var n := |lines| - 1;
    if j < n {
      TextGrows(lines[..n], j);
      assert lines[..n][..j] == lines[..j];
    }
  }

  /**
   A conforming transmission is read exactly through its terminator. What comes back is the
   original when it fits max, and otherwise its shortest whole-line prefix that reaches max.
   */
  lemma ReadsBack(lines: seq<string>, max: int, rest: string) returns (k: nat)
    requires IsMessage(lines)
    ensures k <= |lines|
    ensures Read(Lines(Wire(lines) + rest), 0, "", max) == Some(Data(Content(lines[..k]), |Wire(lines)|))
    ensures |Content(lines)| <= max ==> Content(lines[..k]) == Content(lines)
    ensures k < |lines| ==> |Content(lines[..k])| >= max
    ensures forall j :: 0 <= j < k ==> |Content(lines[..j])| < max
  {
    LinesOfWire(lines, rest);
    ReadWire(lines, Lines(rest), 0, "", max);
    assert lines[0..] == lines && Content(lines[..0]) == "";
    k := KeptLines(lines, 0, max);
    if k < |lines| {
      TextGrows(lines, k);
    } else {
      assert lines[..k] == lines;
    }
  }
}
