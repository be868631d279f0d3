// Output of a tmux control-mode client: escaping, lines, and an incremental reader.
module ControlStream {
  import opened Common

  const BACKSLASH: byte := 0x5C
  const NEWLINE: byte := 0x0A
  const RETURN: byte := 0x0D

  // ----- Escaping -----

  predicate IsOctal(b: byte) {
    0x30 <= b <= 0x37
  }

  predicate IsEscape(s: seq<byte>) {
    |s| >= 4 && s[0] == BACKSLASH && IsOctal(s[1]) && IsOctal(s[2]) && IsOctal(s[3])
  }

  // The low eight bits of three octal digits.
  function OctalByte(a: byte, b: byte, c: byte): byte
    requires IsOctal(a) && IsOctal(b) && IsOctal(c)
  {
    ((a as int - 0x30) * 64 + (b as int - 0x30) * 8 + (c as int - 0x30)) % 256
  }

  // The byte that begins an escaped stream, and how many bytes spell it.
  function FirstByte(s: seq<byte>): (r: (byte, nat))
    requires s != []
    ensures 1 <= r.1 <= |s|
  {
    if IsEscape(s) then (OctalByte(s[1], s[2], s[3]), 4) else (s[0], 1)
  }

  function Unescaped(s: seq<byte>): seq<byte> {
    if s == [] then [] else [FirstByte(s).0] + Unescaped(s[FirstByte(s).1..])
  }

  lemma UnescapeStep(escaped: seq<byte>, index: nat, out: seq<byte>)
    requires index < |escaped| && out + Unescaped(escaped[index..]) == Unescaped(escaped)
    ensures var (b, n) := FirstByte(escaped[index..]);
      index + n <= |escaped| && (out + [b]) + Unescaped(escaped[index + n..]) == Unescaped(escaped)
  {
    hide FirstByte;
    var left := escaped[index..];
    var (b, n) := FirstByte(left);
    assert escaped[index + n..] == left[n..];
    Assoc(out, [b], Unescaped(left[n..]));
  }

  method DecodeControlOutput(escaped: seq<byte>) returns (out: seq<byte>)
    ensures out == Unescaped(escaped)
  {
    hide Unescaped;
    out := [];
    var index := 0;
    NothingFirst(Unescaped(escaped));
    while index < |escaped|
      invariant index <= |escaped|
      invariant out + Unescaped(escaped[index..]) == Unescaped(escaped)
    {
      var left := escaped[index..];
      UnescapeStep(escaped, index, out);
      if IsEscape(left) {
        out := out + [OctalByte(left[1], left[2], left[3])];
        index := index + 4;
        continue;
      }
      out := out + [left[0]];
      index := index + 1;
    }
    NothingLeft(escaped, index, out);
  }

  lemma NothingFirst<T>(s: seq<T>)
    ensures [] + s == s
  {
  }

  lemma NothingLeft(escaped: seq<byte>, index: nat, out: seq<byte>)
    requires index == |escaped| && out + Unescaped(escaped[index..]) == Unescaped(escaped)
    ensures out == Unescaped(escaped)
  {
  }

  // tmux escapes control bytes and the backslash.
  function EscapeByte(b: byte): seq<byte> {
    if b < 0x20 || b == BACKSLASH then [BACKSLASH, 0x30 + b / 64, 0x30 + b / 8 % 8, 0x30 + b % 8] else [b]
  }

  function Escape(payload: seq<byte>): seq<byte> {
    if payload == [] then [] else EscapeByte(payload[0]) + Escape(payload[1..])
  }

  lemma UnescapeFirst(b: byte, rest: seq<byte>)
    ensures Unescaped(EscapeByte(b) + rest) == [b] + Unescaped(rest)
  {
    FirstOfEscaped(b, rest);
    hide FirstByte, EscapeByte;
    assert (EscapeByte(b) + rest)[|EscapeByte(b)|..] == rest;
  }

  lemma FirstOfEscaped(b: byte, rest: seq<byte>)
    ensures EscapeByte(b) != [] && FirstByte(EscapeByte(b) + rest) == (b, |EscapeByte(b)|)
  {
    if b < 0x20 || b == BACKSLASH {
      OctalDigits(b);
      EscapeSpells(0x30 + b / 64, 0x30 + b / 8 % 8, 0x30 + b % 8, rest);
    }
  }

  lemma EscapeSpells(x: byte, y: byte, z: byte, rest: seq<byte>)
    requires IsOctal(x) && IsOctal(y) && IsOctal(z)
    ensures FirstByte([BACKSLASH, x, y, z] + rest) == (OctalByte(x, y, z), 4)
  {
    hide OctalByte;
  }

  lemma OctalDigits(b: byte)
    requires b < 128
    ensures OctalByte(0x30 + b / 64, 0x30 + b / 8 % 8, 0x30 + b % 8) == b
  {
    var v := b as int;
    assert v / 64 * 64 + v / 8 % 8 * 8 + v % 8 == v;
  }

  lemma {:induction false} UnescapeInverts(payload: seq<byte>)
    ensures Unescaped(Escape(payload)) == payload
    ensures forall i :: 0 <= i < |Escape(payload)| ==> Escape(payload)[i] >= 0x20
  {
    if payload != [] {
      UnescapeInverts(payload[1..]);
      UnescapeFirst(payload[0], Escape(payload[1..]));
    }
  }

  // Unescaping, byte by byte: a backslash and three octal digits stand for the low eight bits of their number, and
  // any other byte, a backslash included, stands for itself.
  lemma UnescapedSpelled(s: seq<byte>)
    requires s != []
    ensures Unescaped([]) == []
    ensures |s| >= 4 && s[0] == 0x5C && (forall i :: 1 <= i <= 3 ==> 0x30 <= s[i] <= 0x37) ==>
      Unescaped(s) == [((s[1] as int - 0x30) * 64 + (s[2] as int - 0x30) * 8 + (s[3] as int - 0x30)) % 256] + Unescaped(s[4..])
    ensures !(|s| >= 4 && s[0] == 0x5C && forall i :: 1 <= i <= 3 ==> 0x30 <= s[i] <= 0x37) ==>
      Unescaped(s) == [s[0]] + Unescaped(s[1..])
  {
    assert IsEscape(s) <==> |s| >= 4 && s[0] == 0x5C && forall i :: 1 <= i <= 3 ==> 0x30 <= s[i] <= 0x37;
  }

  // ----- Lines -----

  function Ascii(s: string): (r: seq<byte>)
    ensures |r| == |s|
  {
    seq(|s|, i requires 0 <= i < |s| => if s[i] < 128 as char then s[i] as byte else 0x3F)
  }

  const OUTPUT: seq<byte> := Ascii("%output ")
  const EXTENDED: seq<byte> := Ascii("%extended-output ")
  const SEPARATOR: seq<byte> := Ascii(" : ")
  const PAUSE: seq<byte> := Ascii("%pause ")
  const EXIT: seq<byte> := Ascii("%exit")
  const SPACE: seq<byte> := Ascii(" ")

  // line.rstrip(b"\r\n")
  function RStrip(line: seq<byte>): seq<byte> {
    if line != [] && line[|line| - 1] in {RETURN, NEWLINE} then RStrip(line[..|line| - 1]) else line
  }

  function ParseControlLine(line: seq<byte>, pane: seq<byte>): Option<seq<byte>> {
    var prefix, extended := OUTPUT + pane + SPACE, EXTENDED + pane + SPACE;
    if prefix <= line then Some(Unescaped(RStrip(line[|prefix|..])))
    else if extended <= line && Find(line, SEPARATOR, 0) >= 0 then
      Some(Unescaped(RStrip(line[Find(line, SEPARATOR, 0) + |SEPARATOR|..])))
    else None
  }

  // A line without output of the pane: it is no line of this pane in either notation, or it has no separator.
  lemma NothingForPane(line: seq<byte>, pane: seq<byte>)
    ensures ParseControlLine(line, pane).None? <==>
      && !(OUTPUT + pane + SPACE <= line)
      && (EXTENDED + pane + SPACE <= line ==> forall i :: !OccursAt(line, SEPARATOR, i))
  {
    hide Ascii, Unescaped, RStrip, OccursAt;
    var at := Find(line, SEPARATOR, 0);
    assert at >= 0 ==> OccursAt(line, SEPARATOR, at);
    assert at < 0 ==> forall i :: OccursAt(line, SEPARATOR, i) ==> i >= 0 by {
      OnlyInside(line, SEPARATOR);
    }
  }

  lemma OnlyInside(s: seq<byte>, sub: seq<byte>)
    ensures forall i :: OccursAt(s, sub, i) ==> i >= 0
  {
  }

  // Output of another pane, in either notation, gives nothing.
  lemma OtherPanesGiveNothing(pane: seq<byte>, name: seq<byte>, rest: seq<byte>)
    requires name != pane && SPACE[0] !in name && SPACE[0] !in pane
    ensures ParseControlLine(OUTPUT + name + SPACE + rest, pane) == None
    ensures ParseControlLine(EXTENDED + name + SPACE + rest, pane) == None
  {
    StartsDiffer();
    NamesDiffer(OUTPUT, name, rest, pane);
    NamesDiffer(EXTENDED, name, rest, pane);
    FirstsDiffer(OUTPUT, EXTENDED, name + SPACE + rest, pane + SPACE);
    FirstsDiffer(EXTENDED, OUTPUT, name + SPACE + rest, pane + SPACE);
    Assoc(OUTPUT, name + SPACE, rest);
    Assoc(OUTPUT, name, SPACE);
    Assoc(EXTENDED, name + SPACE, rest);
    Assoc(EXTENDED, name, SPACE);
    Assoc(OUTPUT, pane, SPACE);
    Assoc(EXTENDED, pane, SPACE);
    hide *;
    NothingForPane(OUTPUT + name + SPACE + rest, pane);
    NothingForPane(EXTENDED + name + SPACE + rest, pane);
  }

  lemma StartsDiffer()
    ensures |OUTPUT| == 8 && |EXTENDED| == 17 && |PAUSE| == 7 && |EXIT| == 5 && |SPACE| == 1
    ensures OUTPUT[1] != EXTENDED[1] && OUTPUT[1] != PAUSE[1] && OUTPUT[1] != EXIT[1] && EXTENDED[1] != PAUSE[1]
    ensures PAUSE[1] != EXIT[1] && EXTENDED[2] == EXIT[2] && EXTENDED[3] != EXIT[3]
  {
  }

  // Of words without a space, each followed by one, a line can begin with one only.
  lemma NamesAgree(start: seq<byte>, name: seq<byte>, rest: seq<byte>, pane: seq<byte>)
    requires SPACE[0] !in name && SPACE[0] !in pane && |SPACE| == 1
    requires start + pane + SPACE <= start + name + SPACE + rest
    ensures name == pane
  {
    hide *;
    var prefix, line := start + pane + SPACE, start + name + SPACE + rest;
    assert forall i :: 0 <= i < |pane| ==> prefix[|start| + i] == pane[i] && pane[i] in pane;
    assert forall i :: 0 <= i < |name| ==> line[|start| + i] == name[i] && name[i] in name;
    assert prefix[|start| + |pane|] == SPACE[0] && line[|start| + |name|] == SPACE[0];
    assert forall i :: 0 <= i < |prefix| ==> line[i] == prefix[i];
    assert |pane| == |name|;
  }

  lemma NamesDiffer(start: seq<byte>, name: seq<byte>, rest: seq<byte>, pane: seq<byte>)
    requires name != pane && SPACE[0] !in name && SPACE[0] !in pane && |SPACE| == 1
    ensures !(start + pane + SPACE <= start + name + SPACE + rest)
  {
    if start + pane + SPACE <= start + name + SPACE + rest {
      NamesAgree(start, name, rest, pane);
      assert false;
    }
  }

  lemma FirstsDiffer(a: seq<byte>, b: seq<byte>, rest: seq<byte>, more: seq<byte>)
    requires |a| > 1 && |b| > 1 && a[1] != b[1]
    ensures !(b + more <= a + rest)
  {
    assert (a + rest)[1] == a[1] && (b + more)[1] == b[1];
  }

  // A line that puts out something neither pauses nor ends the client, and none does both.
  lemma OneKind(line: seq<byte>, pane: seq<byte>)
    ensures ParseControlLine(line, pane).Some? ==> !(PAUSE + pane <= line) && !(EXIT <= line)
    ensures PAUSE + pane <= line ==> !(EXIT <= line)
  {
    StartsDiffer();
    NothingForPane(line, pane);
    hide Ascii, ParseControlLine;
    Begins(OUTPUT, pane + SPACE, line);
    Assoc(OUTPUT, pane, SPACE);
    Begins(EXTENDED, pane + SPACE, line);
    Assoc(EXTENDED, pane, SPACE);
    Begins(PAUSE, pane, line);
    Begins(EXIT, [], line);
    assert EXIT + [] == EXIT;
    hide *;
  }

  lemma Begins(start: seq<byte>, more: seq<byte>, line: seq<byte>)
    ensures start + more <= line ==> forall i :: 0 <= i < |start| ==> i < |line| && line[i] == start[i]
  {
    if start + more <= line {
      assert forall i :: 0 <= i < |start| ==> (start + more)[i] == start[i];
    }
  }

  // What a run of complete lines puts out.
  function Output(lines: seq<seq<byte>>, pane: seq<byte>): seq<byte> {
    if lines == [] then []
    else Output(lines[..|lines| - 1], pane) + match ParseControlLine(lines[|lines| - 1], pane) case Some(data) => data case None => []
  }

  lemma OutputNext(lines: seq<seq<byte>>, n: nat, pane: seq<byte>)
    requires n < |lines|
    ensures Output(lines[..n + 1], pane) ==
      match ParseControlLine(lines[n], pane)
      case Some(data) => Output(lines[..n], pane) + data
      case None => Output(lines[..n], pane)
  {
    hide ParseControlLine;
    assert lines[..n + 1][..n] == lines[..n];
  }

  lemma NothingOut(lines: seq<seq<byte>>, pane: seq<byte>)
    ensures Output(lines[..0], pane) == []
  {
  }

  lemma OutputLast(lines: seq<seq<byte>>, line: seq<byte>, pane: seq<byte>)
    ensures Output(lines + [line], pane) == Output(lines, pane) + Output([line], pane)
  {
    hide ParseControlLine;
    assert (lines + [line])[..|lines|] == lines;
    assert Output([line][..0], pane) == [];
  }

  lemma {:induction false} OutputAppend(a: seq<seq<byte>>, b: seq<seq<byte>>, pane: seq<byte>)
    ensures Output(a + b, pane) == Output(a, pane) + Output(b, pane)
  {
    if b == [] {
      assert a + b == a;
    } else {
      hide *;
      var front, last := b[..|b| - 1], b[|b| - 1];
      FrontAndLast(b);
      Assoc(a, front, [last]);
      OutputAppend(a, front, pane);
      OutputLast(a + front, last, pane);
      OutputLast(front, last, pane);
      Assoc(Output(a, pane), Output(front, pane), Output([last], pane));
    }
  }

  // The first newline, or -1.
  function FirstNewlineOf(s: seq<byte>): (p: int)
    ensures -1 <= p < |s|
  {
    NewlineInside(s);
    Find(s, [NEWLINE], 0)
  }

  lemma NewlineInside(s: seq<byte>)
    ensures Find(s, [NEWLINE], 0) < |s|
  {
    hide Find;
    assert Find(s, [NEWLINE], 0) >= 0 ==> OccursAt(s, [NEWLINE], Find(s, [NEWLINE], 0));
  }

  predicate HasLine(s: seq<byte>) {
    FirstNewlineOf(s) >= 0
  }

  function FirstLine(s: seq<byte>): seq<byte>
    requires HasLine(s)
  {
    s[..FirstNewlineOf(s)]
  }

  function AfterLine(s: seq<byte>): (rest: seq<byte>)
    requires HasLine(s)
    ensures |rest| < |s|
  {
    s[FirstNewlineOf(s) + 1..]
  }

  // s.split(b"\n"): the parts between newlines.
  function Split(s: seq<byte>): (parts: seq<seq<byte>>)
    ensures parts != []
  {
    if HasLine(s) then [FirstLine(s)] + Split(AfterLine(s)) else [s]
  }

  function Complete(s: seq<byte>): seq<seq<byte>> {
    Split(s)[..|Split(s)| - 1]
  }

  function Unfinished(s: seq<byte>): seq<byte> {
    Split(s)[|Split(s)| - 1]
  }

  lemma SplitUnfolds(s: seq<byte>)
    ensures if HasLine(s) then Complete(s) == [FirstLine(s)] + Complete(AfterLine(s)) && Unfinished(s) == Unfinished(AfterLine(s))
            else Complete(s) == [] && Unfinished(s) == s
  {
    hide HasLine, FirstLine, AfterLine;
    if HasLine(s) {
      FrontOfCons(FirstLine(s), Split(AfterLine(s)));
    }
  }

  lemma FrontOfCons(first: seq<byte>, rest: seq<seq<byte>>)
    requires rest != []
    ensures var all := [first] + rest;
      all[..|all| - 1] == [first] + rest[..|rest| - 1] && all[|all| - 1] == rest[|rest| - 1]
  {
  }

  // The first line of a stream stays the first when more bytes arrive.
  lemma FirstLineStays(a: seq<byte>, b: seq<byte>)
    requires HasLine(a)
    ensures HasLine(a + b) && FirstLine(a + b) == FirstLine(a) && AfterLine(a + b) == AfterLine(a) + b
  {
    var p := Find(a, [NEWLINE], 0);
    forall i | 0 <= i <= p
      ensures OccursAt(a + b, [NEWLINE], i) <==> OccursAt(a, [NEWLINE], i)
    {
      OccursInPrefix(a, b, [NEWLINE], i);
    }
    assert Find(a + b, [NEWLINE], 0) == p;
  }

  // Splitting a stream in two steps: the unfinished part of the first joins the second.
  lemma {:induction false} SplitInSteps(a: seq<byte>, b: seq<byte>)
    ensures Complete(a + b) == Complete(a) + Complete(Unfinished(a) + b)
    ensures Unfinished(a + b) == Unfinished(Unfinished(a) + b)
    decreases |a|
  {
    hide *;
    SplitUnfolds(a);
    SplitUnfolds(a + b);
    if HasLine(a) {
      FirstLineStays(a, b);
      SplitInSteps(AfterLine(a), b);
      AfterFirstLine(a, FirstLine(a), AfterLine(a), a + b, AfterLine(a) + b, b);
    } else {
      NothingFirst(Complete(a + b));
    }
  }

  // A first line in front of both streams changes nothing.
  lemma AfterFirstLine(a: seq<byte>, line: seq<byte>, rest: seq<byte>, all: seq<byte>, restAll: seq<byte>, b: seq<byte>)
    requires Complete(a) == [line] + Complete(rest) && Unfinished(a) == Unfinished(rest)
    requires Complete(all) == [line] + Complete(restAll) && Unfinished(all) == Unfinished(restAll)
    requires Complete(restAll) == Complete(rest) + Complete(Unfinished(rest) + b)
    requires Unfinished(restAll) == Unfinished(Unfinished(rest) + b)
    ensures Complete(all) == Complete(a) + Complete(Unfinished(a) + b)
    ensures Unfinished(all) == Unfinished(Unfinished(a) + b)
  {
    hide *;
    Assoc([line], Complete(rest), Complete(Unfinished(rest) + b));
  }

  // ----- The reader -----

  class TmuxPaneSource {
    const pane: seq<byte>
    var buffer: seq<byte>
    var paused: bool
    ghost var stream: seq<byte>  // every byte read

    ghost predicate Valid()
      reads this
    {
      buffer == Unfinished(stream)
    }

    constructor (pane: seq<byte>)
      ensures this.pane == pane && Valid() && stream == [] && !paused
    {
      this.pane := pane;
      buffer, paused, stream := [], false, [];
    }

    // `chunk` is None when nothing arrived in time and empty at end of file. The result is None
    // when the client ended.
    method ReadOutput(chunk: Option<seq<byte>>) returns (r: Option<seq<byte>>)
      requires Valid()
      modifies this
      ensures Valid()
      ensures chunk.None? ==> r == Some([]) && stream == old(stream) && paused == old(paused)
      ensures chunk == Some([]) ==> r == None && stream == old(stream) && paused == old(paused)
      ensures chunk.Some? && chunk.value != [] ==>
        && stream == old(stream) + chunk.value
        && var lines := Complete(old(buffer) + chunk.value);
           if exists i :: 0 <= i < |lines| && EXIT <= lines[i] then r == None
           else
             && r == Some(Output(lines, pane))
             && (paused <==> old(paused) || exists i :: 0 <= i < |lines| && PAUSE + pane <= lines[i])
    {
      if chunk.None? {
        return Some([]);
      }
      if chunk.value == [] {
        return None;
      }
      SplitInSteps(stream, chunk.value);
      stream := stream + chunk.value;
      buffer := buffer + chunk.value;
      var parts := Split(buffer);
      buffer := parts[|parts| - 1];
      r := Process(parts[..|parts| - 1]);
    }

    // The loop over the complete lines.
    method Process(lines: seq<seq<byte>>) returns (r: Option<seq<byte>>)
      modifies this`paused
      ensures if exists i :: 0 <= i < |lines| && EXIT <= lines[i] then r == None
        else
          && r == Some(Output(lines, pane))
          && (paused <==> old(paused) || exists i :: 0 <= i < |lines| && PAUSE + pane <= lines[i])
    {
      var out := [];
      NothingOut(lines, pane);
      hide Output, ParseControlLine;
      for n := 0 to |lines|
        invariant out == Output(lines[..n], pane)
        invariant forall i :: 0 <= i < n ==> !(EXIT <= lines[i])
        invariant paused <==> old(paused) || exists i :: 0 <= i < n && PAUSE + pane <= lines[i]
      {
        var line := lines[n];
        OutputNext(lines, n, pane);
        OneKind(line, pane);
        var data := ParseControlLine(line, pane);
        if data.Some? {
          out := out + data.value;
        } else if PAUSE + pane <= line {
          paused := true;
        } else if EXIT <= line {
          return None;
        }
      }
      assert lines[..|lines|] == lines;
      return Some(out);
    }

    // Was the client paused for lagging? Asking resumes it.
    method TakeResync() returns (resync: bool)
      requires Valid()
      modifies this`paused
      ensures Valid() && resync == old(paused) && !paused
    {
      resync := paused;
      paused := false;
    }
  }

  // ----- Round trip -----

  // Lines a client may send: output of this pane in either notation, and anything else but %exit.
  // `ending` is what precedes the newline: any number of carriage returns.
  datatype Message =
    | Plain(payload: seq<byte>, ending: seq<byte>)
    | Extended(args: seq<byte>, payload: seq<byte>, ending: seq<byte>)
    | Other(line: seq<byte>)

  function Text(m: Message, pane: seq<byte>): seq<byte> {
    match m
    case Plain(payload, ending) => OUTPUT + pane + SPACE + (Escape(payload) + ending)
    case Extended(args, payload, ending) => EXTENDED + pane + SPACE + args + SEPARATOR + (Escape(payload) + ending)
    case Other(line) => line
  }

  ghost predicate WellFormed(m: Message, pane: seq<byte>) {
    match m
    case Plain(_, ending) => forall b :: b in ending ==> b == RETURN
    // The separator before the data is the first one in the line.
    case Extended(args, _, ending) =>
      var head := EXTENDED + pane + SPACE + args;
      (forall b :: b in ending ==> b == RETURN) && NEWLINE !in args && Find(head + SEPARATOR, SEPARATOR, 0) == |head|
    case Other(line) =>
      && NEWLINE !in line && !(EXIT <= line)
      && !(OUTPUT + pane + SPACE <= line)
      && (EXTENDED + pane + SPACE <= line ==> forall i :: !OccursAt(line, SEPARATOR, i))
  }

  function Payload(m: Message): seq<byte> {
    if m.Other? then [] else m.payload
  }

  function Texts(ms: seq<Message>, pane: seq<byte>): seq<seq<byte>> {
    seq(|ms|, i requires 0 <= i < |ms| => Text(ms[i], pane))
  }

  function Payloads(ms: seq<Message>): seq<byte> {
    if ms == [] then [] else Payloads(ms[..|ms| - 1]) + Payload(ms[|ms| - 1])
  }

  // Each line ends with a newline.
  function Terminated(lines: seq<seq<byte>>): seq<byte> {
    if lines == [] then [] else lines[0] + [NEWLINE] + Terminated(lines[1..])
  }

  lemma {:induction false} SplitOfTerminated(lines: seq<seq<byte>>, partial: seq<byte>)
    requires forall i :: 0 <= i < |lines| ==> NEWLINE !in lines[i]
    requires NEWLINE !in partial
    ensures Split(Terminated(lines) + partial) == lines + [partial]
  {
    if lines == [] {
      assert Terminated(lines) + partial == partial;
      NoNewline(partial);
    } else {
      hide *;
      var rest := Terminated(lines[1..]) + partial;
      TerminatedFirst(lines, partial);
      SplitFirst(lines[0], rest);
      SplitOfTerminated(lines[1..], partial);
      HeadAndTail(lines);
      Assoc([lines[0]], lines[1..], [partial]);
    }
  }

  lemma TerminatedFirst(lines: seq<seq<byte>>, partial: seq<byte>)
    requires lines != []
    ensures Terminated(lines) + partial == lines[0] + [NEWLINE] + (Terminated(lines[1..]) + partial)
  {
  }

  lemma SplitFirst(line: seq<byte>, rest: seq<byte>)
    requires NEWLINE !in line
    ensures Split(line + [NEWLINE] + rest) == [line] + Split(rest)
  {
    var s := line + [NEWLINE] + rest;
    FirstNewline(line, rest);
    hide Find;
    assert s[|line| + 1..] == rest && s[..|line|] == line;
  }

  lemma NewlineOccurs(s: seq<byte>, i: int)
    ensures OccursAt(s, [NEWLINE], i) <==> 0 <= i < |s| && s[i] == NEWLINE
  {
    if 0 <= i < |s| {
      assert s[i..i + 1] == [s[i]];
    }
  }

  lemma NoNewline(s: seq<byte>)
    requires NEWLINE !in s
    ensures Find(s, [NEWLINE], 0) < 0
  {
    NewlineOccurs(s, Find(s, [NEWLINE], 0));
  }

  lemma FirstNewline(line: seq<byte>, rest: seq<byte>)
    requires NEWLINE !in line
    ensures Find(line + [NEWLINE] + rest, [NEWLINE], 0) == |line|
  {
    var s := line + [NEWLINE] + rest;
    NewlineOccurs(s, |line|);
    forall i | 0 <= i < |line| ensures !OccursAt(s, [NEWLINE], i) {
      assert s[i] == line[i] && line[i] in line;
      NewlineOccurs(s, i);
    }
  }

  // Stripping takes off all the carriage returns and newlines at the end, and nothing else.
  lemma {:induction false} RStripDrops(s: seq<byte>, ending: seq<byte>)
    requires forall b :: b in ending ==> b == RETURN || b == NEWLINE
    requires s != [] ==> s[|s| - 1] != RETURN && s[|s| - 1] != NEWLINE
    ensures RStrip(s + ending) == s
  {
    if ending == [] {
      assert s + ending == s;
    } else {
      var front := ending[..|ending| - 1];
      assert (s + ending)[..|s + ending| - 1] == s + front;
      assert ending[|ending| - 1] in ending;
      assert forall b :: b in front ==> b in ending;
      RStripDrops(s, front);
    }
  }

  lemma DataOfLine(payload: seq<byte>, ending: seq<byte>)
    requires forall b :: b in ending ==> b == RETURN
    ensures Unescaped(RStrip(Escape(payload) + ending)) == payload && NEWLINE !in Escape(payload) + ending
  {
    UnescapeInverts(payload);
    hide Unescaped, Escape, RStrip;
    RStripDrops(Escape(payload), ending);
  }

  // A search that finds the end of `head + sub` finds it in any longer line too.
  lemma FindStays(head: seq<byte>, sub: seq<byte>, rest: seq<byte>)
    requires Find(head + sub, sub, 0) == |head|
    ensures Find(head + sub + rest, sub, 0) == |head|
  {
    var s := head + sub + rest;
    OccursInPrefix(head + sub, rest, sub, |head|);
    forall i | 0 <= i < |head| ensures !OccursAt(s, sub, i) {
      OccursInPrefix(head + sub, rest, sub, i);
    }
  }

  lemma PrefixesDiffer()
    ensures |OUTPUT| == 8 && |EXTENDED| == 17 && OUTPUT[1] != EXTENDED[1]
    ensures NEWLINE !in OUTPUT && NEWLINE !in EXTENDED && NEWLINE !in SPACE && NEWLINE !in SEPARATOR
  {
  }

  lemma ParsePlain(pane: seq<byte>, payload: seq<byte>, ending: seq<byte>)
    requires NEWLINE !in pane && forall b :: b in ending ==> b == RETURN
    ensures var line := Text(Plain(payload, ending), pane); ParseControlLine(line, pane) == Some(payload) && NEWLINE !in line
  {
    PrefixesDiffer();
    DataOfLine(payload, ending);
    hide Ascii, Unescaped, Escape, RStrip, Find;
    var prefix, data, line := OUTPUT + pane + SPACE, Escape(payload) + ending, Text(Plain(payload, ending), pane);
    assert line == prefix + data;
    assert line[|prefix|..] == data;
  }

  lemma ParseExtended(pane: seq<byte>, m: Message)
    requires NEWLINE !in pane && m.Extended? && WellFormed(m, pane)
    ensures ParseControlLine(Text(m, pane), pane) == Some(m.payload) && NEWLINE !in Text(m, pane)
  {
    ExtendedParts(pane, m);
    hide *;
    var args := m.args;
    var head, data := EXTENDED + pane + SPACE + args, Escape(m.payload) + m.ending;
    DataOfLine(m.payload, m.ending);
    FindStays(head, SEPARATOR, data);
    ParseAfterSeparator(pane, args, data);
    PrefixesDiffer();
    NoNewlineIn(EXTENDED, pane);
    NoNewlineIn(EXTENDED + pane, SPACE);
    NoNewlineIn(EXTENDED + pane + SPACE, args);
    NoNewlineIn(head, SEPARATOR);
    NoNewlineIn(head + SEPARATOR, data);
  }

  lemma ExtendedParts(pane: seq<byte>, m: Message)
    requires m.Extended? && WellFormed(m, pane)
    ensures NEWLINE !in m.args && forall b :: b in m.ending ==> b == RETURN
    ensures Find(EXTENDED + pane + SPACE + m.args + SEPARATOR, SEPARATOR, 0) == |EXTENDED + pane + SPACE + m.args|
    ensures Text(m, pane) == EXTENDED + pane + SPACE + m.args + SEPARATOR + (Escape(m.payload) + m.ending)
  {
    hide Find, Ascii, Escape;
  }

  lemma ParseAfterSeparator(pane: seq<byte>, args: seq<byte>, data: seq<byte>)
    requires var head := EXTENDED + pane + SPACE + args; Find(head + SEPARATOR + data, SEPARATOR, 0) == |head|
    ensures ParseControlLine(EXTENDED + pane + SPACE + args + SEPARATOR + data, pane) == Some(Unescaped(RStrip(data)))
  {
    hide Ascii, Unescaped, RStrip, Find;
    var prefix := EXTENDED + pane + SPACE;
    var line := prefix + args + SEPARATOR + data;
    assert line[..|prefix|] == prefix;
    NotPlain(line, pane);
    assert line[|prefix + args| + |SEPARATOR|..] == data;
  }

  lemma NotPlain(line: seq<byte>, pane: seq<byte>)
    requires EXTENDED + pane + SPACE <= line
    ensures !(OUTPUT + pane + SPACE <= line)
  {
    PrefixesDiffer();
    assert line[1] == (EXTENDED + pane + SPACE)[1] == EXTENDED[1];
    assert (OUTPUT + pane + SPACE)[1] == OUTPUT[1];
  }

  lemma NoNewlineIn(head: seq<byte>, rest: seq<byte>)
    requires NEWLINE !in head && NEWLINE !in rest
    ensures NEWLINE !in head + rest
  {
  }

  lemma ParseOther(pane: seq<byte>, line: seq<byte>)
    requires WellFormed(Other(line), pane)
    ensures ParseControlLine(line, pane) == None
  {
    NothingForPane(line, pane);
    hide Ascii, ParseControlLine;
  }

  lemma ParseText(m: Message, pane: seq<byte>)
    requires WellFormed(m, pane) && NEWLINE !in pane
    ensures ParseControlLine(Text(m, pane), pane) == if m.Other? then None else Some(Payload(m))
    ensures !(EXIT <= Text(m, pane)) && NEWLINE !in Text(m, pane)
  {
    OneKind(Text(m, pane), pane);
    hide Ascii, ParseControlLine;
    match m
    case Other(line) => ParseOther(pane, line);
    case Plain(payload, ending) => ParsePlain(pane, payload, ending);
    case Extended(_, _, _) => ParseExtended(pane, m);
  }

  lemma TextsAreLines(ms: seq<Message>, pane: seq<byte>)
    requires NEWLINE !in pane && forall i :: 0 <= i < |ms| ==> WellFormed(ms[i], pane)
    ensures forall i :: 0 <= i < |ms| ==> !(EXIT <= Texts(ms, pane)[i]) && NEWLINE !in Texts(ms, pane)[i]
  {
    hide WellFormed, Text;
    forall i | 0 <= i < |ms| ensures !(EXIT <= Texts(ms, pane)[i]) && NEWLINE !in Texts(ms, pane)[i] {
      ParseText(ms[i], pane);
    }
  }

  lemma {:induction false} OutputOfTexts(ms: seq<Message>, pane: seq<byte>)
    requires NEWLINE !in pane && forall i :: 0 <= i < |ms| ==> WellFormed(ms[i], pane)
    ensures Output(Texts(ms, pane), pane) == Payloads(ms)
  {
    hide ParseControlLine, WellFormed, Text;
    if ms != [] {
      var n := |ms| - 1;
      OutputOfTexts(ms[..n], pane);
      ParseText(ms[n], pane);
      assert Texts(ms, pane)[..n] == Texts(ms[..n], pane);
    }
  }

  // The reader over a whole run of chunks: nothing is lost, repeated or reordered.
  method ReadAll(pane: seq<byte>, chunks: seq<seq<byte>>) returns (outputs: seq<seq<byte>>)
    requires forall c :: c in chunks ==> c != []
    requires forall i :: 0 <= i < |Complete(Flatten(chunks))| ==> !(EXIT <= Complete(Flatten(chunks))[i])
    ensures |outputs| == |chunks| && Flatten(outputs) == Output(Complete(Flatten(chunks)), pane)
  {
    var source := new TmuxPaneSource(pane);
    outputs := [];
    for n := 0 to |chunks|
      invariant fresh(source) && source.pane == pane && source.Valid() && source.stream == Flatten(chunks[..n])
      invariant |outputs| == n && Flatten(outputs) == Output(Complete(Flatten(chunks[..n])), pane)
    {
      ghost var before := Flatten(chunks[..n]);
      hide Complete, Unfinished, Output;
      ghost var lines := Complete(source.buffer + chunks[n]);
      StepLines(chunks, n, pane);
      assert chunks[n] in chunks && !exists i :: 0 <= i < |lines| && EXIT <= lines[i];
      var out := source.ReadOutput(Some(chunks[n]));
      outputs := outputs + [out.value];
      OutputAppend(Complete(before), lines, pane);
    }
    assert chunks[..|chunks|] == chunks;
  }

  // The lines completed by one chunk are lines of the whole stream.
  lemma StepLines(chunks: seq<seq<byte>>, n: nat, pane: seq<byte>)
    requires n < |chunks|
    requires forall i :: 0 <= i < |Complete(Flatten(chunks))| ==> !(EXIT <= Complete(Flatten(chunks))[i])
    ensures var before := Flatten(chunks[..n]);
      var lines := Complete(Unfinished(before) + chunks[n]);
      && Flatten(chunks[..n + 1]) == before + chunks[n]
      && Complete(before + chunks[n]) == Complete(before) + lines
      && forall i :: 0 <= i < |lines| ==> !(EXIT <= lines[i])
  {
    hide Complete, Unfinished, Split;
    var before, now := Flatten(chunks[..n]), Flatten(chunks[..n + 1]);
    assert chunks[..n + 1][..n] == chunks[..n];
    SplitInSteps(before, chunks[n]);
    assert chunks == chunks[..n + 1] + chunks[n + 1..];
    FlattenAppend(chunks[..n + 1], chunks[n + 1..]);
    SplitInSteps(now, Flatten(chunks[n + 1..]));
    var all, lines := Complete(Flatten(chunks)), Complete(Unfinished(before) + chunks[n]);
    forall i | 0 <= i < |lines| ensures !(EXIT <= lines[i]) {
      assert all[|Complete(before)| + i] == lines[i];
    }
  }

  // Escaped payloads, mixed with other lines and cut anywhere, come out as sent, up to the unfinished last line.
  method ReadMessages(pane: seq<byte>, ms: seq<Message>, partial: seq<byte>, chunks: seq<seq<byte>>) returns (outputs: seq<seq<byte>>)
    requires NEWLINE !in pane && NEWLINE !in partial
    requires forall i :: 0 <= i < |ms| ==> WellFormed(ms[i], pane)
    requires Flatten(chunks) == Terminated(Texts(ms, pane)) + partial
    requires forall c :: c in chunks ==> c != []
    ensures Flatten(outputs) == Payloads(ms)
  {
    OutputOfTexts(ms, pane);
    TextsAreLines(ms, pane);
    hide WellFormed, Text, Split, Output, Payloads;
    SplitOfTerminated(Texts(ms, pane), partial);
    assert Texts(ms, pane) + [partial] == Split(Flatten(chunks));
    assert Complete(Flatten(chunks)) == Texts(ms, pane);
    outputs := ReadAll(pane, chunks);
  }
}
