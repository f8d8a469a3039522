/** The text of a mail as it is sent after DATA (lib/smtp.js:40-43, lib/smtp.js:293), read back as
    section 4.5.2 of RFC 5321 asks of a receiver. */
module SmtpData {
  import opened Shared

  // ---------- sending ----------

  /** text.replace(/\r\n/g, '\n'). */
  function CrLfToLf(s: string): string
    decreases |s|
  {
    if s == "" then ""
    else if s[0] == '\r' && |s| >= 2 && s[1] == '\n' then "\n" + CrLfToLf(s[2..])
    else [s[0]] + CrLfToLf(s[1..])
  }

  /** text.replace(/\r/g, '\n'). */
  function CrToLf(s: string): string {
    if s == "" then "" else [if s[0] == '\r' then '\n' else s[0]] + CrToLf(s[1..])
  }

  /** text.split('\n'), with what has been read of the first part. */
  function Split(s: string, part: string): (parts: seq<string>)
    ensures parts != []
    decreases |s|
  {
    if s == "" then [part]
    else if s[0] == '\n' then [part] + Split(s[1..], "")
    else Split(s[1..], part + [s[0]])
  }

  function Stuffed(line: string): string {
    if line != "" && line[0] == '.' then "." + line else line
  }

  /** The stuffed lines joined by CR LF. */
  function JoinStuffed(lines: seq<string>): string
    requires lines != []
  {
    if |lines| == 1 then Stuffed(lines[0]) else Stuffed(lines[0]) + "\r\n" + JoinStuffed(lines[1..])
  }

  function DotStuffMessage(text: string): string {
    JoinStuffed(Split(CrToLf(CrLfToLf(text)), ""))
  }

  /** What is written on the connection after DATA. */
  function DataFrame(text: string): string {
    DotStuffMessage(text) + "\r\n.\r\n"
  }

  // ---------- receiving ----------

  /** The first line of a stream, without its CR LF, and what follows. */
  function FirstLine(s: string, line: string): Option<(string, string)>
    decreases |s|
  {
    if |s| < 2 then None
    else if s[0] == '\r' && s[1] == '\n' then Some((line, s[2..]))
    else FirstLine(s[1..], line + [s[0]])
  }

  lemma {:induction false} FirstLineShrinks(s: string, line: string)
    requires FirstLine(s, line).Some?
    ensures |FirstLine(s, line).value.1| <= |s| - 2
    decreases |s|
  {
    if !(s[0] == '\r' && s[1] == '\n') { FirstLineShrinks(s[1..], line + [s[0]]); }
  }

  /** The lines of a mail and what follows it: a line of a single period ends the mail, and the first
      period of any other line that starts with one is dropped. */
  function Receive(s: string): Option<(seq<string>, string)>
    decreases |s|
  {
    var first := FirstLine(s, "");
    if first.None? then None
    else
      var (line, rest) := first.value;
      if line == "." then Some(([], rest))
      else
        FirstLineShrinks(s, "");
        var more := Receive(rest);
        if more.None? then None
        else Some(([if line != "" && line[0] == '.' then line[1..] else line] + more.value.0, more.value.1))
  }

  // ---------- what the lines of a text are ----------

  /** The lines of a text in which CR LF, CR and LF all end a line. */
  function TextLines(s: string, line: string): seq<string>
    decreases |s|
  {
    if s == "" then [line]
    else if s[0] == '\r' && |s| >= 2 && s[1] == '\n' then [line] + TextLines(s[2..], "")
    else if s[0] == '\r' || s[0] == '\n' then [line] + TextLines(s[1..], "")
    else TextLines(s[1..], line + [s[0]])
  }

  predicate NoBreak(line: string) { '\r' !in line && '\n' !in line }

  /** Replacing CR LF first and the remaining CR afterwards gives the lines of the text. */
  lemma {:induction false} SplitGivesLines(s: string, line: string)
    ensures Split(CrToLf(CrLfToLf(s)), line) == TextLines(s, line)
    decreases |s|
  {
    if s == "" {
    } else if s[0] == '\r' && |s| >= 2 && s[1] == '\n' {
      SplitGivesLines(s[2..], "");
      Cons('\n', CrLfToLf(s[2..]));
    } else {
      Cons(s[0], CrLfToLf(s[1..]));
      if s[0] == '\r' || s[0] == '\n' {
        SplitGivesLines(s[1..], "");
      } else {
        SplitGivesLines(s[1..], line + [s[0]]);
      }
    }
  }

  lemma Cons(c: char, rest: string)
    ensures CrToLf([c] + rest) == [if c == '\r' then '\n' else c] + CrToLf(rest)
  {
    assert ([c] + rest)[1..] == rest;
  }

  lemma {:induction false} LinesHaveNoBreak(s: string, line: string, i: nat)
    requires NoBreak(line) && i < |TextLines(s, line)|
    ensures NoBreak(TextLines(s, line)[i])
    decreases |s|
  {
    if s == "" {
    } else if s[0] == '\r' && |s| >= 2 && s[1] == '\n' {
      if i > 0 { LinesHaveNoBreak(s[2..], "", i - 1); }
    } else if s[0] == '\r' || s[0] == '\n' {
      if i > 0 { LinesHaveNoBreak(s[1..], "", i - 1); }
    } else {
      LinesHaveNoBreak(s[1..], line + [s[0]], i);
    }
  }

  // ---------- transparency ----------

  lemma {:induction false} FirstLineIs(line: string, rest: string, before: string)
    requires NoBreak(line)
    ensures FirstLine(line + "\r\n" + rest, before) == Some((before + line, rest))
    decreases |line|
  {
    var s := line + "\r\n" + rest;
    if line == "" {
      assert s[2..] == rest && before + line == before;
    } else {
      assert s[0] == line[0] && line[0] in line && s[1..] == line[1..] + "\r\n" + rest;
      FirstLineIs(line[1..], rest, before + [line[0]]);
      assert before + [line[0]] + line[1..] == before + line;
    }
  }

  /** A stuffed line is never taken for the end of the mail, and is received as the line. */
  lemma StuffedLineIsReceived(line: string, rest: string)
    requires NoBreak(line)
    ensures
      var more := Receive(rest);
      Receive(Stuffed(line) + "\r\n" + rest)
      == if more.None? then None else Some(([line] + more.value.0, more.value.1))
  {
    FirstLineIs(Stuffed(line), rest, "");
    assert "" + Stuffed(line) == Stuffed(line);
    assert Stuffed(line) != ".";
    assert Stuffed(line) != line ==> Stuffed(line)[1..] == line;
    hide FirstLine;
  }

  lemma LonePeriodEndsMail(rest: string)
    ensures Receive(".\r\n" + rest) == Some(([], rest))
  {
    FirstLineIs(".", rest, "");
    assert "." + "\r\n" + rest == ".\r\n" + rest && "" + "." == ".";
    hide FirstLine;
  }

  lemma {:induction false} StuffedLinesAreReceived(lines: seq<string>, rest: string)
    requires lines != [] && forall i :: 0 <= i < |lines| ==> NoBreak(lines[i])
    ensures Receive(JoinStuffed(lines) + "\r\n.\r\n" + rest) == Some((lines, rest))
    decreases |lines|
  {
    hide Receive, Stuffed, NoBreak;
    var end := ".\r\n" + rest;
    if |lines| == 1 {
      StuffedLineIsReceived(lines[0], end);
      LonePeriodEndsMail(rest);
      assert Stuffed(lines[0]) + "\r\n.\r\n" + rest == Stuffed(lines[0]) + "\r\n" + end;
      assert [lines[0]] + [] == lines;
    } else {
      var tail := JoinStuffed(lines[1..]) + "\r\n.\r\n" + rest;
      StuffedLinesAreReceived(lines[1..], rest);
      StuffedLineIsReceived(lines[0], tail);
      assert JoinStuffed(lines) + "\r\n.\r\n" + rest == Stuffed(lines[0]) + "\r\n" + tail;
      assert [lines[0]] + lines[1..] == lines;
    }
  }

  /** Whatever the text holds and whatever follows on the connection, the receiver gets exactly the
      lines of the text and goes on reading right after the frame. */
  lemma SmtpTransparency(text: string, rest: string)
    ensures Receive(DataFrame(text) + rest) == Some((TextLines(text, ""), rest))
  {
    SplitGivesLines(text, "");
    var lines := TextLines(text, "");
    forall i | 0 <= i < |lines| ensures NoBreak(lines[i]) { LinesHaveNoBreak(text, "", i); }
    StuffedLinesAreReceived(lines, rest);
    assert DataFrame(text) + rest == JoinStuffed(lines) + "\r\n.\r\n" + rest;
  }
}
