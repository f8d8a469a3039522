/** Reading the server's replies: the line reader over the socket (lib/smtp.js:75-126) and the reader
    of one reply (lib/smtp.js:46-54, lib/smtp.js:128-140). */
module SmtpReader {
  import opened JsText
  import opened Shared

  // ---------- the lines of a stream ----------

  /** The index of the first LF, or the length. */
  function FindLf(s: string): (i: nat)
    ensures i <= |s|
    ensures forall k :: 0 <= k < i ==> s[k] != '\n'
    ensures i < |s| ==> s[i] == '\n'
  {
    if s == "" || s[0] == '\n' then 0 else 1 + FindLf(s[1..])
  }

  /** line.replace(/\r$/, ''). */
  function DropCr(line: string): string {
    if line != "" && line[|line| - 1] == '\r' then line[..|line| - 1] else line
  }

  /** The complete lines of what was received, without their ends. */
  function CompleteLines(s: string): seq<string>
    decreases |s|
  {
    var i := FindLf(s);
    if i == |s| then [] else [DropCr(s[..i])] + CompleteLines(s[i + 1..])
  }

  /** What follows the last complete line. */
  function Unfinished(s: string): string
    decreases |s|
  {
    var i := FindLf(s);
    if i == |s| then s else Unfinished(s[i + 1..])
  }

  lemma FindLfIs(s: string, i: nat)
    requires i < |s| && s[i] == '\n' && forall k :: 0 <= k < i ==> s[k] != '\n'
    ensures FindLf(s) == i
  {
  }

  lemma LinesStep(s: string, i: nat)
    requires i < |s| && s[i] == '\n' && forall k :: 0 <= k < i ==> s[k] != '\n'
    ensures CompleteLines(s) == [DropCr(s[..i])] + CompleteLines(s[i + 1..])
    ensures Unfinished(s) == Unfinished(s[i + 1..])
  {
    FindLfIs(s, i);
    hide FindLf, DropCr;
  }

  lemma NoLines(s: string)
    requires FindLf(s) == |s|
    ensures CompleteLines(s) == [] && Unfinished(s) == s
  {
    hide FindLf, DropCr;
  }

  /** Lines do not depend on where the stream is cut. */
  lemma {:induction false} LinesOfParts(a: string, b: string)
    ensures CompleteLines(a + b) == CompleteLines(a) + CompleteLines(Unfinished(a) + b)
    ensures Unfinished(a + b) == Unfinished(Unfinished(a) + b)
    decreases |a|
  {
    hide CompleteLines, Unfinished, DropCr, FindLf;
    var i := FindLf(a);
    if i < |a| {
      LinesStep(a, i);
      LinesStep(a + b, i);
      assert (a + b)[..i] == a[..i] && (a + b)[i + 1..] == a[i + 1..] + b;
      LinesOfParts(a[i + 1..], b);
      AddFront(DropCr(a[..i]), CompleteLines(a[i + 1..]), CompleteLines(Unfinished(a[i + 1..]) + b));
    } else {
      NoLines(a);
    }
  }

  lemma AddFront(x: string, xs: seq<string>, ys: seq<string>)
    ensures [x] + (xs + ys) == [x] + xs + ys
  {
  }

  // ---------- the reader ----------

  datatype Answer = Line(line: string) | TimedOut | Failed | Closed

  /** A call of nextLine that was answered. */
  datatype Settled = Settled(call: nat, answer: Answer)

  /** The lines among the answers, in order. */
  function LinesAnswered(log: seq<Settled>): seq<string> {
    if log == [] then []
    else
      LinesAnswered(log[..|log| - 1])
      + if log[|log| - 1].answer.Line? then [log[|log| - 1].answer.line] else []
  }

  lemma Answered(log: seq<Settled>, s: Settled)
    ensures LinesAnswered(log + [s]) == LinesAnswered(log) + if s.answer.Line? then [s.answer.line] else []
  {
    assert (log + [s])[..|log|] == log;
  }

  class LineReader {
    var buffer: string
    var queued: seq<string>
    var pending: Option<nat>
    var ended: bool
    // How many calls were made; the number of a call stands for its promise.
    var calls: nat

    // What the socket delivered and the calls answered so far.
    ghost var received: string
    ghost var log: seq<Settled>

    /** Every complete line received was given to a call or is queued, once and in order, and no call
        waits while a line is queued. */
    ghost predicate Valid()
      reads this
    {
      && LinesAnswered(log) + queued == CompleteLines(received)
      && buffer == Unfinished(received)
      && (pending.Some? ==> queued == [] && pending.value < calls)
      && (forall i :: 0 <= i < |log| ==> log[i].call < calls)
    }

    /** With one call at a time, every call but the waiting one was answered, in order. */
    ghost predicate OneAtATime()
      reads this
    {
      && calls == |log| + (if pending.Some? then 1 else 0)
      && (pending.Some? ==> pending.value == |log|)
      && (forall i :: 0 <= i < |log| ==> log[i].call == i)
    }

    constructor ()
      ensures Valid() && OneAtATime() && received == "" && log == [] && calls == 0 && !ended
    {
      buffer, queued, pending, ended := "", [], None, false;
      received, log, calls := "", [], 0;
    }

    /** settlePending: answers the waiting call, if any. */
    method SettlePending(answer: Answer)
      modifies this`pending, this`log
      ensures pending.None?
      ensures log == if old(pending).None? then old(log) else old(log) + [Settled(old(pending).value, answer)]
    {
      if pending.Some? {
        log := log + [Settled(pending.value, answer)];
        pending := None;
      }
    }

    /** One complete line goes to the waiting call or to the queue. */
    method TakeLine(line: string)
      modifies this`pending, this`log, this`queued
      ensures old(pending).Some? ==> log == old(log) + [Settled(old(pending).value, Line(line))] && queued == old(queued)
      ensures old(pending).None? ==> log == old(log) && queued == old(queued) + [line]
      ensures pending.None?
    {
      if pending.Some? {
        SettlePending(Line(line));
      } else {
        queued := queued + [line];
      }
    }

    /** The 'data' handler (lib/smtp.js:89-99). A waiting call gets the first line that the chunk
        completes; all others are queued. */
    method OnData(chunk: string)
      requires Valid()
      modifies this`buffer, this`pending, this`log, this`queued, this`received
      ensures Valid() && received == old(received) + chunk
      ensures var lines := CompleteLines(old(buffer) + chunk);
              if old(pending).Some? && lines != [] then
                pending.None? && log == old(log) + [Settled(old(pending).value, Line(lines[0]))] && queued == lines[1..]
              else pending == old(pending) && log == old(log) && queued == old(queued) + lines
      ensures old(OneAtATime()) ==> OneAtATime()
    {
      hide LinesAnswered, CompleteLines, Unfinished, FindLf, DropCr;
      LinesOfParts(received, chunk);
      received := received + chunk;
      buffer := buffer + chunk;
      ghost var all, lines := buffer, CompleteLines(buffer);
      ghost var taken := 0;
      ghost var given := if pending.Some? && lines != [] then 1 else 0;
      while true
        invariant 0 <= taken <= |lines| && received == old(received) + chunk
        invariant CompleteLines(buffer) == lines[taken..] && Unfinished(buffer) == Unfinished(all)
        invariant taken == 0 ==> pending == old(pending) && log == old(log) && queued == old(queued)
        invariant taken > 0 && given == 1 ==>
                    pending.None? && log == old(log) + [Settled(old(pending).value, Line(lines[0]))] && queued == lines[1..taken]
        invariant taken > 0 && given == 0 ==>
                    pending == old(pending) == None && log == old(log) && queued == old(queued) + lines[..taken]
        decreases |buffer|
      {
        var idx := FindLf(buffer);
        if idx == |buffer| {
          NoLines(buffer);
          break;
        }
        var line := DropCr(buffer[..idx]);
        LinesStep(buffer, idx);
        assert lines[taken] == line && lines[taken..][1..] == lines[taken + 1..];
        buffer := buffer[idx + 1..];
        TakeLine(line);
        taken := taken + 1;
      }
      assert taken == |lines|;
      if given == 1 {
        Answered(old(log), Settled(old(pending).value, Line(lines[0])));
        assert lines == [lines[0]] + lines[1..taken];
      }
    }

    /** nextLine (lib/smtp.js:112-124): a queued line at once, a refusal after the end, or a wait. A
        call made while another waits takes that one's place. */
    method NextLine() returns (call: nat)
      requires Valid()
      modifies this`pending, this`log, this`queued, this`calls
      ensures Valid() && call == old(calls) && calls == old(calls) + 1
      ensures if old(queued) != [] then
                log == old(log) + [Settled(call, Line(old(queued)[0]))] && queued == old(queued)[1..] && pending == old(pending)
              else if ended then log == old(log) + [Settled(call, Closed)] && queued == [] && pending == old(pending)
              else log == old(log) && queued == [] && pending == Some(call)
      ensures old(OneAtATime()) && old(pending).None? ==> OneAtATime()
    {
      hide LinesAnswered, CompleteLines, Unfinished;
      call := calls;
      calls := calls + 1;
      if queued != [] {
        Answered(log, Settled(call, Line(queued[0])));
        log := log + [Settled(call, Line(queued[0]))];
        queued := queued[1..];
      } else if ended {
        Answered(log, Settled(call, Closed));
        log := log + [Settled(call, Closed)];
      } else {
        pending := Some(call);
      }
    }

    /** The timer of the waiting call (lib/smtp.js:119-121). */
    method OnTimeout()
      requires Valid()
      modifies this`pending, this`log
      ensures Valid() && pending.None?
      ensures log == if old(pending).None? then old(log) else old(log) + [Settled(old(pending).value, TimedOut)]
      ensures old(OneAtATime()) ==> OneAtATime()
    {
      hide LinesAnswered, CompleteLines, Unfinished;
      if pending.Some? { Answered(log, Settled(pending.value, TimedOut)); }
      SettlePending(TimedOut);
    }

    /** The 'error' handler (lib/smtp.js:101). */
    method OnError()
      requires Valid()
      modifies this`pending, this`log
      ensures Valid() && pending.None?
      ensures log == if old(pending).None? then old(log) else old(log) + [Settled(old(pending).value, Failed)]
      ensures old(OneAtATime()) ==> OneAtATime()
    {
      hide LinesAnswered, CompleteLines, Unfinished;
      if pending.Some? { Answered(log, Settled(pending.value, Failed)); }
      SettlePending(Failed);
    }

    /** The 'close' handler (lib/smtp.js:102-105). */
    method OnClose()
      requires Valid()
      modifies this`pending, this`log, this`ended
      ensures Valid() && pending.None? && ended
      ensures log == if old(pending).None? then old(log) else old(log) + [Settled(old(pending).value, Closed)]
      ensures old(OneAtATime()) ==> OneAtATime()
    {
      hide LinesAnswered, CompleteLines, Unfinished;
      ended := true;
      if pending.Some? { Answered(log, Settled(pending.value, Closed)); }
      SettlePending(Closed);
    }
  }

  // ---------- replies ----------

  predicate Digit(c: char) { '0' <= c <= '9' }

  datatype Status = Status(code: nat, complete: bool)

  /** The code and the mark of a reply line (lib/smtp.js:46-54); the text is not needed for reading. */
  function ParseResponseLine(line: string): Option<Status> {
    if |line| < 4 || !Digit(line[0]) || !Digit(line[1]) || !Digit(line[2]) then None
    else if line[3] != '-' && !Space(line[3]) then None
    else if exists c :: c in line[4..] && LineEnd(c) then None
    else Some(Status(100 * Value(line[0]) + 10 * Value(line[1]) + Value(line[2]), line[3] == ' '))
  }

  function Value(c: char): nat
    requires Digit(c)
  {
    c as int - '0' as int
  }

  predicate Final(line: string) {
    ParseResponseLine(line).Some? && ParseResponseLine(line).value.complete
  }

  /** How many lines a reply takes from the stream: up to the first final line. */
  function ReplyLength(lines: seq<string>): Option<nat> {
    if lines == [] then None
    else if Final(lines[0]) then Some(1)
    else
      var n := ReplyLength(lines[1..]);
      if n.None? then None else Some(1 + n.value)
  }

  /** A reply is the lines up to and including the first final one. */
  lemma {:induction false} ReplyEndsAtFirstFinal(lines: seq<string>, n: nat)
    ensures ReplyLength(lines) == Some(n) <==>
              0 < n <= |lines| && Final(lines[n - 1]) && forall i :: 0 <= i < n - 1 ==> !Final(lines[i])
    decreases |lines|
  {
    hide Final;
    if lines != [] && n > 0 {
      ReplyEndsAtFirstFinal(lines[1..], n - 1);
      assert forall i :: 0 <= i < |lines| - 1 ==> lines[1..][i] == lines[i + 1];
      assert (forall i :: 0 <= i < n - 1 ==> i < |lines| ==> !Final(lines[i])) ==> n - 1 > 0 ==> !Final(lines[0]);
    } else if lines != [] {
      ReplyIsNotEmpty(lines);
    }
  }

  lemma {:induction false} ReplyIsNotEmpty(lines: seq<string>)
    ensures ReplyLength(lines) != Some(0)
    decreases |lines|
  {
  }

  /** readSmtpResponse (lib/smtp.js:128-140) over the lines that nextLine gives; None when they end
      before a final line. Lines that are no reply lines are kept, but do not change the code. */
  method ReadSmtpResponse(lines: seq<string>) returns (reply: Option<(nat, seq<string>)>)
    ensures reply.Some? <==> ReplyLength(lines).Some?
    ensures reply.Some? ==>
              var n := |reply.value.1|;
              ReplyLength(lines) == Some(n) && 0 < n <= |lines| && reply.value.1 == lines[..n]
              && Final(lines[n - 1]) && reply.value.0 == ParseResponseLine(lines[n - 1]).value.code
  {
    hide ParseResponseLine, ReplyLength;
    var read, code := [], 0;
    var i := 0;
    while i < |lines|
      invariant 0 <= i <= |lines| && read == lines[..i]
      invariant forall k :: 0 <= k < i ==> !Final(lines[k])
    {
      var line := lines[i];
      read := read + [line];
      i := i + 1;
      var parsed := ParseResponseLine(line);
      if parsed.None? { continue; }
      code := parsed.value.code;
      if parsed.value.complete {
        ReplyEndsAtFirstFinal(lines, i);
        return Some((code, read));
      }
    }
    if ReplyLength(lines).Some? { ReplyEndsAtFirstFinal(lines, ReplyLength(lines).value); }
    return None;
  }

  // ---------- replies as servers write them ----------

  function Digits(code: nat): string
    requires code < 1000
  {
    [Numeral(code / 100), Numeral(code / 10 % 10), Numeral(code % 10)]
  }

  function Numeral(d: nat): (c: char)
    requires d < 10
    ensures Digit(c) && Value(c) == d
  {
    '0' + d as char
  }

  /** The lines of a reply in the form of section 4.2.1 of RFC 5321: a hyphen after the code of every
      line but the last. */
  function ReplyLines(code: nat, texts: seq<string>): (lines: seq<string>)
    requires code < 1000 && texts != []
    ensures |lines| == |texts|
  {
    if |texts| == 1 then [Digits(code) + " " + texts[0]]
    else [Digits(code) + "-" + texts[0]] + ReplyLines(code, texts[1..])
  }

  predicate OneLine(text: string) { forall c :: c in text ==> !LineEnd(c) }

  lemma ReplyLineParses(code: nat, mark: char, text: string)
    requires code < 1000 && OneLine(text) && (mark == ' ' || mark == '-')
    ensures ParseResponseLine(Digits(code) + [mark] + text) == Some(Status(code, mark == ' '))
  {
    var line := Digits(code) + [mark] + text;
    assert line[4..] == text;
    assert line[0] == Numeral(code / 100) && line[1] == Numeral(code / 10 % 10) && line[2] == Numeral(code % 10);
    hide Numeral, LineEnd;
  }

  /** A well-formed reply is read as itself, with its code, whatever follows it: replies to several
      commands do not run together. */
  lemma {:induction false} ReplyIsRead(code: nat, texts: seq<string>, rest: seq<string>)
    requires code < 1000 && texts != [] && forall i :: 0 <= i < |texts| ==> OneLine(texts[i])
    ensures ReplyLength(ReplyLines(code, texts) + rest) == Some(|texts|)
    ensures ParseResponseLine(ReplyLines(code, texts)[|texts| - 1]) == Some(Status(code, true))
    decreases |texts|
  {
    hide ParseResponseLine, Digits, OneLine;
    var lines := ReplyLines(code, texts) + rest;
    if |texts| == 1 {
      ReplyLineParses(code, ' ', texts[0]);
      assert lines[0] == Digits(code) + " " + texts[0];
    } else {
      ReplyLineParses(code, '-', texts[0]);
      assert lines[0] == Digits(code) + "-" + texts[0];
      assert lines[1..] == ReplyLines(code, texts[1..]) + rest;
      ReplyIsRead(code, texts[1..], rest);
    }
  }

  // ---------- lines as servers write them ----------

  /** Every line followed by CR LF. */
  function Written(lines: seq<string>): string {
    if lines == [] then "" else lines[0] + "\r\n" + Written(lines[1..])
  }

  /** Lines without LF that are ended by CR LF are read as themselves, with what follows them. */
  lemma {:induction false} WrittenLinesAreRead(lines: seq<string>, rest: string)
    requires forall i :: 0 <= i < |lines| ==> '\n' !in lines[i]
    ensures CompleteLines(Written(lines) + rest) == lines + CompleteLines(rest)
    ensures Unfinished(Written(lines) + rest) == Unfinished(rest)
    decreases |lines|
  {
    hide CompleteLines, Unfinished, FindLf;
    if lines == [] {
      assert Written(lines) + rest == rest;
      assert [] + CompleteLines(rest) == CompleteLines(rest);
    } else {
      var line, more := lines[0], Written(lines[1..]) + rest;
      var s := line + "\r\n" + more;
      assert Written(lines) + rest == s;
      var i := |line| + 1;
      assert s[i] == '\n' && s[..i] == line + ['\r'] && s[i + 1..] == more;
      forall k | 0 <= k < i ensures s[k] != '\n' {
        if k < |line| { assert s[k] == line[k] && line[k] in line; }
      }
      LinesStep(s, i);
      WrittenLinesAreRead(lines[1..], rest);
      assert (line + ['\r'])[..|line|] == line;
      AddFront(line, lines[1..], CompleteLines(rest));
      assert [line] + lines[1..] == lines;
    }
  }

  lemma {:induction false} ReplyHasNoLf(code: nat, texts: seq<string>, i: nat)
    requires code < 1000 && texts != [] && i < |texts| && forall k :: 0 <= k < |texts| ==> OneLine(texts[k])
    ensures '\n' !in ReplyLines(code, texts)[i]
    decreases |texts|
  {
    assert OneLine(texts[0]) && '\n' !in texts[0];
    assert '\n' !in Digits(code) by { hide OneLine; }
    if i > 0 { ReplyHasNoLf(code, texts[1..], i - 1); }
  }

  /** A reply in the form of section 4.2.1 of RFC 5321, as it comes over the connection and in whatever
      pieces, is read up to its end, with its code, whatever follows it. */
  lemma WrittenReplyIsRead(code: nat, texts: seq<string>, rest: string)
    requires code < 1000 && texts != [] && forall i :: 0 <= i < |texts| ==> OneLine(texts[i])
    ensures
      var lines := CompleteLines(Written(ReplyLines(code, texts)) + rest);
      && ReplyLength(lines) == Some(|texts|) && |texts| <= |lines|
      && lines[..|texts|] == ReplyLines(code, texts)
      && ParseResponseLine(lines[|texts| - 1]) == Some(Status(code, true))
  {
    var reply := ReplyLines(code, texts);
    forall i | 0 <= i < |reply| ensures '\n' !in reply[i] { ReplyHasNoLf(code, texts, i); }
    hide OneLine, ParseResponseLine, ReplyLength, CompleteLines;
    WrittenLinesAreRead(reply, rest);
    ReplyIsRead(code, texts, CompleteLines(rest));
  }

  // ---------- what a reply line is ----------

  /** Three digits, a hyphen or a white space, and text without a line end; and nothing else is one. */
  lemma ResponseLineIff(line: string)
    ensures ParseResponseLine(line).Some? <==>
              && |line| >= 4 && Digit(line[0]) && Digit(line[1]) && Digit(line[2])
              && (line[3] == '-' || Space(line[3])) && OneLine(line[4..])
    ensures ParseResponseLine(line).Some? ==>
              && ParseResponseLine(line).value.code
                 == 100 * (line[0] as int - 48) + 10 * (line[1] as int - 48) + (line[2] as int - 48)
              && (ParseResponseLine(line).value.complete <==> line[3] == ' ')
  {
    hide Space, LineEnd;
  }
}
