/** The newline framer of the TCP syslog collector (lib/monitoring.js:1070-1131). */
module SyslogFraming {
  import opened Shared

  const NEWLINE: Byte := 10
  const LIMIT := 64 * 1024
  const KEEP := 32 * 1024

  // ---------- the reference: one byte at a time ----------

  function IfNonEmpty(run: seq<Byte>): seq<seq<Byte>> {
    if run == [] then [] else [run]
  }

  /** The non-empty runs ended by a newline, and the run still open. */
  function Scan(stream: seq<Byte>): (seq<seq<Byte>>, seq<Byte>) {
    if stream == [] then ([], [])
    else
      var (runs, open) := Scan(stream[..|stream| - 1]);
      var b := stream[|stream| - 1];
      if b == NEWLINE then (runs + IfNonEmpty(open), []) else (runs, open + [b])
  }

  /** The non-empty newline-free runs of a stream, in order. */
  function Runs(stream: seq<Byte>): seq<seq<Byte>> {
    var (runs, open) := Scan(stream);
    runs + IfNonEmpty(open)
  }

  // ---------- the framer ----------

  /** Buffer.indexOf(10), with |s| for "not found". */
  function IndexOfNewline(s: seq<Byte>): (i: nat)
    ensures i <= |s| && (i < |s| ==> s[i] == NEWLINE)
    ensures forall j :: 0 <= j < i ==> s[j] != NEWLINE
  {
    if s == [] || s[0] == NEWLINE then 0 else 1 + IndexOfNewline(s[1..])
  }

  /** The complete messages of a buffer, and what stays in it. */
  function Cut(buffer: seq<Byte>): (seq<seq<Byte>>, seq<Byte>)
    decreases |buffer|
  {
    var i := IndexOfNewline(buffer);
    if i == |buffer| then ([], buffer)
    else
      var (more, rest) := Cut(buffer[i + 1..]);
      (IfNonEmpty(buffer[..i]) + more, rest)
  }

  function Trim(buffer: seq<Byte>): (kept: seq<Byte>)
    ensures |kept| <= LIMIT
  {
    if |buffer| > LIMIT then buffer[|buffer| - KEEP..] else buffer
  }

  function Feed(buffer: seq<Byte>, chunk: seq<Byte>): (seq<seq<Byte>>, seq<Byte>) {
    var (messages, rest) := Cut(buffer + chunk);
    (messages, Trim(rest))
  }

  /** Everything a connection delivers: chunk by chunk, then the flush on close. */
  function Deliver(buffer: seq<Byte>, chunks: seq<seq<Byte>>): seq<seq<Byte>>
    decreases |chunks|
  {
    if chunks == [] then IfNonEmpty(buffer)
    else
      var (messages, rest) := Feed(buffer, chunks[0]);
      messages + Deliver(rest, chunks[1..])
  }

  function Flatten(chunks: seq<seq<Byte>>): seq<Byte> {
    if chunks == [] then [] else chunks[0] + Flatten(chunks[1..])
  }

  class Connection {
    var tcpBuffer: seq<Byte>

    constructor ()
      ensures tcpBuffer == []
    {
      tcpBuffer := [];
    }

    /** socket.on('data') (lib/monitoring.js:1084-1118). */
    method OnData(chunk: seq<Byte>) returns (messages: seq<seq<Byte>>)
      modifies this
      ensures (messages, tcpBuffer) == Feed(old(tcpBuffer), chunk)
      ensures |tcpBuffer| <= LIMIT
    {
      hide IndexOfNewline, Cut;
      tcpBuffer := tcpBuffer + chunk;
      ghost var goal := Cut(tcpBuffer);
      messages := [];
      assert [] + goal.0 == goal.0;
      var nlIndex := IndexOfNewline(tcpBuffer);
      while nlIndex < |tcpBuffer|
        invariant nlIndex == IndexOfNewline(tcpBuffer)
        invariant (messages + Cut(tcpBuffer).0, Cut(tcpBuffer).1) == goal
        decreases |tcpBuffer|
      {
        CutStep(messages, tcpBuffer);
        var messageBytes := tcpBuffer[..nlIndex];
        tcpBuffer := tcpBuffer[nlIndex + 1..];
        nlIndex := IndexOfNewline(tcpBuffer);
        if messageBytes == [] { continue; }
        messages := messages + [messageBytes];
      }
      CutStep(messages, tcpBuffer);
      if |tcpBuffer| > LIMIT {
        tcpBuffer := tcpBuffer[|tcpBuffer| - KEEP..];
      }
    }

    /** socket.on('close') (lib/monitoring.js:1119-1131). */
    method OnClose() returns (messages: seq<seq<Byte>>)
      modifies this
      ensures messages == IfNonEmpty(old(tcpBuffer)) && tcpBuffer == []
    {
      messages := [];
      if |tcpBuffer| > 0 {
        messages := [tcpBuffer];
        tcpBuffer := [];
      }
    }
  }

  /** One connection from its first chunk to its close. */
  method Receive(chunks: seq<seq<Byte>>) returns (messages: seq<seq<Byte>>)
    ensures messages == Deliver([], chunks)
  {
    hide Feed, IfNonEmpty;
    var connection := new Connection();
    messages := [];
    assert chunks[0..] == chunks && [] + Deliver([], chunks) == Deliver([], chunks);
    for n := 0 to |chunks|
      invariant messages + Deliver(connection.tcpBuffer, chunks[n..]) == Deliver([], chunks)
    {
      ghost var rest := chunks[n..];
      assert rest[1..] == chunks[n + 1..];
      var found := connection.OnData(chunks[n]);
      Assoc(messages, found, Deliver(connection.tcpBuffer, chunks[n + 1..]));
      messages := messages + found;
    }
    var last := connection.OnClose();
    messages := messages + last;
  }

  lemma CutStep(messages: seq<seq<Byte>>, buffer: seq<Byte>)
    ensures
      var i := IndexOfNewline(buffer);
      if i == |buffer| then Cut(buffer) == ([], buffer) && messages + [] == messages
      else
        var (more, rest) := Cut(buffer[i + 1..]);
        Cut(buffer).1 == rest && messages + Cut(buffer).0 == (if i == 0 then messages else messages + [buffer[..i]]) + more
  {
    var i := IndexOfNewline(buffer);
    hide IndexOfNewline;
    assert messages + [] == messages;
    if i < |buffer| {
      var run, more := buffer[..i], Cut(buffer[i + 1..]).0;
      assert Cut(buffer).0 == IfNonEmpty(run) + more;
      Assoc(messages, IfNonEmpty(run), more);
    }
  }

  // ---------- the framer follows the reference ----------

  predicate IsSuffix(s: seq<Byte>, run: seq<Byte>) {
    |s| <= |run| && run[|run| - |s|..] == s
  }

  /** What is kept of a run: an end of it, all of it up to the limit, and otherwise at least KEEP
      bytes. */
  predicate Kept(kept: seq<Byte>, run: seq<Byte>) {
    && IsSuffix(kept, run)
    && (|run| <= LIMIT ==> kept == run)
    && (kept == run || |kept| >= KEEP)
  }

  predicate AllKept(messages: seq<seq<Byte>>, runs: seq<seq<Byte>>) {
    |messages| == |runs| && forall i :: 0 <= i < |runs| ==> runs[i] != [] && Kept(messages[i], runs[i])
  }

  predicate NewlineFree(s: seq<Byte>) {
    forall i :: 0 <= i < |s| ==> s[i] != NEWLINE
  }

  lemma AppendedLast(stream: seq<Byte>, b: Byte)
    ensures (stream + [b])[..|stream + [b]| - 1] == stream
  {
  }

  lemma {:induction false} ScanFree(stream: seq<Byte>, s: seq<Byte>)
    requires NewlineFree(s)
    ensures Scan(stream + s) == (Scan(stream).0, Scan(stream).1 + s)
  {
    if s == [] {
      assert stream + s == stream && Scan(stream).1 + s == Scan(stream).1;
    } else {
      var n := |s| - 1;
      ScanFree(stream, s[..n]);
      assert stream + s == stream + s[..n] + [s[n]];
      AppendedLast(stream + s[..n], s[n]);
      assert s == s[..n] + [s[n]];
      Assoc(Scan(stream).1, s[..n], [s[n]]);
    }
  }

  lemma ScanNewline(stream: seq<Byte>)
    ensures Scan(stream + [NEWLINE]) == (Scan(stream).0 + IfNonEmpty(Scan(stream).1), [])
  {
    AppendedLast(stream, NEWLINE);
  }

  lemma KeptExtends(kept: seq<Byte>, run: seq<Byte>, s: seq<Byte>)
    requires Kept(kept, run)
    ensures Kept(kept + s, run + s) && (kept + s == [] <==> run + s == [])
  {
    assert (run + s)[|run| - |kept|..] == kept + s;
  }

  lemma AllKeptJoins(a: seq<seq<Byte>>, b: seq<seq<Byte>>, c: seq<seq<Byte>>, d: seq<seq<Byte>>)
    requires AllKept(a, c) && AllKept(b, d)
    ensures AllKept(a + b, c + d)
  {
    hide Kept;
  }

  lemma IfNonEmptyKept(kept: seq<Byte>, run: seq<Byte>)
    requires Kept(kept, run)
    ensures AllKept(IfNonEmpty(kept), IfNonEmpty(run))
  {
    KeptExtends(kept, run, []);
    assert kept + [] == kept && run + [] == run;
  }

  lemma CutAtNewline(s: seq<Byte>, i: nat)
    requires i == IndexOfNewline(s) < |s|
    ensures Cut(s) == (IfNonEmpty(s[..i]) + Cut(s[i + 1..]).0, Cut(s[i + 1..]).1)
  {
    hide IndexOfNewline, IfNonEmpty;
  }

  lemma CutFirst(buffer: seq<Byte>, chunk: seq<Byte>, i: nat)
    requires NewlineFree(buffer) && i == IndexOfNewline(chunk) < |chunk|
    ensures Cut(buffer + chunk) == (IfNonEmpty(buffer + chunk[..i]) + Cut(chunk[i + 1..]).0, Cut(chunk[i + 1..]).1)
  {
    hide IndexOfNewline, NewlineFree, IfNonEmpty, Cut;
    FirstNewlineBehind(buffer, chunk);
    CutAtNewline(buffer + chunk, |buffer| + i);
    assert (buffer + chunk)[|buffer| + i + 1..] == chunk[i + 1..];
    assert (buffer + chunk)[..|buffer| + i] == buffer + chunk[..i];
  }

  lemma SplitAround<T>(before: seq<T>, s: seq<T>, i: nat)
    requires i < |s|
    ensures before + s == before + s[..i] + [s[i]] + s[i + 1..]
  {
    assert s == s[..i] + [s[i]] + s[i + 1..];
  }

  /** The first run that ends in the chunk: what was kept of the open run, and the bytes before the
      newline. */
  lemma FirstCut(buffer: seq<Byte>, stream: seq<Byte>, chunk: seq<Byte>, i: nat)
    requires Kept(buffer, Scan(stream).1)
    requires i == IndexOfNewline(chunk) < |chunk|
    ensures
      var (runs, open) := Scan(stream);
      var next := stream + chunk[..i] + [NEWLINE];
      && stream + chunk == next + chunk[i + 1..]
      && Scan(next) == (runs + IfNonEmpty(open + chunk[..i]), [])
      && AllKept(IfNonEmpty(buffer + chunk[..i]), IfNonEmpty(open + chunk[..i]))
  {
    var head, tail := chunk[..i], chunk[i + 1..];
    hide Kept, AllKept, IndexOfNewline, IfNonEmpty;
    var open := Scan(stream).1;
    hide Scan;
    assert NewlineFree(head);
    ScanFree(stream, head);
    ScanNewline(stream + head);
    KeptExtends(buffer, open, head);
    IfNonEmptyKept(buffer + head, open + head);
    SplitAround(stream, chunk, i);
  }

  /** Cutting what was kept of the open run, with more bytes behind it, finds the runs that end in
      those bytes. */
  lemma {:induction false} CutFollows(buffer: seq<Byte>, stream: seq<Byte>, chunk: seq<Byte>)
    requires Kept(buffer, Scan(stream).1) && NewlineFree(buffer)
    ensures
      var (messages, rest) := Cut(buffer + chunk);
      var (runs, open) := Scan(stream + chunk);
      && |Scan(stream).0| <= |runs| && runs[..|Scan(stream).0|] == Scan(stream).0
      && AllKept(messages, runs[|Scan(stream).0|..])
      && Kept(rest, open) && NewlineFree(rest)
    decreases |chunk|
  {
    hide Scan, Kept, AllKept, NewlineFree, IndexOfNewline;
    var i := IndexOfNewline(chunk);
    var head := chunk[..i];
    var (runs0, open0) := Scan(stream);
    FirstNewlineBehind(buffer, chunk);
    if i == |chunk| {
      assert head == chunk;
      FreeBefore(chunk);
      ScanFree(stream, chunk);
      KeptExtends(buffer, open0, chunk);
      assert runs0[|runs0|..] == [];
      NothingKept();
    } else {
      hide Cut;
      var tail := chunk[i + 1..];
      var next := stream + head + [NEWLINE];
      FirstCut(buffer, stream, chunk, i);
      CutFirst(buffer, chunk, i);
      EmptyKept();
      CutFollows([], next, tail);
      assert [] + tail == tail;
      var (runs, _) := Scan(next + tail);
      var ended := IfNonEmpty(open0 + head);
      PrefixOfPrefix(runs, runs0, ended);
      AllKeptJoins(IfNonEmpty(buffer + head), Cut(tail).0, ended, runs[|runs0| + |ended|..]);
    }
  }

  lemma FreeBefore(chunk: seq<Byte>)
    requires IndexOfNewline(chunk) == |chunk|
    ensures NewlineFree(chunk)
  {
  }

  lemma FirstNewlineBehind(buffer: seq<Byte>, chunk: seq<Byte>)
    requires NewlineFree(buffer)
    ensures IndexOfNewline(buffer + chunk) == |buffer| + IndexOfNewline(chunk)
    ensures IndexOfNewline(chunk) == |chunk| ==> NewlineFree(buffer + chunk)
  {
    var i, k, s := IndexOfNewline(chunk), IndexOfNewline(buffer + chunk), buffer + chunk;
    if k < |s| { assert s[k] == NEWLINE; }
    if i < |chunk| { assert s[|buffer| + i] == NEWLINE; }
  }

  lemma PrefixOfPrefix<T>(s: seq<T>, a: seq<T>, b: seq<T>)
    requires |a| + |b| <= |s| && s[..|a| + |b|] == a + b
    ensures s[..|a|] == a && s[|a|..] == b + s[|a| + |b|..]
  {
    assert s == s[..|a| + |b|] + s[|a| + |b|..];
  }

  lemma EmptyKept()
    ensures Kept([], []) && NewlineFree([])
  {
  }

  lemma NothingKept()
    ensures AllKept([], [])
  {
  }

  lemma TrimKeeps(rest: seq<Byte>, open: seq<Byte>)
    requires Kept(rest, open) && NewlineFree(rest)
    ensures Kept(Trim(rest), open) && NewlineFree(Trim(rest))
  {
  }

  lemma {:induction false} DeliverFollows(buffer: seq<Byte>, stream: seq<Byte>, chunks: seq<seq<Byte>>)
    requires Kept(buffer, Scan(stream).1) && NewlineFree(buffer)
    ensures
      var runs, n := Runs(stream + Flatten(chunks)), |Scan(stream).0|;
      && n <= |runs| && runs[..n] == Scan(stream).0
      && AllKept(Deliver(buffer, chunks), runs[n..])
    decreases |chunks|
  {
    hide Scan, Kept, AllKept, Trim, Cut;
    var (runs0, open0) := Scan(stream);
    if chunks == [] {
      assert stream + Flatten(chunks) == stream;
      IfNonEmptyKept(buffer, open0);
      assert (runs0 + IfNonEmpty(open0))[|runs0|..] == IfNonEmpty(open0);
    } else {
      var next := stream + chunks[0];
      CutFollows(buffer, stream, chunks[0]);
      var (messages, rest) := Cut(buffer + chunks[0]);
      var (runs1, open1) := Scan(next);
      TrimKeeps(rest, open1);
      DeliverFollows(Trim(rest), next, chunks[1..]);
      Assoc(stream, chunks[0], Flatten(chunks[1..]));
      var runs := Runs(stream + Flatten(chunks));
      assert runs1 == runs0 + runs1[|runs0|..];
      PrefixOfPrefix(runs, runs0, runs1[|runs0|..]);
      AllKeptJoins(messages, Deliver(Trim(rest), chunks[1..]), runs1[|runs0|..], runs[|runs1|..]);
    }
  }

  /** Whatever the chunking, one message is delivered per non-empty newline-free run, in order: an end
      of the run, and the whole run when it is no longer than the limit. */
  lemma FramingFollowsRuns(chunks: seq<seq<Byte>>)
    ensures AllKept(Deliver([], chunks), Runs(Flatten(chunks)))
  {
    hide AllKept, Runs, Deliver;
    EmptyKept();
    assert [] + Flatten(chunks) == Flatten(chunks);
    DeliverFollows([], [], chunks);
    var runs := Runs(Flatten(chunks));
    assert runs[0..] == runs;
  }

  /** Two chunkings of one stream whose runs are within the limit deliver the same messages. */
  lemma ChunkingDoesNotMatter(a: seq<seq<Byte>>, b: seq<seq<Byte>>)
    requires Flatten(a) == Flatten(b)
    requires forall i :: 0 <= i < |Runs(Flatten(a))| ==> |Runs(Flatten(a))[i]| <= LIMIT
    ensures Deliver([], a) == Deliver([], b) == Runs(Flatten(a))
  {
    hide Deliver, Runs;
    FramingFollowsRuns(a);
    FramingFollowsRuns(b);
  }

  /** Where a run stands in the stream: it is open at the end of `a`, and a newline or the end of the
      stream follows. */
  lemma {:induction false} SplitAtRun(stream: seq<Byte>, k: nat) returns (a: seq<Byte>, b: seq<Byte>)
    requires k < |Runs(stream)|
    ensures stream == a + b && Scan(a) == (Runs(stream)[..k], Runs(stream)[k])
    ensures if b == [] then k == |Scan(stream).0| else b[0] == NEWLINE
    decreases |stream|
  {
    var (runs, open) := Scan(stream);
    if k == |runs| {
      a, b := stream, [];
      assert Runs(stream)[..k] == runs;
    } else {
      var n := |stream| - 1;
      var p, last := stream[..n], stream[n];
      if last == NEWLINE && k == |Scan(p).0| {
        a, b := p, [NEWLINE];
        assert runs == Scan(p).0 + IfNonEmpty(Scan(p).1) && open == [];
        assert Runs(stream)[..k] == Scan(p).0;
      } else {
        hide Scan;
        RunsOfPrefix(p, last, k);
        a, b := SplitAtRun(p, k);
        b := b + [last];
      }
      assert stream == p + [last];
    }
  }

  /** One byte more keeps the runs that are ended. */
  lemma RunsOfPrefix(p: seq<Byte>, last: Byte, k: nat)
    requires k < |Scan(p + [last]).0| && !(last == NEWLINE && k == |Scan(p).0|)
    ensures k < |Scan(p).0| && Runs(p)[..k] == Runs(p + [last])[..k] && Runs(p)[k] == Runs(p + [last])[k]
  {
    AppendedLast(p, last);
  }

  lemma NothingToCut(s: seq<Byte>)
    requires NewlineFree(s)
    ensures Cut(s) == ([], s)
  {
    assert IndexOfNewline(s) == |s|;
  }

  /** What is kept of a run is delivered first when the run ends. */
  lemma KeptIsDelivered(kept: seq<Byte>, b: seq<Byte>)
    requires 0 < |kept| <= LIMIT && NewlineFree(kept) && (b != [] ==> b[0] == NEWLINE)
    ensures Deliver(kept, [b]) != [] && Deliver(kept, [b])[0] == kept
  {
    var none: seq<seq<Byte>> := [];
    assert [b][1..] == none;
    if b == [] {
      assert kept + b == kept;
      NothingToCut(kept);
      assert Deliver(kept, none) == [kept];
    } else {
      assert IndexOfNewline(b) == 0;
      CutFirst(kept, b, 0);
      assert kept + b[..0] == kept;
      hide Cut;
    }
  }

  lemma EndedRunsStay(next: seq<Byte>, rest: seq<Byte>)
    requires Scan(next).1 == []
    ensures |Scan(next).0| <= |Runs(next + rest)| && Runs(next + rest)[..|Scan(next).0|] == Scan(next).0
  {
    hide Scan, Runs, Deliver, AllKept, Kept;
    EmptyKept();
    FlattenOne(rest);
    DeliverFollows([], next, [rest]);
  }

  lemma FlattenOne(a: seq<Byte>)
    ensures Flatten([a]) == a
  {
    assert [a][1..] == [];
    assert a + [] == a;
  }

  /** The run at the split is there in the whole stream. */
  lemma RunAt(a: seq<Byte>, b: seq<Byte>)
    requires Scan(a).1 != [] && (b != [] ==> b[0] == NEWLINE)
    ensures |Scan(a).0| < |Runs(a + b)| && Runs(a + b)[|Scan(a).0|] == Scan(a).1
  {
    if b == [] {
      assert a + b == a;
    } else {
      hide Scan, Runs;
      ScanNewline(a);
      var next := a + [NEWLINE];
      assert a + b == next + b[1..];
      EndedRunsStay(next, b[1..]);
      assert Scan(next).0[|Scan(a).0|] == Scan(a).1;
    }
  }

  /** A run longer than the limit is cut by the chunking that ends a chunk with it. */
  lemma LongRunIsCut(stream: seq<Byte>, k: nat) returns (chunks: seq<seq<Byte>>)
    requires k < |Runs(stream)| && |Runs(stream)[k]| > LIMIT
    ensures Flatten(chunks) == stream && Deliver([], chunks) != Runs(stream)
  {
    var a, b := SplitAtRun(stream, k);
    var open := Scan(a).1;
    chunks := [a, b];
    FlattenTwo(a, b);
    RunAt(a, b);
    hide Runs, Scan;
    EmptyKept();
    CutFollows([], [], a);
    assert [] + a == a;
    var (messages, rest) := Cut(a);
    TrimKeeps(rest, open);
    var kept := Trim(rest);
    hide Trim, Cut;
    KeptIsDelivered(kept, b);
    DeliverTwo(a, b, messages, kept);
    assert Deliver([], chunks)[|messages|] == kept;
  }

  lemma FlattenTwo(a: seq<Byte>, b: seq<Byte>)
    ensures Flatten([a, b]) == a + b
  {
    assert [a, b][1..] == [b];
    FlattenOne(b);
  }

  lemma DeliverTwo(a: seq<Byte>, b: seq<Byte>, messages: seq<seq<Byte>>, kept: seq<Byte>)
    requires messages == Cut(a).0 && kept == Trim(Cut(a).1)
    ensures Deliver([], [a, b]) == messages + Deliver(kept, [b])
  {
    assert [] + a == a && [a, b][1..] == [b];
    hide Cut, Trim;
  }

  /** Every chunking of a stream delivers its runs, whole, exactly if all of them are within the limit. */
  lemma WholeIffWithinLimit(stream: seq<Byte>)
    ensures (forall i :: 0 <= i < |Runs(stream)| ==> |Runs(stream)[i]| <= LIMIT)
       <==> (forall chunks :: Flatten(chunks) == stream ==> Deliver([], chunks) == Runs(stream))
  {
    hide Runs, Deliver, Flatten;
    if forall i :: 0 <= i < |Runs(stream)| ==> |Runs(stream)[i]| <= LIMIT {
      forall chunks | Flatten(chunks) == stream ensures Deliver([], chunks) == Runs(stream) {
        ChunkingDoesNotMatter(chunks, chunks);
      }
    } else {
      var k :| 0 <= k < |Runs(stream)| && |Runs(stream)[k]| > LIMIT;
      var chunks := LongRunIsCut(stream, k);
      assert Flatten(chunks) == stream;
    }
  }

  // ---------- how much is kept ----------

  /** What stays after a chunk: the bytes behind its last newline, with what was kept before if there is
      none; all of them up to 65536, and the last 32768 of more. */
  lemma KeptAfterChunk(buffer: seq<Byte>, chunk: seq<Byte>, open: seq<Byte>)
    requires NewlineFree(buffer) && NewlineFree(open)
    requires buffer + chunk == open || exists before :: buffer + chunk == before + [10] + open
    ensures Feed(buffer, chunk).1 == if |open| <= 65536 then open else open[|open| - 32768..]
  {
    hide NewlineFree;
    if buffer + chunk == open {
      CutOpen([], open);
      assert [] + open == open;
    } else {
      var before :| buffer + chunk == before + [10] + open;
      CutOpen(before + [10], open);
    }
  }

  /** What is cut off a buffer that ends with a newline, or is empty, and goes on with an open run. */
  lemma {:induction false} CutOpen(before: seq<Byte>, open: seq<Byte>)
    requires NewlineFree(open) && (before == [] || before[|before| - 1] == 10)
    ensures Cut(before + open).1 == open
    decreases |before|
  {
    hide IfNonEmpty;
    var s := before + open;
    var i := IndexOfNewline(s);
    if before == [] {
      assert s == open;
    } else {
      assert s[|before| - 1] == NEWLINE && i < |before|;
      hide NewlineFree, IndexOfNewline;
      assert s[i + 1..] == before[i + 1..] + open;
      CutOpen(before[i + 1..], open);
    }
  }
}
