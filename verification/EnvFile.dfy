/** The agent's environment file, written by render_env_content and read back by parse_env_file
    (agent/cajal-agent-setup.py:40-63, agent/cajal-agent-setup.py:73-74, agent/cajal-agent-setup.py:107-118). */
module EnvFile {
  import opened Shared
  import opened ShellWords

  // ---------- strings as Python handles them ----------

  /** str.isspace for one character. */
  predicate IsSpace(c: char) {
    var n := c as int;
    9 <= n <= 13 || 28 <= n <= 32 || n == 0x85 || n == 0xA0 || n == 0x1680 || 0x2000 <= n <= 0x200A
    || n == 0x2028 || n == 0x2029 || n == 0x202F || n == 0x205F || n == 0x3000
  }

  function StripLeft(s: string): string {
    if s != "" && IsSpace(s[0]) then StripLeft(s[1..]) else s
  }

  function StripRight(s: string): string {
    if s != "" && IsSpace(s[|s| - 1]) then StripRight(s[..|s| - 1]) else s
  }

  function Strip(s: string): string { StripRight(StripLeft(s)) }

  /** str.rstrip("/"). */
  function DropSlashes(s: string): string {
    if s != "" && s[|s| - 1] == '/' then DropSlashes(s[..|s| - 1]) else s
  }

  function NormalizeServer(s: string): string { DropSlashes(Strip(s)) }

  predicate LineBreak(c: char) { c == '\r' || c == '\n' }

  predicate OneLine(s: string) { forall c :: c in s ==> !LineBreak(c) }

  /** The lines of a text file: a line ends at LF, CR or CR LF. */
  function Lines(s: string): seq<string> {
    LinesFrom(s, "")
  }

  function LinesFrom(s: string, line: string): seq<string>
    decreases |s|
  {
    if s == "" then if line == "" then [] else [line]
    else if s[0] == '\r' && |s| >= 2 && s[1] == '\n' then [line] + LinesFrom(s[2..], "")
    else if LineBreak(s[0]) then [line] + LinesFrom(s[1..], "")
    else LinesFrom(s[1..], line + [s[0]])
  }

  /** The index of the first '=', or the length. */
  function FindEquals(s: string): (i: nat)
    ensures i <= |s|
  {
    if s == "" || s[0] == '=' then 0 else 1 + FindEquals(s[1..])
  }

  // ---------- reading ----------

  function Unquoted(v: string): string {
    if |v| >= 2 && v[0] == v[|v| - 1] && (v[0] == '\'' || v[0] == '"') then v[1..|v| - 1] else v
  }

  /** What one line sets. */
  function Setting(raw: string): Option<(string, string)> {
    var line := Strip(raw);
    if line == "" || line[0] == '#' || FindEquals(line) == |line| then None
    else Some((Strip(line[..FindEquals(line)]), Unquoted(Strip(line[FindEquals(line) + 1..]))))
  }

  function Set(values: map<string, string>, setting: Option<(string, string)>): map<string, string> {
    if setting.None? then values else values[setting.value.0 := setting.value.1]
  }

  /** A later line overrides an earlier one. */
  function Env(lines: seq<string>): map<string, string> {
    if lines == [] then map[] else Set(Env(lines[..|lines| - 1]), Setting(lines[|lines| - 1]))
  }

  /** parse_env_file (agent/cajal-agent-setup.py:40-58) on the text of a file that can be read. */
  method ParseEnvFile(content: string) returns (values: map<string, string>)
    ensures values == Env(Lines(content))
  {
    hide StripLeft, StripRight, IsSpace, LinesFrom;
    values := map[];
    var lines := Lines(content);
    var i := 0;
    while i < |lines|
      invariant 0 <= i <= |lines|
      invariant values == Env(lines[..i])
    {
      var line := Strip(lines[i]);
      assert lines[..i + 1][..i] == lines[..i];
      i := i + 1;
      if line == "" || line[0] == '#' || FindEquals(line) == |line| { continue; }
      var key, value := line[..FindEquals(line)], line[FindEquals(line) + 1..];
      key := Strip(key);
      value := Strip(value);
      if |value| >= 2 && value[0] == value[|value| - 1] && (value[0] == '\'' || value[0] == '"') {
        value := value[1..|value| - 1];
      }
      values := values[key := value];
    }
    assert lines[..i] == lines;
  }

  // ---------- writing ----------

  datatype Config = Config(server: string, site: string, password: string, pollInterval: string,
                           insecure: string, installId: string, installedAt: string)

  datatype Assignment = Assignment(key: string, value: string, quoted: bool)

  function Assignments(c: Config): seq<Assignment> {
    [ Assignment("CAJAL_AGENT_SERVER", NormalizeServer(c.server), true),
      Assignment("CAJAL_AGENT_SITE", c.site, true),
      Assignment("CAJAL_AGENT_PASSWORD", c.password, true),
      Assignment("CAJAL_AGENT_POLL_INTERVAL", c.pollInterval, true),
      Assignment("CAJAL_AGENT_INSECURE", c.insecure, false),
      Assignment("CAJAL_AGENT_INSTALL_ID", c.installId, true),
      Assignment("CAJAL_AGENT_INSTALLED_AT", c.installedAt, true) ]
  }

  function LineOf(a: Assignment): string {
    a.key + "=" + if a.quoted then ShellQuote(a.value) else a.value
  }

  function Render(assignments: seq<Assignment>): string {
    if assignments == [] then "" else LineOf(assignments[0]) + "\n" + Render(assignments[1..])
  }

  function RenderEnvContent(c: Config): string {
    Render(Assignments(c))
  }

  // ---------- what a written line sets ----------

  predicate Tight(s: string) {
    s != "" && !IsSpace(s[0]) && !IsSpace(s[|s| - 1])
  }

  predicate CleanKey(k: string) {
    Tight(k) && k[0] != '#' && '=' !in k && OneLine(k)
  }

  /** What comes back of a written value. */
  function ReadBack(a: Assignment): string {
    if a.quoted then Escaped(a.value) else a.value
  }

  predicate Writable(a: Assignment) {
    CleanKey(a.key) && OneLine(a.value)
    && (!a.quoted ==> Tight(a.value) && a.value[0] != '\'' && a.value[0] != '"')
  }

  lemma {:induction false} FirstEquals(k: string, rest: string)
    requires '=' !in k
    ensures FindEquals(k + "=" + rest) == |k|
  {
    if k == "" {
      assert k + "=" + rest == "=" + rest;
    } else {
      assert (k + "=" + rest)[1..] == k[1..] + "=" + rest;
      FirstEquals(k[1..], rest);
    }
  }

  lemma TightStays(s: string)
    requires Tight(s)
    ensures Strip(s) == s
  {
    hide IsSpace;
  }

  /** A line with tight key and text sets the key to the text, without its outer quotes. */
  lemma LineSets(key: string, text: string)
    requires CleanKey(key) && Tight(text)
    ensures Setting(key + "=" + text) == Some((key, Unquoted(text)))
  {
    hide IsSpace, LineBreak, Strip, Unquoted;
    var line := key + "=" + text;
    FirstEquals(key, text);
    assert line[0] == key[0] && line[|line| - 1] == text[|text| - 1];
    assert Tight(line);
    TightStays(line);
    TightStays(key);
    TightStays(text);
    assert line[..|key|] == key && line[|key| + 1..] == text;
  }

  lemma LineSetsValue(a: Assignment)
    requires Writable(a)
    ensures Setting(LineOf(a)) == Some((a.key, ReadBack(a)))
  {
    hide Escaped, Setting, IsSpace;
    var text := if a.quoted then ShellQuote(a.value) else a.value;
    QuoteIsTight(a.value);
    LineSets(a.key, text);
    assert a.quoted ==> text[1..|text| - 1] == Escaped(a.value);
  }

  lemma QuoteIsTight(v: string)
    ensures Tight(ShellQuote(v))
  {
    hide Escaped;
  }

  lemma {:induction false} EscapedIsOneLine(v: string)
    requires OneLine(v)
    ensures OneLine(Escaped(v))
  {
    if v != "" {
      EscapedIsOneLine(v[1..]);
      assert OneLine(Standing(v[0]));
    }
  }

  lemma LineIsOneLine(a: Assignment)
    requires Writable(a)
    ensures OneLine(LineOf(a))
  {
    EscapedIsOneLine(a.value);
    hide Escaped;
  }

  // ---------- what a written file sets ----------

  lemma {:induction false} LineEnds(line: string, rest: string, before: string)
    requires OneLine(line)
    ensures LinesFrom(line + "\n" + rest, before) == [before + line] + Lines(rest)
    decreases |line|
  {
    var s := line + "\n" + rest;
    if line == "" {
      assert s[0] == '\n' && s[1..] == rest && before + line == before;
    } else {
      assert s[0] == line[0] && line[0] in line && s[1..] == line[1..] + "\n" + rest;
      LineEnds(line[1..], rest, before + [line[0]]);
      assert before + [line[0]] + line[1..] == before + line;
    }
  }

  function LinesOf(assignments: seq<Assignment>): seq<string> {
    seq(|assignments|, i requires 0 <= i < |assignments| => LineOf(assignments[i]))
  }

  predicate AllWritable(assignments: seq<Assignment>) {
    forall i :: 0 <= i < |assignments| ==> Writable(assignments[i])
  }

  lemma {:induction false} RenderedLines(assignments: seq<Assignment>)
    requires AllWritable(assignments)
    ensures Lines(Render(assignments)) == LinesOf(assignments)
    decreases |assignments|
  {
    hide LineOf, Writable;
    if assignments != [] {
      LineIsOneLine(assignments[0]);
      LineEnds(LineOf(assignments[0]), Render(assignments[1..]), "");
      assert "" + LineOf(assignments[0]) == LineOf(assignments[0]);
      RenderedLines(assignments[1..]);
      assert LinesOf(assignments) == [LineOf(assignments[0])] + LinesOf(assignments[1..]);
    }
  }

  predicate DistinctKeys(assignments: seq<Assignment>) {
    forall i, j :: 0 <= i < j < |assignments| ==> assignments[i].key != assignments[j].key
  }

  lemma {:induction false} LinesSetValues(assignments: seq<Assignment>, i: nat)
    requires AllWritable(assignments) && DistinctKeys(assignments) && i < |assignments|
    ensures assignments[i].key in Env(LinesOf(assignments))
    ensures Env(LinesOf(assignments))[assignments[i].key] == ReadBack(assignments[i])
    decreases |assignments|
  {
    hide LineOf, Writable, Setting, ReadBack;
    var n := |assignments| - 1;
    var init := assignments[..n];
    assert LinesOf(assignments)[..n] == LinesOf(init);
    LineSetsValue(assignments[n]);
    if i < n {
      LinesSetValues(init, i);
    }
  }

  /** A written file sets every key to what comes back of its value. */
  lemma FileSetsValues(assignments: seq<Assignment>)
    requires AllWritable(assignments) && DistinctKeys(assignments)
    ensures forall i :: 0 <= i < |assignments| ==>
              assignments[i].key in Env(Lines(Render(assignments)))
              && Env(Lines(Render(assignments)))[assignments[i].key] == ReadBack(assignments[i])
  {
    RenderedLines(assignments);
    forall i | 0 <= i < |assignments|
      ensures assignments[i].key in Env(LinesOf(assignments)) && Env(LinesOf(assignments))[assignments[i].key] == ReadBack(assignments[i])
    {
      LinesSetValues(assignments, i);
    }
  }

  // ---------- what a file can set ----------

  lemma {:induction false} LinesAreOneLine(s: string, line: string, i: nat)
    requires OneLine(line) && i < |LinesFrom(s, line)|
    ensures OneLine(LinesFrom(s, line)[i])
    decreases |s|
  {
    hide OneLine;
    AddedCharacter(line, s);
    if s == "" {
    } else if s[0] == '\r' && |s| >= 2 && s[1] == '\n' {
      if i > 0 { LinesAreOneLine(s[2..], "", i - 1); }
    } else if LineBreak(s[0]) {
      if i > 0 { LinesAreOneLine(s[1..], "", i - 1); }
    } else {
      LinesAreOneLine(s[1..], line + [s[0]], i);
    }
  }

  lemma AddedCharacter(line: string, s: string)
    requires OneLine(line)
    ensures OneLine("")
    ensures s != "" && !LineBreak(s[0]) ==> OneLine(line + [s[0]])
  {
  }

  lemma {:induction false} StripLeftDrops(s: string)
    ensures forall c :: c in StripLeft(s) ==> c in s
    ensures multiset(StripLeft(s))['\''] == multiset(s)['\'']
    decreases |s|
  {
    if s != "" && IsSpace(s[0]) {
      StripLeftDrops(s[1..]);
      assert s == [s[0]] + s[1..];
    }
  }

  lemma {:induction false} StripRightDrops(s: string)
    ensures forall c :: c in StripRight(s) ==> c in s
    ensures multiset(StripRight(s))['\''] == multiset(s)['\'']
    decreases |s|
  {
    if s != "" && IsSpace(s[|s| - 1]) {
      StripRightDrops(s[..|s| - 1]);
      assert s == s[..|s| - 1] + [s[|s| - 1]];
    }
  }

  lemma {:induction false} DropSlashesDrops(s: string)
    ensures forall c :: c in DropSlashes(s) ==> c in s
    ensures multiset(DropSlashes(s))['\''] == multiset(s)['\'']
    decreases |s|
  {
    if s != "" && s[|s| - 1] == '/' {
      DropSlashesDrops(s[..|s| - 1]);
      assert s == s[..|s| - 1] + [s[|s| - 1]];
    }
  }

  /** Normalising drops characters, none of them a quote. */
  lemma NormalizeServerDrops(s: string)
    ensures forall c :: c in NormalizeServer(s) ==> c in s
    ensures multiset(NormalizeServer(s))['\''] == multiset(s)['\'']
  {
    hide *;
    assert NormalizeServer(s) == DropSlashes(StripRight(StripLeft(s))) by { NormalizeServerIs(s); }
    StripLeftDrops(s);
    StripRightDrops(StripLeft(s));
    DropSlashesDrops(StripRight(StripLeft(s)));
  }

  lemma NormalizeServerIs(s: string)
    ensures NormalizeServer(s) == DropSlashes(StripRight(StripLeft(s)))
  {
  }

  lemma SettingIsOneLine(raw: string)
    requires OneLine(raw) && Setting(raw).Some?
    ensures OneLine(Setting(raw).value.1)
  {
    hide StripLeft, StripRight, IsSpace, LineBreak;
    StripLeftDrops(raw);
    StripRightDrops(StripLeft(raw));
    var line := Strip(raw);
    assert forall c :: c in line ==> c in raw;
    var rest := line[FindEquals(line) + 1..];
    assert forall c :: c in rest ==> c in line;
    StripLeftDrops(rest);
    StripRightDrops(StripLeft(rest));
    var v := Strip(rest);
    assert forall c :: c in Unquoted(v) ==> c in v;
  }

  lemma {:induction false} EnvIsOneLine(lines: seq<string>, key: string)
    requires forall i :: 0 <= i < |lines| ==> OneLine(lines[i])
    requires key in Env(lines)
    ensures OneLine(Env(lines)[key])
    decreases |lines|
  {
    hide OneLine, Setting;
    var n := |lines| - 1;
    var setting := Setting(lines[n]);
    if setting.Some? && setting.value.0 == key {
      SettingIsOneLine(lines[n]);
    } else {
      EnvIsOneLine(lines[..n], key);
    }
  }

  /** No file sets a value that holds a line break. */
  lemma ReadValuesAreOneLine(content: string, key: string)
    requires key in Env(Lines(content))
    ensures OneLine(Env(Lines(content))[key])
  {
    forall i | 0 <= i < |Lines(content)| ensures OneLine(Lines(content)[i]) {
      LinesAreOneLine(content, "", i);
    }
    EnvIsOneLine(Lines(content), key);
  }

  lemma StandingCounts(c: char)
    ensures multiset(Standing(c))['\''] == if c == '\'' then 3 else 0
    ensures multiset([c])['\''] == if c == '\'' then 1 else 0
  {
    if c == '\'' {
      assert Standing(c) == ['\'', '"', '\'', '"', '\''];
      assert multiset(Standing(c)) == multiset{'\'', '"', '\'', '"', '\''};
    }
  }

  lemma JoinedCounts(a: string, b: string)
    ensures multiset(a + b)['\''] == multiset(a)['\''] + multiset(b)['\'']
  {
  }

  lemma EscapedStepCounts(s: string)
    requires s != ""
    ensures multiset(Escaped(s))['\''] == (if s[0] == '\'' then 3 else 0) + multiset(Escaped(s[1..]))['\'']
    ensures multiset(s)['\''] == (if s[0] == '\'' then 1 else 0) + multiset(s[1..])['\'']
  {
    hide Standing;
    StandingCounts(s[0]);
    JoinedCounts(Standing(s[0]), Escaped(s[1..]));
    JoinedCounts([s[0]], s[1..]);
    assert s == [s[0]] + s[1..];
    hide Escaped;
  }

  lemma {:induction false} EscapedTriplesQuotes(s: string)
    ensures multiset(Escaped(s))['\''] == 3 * multiset(s)['\'']
    ensures '\'' !in s ==> Escaped(s) == s
    decreases |s|
  {
    if s != "" {
      EscapedTriplesQuotes(s[1..]);
      EscapedStepCounts(s);
    }
  }

  // ---------- when the whole configuration comes back ----------

  /** The seven values as they were before they were written. */
  function Fields(c: Config): seq<Assignment> {
    Assignments(c)[0 := Assignment("CAJAL_AGENT_SERVER", c.server, true)]
  }

  predicate Holds(env: map<string, string>, fields: seq<Assignment>) {
    forall i :: 0 <= i < |fields| ==> fields[i].key in env && env[fields[i].key] == fields[i].value
  }

  /** Reading the file written for c gives back all of c. */
  predicate Recovered(c: Config) {
    Holds(Env(Lines(RenderEnvContent(c))), Fields(c))
  }

  predicate NoQuoteOrBreak(s: string) { '\'' !in s && OneLine(s) }

  predicate Recoverable(c: Config) {
    NormalizeServer(c.server) == c.server
    && NoQuoteOrBreak(c.server) && NoQuoteOrBreak(c.site) && NoQuoteOrBreak(c.password)
    && NoQuoteOrBreak(c.pollInterval) && NoQuoteOrBreak(c.installId) && NoQuoteOrBreak(c.installedAt)
  }

  predicate Upper(k: string) {
    forall i :: 0 <= i < |k| ==> 'A' <= k[i] <= 'Z' || k[i] == '_'
  }

  lemma UpperIsClean(k: string)
    requires Upper(k) && k != ""
    ensures CleanKey(k)
  {
  }

  lemma KeyLengths(c: Config)
    ensures
      var a := Assignments(c);
      && |a| == 7
      && |a[0].key| == 18 && |a[1].key| == 16 && |a[2].key| == 20 && |a[3].key| == 25 && |a[4].key| == 20
      && |a[5].key| == 22 && |a[6].key| == 24 && a[2].key[12] == 'P' && a[4].key[12] == 'I'
  {
  }

  lemma KeysAreUpper()
    ensures Upper("CAJAL_AGENT_SERVER") && Upper("CAJAL_AGENT_SITE") && Upper("CAJAL_AGENT_PASSWORD")
  {
  }

  lemma MoreKeysAreUpper()
    ensures Upper("CAJAL_AGENT_POLL_INTERVAL") && Upper("CAJAL_AGENT_INSECURE")
  {
  }

  lemma InstallKeysAreUpper()
    ensures Upper("CAJAL_AGENT_INSTALL_ID") && Upper("CAJAL_AGENT_INSTALLED_AT")
  {
  }

  lemma KeysAreClean(c: Config)
    ensures DistinctKeys(Assignments(c))
    ensures forall i :: 0 <= i < |Assignments(c)| ==> CleanKey(Assignments(c)[i].key)
  {
    KeyLengths(c);
    KeysAreUpper();
    MoreKeysAreUpper();
    InstallKeysAreUpper();
    var a := Assignments(c);
    hide Upper, CleanKey, NormalizeServer;
    forall i | 0 <= i < |a| ensures CleanKey(a[i].key) {
      UpperIsClean(a[i].key);
    }
    hide Assignments;
  }

  predicate FieldsOneLine(c: Config) {
    forall i :: 0 <= i < 7 ==> OneLine(Fields(c)[i].value)
  }

  /** The fields one by one, without the text of their keys. */
  lemma FieldValues(c: Config)
    ensures
      var a, f := Assignments(c), Fields(c);
      && |a| == |f| == 7 && (forall i :: 0 < i < 7 ==> a[i] == f[i])
      && (forall i :: 0 <= i < 7 ==> a[i].quoted == f[i].quoted == (i != 4))
      && a[0].value == NormalizeServer(c.server) && a[0].key == f[0].key && f[0].value == c.server
      && f[1].value == c.site && f[2].value == c.password && f[3].value == c.pollInterval
      && f[4].value == c.insecure && f[5].value == c.installId && f[6].value == c.installedAt
  {
    hide NormalizeServer;
  }

  lemma FileSetsFields(c: Config)
    requires (c.insecure == "0" || c.insecure == "1") && FieldsOneLine(c)
    ensures
      var env := Env(Lines(RenderEnvContent(c)));
      forall i :: 0 <= i < 7 ==> Fields(c)[i].key in env && env[Fields(c)[i].key] == ReadBack(Assignments(c)[i])
  {
    KeysAreClean(c);
    FieldValues(c);
    NormalizeServerDrops(c.server);
    hide Assignments, Fields, NormalizeServer, CleanKey, DistinctKeys, LineBreak, ReadBack, Env, Lines, Render;
    var a := Assignments(c);
    assert OneLine(Fields(c)[0].value);
    assert forall i :: 0 <= i < 7 ==> OneLine(a[i].value);
    assert AllWritable(a);
    FileSetsValues(a);
  }

  lemma RecoverableComesBack(c: Config)
    requires (c.insecure == "0" || c.insecure == "1") && Recoverable(c)
    ensures Recovered(c)
  {
    FieldValues(c);
    hide Assignments, Fields, NormalizeServer, Escaped, Lines, Env, RenderEnvContent;
    var fields := Fields(c);
    assert forall i :: 0 <= i < 7 && i != 4 ==> NoQuoteOrBreak(fields[i].value);
    assert OneLine(fields[4].value);
    FileSetsFields(c);
    forall i | 0 <= i < 7 ensures ReadBack(Assignments(c)[i]) == fields[i].value {
      EscapedTriplesQuotes(fields[i].value);
    }
  }

  lemma RecoveredWasRecoverable(c: Config)
    requires (c.insecure == "0" || c.insecure == "1") && Recovered(c)
    ensures Recoverable(c)
  {
    FieldValues(c);
    hide Assignments, Fields, Lines, Env, RenderEnvContent, NormalizeServer, Escaped, LineBreak, OneLine;
    var a, fields, env := Assignments(c), Fields(c), Env(Lines(RenderEnvContent(c)));
    forall i | 0 <= i < 7 ensures OneLine(fields[i].value) {
      ReadValuesAreOneLine(RenderEnvContent(c), fields[i].key);
    }
    FileSetsFields(c);
    forall i | 0 <= i < 7 ensures ReadBack(a[i]) == fields[i].value { }
    ServerComesBack(c.server);
    forall i | 0 < i < 7 && i != 4 ensures '\'' !in fields[i].value {
      EscapedTriplesQuotes(fields[i].value);
    }
    forall i | 0 <= i < 7 && i != 4 ensures NoQuoteOrBreak(fields[i].value) { }
  }

  lemma ServerComesBack(s: string)
    requires Escaped(NormalizeServer(s)) == s
    ensures NormalizeServer(s) == s && '\'' !in s
  {
    NormalizeServerDrops(s);
    EscapedTriplesQuotes(NormalizeServer(s));
    hide Escaped, NormalizeServer;
  }

  /** What a configuration needs to survive: a server that normalising leaves alone, and no quoted value
      with a single quote, a CR or an LF. */
  lemma RecoveredIff(c: Config)
    requires c.insecure == "0" || c.insecure == "1"
    ensures Recovered(c) <==> Recoverable(c)
  {
    hide *;
    if Recovered(c) { RecoveredWasRecoverable(c); }
    if Recoverable(c) { RecoverableComesBack(c); }
  }

  lemma {:induction false} StripLeftStarts(s: string)
    ensures StripLeft(s) != "" ==> !IsSpace(StripLeft(s)[0])
  {
    if s != "" && IsSpace(s[0]) { StripLeftStarts(s[1..]); }
  }

  lemma {:induction false} StripRightStarts(s: string)
    ensures |StripRight(s)| <= |s| && StripRight(s) == s[..|StripRight(s)|]
    ensures StripRight(s) == s <==> s == "" || !IsSpace(s[|s| - 1])
  {
    if s != "" && IsSpace(s[|s| - 1]) { StripRightStarts(s[..|s| - 1]); }
  }

  lemma {:induction false} DropSlashesEnds(s: string)
    ensures |DropSlashes(s)| <= |s| && DropSlashes(s) == s[..|DropSlashes(s)|]
    ensures DropSlashes(s) != "" ==> DropSlashes(s)[|DropSlashes(s)| - 1] != '/'
  {
    if s != "" && s[|s| - 1] == '/' { DropSlashesEnds(s[..|s| - 1]); }
  }

  /** Normalising a normalised server leaves it alone exactly if it does not end in white space, which
      the slashes that were dropped may have hidden. */
  lemma NormalizesTwiceIff(typed: string)
    ensures
      var server := NormalizeServer(typed);
      NormalizeServer(server) == server <==> server == "" || !IsSpace(server[|server| - 1])
  {
    hide IsSpace;
    var left, right, server := StripLeft(typed), Strip(typed), NormalizeServer(typed);
    StripLeftStarts(typed);
    StripRightStarts(left);
    DropSlashesEnds(right);
    StripRightStarts(server);
    DropSlashesEnds(StripRight(server));
    if server != "" { assert server[0] == left[0]; }
    assert StripLeft(server) == server;
    if StripRight(server) == server { assert DropSlashes(server) == server; }
  }

  /** A configuration whose server was normalised once, as the setup does, comes back exactly if the
      server does not end in white space and no quoted value holds a single quote, a CR or an LF. */
  lemma NormalizedServerComesBackIff(c: Config, typed: string)
    requires (c.insecure == "0" || c.insecure == "1") && c.server == NormalizeServer(typed)
    ensures Recovered(c) <==>
              && (c.server == "" || !IsSpace(c.server[|c.server| - 1]))
              && NoQuoteOrBreak(c.server) && NoQuoteOrBreak(c.site) && NoQuoteOrBreak(c.password)
              && NoQuoteOrBreak(c.pollInterval) && NoQuoteOrBreak(c.installId) && NoQuoteOrBreak(c.installedAt)
  {
    NormalizesTwiceIff(typed);
    RecoveredIff(c);
    hide Recovered, NormalizeServer, IsSpace, NoQuoteOrBreak;
  }

  /** A server typed with a blank before the final slash does not come back. */
  lemma NormalizedServerMayNotComeBack(c: Config)
    requires c.server == NormalizeServer("http://h /") && (c.insecure == "0" || c.insecure == "1")
    ensures c.server == "http://h " && !Recovered(c)
  {
    assert Strip("http://h /") == "http://h /";
    assert DropSlashes("http://h /") == "http://h ";
    NormalizedServerComesBackIff(c, "http://h /");
    hide Recovered;
  }

  // ---------- lines written by hand ----------

  predicate AllSpace(s: string) {
    forall i :: 0 <= i < |s| ==> IsSpace(s[i])
  }

  lemma {:induction false} StripLeftIs(a: string, s: string)
    requires AllSpace(a) && (s == "" || !IsSpace(s[0]))
    ensures StripLeft(a + s) == s
    decreases |a|
  {
    hide IsSpace;
    if a == "" {
      assert a + s == s;
    } else {
      assert (a + s)[0] == a[0] && (a + s)[1..] == a[1..] + s;
      StripLeftIs(a[1..], s);
    }
  }

  lemma {:induction false} StripRightIs(s: string, b: string)
    requires AllSpace(b) && (s == "" || !IsSpace(s[|s| - 1]))
    ensures StripRight(s + b) == s
    decreases |b|
  {
    hide IsSpace;
    if b == "" {
      assert s + b == s;
    } else {
      var n := |b| - 1;
      assert (s + b)[|s + b| - 1] == b[n] && (s + b)[..|s + b| - 1] == s + b[..n];
      StripRightIs(s, b[..n]);
    }
  }

  lemma StripIs(a: string, s: string, b: string)
    requires AllSpace(a) && AllSpace(b) && Tight(s)
    ensures Strip(a + s + b) == s
  {
    assert a + s + b == a + (s + b) && (s + b)[0] == s[0];
    StripLeftIs(a, s + b);
    StripRightIs(s, b);
  }

  lemma StripSpace(a: string)
    requires AllSpace(a)
    ensures Strip(a) == ""
  {
    assert a + "" == a;
    StripLeftIs(a, "");
  }

  /** White space around key and value is dropped; what is left of the value loses its outer quotes. */
  lemma HandwrittenLineSets(a: string, key: string, b: string, c: string, text: string, d: string)
    requires AllSpace(a) && AllSpace(b) && AllSpace(c) && AllSpace(d)
    requires Tight(key) && key[0] != '#' && '=' !in key && (text == "" || Tight(text))
    ensures Setting(a + (key + b + "=" + (c + text)) + d) == Some((key, Unquoted(text)))
    ensures text == "" ==> Setting(a + (key + b + "=") + (c + d)) == Some((key, ""))
  {
    hide IsSpace, Strip, Unquoted, StripLeft, StripRight;
    SpaceHasNoEquals(b);
    StripIs("", key, b);
    assert "" + key + b == key + b;
    if text == "" {
      assert a + (key + b + "=" + (c + text)) + d == a + (key + b + "=") + (c + d);
      StripSpace("");
      LineIs(a, key, b, "", c + d);
      assert key + b + "=" + "" == key + b + "=";
    } else {
      StripIs(c, text, "");
      assert c + text + "" == c + text;
      LineIs(a, key, b, c + text, d);
    }
    UnquotedNothing();
  }

  lemma UnquotedNothing()
    ensures Unquoted("") == ""
  {
  }

  lemma SpaceHasNoEquals(b: string)
    requires AllSpace(b)
    ensures '=' !in b
  {
  }

  lemma LineIs(a: string, key: string, b: string, value: string, d: string)
    requires AllSpace(a) && AllSpace(b) && AllSpace(d) && Tight(key) && key[0] != '#' && '=' !in key
    requires value == "" || !IsSpace(value[|value| - 1])
    ensures Setting(a + (key + b + "=" + value) + d) == Some((Strip(key + b), Unquoted(Strip(value))))
  {
    hide Strip, Unquoted, StripLeft, StripRight;
    var line := key + b + "=" + value;
    SpaceHasNoEquals(b);
    assert line[0] == key[0];
    assert line[|line| - 1] == if value == "" then '=' else value[|value| - 1];
    StripIs(a, line, d);
    hide IsSpace;
    FirstEquals(key + b, value);
    assert line[..|key + b|] == key + b && line[|key + b| + 1..] == value;
  }

  /** Comments and lines without an equals sign set nothing. */
  lemma IgnoredLines(a: string, text: string, raw: string)
    requires AllSpace(a) && '=' !in raw
    ensures Setting(a + "#" + text) == None && Setting(raw) == None
  {
    hide IsSpace, FindEquals;
    assert !IsSpace('#') by { HashIsNoSpace(); }
    assert a + "#" + text == a + ("#" + text);
    StripLeftIs(a, "#" + text);
    StripRightKeeps("#" + text);
    hide StripLeft, StripRight;
    StripLeftDrops(raw);
    StripRightDrops(StripLeft(raw));
    NoEquals(Strip(raw));
  }

  lemma HashIsNoSpace()
    ensures !IsSpace('#')
  {
  }

  lemma {:induction false} StripRightKeeps(s: string)
    requires s != "" && !IsSpace(s[0])
    ensures StripRight(s) != "" && StripRight(s)[0] == s[0]
    decreases |s|
  {
    if IsSpace(s[|s| - 1]) { StripRightKeeps(s[..|s| - 1]); }
  }

  lemma {:induction false} NoEquals(s: string)
    requires '=' !in s
    ensures FindEquals(s) == |s|
  {
    if s != "" { NoEquals(s[1..]); }
  }

  /** Of several lines that set a key the last one counts. */
  lemma {:induction false} LastLineCounts(lines: seq<string>, i: nat, key: string, value: string)
    requires i < |lines| && Setting(lines[i]) == Some((key, value))
    requires forall j :: i < j < |lines| && Setting(lines[j]).Some? ==> Setting(lines[j]).value.0 != key
    ensures key in Env(lines) && Env(lines)[key] == value
    decreases |lines|
  {
    hide Setting;
    if i < |lines| - 1 { LastLineCounts(lines[..|lines| - 1], i, key, value); }
  }

  lemma {:induction false} OnlyLinesSet(lines: seq<string>, key: string)
    requires key in Env(lines)
    ensures exists i :: 0 <= i < |lines| && Setting(lines[i]).Some? && Setting(lines[i]).value.0 == key
    decreases |lines|
  {
    hide Setting;
    var n := |lines| - 1;
    if !(Setting(lines[n]).Some? && Setting(lines[n]).value.0 == key) {
      OnlyLinesSet(lines[..n], key);
      var i :| 0 <= i < n && Setting(lines[..n][i]).Some? && Setting(lines[..n][i]).value.0 == key;
      assert Setting(lines[i]).Some?;
    }
  }

  /** A line ends at LF, at CR LF, and at CR alone. */
  lemma {:induction false} LinesEndAt(line: string, end: string, rest: string, before: string)
    requires OneLine(line) && end in ["\n", "\r\n", "\r"] && (end == "\r" ==> rest == "" || rest[0] != '\n')
    ensures LinesFrom(line + end + rest, before) == [before + line] + Lines(rest)
    decreases |line|
  {
    var s := line + end + rest;
    if line == "" {
      assert before + line == before && s == end + rest && s[|end|..] == rest;
    } else {
      assert s[0] == line[0] && line[0] in line && s[1..] == line[1..] + end + rest;
      LinesEndAt(line[1..], end, rest, before + [line[0]]);
      assert before + [line[0]] + line[1..] == before + line;
    }
  }

  /** Quotes of either kind are dropped when they stand at both ends, once, and not otherwise. */
  lemma QuotesDropped(v: string, quote: char)
    ensures quote == '\'' || quote == '"' ==> Unquoted([quote] + v + [quote]) == v
    ensures Unquoted(v) == v <==> |v| < 2 || v[0] != v[|v| - 1] || (v[0] != '\'' && v[0] != '"')
  {
    assert ([quote] + v + [quote])[1..|v| + 1] == v;
  }
}
