/** Quoting of values for the shell: shell_quote (agent/cajal-agent-setup.py:61-63) and shellQuoteArg
    (lib/agent.js:525-527), read back by the quoting rules of section 2.2 of the POSIX Shell Command
    Language. */
module ShellWords {
  import opened Shared

  /** What stands for a character between single quotes: '"'"' for a single quote. */
  function Standing(c: char): string {
    if c == '\'' then "'\"'\"'" else [c]
  }

  /** Every single quote replaced. */
  function Escaped(s: string): string {
    if s == "" then "" else Standing(s[0]) + Escaped(s[1..])
  }

  function ShellQuote(s: string): string {
    "'" + Escaped(s) + "'"
  }

  // ---------- how the shell reads words ----------

  datatype Mode = Between | Unquoted | SingleQuoted | DoubleQuoted

  predicate Blank(c: char) { c == ' ' || c == '\t' }

  /** Characters that are operators or start an expansion when they are not quoted. */
  predicate Special(c: char) {
    c in "|&;<>()$`\n*?[#~"
  }

  function Cons(word: string, words: Option<seq<string>>): Option<seq<string>> {
    if words.None? then None else Some([word] + words.value)
  }

  /** The words of one simple command; None when a quote is not closed, or an operator or an expansion
      is met. `word` is what has been read of the current word. */
  function Parse(s: string, mode: Mode, word: string): Option<seq<string>>
    decreases |s|
  {
    if s == "" then
      match mode
      case Between => Some([])
      case Unquoted => Some([word])
      case SingleQuoted => None
      case DoubleQuoted => None
    else
      match mode
      case SingleQuoted =>
        if s[0] == '\'' then Parse(s[1..], Unquoted, word) else Parse(s[1..], SingleQuoted, word + [s[0]])
      case DoubleQuoted =>
        if s[0] == '"' then Parse(s[1..], Unquoted, word)
        else if s[0] == '$' || s[0] == '`' then None
        else if s[0] == '\\' && |s| >= 2 && s[1] == '\n' then Parse(s[2..], DoubleQuoted, word)
        else if s[0] == '\\' && |s| >= 2 && s[1] in "$`\"\\" then Parse(s[2..], DoubleQuoted, word + [s[1]])
        else Parse(s[1..], DoubleQuoted, word + [s[0]])
      case Between =>
        if Blank(s[0]) then Parse(s[1..], Between, "") else Start(s, mode, "")
      case Unquoted =>
        if Blank(s[0]) then Cons(word, Parse(s[1..], Between, "")) else Start(s, mode, word)
  }

  function Start(s: string, mode: Mode, word: string): Option<seq<string>>
    requires s != "" && !Blank(s[0])
    decreases |s|, 0
  {
    if s[0] == '\'' then Parse(s[1..], SingleQuoted, word)
    else if s[0] == '"' then Parse(s[1..], DoubleQuoted, word)
    else if s[0] == '\\' then
      if |s| < 2 then None
      else if s[1] == '\n' then Parse(s[2..], mode, word)
      else Parse(s[2..], Unquoted, word + [s[1]])
    else if Special(s[0]) then None
    else Parse(s[1..], Unquoted, word + [s[0]])
  }

  function Words(s: string): Option<seq<string>> {
    Parse(s, Between, "")
  }

  // ---------- a quoted value is read back as itself ----------

  /** Inside single quotes '"'"' adds one single quote. */
  lemma EscapedQuoteIsQuote(rest: string, word: string)
    ensures Parse("'\"'\"'" + rest, SingleQuoted, word) == Parse(rest, SingleQuoted, word + ['\''])
  {
    var s := "'\"'\"'" + rest;
    assert s[1..] == "\"'\"'" + rest;
    assert s[2..] == "'\"'" + rest;
    assert s[3..] == "\"'" + rest;
    assert s[4..] == "'" + rest;
    assert s[5..] == rest;
    Closes("\"'\"'" + rest, word);
    assert s[1..][1..] == s[2..] && s[2..][1..] == s[3..] && s[3..][1..] == s[4..] && s[4..][1..] == s[5..];
    Opens('"', s[2..], word);
    OneQuoteInDouble(s[3..], word);
    DoubleCloses(s[4..], word + ['\'']);
    Opens('\'', s[5..], word + ['\'']);
    assert s == ['\''] + s[1..] && s[1..] == ['"'] + s[2..] && s[2..] == ['\''] + s[3..]
        && s[3..] == ['"'] + s[4..] && s[4..] == ['\''] + s[5..];
  }

  lemma Closes(rest: string, word: string)
    ensures Parse(['\''] + rest, SingleQuoted, word) == Parse(rest, Unquoted, word)
  {
    assert (['\''] + rest)[1..] == rest;
  }

  lemma DoubleCloses(rest: string, word: string)
    ensures Parse(['"'] + rest, DoubleQuoted, word) == Parse(rest, Unquoted, word)
  {
    assert (['"'] + rest)[1..] == rest;
  }

  lemma OneQuoteInDouble(rest: string, word: string)
    ensures Parse(['\''] + rest, DoubleQuoted, word) == Parse(rest, DoubleQuoted, word + ['\''])
  {
    assert (['\''] + rest)[1..] == rest;
  }

  lemma Opens(quote: char, rest: string, word: string)
    requires quote == '\'' || quote == '"'
    ensures Parse([quote] + rest, Unquoted, word) == Parse(rest, if quote == '"' then DoubleQuoted else SingleQuoted, word)
  {
    assert ([quote] + rest)[1..] == rest;
  }

  lemma Taken(c: char, rest: string, word: string)
    requires c != '\''
    ensures Parse([c] + rest, SingleQuoted, word) == Parse(rest, SingleQuoted, word + [c])
  {
    assert ([c] + rest)[1..] == rest;
  }

  lemma StandingIsRead(c: char, rest: string, word: string)
    ensures Parse(Standing(c) + rest, SingleQuoted, word) == Parse(rest, SingleQuoted, word + [c])
  {
    hide Parse;
    if c == '\'' {
      EscapedQuoteIsQuote(rest, word);
    } else {
      Taken(c, rest, word);
    }
  }

  lemma {:induction false} EscapedIsRead(s: string, rest: string, word: string)
    ensures Parse(Escaped(s) + ("'" + rest), SingleQuoted, word) == Parse(rest, Unquoted, word + s)
    decreases |s|
  {
    hide Parse, Standing;
    if s == "" {
      assert "" + ("'" + rest) == ['\''] + rest && word + s == word;
      Closes(rest, word);
    } else {
      var tail := Escaped(s[1..]) + ("'" + rest);
      assert Escaped(s) + ("'" + rest) == Standing(s[0]) + tail;
      StandingIsRead(s[0], tail, word);
      EscapedIsRead(s[1..], rest, word + [s[0]]);
      assert word + [s[0]] + s[1..] == word + s;
    }
  }

  /** Wherever a word may start or go on, a quoted value adds exactly the value to it. */
  lemma QuotedIsRead(s: string, rest: string, mode: Mode, word: string)
    requires mode == Between ==> word == ""
    requires mode == Between || mode == Unquoted
    ensures Parse(ShellQuote(s) + rest, mode, word) == Parse(rest, Unquoted, word + s)
  {
    var text := ShellQuote(s) + rest;
    assert text[0] == '\'' && text[1..] == Escaped(s) + ("'" + rest);
    EscapedIsRead(s, rest, word);
    hide Escaped;
  }

  /** A quoted value is one word, the value itself. */
  lemma QuotedIsOneWord(s: string)
    ensures Words(ShellQuote(s)) == Some([s])
  {
    QuotedIsRead(s, "", Between, "");
    assert ShellQuote(s) + "" == ShellQuote(s) && "" + s == s;
  }

  // ---------- whole command lines ----------

  /** The command lines the server offers are fixed words and quoted values (lib/routes/sites.js:233). */
  datatype Piece = Plain(word: string) | Quoted(value: string)

  predicate PlainWord(w: string) {
    w != "" && forall c :: c in w ==> !Blank(c) && !Special(c) && c != '\'' && c != '"' && c != '\\'
  }

  predicate WellFormed(p: Piece) { p.Plain? ==> PlainWord(p.word) }

  function Text(p: Piece): string {
    match p
    case Plain(word) => word
    case Quoted(value) => ShellQuote(value)
  }

  function Meaning(p: Piece): string {
    match p
    case Plain(word) => word
    case Quoted(value) => value
  }

  function CommandLine(pieces: seq<Piece>): string {
    if pieces == [] then ""
    else if |pieces| == 1 then Text(pieces[0])
    else Text(pieces[0]) + " " + CommandLine(pieces[1..])
  }

  function Meanings(pieces: seq<Piece>): seq<string> {
    seq(|pieces|, i requires 0 <= i < |pieces| => Meaning(pieces[i]))
  }

  lemma {:induction false} PlainIsRead(w: string, rest: string, mode: Mode, word: string)
    requires forall c :: c in w ==> !Blank(c) && !Special(c) && c != '\'' && c != '"' && c != '\\'
    requires mode == Unquoted || (mode == Between && word == "" && w != "")
    ensures Parse(w + rest, mode, word) == Parse(rest, Unquoted, word + w)
    decreases |w|
  {
    if w == "" {
      assert w + rest == rest && word + w == word;
    } else {
      assert (w + rest)[0] == w[0] && (w + rest)[1..] == w[1..] + rest;
      assert w[0] in w;
      PlainIsRead(w[1..], rest, Unquoted, word + [w[0]]);
      assert word + [w[0]] + w[1..] == word + w;
    }
  }

  lemma PieceIsRead(p: Piece, rest: string)
    requires WellFormed(p)
    ensures Parse(Text(p) + rest, Between, "") == Parse(rest, Unquoted, Meaning(p))
  {
    assert "" + Meaning(p) == Meaning(p);
    match p
    case Plain(word) => PlainIsRead(word, rest, Between, "");
    case Quoted(value) => QuotedIsRead(value, rest, Between, "");
  }

  lemma BlankEndsWord(rest: string, word: string)
    ensures Parse(" " + rest, Unquoted, word) == Cons(word, Parse(rest, Between, ""))
  {
    assert (" " + rest)[1..] == rest;
  }

  /** The shell reads a command line of fixed words and quoted values as exactly those words and
      values, whatever characters the values hold. */
  lemma {:induction false} CommandLineIsRead(pieces: seq<Piece>)
    requires forall i :: 0 <= i < |pieces| ==> WellFormed(pieces[i])
    ensures Words(CommandLine(pieces)) == Some(Meanings(pieces))
    decreases |pieces|
  {
    hide ShellQuote, Meaning, WellFormed;
    if pieces == [] {
    } else if |pieces| == 1 {
      PieceIsRead(pieces[0], "");
      assert Text(pieces[0]) + "" == CommandLine(pieces);
      assert Meanings(pieces) == [Meaning(pieces[0])];
    } else {
      var rest := CommandLine(pieces[1..]);
      PieceIsRead(pieces[0], " " + rest);
      assert Text(pieces[0]) + (" " + rest) == CommandLine(pieces);
      BlankEndsWord(rest, Meaning(pieces[0]));
      CommandLineIsRead(pieces[1..]);
      assert Meanings(pieces) == [Meaning(pieces[0])] + Meanings(pieces[1..]);
    }
  }
}
