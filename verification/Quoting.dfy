/** internal/updater/updater.go: paths written into shell text, and what the shell
    makes of that text. The POSIX side follows the Shell Command Language of
    POSIX.1-2017, sections 2.2.2, 2.2.3 and 2.3, as far as words, quotes, blanks and
    single-character operators go. */
module Quoting {
  import opened Wrappers

  // ---- the POSIX shell's words ----

  datatype Mode = Bare | SingleQuoted | DoubleQuoted | Escaped | EscapedInDouble

  datatype Token = Word(s: string) | Op(c: char)

  /** `word` is the word being read, if one is. */
  datatype Lexer = Lexer(mode: Mode, inWord: bool, word: string, tokens: seq<Token>)

  const START := Lexer(Bare, false, "", [])

  predicate IsBlank(c: char) { c == ' ' || c == '\t' }

  predicate IsOperator(c: char) {
    c == ';' || c == '&' || c == '|' || c == '<' || c == '>' || c == '(' || c == ')' || c == '\n'
  }

  /** A character that stands for itself outside quotes. */
  predicate IsPlain(c: char) {
    !IsBlank(c) && !IsOperator(c) && c != '\'' && c != '"' && c != '\\'
  }

  function Broken(l: Lexer): Lexer {
    if l.inWord then Lexer(l.mode, false, "", l.tokens + [Word(l.word)]) else l
  }

  function Grown(l: Lexer, mode: Mode, s: string): Lexer {
    Lexer(mode, true, l.word + s, l.tokens)
  }

  function Step(l: Lexer, c: char): Lexer {
    match l.mode
    case Bare =>
      if IsBlank(c) then Broken(l)
      else if IsOperator(c) then Broken(l).(tokens := Broken(l).tokens + [Op(c)])
      else if c == '\'' then Grown(l, SingleQuoted, "")
      else if c == '"' then Grown(l, DoubleQuoted, "")
      else if c == '\\' then l.(mode := Escaped)
      else Grown(l, Bare, [c])
    case SingleQuoted => if c == '\'' then Grown(l, Bare, "") else Grown(l, SingleQuoted, [c])
    case DoubleQuoted =>
      if c == '"' then Grown(l, Bare, "")
      else if c == '\\' then Grown(l, EscapedInDouble, "")
      else Grown(l, DoubleQuoted, [c])
    case Escaped => if c == '\n' then l.(mode := Bare) else Grown(l, Bare, [c])
    case EscapedInDouble =>
      if c == '$' || c == '`' || c == '"' || c == '\\' then Grown(l, DoubleQuoted, [c])
      else if c == '\n' then Grown(l, DoubleQuoted, "")
      else Grown(l, DoubleQuoted, ['\\', c])
  }

  function Lex(l: Lexer, s: string): Lexer
    decreases s
  {
    if s == "" then l else Lex(Step(l, s[0]), s[1..])
  }

  lemma {:induction false} LexJoins(l: Lexer, a: string, b: string)
    ensures Lex(l, a + b) == Lex(Lex(l, a), b)
    decreases a
  {
    if a == "" {
      assert a + b == b;
    } else {
      LexJoins(Step(l, a[0]), a[1..], b);
      assert (a + b)[0] == a[0] && (a + b)[1..] == a[1..] + b;
    }
  }

  // ---- shellQuote ----

  /** strings.ReplaceAll of the one character `c`. */
  function Replaced(s: string, c: char, sub: string): string {
    if s == "" then "" else (if s[0] == c then sub else [s[0]]) + Replaced(s[1..], c, sub)
  }

  function ShellQuote(value: string): string {
    "'" + Replaced(value, '\'', "'\"'\"'") + "'"
  }

  lemma OneChar(l: Lexer, c: char)
    ensures Lex(l, [c]) == Step(l, c)
  {
    assert [c][1..] == "";
  }

  /** Out of the quotes, a quote in the other quotes, and in again. */
  lemma QuoteReplaced(l: Lexer)
    requires l.mode == SingleQuoted && l.inWord
    ensures Lex(l, "'\"'\"'") == Grown(l, SingleQuoted, "'")
  {
    var l1 := Grown(l, Bare, "");
    assert Step(l, '\'') == l1;
    var l2 := Step(l1, '"');
    var l3 := Step(l2, '\'');
    var l4 := Step(l3, '"');
    OneChar(l4, '\'');
    assert "'\"'\"'"[1..] == "\"'\"'" && "\"'\"'"[1..] == "'\"'" && "'\"'"[1..] == "\"'" && "\"'"[1..] == "'";
    assert Lex(l3, "\"'") == Lex(l4, "'");
    assert Lex(l2, "'\"'") == Lex(l3, "\"'");
    assert Lex(l1, "\"'\"'") == Lex(l2, "'\"'");
  }

  lemma {:induction false} InsideQuotes(l: Lexer, s: string)
    requires l.mode == SingleQuoted && l.inWord
    ensures Lex(l, Replaced(s, '\'', "'\"'\"'")) == Grown(l, SingleQuoted, s)
    decreases s
  {
    if s != "" {
      var head := if s[0] == '\'' then "'\"'\"'" else [s[0]];
      LexJoins(l, head, Replaced(s[1..], '\'', "'\"'\"'"));
      if s[0] == '\'' {
        QuoteReplaced(l);
      } else {
        OneChar(l, s[0]);
      }
      InsideQuotes(Grown(l, SingleQuoted, [s[0]]), s[1..]);
      assert l.word + [s[0]] + s[1..] == l.word + s;
    } else {
      assert l.word + s == l.word;
    }
  }

  /** Wherever the shell is outside quotes, a quoted value adds exactly the value to
      the word being read, and leaves the shell outside quotes again. */
  lemma ShellQuoteIsTheValue(l: Lexer, s: string)
    requires l.mode == Bare
    ensures Lex(l, ShellQuote(s)) == Grown(l, Bare, s)
  {
    var body := Replaced(s, '\'', "'\"'\"'");
    LexJoins(l, "'" + body, "'");
    LexJoins(l, "'", body);
    OneChar(l, '\'');
    InsideQuotes(Grown(l, SingleQuoted, ""), s);
    OneChar(Grown(l, SingleQuoted, s), '\'');
    assert l.word + "" + s == l.word + s == l.word + s + "";
  }

  // ---- commands of quoted and plain words ----

  datatype Item = Plain(w: string) | Quoted(s: string) | Operator(c: char, afterBlank: bool)

  predicate Writable(i: Item) {
    match i
    case Plain(w) => w != "" && forall j :: 0 <= j < |w| ==> IsPlain(w[j])
    case Quoted(_) => true
    case Operator(c, _) => IsOperator(c)
  }

  function Text(i: Item): string {
    match i
    case Plain(w) => " " + w
    case Quoted(s) => " " + ShellQuote(s)
    case Operator(c, afterBlank) => if afterBlank then [' ', c] else [c]
  }

  function Meaning(i: Item): Token {
    match i
    case Plain(w) => Word(w)
    case Quoted(s) => Word(s)
    case Operator(c, _) => Op(c)
  }

  predicate AllWritable(items: seq<Item>) {
    forall i :: 0 <= i < |items| ==> Writable(items[i])
  }

  function Meanings(items: seq<Item>): seq<Token> {
    seq(|items|, i requires 0 <= i < |items| => Meaning(items[i]))
  }

  function Rendered(items: seq<Item>): string {
    if items == [] then "" else Rendered(items[..|items| - 1]) + Text(items[|items| - 1])
  }

  lemma {:induction false} PlainWord(l: Lexer, w: string)
    requires l.mode == Bare && w != "" && forall j :: 0 <= j < |w| ==> IsPlain(w[j])
    ensures Lex(l, w) == Grown(l, Bare, w)
    decreases w
  {
    if |w| == 1 {
      assert w == [w[0]];
      OneChar(l, w[0]);
    } else {
      PlainWord(Grown(l, Bare, [w[0]]), w[1..]);
      assert l.word + [w[0]] + w[1..] == l.word + w;
    }
  }

  /** Outside quotes, and nothing kept of a word that has ended. */
  predicate Between(l: Lexer) {
    l.mode == Bare && (!l.inWord ==> l.word == "")
  }

  lemma OneOperator(l: Lexer, c: char, afterBlank: bool)
    requires Between(l) && IsOperator(c)
    ensures Lex(l, Text(Operator(c, afterBlank))) == Lexer(Bare, false, "", Broken(l).tokens + [Op(c)])
  {
    OneChar(l, c);
    if afterBlank {
      OneChar(l, ' ');
      OneChar(Broken(l), c);
      assert [' ', c] == [' '] + [c];
      LexJoins(l, [' '], [c]);
    }
  }

  lemma OneItem(l: Lexer, i: Item)
    requires Between(l) && Writable(i)
    ensures Between(Lex(l, Text(i)))
    ensures Broken(Lex(l, Text(i))).tokens == Broken(l).tokens + [Meaning(i)]
    ensures i.Operator? ==> !Lex(l, Text(i)).inWord
  {
    match i
    case Plain(w) =>
      LexJoins(l, " ", w);
      OneChar(l, ' ');
      PlainWord(Broken(l), w);
      assert "" + w == w;
    case Quoted(s) =>
      LexJoins(l, " ", ShellQuote(s));
      OneChar(l, ' ');
      ShellQuoteIsTheValue(Broken(l), s);
      assert "" + s == s;
    case Operator(c, afterBlank) =>
      OneOperator(l, c, afterBlank);
  }

  lemma MeaningsMore(items: seq<Item>)
    requires items != []
    ensures var n := |items| - 1;
      Meanings(items) == Meanings(items[..n]) + [Meaning(items[n])]
  {
  }

  /** The shell reads back, one token each, the items a command was written from. */
  lemma {:induction false} ItemsReadBack(items: seq<Item>)
    requires AllWritable(items)
    ensures Between(Lex(START, Rendered(items)))
    ensures Broken(Lex(START, Rendered(items))).tokens == Meanings(items)
    ensures items != [] && items[|items| - 1].Operator? ==> !Lex(START, Rendered(items)).inWord
  {
    if items == [] {
    } else {
      var n := |items| - 1;
      var front := Lex(START, Rendered(items[..n]));
      ItemsReadBack(items[..n]);
      LexJoins(START, Rendered(items[..n]), Text(items[n]));
      OneItem(front, items[n]);
      MeaningsMore(items);
    }
  }

  /** After an operator no word is open, so the shell goes on from the tokens so far,
      whatever follows. */
  lemma ReadsOn(items: seq<Item>, more: string)
    requires AllWritable(items) && items != [] && items[|items| - 1].Operator?
    ensures Lex(START, Rendered(items) + more) == Lex(Lexer(Bare, false, "", Meanings(items)), more)
  {
    ItemsReadBack(items);
    LexJoins(START, Rendered(items), more);
  }

  // ---- the rollback script ----

  /** posixRollbackScript; `seconds` is the delay in digits and `restart` what
      restartCommand says. */
  function PosixRollbackScript(seconds: string, pending: string, backup: string, current: string,
                               restart: string): string
  {
    ("sleep " + seconds + ";") +
    (" if test -f " + ShellQuote(pending) + ";") +
    (" then cp " + ShellQuote(backup) + " " + ShellQuote(current) + " &&") +
    (" chmod 755 " + ShellQuote(current) + " &&") +
    (" " + restart + "; fi")
  }

  function WaitItems(seconds: string): seq<Item> {
    [Plain("sleep"), Plain(seconds), Operator(';', false)]
  }

  function TestItems(pending: string): seq<Item> {
    [Plain("if"), Plain("test"), Plain("-f")] + [Quoted(pending), Operator(';', false)]
  }

  function CopyItems(backup: string, current: string): seq<Item> {
    [Plain("then"), Plain("cp"), Quoted(backup)] + [Quoted(current), Operator('&', true), Operator('&', false)]
  }

  function MarkItems(current: string): seq<Item> {
    [Plain("chmod"), Plain("755"), Quoted(current)] + [Operator('&', true), Operator('&', false)]
  }

  function RollbackItems(seconds: string, pending: string, backup: string, current: string): seq<Item> {
    WaitItems(seconds) + TestItems(pending) + CopyItems(backup, current) + MarkItems(current)
  }

  lemma RenderedMore(items: seq<Item>, i: Item)
    ensures Rendered(items + [i]) == Rendered(items) + Text(i)
  {
    assert (items + [i])[..|items|] == items;
  }

  lemma {:induction false} RenderedJoins(a: seq<Item>, b: seq<Item>)
    ensures Rendered(a + b) == Rendered(a) + Rendered(b)
  {
    if b == [] {
      assert a + b == a;
      assert Rendered(a) + "" == Rendered(a);
    } else {
      var front, i := b[..|b| - 1], b[|b| - 1];
      assert b == front + [i] && a + b == (a + front) + [i];
      RenderedJoins(a, front);
      RenderedMore(a + front, i);
      RenderedMore(front, i);
      Glue(Rendered(a), Rendered(front), Text(i));
    }
  }

  lemma Glue(x: string, y: string, z: string)
    ensures x + y + z == x + (y + z)
  {
  }

  lemma OneRendered(i: Item)
    ensures Rendered([i]) == Text(i)
  {
    assert [i][..0] == [] && "" + Text(i) == Text(i);
  }

  lemma TwoRendered(i: Item, j: Item)
    ensures Rendered([i, j]) == Text(i) + Text(j)
  {
    OneRendered(i);
    assert [i, j][..1] == [i];
  }

  lemma ThreeRendered(i: Item, j: Item, k: Item)
    ensures Rendered([i, j, k]) == Text(i) + Text(j) + Text(k)
  {
    TwoRendered(i, j);
    assert [i, j, k][..2] == [i, j];
  }

  lemma WaitRendered(seconds: string)
    ensures Rendered(WaitItems(seconds)) == " sleep " + seconds + ";"
  {
    ThreeRendered(Plain("sleep"), Plain(seconds), Operator(';', false));
    assert " sleep" + (" " + seconds) == " sleep " + seconds;
  }

  lemma TestRendered(pending: string)
    ensures Rendered(TestItems(pending)) == " if test -f " + ShellQuote(pending) + ";"
  {
    var i, t, f, q, semi := Plain("if"), Plain("test"), Plain("-f"), Quoted(pending), Operator(';', false);
    ThreeRendered(i, t, f);
    TwoRendered(q, semi);
    RenderedJoins([i, t, f], [q, semi]);
    TestText(ShellQuote(pending));
  }

  lemma TestText(q: string)
    ensures " " + "if" + (" " + "test") + (" " + "-f") + ((" " + q) + [';']) == " if test -f " + q + ";"
  {
  }

  lemma CopyRendered(backup: string, current: string)
    ensures Rendered(CopyItems(backup, current)) == " then cp " + ShellQuote(backup) + " " + ShellQuote(current) + " &&"
  {
    var t, c, b, q := Plain("then"), Plain("cp"), Quoted(backup), Quoted(current);
    var and, more := Operator('&', true), Operator('&', false);
    ThreeRendered(t, c, b);
    ThreeRendered(q, and, more);
    RenderedJoins([t, c, b], [q, and, more]);
    CopyText(ShellQuote(backup), ShellQuote(current));
  }

  lemma CopyText(b: string, c: string)
    ensures " " + "then" + (" " + "cp") + (" " + b) + ((" " + c) + [' ', '&'] + ['&'])
         == " then cp " + b + " " + c + " &&"
  {
    var front, back := " then cp " + b, " " + c + " &&";
    assert " " + "then" + (" " + "cp") + (" " + b) == front;
    assert (" " + c) + [' ', '&'] + ['&'] == back;
    Glue(front, " " + c, " &&");
    Glue(front, " ", c);
  }

  lemma MarkRendered(current: string)
    ensures Rendered(MarkItems(current)) == " chmod 755 " + ShellQuote(current) + " &&"
  {
    var c, m, q, and, more := Plain("chmod"), Plain("755"), Quoted(current), Operator('&', true), Operator('&', false);
    ThreeRendered(c, m, q);
    TwoRendered(and, more);
    RenderedJoins([c, m, q], [and, more]);
    MarkText(ShellQuote(current));
  }

  lemma MarkText(q: string)
    ensures " " + "chmod" + (" " + "755") + (" " + q) + ([' ', '&'] + ['&']) == " chmod 755 " + q + " &&"
  {
  }

  lemma ScriptJoins(seconds: string, pending: string, backup: string, current: string)
    ensures Rendered(RollbackItems(seconds, pending, backup, current)) ==
            Rendered(WaitItems(seconds)) + Rendered(TestItems(pending)) + Rendered(CopyItems(backup, current))
            + Rendered(MarkItems(current))
  {
    var w, t, c, m := WaitItems(seconds), TestItems(pending), CopyItems(backup, current), MarkItems(current);
    RenderedJoins(w, t);
    RenderedJoins(w + t, c);
    RenderedJoins(w + t + c, m);
  }

  lemma ScriptRendered(seconds: string, pending: string, backup: string, current: string, restart: string)
    ensures " " + PosixRollbackScript(seconds, pending, backup, current, restart) ==
            Rendered(RollbackItems(seconds, pending, backup, current)) + (" " + restart + "; fi")
  {
    WaitRendered(seconds);
    TestRendered(pending);
    CopyRendered(backup, current);
    MarkRendered(current);
    ScriptJoins(seconds, pending, backup, current);
    BlankWait(seconds);
    BlankFirst("sleep " + seconds + ";", Rendered(TestItems(pending)), Rendered(CopyItems(backup, current)),
               Rendered(MarkItems(current)), " " + restart + "; fi");
  }

  lemma BlankWait(seconds: string)
    ensures " " + ("sleep " + seconds + ";") == " sleep " + seconds + ";"
  {
  }

  lemma BlankFirst(a: string, b: string, c: string, d: string, e: string)
    ensures " " + (a + b + c + d + e) == (" " + a) + b + c + d + e
  {
    Glue(" ", a + b + c + d, e);
    Glue(" ", a + b + c, d);
    Glue(" ", a + b, c);
    Glue(" ", a, b);
  }

  predicate IsNumber(s: string) {
    s != "" && forall i :: 0 <= i < |s| ==> '0' <= s[i] <= '9'
  }

  lemma PlainWords()
    ensures Writable(Plain("sleep")) && Writable(Plain("if")) && Writable(Plain("test")) && Writable(Plain("-f"))
  {
  }

  lemma MorePlainWords()
    ensures Writable(Plain("then")) && Writable(Plain("cp")) && Writable(Plain("chmod")) && Writable(Plain("755"))
  {
  }

  lemma RollbackWritable(seconds: string, pending: string, backup: string, current: string)
    requires IsNumber(seconds)
    ensures AllWritable(RollbackItems(seconds, pending, backup, current))
  {
    forall i | 0 <= i < |seconds| ensures IsPlain(seconds[i]) {}
    assert Writable(Plain(seconds));
    PlainWords();
    MorePlainWords();
  }

  lemma LeadingBlank(s: string)
    ensures Lex(START, " " + s) == Lex(START, s)
  {
    assert (" " + s)[1..] == s && Step(START, ' ') == START;
  }

  /** What the shell is to read before the restart command. */
  function RollbackTokens(seconds: string, pending: string, backup: string, current: string): seq<Token> {
    [Word("sleep"), Word(seconds), Op(';'),
     Word("if"), Word("test"), Word("-f"), Word(pending), Op(';'),
     Word("then"), Word("cp"), Word(backup), Word(current), Op('&'), Op('&'),
     Word("chmod"), Word("755"), Word(current), Op('&'), Op('&')]
  }

  /** Whatever characters the recorded paths are made of, and whatever the restart
      command is: the shell waits, tests for the marker file, copies the recorded
      backup onto the recorded path, makes that path executable, and goes on to the
      restart command and the end of the test. */
  lemma RollbackRunsOnTheRecordedPaths(seconds: string, pending: string, backup: string, current: string,
                                       restart: string)
    requires IsNumber(seconds)
    ensures Lex(START, PosixRollbackScript(seconds, pending, backup, current, restart)) ==
            Lex(Lexer(Bare, false, "", RollbackTokens(seconds, pending, backup, current)), " " + restart + "; fi")
  {
    var items := RollbackItems(seconds, pending, backup, current);
    var script := PosixRollbackScript(seconds, pending, backup, current, restart);
    RollbackWritable(seconds, pending, backup, current);
    RollbackMeans(seconds, pending, backup, current);
    ReadsOn(items, " " + restart + "; fi");
    ScriptRendered(seconds, pending, backup, current, restart);
    LeadingBlank(script);
  }

  lemma RollbackMeans(seconds: string, pending: string, backup: string, current: string)
    ensures Meanings(RollbackItems(seconds, pending, backup, current))
      == RollbackTokens(seconds, pending, backup, current)
    ensures var items := RollbackItems(seconds, pending, backup, current);
      items[|items| - 1].Operator?
  {
  }

  // ---- powerShellQuote ----

  function PowerShellQuote(value: string): string {
    "'" + Replaced(value, '\'', "''") + "'"
  }

  /** The four typographic quotes PowerShell takes for a single quote. */
  predicate IsCurly(c: char) {
    c == '\U{2018}' || c == '\U{2019}' || c == '\U{201A}' || c == '\U{201B}'
  }

  predicate IsSingleQuote(c: char) {
    c == '\'' || IsCurly(c)
  }

  /** A single-quoted PowerShell literal, read from after its opening quote: its
      value and what follows it. Two quotes running stand for the second. */
  function Literal(t: string): Option<(string, string)>
    decreases t
  {
    if t == "" then None
    else if !IsSingleQuote(t[0]) then Before(t[0], Literal(t[1..]))
    else if |t| > 1 && IsSingleQuote(t[1]) then Before(t[1], Literal(t[2..]))
    else Some(("", t[1..]))
  }

  function Before(c: char, r: Option<(string, string)>): Option<(string, string)> {
    if r.None? then None else Some(([c] + r.value.0, r.value.1))
  }

  function Quotes(s: string): nat {
    if s == "" then 0 else (if IsSingleQuote(s[0]) then 1 else 0) + Quotes(s[1..])
  }

  function Curly(s: string): nat {
    if s == "" then 0 else (if IsCurly(s[0]) then 1 else 0) + Curly(s[1..])
  }

  lemma {:induction false} QuotesJoin(a: string, b: string)
    ensures Quotes(a + b) == Quotes(a) + Quotes(b)
    decreases a
  {
    if a == "" {
      assert a + b == b;
    } else {
      QuotesJoin(a[1..], b);
      assert (a + b)[0] == a[0] && (a + b)[1..] == a[1..] + b;
    }
  }

  /** A literal uses up one quote to close and two for each in its value. */
  lemma {:induction false} QuotesAddUp(t: string)
    requires Literal(t).Some?
    ensures Quotes(t) == 2 * Quotes(Literal(t).value.0) + 1 + Quotes(Literal(t).value.1)
    decreases t
  {
    if !IsSingleQuote(t[0]) {
      QuotesAddUp(t[1..]);
      HeadQuotes(t[0], Literal(t[1..]).value.0);
    } else if |t| > 1 && IsSingleQuote(t[1]) {
      QuotesAddUp(t[2..]);
      HeadQuotes(t[1], Literal(t[2..]).value.0);
      assert t[1..][1..] == t[2..];
    }
  }

  lemma HeadQuotes(c: char, s: string)
    ensures Quotes([c] + s) == (if IsSingleQuote(c) then 1 else 0) + Quotes(s)
  {
    assert ([c] + s)[1..] == s;
  }

  lemma {:induction false} DoubledQuotes(s: string)
    ensures Quotes(Replaced(s, '\'', "''")) == 2 * Quotes(s) - Curly(s)
    decreases s
  {
    if s == "" {
    } else {
      DoubledQuotes(s[1..]);
      if s[0] == '\'' {
        QuotesJoin("''", Replaced(s[1..], '\'', "''"));
        assert "''"[1..] == "'" && "'"[1..] == "";
      } else {
        HeadQuotes(s[0], Replaced(s[1..], '\'', "''"));
      }
    }
  }

  lemma {:induction false} StraightReadsBack(s: string, rest: string)
    requires Curly(s) == 0 && (rest == "" || !IsSingleQuote(rest[0]))
    ensures Literal(Replaced(s, '\'', "''") + "'" + rest) == Some((s, rest))
    decreases s
  {
    var t := Replaced(s, '\'', "''") + "'" + rest;
    if s == "" {
      assert t == "'" + rest && t[1..] == rest;
    } else {
      StraightReadsBack(s[1..], rest);
      var tail := Replaced(s[1..], '\'', "''") + "'" + rest;
      if s[0] == '\'' {
        assert t == "''" + tail && t[2..] == tail;
      } else {
        assert t == [s[0]] + tail && t[1..] == tail;
      }
      assert [s[0]] + s[1..] == s;
    }
  }

  /** PowerShell reads the quoted value back, in any text that does not go straight on
      with a quote, exactly when the value has no typographic single quote. */
  lemma PowerShellQuoteExactly(s: string, rest: string)
    requires rest == "" || !IsSingleQuote(rest[0])
    ensures Literal((PowerShellQuote(s) + rest)[1..]) == Some((s, rest)) <==> Curly(s) == 0
  {
    var t := Replaced(s, '\'', "''") + "'" + rest;
    assert (PowerShellQuote(s) + rest)[1..] == t;
    assert "'"[1..] == "" && Quotes("'") == 1;
    if Curly(s) == 0 {
      StraightReadsBack(s, rest);
    } else if Literal(t) == Some((s, rest)) {
      QuotesAddUp(t);
      QuotesJoin(Replaced(s, '\'', "''") + "'", rest);
      QuotesJoin(Replaced(s, '\'', "''"), "'");
      DoubledQuotes(s);
    }
  }
}
