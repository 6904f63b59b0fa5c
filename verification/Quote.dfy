/** Shell quoting of step commands, as read back by the tokenizer of a shell. */
module Quote {
  // Shell quoting of step commands, read back by the token recognition of the POSIX.1-2017 Shell
  // Command Language: section 2.3 with the quoting of sections 2.2.1 and 2.2.2.

  import opened Prelude
  import opened Names

  // ---------------------------------------------------------------- building the command

  /** strings.ReplaceAll(s, "'", "'\''"). */
  function EscapeQuotes(s: string): string {
    if s == "" then ""
    else (if s[0] == '\'' then "'\\''" else [s[0]]) + EscapeQuotes(s[1..])
  }

  function SingleQuote(s: string): string {
    "'" + EscapeQuotes(s) + "'"
  }

  const DEFAULT_SHELL := ["/bin/sh", "-c"]

  /** The step's own shell, or without one the job's, or without either the default. */
  predicate IsShell(jobShell: seq<string>, stepShell: seq<string>, shell: seq<string>) {
    && (stepShell != [] ==> shell == stepShell)
    && (stepShell == [] && jobShell != [] ==> shell == jobShell)
    && (stepShell == [] && jobShell == [] ==> shell == ["/bin/sh", "-c"])
  }

  function ResolveShell(jobShell: seq<string>, stepShell: seq<string>): (r: seq<string>)
    ensures r != [] && IsShell(jobShell, stepShell, r)
  {
    if stepShell != [] then stepShell else if jobShell != [] then jobShell else DEFAULT_SHELL
  }

  function QuotedAll(shell: seq<string>): (r: seq<string>)
    ensures |r| == |shell|
  {
    seq(|shell|, i requires 0 <= i < |shell| => SingleQuote(shell[i]))
  }

  function Wrapped(seconds: string, shell: seq<string>, cmd: string): string {
    "timeout -s KILL " + seconds + " " + Join(QuotedAll(shell), ' ') + " " + SingleQuote(cmd) + "; exit $?"
  }

  /** The argument vector of one run command: the shell followed by the command, which a timeout
      wraps into a nested shell. */
  method CommandArgs(shell: seq<string>, cmd: string, seconds: Option<string>) returns (args: seq<string>)
    ensures args == shell + [if seconds.Some? then Wrapped(seconds.value, shell, cmd) else cmd]
  {
    if seconds.None? {
      return shell + [cmd];
    }
    var quoted: seq<string> := [];
    for k := 0 to |shell|
      invariant quoted == QuotedAll(shell)[..k]
    {
      quoted := quoted + [SingleQuote(shell[k])];
    }
    assert quoted == QuotedAll(shell);
    var inner := Join(quoted, ' ');
    args := shell + ["timeout -s KILL " + seconds.value + " " + inner + " " + SingleQuote(cmd) + "; exit $?"];
  }

  // ---------------------------------------------------------------- token recognition

  /** A character of a word; a quoted one is literal, an unquoted one is open to expansion. */
  datatype Unit = Open(c: char) | Literal(c: char)

  datatype Token = Word(units: seq<Unit>) | Operator(text: string)

  /** Where the scan stands: between tokens, in a word, in single quotes, behind a backslash that
      interrupted another state, or in an operator. */
  datatype Scan =
    | Between
    | InWord(units: seq<Unit>)
    | InQuotes(units: seq<Unit>)
    | Escaping(word: Option<seq<Unit>>)
    | InOperator(text: string)

  datatype Lexer = Lexer(scan: Scan, tokens: seq<Token>)

  predicate OperatorStart(c: char) {
    c in "&|;<>()\n"
  }

  predicate OperatorExtends(op: string, c: char) {
    op + [c] in ["&&", "||", ";;", "<<", ">>", "<&", ">&", "<>", "<<-", ">|"]
  }

  function UnitsOf(sc: Scan): seq<Unit> {
    match sc
    case InWord(u) => u
    case _ => []
  }

  function Delimited(l: Lexer): seq<Token> {
    match l.scan
    case InWord(u) => l.tokens + [Word(u)]
    case InOperator(op) => l.tokens + [Operator(op)]
    case _ => l.tokens
  }

  /** Rules 4 to 10 outside quotes. Double quotes, substitutions and comments are not modelled: the
      scan fails on them. */
  function StepUnquoted(l: Lexer, c: char): Option<Lexer>
    requires l.scan.Between? || l.scan.InWord?
  {
    var u := UnitsOf(l.scan);
    if c == '\'' then Some(l.(scan := InQuotes(u)))
    else if c == '\\' then Some(l.(scan := Escaping(if l.scan.InWord? then Some(u) else None)))
    else if c == '"' || c == '`' then None
    else if (c == '(' || c == '{') && u != [] && u[|u| - 1] == Open('$') then None
    else if c == '#' && l.scan.Between? then None
    else if OperatorStart(c) then Some(Lexer(InOperator([c]), Delimited(l)))
    else if c == ' ' || c == '\t' then Some(Lexer(Between, Delimited(l)))
    else Some(l.(scan := InWord(u + [Open(c)])))
  }

  function Step(l: Lexer, c: char): Option<Lexer> {
    match l.scan
    case Between => StepUnquoted(l, c)
    case InWord(_) => StepUnquoted(l, c)
    case InQuotes(u) => Some(l.(scan := if c == '\'' then InWord(u) else InQuotes(u + [Literal(c)])))
    case Escaping(w) =>
      if c == '\n' then Some(l.(scan := match w case None => Between case Some(u) => InWord(u)))
      else Some(l.(scan := InWord((match w case None => [] case Some(u) => u) + [Literal(c)])))
    case InOperator(op) =>
      if OperatorExtends(op, c) then Some(l.(scan := InOperator(op + [c])))
      else StepUnquoted(Lexer(Between, Delimited(l)), c)
  }

  function Run(l: Lexer, s: string): Option<Lexer>
    decreases |s|
  {
    if s == "" then Some(l)
    else match Step(l, s[0])
      case None => None
      case Some(l') => Run(l', s[1..])
  }

  function Finish(l: Lexer): Option<seq<Token>> {
    if l.scan.InQuotes? || l.scan.Escaping? then None else Some(Delimited(l))
  }

  /** The tokens of a command line; None if a quote is left open or a construct is not modelled. */
  function Tokens(s: string): Option<seq<Token>> {
    match Run(Lexer(Between, []), s)
    case None => None
    case Some(l) => Finish(l)
  }

  function Quoted(s: string): (r: seq<Unit>)
    ensures |r| == |s|
  {
    seq(|s|, i requires 0 <= i < |s| => Literal(s[i]))
  }

  function Bare(s: string): (r: seq<Unit>)
    ensures |r| == |s|
  {
    seq(|s|, i requires 0 <= i < |s| => Open(s[i]))
  }

  // ---------------------------------------------------------------- reading back

  lemma {:induction false} RunAppend(l: Lexer, a: string, b: string)
    ensures Run(l, a + b) == match Run(l, a) case None => None case Some(m) => Run(m, b)
    decreases |a|
  {
    if a == "" {
      assert a + b == b;
    } else {
      assert (a + b)[0] == a[0] && (a + b)[1..] == a[1..] + b;
      if Step(l, a[0]).Some? {
        RunAppend(Step(l, a[0]).value, a[1..], b);
      }
    }
  }

  lemma RunThen(l: Lexer, a: string, m: Lexer, b: string)
    requires Run(l, a) == Some(m)
    ensures Run(l, a + b) == Run(m, b)
  {
    RunAppend(l, a, b);
  }

  lemma RunOne(l: Lexer, c: char)
    ensures Run(l, [c]) == Step(l, c)
  {
    if Step(l, c).Some? {
      assert [c][1..] == "";
      assert Run(Step(l, c).value, "") == Step(l, c);
    }
  }

  lemma QuoteInsideQuotes(u: seq<Unit>, ts: seq<Token>)
    ensures Run(Lexer(InQuotes(u), ts), "'\\''") == Some(Lexer(InQuotes(u + [Literal('\'')]), ts))
  {
    var l := Lexer(InQuotes(u), ts);
    var m := Lexer(InWord(u), ts);
    RunOne(l, '\'');
    RunOne(m, '\\');
    var e := Lexer(Escaping(Some(u)), ts);
    RunOne(e, '\'');
    var f := Lexer(InWord(u + [Literal('\'')]), ts);
    RunOne(f, '\'');
    RunThen(l, "'", m, "\\''");
    RunThen(m, "\\", e, "''");
    RunThen(e, "'", f, "'");
    assert "'" + "\\''" == "'\\''" && "\\" + "''" == "\\''" && "'" + "'" == "''";
  }

  lemma {:induction false} QuotedBody(s: string, u: seq<Unit>, ts: seq<Token>)
    ensures Run(Lexer(InQuotes(u), ts), EscapeQuotes(s)) == Some(Lexer(InQuotes(u + Quoted(s)), ts))
    decreases |s|
  {
    if s == "" {
      assert u + Quoted(s) == u;
    } else {
      var l, v := Lexer(InQuotes(u), ts), u + [Literal(s[0])];
      if s[0] == '\'' {
        QuoteInsideQuotes(u, ts);
        RunThen(l, "'\\''", Lexer(InQuotes(v), ts), EscapeQuotes(s[1..]));
      } else {
        RunOne(l, s[0]);
        RunThen(l, [s[0]], Lexer(InQuotes(v), ts), EscapeQuotes(s[1..]));
      }
      QuotedBody(s[1..], v, ts);
      assert u + Quoted(s) == v + Quoted(s[1..]);
    }
  }

  /** A single-quoted string adds exactly its characters, all literal, to the word under way. */
  lemma QuotedReads(l: Lexer, s: string)
    requires l.scan.Between? || l.scan.InWord?
    ensures Run(l, SingleQuote(s)) == Some(l.(scan := InWord(UnitsOf(l.scan) + Quoted(s))))
  {
    var u := UnitsOf(l.scan);
    var open, body := l.(scan := InQuotes(u)), l.(scan := InQuotes(u + Quoted(s)));
    RunOne(l, '\'');
    QuotedBody(s, u, l.tokens);
    RunOne(body, '\'');
    RunThen(l, "'", open, EscapeQuotes(s) + "'");
    RunThen(open, EscapeQuotes(s), body, "'");
    assert SingleQuote(s) == "'" + (EscapeQuotes(s) + "'");
  }

  /** The round trip: every string, single-quoted, is read back as the one word it stands for. */
  lemma QuoteRoundTrip(s: string)
    ensures Tokens(SingleQuote(s)) == Some([Word(Quoted(s))])
  {
    QuotedReads(Lexer(Between, []), s);
    var none: seq<Unit> := [];
    assert none + Quoted(s) == Quoted(s);
    assert Delimited(Lexer(InWord(Quoted(s)), [])) == [Word(Quoted(s))];
  }

  lemma QuoteIsInjective(s: string, t: string)
    requires SingleQuote(s) == SingleQuote(t)
    ensures s == t
  {
    QuoteRoundTrip(s);
    QuoteRoundTrip(t);
    forall i | 0 <= i < |s| ensures |s| == |t| && s[i] == t[i] {
      assert Quoted(s)[i] == Quoted(t)[i];
    }
    assert |Quoted(s)| == |Quoted(t)|;
  }

  // ---------------------------------------------------------------- the wrapped command

  /** Characters without a meaning of their own to token recognition (there are others). */
  predicate Ordinary(c: char) {
    'a' <= c <= 'z' || 'A' <= c <= 'Z' || '0' <= c <= '9' || c == '-' || c == '.' || c == '$' || c == '?'
  }

  predicate OrdinaryWord(s: string) {
    forall c :: c in s ==> Ordinary(c)
  }

  lemma {:induction false} BareReads(l: Lexer, s: string)
    requires (l.scan.Between? || l.scan.InWord?) && OrdinaryWord(s) && s != ""
    ensures Run(l, s) == Some(l.(scan := InWord(UnitsOf(l.scan) + Bare(s))))
    decreases |s|
  {
    var m := l.(scan := InWord(UnitsOf(l.scan) + [Open(s[0])]));
    assert s[0] in s;
    assert Step(l, s[0]) == Some(m);
    if |s| == 1 {
      assert s == [s[0]] && Bare(s) == [Open(s[0])];
      RunOne(l, s[0]);
    } else {
      BareReads(m, s[1..]);
      assert UnitsOf(l.scan) + Bare(s) == UnitsOf(m.scan) + Bare(s[1..]);
    }
  }

  /** A bare word and the blank behind it. */
  lemma BareThenBlank(l: Lexer, s: string)
    requires l.scan.Between? && OrdinaryWord(s) && s != ""
    ensures Run(l, s + " ") == Some(Lexer(Between, l.tokens + [Word(Bare(s))]))
  {
    BareReads(l, s);
    var none: seq<Unit> := [];
    assert none + Bare(s) == Bare(s);
    var m := l.(scan := InWord(Bare(s)));
    RunThen(l, s, m, " ");
    RunOne(m, ' ');
  }

  function QuotedWords(shell: seq<string>): (r: seq<Token>)
    ensures |r| == |shell|
  {
    seq(|shell|, i requires 0 <= i < |shell| => Word(Quoted(shell[i])))
  }

  lemma QuotedThenBlank(l: Lexer, s: string)
    requires l.scan.Between?
    ensures Run(l, SingleQuote(s) + " ") == Some(Lexer(Between, l.tokens + [Word(Quoted(s))]))
  {
    QuotedReads(l, s);
    var none: seq<Unit> := [];
    assert none + Quoted(s) == Quoted(s);
    var m := l.(scan := InWord(Quoted(s)));
    RunThen(l, SingleQuote(s), m, " ");
    RunOne(m, ' ');
  }

  /** The quoted shell words, joined by blanks and followed by one. */
  lemma {:induction false} ShellReads(l: Lexer, shell: seq<string>)
    requires l.scan.Between?
    ensures Run(l, Join(QuotedAll(shell), ' ') + " ") == Some(Lexer(Between, l.tokens + QuotedWords(shell)))
    decreases |shell|
  {
    if shell == [] {
      RunOne(l, ' ');
      assert Join(QuotedAll(shell), ' ') + " " == [' '] && l.tokens + QuotedWords(shell) == l.tokens;
    } else {
      var m := Lexer(Between, l.tokens + [Word(Quoted(shell[0]))]);
      QuotedThenBlank(l, shell[0]);
      if |shell| == 1 {
        assert QuotedAll(shell) == [SingleQuote(shell[0])] && QuotedWords(shell) == [Word(Quoted(shell[0]))];
      } else {
        var rest := Join(QuotedAll(shell[1..]), ' ') + " ";
        assert QuotedAll(shell)[1..] == QuotedAll(shell[1..]);
        assert Join(QuotedAll(shell), ' ') + " " == (SingleQuote(shell[0]) + " ") + rest;
        RunThen(l, SingleQuote(shell[0]) + " ", m, rest);
        ShellReads(m, shell[1..]);
        assert l.tokens + QuotedWords(shell) == m.tokens + QuotedWords(shell[1..]);
      }
    }
  }

  /** Words with a blank behind each. */
  function Spaced(words: seq<string>): string {
    if words == [] then "" else words[0] + " " + Spaced(words[1..])
  }

  function BareWords(words: seq<string>): (r: seq<Token>)
    ensures |r| == |words|
  {
    seq(|words|, i requires 0 <= i < |words| => Word(Bare(words[i])))
  }

  predicate OrdinaryWords(words: seq<string>) {
    forall i :: 0 <= i < |words| ==> OrdinaryWord(words[i]) && words[i] != ""
  }

  lemma {:induction false} SpacedReads(l: Lexer, words: seq<string>)
    requires l.scan.Between? && OrdinaryWords(words)
    ensures Run(l, Spaced(words)) == Some(Lexer(Between, l.tokens + BareWords(words)))
    decreases |words|
  {
    if words == [] {
      assert l.tokens + BareWords(words) == l.tokens;
    } else {
      var m := Lexer(Between, l.tokens + [Word(Bare(words[0]))]);
      BareThenBlank(l, words[0]);
      RunThen(l, words[0] + " ", m, Spaced(words[1..]));
      SpacedReads(m, words[1..]);
      assert l.tokens + BareWords(words) == m.tokens + BareWords(words[1..]);
    }
  }

  /** A semicolon and a blank behind a word. */
  lemma SemicolonReads(u: seq<Unit>, ts: seq<Token>)
    ensures Run(Lexer(InWord(u), ts), [';', ' ']) == Some(Lexer(Between, ts + [Word(u)] + [Operator(";")]))
  {
    var m, n := Lexer(InWord(u), ts), Lexer(InOperator(";"), ts + [Word(u)]);
    RunOne(m, ';');
    RunOne(n, ' ');
    RunThen(m, [';'], n, [' ']);
    assert [';'] + [' '] == [';', ' '];
  }

  /** A quoted command closed by a semicolon and a blank. */
  lemma CommandReads(l: Lexer, cmd: string)
    requires l.scan.Between?
    ensures Run(l, SingleQuote(cmd) + "; ") == Some(Lexer(Between, l.tokens + [Word(Quoted(cmd)), Operator(";")]))
  {
    var u := Quoted(cmd);
    QuotedReads(l, cmd);
    NothingBefore(u);
    SemicolonReads(u, l.tokens);
    assert "; " == [';', ' '];
    RunThen(l, SingleQuote(cmd), Lexer(InWord(u), l.tokens), [';', ' ']);
    TwoMore(l.tokens, Word(u), Operator(";"));
  }

  lemma NothingBefore(u: seq<Unit>)
    ensures [] + u == u
  {
  }

  lemma TwoMore(ts: seq<Token>, a: Token, b: Token)
    ensures ts + [a] + [b] == ts + [a, b]
  {
  }

  function WrappedTokens(before: seq<string>, shell: seq<string>, cmd: string, after: seq<string>): seq<Token> {
    BareWords(before) + QuotedWords(shell) + [Word(Quoted(cmd)), Operator(";")] + BareWords(after)
  }

  lemma RunTwo(l: Lexer, a: string, m: Lexer, b: string, n: Lexer)
    requires Run(l, a) == Some(m) && Run(m, b) == Some(n)
    ensures Run(l, a + b) == Some(n)
  {
    RunThen(l, a, m, b);
  }

  lemma ShapeReads(before: seq<string>, shell: seq<string>, cmd: string, e: string, q: string)
    requires OrdinaryWords(before) && OrdinaryWords([e, q])
    ensures Tokens(Spaced(before) + (Join(QuotedAll(shell), ' ') + " ") + (SingleQuote(cmd) + "; ") + (e + " ") + q)
         == Some(WrappedTokens(before, shell, cmd, [e, q]))
  {
    var a, b, c, d := Spaced(before), Join(QuotedAll(shell), ' ') + " ", SingleQuote(cmd) + "; ", e + " ";
    var l0, l1 := Lexer(Between, []), Lexer(Between, [] + BareWords(before));
    SpacedReads(l0, before);
    var l2 := Lexer(Between, l1.tokens + QuotedWords(shell));
    ShellReads(l1, shell);
    RunTwo(l0, a, l1, b, l2);
    var l3 := Lexer(Between, l2.tokens + [Word(Quoted(cmd)), Operator(";")]);
    CommandReads(l2, cmd);
    RunTwo(l0, a + b, l2, c, l3);
    LastWordsRead(l3, e, q);
    var l5 := Lexer(InWord(Bare(q)), l3.tokens + [Word(Bare(e))]);
    RunTwo(l0, a + b + c, l3, d + q, l5);
    AppendTwice(a + b + c, d, q);
    LastTokens(before, shell, cmd, e, q);
  }

  lemma AppendTwice(x: string, y: string, z: string)
    ensures x + (y + z) == x + y + z
  {
  }

  lemma LastTokens(before: seq<string>, shell: seq<string>, cmd: string, e: string, q: string)
    ensures [] + BareWords(before) + QuotedWords(shell) + [Word(Quoted(cmd)), Operator(";")] + [Word(Bare(e))] + [Word(Bare(q))]
         == WrappedTokens(before, shell, cmd, [e, q])
  {
    assert BareWords([e, q]) == [Word(Bare(e)), Word(Bare(q))];
  }

  /** The two bare words at the end. */
  lemma LastWordsRead(l: Lexer, e: string, q: string)
    requires l.scan.Between? && OrdinaryWords([e, q])
    ensures Run(l, e + " " + q) == Some(Lexer(InWord(Bare(q)), l.tokens + [Word(Bare(e))]))
  {
    assert OrdinaryWord([e, q][0]) && OrdinaryWord([e, q][1]) && [e, q][0] != "" && [e, q][1] != "";
    BareThenBlank(l, e);
    var m := Lexer(Between, l.tokens + [Word(Bare(e))]);
    BareReads(m, q);
    NothingBefore(Bare(q));
    RunTwo(l, e + " ", m, q, Lexer(InWord(Bare(q)), m.tokens));
  }

  lemma SpacedFour(a: string, b: string, c: string, d: string)
    ensures Spaced([a, b, c, d]) == (a + " ") + (b + " ") + (c + " ") + d + " "
  {
    assert [a, b, c, d][1..] == [b, c, d] && [b, c, d][1..] == [c, d] && [c, d][1..] == [d] && [d][1..] == [];
    assert Spaced([d]) == d + " " + "";
    assert Spaced([c, d]) == c + " " + Spaced([d]);
    assert Spaced([b, c, d]) == b + " " + Spaced([c, d]);
  }

  predicate Number(s: string) {
    s != "" && forall c :: c in s ==> '0' <= c <= '9' || c == '.'
  }

  lemma Regroup(t: string, s: string, b: string, j: string, c: string, z: string, z1: string, z2: string, z3: string)
    requires z == z1 + z2 + z3
    ensures t + s + b + j + b + c + z == (t + s + b) + (j + b) + (c + z1) + z2 + z3
  {
    assert t + s + b + j + b == (t + s + b) + (j + b);
    assert c + z == (c + z1) + z2 + z3;
  }

  lemma WrappedShape(seconds: string, shell: seq<string>, cmd: string)
    ensures Wrapped(seconds, shell, cmd) == Spaced(["timeout", "-s", "KILL", seconds])
            + (Join(QuotedAll(shell), ' ') + " ") + (SingleQuote(cmd) + "; ") + ("exit" + " ") + "$?"
  {
    SpacedFour("timeout", "-s", "KILL", seconds);
    var t := "timeout -s KILL ";
    assert ("timeout" + " ") + ("-s" + " ") + ("KILL" + " ") == t;
    var z := "; exit $?";
    assert z == "; " + ("exit" + " ") + "$?";
    Regroup(t, seconds, " ", Join(QuotedAll(shell), ' '), SingleQuote(cmd), z, "; ", "exit" + " ", "$?");
  }

  lemma FixedWordsAreOrdinary(seconds: string)
    requires Number(seconds)
    ensures OrdinaryWords(["timeout", "-s", "KILL", seconds]) && OrdinaryWords(["exit", "$?"])
  {
    assert OrdinaryWord("timeout");
    assert OrdinaryWord("KILL");
    assert OrdinaryWord("exit");
  }

  lemma ShapeReadsAs(text: string, before: seq<string>, shell: seq<string>, cmd: string, e: string, q: string)
    requires OrdinaryWords(before) && OrdinaryWords([e, q])
    requires text == Spaced(before) + (Join(QuotedAll(shell), ' ') + " ") + (SingleQuote(cmd) + "; ") + (e + " ") + q
    ensures Tokens(text) == Some(WrappedTokens(before, shell, cmd, [e, q]))
  {
    ShapeReads(before, shell, cmd, e, q);
  }

  /** The timeout wrapping: however the shell words and the command are spelled, the nested shell
      receives exactly them, and the command line around them is fixed. */
  lemma WrappedReadsBack(seconds: string, shell: seq<string>, cmd: string)
    requires Number(seconds)
    ensures Tokens(Wrapped(seconds, shell, cmd)) ==
            Some(WrappedTokens(["timeout", "-s", "KILL", seconds], shell, cmd, ["exit", "$?"]))
  {
    WrappedShape(seconds, shell, cmd);
    FixedWordsAreOrdinary(seconds);
    ShapeReadsAs(Wrapped(seconds, shell, cmd), ["timeout", "-s", "KILL", seconds], shell, cmd, "exit", "$?");
  }
}
