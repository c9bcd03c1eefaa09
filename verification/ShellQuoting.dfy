/**
  Shell quoting (native/src/privileged.rs:51-54) and the commands built from
  it, read back with the token rules of the POSIX shell (POSIX.1-2017, Shell
  Command Language, sections 2.2.1 to 2.2.3 and 2.3).
 */
module ShellQuoting {
  import opened Common

  /* ---------- the shell's side ---------- */

  datatype Token = Word(text: string) | AndIf | Semi

  datatype Mode = Unquoted | Escaped | Ampersand | Single | Double | DoubleEscaped

  /** `Refused`: text whose meaning needs expansions or operators not modelled here. */
  datatype Lexer = Lexing(tokens: seq<Token>, word: Option<string>, mode: Mode) | Refused

  /** Characters that stand for themselves outside quotes, anywhere in a word. */
  predicate PlainChar(c: char) {
    'a' <= c <= 'z' || 'A' <= c <= 'Z' || '+' <= c <= ':' || c == '_' || c == '='
  }

  function Typed(word: Option<string>): string {
    if word.Some? then word.value else ""
  }

  function Ended(word: Option<string>): seq<Token> {
    if word.Some? then [Word(word.value)] else []
  }

  function Put(l: Lexer, c: char, mode: Mode): Lexer
    requires l.Lexing?
  {
    Lexing(l.tokens, Some(Typed(l.word) + [c]), mode)
  }

  function Step(l: Lexer, c: char): Lexer {
    if l.Refused? then l
    else match l.mode
      case Unquoted =>
        if c == ' ' || c == '\t' then Lexing(l.tokens + Ended(l.word), None, Unquoted)
        else if c == ';' then Lexing(l.tokens + Ended(l.word) + [Semi], None, Unquoted)
        else if c == '&' then Lexing(l.tokens + Ended(l.word), None, Ampersand)
        else if c == '\'' then Lexing(l.tokens, Some(Typed(l.word)), Single)
        else if c == '"' then Lexing(l.tokens, Some(Typed(l.word)), Double)
        else if c == '\\' then Lexing(l.tokens, l.word, Escaped)
        else if PlainChar(c) then Put(l, c, Unquoted)
        else Refused
      case Escaped => if c == '\n' then Lexing(l.tokens, l.word, Unquoted) else Put(l, c, Unquoted)
      case Ampersand => if c == '&' then Lexing(l.tokens + [AndIf], None, Unquoted) else Refused
      case Single => if c == '\'' then Lexing(l.tokens, l.word, Unquoted) else Put(l, c, Single)
      case Double =>
        if c == '"' then Lexing(l.tokens, l.word, Unquoted)
        else if c == '\\' then Lexing(l.tokens, l.word, DoubleEscaped)
        else if c == '$' || c == '`' then Refused
        else Put(l, c, Double)
      case DoubleEscaped =>
        if c == '\n' then Lexing(l.tokens, l.word, Double)
        else if c == '$' || c == '`' || c == '"' || c == '\\' then Put(l, c, Double)
        else Put(Put(l, '\\', Double), c, Double)
  }

  function Run(l: Lexer, s: string): Lexer {
    if s == "" then l else Step(Run(l, s[..|s| - 1]), s[|s| - 1])
  }

  const START := Lexing([], None, Unquoted)

  function Finish(l: Lexer): Option<seq<Token>> {
    if l.Lexing? && l.mode == Unquoted then Some(l.tokens + Ended(l.word)) else None
  }

  function Lex(s: string): Option<seq<Token>> {
    Finish(Run(START, s))
  }

  lemma {:induction false} RunConcat(l: Lexer, s: string, t: string)
    ensures Run(l, s + t) == Run(Run(l, s), t)
    decreases t
  {
    if t == "" {
      assert s + t == s;
    } else {
      RunConcat(l, s, t[..|t| - 1]);
      assert (s + t)[..|s + t| - 1] == s + t[..|t| - 1];
    }
  }

  /** Tokens already read do not influence what follows. */
  function Before(ts: seq<Token>, l: Lexer): Lexer {
    if l.Refused? then l else Lexing(ts + l.tokens, l.word, l.mode)
  }

  lemma StepBefore(ts: seq<Token>, l: Lexer, c: char)
    ensures Step(Before(ts, l), c) == Before(ts, Step(l, c))
  {
    if l.Lexing? {
      assert ts + l.tokens + Ended(l.word) == ts + (l.tokens + Ended(l.word));
      assert ts + l.tokens + Ended(l.word) + [Semi] == ts + (l.tokens + Ended(l.word) + [Semi]);
      assert ts + l.tokens + [AndIf] == ts + (l.tokens + [AndIf]);
    }
  }

  lemma {:induction false} RunBefore(ts: seq<Token>, l: Lexer, s: string)
    ensures Run(Before(ts, l), s) == Before(ts, Run(l, s))
  {
    if s != "" {
      RunBefore(ts, l, s[..|s| - 1]);
      StepBefore(ts, Run(l, s[..|s| - 1]), s[|s| - 1]);
    }
  }

  /** A separator that ends the word and adds its own tokens. */
  ghost predicate Separates(sep: string, ts: seq<Token>) {
    forall l: Lexer {:trigger Run(l, sep)} :: l.Lexing? && l.mode == Unquoted ==>
      Run(l, sep) == Lexing(l.tokens + Ended(l.word) + ts, None, Unquoted)
  }

  /** Commands on both sides of a separator are read independently. */
  lemma LexAround(s: string, sep: string, t: string, mid: seq<Token>)
    requires Separates(sep, mid) && Lex(s).Some? && Lex(t).Some?
    ensures Lex(s + sep + t) == Some(Lex(s).value + mid + Lex(t).value)
  {
    var l := Run(START, s);
    RunConcat(START, s, sep);
    RunConcat(START, s + sep, t);
    var ts := Lex(s).value + mid;
    assert Run(START, s + sep) == Before(ts, START);
    RunBefore(ts, START, t);
    var r := Run(START, t);
    assert ts + r.tokens + Ended(r.word) == ts + (r.tokens + Ended(r.word));
  }

  lemma RunOne(l: Lexer, c: char)
    ensures Run(l, [c]) == Step(l, c)
  {
    assert [c][..0] == "";
  }

  lemma BlankSeparates()
    ensures Separates(" ", [])
  {
    forall l: Lexer | l.Lexing? && l.mode == Unquoted
      ensures Run(l, " ") == Lexing(l.tokens + Ended(l.word) + [], None, Unquoted)
    {
      RunOne(l, ' ');
    }
  }

  lemma SemiSeparates()
    ensures Separates("; ", [Semi])
  {
    forall l: Lexer | l.Lexing? && l.mode == Unquoted
      ensures Run(l, "; ") == Lexing(l.tokens + Ended(l.word) + [Semi], None, Unquoted)
    {
      RunConcat(l, ";", " ");
      assert ";" + " " == "; ";
      RunOne(l, ';');
      RunOne(Run(l, ";"), ' ');
    }
  }

  lemma AndSeparates()
    ensures Separates(" && ", [AndIf])
  {
    forall l: Lexer | l.Lexing? && l.mode == Unquoted
      ensures Run(l, " && ") == Lexing(l.tokens + Ended(l.word) + [AndIf], None, Unquoted)
    {
      RunConcat(l, " &", "& ");
      RunConcat(l, " ", "&");
      RunConcat(Run(l, " &"), "&", " ");
      assert " &" + "& " == " && " && " " + "&" == " &" && "&" + " " == "& ";
      RunOne(l, ' ');
      RunOne(Run(l, " "), '&');
      RunOne(Run(l, " &"), '&');
      RunOne(Run(Run(l, " &"), "&"), ' ');
    }
  }

  /* ---------- quoting ---------- */

  /** value.replace('\\'', "'\\"'\\"'") */
  function Escape(v: string): string {
    if v == "" then ""
    else Escape(v[..|v| - 1]) + (if v[|v| - 1] == '\'' then "'\"'\"'" else [v[|v| - 1]])
  }

  function Quote(v: string): string {
    "'" + Escape(v) + "'"
  }

  lemma QuoteCharRuns(l: Lexer)
    requires l.Lexing? && l.mode == Single && l.word.Some?
    ensures Run(l, "'\"'\"'") == Put(l, '\'', Single)
  {
    RunConcat(l, "'\"'", "\"'");
    RunConcat(l, "'\"", "'");
    RunConcat(l, "'", "\"");
    RunConcat(Run(l, "'\"'"), "\"", "'");
    assert "'\"'" + "\"'" == "'\"'\"'" && "'\"" + "'" == "'\"'" && "'" + "\"" == "'\"" && "\"" + "'" == "\"'";
    RunOne(l, '\'');
    RunOne(Run(l, "'"), '"');
    RunOne(Run(l, "'\""), '\'');
    RunOne(Run(l, "'\"'"), '"');
    RunOne(Run(Run(l, "'\"'"), "\""), '\'');
  }

  lemma {:induction false} EscapeRuns(l: Lexer, v: string)
    requires l.Lexing? && l.mode == Single && l.word.Some?
    ensures Run(l, Escape(v)) == Lexing(l.tokens, Some(l.word.value + v), Single)
  {
    if v == "" {
      assert l.word.value + v == l.word.value;
    } else {
      var fewer, c := v[..|v| - 1], v[|v| - 1];
      EscapeRuns(l, fewer);
      var m := Run(l, Escape(fewer));
      RunConcat(l, Escape(fewer), if c == '\'' then "'\"'\"'" else [c]);
      if c == '\'' {
        QuoteCharRuns(m);
      } else {
        RunOne(m, c);
      }
      assert l.word.value + fewer + [c] == l.word.value + v;
    }
  }

  /** Quoting adds exactly the value to the word being read, whatever it contains. */
  lemma QuoteRuns(l: Lexer, v: string)
    requires l.Lexing? && l.mode == Unquoted
    ensures Run(l, Quote(v)) == Lexing(l.tokens, Some(Typed(l.word) + v), Unquoted)
  {
    RunConcat(l, "'" + Escape(v), "'");
    RunConcat(l, "'", Escape(v));
    RunOne(l, '\'');
    EscapeRuns(Run(l, "'"), v);
    RunOne(Run(l, "'" + Escape(v)), '\'');
  }

  predicate PlainText(s: string) {
    forall c :: c in s ==> PlainChar(c)
  }

  lemma {:induction false} PlainRuns(l: Lexer, s: string)
    requires l.Lexing? && l.mode == Unquoted && PlainText(s)
    ensures Run(l, s) == if s == "" then l else Lexing(l.tokens, Some(Typed(l.word) + s), Unquoted)
  {
    if s != "" {
      var fewer := s[..|s| - 1];
      PlainRuns(l, fewer);
      assert s[|s| - 1] in s;
      assert Typed(l.word) + fewer + [s[|s| - 1]] == Typed(l.word) + s;
      assert fewer == "" ==> Typed(l.word) + [s[0]] == Typed(l.word) + s;
    }
  }

  /** A fixed prefix and a quoted value make one word. */
  lemma LexPrefixed(prefix: string, v: string)
    requires PlainText(prefix)
    ensures Lex(prefix + Quote(v)) == Some([Word(prefix + v)])
  {
    RunConcat(START, prefix, Quote(v));
    PlainRuns(START, prefix);
    QuoteRuns(Run(START, prefix), v);
    assert "" + prefix == prefix && "" + v == v;
    assert prefix == "" ==> prefix + v == v;
    assert [] + [Word(prefix + v)] == [Word(prefix + v)];
  }

  lemma LexPlain(s: string)
    requires s != "" && PlainText(s)
    ensures Lex(s) == Some([Word(s)])
  {
    PlainRuns(START, s);
    assert "" + s == s;
    assert [] + [Word(s)] == [Word(s)];
  }

  /* ---------- commands ---------- */

  /** What the builders join with blanks: fixed words, NAME=value words and quoted argument lists. */
  datatype Piece = Fixed(text: string) | Prefixed(prefix: string, value: string) | Words(values: seq<string>)

  function Join(parts: seq<string>, sep: string): string {
    if parts == [] then ""
    else if |parts| == 1 then parts[0]
    else Join(parts[..|parts| - 1], sep) + sep + parts[|parts| - 1]
  }

  ghost predicate AllLex(parts: seq<string>) {
    forall i :: 0 <= i < |parts| ==> Lex(parts[i]).Some?
  }

  /** The tokens of the parts, with the separator's own tokens between them. */
  function JoinTokens(parts: seq<string>, mid: seq<Token>): seq<Token>
    requires AllLex(parts)
  {
    if parts == [] then []
    else if |parts| == 1 then Lex(parts[0]).value
    else JoinTokens(parts[..|parts| - 1], mid) + mid + Lex(parts[|parts| - 1]).value
  }

  lemma {:induction false} JoinLexes(parts: seq<string>, sep: string, mid: seq<Token>)
    requires Separates(sep, mid) && AllLex(parts)
    ensures Lex(Join(parts, sep)) == Some(JoinTokens(parts, mid))
  {
    if parts == [] {
      assert START.tokens + Ended(START.word) == [];
    } else if |parts| > 1 {
      var fewer := parts[..|parts| - 1];
      JoinLexes(fewer, sep, mid);
      LexAround(Join(fewer, sep), sep, parts[|parts| - 1], mid);
    }
  }

  function QuoteAll(vs: seq<string>): seq<string> {
    seq(|vs|, i requires 0 <= i < |vs| => Quote(vs[i]))
  }

  /** shell_words */
  function ShellWords(vs: seq<string>): string {
    Join(QuoteAll(vs), " ")
  }

  function WordTokens(vs: seq<string>): seq<Token> {
    seq(|vs|, i requires 0 <= i < |vs| => Word(vs[i]))
  }

  lemma QuoteLexes(v: string)
    ensures Lex(Quote(v)) == Some([Word(v)])
  {
    LexPrefixed("", v);
    assert "" + Quote(v) == Quote(v) && "" + v == v;
  }

  lemma {:induction false} QuotedTokens(vs: seq<string>)
    ensures AllLex(QuoteAll(vs)) && JoinTokens(QuoteAll(vs), []) == WordTokens(vs)
  {
    forall i | 0 <= i < |vs|
      ensures Lex(QuoteAll(vs)[i]) == Some([Word(vs[i])])
    {
      QuoteLexes(vs[i]);
    }
    if |vs| > 1 {
      var fewer := vs[..|vs| - 1];
      QuotedTokens(fewer);
      assert QuoteAll(vs)[..|vs| - 1] == QuoteAll(fewer);
    }
  }

  /** A list of arguments survives quoting exactly: empty ones, blanks and quotes included. */
  lemma ShellWordsRoundTrip(vs: seq<string>)
    ensures Lex(ShellWords(vs)) == Some(WordTokens(vs))
  {
    BlankSeparates();
    QuotedTokens(vs);
    JoinLexes(QuoteAll(vs), " ", []);
  }

  predicate PieceOk(p: Piece) {
    match p
    case Fixed(text) => text != "" && PlainText(text)
    case Prefixed(prefix, _) => PlainText(prefix)
    case Words(_) => true
  }

  function Text(p: Piece): string {
    match p
    case Fixed(text) => text
    case Prefixed(prefix, value) => prefix + Quote(value)
    case Words(values) => ShellWords(values)
  }

  function Meaning(p: Piece): seq<Token> {
    match p
    case Fixed(text) => [Word(text)]
    case Prefixed(prefix, value) => [Word(prefix + value)]
    case Words(values) => WordTokens(values)
  }

  lemma PieceLexes(p: Piece)
    requires PieceOk(p)
    ensures Lex(Text(p)) == Some(Meaning(p))
  {
    match p
    case Fixed(text) => LexPlain(text);
    case Prefixed(prefix, value) => LexPrefixed(prefix, value);
    case Words(values) => ShellWordsRoundTrip(values);
  }

  function Texts(ps: seq<Piece>): seq<string> {
    seq(|ps|, i requires 0 <= i < |ps| => Text(ps[i]))
  }

  function Command(ps: seq<Piece>): string {
    Join(Texts(ps), " ")
  }

  function Meanings(ps: seq<Piece>): seq<Token> {
    if ps == [] then []
    else if |ps| == 1 then Meaning(ps[0])
    else Meanings(ps[..|ps| - 1]) + Meaning(ps[|ps| - 1])
  }

  ghost predicate AllOk(ps: seq<Piece>) {
    forall i :: 0 <= i < |ps| ==> PieceOk(ps[i])
  }

  lemma TextsLex(ps: seq<Piece>)
    requires AllOk(ps)
    ensures AllLex(Texts(ps)) && forall i :: 0 <= i < |ps| ==> Lex(Texts(ps)[i]) == Some(Meaning(ps[i]))
  {
    forall i | 0 <= i < |ps|
      ensures Lex(Texts(ps)[i]) == Some(Meaning(ps[i]))
    {
      PieceLexes(ps[i]);
    }
  }

  lemma {:induction false} PieceTokens(ps: seq<Piece>)
    requires AllOk(ps)
    ensures AllLex(Texts(ps)) && JoinTokens(Texts(ps), []) == Meanings(ps)
  {
    TextsLex(ps);
    if |ps| > 1 {
      var fewer := ps[..|ps| - 1];
      PieceTokens(fewer);
      assert Texts(ps)[..|ps| - 1] == Texts(fewer);
      assert Meanings(fewer) + [] == Meanings(fewer);
    }
  }

  /** Every command line means its pieces, in order, each a whole word. */
  lemma CommandLexes(ps: seq<Piece>)
    requires AllOk(ps)
    ensures Lex(Command(ps)) == Some(Meanings(ps))
  {
    BlankSeparates();
    PieceTokens(ps);
    JoinLexes(Texts(ps), " ", []);
  }

  /** The word a piece stands for, if it is one word. */
  function WordOf(p: Piece): string
    requires !p.Words?
  {
    if p.Fixed? then p.text else p.prefix + p.value
  }

  function WordsOf(ps: seq<Piece>): seq<string>
    requires forall i :: 0 <= i < |ps| ==> !ps[i].Words?
  {
    seq(|ps|, i requires 0 <= i < |ps| => WordOf(ps[i]))
  }

  lemma {:induction false} SingleWords(ps: seq<Piece>)
    requires forall i :: 0 <= i < |ps| ==> !ps[i].Words?
    ensures Meanings(ps) == WordTokens(WordsOf(ps))
  {
    if |ps| > 1 {
      var fewer := ps[..|ps| - 1];
      SingleWords(fewer);
      assert WordsOf(ps) == WordsOf(fewer) + [WordOf(ps[|ps| - 1])];
    }
  }

  lemma WordTokensConcat(a: seq<string>, b: seq<string>)
    ensures WordTokens(a + b) == WordTokens(a) + WordTokens(b)
  {
  }

  /** Two commands in a row. */
  lemma SequenceLexes(ps: seq<Piece>, qs: seq<Piece>)
    requires AllOk(ps) && AllOk(qs)
    ensures Lex(Command(ps) + "; " + Command(qs)) == Some(Meanings(ps) + [Semi] + Meanings(qs))
  {
    CommandLexes(ps);
    CommandLexes(qs);
    SemiSeparates();
    LexAround(Command(ps), "; ", Command(qs), [Semi]);
  }
}
