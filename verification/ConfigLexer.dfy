/**
 * The tokenizer (hemlock-config, lexer.rs): the specification as functions of a
 * cursor over the remaining characters, then the loops proved equal to them.
 */
module ConfigLexer {
  import opened Basics
  import opened ConfigTree

  datatype Token = Word(word: string) | LBrace | RBrace | Semi | Newline

  /** Line and column, both counted from 1. */
  datatype Pos = Pos(line: nat, col: nat)

  datatype Spanned = Spanned(token: Token, at: Pos)

  datatype LexError =
    | UnterminatedString(at: Pos)
    | UnterminatedComment(at: Pos)
    | UnexpectedChar(at: Pos, ch: char)

  type Lexed = Result<seq<Spanned>, LexError>

  /** The characters still to read and the position of the first of them. */
  datatype Cursor = Cursor(rest: string, at: Pos) {
    predicate Done() { rest == "" }

    /** Is `c` the next character? */
    predicate Sees(c: char) { rest != "" && rest[0] == c }

    function Bump(): Cursor
      requires !Done()
    {
      Cursor(rest[1..], if rest[0] == '\n' then Pos(at.line + 1, 1) else Pos(at.line, at.col + 1))
    }
  }

  /** A line comment stops before its newline. */
  function SkipLine(c: Cursor): (d: Cursor)
    ensures |d.rest| <= |c.rest|
    decreases |c.rest|
  {
    if c.Done() || c.rest[0] == '\n' then c else SkipLine(c.Bump())
  }

  /** A block comment, after its opening, runs through the first star-slash. */
  function SkipBlock(c: Cursor): (d: Option<Cursor>)
    ensures d.Some? ==> |d.value.rest| < |c.rest|
    decreases |c.rest|
  {
    if c.Done() then None
    else if c.rest[0] == '*' && c.Bump().Sees('/') then Some(c.Bump().Bump())
    else SkipBlock(c.Bump())
  }

  /** A word under construction and where its scan stands. */
  datatype Scan = Scan(word: string, after: Cursor)

  function Prefix(word: string, s: Scan): Scan {
    Scan(word + s.word, s.after)
  }

  function TakeWord(c: Cursor): (s: Scan)
    ensures |s.after.rest| <= |c.rest|
    decreases |c.rest|
  {
    if c.Done() || !IsWordChar(c.rest[0]) then Scan("", c)
    else Prefix([c.rest[0]], TakeWord(c.Bump()))
  }

  /** What a backslash followed by `c` stands for inside quotes. */
  function Unescape(c: char): string {
    if c == '"' then "\"" else if c == '\\' then "\\" else if c == 'n' then "\n" else ['\\', c]
  }

  function PrefixSome(word: string, s: Option<Scan>): Option<Scan> {
    if s.None? then None else Some(Prefix(word, s.value))
  }

  /** A quoted string after its opening quote; `None` when it never closes. */
  function Unquote(c: Cursor): (s: Option<Scan>)
    ensures s.Some? ==> |s.value.after.rest| < |c.rest|
    decreases |c.rest|
  {
    if c.Done() then None
    else if c.rest[0] == '"' then Some(Scan("", c.Bump()))
    else if c.rest[0] != '\\' then PrefixSome([c.rest[0]], Unquote(c.Bump()))
    else if c.Bump().Done() then None
    else PrefixSome(Unescape(c.rest[1]), Unquote(c.Bump().Bump()))
  }

  function Prepend(tokens: seq<Spanned>, r: Lexed): Lexed {
    if r.Err? then r else Ok(tokens + r.value)
  }

  predicate IsBlank(c: char) { c == ' ' || c == '\t' || c == '\r' }

  predicate IsPunctuation(c: char) { c == '\n' || c == '{' || c == '}' || c == ';' }

  function Punctuation(c: char): Token
    requires IsPunctuation(c)
  {
    if c == '\n' then Newline else if c == '{' then LBrace else if c == '}' then RBrace else Semi
  }

  /** One turn of the tokenizer: blanks and comments yield no token. */
  datatype Turn = Skipped(after: Cursor) | Read(token: Token, after: Cursor) | Failed(error: LexError)

  predicate Progress(c: Cursor, t: Turn) {
    t.Failed? || |t.after.rest| < |c.rest|
  }

  /** A slash opens a comment when a slash or a star follows, a word otherwise. */
  function SlashTurn(c: Cursor): (t: Turn)
    requires c.Sees('/')
    ensures Progress(c, t)
  {
    if c.Bump().Sees('/') then Skipped(SkipLine(c.Bump()))
    else if c.Bump().Sees('*') then
      match SkipBlock(c.Bump().Bump())
      case None => Failed(UnterminatedComment(c.at))
      case Some(d) => Skipped(d)
    else
      var s := TakeWord(c.Bump());
      Read(Word("/" + s.word), s.after)
  }

  function NextTurn(c: Cursor): (t: Turn)
    requires !c.Done()
    ensures Progress(c, t)
  {
    var ch := c.rest[0];
    if IsBlank(ch) then Skipped(c.Bump())
    else if IsPunctuation(ch) then Read(Punctuation(ch), c.Bump())
    else if ch == '#' then Skipped(SkipLine(c.Bump()))
    else if ch == '/' then SlashTurn(c)
    else if ch == '"' then
      match Unquote(c.Bump())
      case None => Failed(UnterminatedString(c.at))
      case Some(s) => Read(Word(s.word), s.after)
    else if IsWordChar(ch) then
      var s := TakeWord(c);
      assert s == Prefix([ch], TakeWord(c.Bump()));
      Read(Word(s.word), s.after)
    else Failed(UnexpectedChar(c.at, ch))
  }

  function Lex(c: Cursor): Lexed
    decreases |c.rest|
  {
    if c.Done() then Ok([])
    else
      match NextTurn(c)
      case Skipped(after) => Lex(after)
      case Read(token, after) => Prepend([Spanned(token, c.at)], Lex(after))
      case Failed(error) => Err(error)
  }

  function Start(text: string): Cursor {
    Cursor(text, Pos(1, 1))
  }

  // ---------------------------------------------------------------- the scanning loops

  method ScanLine(from: Cursor) returns (c: Cursor)
    ensures c == SkipLine(from)
  {
    c := from;
    while !c.Done() && c.rest[0] != '\n'
      invariant SkipLine(c) == SkipLine(from)
      decreases |c.rest|
    {
      c := c.Bump();
    }
  }

  method ScanBlock(from: Cursor) returns (closed: bool, c: Cursor)
    ensures SkipBlock(from) == if closed then Some(c) else None
  {
    c, closed := from, false;
    while !c.Done()
      invariant SkipBlock(c) == SkipBlock(from)
      decreases |c.rest|
    {
      var ch := c.rest[0];
      if ch == '*' && c.Bump().Sees('/') {
        return true, c.Bump().Bump();
      }
      c := c.Bump();
    }
  }

  lemma PrefixPrefix(a: string, b: string, s: Scan)
    ensures Prefix(a, Prefix(b, s)) == Prefix(a + b, s)
  {
    Assoc(a, b, s.word);
  }

  method ScanWord(first: string, from: Cursor) returns (word: string, c: Cursor)
    ensures Scan(word, c) == Prefix(first, TakeWord(from))
  {
    word, c := first, from;
    while !c.Done() && IsWordChar(c.rest[0])
      invariant Prefix(word, TakeWord(c)) == Prefix(first, TakeWord(from))
      decreases |c.rest|
    {
      PrefixPrefix(word, [c.rest[0]], TakeWord(c.Bump()));
      word := word + [c.rest[0]];
      c := c.Bump();
    }
    Unit(word);
  }

  lemma PrefixSomePrefix(a: string, b: string, s: Option<Scan>)
    ensures PrefixSome(a, PrefixSome(b, s)) == PrefixSome(a + b, s)
  {
    if s.Some? { PrefixPrefix(a, b, s.value); }
  }

  method ScanString(from: Cursor) returns (s: Option<Scan>)
    ensures s == Unquote(from)
  {
    var value, c := "", from;
    if Unquote(from).Some? { Unit(Unquote(from).value.word); }
    while !c.Done() && c.rest[0] != '"'
      invariant PrefixSome(value, Unquote(c)) == Unquote(from)
      decreases |c.rest|
    {
      if c.rest[0] == '\\' {
        if c.Bump().Done() {
          return None;
        }
        PrefixSomePrefix(value, Unescape(c.rest[1]), Unquote(c.Bump().Bump()));
        value := value + Unescape(c.rest[1]);
        c := c.Bump().Bump();
      } else {
        PrefixSomePrefix(value, [c.rest[0]], Unquote(c.Bump()));
        value := value + [c.rest[0]];
        c := c.Bump();
      }
    }
    Unit(value);
    s := if c.Done() then None else Some(Scan(value, c.Bump()));
  }

  method TakeTurn(c: Cursor) returns (t: Turn)
    requires !c.Done()
    ensures t == NextTurn(c)
  {
    var ch := c.rest[0];
    if IsBlank(ch) {
      t := Skipped(c.Bump());
    } else if IsPunctuation(ch) {
      t := Read(Punctuation(ch), c.Bump());
    } else if ch == '#' || (ch == '/' && c.Bump().Sees('/')) {
      var d := ScanLine(c.Bump());
      t := Skipped(d);
    } else if ch == '/' && c.Bump().Sees('*') {
      var closed, d := ScanBlock(c.Bump().Bump());
      t := if closed then Skipped(d) else Failed(UnterminatedComment(c.at));
    } else if ch == '"' {
      var s := ScanString(c.Bump());
      t := if s.None? then Failed(UnterminatedString(c.at)) else Read(Word(s.value.word), s.value.after);
    } else if IsWordChar(ch) {
      var word, d := ScanWord([ch], c.Bump());
      t := Read(Word(word), d);
    } else {
      t := Failed(UnexpectedChar(c.at, ch));
    }
  }

  lemma PrependPrepend(a: seq<Spanned>, b: seq<Spanned>, r: Lexed)
    ensures Prepend(a, Prepend(b, r)) == Prepend(a + b, r)
  {
    if r.Ok? { Assoc(a, b, r.value); }
  }

  /** The tokenizer loop computes `Lex` of the whole input. */
  method LexText(input: string) returns (r: Lexed)
    ensures r == Lex(Start(input))
  {
    var tokens: seq<Spanned> := [];
    var c := Start(input);
    if Lex(c).Ok? { Unit(Lex(c).value); }
    while !c.Done()
      invariant Prepend(tokens, Lex(c)) == Lex(Start(input))
      decreases |c.rest|
    {
      var t := TakeTurn(c);
      match t {
        case Skipped(after) =>
          c := after;
        case Read(token, after) =>
          PrependPrepend(tokens, [Spanned(token, c.at)], Lex(after));
          tokens := tokens + [Spanned(token, c.at)];
          c := after;
        case Failed(error) =>
          return Err(error);
      }
    }
    Unit(tokens);
    r := Ok(tokens);
  }
}
