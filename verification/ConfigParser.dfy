/**
 * The recursive-descent parser (hemlock-config, parser.rs): the specification on
 * the remaining tokens, then the `Parser` object proved equal to it.
 */
module ConfigParser {
  import opened Basics
  import opened ConfigTree
  import opened ConfigLexer

  datatype ParseError =
    | LexFailed(lex: LexError)
    | Unexpected(at: Pos, expected: string, found: Token)
    | UnexpectedEof

  /** What a parsing function returns: a value and the tokens left, or an error. */
  datatype Parsed<T> = Parsed(value: T, rest: seq<Spanned>) | Rejected(error: ParseError)

  /** The leading words, and the tokens after them. */
  function LeadingWords(ts: seq<Spanned>): (p: Parsed<seq<string>>)
    ensures p.Parsed? && |p.rest| <= |ts|
    ensures p.rest != [] ==> !p.rest[0].token.Word?
  {
    if ts == [] || !ts[0].token.Word? then Parsed([], ts)
    else
      var p := LeadingWords(ts[1..]);
      Parsed([ts[0].token.word] + p.value, p.rest)
  }

  function Statement(ts: seq<Spanned>): (p: Parsed<Item>)
    ensures p.Parsed? ==> |p.rest| < |ts|
    decreases |ts|, 0
  {
    if ts == [] then Rejected(UnexpectedEof)
    else if !ts[0].token.Word? then Rejected(Unexpected(ts[0].at, "a name", ts[0].token))
    else
      var name := ts[0].token.word;
      var Parsed(words, after) := LeadingWords(ts[1..]);
      if after == [] || after[0].token == RBrace then Parsed(Leaf(name, words), after)
      else if after[0].token != LBrace then Parsed(Leaf(name, words), after[1..])
      else
        match Statements(after[1..], false)
        case Rejected(e) => Rejected(e)
        case Parsed(children, rest) => Parsed(Block(name, words, children), rest)
  }

  function Then(item: Item, p: Parsed<seq<Item>>): Parsed<seq<Item>> {
    if p.Rejected? then p else Parsed([item] + p.value, p.rest)
  }

  /** Statements up to the end of input (top level) or the closing brace. */
  function Statements(ts: seq<Spanned>, topLevel: bool): (p: Parsed<seq<Item>>)
    ensures p.Parsed? ==> |p.rest| <= |ts|
    decreases |ts|, 1
  {
    if ts == [] then
      if topLevel then Parsed([], []) else Rejected(UnexpectedEof)
    else if ts[0].token == Newline then Statements(ts[1..], topLevel)
    else if ts[0].token == RBrace then
      if topLevel then Rejected(Unexpected(ts[0].at, "a statement", RBrace)) else Parsed([], ts[1..])
    else
      match Statement(ts)
      case Rejected(e) => Rejected(e)
      case Parsed(item, rest) => Then(item, Statements(rest, topLevel))
  }

  function ParseTokens(lexed: Lexed): Result<seq<Item>, ParseError> {
    match lexed
    case Err(e) => Err(LexFailed(e))
    case Ok(ts) =>
      match Statements(ts, true)
      case Rejected(e) => Err(e)
      case Parsed(items, _) => Ok(items)
  }

  function Parse(text: string): Result<seq<Item>, ParseError> {
    ParseTokens(Lex(Start(text)))
  }

  // ---------------------------------------------------------------- the parser object

  lemma AppendNothing(p: Parsed<seq<Item>>)
    ensures Append([], p) == p
  {
    if p.Parsed? { Unit(p.value); }
  }

  lemma AppendThen(done: seq<Item>, item: Item, p: Parsed<seq<Item>>)
    ensures Append(done, Then(item, p)) == Append(done + [item], p)
  {
    if p.Parsed? { Assoc(done, [item], p.value); }
  }

  function Append(done: seq<Item>, p: Parsed<seq<Item>>): Parsed<seq<Item>> {
    if p.Rejected? then p else Parsed(done + p.value, p.rest)
  }

  class Parser {
    const tokens: seq<Spanned>
    var pos: nat

    constructor (tokens: seq<Spanned>)
      ensures this.tokens == tokens && pos == 0 && Valid() && Rest() == tokens
    {
      this.tokens := tokens;
      pos := 0;
    }

    predicate Valid()
      reads this
    {
      pos <= |tokens|
    }

    function Rest(): seq<Spanned>
      reads this
      requires Valid()
    {
      tokens[pos..]
    }

    function Peek(): (t: Option<Spanned>)
      reads this
      requires Valid()
      ensures t == if Rest() == [] then None else Some(Rest()[0])
    {
      if pos < |tokens| then Some(tokens[pos]) else None
    }

    method Skip()
      requires Valid() && Rest() != []
      modifies this
      ensures Valid() && Rest() == old(Rest())[1..]
    {
      pos := pos + 1;
    }

    method TakeWords() returns (words: seq<string>)
      requires Valid()
      modifies this
      ensures Valid() && Parsed(words, Rest()) == LeadingWords(old(Rest()))
    {
      words := [];
      Unit(LeadingWords(Rest()).value);
      while Peek().Some? && Peek().value.token.Word?
        invariant Valid()
        invariant var p := LeadingWords(Rest());
          Parsed(words + p.value, p.rest) == LeadingWords(old(Rest()))
        decreases |Rest()|
      {
        Assoc(words, [Peek().value.token.word], LeadingWords(Rest()[1..]).value);
        words := words + [Peek().value.token.word];
        Skip();
      }
      Unit(words);
    }

    method ParseStatement() returns (r: Result<Item, ParseError>)
      requires Valid()
      modifies this
      ensures Valid()
      ensures Statement(old(Rest())) == if r.Ok? then Parsed(r.value, Rest()) else Rejected(r.error)
      decreases |Rest()|, 0
    {
      ghost var ts := Rest();
      if Peek().None? {
        return Err(UnexpectedEof);
      }
      var first := Peek().value;
      Skip();
      if !first.token.Word? {
        return Err(Unexpected(first.at, "a name", first.token));
      }
      var words := TakeWords();
      var next := Peek();
      if next.None? || next.value.token == RBrace {
        return Ok(Leaf(first.token.word, words));
      }
      Skip();
      if next.value.token != LBrace {
        return Ok(Leaf(first.token.word, words));
      }
      var children := ParseStatements(false);
      r := if children.Ok? then Ok(Block(first.token.word, words, children.value)) else Err(children.error);
    }

    method ParseStatements(topLevel: bool) returns (r: Result<seq<Item>, ParseError>)
      requires Valid()
      modifies this
      ensures Valid()
      ensures Statements(old(Rest()), topLevel) == if r.Ok? then Parsed(r.value, Rest()) else Rejected(r.error)
      decreases |Rest()|, 1
    {
      var items: seq<Item> := [];
      AppendNothing(Statements(Rest(), topLevel));
      while true
        invariant Valid()
        invariant |Rest()| <= |old(Rest())|
        invariant Append(items, Statements(Rest(), topLevel)) == Statements(old(Rest()), topLevel)
        decreases |Rest()|
      {
        var next := Peek();
        Unit(items);
        if next.None? {
          return if topLevel then Ok(items) else Err(UnexpectedEof);
        } else if next.value.token == Newline {
          Skip();
        } else if next.value.token == RBrace {
          if topLevel {
            return Err(Unexpected(next.value.at, "a statement", RBrace));
          }
          Skip();
          return Ok(items);
        } else {
          var item := ParseStatement();
          if item.Err? {
            return Err(item.error);
          }
          AppendThen(items, item.value, Statements(Rest(), topLevel));
          items := items + [item.value];
        }
      }
    }
  }

  /** Tokenize, then parse. */
  method ParseText(input: string) returns (r: Result<seq<Item>, ParseError>)
    ensures r == Parse(input)
  {
    var lexed := LexText(input);
    if lexed.Err? {
      return Err(LexFailed(lexed.error));
    }
    var parser := new Parser(lexed.value);
    r := parser.ParseStatements(true);
  }
}
