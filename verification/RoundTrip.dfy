/**
 * Printing a tree and parsing it back (hemlock-config, lib.rs lines 22-23 claims
 * `parse(to_text(t)) == t` for every tree). It holds exactly for the printable ones.
 */
module RoundTrip {
  import opened Basics
  import opened ConfigTree
  import opened ConfigLexer
  import opened ConfigParser

  /** A bare word the lexer reads back as a word rather than as a comment. */
  predicate LexesBare(word: string) {
    IsBare(word) && !(|word| > 1 && word[0] == '/' && (word[1] == '/' || word[1] == '*'))
  }

  /** Names are printed raw; other words are quoted unless bare. */
  predicate PrintableWord(word: string) {
    IsBare(word) ==> LexesBare(word)
  }

  predicate PrintableWords(words: seq<string>) {
    forall w <- words :: PrintableWord(w)
  }

  predicate PrintableItem(item: Item)
    decreases item, 1
  {
    LexesBare(item.name) && PrintableWords(item.Words()) && (item.Block? ==> Printable(item.children))
  }

  predicate Printable(items: seq<Item>)
    decreases items, 0
  {
    items != [] ==> PrintableItem(items[0]) && Printable(items[1..])
  }

  // ---------------------------------------------------------------- tokens without positions

  function Erase(ts: seq<Spanned>): (tokens: seq<Token>)
    ensures |tokens| == |ts|
  {
    if ts == [] then [] else [ts[0].token] + Erase(ts[1..])
  }

  function Tokens(c: Cursor): Option<seq<Token>> {
    match Lex(c)
    case Err(_) => None
    case Ok(ts) => Some(Erase(ts))
  }

  function Push(tokens: seq<Token>, r: Option<seq<Token>>): Option<seq<Token>> {
    if r.None? then None else Some(tokens + r.value)
  }

  lemma PushPush(a: seq<Token>, b: seq<Token>, r: Option<seq<Token>>)
    ensures Push(a, Push(b, r)) == Push(a + b, r)
  {
    if r.Some? { Assoc(a, b, r.value); }
  }

  lemma PushNothing(r: Option<seq<Token>>)
    ensures Push([], r) == r
  {
    if r.Some? { Unit(r.value); }
  }

  lemma TokensStep(c: Cursor)
    requires !c.Done()
    ensures NextTurn(c).Read? ==> Tokens(c) == Push([NextTurn(c).token], Tokens(NextTurn(c).after))
    ensures NextTurn(c).Skipped? ==> Tokens(c) == Tokens(NextTurn(c).after)
  {
  }

  // ---------------------------------------------------------------- words come back

  function EscapeChar(c: char): string {
    if c == '\\' then "\\\\" else if c == '"' then "\\\"" else [c]
  }

  /** Escaping in one pass. */
  function Escaped(word: string): string {
    if word == "" then "" else EscapeChar(word[0]) + Escaped(word[1..])
  }

  lemma ReplaceConcat(a: string, b: string, c: char, with: string)
    ensures Replace(a + b, c, with) == Replace(a, c, with) + Replace(b, c, with)
  {
    if a == "" {
      Unit(b);
      Unit(Replace(b, c, with));
    } else {
      assert (a + b)[0] == a[0] && (a + b)[1..] == a[1..] + b;
      Assoc(if a[0] == c then with else [a[0]], Replace(a[1..], c, with), Replace(b, c, with));
    }
  }

  lemma {:induction false} EscapeIsOnePass(word: string)
    ensures Escape(word) == Escaped(word)
  {
    if word != "" {
      var first := if word[0] == '\\' then "\\\\" else [word[0]];
      ReplaceConcat(first, Replace(word[1..], '\\', "\\\\"), '"', "\\\"");
      EscapeIsOnePass(word[1..]);
      assert first[1..] == if word[0] == '\\' then "\\" else "";
      assert Replace(first, '"', "\\\"") == EscapeChar(word[0]);
    }
  }

  lemma {:induction false} WordScans(word: string, rest: string, at: Pos) returns (q: Cursor)
    requires forall i :: 0 <= i < |word| ==> IsWordChar(word[i])
    requires rest != "" ==> !IsWordChar(rest[0])
    ensures TakeWord(Cursor(word + rest, at)) == Scan(word, q) && q.rest == rest
    decreases |word|
  {
    var c := Cursor(word + rest, at);
    if word == "" {
      Unit(rest);
      q := c;
    } else {
      assert c.Bump().rest == word[1..] + rest;
      q := WordScans(word[1..], rest, c.Bump().at);
      assert [word[0]] + word[1..] == word;
    }
  }

  lemma {:induction false} QuotedScans(word: string, rest: string, at: Pos) returns (q: Cursor)
    ensures Unquote(Cursor(Escaped(word) + ("\"" + rest), at)) == Some(Scan(word, q)) && q.rest == rest
    decreases |word|
  {
    var tail := "\"" + rest;
    var c := Cursor(Escaped(word) + tail, at);
    if word == "" {
      assert c.rest == tail && tail[1..] == rest;
      q := c.Bump();
    } else {
      Assoc(EscapeChar(word[0]), Escaped(word[1..]), tail);
      var more := Escaped(word[1..]) + tail;
      if word[0] == '\\' || word[0] == '"' {
        assert c.rest[1] == word[0] && c.rest[2..] == more;
        assert c.Bump().Bump().rest == more;
        q := QuotedScans(word[1..], rest, c.Bump().Bump().at);
      } else {
        assert c.rest[0] == word[0] && c.rest[1..] == more;
        q := QuotedScans(word[1..], rest, c.Bump().at);
      }
      assert [word[0]] + word[1..] == word;
    }
  }

  /** A character that ends a bare word. */
  predicate Separated(rest: string) {
    rest != "" && (rest[0] == ' ' || rest[0] == '\n')
  }

  lemma SlashTurnScans(word: string, rest: string, at: Pos) returns (q: Cursor)
    requires LexesBare(word) && Separated(rest) && word[0] == '/'
    ensures NextTurn(Cursor(word + rest, at)) == Read(Word(word), q) && q.rest == rest
  {
    var c := Cursor(word + rest, at);
    assert c.rest[0] == word[0] && c.Bump().rest == word[1..] + rest;
    q := WordScans(word[1..], rest, c.Bump().at);
    assert "/" + word[1..] == word;
  }

  lemma BareTurn(word: string, rest: string, at: Pos) returns (q: Cursor)
    requires LexesBare(word) && Separated(rest)
    ensures NextTurn(Cursor(word + rest, at)) == Read(Word(word), q) && q.rest == rest
  {
    if word[0] == '/' {
      q := SlashTurnScans(word, rest, at);
    } else {
      assert (word + rest)[0] == word[0];
      q := WordScans(word, rest, at);
    }
  }

  lemma AtomTurn(word: string, rest: string, at: Pos) returns (q: Cursor)
    requires PrintableWord(word) && Separated(rest)
    ensures NextTurn(Cursor(Atom(word) + rest, at)) == Read(Word(word), q) && q.rest == rest
  {
    if IsBare(word) {
      q := BareTurn(word, rest, at);
    } else {
      EscapeIsOnePass(word);
      var c := Cursor(Atom(word) + rest, at);
      Assoc("\"" + Escaped(word), "\"", rest);
      Assoc("\"", Escaped(word), "\"" + rest);
      assert c.rest[0] == '"' && c.rest[1..] == Escaped(word) + ("\"" + rest);
      q := QuotedScans(word, rest, c.Bump().at);
    }
  }

  function WordTokens(words: seq<string>): seq<Token> {
    if words == [] then [] else [Word(words[0])] + WordTokens(words[1..])
  }

  lemma {:induction false} AtomsLex(words: seq<string>, rest: string, at: Pos) returns (q: Cursor)
    requires PrintableWords(words) && Separated(rest)
    ensures Tokens(Cursor(Atoms(words) + rest, at)) == Push(WordTokens(words), Tokens(q)) && q.rest == rest
    ensures Separated(Atoms(words) + rest)
    decreases |words|
  {
    var c := Cursor(Atoms(words) + rest, at);
    if words == [] {
      Unit(rest);
      q := c;
      PushNothing(Tokens(c));
    } else {
      var more := Atoms(words[1..]) + rest;
      Assoc(" " + Atom(words[0]), Atoms(words[1..]), rest);
      Assoc(" ", Atom(words[0]), more);
      assert c.rest[0] == ' ' && c.Bump().rest == Atom(words[0]) + more;
      TokensStep(c);
      var _ := AtomsLex(words[1..], rest, at);
      var d := AtomTurn(words[0], more, c.Bump().at);
      TokensStep(c.Bump());
      q := AtomsLex(words[1..], rest, d.at);
      PushPush([Word(words[0])], WordTokens(words[1..]), Tokens(q));
    }
  }

  // ---------------------------------------------------------------- statements come back

  function ItemTokens(item: Item): seq<Token>
    decreases item, 1
  {
    [Word(item.name)] + WordTokens(item.Words()) +
    if item.Leaf? then [Newline]
    else [LBrace, Newline] + AllTokens(item.children) + [RBrace, Newline]
  }

  function AllTokens(items: seq<Item>): seq<Token>
    decreases items, 0
  {
    if items == [] then [] else ItemTokens(items[0]) + AllTokens(items[1..])
  }

  lemma {:induction false} IndentLex(n: nat, rest: string, at: Pos) returns (q: Cursor)
    ensures Tokens(Cursor(seq(n, _ => ' ') + rest, at)) == Tokens(q) && q.rest == rest
  {
    var c := Cursor(seq(n, _ => ' ') + rest, at);
    if n == 0 {
      Unit(rest);
      assert c.rest == rest;
      q := c;
    } else {
      assert c.rest[0] == ' ' && c.Bump().rest == seq(n - 1, _ => ' ') + rest;
      TokensStep(c);
      q := IndentLex(n - 1, rest, c.Bump().at);
    }
  }

  lemma HeaderLex(item: Item, depth: nat, rest: string, at: Pos) returns (q: Cursor)
    requires LexesBare(item.name) && PrintableWords(item.Words()) && Separated(rest)
    ensures Tokens(Cursor(Header(item, depth) + rest, at)) ==
            Push([Word(item.name)] + WordTokens(item.Words()), Tokens(q)) && q.rest == rest
  {
    var words := Atoms(item.Words()) + rest;
    var _ := AtomsLex(item.Words(), rest, at);
    Assoc(Indent(depth) + item.name, Atoms(item.Words()), rest);
    Assoc(Indent(depth), item.name, words);
    q := IndentLex(4 * depth, item.name + words, at);
    var d := BareTurn(item.name, words, q.at);
    TokensStep(q);
    q := AtomsLex(item.Words(), rest, d.at);
    PushPush([Word(item.name)], WordTokens(item.Words()), Tokens(q));
  }

  /** A brace or newline at the front of the text is one token. */
  lemma PunctuationLex(ch: char, rest: string, at: Pos) returns (q: Cursor)
    requires IsPunctuation(ch)
    ensures Tokens(Cursor([ch] + rest, at)) == Push([Punctuation(ch)], Tokens(q)) && q.rest == rest
  {
    var c := Cursor([ch] + rest, at);
    assert c.rest[0] == ch && c.rest[1..] == rest;
    TokensStep(c);
    q := c.Bump();
  }

  lemma OpenLex(rest: string, at: Pos) returns (q: Cursor)
    ensures Tokens(Cursor(" {\n" + rest, at)) == Push([LBrace, Newline], Tokens(q)) && q.rest == rest
  {
    var c := Cursor(" {\n" + rest, at);
    assert c.rest[0] == ' ' && c.rest[1..] == ['{'] + ("\n" + rest);
    TokensStep(c);
    q := PunctuationLex('{', "\n" + rest, c.Bump().at);
    q := PunctuationLex('\n', rest, q.at);
    PushPush([LBrace], [Newline], Tokens(q));
    assert [LBrace] + [Newline] == [LBrace, Newline];
  }

  lemma CloseLex(depth: nat, rest: string, at: Pos) returns (q: Cursor)
    ensures Tokens(Cursor(Indent(depth) + "}\n" + rest, at)) == Push([RBrace, Newline], Tokens(q)) && q.rest == rest
  {
    Assoc(Indent(depth), "}\n", rest);
    q := IndentLex(4 * depth, "}\n" + rest, at);
    assert "}\n" + rest == ['}'] + ("\n" + rest);
    q := PunctuationLex('}', "\n" + rest, q.at);
    q := PunctuationLex('\n', rest, q.at);
    PushPush([RBrace], [Newline], Tokens(q));
    assert [RBrace] + [Newline] == [RBrace, Newline];
  }

  lemma {:induction false} ItemLexes(item: Item, depth: nat, rest: string, at: Pos) returns (q: Cursor)
    requires PrintableItem(item)
    ensures Tokens(Cursor(RenderItem(item, depth) + rest, at)) == Push(ItemTokens(item), Tokens(q)) && q.rest == rest
    decreases item, 1
  {
    var head := [Word(item.name)] + WordTokens(item.Words());
    match item {
      case Leaf(_, _) =>
        Assoc(Header(item, depth), "\n", rest);
        q := HeaderLex(item, depth, "\n" + rest, at);
        q := PunctuationLex('\n', rest, q.at);
        PushPush(head, [Newline], Tokens(q));
      case Block(_, _, children) =>
        var close := Indent(depth) + "}\n" + rest;
        var body := RenderItems(children, depth + 1) + close;
        BlockText(item, depth, rest);
        q := HeaderLex(item, depth, " {\n" + body, at);
        q := OpenLex(body, q.at);
        q := ItemsLex(children, depth + 1, close, q.at);
        q := CloseLex(depth, rest, q.at);
        BlockTokens(head, AllTokens(children), Tokens(q));
    }
  }

  lemma BlockText(item: Item, depth: nat, rest: string)
    requires item.Block?
    ensures RenderItem(item, depth) + rest ==
            Header(item, depth) + (" {\n" + (RenderItems(item.children, depth + 1) + (Indent(depth) + "}\n" + rest)))
  {
    var h, o, b, k := Header(item, depth), " {\n", RenderItems(item.children, depth + 1), Indent(depth) + "}\n";
    Assoc(h + o + b, k, rest);
    Assoc(h + o, b, k + rest);
    Assoc(h, o, b + (k + rest));
  }

  lemma BlockTokens(head: seq<Token>, body: seq<Token>, r: Option<seq<Token>>)
    ensures Push(head, Push([LBrace, Newline], Push(body, Push([RBrace, Newline], r)))) ==
            Push(head + ([LBrace, Newline] + body + [RBrace, Newline]), r)
  {
    PushPush(body, [RBrace, Newline], r);
    PushPush([LBrace, Newline], body + [RBrace, Newline], r);
    Assoc([LBrace, Newline], body, [RBrace, Newline]);
    PushPush(head, [LBrace, Newline] + body + [RBrace, Newline], r);
  }

  lemma {:induction false} ItemsLex(items: seq<Item>, depth: nat, rest: string, at: Pos) returns (q: Cursor)
    requires Printable(items)
    ensures Tokens(Cursor(RenderItems(items, depth) + rest, at)) == Push(AllTokens(items), Tokens(q)) && q.rest == rest
    decreases items, 0
  {
    if items == [] {
      Unit(rest);
      q := Cursor(RenderItems(items, depth) + rest, at);
      PushNothing(Tokens(q));
    } else {
      var more := RenderItems(items[1..], depth) + rest;
      Assoc(RenderItem(items[0], depth), RenderItems(items[1..], depth), rest);
      q := ItemLexes(items[0], depth, more, at);
      q := ItemsLex(items[1..], depth, rest, q.at);
      PushPush(ItemTokens(items[0]), AllTokens(items[1..]), Tokens(q));
    }
  }

  // ---------------------------------------------------------------- the parser on printed tokens

  lemma EraseDrop(ts: seq<Spanned>, n: nat)
    requires n <= |ts|
    ensures Erase(ts[n..]) == Erase(ts)[n..]
    decreases n
  {
    if n > 0 {
      EraseDrop(ts[1..], n - 1);
      assert ts[1..][n - 1..] == ts[n..];
    }
  }

  /** `ts` starts with the given tokens; `after` are the rest. */
  ghost predicate Starts(ts: seq<Spanned>, tokens: seq<Token>, after: seq<Spanned>) {
    Erase(ts) == tokens + Erase(after) && |ts| == |tokens| + |after| && ts[|tokens|..] == after
  }

  lemma StartsSplit(ts: seq<Spanned>, a: seq<Token>, b: seq<Token>, after: seq<Spanned>) returns (mid: seq<Spanned>)
    requires Starts(ts, a + b, after)
    ensures Starts(ts, a, mid) && Starts(mid, b, after)
  {
    mid := ts[|a|..];
    EraseDrop(ts, |a|);
    Assoc(a, b, Erase(after));
    assert mid[|b|..] == after;
  }

  lemma StartsOne(ts: seq<Spanned>, token: Token, after: seq<Spanned>)
    requires Starts(ts, [token], after)
    ensures ts != [] && ts[0].token == token && ts[1..] == after
  {
    assert Erase(ts)[0] == token;
  }

  lemma {:induction false} WordsParse(ts: seq<Spanned>, words: seq<string>, after: seq<Spanned>)
    requires Starts(ts, WordTokens(words), after)
    requires after != [] && !after[0].token.Word?
    ensures LeadingWords(ts) == Parsed(words, after)
    decreases |words|
  {
    if words != [] {
      var mid := StartsSplit(ts, [Word(words[0])], WordTokens(words[1..]), after);
      StartsOne(ts, Word(words[0]), mid);
      WordsParse(mid, words[1..], after);
      assert [words[0]] + words[1..] == words;
    }
  }

  function Before(items: seq<Item>, p: Parsed<seq<Item>>): Parsed<seq<Item>> {
    if p.Rejected? then p else Parsed(items + p.value, p.rest)
  }

  lemma {:induction false} ItemParses(ts: seq<Spanned>, item: Item, after: seq<Spanned>, topLevel: bool)
    requires Starts(ts, ItemTokens(item), after)
    ensures Statements(ts, topLevel) == Then(item, Statements(after, topLevel))
    decreases item, 1
  {
    var words := WordTokens(item.Words());
    var end := if item.Leaf? then [Newline] else [LBrace, Newline] + AllTokens(item.children) + [RBrace, Newline];
    var tail := StartsSplit(ts, [Word(item.name)] + words, end, after);
    var mid := StartsSplit(ts, [Word(item.name)], words, tail);
    StartsOne(ts, Word(item.name), mid);
    EndIsNoWord(tail, end, after);
    WordsParse(mid, item.Words(), tail);
    if item.Leaf? {
      StartsOne(tail, Newline, after);
    } else {
      BlockParses(tail, item.children, after, topLevel);
    }
  }

  lemma EndIsNoWord(tail: seq<Spanned>, end: seq<Token>, after: seq<Spanned>)
    requires Starts(tail, end, after) && end != [] && !end[0].Word?
    ensures tail != [] && tail[0].token == end[0]
  {
    assert Erase(tail)[0] == end[0];
  }

  /** The braces of a block and what is between them. */
  lemma {:induction false} BlockParses(ts: seq<Spanned>, items: seq<Item>, after: seq<Spanned>, topLevel: bool)
    requires Starts(ts, [LBrace, Newline] + AllTokens(items) + [RBrace, Newline], after)
    ensures ts != [] && ts[0].token == LBrace
    ensures var p := Statements(ts[1..], false);
      p.Parsed? && p.value == items && Statements(p.rest, topLevel) == Statements(after, topLevel)
    decreases items, 1
  {
    var close := StartsSplit(ts, [LBrace, Newline] + AllTokens(items), [RBrace, Newline], after);
    var body := StartsSplit(ts, [LBrace, Newline], AllTokens(items), close);
    assert [LBrace] + [Newline] == [LBrace, Newline] && [RBrace] + [Newline] == [RBrace, Newline];
    var open := StartsSplit(ts, [LBrace], [Newline], body);
    StartsOne(ts, LBrace, open);
    StartsOne(open, Newline, body);
    var last := StartsSplit(close, [RBrace], [Newline], after);
    StartsOne(close, RBrace, last);
    StartsOne(last, Newline, after);
    ItemsParse(body, items, close, false);
    Unit(items);
  }

  lemma {:induction false} ItemsParse(ts: seq<Spanned>, items: seq<Item>, after: seq<Spanned>, topLevel: bool)
    requires Starts(ts, AllTokens(items), after)
    ensures Statements(ts, topLevel) == Before(items, Statements(after, topLevel))
    decreases items, 0
  {
    if items == [] {
      if Statements(after, topLevel).Parsed? { Unit(Statements(after, topLevel).value); }
    } else {
      var mid := StartsSplit(ts, ItemTokens(items[0]), AllTokens(items[1..]), after);
      ItemParses(ts, items[0], mid, topLevel);
      ItemsParse(mid, items[1..], after, topLevel);
      var p := Statements(after, topLevel);
      if p.Parsed? { Assoc([items[0]], items[1..], p.value); }
      assert [items[0]] + items[1..] == items;
    }
  }

  /** Every printable tree survives being printed and parsed. */
  lemma PrintThenParse(items: seq<Item>)
    requires Printable(items)
    ensures Parse(ToText(items)) == Ok(items)
  {
    var c := Start(ToText(items));
    Unit(ToText(items));
    var q := ItemsLex(items, 0, "", c.at);
    Unit(AllTokens(items));
    var ts := Lex(c).value;
    assert Starts(ts, AllTokens(items), []);
    ItemsParse(ts, items, [], true);
    Unit(items);
  }

  // ---------------------------------------------------------------- only printable trees survive

  /** Quote characters in a text. */
  function Quotes(s: string): nat {
    if s == "" then 0 else (if s[0] == '"' then 1 else 0) + Quotes(s[1..])
  }

  lemma QuotesConcat(a: string, b: string)
    ensures Quotes(a + b) == Quotes(a) + Quotes(b)
  {
    if a == "" {
      Unit(b);
    } else {
      assert (a + b)[1..] == a[1..] + b;
    }
  }

  /** Quote characters the lexer must consume to produce a word. */
  function Cost(word: string): nat {
    Quotes(word) + if LexesBare(word) then 0 else 2
  }

  function TokensCost(ts: seq<Spanned>): nat {
    if ts == [] then 0 else (if ts[0].token.Word? then Cost(ts[0].token.word) else 0) + TokensCost(ts[1..])
  }

  lemma SkipLineCost(c: Cursor)
    ensures Quotes(SkipLine(c).rest) <= Quotes(c.rest)
    decreases |c.rest|
  {
    if !c.Done() && c.rest[0] != '\n' { SkipLineCost(c.Bump()); }
  }

  lemma SkipBlockCost(c: Cursor)
    ensures SkipBlock(c).Some? ==> Quotes(SkipBlock(c).value.rest) <= Quotes(c.rest)
    decreases |c.rest|
  {
    if !c.Done() && !(c.rest[0] == '*' && c.Bump().Sees('/')) { SkipBlockCost(c.Bump()); }
  }

  lemma {:induction false} TakeWordCost(c: Cursor)
    ensures var s := TakeWord(c);
      && Quotes(s.after.rest) == Quotes(c.rest)
      && Quotes(s.word) == 0
      && (forall i :: 0 <= i < |s.word| ==> IsWordChar(s.word[i]))
      && s.word <= c.rest
    decreases |c.rest|
  {
    if !c.Done() && IsWordChar(c.rest[0]) {
      TakeWordCost(c.Bump());
      QuotesConcat([c.rest[0]], TakeWord(c.Bump()).word);
      assert c.rest == [c.rest[0]] + c.rest[1..];
    }
  }

  /** A literal spends its closing quote and one quote per quote it contains. */
  lemma {:induction false} UnquoteCost(c: Cursor)
    ensures var s := Unquote(c);
      s.Some? ==> Quotes(s.value.after.rest) + Quotes(s.value.word) + 1 <= Quotes(c.rest)
    decreases |c.rest|
  {
    if !c.Done() && c.rest[0] != '"' && Unquote(c).Some? {
      if c.rest[0] == '\\' {
        UnquoteCost(c.Bump().Bump());
        QuotesConcat(Unescape(c.rest[1]), Unquote(c.Bump().Bump()).value.word);
        UnescapeQuotes(c.rest[1]);
      } else {
        UnquoteCost(c.Bump());
        QuotesConcat([c.rest[0]], Unquote(c.Bump()).value.word);
      }
    }
  }

  lemma UnescapeQuotes(ch: char)
    ensures Quotes(Unescape(ch)) == if ch == '"' then 1 else 0
  {
    assert Quotes(['\\', ch]) == Quotes([ch]) by { assert ['\\', ch][1..] == [ch]; }
  }

  lemma TurnCost(c: Cursor)
    requires !c.Done()
    ensures var t := NextTurn(c);
      && (t.Skipped? ==> Quotes(t.after.rest) <= Quotes(c.rest))
      && (t.Read? && t.token.Word? ==> Cost(t.token.word) + Quotes(t.after.rest) <= Quotes(c.rest))
      && (t.Read? && !t.token.Word? ==> Quotes(t.after.rest) <= Quotes(c.rest))
  {
    if c.rest[0] == '#' {
      SkipLineCost(c.Bump());
    } else if c.rest[0] == '/' {
      SlashCost(c);
    } else if c.rest[0] == '"' {
      UnquoteCost(c.Bump());
    } else if IsWordChar(c.rest[0]) {
      TakeWordCost(c);
      assert TakeWord(c).word[0] == c.rest[0];
    }
  }

  lemma SlashCost(c: Cursor)
    requires c.Sees('/')
    ensures var t := SlashTurn(c);
      && (t.Skipped? ==> Quotes(t.after.rest) <= Quotes(c.rest))
      && (t.Read? && t.token.Word? ==> Cost(t.token.word) + Quotes(t.after.rest) <= Quotes(c.rest))
  {
    if c.Bump().Sees('/') {
      SkipLineCost(c.Bump());
    } else if c.Bump().Sees('*') {
      SkipBlockCost(c.Bump().Bump());
    } else {
      TakeWordCost(c.Bump());
      QuotesConcat("/", TakeWord(c.Bump()).word);
    }
  }

  lemma {:induction false} LexCost(c: Cursor)
    ensures Lex(c).Ok? ==> TokensCost(Lex(c).value) <= Quotes(c.rest)
    decreases |c.rest|
  {
    if !c.Done() && Lex(c).Ok? {
      TurnCost(c);
      LexCost(NextTurn(c).after);
    }
  }

  // The parser keeps every word.

  function WordsCost(words: seq<string>): nat {
    if words == [] then 0 else Cost(words[0]) + WordsCost(words[1..])
  }

  function ItemCost(item: Item): nat
    decreases item, 1
  {
    Cost(item.name) + WordsCost(item.Words()) + if item.Block? then ItemsCost(item.children) else 0
  }

  function ItemsCost(items: seq<Item>): nat
    decreases items, 0
  {
    if items == [] then 0 else ItemCost(items[0]) + ItemsCost(items[1..])
  }

  lemma {:induction false} LeadingWordsCost(ts: seq<Spanned>)
    ensures var p := LeadingWords(ts); TokensCost(ts) == WordsCost(p.value) + TokensCost(p.rest)
  {
    if ts != [] && ts[0].token.Word? {
      LeadingWordsCost(ts[1..]);
      var p := LeadingWords(ts[1..]);
      assert ([ts[0].token.word] + p.value)[1..] == p.value;
    }
  }

  lemma {:induction false} StatementCost(ts: seq<Spanned>)
    ensures var p := Statement(ts); p.Parsed? ==> TokensCost(ts) == ItemCost(p.value) + TokensCost(p.rest)
    decreases |ts|, 0
  {
    if ts != [] && ts[0].token.Word? {
      LeadingWordsCost(ts[1..]);
      var after := LeadingWords(ts[1..]).rest;
      if after != [] && after[0].token == LBrace {
        StatementsCost(after[1..], false);
      }
    }
  }

  lemma {:induction false} StatementsCost(ts: seq<Spanned>, topLevel: bool)
    ensures var p := Statements(ts, topLevel); p.Parsed? ==> TokensCost(ts) == ItemsCost(p.value) + TokensCost(p.rest)
    decreases |ts|, 1
  {
    if ts != [] && ts[0].token != RBrace {
      if ts[0].token == Newline {
        StatementsCost(ts[1..], topLevel);
      } else {
        StatementCost(ts);
        var p := Statement(ts);
        if p.Parsed? {
          StatementsCost(p.rest, topLevel);
          var q := Statements(p.rest, topLevel);
          if q.Parsed? { assert ([p.value] + q.value)[1..] == q.value; }
        }
      }
    }
  }

  // The printer writes two quotes for each word that is not bare.

  function PrintedQuotes(word: string): nat {
    Quotes(word) + if IsBare(word) then 0 else 2
  }

  lemma {:induction false} EscapedQuotes(word: string)
    ensures Quotes(Escaped(word)) == Quotes(word)
  {
    if word != "" {
      EscapedQuotes(word[1..]);
      QuotesConcat(EscapeChar(word[0]), Escaped(word[1..]));
      assert "\\\\"[1..] == "\\" && "\\\""[1..] == "\"";
    }
  }

  lemma AtomQuotes(word: string)
    ensures Quotes(Atom(word)) == PrintedQuotes(word)
  {
    if !IsBare(word) {
      EscapeIsOnePass(word);
      EscapedQuotes(word);
      QuotesConcat("\"" + Escaped(word), "\"");
      QuotesConcat("\"", Escaped(word));
    }
  }

  lemma {:induction false} IndentQuotes(n: nat)
    ensures Quotes(seq(n, _ => ' ')) == 0
  {
    if n > 0 {
      IndentQuotes(n - 1);
      assert seq(n, _ => ' ')[1..] == seq(n - 1, _ => ' ');
    }
  }

  /** How far printing `words` falls short of what reading them back costs. */
  lemma {:induction false} AtomsQuotes(words: seq<string>)
    ensures Quotes(Atoms(words)) <= WordsCost(words)
    ensures Quotes(Atoms(words)) == WordsCost(words) ==> PrintableWords(words)
  {
    if words != [] {
      AtomsQuotes(words[1..]);
      AtomQuotes(words[0]);
      QuotesConcat(" " + Atom(words[0]), Atoms(words[1..]));
      QuotesConcat(" ", Atom(words[0]));
    }
  }

  lemma HeaderQuotes(item: Item, depth: nat)
    ensures Quotes(Header(item, depth)) == Quotes(item.name) + Quotes(Atoms(item.Words()))
  {
    IndentQuotes(4 * depth);
    QuotesConcat(Indent(depth) + item.name, Atoms(item.Words()));
    QuotesConcat(Indent(depth), item.name);
  }

  lemma {:induction false} ItemQuotes(item: Item, depth: nat)
    ensures Quotes(RenderItem(item, depth)) <= ItemCost(item)
    ensures Quotes(RenderItem(item, depth)) == ItemCost(item) ==> PrintableItem(item)
    decreases item, 1
  {
    AtomsQuotes(item.Words());
    HeaderQuotes(item, depth);
    match item {
      case Leaf(_, _) =>
        QuotesConcat(Header(item, depth), "\n");
      case Block(_, _, children) =>
        ItemsQuotes(children, depth + 1);
        BraceQuotes(item, depth);
    }
  }

  lemma BraceQuotes(item: Item, depth: nat)
    requires item.Block?
    ensures Quotes(RenderItem(item, depth)) ==
            Quotes(Header(item, depth)) + Quotes(RenderItems(item.children, depth + 1))
  {
    var h, b := Header(item, depth), RenderItems(item.children, depth + 1);
    QuotesConcat(h + " {\n" + b, Indent(depth) + "}\n");
    QuotesConcat(h + " {\n", b);
    QuotesConcat(h, " {\n");
    QuotesConcat(Indent(depth), "}\n");
    IndentQuotes(4 * depth);
    assert " {\n"[1..] == "{\n" && "{\n"[1..] == "\n" && "}\n"[1..] == "\n";
  }

  lemma {:induction false} ItemsQuotes(items: seq<Item>, depth: nat)
    ensures Quotes(RenderItems(items, depth)) <= ItemsCost(items)
    ensures Quotes(RenderItems(items, depth)) == ItemsCost(items) ==> Printable(items)
    decreases items, 0
  {
    if items != [] {
      ItemQuotes(items[0], depth);
      ItemsQuotes(items[1..], depth);
      QuotesConcat(RenderItem(items[0], depth), RenderItems(items[1..], depth));
    }
  }

  /** A tree survives being printed and parsed exactly when it is printable. */
  lemma RoundTripIff(items: seq<Item>)
    ensures Parse(ToText(items)) == Ok(items) <==> Printable(items)
  {
    if Printable(items) {
      PrintThenParse(items);
    }
    if Parse(ToText(items)) == Ok(items) {
      var c := Start(ToText(items));
      LexCost(c);
      StatementsCost(Lex(c).value, true);
      ItemsQuotes(items, 0);
    }
  }

  /** A statement of the tree, at any depth. */
  predicate Within(item: Item, items: seq<Item>)
    decreases items
  {
    items != [] &&
    (item == items[0] || (items[0].Block? && Within(item, items[0].children)) || Within(item, items[1..]))
  }

  lemma {:induction false} PrintableWithin(items: seq<Item>, item: Item)
    requires Printable(items) && Within(item, items)
    ensures PrintableItem(item)
    decreases items
  {
    if item != items[0] {
      if items[0].Block? && Within(item, items[0].children) {
        PrintableWithin(items[0].children, item);
      } else {
        PrintableWithin(items[1..], item);
      }
    }
  }

  /** A tree with a name that is no bare word, or opens a comment, does not come back. */
  lemma UnprintableName(items: seq<Item>, item: Item)
    requires Within(item, items) && !LexesBare(item.name)
    ensures Parse(ToText(items)) != Ok(items)
  {
    RoundTripIff(items);
    if Printable(items) { PrintableWithin(items, item); }
  }

  /** Nor does one with a bare value or key that opens a comment. */
  lemma UnprintableValue(items: seq<Item>, item: Item, word: string)
    requires Within(item, items) && word in item.Words() && !PrintableWord(word)
    ensures Parse(ToText(items)) != Ok(items)
  {
    RoundTripIff(items);
    if Printable(items) { PrintableWithin(items, item); }
  }

  /** A name of two words, and a value that looks like a comment. */
  lemma UnprintableTrees()
    ensures var tree := [Leaf("a b", [])]; Parse(ToText(tree)) != Ok(tree)
    ensures var tree := [Leaf("path", ["//x"])]; Parse(ToText(tree)) != Ok(tree)
  {
    assert !IsWordChar("a b"[1]);
    UnprintableName([Leaf("a b", [])], Leaf("a b", []));
    UnprintableValue([Leaf("path", ["//x"])], Leaf("path", ["//x"]), "//x");
  }
}
