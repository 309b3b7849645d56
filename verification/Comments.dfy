/**
 * Comments say nothing (hemlock-config, lexer.rs): each of the three forms can be taken out
 * of a text without changing the tokens it yields, wherever the text stands.
 */
module Comments {
  import opened Basics
  import opened ConfigTree
  import opened ConfigLexer
  import opened RoundTrip

  // ---------------------------------------------------------------- positions only label

  lemma {:induction false} LineAnywhere(c: Cursor, d: Cursor)
    requires c.rest == d.rest
    ensures SkipLine(c).rest == SkipLine(d).rest
    decreases |c.rest|
  {
    if !c.Done() && c.rest[0] != '\n' {
      LineAnywhere(c.Bump(), d.Bump());
    }
  }

  /** Two results of one scan started at two positions. */
  predicate SameBlock(a: Option<Cursor>, b: Option<Cursor>) {
    a.Some? == b.Some? && (a.Some? ==> a.value.rest == b.value.rest)
  }

  lemma {:induction false} BlockAnywhere(c: Cursor, d: Cursor)
    requires c.rest == d.rest
    ensures SameBlock(SkipBlock(c), SkipBlock(d))
    decreases |c.rest|
  {
    if !c.Done() {
      BlockAnywhere(c.Bump(), d.Bump());
    }
  }

  predicate SameScan(a: Scan, b: Scan) {
    a.word == b.word && a.after.rest == b.after.rest
  }

  lemma {:induction false} WordAnywhere(c: Cursor, d: Cursor)
    requires c.rest == d.rest
    ensures SameScan(TakeWord(c), TakeWord(d))
    decreases |c.rest|
  {
    if !c.Done() && IsWordChar(c.rest[0]) {
      WordAnywhere(c.Bump(), d.Bump());
    }
  }

  predicate SameString(a: Option<Scan>, b: Option<Scan>) {
    a.Some? == b.Some? && (a.Some? ==> SameScan(a.value, b.value))
  }

  lemma {:induction false} StringAnywhere(c: Cursor, d: Cursor)
    requires c.rest == d.rest
    ensures SameString(Unquote(c), Unquote(d))
    decreases |c.rest|
  {
    if !c.Done() {
      StringAnywhere(c.Bump(), d.Bump());
      if !c.Bump().Done() {
        StringAnywhere(c.Bump().Bump(), d.Bump().Bump());
      }
    }
  }

  predicate SameTurn(a: Turn, b: Turn) {
    match (a, b)
    case (Skipped(p), Skipped(q)) => p.rest == q.rest
    case (Read(t, p), Read(u, q)) => t == u && p.rest == q.rest
    case (Failed(_), Failed(_)) => true
    case _ => false
  }

  lemma TurnAnywhere(c: Cursor, d: Cursor)
    requires c.rest == d.rest && !c.Done()
    ensures SameTurn(NextTurn(c), NextTurn(d))
  {
    var p, q := c.Bump(), d.Bump();
    LineAnywhere(p, q);
    WordAnywhere(c, d);
    WordAnywhere(p, q);
    StringAnywhere(p, q);
    if !p.Done() {
      BlockAnywhere(p.Bump(), q.Bump());
    }
  }

  /** The tokens of a text do not depend on where it stands. */
  lemma {:induction false} TokensAnywhere(c: Cursor, d: Cursor)
    requires c.rest == d.rest
    ensures Tokens(c) == Tokens(d)
    decreases |c.rest|
  {
    if !c.Done() {
      TurnAnywhere(c, d);
      TokensStep(c);
      TokensStep(d);
      if !NextTurn(c).Failed? {
        TokensAnywhere(NextTurn(c).after, NextTurn(d).after);
      }
    }
  }

  // ---------------------------------------------------------------- comments vanish

  lemma {:induction false} LineSkips(text: string, rest: string, at: Pos)
    requires '\n' !in text && (rest == "" || rest[0] == '\n')
    ensures SkipLine(Cursor(text + rest, at)).rest == rest
    decreases |text|
  {
    if text == "" {
      Unit(rest);
    } else {
      var c := Cursor(text + rest, at);
      assert c.Bump().rest == text[1..] + rest && c.rest[0] == text[0] && text[0] in text;
      LineSkips(text[1..], rest, c.Bump().at);
    }
  }

  /** No star stands before a slash. */
  predicate Open(text: string) {
    forall i :: 0 <= i < |text| - 1 ==> !(text[i] == '*' && text[i + 1] == '/')
  }

  lemma {:induction false} BlockSkips(text: string, rest: string, at: Pos)
    requires Open(text)
    ensures SkipBlock(Cursor(text + "*/" + rest, at)).Some?
    ensures SkipBlock(Cursor(text + "*/" + rest, at)).value.rest == rest
    ensures SkipBlock(Cursor(text, at)) == None
    decreases |text|
  {
    var c := Cursor(text + "*/" + rest, at);
    if text == "" {
      assert c.rest == "*/" + rest && c.Bump().rest == "/" + rest;
    } else {
      var after := text[1..] + "*/" + rest;
      assert c.rest[0] == text[0] && c.Bump().rest == after;
      assert text[1..] != "" ==> after[0] == text[1];
      assert text[1..] == "" ==> after[0] == '*';
      BlockSkips(text[1..], rest, c.Bump().at);
      BlockSkips(text[1..], rest, Cursor(text, at).Bump().at);
    }
  }

  /** A line comment yields nothing; its newline stays. */
  lemma HashCommentVanishes(text: string, rest: string, at: Pos, elsewhere: Pos)
    requires '\n' !in text && (rest == "" || rest[0] == '\n')
    ensures Tokens(Cursor("#" + text + rest, at)) == Tokens(Cursor(rest, elsewhere))
  {
    var c := Cursor("#" + text + rest, at);
    assert c.Bump().rest == text + rest;
    LineSkips(text, rest, c.Bump().at);
    TokensStep(c);
    TokensAnywhere(NextTurn(c).after, Cursor(rest, elsewhere));
  }

  lemma SlashCommentVanishes(text: string, rest: string, at: Pos, elsewhere: Pos)
    requires '\n' !in text && (rest == "" || rest[0] == '\n')
    ensures Tokens(Cursor("//" + text + rest, at)) == Tokens(Cursor(rest, elsewhere))
  {
    var c := Cursor("//" + text + rest, at);
    assert c.Bump().rest == "/" + text + rest;
    assert c.Bump().Bump().rest == text + rest;
    LineSkips(text, rest, c.Bump().Bump().at);
    TokensStep(c);
    TokensAnywhere(NextTurn(c).after, Cursor(rest, elsewhere));
  }

  /** A block comment yields nothing, not even its newlines; one that never closes is an error. */
  lemma BlockCommentVanishes(text: string, rest: string, at: Pos, elsewhere: Pos)
    requires Open(text)
    ensures Tokens(Cursor("/*" + (text + "*/" + rest), at)) == Tokens(Cursor(rest, elsewhere))
    ensures Tokens(Cursor("/*" + text, at)) == None
  {
    var closed, unclosed := Cursor("/*" + (text + "*/" + rest), at), Cursor("/*" + text, at);
    assert closed.Bump().rest == "*" + (text + "*/" + rest);
    assert closed.Bump().Bump().rest == text + "*/" + rest;
    BlockSkips(text, rest, closed.Bump().Bump().at);
    TokensStep(closed);
    TokensAnywhere(NextTurn(closed).after, Cursor(rest, elsewhere));
    assert unclosed.Bump().rest == "*" + text;
    assert unclosed.Bump().Bump().rest == text;
    BlockSkips(text, rest, unclosed.Bump().Bump().at);
  }
}
