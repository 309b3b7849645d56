/**
 * The configuration tree and its canonical text (hemlock-config, tree.rs).
 */
module ConfigTree {
  import opened Basics

  /** One statement: `name value...` or `name key... { children }`. */
  datatype Item =
    | Leaf(name: string, values: seq<string>)
    | Block(name: string, keys: seq<string>, children: seq<Item>)
  {
    /** The words after the name: a leaf's values, a block's keys. */
    function Words(): seq<string> {
      if Leaf? then values else keys
    }
  }

  /** Characters that may appear in a bare word. */
  predicate IsWordChar(c: char) {
    'a' <= c <= 'z' || 'A' <= c <= 'Z' || '0' <= c <= '9' ||
    c in {'-', '_', '.', ':', '/', '*', '@', '+', ','}
  }

  /** A word the printer writes without quotes. */
  predicate IsBare(word: string) {
    word != "" && forall i :: 0 <= i < |word| ==> IsWordChar(word[i])
  }

  function Replace(s: string, c: char, with: string): string {
    if s == "" then ""
    else (if s[0] == c then with else [s[0]]) + Replace(s[1..], c, with)
  }

  /** Backslashes are doubled first, then quotes get a backslash. */
  function Escape(word: string): string {
    Replace(Replace(word, '\\', "\\\\"), '"', "\\\"")
  }

  function Atom(word: string): string {
    if IsBare(word) then word else "\"" + Escape(word) + "\""
  }

  function Indent(depth: nat): string {
    seq(4 * depth, _ => ' ')
  }

  /** ` word` for every word. */
  function Atoms(words: seq<string>): string {
    if words == [] then "" else " " + Atom(words[0]) + Atoms(words[1..])
  }

  function Header(item: Item, depth: nat): string {
    Indent(depth) + item.name + Atoms(item.Words())
  }

  function RenderItem(item: Item, depth: nat): string
    decreases item, 1
  {
    match item
    case Leaf(_, _) =>
      Header(item, depth) + "\n"
    case Block(_, _, children) =>
      Header(item, depth) + " {\n" + RenderItems(children, depth + 1) + (Indent(depth) + "}\n")
  }

  function RenderItems(items: seq<Item>, depth: nat): string
    decreases items, 0
  {
    if items == [] then "" else RenderItem(items[0], depth) + RenderItems(items[1..], depth)
  }

  function ToText(items: seq<Item>): string {
    RenderItems(items, 0)
  }

  // ---------------------------------------------------------------- the printer's loops

  lemma AtomsSnoc(words: seq<string>, word: string)
    ensures Atoms(words + [word]) == Atoms(words) + (" " + Atom(word))
  {
    if words == [] {
      assert words + [word] == [word];
    } else {
      assert (words + [word])[1..] == words[1..] + [word];
      Assoc(" " + Atom(words[0]), Atoms(words[1..]), " " + Atom(word));
    }
  }

  lemma RenderItemsSnoc(items: seq<Item>, item: Item, depth: nat)
    ensures RenderItems(items + [item], depth) == RenderItems(items, depth) + RenderItem(item, depth)
  {
    if items == [] {
      assert items + [item] == [item];
    } else {
      assert (items + [item])[1..] == items[1..] + [item];
    }
  }

  method PushAtoms(buffer: string, words: seq<string>) returns (out: string)
    ensures out == buffer + Atoms(words)
  {
    out := buffer;
    for i := 0 to |words|
      invariant out == buffer + Atoms(words[..i])
    {
      AtomsSnoc(words[..i], words[i]);
      assert words[..i + 1] == words[..i] + [words[i]];
      Assoc(buffer, Atoms(words[..i]), " " + Atom(words[i]));
      out := out + (" " + Atom(words[i]));
    }
    assert words[..|words|] == words;
  }

  /** Appends the rendering of `item` to the text buffer. */
  method Render(buffer: string, item: Item, depth: nat) returns (out: string)
    ensures out == buffer + RenderItem(item, depth)
    decreases item, 1
  {
    var name := Indent(depth) + item.name;
    out := PushAtoms(buffer + name, item.Words());
    Assoc(buffer, name, Atoms(item.Words()));
    ghost var text := Header(item, depth);
    match item {
      case Leaf(_, _) =>
        Assoc(buffer, text, "\n");
        out := out + "\n";
      case Block(_, _, children) =>
        Assoc(buffer, text, " {\n");
        text := text + " {\n";
        out := RenderAll(out + " {\n", children, depth + 1);
        Assoc(buffer, text, RenderItems(children, depth + 1));
        Assoc(buffer, text + RenderItems(children, depth + 1), Indent(depth) + "}\n");
        out := out + (Indent(depth) + "}\n");
    }
  }

  method RenderAll(buffer: string, items: seq<Item>, depth: nat) returns (out: string)
    ensures out == buffer + RenderItems(items, depth)
    decreases items, 0
  {
    out := buffer;
    for i := 0 to |items|
      invariant out == buffer + RenderItems(items[..i], depth)
    {
      RenderItemsSnoc(items[..i], items[i], depth);
      assert items[..i + 1] == items[..i] + [items[i]];
      Assoc(buffer, RenderItems(items[..i], depth), RenderItem(items[i], depth));
      out := Render(out, items[i], depth);
    }
    assert items[..|items|] == items;
  }
}
