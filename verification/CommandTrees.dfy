/** What the tree of an accepted command holds, and the text for which it holds
    no table name. */
module CommandTrees {
  import opened Ordering
  import opened Codec
  import opened Lexer
  import opened CommandAutomaton
  import opened CommandParser
  import opened CommandPrinter
  import opened CommandRoundTrip

  /** The tree of a text, if it is accepted. */
  ghost function TextTree(text: Bytes): Option<Tree> {
    var items := Read(UpToNul(text), false, []);
    if items.None? then None else Parsed(items.value)
  }

  /** What the dispatch reads without a look: a command, a table name, and for
      a `select` a column. */
  ghost predicate Usable(tree: Tree) {
    && ListAt(tree, "command") != [] && ListAt(tree, "table_name") != []
    && (ListAt(tree, "command")[0] == SELECT_TEXT ==> ListAt(tree, "fields") != [])
  }

  /** The tree in a state that was reached without a second `create`. */
  ghost predicate TreeIn(state: int, tree: Tree) {
    var names, fields, values := ListAt(tree, "table_name"), ListAt(tree, "fields"), ListAt(tree, "values");
    if 1 <= state <= 6 then
      && ListAt(tree, "command") == [CREATE_TEXT] && |names| == (if state <= 2 then 0 else 1)
      && (state >= 5 ==> fields != [])
    else if 7 <= state <= 12 then
      && ListAt(tree, "command") == [INSERT_TEXT] && |names| == (if state <= 8 then 0 else 1)
      && (state >= 11 ==> values != [])
    else if 13 <= state <= 24 then
      && ListAt(tree, "command") == [SELECT_TEXT] && |names| == (if state <= 17 then 0 else 1)
      && (state >= 14 ==> fields != [])
    else false
  }

  lemma MovesForward(state: int, p: Part)
    requires !p.CreateWord? && 1 <= state <= 24 && NextState(state, p) != -1
    ensures var next := NextState(state, p);
      && 1 <= next <= 24
      && (state < 6 ==> next == state + 1) && (state == 6 ==> next == 5)
      && (7 <= state < 12 ==> next == state + 1) && (state == 12 ==> next == 11)
      && (state == 13 ==> next == 14 || next == 16) && (14 <= state <= 16 ==> next == 14 || next == 15 || next == 17)
      && (state == 17 ==> next == 18) && (state >= 18 ==> next >= 19)
  {
  }

  lemma RecordedLists(tree: Tree, state: int, text: Bytes)
    ensures var r := Recorded(tree, state, text);
      && ListAt(r, "command") == ListAt(tree, "command")
      && ListAt(r, "table_name") ==
           ListAt(tree, "table_name") + (if state == 3 || state == 9 || state == 18 then [text] else [])
      && ListAt(r, "fields") ==
           ListAt(tree, "fields") + (if state == 5 || state == 16 || state == 14 then [text] else [])
      && ListAt(r, "values") == ListAt(tree, "values") + (if state == 11 then [text] else [])
  {
  }

  lemma TreeMoves(state: int, tree: Tree, l: Lexeme)
    requires !l.part.CreateWord? && TreeIn(state, tree) && NextState(state, l.part) != -1
    ensures TreeIn(NextState(state, l.part), Recorded(tree, NextState(state, l.part), l.text))
  {
    hide NextState, Recorded, ListAt;
    MovesForward(state, l.part);
    RecordedLists(tree, NextState(state, l.part), l.text);
  }

  lemma {:induction false} TreeEnds(state: int, tree: Tree, items: seq<Lexeme>)
    requires TreeIn(state, tree) && NoCreate(Parts(items)) && ParseRest(state, tree, items).Some?
    ensures OneTable(ParseRest(state, tree, items).value)
    decreases |items|
  {
    hide Recorded, NextState, TreeIn;
    if items == [] {
      EndsFull(state, tree);
    } else {
      var next := NextState(state, items[0].part);
      assert Parts(items)[0] in Parts(items);
      TreeMoves(state, tree, items[0]);
      assert Parts(items)[1..] == Parts(items[1..]);
      TreeEnds(next, Recorded(tree, next, items[0].text), items[1..]);
    }
  }

  /** One table name, and a list that is not empty. */
  ghost predicate OneTable(tree: Tree) {
    && Usable(tree) && |ListAt(tree, "table_name")| == 1
    && ListAt(tree, if ListAt(tree, "command")[0] == INSERT_TEXT then "values" else "fields") != []
  }

  lemma EndsFull(state: int, tree: Tree)
    requires TreeIn(state, tree) && Successful(state)
    ensures OneTable(Without(Without(tree, "condition"), "where"))
  {
  }

  /** Every accepted text without a second `create` has exactly one table name
      and a list that is not empty. */
  lemma AcceptedHasTable(items: seq<Lexeme>)
    requires Parsed(items).Some? && NoCreate(Parts(items)[1..])
    ensures OneTable(Parsed(items).value)
  {
    hide ParseRest, NextState;
    var first := items[0].part;
    FirstMoves();
    assert Parts(items)[1..] == Parts(items[1..]);
    TreeEnds(NextState(0, first), Started(first), items[1..]);
  }

  lemma FirstMoves()
    ensures NextState(0, CreateWord) == 1 && NextState(0, InsertWord) == 7 && NextState(0, SelectWord) == 13
  {
  }

  function TwiceCreate(): seq<Lexeme> { [Word(CREATE_TEXT), Word(CREATE_TEXT)] }

  /** The text `create create` is accepted with a tree that has no table name. */
  lemma SecondCreateHasNoTable()
    ensures TextTree(Print(TwiceCreate())) == Parsed(TwiceCreate()) && Parsed(TwiceCreate()).Some?
    ensures ListAt(Parsed(TwiceCreate()).value, "table_name") == [] && !Usable(Parsed(TwiceCreate()).value)
  {
    hide Word, Keyword, Print, Read, Printable, Parsed;
    Keywords();
    PrintableKeywords();
    PrintReadsBack(TwiceCreate());
    NoNul(TwiceCreate());
    TwiceParses(Word(CREATE_TEXT));
  }

  lemma TwiceParses(c: Lexeme)
    requires c.part.CreateWord?
    ensures Parsed([c, c]).Some? && ListAt(Parsed([c, c]).value, "table_name") == []
  {
    var tree := Started(CreateWord);
    FirstMoves();
    assert [c, c][1..] == [c] && [c][1..] == [];
    assert NextState(1, CreateWord) == 0 && Recorded(tree, 0, c.text) == tree && Successful(0);
    assert ParseRest(0, tree, []) == Some(Without(Without(tree, "condition"), "where"));
    assert ParseRest(1, tree, [c]) == ParseRest(0, tree, []);
  }
}
