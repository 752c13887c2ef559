/** From a command line to its parse tree: classified tokens with quoted
    literals, and the automaton that fills the tree. */
module CommandParser {
  import opened Ordering
  import opened Codec
  import opened StateTables
  import opened Lexer
  import opened CommandAutomaton
  import opened WhereTokens

  const CREATE_TEXT: Bytes := [99, 114, 101, 97, 116, 101]
  const TABLE_TEXT: Bytes := [116, 97, 98, 108, 101]
  const FIELDS_TEXT: Bytes := [102, 105, 101, 108, 100, 115]
  const INSERT_TEXT: Bytes := [105, 110, 115, 101, 114, 116]
  const INTO_TEXT: Bytes := [105, 110, 116, 111]
  const VALUES_TEXT: Bytes := [118, 97, 108, 117, 101, 115]
  const SELECT_TEXT: Bytes := [115, 101, 108, 101, 99, 116]
  const FROM_TEXT: Bytes := [102, 114, 111, 109]
  const WHERE_TEXT: Bytes := [119, 104, 101, 114, 101]
  const YES_TEXT: Bytes := [121, 101, 115]
  const STAR_TEXT: Bytes := [42]
  const COMMA_TEXT: Bytes := [44]
  const QUOTE: Bytes := [34]

  // ----- tokens with a part of speech

  function Keyword(text: Bytes): Part {
    if text == CREATE_TEXT then CreateWord
    else if text == TABLE_TEXT then TableWord
    else if text == FIELDS_TEXT then FieldsWord
    else if text == INSERT_TEXT then InsertWord
    else if text == INTO_TEXT then IntoWord
    else if text == VALUES_TEXT then ValuesWord
    else if text == SELECT_TEXT then SelectWord
    else if text == FROM_TEXT then FromWord
    else if text == WHERE_TEXT then WhereWord
    else if text == OR_WORD || text == AND_WORD then LogicalWord
    else LiteralWord
  }

  /** `classify_unquoted_token`. */
  function Classify(t: SToken): Option<Part> {
    match t.kind
    case Alpha => Some(Keyword(t.text))
    case Number => Some(LiteralWord)
    case Operator => if TokenOf(t.text).Relation? then Some(RelationalWord) else None
    case Paren => Some(Parens)
    case Star => if t.text == STAR_TEXT then Some(Asterisk) else None
    case Comma => if t.text == COMMA_TEXT then Some(Commas) else None
    case _ => None
  }

  datatype Lexeme = Lexeme(text: Bytes, part: Part)

  function Behind(first: Lexeme, rest: Option<seq<Lexeme>>): Option<seq<Lexeme>> {
    if rest.None? then None else Some([first] + rest.value)
  }

  /** The lexemes of a command; `inside` says that a quote is open. */
  function Read(s: Bytes, inside: bool, quoted: Bytes): Option<seq<Lexeme>>
    decreases |s|
  {
    if s == [] then if inside then None else Some([])
    else
      var t := Next(s);
      var rest := s[|t.text|..];
      if inside then
        if t.text == QUOTE then Behind(Lexeme(quoted, LiteralWord), Read(rest, false, []))
        else Read(rest, true, quoted + t.text)
      else if t.text == QUOTE then Read(rest, true, quoted)
      else if t.kind.Space? then Read(rest, false, quoted)
      else if Classify(t).None? then None
      else Behind(Lexeme(t.text, Classify(t).value), Read(rest, false, quoted))
  }

  // ----- the tree

  type Tree = map<string, seq<Bytes>>

  function ListAt(tree: Tree, key: string): seq<Bytes> { if key in tree then tree[key] else [] }

  /** `tree[key] += text`. */
  function Added(tree: Tree, key: string, text: Bytes): Tree { tree[key := ListAt(tree, key) + [text]] }

  function Started(first: Part): Tree {
    if first.CreateWord? then map["command" := [CREATE_TEXT], "fields" := [], "table_name" := []]
    else if first.InsertWord? then map["command" := [INSERT_TEXT], "values" := [], "table_name" := []]
    else map["command" := [SELECT_TEXT], "condition" := [], "fields" := [], "table_name" := [], "where" := []]
  }

  function Recorded(tree: Tree, state: int, text: Bytes): Tree {
    var named := if state == 3 || state == 9 || state == 18 then Added(tree, "table_name", text) else tree;
    var listed := if state == 5 || state == 16 || state == 14 then Added(named, "fields", text) else named;
    var valued := if state == 11 then Added(listed, "values", text) else listed;
    var marked := if state == 19 && ListAt(valued, "where") == [] then Added(valued, "where", YES_TEXT) else valued;
    if 19 <= state <= 24 && text != WHERE_TEXT then Added(marked, "condition", text) else marked
  }

  function Without(tree: Tree, key: string): Tree { if ListAt(tree, key) == [] then tree - {key} else tree }

  function ParseRest(state: int, tree: Tree, items: seq<Lexeme>): Option<Tree>
    decreases |items|
  {
    if items == [] then if Successful(state) then Some(Without(Without(tree, "condition"), "where")) else None
    else
      var next := NextState(state, items[0].part);
      if next == -1 then None else ParseRest(next, Recorded(tree, next, items[0].text), items[1..])
  }

  /** The tree of a command, if it is one. */
  function Parsed(items: seq<Lexeme>): Option<Tree> {
    if items == [] then None
    else
      var first := items[0].part;
      if first.CreateWord? || first.InsertWord? || first.SelectWord? then
        ParseRest(NextState(0, first), Started(first), items[1..])
      else None
  }

  function Parts(items: seq<Lexeme>): (r: seq<Part>)
    ensures |r| == |items|
  {
    seq(|items|, i requires 0 <= i < |items| => items[i].part)
  }

  lemma {:induction false} RestIsAccepted(state: int, tree: Tree, items: seq<Lexeme>)
    ensures ParseRest(state, tree, items).Some? <==> Accepts(state, Parts(items))
    decreases |items|
  {
    hide Recorded, Without, NextState;
    if items == [] {
      Stop(state);
      assert Parts(items) == [];
    } else {
      Step(state, Parts(items));
      assert Parts(items)[1..] == Parts(items[1..]);
      var next := NextState(state, items[0].part);
      if next != -1 { RestIsAccepted(next, Recorded(tree, next, items[0].text), items[1..]); }
    }
  }

  /** Parsing succeeds exactly on what the automaton accepts. */
  lemma ParsedIsAccepted(items: seq<Lexeme>)
    ensures Parsed(items).Some? <==> Accepted(Parts(items))
  {
    hide Accepts, ParseRest, NextState, Started;
    if items != [] {
      var first := items[0].part;
      RestIsAccepted(NextState(0, first), Started(first), items[1..]);
      assert Parts(items)[1..] == Parts(items[1..]);
    }
  }

  // ----- the parser

  function Joined(done: seq<Lexeme>, rest: Option<seq<Lexeme>>): Option<seq<Lexeme>> {
    if rest.None? then None else Some(done + rest.value)
  }

  function Zip(input: seq<SToken>, types: seq<Part>): (r: seq<Lexeme>)
    requires |input| == |types|
    ensures |r| == |input|
  {
    seq(|input|, i requires 0 <= i < |input| => Lexeme(input[i].text, types[i]))
  }

  lemma ZipMore(input: seq<SToken>, types: seq<Part>, t: SToken, p: Part, rest: Option<seq<Lexeme>>)
    requires |input| == |types|
    ensures Joined(Zip(input, types), Behind(Lexeme(t.text, p), rest)) == Joined(Zip(input + [t], types + [p]), rest)
  {
    assert Zip(input + [t], types + [p]) == Zip(input, types) + [Lexeme(t.text, p)];
    if rest.Some? {
      assert Zip(input, types) + ([Lexeme(t.text, p)] + rest.value) ==
             Zip(input, types) + [Lexeme(t.text, p)] + rest.value;
    }
  }

  class Parser {
    var input: seq<SToken>
    var types: seq<Part>
    var tree: Tree
    const token: STokenizer
    const table: Cells

    ghost predicate Valid()
      reads this, token, token.table, table
    {
      && token.Valid() && CommandTable(table) && |input| == |types| && token.table != table
    }

    constructor ()
      ensures Valid() && input == [] && fresh(token) && fresh(token.table) && fresh(table)
    {
      var scanner := new STokenizer();
      var cells := new int[MAX_ROWS, MAX_COLUMNS];
      InitCommands(cells);
      input, types, tree, token, table := [], [], map[], scanner, cells;
    }

    /** `set_string`: the lexemes of the text up to its first NUL byte; none if
        it cannot be read. */
    method SetString(text: Bytes)
      requires Valid()
      modifies this, token
      ensures Valid() && tree == map[]
      ensures var items := Read(UpToNul(text), false, []); Zip(input, types) == if items.None? then [] else items.value
    {
      hide ScannerTable, CommandTable, Read;
      tree, types, input := map[], [], [];
      token.SetString(text);
      Tokenize();
    }

    method Tokenize()
      requires Valid() && input == [] && types == [] && token.pos == 0
      modifies this`input, this`types, token`pos
      ensures Valid()
      ensures var items := Read(token.buffer, false, []); Zip(input, types) == if items.None? then [] else items.value
    {
      hide ScannerTable, CommandTable, Next, Classify, IsLexeme, NoneLonger;
      var insideQuote, quotedLiteral: Bytes := false, [];
      assert token.buffer[0..] == token.buffer;
      ghost var all := Read(token.buffer, false, []);
      EmptyZip(all);
      var more := token.More();
      while more
        invariant Valid() && token.buffer == old(token.buffer) && (more <==> token.pos < |token.buffer|)
        invariant !insideQuote ==> quotedLiteral == []
        invariant all == Joined(Zip(input, types), Read(token.buffer[token.pos..], insideQuote, quotedLiteral))
        decreases |token.buffer| - token.pos
      {
        ghost var rest := token.buffer[token.pos..];
        ghost var from := token.pos;
        var ok, current := token.GetToken();
        var text := current.text;
        assert rest[|text|..] == token.buffer[token.pos..];
        if insideQuote {
          if text == QUOTE {
            ZipMore(input, types, SToken(quotedLiteral, Alpha), LiteralWord,
                Read(token.buffer[token.pos..], false, []));
            input := input + [SToken(quotedLiteral, Alpha)];
            types := types + [LiteralWord];
            quotedLiteral, insideQuote := [], false;
          } else {
            quotedLiteral := quotedLiteral + text;
          }
        } else if text == QUOTE {
          insideQuote := true;
        } else if !current.kind.Space? {
          var part := Classify(current);
          if part.None? {
            input, types := [], [];
            return;
          }
          ZipMore(input, types, current, part.value, Read(token.buffer[token.pos..], false, []));
          input := input + [current];
          types := types + [part.value];
        }
        more := token.More();
      }
      assert token.buffer[token.pos..] == [];
      if insideQuote {
        input, types := [], [];
      }
    }

    /** `parse_tree`: the tree of a command, and an empty one otherwise. */
    method ParseTree() returns (result: Tree)
      requires Valid()
      modifies this`tree
      ensures Valid() && input == old(input) && types == old(types) && tree == result
      ensures var p := Parsed(Zip(input, types)); result == if p.None? then map[] else p.value
    {
      hide ScannerTable, Parsed;
      var success := Parse();
      if !success { tree := map[]; }
      result := tree;
    }

    /** What reaching a state adds to the tree. */
    method Record(state: int, text: Bytes, didWhere: bool) returns (didWhere': bool)
      requires didWhere <==> ListAt(tree, "where") != []
      modifies this`tree
      ensures tree == Recorded(old(tree), state, text) && (didWhere' <==> ListAt(tree, "where") != [])
    {
      didWhere' := didWhere;
      if state == 3 || state == 9 || state == 18 { tree := Added(tree, "table_name", text); }
      if state == 5 || state == 16 || state == 14 { tree := Added(tree, "fields", text); }
      if state == 11 { tree := Added(tree, "values", text); }
      if state == 19 && !didWhere {
        didWhere' := true;
        tree := Added(tree, "where", YES_TEXT);
      }
      if 19 <= state <= 24 && text != WHERE_TEXT { tree := Added(tree, "condition", text); }
    }

    method RemoveIfEmpty(key: string)
      modifies this`tree
      ensures tree == Without(old(tree), key)
    {
      if ListAt(tree, key) == [] { tree := tree - {key}; }
    }

    method Parse() returns (success: bool)
      requires Valid()
      modifies this`tree
      ensures Valid() && (success <==> Parsed(Zip(input, types)).Some?)
      ensures success ==> tree == Parsed(Zip(input, types)).value
    {
      hide ScannerTable, CommandCell, Code, Recorded, Accepts, Started, ListAt, Without;
      if types == [] { return false; }
      ghost var items := Zip(input, types);
      var first := types[0];
      if !(first.CreateWord? || first.InsertWord? || first.SelectWord?) { return false; }
      tree := Started(first);
      var state := table[0, Code(first)];
      var didWhere := false;
      FirstState(first);
      for i := 1 to |input|
        invariant Valid() && 0 <= state <= 24 && (didWhere <==> ListAt(tree, "where") != [])
        invariant ParseRest(state, tree, items[i..]) == Parsed(items)
      {
        assert items[i..][1..] == items[i + 1..];
        StatesInRange(state, types[i]);
        state := table[state, Code(types[i])];
        if state == -1 { return false; }
        didWhere := Record(state, input[i].text, didWhere);
      }
      assert items[|input|..] == [];
      RemoveIfEmpty("condition");
      RemoveIfEmpty("where");
      success := IsSuccess(table, state);
    }
  }

  lemma EmptyZip(all: Option<seq<Lexeme>>)
    ensures Joined(Zip([], []), all) == all
  {
    if all.Some? { assert Zip([], []) + all.value == all.value; }
  }

  lemma FirstState(p: Part)
    requires p.CreateWord? || p.InsertWord? || p.SelectWord?
    ensures 0 <= CommandCell(0, Code(p)) <= 24 && ListAt(Started(p), "where") == []
  {
  }

  lemma StatesInRange(state: int, p: Part)
    requires 0 <= state <= 24
    ensures -1 <= CommandCell(state, Code(p)) <= 24
  {
  }
}
