/** Commands written out with quoted literals, read back and parsed. */
module CommandPrinter {
  import opened Ordering
  import opened Codec
  import opened Lexer
  import opened CommandAutomaton
  import opened CommandParser
  import opened WhereTokens
  import QueryPaths
  import WhereEval

  const BLANK: Bytes := [32]

  // ----- printing lexemes

  /** A lexeme that reads back: a literal without a quote or a NUL byte, or a
      word the scanner takes in one piece and the parser classifies. */
  predicate Printable(l: Lexeme) {
    if l.part.LiteralWord? then 34 !in l.text && 0 !in l.text else OneWord(l)
  }

  predicate OneWord(l: Lexeme) {
    && l.text != [] && l.text != QUOTE
    && var state := Cell(0, l.text[0]);
    && l.text[0] != 0 && state != 5 && Classify(SToken(l.text, KindOf(state))) == Some(l.part)
    && if state == 1 || state == 3 then
         forall i :: 1 <= i < |l.text| ==> l.text[i] != 0 && Cell(state, l.text[i]) == state
       else state != 2 && |l.text| == 1
  }

  function PrintOne(l: Lexeme): Bytes { if l.part.LiteralWord? then QUOTE + (l.text + QUOTE) else l.text }

  function Print(items: seq<Lexeme>): Bytes {
    if items == [] then [] else PrintOne(items[0]) + (BLANK + Print(items[1..]))
  }

  // ----- reading them back

  lemma {:induction false} SpanAll(state: int, w: Bytes, rest: Bytes)
    requires (forall i :: 0 <= i < |w| ==> Cell(state, w[i]) == state) && (rest == [] || Cell(state, rest[0]) != state)
    ensures Span(state, w + rest) == |w|
  {
    hide Cell;
    if w == [] {
      assert w + rest == rest;
    } else {
      assert (w + rest)[1..] == w[1..] + rest;
      SpanAll(state, w[1..], rest);
    }
  }

  lemma BlankBreaks(state: int)
    requires 0 <= state <= 3
    ensures Cell(state, 32) != state && Cell(0, 32) == 5 && KindOf(5) == Space
  {
  }

  lemma NextWord(l: Lexeme, rest: Bytes)
    requires OneWord(l)
    ensures Next(l.text + (BLANK + rest)) == SToken(l.text, KindOf(Cell(0, l.text[0])))
  {
    hide Cell, Span, Classify, KindOf;
    var s, state := l.text + (BLANK + rest), Cell(0, l.text[0]);
    if state == 1 || state == 3 {
      BlankBreaks(state);
      SpanAll(state, l.text[1..], BLANK + rest);
      assert s[1..] == l.text[1..] + (BLANK + rest);
    }
    assert s[..|l.text|] == l.text;
  }

  lemma NextBlank(rest: Bytes)
    ensures Next(BLANK + rest) == SToken(BLANK, Space)
  {
    BlankBreaks(0);
    assert (BLANK + rest)[..1] == BLANK;
  }

  lemma ReadBlank(rest: Bytes)
    ensures Read(BLANK + rest, false, []) == Read(rest, false, [])
  {
    hide Next;
    NextBlank(rest);
    assert (BLANK + rest)[1..] == rest;
  }

  lemma ReadWord(l: Lexeme, rest: Bytes)
    requires OneWord(l) && !l.part.LiteralWord?
    ensures Read(l.text + (BLANK + rest), false, []) == Behind(l, Read(rest, false, []))
  {
    hide Next, Classify, Cell, KindOf;
    var s := l.text + (BLANK + rest);
    NextWord(l, rest);
    assert s[|l.text|..] == BLANK + rest;
    ReadBlank(rest);
    WordIsNoSpace(l);
  }

  lemma WordIsNoSpace(l: Lexeme)
    requires OneWord(l)
    ensures !KindOf(Cell(0, l.text[0])).Space?
  {
    hide Cell, Classify;
  }

  lemma {:induction false} SpanStops(state: int, s: Bytes, k: nat)
    requires k < |s| && s[k] == 34 && 0 <= state <= 3
    ensures Span(state, s) <= k
  {
    if k > 0 && Cell(state, s[0]) == state {
      SpanStops(state, s[1..], k - 1);
    }
  }

  /** No token runs into a quote behind its first byte. */
  lemma StopsAtQuote(s: Bytes, k: nat)
    requires 0 < k < |s| && s[k] == 34
    ensures NextLength(s) <= k
  {
    hide Cell, Span;
    var state := Cell(0, s[0]);
    if 1 <= state <= 3 {
      SpanStops(state, s[1..], k - 1);
      var n := 1 + Span(state, s[1..]);
      if state == 2 && n + 1 < |s| && s[n] == 46 && IsDigit(s[n + 1]) {
        SpanStops(2, s[n + 1..], k - n - 1);
      }
    }
  }

  lemma NextQuote(rest: Bytes)
    ensures Next(QUOTE + rest).text == QUOTE
  {
    assert Cell(0, 34) == -1;
    assert (QUOTE + rest)[..1] == QUOTE;
  }

  /** Whatever the tokens inside the quotes are, they add up to the literal. */
  lemma {:induction false} ReadInside(lit: Bytes, quoted: Bytes, rest: Bytes)
    requires 34 !in lit
    ensures Read(lit + (QUOTE + rest), true, quoted) == Behind(Lexeme(quoted + lit, LiteralWord), Read(rest, false, []))
    decreases |lit|
  {
    hide NextLength, Cell, KindOf;
    var s := lit + (QUOTE + rest);
    if lit == [] {
      assert s == QUOTE + rest && s[1..] == rest && quoted + lit == quoted;
      NextQuote(rest);
    } else {
      StopsAtQuote(s, |lit|);
      var n := NextLength(s);
      var t := s[..n];
      assert t == lit[..n] && t[0] in lit;
      assert s[n..] == lit[n..] + (QUOTE + rest);
      ReadInside(lit[n..], quoted + t, rest);
      assert quoted + t + lit[n..] == quoted + lit;
    }
  }

  lemma ReadLiteral(lit: Bytes, rest: Bytes)
    requires 34 !in lit
    ensures Read(QUOTE + (lit + QUOTE) + (BLANK + rest), false, []) ==
              Behind(Lexeme(lit, LiteralWord), Read(rest, false, []))
  {
    hide Next;
    var tail := lit + (QUOTE + (BLANK + rest));
    var s := QUOTE + (lit + QUOTE) + (BLANK + rest);
    assert s == QUOTE + tail;
    NextQuote(tail);
    assert s[1..] == tail;
    ReadInside(lit, [], BLANK + rest);
    assert [] + lit == lit;
    ReadBlank(rest);
  }

  /** Printed lexemes read back. */
  lemma {:induction false} PrintReadsBack(items: seq<Lexeme>)
    requires forall i :: 0 <= i < |items| ==> Printable(items[i])
    ensures Read(Print(items), false, []) == Some(items)
  {
    hide Read, OneWord;
    if items == [] {
      ReadNothing();
    } else {
      var l, rest := items[0], Print(items[1..]);
      PrintReadsBack(items[1..]);
      if l.part.LiteralWord? { ReadLiteral(l.text, rest); } else { ReadWord(l, rest); }
      assert items == [l] + items[1..];
    }
  }

  lemma ReadNothing()
    ensures Read([], false, []) == Some([])
  {
  }

  lemma {:induction false} NoNul(items: seq<Lexeme>)
    requires forall i :: 0 <= i < |items| ==> Printable(items[i])
    ensures 0 !in Print(items)
  {
    hide Cell, KindOf, Classify;
    if items != [] {
      NoNul(items[1..]);
      assert Printable(items[0]);
    }
  }

  // ----- commands

  datatype Command =
    | Create(table: Bytes, fields: seq<Bytes>)
    | Insert(table: Bytes, values: seq<Bytes>)
    | Select(table: Bytes, columns: Option<seq<Bytes>>, condition: Option<Condition>)

  function Literal(text: Bytes): Lexeme { Lexeme(text, LiteralWord) }

  function Word(text: Bytes): Lexeme { Lexeme(text, Keyword(text)) }

  function MoreItems(xs: seq<Bytes>): seq<Lexeme> {
    if xs == [] then [] else [Lexeme(COMMA_TEXT, Commas), Literal(xs[0])] + MoreItems(xs[1..])
  }

  function ItemList(xs: seq<Bytes>): seq<Lexeme>
    requires xs != []
  {
    [Literal(xs[0])] + MoreItems(xs[1..])
  }

  function LexemeOf(t: Token): Lexeme {
    match t
    case Text(text) => Literal(text)
    case Relation(_) => Lexeme(WordOf(t), RelationalWord)
    case Logical(_) => Lexeme(WordOf(t), LogicalWord)
    case LeftParen => Lexeme(WordOf(t), Parens)
    case RightParen => Lexeme(WordOf(t), Parens)
  }

  function LexemesOf(tokens: seq<Token>): (r: seq<Lexeme>)
    ensures |r| == |tokens|
  {
    seq(|tokens|, i requires 0 <= i < |tokens| => LexemeOf(tokens[i]))
  }

  function Projection(columns: Option<seq<Bytes>>): seq<Lexeme>
    requires columns.Some? ==> columns.value != []
  {
    if columns.None? then [Lexeme(STAR_TEXT, Asterisk)] else ItemList(columns.value)
  }

  function Filter(condition: Option<Condition>): seq<Lexeme> {
    if condition.None? then [] else [Word(WHERE_TEXT)] + LexemesOf(Infix(condition.value))
  }

  predicate Listed(c: Command) {
    match c
    case Create(_, fields) => fields != []
    case Insert(_, values) => values != []
    case Select(_, columns, _) => columns.Some? ==> columns.value != []
  }

  function Lexemes(c: Command): seq<Lexeme>
    requires Listed(c)
  {
    match c
    case Create(table, fields) =>
      [Word(CREATE_TEXT), Word(TABLE_TEXT), Literal(table), Word(FIELDS_TEXT)] + ItemList(fields)
    case Insert(table, values) =>
      [Word(INSERT_TEXT), Word(INTO_TEXT), Literal(table), Word(VALUES_TEXT)] + ItemList(values)
    case Select(table, columns, condition) =>
      [Word(SELECT_TEXT)] + (Projection(columns) + ([Word(FROM_TEXT), Literal(table)] + Filter(condition)))
  }

  // ----- what the parser makes of them

  function AddedAll(tree: Tree, key: string, xs: seq<Bytes>): Tree
    decreases |xs|
  {
    if xs == [] then tree else AddedAll(Added(tree, key, xs[0]), key, xs[1..])
  }

  lemma {:induction false} AddedAllIs(tree: Tree, key: string, xs: seq<Bytes>)
    requires key in tree
    ensures AddedAll(tree, key, xs) == tree[key := tree[key] + xs]
    decreases |xs|
  {
    if xs == [] {
      assert tree[key] + xs == tree[key];
    } else {
      AddedAllIs(Added(tree, key, xs[0]), key, xs[1..]);
      assert tree[key] + [xs[0]] + xs[1..] == tree[key] + xs;
    }
  }

  lemma {:induction false} AddedAllSplit(tree: Tree, key: string, a: seq<Bytes>, b: seq<Bytes>)
    ensures AddedAll(tree, key, a + b) == AddedAll(AddedAll(tree, key, a), key, b)
    decreases |a|
  {
    if a == [] {
      assert a + b == b;
    } else {
      assert (a + b)[1..] == a[1..] + b;
      AddedAllSplit(Added(tree, key, a[0]), key, a[1..], b);
    }
  }

  lemma ParseOne(state: int, tree: Tree, l: Lexeme, rest: seq<Lexeme>)
    requires NextState(state, l.part) != -1
    ensures ParseRest(state, tree, [l] + rest) ==
              ParseRest(NextState(state, l.part), Recorded(tree, NextState(state, l.part), l.text), rest)
  {
    hide NextState, Recorded;
    assert ([l] + rest)[1..] == rest;
  }

  /** A list behind its first item goes into its field of the tree. */
  lemma {:induction false} ParseMore(item: int, key: string, tree: Tree, xs: seq<Bytes>, rest: seq<Lexeme>)
    requires (item == 5 && key == "fields") || (item == 11 && key == "values") || (item == 14 && key == "fields")
    ensures ParseRest(item, tree, MoreItems(xs) + rest) == ParseRest(item, AddedAll(tree, key, xs), rest)
    decreases |xs|
  {
    hide ParseRest, Added;
    if xs == [] {
      assert MoreItems(xs) + rest == rest;
    } else {
      var comma, lit := Lexeme(COMMA_TEXT, Commas), Literal(xs[0]);
      var tail := MoreItems(xs[1..]) + rest;
      assert MoreItems(xs) + rest == [comma] + ([lit] + tail);
      ParseOne(item, tree, comma, [lit] + tail);
      ParseOne(item + 1, tree, lit, tail);
      ParseMore(item, key, Added(tree, key, xs[0]), xs[1..], rest);
    }
  }

  lemma ParseItems(before: int, item: int, key: string, tree: Tree, xs: seq<Bytes>, rest: seq<Lexeme>)
    requires xs != [] && key in tree && tree[key] == []
    requires
      || (before == 4 && item == 5 && key == "fields")
      || (before == 10 && item == 11 && key == "values")
      || (before == 13 && item == 14 && key == "fields")
    ensures ParseRest(before, tree, ItemList(xs) + rest) == ParseRest(item, tree[key := xs], rest)
  {
    hide ParseRest, AddedAll;
    var lit := Literal(xs[0]);
    assert ItemList(xs) + rest == [lit] + (MoreItems(xs[1..]) + rest);
    ParseOne(before, tree, lit, MoreItems(xs[1..]) + rest);
    var t := Added(tree, key, xs[0]);
    ParseMore(item, key, t, xs[1..], rest);
    AddedAllIs(t, key, xs[1..]);
    assert t[key] == [xs[0]] && [xs[0]] + xs[1..] == xs;
    assert t[key := xs] == tree[key := xs];
  }

  /** The words of a condition the tree keeps. */
  function Kept(words: seq<Bytes>): seq<Bytes> {
    if words == [] then [] else (if words[0] == WHERE_TEXT then [] else [words[0]]) + Kept(words[1..])
  }

  lemma {:induction false} KeptSplit(a: seq<Bytes>, b: seq<Bytes>)
    ensures Kept(a + b) == Kept(a) + Kept(b)
  {
    if a == [] {
      assert a + b == b;
    } else {
      assert (a + b)[1..] == a[1..] + b;
      KeptSplit(a[1..], b);
    }
  }

  /** Nothing is lost exactly if no word is `where`. */
  lemma {:induction false} KeptAll(words: seq<Bytes>)
    ensures |Kept(words)| <= |words| && (Kept(words) == words <==> WHERE_TEXT !in words)
  {
    if words != [] {
      KeptAll(words[1..]);
      assert words == [words[0]] + words[1..];
    }
  }

  function KeptOf(tokens: seq<Token>): seq<Bytes> { Kept(WhereEval.WordsOf(tokens)) }

  lemma KeptOfSplit(a: seq<Token>, b: seq<Token>)
    ensures KeptOf(a + b) == KeptOf(a) + KeptOf(b)
  {
    hide Kept;
    assert WhereEval.WordsOf(a + b) == WhereEval.WordsOf(a) + WhereEval.WordsOf(b);
    KeptSplit(WhereEval.WordsOf(a), WhereEval.WordsOf(b));
  }

  lemma KeptOfOne(t: Token)
    ensures KeptOf([t]) == if WordOf(t) == WHERE_TEXT then [] else [WordOf(t)]
  {
    hide WordOf;
    assert WhereEval.WordsOf([t]) == [WordOf(t)];
    assert [WordOf(t)][1..] == [] && Kept([]) == [];
    assert KeptOf([t]) == (if WordOf(t) == WHERE_TEXT then [] else [WordOf(t)]) + [];
  }

  function EndState(e: Condition): int {
    match e
    case Atom(_, _, _) => 23
    case Group(_) => 24
    case Both(_, right) => EndState(right)
    case Either(_, right) => EndState(right)
  }

  /** One token of a condition between two states of the condition. */
  lemma ParseToken(state: int, next: int, tree: Tree, t: Token, rest: seq<Lexeme>)
    requires next == NextState(state, LexemeOf(t).part) && 19 <= next <= 24 && ListAt(tree, "where") != []
    ensures ParseRest(state, tree, [LexemeOf(t)] + rest) ==
              ParseRest(next, AddedAll(tree, "condition", KeptOf([t])), rest)
    ensures ListAt(AddedAll(tree, "condition", KeptOf([t])), "where") != []
  {
    hide ParseRest, NextState, KeptOf, Keyword, WordOf;
    ParseOne(state, tree, LexemeOf(t), rest);
    KeptOfOne(t);
    var w := KeptOf([t]);
    assert |w| == 1 ==> w[1..] == [];
    TokenText(t);
  }

  lemma TokenText(t: Token)
    ensures LexemeOf(t).text == WordOf(t)
  {
  }

  ghost predicate Reaches(state: int, end: int, tree: Tree, tokens: seq<Token>, rest: seq<Lexeme>) {
    && ParseRest(state, tree, LexemesOf(tokens) + rest) ==
         ParseRest(end, AddedAll(tree, "condition", KeptOf(tokens)), rest)
    && ListAt(AddedAll(tree, "condition", KeptOf(tokens)), "where") != []
  }

  lemma ReachesOne(state: int, next: int, tree: Tree, t: Token, rest: seq<Lexeme>)
    requires next == NextState(state, LexemeOf(t).part) && 19 <= next <= 24 && ListAt(tree, "where") != []
    ensures Reaches(state, next, tree, [t], rest)
  {
    hide ParseRest, NextState, KeptOf, AddedAll;
    ParseToken(state, next, tree, t, rest);
    assert LexemesOf([t]) == [LexemeOf(t)];
  }

  lemma ReachesSplit(state: int, middle: int, end: int, tree: Tree, a: seq<Token>, b: seq<Token>, rest: seq<Lexeme>)
    requires Reaches(state, middle, tree, a, LexemesOf(b) + rest)
    requires Reaches(middle, end, AddedAll(tree, "condition", KeptOf(a)), b, rest)
    ensures Reaches(state, end, tree, a + b, rest)
  {
    hide ParseRest, KeptOf, AddedAll;
    KeptOfSplit(a, b);
    AddedAllSplit(tree, "condition", KeptOf(a), KeptOf(b));
    assert LexemesOf(a + b) + rest == LexemesOf(a) + (LexemesOf(b) + rest);
  }

  lemma ConditionMoves(state: int)
    requires 19 <= state <= 20
    ensures NextState(state, LiteralWord) == 21 && NextState(state, Parens) == 20
    ensures NextState(21, RelationalWord) == 22 && NextState(22, LiteralWord) == 23
    ensures forall s: int :: 23 <= s <= 24 ==> NextState(s, LogicalWord) == 19 && NextState(s, Parens) == 24
  {
  }

  /** Every condition takes the automaton through its words. */
  lemma {:induction false} ParseCondition(e: Condition, state: int, tree: Tree, rest: seq<Lexeme>)
    requires 19 <= state <= 20 && ListAt(tree, "where") != []
    ensures Reaches(state, EndState(e), tree, Infix(e), rest) && 23 <= EndState(e) <= 24
    decreases e, 1
  {
    hide Reaches, NextState, KeptOf, AddedAll, LexemesOf;
    ConditionMoves(state);
    match e {
      case Atom(field, c, value) =>
        var f, r, v := Text(field), Relation(c), Text(value);
        assert [f, r, v] == [f] + ([r] + [v]);
        ReachesOne(state, 21, tree, f, LexemesOf([r] + [v]) + rest);
        var t := After(state, 21, tree, [f], LexemesOf([r] + [v]) + rest);
        ReachesOne(21, 22, t, r, LexemesOf([v]) + rest);
        var u := After(21, 22, t, [r], LexemesOf([v]) + rest);
        ReachesOne(22, 23, u, v, rest);
        ReachesSplit(21, 22, 23, t, [r], [v], rest);
        ReachesSplit(state, 21, 23, tree, [f], [r] + [v], rest);
      case Group(inner) =>
        var all := [LeftParen] + Infix(inner);
        var tail := LexemesOf([RightParen]) + rest;
        ReachesOne(state, 20, tree, LeftParen, LexemesOf(Infix(inner)) + tail);
        var t := After(state, 20, tree, [LeftParen], LexemesOf(Infix(inner)) + tail);
        ParseCondition(inner, 20, t, tail);
        ReachesSplit(state, 20, EndState(inner), tree, [LeftParen], Infix(inner), tail);
        var u := After(state, EndState(inner), tree, all, tail);
        ReachesOne(EndState(inner), 24, u, RightParen, rest);
        ReachesSplit(state, EndState(inner), 24, tree, all, [RightParen], rest);
      case Both(left, right) => ParseJoined(e, left, right, Logical(And), state, tree, rest);
      case Either(left, right) => ParseJoined(e, left, right, Logical(Or), state, tree, rest);
    }
  }

  /** The tree behind a part of a condition. */
  ghost function After(state: int, next: int, tree: Tree, tokens: seq<Token>, rest: seq<Lexeme>): (r: Tree)
    requires Reaches(state, next, tree, tokens, rest)
    ensures r == AddedAll(tree, "condition", KeptOf(tokens)) && ListAt(r, "where") != []
  {
    AddedAll(tree, "condition", KeptOf(tokens))
  }

  lemma {:induction false} ParseJoined(e: Condition, left: Condition, right: Condition, l: Token, state: int,
          tree: Tree, rest: seq<Lexeme>)
    requires (e == Both(left, right) || e == Either(left, right)) && l.Logical? && 19 <= state <= 20
    requires ListAt(tree, "where") != []
    ensures Reaches(state, EndState(right), tree, Infix(left) + ([l] + Infix(right)), rest)
    ensures 23 <= EndState(right) <= 24
    decreases e, 0
  {
    hide Reaches, NextState, KeptOf, AddedAll, LexemesOf, Infix, EndState;
    ConditionMoves(state);
    var tail := LexemesOf([l] + Infix(right)) + rest;
    var behind := LexemesOf(Infix(right)) + rest;
    ParseCondition(left, state, tree, tail);
    var t := After(state, EndState(left), tree, Infix(left), tail);
    ReachesOne(EndState(left), 19, t, l, behind);
    var u := After(EndState(left), 19, t, [l], behind);
    ParseCondition(right, 19, u, rest);
    ReachesSplit(EndState(left), 19, EndState(right), t, [l], Infix(right), rest);
    ReachesSplit(state, EndState(left), EndState(right), tree, Infix(left), [l] + Infix(right), rest);
  }

  // ----- round trip

  function Base(c: Command): Tree {
    match c
    case Create(table, fields) => map["command" := [CREATE_TEXT], "fields" := fields, "table_name" := [table]]
    case Insert(table, values) => map["command" := [INSERT_TEXT], "values" := values, "table_name" := [table]]
    case Select(table, columns, _) =>
      map["command" := [SELECT_TEXT],
          "fields" := if columns.None? then [STAR_TEXT] else columns.value,
          "table_name" := [table]]
  }

  /** The tree a command stands for. */
  function TreeOf(c: Command): Tree {
    if c.Select? && c.condition.Some? then
      Base(c)["where" := [YES_TEXT]]["condition" := KeptOf(Infix(c.condition.value))]
    else Base(c)
  }

  lemma {:induction false} KeptNotEmpty(e: Condition)
    ensures KeptOf(Infix(e)) != []
  {
    hide Kept, KeptOf, WordOf;
    match e {
      case Atom(field, c, value) =>
        var f, r, v := Text(field), Relation(c), Text(value);
        assert [f, r, v] == [f] + ([r] + [v]);
        KeptOfSplit([f], [r] + [v]);
        KeptOfSplit([r], [v]);
        KeptOfOne(r);
        RelationIsNoWhere(c);
      case Group(inner) =>
        KeptOfSplit([LeftParen] + Infix(inner), [RightParen]);
        KeptOfSplit([LeftParen], Infix(inner));
        KeptNotEmpty(inner);
      case Both(left, right) =>
        KeptOfSplit(Infix(left), [Logical(And)] + Infix(right));
        KeptNotEmpty(left);
      case Either(left, right) =>
        KeptOfSplit(Infix(left), [Logical(Or)] + Infix(right));
        KeptNotEmpty(left);
    }
  }

  lemma RelationIsNoWhere(c: QueryPaths.Comparison)
    ensures WordOf(Relation(c)) != WHERE_TEXT
  {
  }

  lemma ParseHead(first: Lexeme, items: seq<Lexeme>)
    requires first.part.CreateWord? || first.part.InsertWord? || first.part.SelectWord?
    ensures Parsed([first] + items) == ParseRest(NextState(0, first.part), Started(first.part), items)
  {
    hide ParseRest, NextState, Started;
    assert ([first] + items)[1..] == items;
  }

  lemma ParseEnd(state: int, tree: Tree)
    requires Successful(state)
    ensures ParseRest(state, tree, []) == Some(Without(Without(tree, "condition"), "where"))
  {
  }

  /** The words between the command and its list. */
  lemma ParseName(s: int, tree: Tree, second: Lexeme, table: Bytes, fourth: Lexeme, tail: seq<Lexeme>)
    requires
      || (s == 1 && second.part.TableWord? && fourth.part.FieldsWord?)
      || (s == 7 && second.part.IntoWord? && fourth.part.ValuesWord?)
    ensures ParseRest(s, tree, [second] + ([Literal(table)] + ([fourth] + tail))) ==
              ParseRest(s + 3, Added(tree, "table_name", table), tail)
  {
    hide ParseRest, Added;
    ParseOne(s, tree, second, [Literal(table)] + ([fourth] + tail));
    ParseOne(s + 1, tree, Literal(table), [fourth] + tail);
    ParseOne(s + 2, Added(tree, "table_name", table), fourth, tail);
  }

  lemma ParseHeaded(head: Lexeme, second: Lexeme, table: Bytes, fourth: Lexeme, key: string, xs: seq<Bytes>)
    requires xs != []
    requires (head.part.CreateWord? && second.part.TableWord? && fourth.part.FieldsWord? && key == "fields")
          || (head.part.InsertWord? && second.part.IntoWord? && fourth.part.ValuesWord? && key == "values")
    ensures Parsed([head] + ([second] + ([Literal(table)] + ([fourth] + ItemList(xs)))))
         == Some(map["command" := [if head.part.CreateWord? then CREATE_TEXT else INSERT_TEXT],
                     key := xs, "table_name" := [table]])
  {
    hide ParseRest, Parsed, ItemList;
    var s := if head.part.CreateWord? then 1 else 7;
    var named := Added(Started(head.part), "table_name", table);
    ParseHead(head, [second] + ([Literal(table)] + ([fourth] + ItemList(xs))));
    ParseName(s, Started(head.part), second, table, fourth, ItemList(xs));
    assert ItemList(xs) + [] == ItemList(xs);
    ParseItems(s + 3, s + 4, key, named, xs, []);
    ParseEnd(s + 4, named[key := xs]);
    var result := map["command" := [if head.part.CreateWord? then CREATE_TEXT else INSERT_TEXT], key := xs,
        "table_name" := [table]];
    assert [] + [table] == [table];
    assert named[key := xs] == result;
    WithoutAbsent(result, "condition");
    WithoutAbsent(result, "where");
  }

  lemma WithoutAbsent(tree: Tree, key: string)
    requires key !in tree
    ensures Without(tree, key) == tree
  {
    assert tree - {key} == tree;
  }

  /** `create` and `insert`. */
  lemma ParsedList(c: Command)
    requires Listed(c) && !c.Select?
    ensures Parsed(Lexemes(c)) == Some(TreeOf(c))
  {
    hide Parsed, ItemList, Word;
    Keywords();
    if c.Create? {
      var rest := [Word(TABLE_TEXT)] + ([Literal(c.table)] + ([Word(FIELDS_TEXT)] + ItemList(c.fields)));
      assert Lexemes(c) == [Word(CREATE_TEXT)] + rest;
      ParseHeaded(Word(CREATE_TEXT), Word(TABLE_TEXT), c.table, Word(FIELDS_TEXT), "fields", c.fields);
    } else {
      var rest := [Word(INTO_TEXT)] + ([Literal(c.table)] + ([Word(VALUES_TEXT)] + ItemList(c.values)));
      assert Lexemes(c) == [Word(INSERT_TEXT)] + rest;
      ParseHeaded(Word(INSERT_TEXT), Word(INTO_TEXT), c.table, Word(VALUES_TEXT), "values", c.values);
    }
  }

  // ----- `select`

  lemma ParseProjection(columns: Option<seq<Bytes>>, tree: Tree, rest: seq<Lexeme>)
    requires (columns.Some? ==> columns.value != []) && "fields" in tree && tree["fields"] == []
    ensures ParseRest(13, tree, Projection(columns) + rest) ==
            ParseRest(if columns.None? then 16 else 14,
                tree["fields" := if columns.None? then [STAR_TEXT] else columns.value], rest)
  {
    hide ParseRest, ItemList;
    if columns.None? {
      ParseOne(13, tree, Lexeme(STAR_TEXT, Asterisk), rest);
      assert [] + [STAR_TEXT] == [STAR_TEXT];
    } else {
      ParseItems(13, 14, "fields", tree, columns.value, rest);
    }
  }

  lemma ParseSource(state: int, tree: Tree, from: Lexeme, table: Bytes, rest: seq<Lexeme>)
    requires (state == 14 || state == 16) && from.part.FromWord?
    ensures ParseRest(state, tree, [from] + ([Literal(table)] + rest)) ==
              ParseRest(18, Added(tree, "table_name", table), rest)
  {
    hide ParseRest, Added;
    ParseOne(state, tree, from, [Literal(table)] + rest);
    ParseOne(17, tree, Literal(table), rest);
  }

  /** Without a condition its two keys are dropped again. */
  lemma ParseNoFilter(tree: Tree)
    requires "condition" in tree && tree["condition"] == [] && "where" in tree && tree["where"] == []
    ensures ParseRest(18, tree, []) == Some(tree - {"condition", "where"})
  {
    hide ParseRest;
    ParseEnd(18, tree);
    assert tree - {"condition"} - {"where"} == tree - {"condition", "where"};
  }

  lemma ParseFilter(tree: Tree, where: Lexeme, e: Condition)
    requires "condition" in tree && tree["condition"] == [] && "where" in tree && tree["where"] == []
    requires where == Lexeme(WHERE_TEXT, WhereWord)
    ensures ParseRest(18, tree, [where] + LexemesOf(Infix(e))) ==
              Some(tree["where" := [YES_TEXT]]["condition" := KeptOf(Infix(e))])
  {
    hide ParseRest, LexemesOf, Infix, KeptOf, AddedAll, EndState, NextState, MarkOf;
    WhereMoves(tree);
    ParseOne(18, tree, where, LexemesOf(Infix(e)));
    var marked := tree["where" := [YES_TEXT]];
    assert LexemesOf(Infix(e)) + [] == LexemesOf(Infix(e));
    ParseCondition(e, 19, marked, []);
    AddedAllIs(marked, "condition", KeptOf(Infix(e)));
    assert [] + KeptOf(Infix(e)) == KeptOf(Infix(e));
    KeptNotEmpty(e);
    EndsSuccessful(EndState(e));
    ParseEnd(EndState(e), marked["condition" := KeptOf(Infix(e))]);
  }

  lemma WhereMoves(tree: Tree)
    requires "where" in tree && tree["where"] == []
    ensures NextState(18, WhereWord) == 19 && Recorded(tree, 19, WHERE_TEXT) == tree["where" := [YES_TEXT]]
  {
    assert [] + [YES_TEXT] == [YES_TEXT];
  }

  lemma EndsSuccessful(state: int)
    requires 23 <= state <= 24
    ensures Successful(state)
  {
  }

  lemma ParsedSelect(c: Command)
    requires Listed(c) && c.Select?
    ensures Parsed(Lexemes(c)) == Some(TreeOf(c))
  {
    hide Parsed, Projection, Word, ParseRest, Filter, KeptOf;
    Keywords();
    var select, from, tail := Word(SELECT_TEXT), Word(FROM_TEXT), Filter(c.condition);
    ParseHead(select, Projection(c.columns) + ([from, Literal(c.table)] + tail));
    var tree := Started(SelectWord);
    SelectMoves(tree);
    assert [from, Literal(c.table)] + tail == [from] + ([Literal(c.table)] + tail);
    ParseProjection(c.columns, tree, [from] + ([Literal(c.table)] + tail));
    var columns := if c.columns.None? then [STAR_TEXT] else c.columns.value;
    ParseSource(if c.columns.None? then 16 else 14, tree["fields" := columns], from, c.table, tail);
    FilterParsed(c, columns, Added(tree["fields" := columns], "table_name", c.table));
  }

  lemma SelectMoves(tree: Tree)
    requires tree == Started(SelectWord)
    ensures NextState(0, SelectWord) == 13 && "fields" in tree && tree["fields"] == []
  {
  }

  lemma FilterParsed(c: Command, columns: seq<Bytes>, tree: Tree)
    requires c.Select? && columns == (if c.columns.None? then [STAR_TEXT] else c.columns.value)
    requires tree == Added(Started(SelectWord)["fields" := columns], "table_name", c.table)
    ensures ParseRest(18, tree, Filter(c.condition)) == Some(TreeOf(c))
  {
    hide ParseRest, KeptOf, LexemesOf, Infix, Base, Word;
    Keywords();
    SelectTree(c, columns, tree);
    if c.condition.None? {
      ParseNoFilter(tree);
    } else {
      ParseFilter(tree, Word(WHERE_TEXT), c.condition.value);
      assert (tree - {"condition", "where"})["where" := [YES_TEXT]]["condition" := KeptOf(Infix(c.condition.value))]
          == tree["where" := [YES_TEXT]]["condition" := KeptOf(Infix(c.condition.value))];
    }
  }

  lemma SelectTree(c: Command, columns: seq<Bytes>, tree: Tree)
    requires c.Select? && columns == (if c.columns.None? then [STAR_TEXT] else c.columns.value)
    requires tree == Added(Started(SelectWord)["fields" := columns], "table_name", c.table)
    ensures tree - {"condition", "where"} == Base(c)
    ensures "condition" in tree && tree["condition"] == [] && "where" in tree && tree["where"] == []
    ensures Word(WHERE_TEXT).text == WHERE_TEXT
  {
    assert [] + [c.table] == [c.table];
  }

  lemma Keywords()
    ensures Word(CREATE_TEXT).part == CreateWord && Word(TABLE_TEXT).part == TableWord
    ensures Word(FIELDS_TEXT).part == FieldsWord
    ensures Word(INSERT_TEXT).part == InsertWord && Word(INTO_TEXT).part == IntoWord
    ensures Word(VALUES_TEXT).part == ValuesWord
    ensures Word(SELECT_TEXT).part == SelectWord && Word(FROM_TEXT).part == FromWord
    ensures Word(WHERE_TEXT).part == WhereWord
  {
  }
}
