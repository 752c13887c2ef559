/** From the text of a command to its tree, and what the condition words of the
    tree select. */
module CommandRoundTrip {
  import opened Ordering
  import opened Codec
  import opened Lexer
  import opened CommandAutomaton
  import opened CommandParser
  import opened CommandPrinter
  import opened RecordLists
  import opened WhereTokens
  import opened WhereEval

  /** A literal that can stand between quotes. */
  predicate Clean(text: Bytes) { 34 !in text && 0 !in text }

  predicate CleanAll(xs: seq<Bytes>) { forall x :: x in xs ==> Clean(x) }

  predicate CleanCondition(e: Condition) {
    match e
    case Atom(field, _, value) => Clean(field) && Clean(value)
    case Group(inner) => CleanCondition(inner)
    case Both(left, right) => CleanCondition(left) && CleanCondition(right)
    case Either(left, right) => CleanCondition(left) && CleanCondition(right)
  }

  predicate CleanCommand(c: Command) {
    && Clean(c.table)
    && match c
       case Create(_, fields) => CleanAll(fields)
       case Insert(_, values) => CleanAll(values)
       case Select(_, columns, condition) =>
         (columns.Some? ==> CleanAll(columns.value)) && (condition.Some? ==> CleanCondition(condition.value))
  }

  predicate AllPrintable(items: seq<Lexeme>) { forall i :: 0 <= i < |items| ==> Printable(items[i]) }

  lemma {:induction false} PrintableItems(xs: seq<Bytes>)
    requires CleanAll(xs)
    ensures AllPrintable(MoreItems(xs)) && (xs != [] ==> AllPrintable(ItemList(xs)))
  {
    hide Printable, Clean;
    if xs != [] {
      assert xs[0] in xs;
      PrintableItems(xs[1..]);
      PrintableComma();
      PrintableLiteral(xs[0]);
    }
  }

  lemma PrintableComma()
    ensures Printable(Lexeme(COMMA_TEXT, Commas)) && Printable(Lexeme(STAR_TEXT, Asterisk))
  {
  }

  lemma PrintableLiteral(text: Bytes)
    requires Clean(text)
    ensures Printable(Literal(text))
  {
  }

  /** A keyword of letters is read in one piece. */
  lemma PrintableWord(w: Bytes)
    requires w != [] && (forall i :: 0 <= i < |w| ==> 97 <= w[i] < 123) && !Word(w).part.LiteralWord?
    ensures Printable(Word(w))
  {
    hide Keyword;
    assert w != QUOTE by { assert w[0] != 34; }
  }

  lemma PrintableToken(t: Token)
    requires t.Text? ==> Clean(t.text)
    ensures Printable(LexemeOf(t))
  {
  }

  lemma {:induction false} CleanTokens(e: Condition, i: nat)
    requires CleanCondition(e) && i < |Infix(e)|
    ensures Infix(e)[i].Text? ==> Clean(Infix(e)[i].text)
  {
    hide Clean;
    match e {
      case Atom(_, _, _) =>
      case Group(inner) => if 1 <= i <= |Infix(inner)| { CleanTokens(inner, i - 1); }
      case Both(left, right) =>
        if i < |Infix(left)| {
          CleanTokens(left, i);
        } else if i > |Infix(left)| {
          CleanTokens(right, i - |Infix(left)| - 1);
        }
      case Either(left, right) =>
        if i < |Infix(left)| {
          CleanTokens(left, i);
        } else if i > |Infix(left)| {
          CleanTokens(right, i - |Infix(left)| - 1);
        }
    }
  }

  lemma PrintableCondition(e: Condition)
    requires CleanCondition(e)
    ensures AllPrintable(LexemesOf(Infix(e)))
  {
    hide Printable, LexemeOf, Infix, CleanCondition, Clean;
    forall i | 0 <= i < |Infix(e)| ensures Printable(LexemesOf(Infix(e))[i]) {
      CleanTokens(e, i);
      PrintableToken(Infix(e)[i]);
    }
  }

  lemma PrintableKeywords()
    ensures Printable(Word(CREATE_TEXT)) && Printable(Word(TABLE_TEXT)) && Printable(Word(FIELDS_TEXT))
    ensures Printable(Word(INSERT_TEXT)) && Printable(Word(INTO_TEXT)) && Printable(Word(VALUES_TEXT))
    ensures Printable(Word(SELECT_TEXT)) && Printable(Word(FROM_TEXT)) && Printable(Word(WHERE_TEXT))
  {
    hide Printable, Word, Keyword;
    Keywords();
    PrintableWord(CREATE_TEXT);
    PrintableWord(TABLE_TEXT);
    PrintableWord(FIELDS_TEXT);
    PrintableWord(INSERT_TEXT);
    PrintableWord(INTO_TEXT);
    PrintableWord(VALUES_TEXT);
    PrintableWord(SELECT_TEXT);
    PrintableWord(FROM_TEXT);
    PrintableWord(WHERE_TEXT);
  }

  lemma PrintableCommand(c: Command)
    requires Listed(c) && CleanCommand(c)
    ensures AllPrintable(Lexemes(c))
  {
    hide Word, LexemesOf, Infix, ItemList, OneWord, CleanCondition, CleanAll;
    PrintableKeywords();
    PrintableComma();
    match c {
      case Create(_, fields) => PrintableItems(fields);
      case Insert(_, values) => PrintableItems(values);
      case Select(_, columns, condition) =>
        if columns.Some? { PrintableItems(columns.value); }
        if condition.Some? { PrintableCondition(condition.value); }
    }
  }

  /** The text of a command: words, and literals between quotes. */
  function TextOf(c: Command): Bytes
    requires Listed(c)
  {
    Print(Lexemes(c))
  }

  /** Reading and parsing the text of a command gives back its tree. */
  lemma RoundTrip(c: Command)
    requires Listed(c) && CleanCommand(c)
    ensures UpToNul(TextOf(c)) == TextOf(c) && Read(TextOf(c), false, []) == Some(Lexemes(c))
    ensures Parsed(Lexemes(c)) == Some(TreeOf(c))
  {
    hide Lexemes, Read, Print, Printable, Parsed, TreeOf;
    PrintableCommand(c);
    PrintReadsBack(Lexemes(c));
    NoNul(Lexemes(c));
    if c.Select? { ParsedSelect(c); } else { ParsedList(c); }
  }

  /** The condition of the tree is the list of its words exactly if no operand
      is `where`, which the parser drops. */
  lemma ConditionIsKept(e: Condition)
    ensures KeptOf(Infix(e)) == WordsOf(Infix(e)) <==> WHERE_TEXT !in WordsOf(Infix(e))
  {
    hide Kept;
    KeptAll(WordsOf(Infix(e)));
  }

  // ----- operands the parser drops

  lemma WordsSplit(a: seq<Bytes>, b: seq<Bytes>)
    ensures TokensOf(a + b) == TokensOf(a) + TokensOf(b)
  {
    hide TokenOf;
  }

  lemma WhereIsText()
    ensures TokenOf(WHERE_TEXT) == Token.Text(WHERE_TEXT)
  {
  }

  /** Each dropped word is an operand less. */
  lemma {:induction false} KeptBalance(words: seq<Bytes>)
    ensures Balance(TokensOf(Kept(words))) <= Balance(TokensOf(words))
    ensures WHERE_TEXT in words ==> Balance(TokensOf(Kept(words))) < Balance(TokensOf(words))
  {
    hide TokenOf, Balance;
    if words != [] {
      var w, rest := words[0], words[1..];
      KeptBalance(rest);
      assert words == [w] + rest;
      WordsSplit([w], rest);
      BalanceSplit(TokensOf([w]), TokensOf(rest));
      WordsSplit([w], Kept(rest));
      BalanceSplit(TokensOf([w]), TokensOf(Kept(rest)));
      if w == WHERE_TEXT {
        WhereIsText();
        assert TokensOf([w]) == [Token.Text(w)];
        BalanceOne(Token.Text(w));
        assert Kept(words) == Kept(rest);
      }
    }
  }

  /** A condition with a dropped operand is refused. */
  lemma DroppedIsRefused(d: Relational, e: Condition)
    requires WHERE_TEXT in WordsOf(Infix(e))
    ensures Where(d, KeptOf(Infix(e))) == Err(InvalidArgument)
  {
    hide Kept, Balance, TokensOf, WordsOf, Infix, Where, Plain;
    PlainBalance(e);
    KeptBalance(WordsOf(Infix(e)));
    OnlyBalancedSelects(d, KeptOf(Infix(e)));
  }

  /** Conditions whose words mean what they say, in the parser and in `where`. */
  ghost predicate OwnOperands(e: Condition) { Plain(e) && WHERE_TEXT !in WordsOf(Infix(e)) }

  /** The parser object on the text of a command. */
  method ParseText(parser: Parser, c: Command) returns (tree: Tree)
    requires parser.Valid() && Listed(c) && CleanCommand(c)
    modifies parser, parser.token
    ensures parser.Valid() && tree == TreeOf(c)
  {
    hide Lexemes, Read, Print, Parsed, TreeOf, CleanCommand;
    RoundTrip(c);
    parser.SetString(TextOf(c));
    tree := parser.ParseTree();
  }

  /** What the words that are left in the tree select: exactly the rows that
      meet the condition, each once, if no operand is a word of the language
      and every field is known; otherwise they are refused. */
  lemma KeptMeans(d: Relational, e: Condition)
    requires Fits(d) && Canonical(e)
    ensures var w := Where(d, KeptOf(Infix(e)));
      if OwnOperands(e) && Known(d, e) then
        && w.Ok? && NoDuplicates(w.value)
        && forall r: nat :: r in w.value <==> r < |d.rows| && Meets(d, e, r)
      else w == Err(InvalidArgument)
  {
    hide NoDuplicates, Meets, Known, Canonical, Plain, Where, WordsOf, Infix, KeptOf, Fits;
    ConditionIsKept(e);
    if WHERE_TEXT in WordsOf(Infix(e)) { DroppedIsRefused(d, e); } else { WhereMeansCondition(d, e); }
  }
}
