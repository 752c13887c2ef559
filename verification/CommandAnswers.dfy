/** Whole texts: the parser object and the dispatch on any text, and what the
    commands of the grammar answer. */
module CommandAnswers {
  import opened Ordering
  import opened Codec
  import opened TableImage
  import opened ImageCodec
  import opened IncrementalInsert
  import opened CommitProtocol
  import opened Recovery
  import opened Engine
  import opened Statements
  import opened RecordLists
  import opened WhereTokens
  import opened WhereEval
  import opened Projection
  import opened Lexer
  import opened CommandParser
  import opened CommandPrinter
  import opened CommandRoundTrip
  import opened CommandTrees
  import opened SqlCommands

  // ----- the answer of a `select` with a condition

  function Asked(columns: Option<seq<Bytes>>): seq<Bytes> { if columns.None? then [STAR] else columns.value }

  /** Every column and every field of the condition is one of the table, and no
      operand is a word of the language. */
  ghost predicate Answerable(t: Table, columns: Option<seq<Bytes>>, condition: Option<Condition>) {
    && AreNames(t.fields, Chosen(t.fields, Asked(columns)))
    && (condition.Some? ==> OwnOperands(condition.value) && Known(DataOf(t), condition.value))
  }

  /** Exactly the rows that meet the condition, each once, with the chosen
      columns in table order. */
  ghost predicate Answers(t: Table, columns: Option<seq<Bytes>>, condition: Option<Condition>, p: Projected)
    requires WhereEval.Fits(DataOf(t)) && (condition.Some? ==> Known(DataOf(t), condition.value))
  {
    && NoDuplicates(p.records)
    && (forall r: nat :: r in p.records <==> r < |t.rows| && (condition.Some? ==> Meets(DataOf(t), condition.value, r)))
    && InTableOrder(t.fields, Chosen(t.fields, Asked(columns)), p.header) && RowsFit(t.fields, t.rows, p.records)
    && p.cells == AllCells(t.fields, p.header, t.rows, p.records)
  }

  /** What a `select` answers on the table. */
  ghost predicate SelectAnswer(t: Table, columns: Option<seq<Bytes>>, condition: Option<Condition>,
          r: Result<Projected>)
  {
    if Answerable(t, columns, condition) then
      r.Ok? && WhereEval.Fits(DataOf(t)) && Answers(t, columns, condition, r.value)
    else r == Err(InvalidArgument)
  }

  /** The answer is printed as the chosen columns of its rows exactly if no column
      was chosen twice, or it has no rows. */
  lemma AnswerPrints(t: Table, columns: Option<seq<Bytes>>, condition: Option<Condition>, p: Projected)
    requires FieldsOk(t.fields) && Answerable(t, columns, condition) && WhereEval.Fits(DataOf(t))
    requires Answers(t, columns, condition, p)
    ensures PrintsRows(p, t.fields, t.rows) <==> NoRepeats(Chosen(t.fields, Asked(columns))) || p.records == []
  {
    hide AllCells, InTableOrder, NoDuplicates, Meets, Known, OwnOperands, WhereEval.Fits;
    PrintsRowsExactly(p, t.fields, t.rows, Chosen(t.fields, Asked(columns)));
  }

  lemma AllRecordsOnce(n: nat)
    ensures NoDuplicates(AllRecords(n)) && forall r: nat :: r in AllRecords(n) <==> r < n
  {
    forall r: nat | r < n ensures r in AllRecords(n) { assert AllRecords(n)[r] == r; }
  }

  function ConditionWords(condition: Option<Condition>): seq<Bytes> {
    if condition.None? then [] else KeptOf(Infix(condition.value))
  }

  /** What the words of a condition select is what the condition means. */
  lemma WordsMean(t: Table, columns: Option<seq<Bytes>>, condition: Option<Condition>, r: Result<Projected>)
    requires WhereEval.Fits(DataOf(t)) && (condition.Some? ==> Canonical(condition.value))
    requires TableAnswer(t, Asked(columns), ConditionWords(condition), r)
    ensures if Answerable(t, columns, condition) then r.Ok? && Answers(t, columns, condition, r.value)
            else r == Err(InvalidArgument)
  {
    hide NoDuplicates, Meets, Known, Canonical, Where, Infix, KeptOf, WhereEval.Fits, AllCells, InTableOrder,
      OwnOperands, AreNames;
    AllRecordsOnce(|t.rows|);
    EmptyWhere(DataOf(t));
    if condition.Some? { KeptMeans(DataOf(t), condition.value); }
  }

  lemma EmptyWhere(d: Relational)
    ensures Where(d, []) == Ok(AllRecords(|d.rows|))
  {
    assert TokensOf([]) == [];
  }

  lemma NamedMeans(t: Table, image: Bytes, c: Command, r: Result<Projected>)
    requires c.Select? && IsIdentifier(c.table) && ImageDenotes(image, t)
    requires c.condition.Some? ==> Canonical(c.condition.value)
    requires NamedAnswer(t, c.table, Asked(c.columns), ConditionWords(c.condition), r)
    ensures SelectAnswer(t, c.columns, c.condition, r)
  {
    hide Answerable, Answers, TableAnswer, WhereEval.Fits, IsIdentifier, ImageDenotes;
    DenotedFits(image, t);
    WordsMean(t, c.columns, c.condition, r);
  }

  lemma DenotedFits(image: Bytes, t: Table)
    requires ImageDenotes(image, t)
    ensures WhereEval.Fits(DataOf(t))
  {
    hide ImageDenotes, FieldsOk;
    DenotedTable(image, t);
  }

  // ----- texts

  lemma TreeOfText(text: Bytes, tree: Tree)
    requires TextTree(text).Some? ==> Usable(TextTree(text).value)
    requires var items := Read(UpToNul(text), false, []);
      var p := Parsed(if items.None? then [] else items.value);
      tree == if p.None? then map[] else p.value
    ensures TextTree(text) == if tree == map[] then None else Some(tree)
  {
    hide Read, ParseRest;
  }

  /** `command` on any text: one that is not accepted is refused, and of an
      accepted one the tree is dispatched.  The tree must have a table name. */
  method RunText(parser: Parser, store: Store, text: Bytes) returns (r: Result<Answer>)
    requires parser.Valid() && store.In(Off)
    requires TextTree(text).Some? ==> Usable(TextTree(text).value)
    requires TextTree(text).Some? ==> Roomy(ListAt(TextTree(text).value, "command")[0], store.Now())
    modifies parser, parser.token, store
    ensures parser.Valid()
    ensures TextTree(text).None? ==> Denied(store, old(store.db), old(store.wal), r)
    ensures TextTree(text).Some? ==>
              Dispatched(TextTree(text).value, old(store.Now()), |old(store.history)| - 1, store, r)
  {
    hide Usable, Read, Parsed, TextTree, Weak, Works, Roomy, Dispatched;
    parser.SetString(text);
    var tree := parser.ParseTree();
    TreeOfText(text, tree);
    if tree == map[] { return Err(InvalidArgument); }
    r := Dispatch(store, tree);
  }

  // ----- the commands of the grammar

  /** What a command answers and makes of the files, whichever image the next
      open would have shown. */
  ghost predicate CommandDone(c: Command, start: State, from: nat, store: Store, r: Result<Answer>)
    reads store
  {
    if c.Create? then CreateAnswer(c.table, c.fields, start.db, start.wal, from, store, r)
    else if !IsIdentifier(c.table) then Denied(store, start.db, start.wal, r)
    else if c.Insert? then forall image :: WillShow(start, image) ==> InsertAnswer(store, from, image, c.values, r)
    else
      forall image :: WillShow(start, image) ==>
        && Untouched(store, from, image)
        && forall t :: ImageDenotes(image, t) ==> SelectAnswer(t, c.columns, c.condition, ShownBy(r))
  }

  lemma TreeParts(c: Command)
    requires Listed(c)
    ensures Usable(TreeOf(c)) && ListAt(TreeOf(c), "table_name") == [c.table]
    ensures ListAt(TreeOf(c), "command") ==
              [if c.Create? then CREATE_TEXT else if c.Insert? then INSERT_TEXT else SELECT_TEXT]
    ensures c.Create? ==> ListAt(TreeOf(c), "fields") == c.fields
    ensures c.Insert? ==> ListAt(TreeOf(c), "values") == c.values
    ensures c.Select? ==>
              ListAt(TreeOf(c), "fields") == Asked(c.columns) && WordsIn(TreeOf(c)) == ConditionWords(c.condition)
  {
    hide KeptOf, Infix;
    CommandsDiffer();
  }

  /** The text of a command has the tree of the command. */
  lemma TreeOfCommand(c: Command)
    requires Listed(c) && CleanCommand(c)
    ensures TextTree(TextOf(c)) == Some(TreeOf(c))
  {
    hide Lexemes, Read, Print, Parsed, TreeOf, CleanCommand, TextOf;
    RoundTrip(c);
  }

  lemma DispatchedMeans(c: Command, start: State, from: nat, store: Store, r: Result<Answer>)
    requires Listed(c) && (c.Select? && c.condition.Some? ==> Canonical(c.condition.value))
    requires Usable(TreeOf(c)) && Dispatched(TreeOf(c), start, from, store, r)
    ensures CommandDone(c, start, from, store, r)
  {
    hide TreeOf, Listed, ListAt, WordsIn, Canonical, CreateAnswer, InsertAnswer, Denied, Untouched, NamedAnswer,
      SelectAnswer, WillShow, ImageDenotes, IsIdentifier, ConditionWords, Asked, ShownBy, Usable;
    TreeParts(c);
    CommandsDiffer();
    if c.Select? && IsIdentifier(c.table) {
      forall image, t | WillShow(start, image) && ImageDenotes(image, t)
        ensures SelectAnswer(t, c.columns, c.condition, ShownBy(r))
      {
        NamedMeans(t, image, c, ShownBy(r));
      }
    }
  }

  /** A command of the grammar by its text. */
  method RunCommand(parser: Parser, store: Store, c: Command) returns (r: Result<Answer>)
    requires parser.Valid() && store.In(Off) && Listed(c) && CleanCommand(c)
    requires c.Select? && c.condition.Some? ==> Canonical(c.condition.value)
    requires c.Insert? ==> forall image :: WillShow(store.Now(), image) ==> Room(image)
    modifies parser, parser.token, store
    ensures parser.Valid() && CommandDone(c, old(store.Now()), |old(store.history)| - 1, store, r)
  {
    hide TreeOf, Listed, ListAt, Usable, CleanCommand, Canonical, TextOf, TextTree, Weak, Works, WillShow, Room,
      Dispatched, CommandDone;
    TreeOfCommand(c);
    TreeParts(c);
    CommandsDiffer();
    ghost var start, from := store.Now(), |store.history| - 1;
    r := RunText(parser, store, TextOf(c));
    DispatchedMeans(c, start, from, store, r);
  }
}
