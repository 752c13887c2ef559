/** The automaton of the commands, and the language it accepts. */
module CommandAutomaton {
  import opened StateTables

  datatype Part =
    | CreateWord | TableWord | FieldsWord | InsertWord | IntoWord | ValuesWord | SelectWord | Asterisk | FromWord
    | WhereWord
    | LiteralWord | Commas | Parens | RelationalWord | LogicalWord

  /** The column of a part; the column of `create` is the one of the marks. */
  function Code(p: Part): (c: nat)
    ensures c <= 14
  {
    match p
    case CreateWord => 0
    case TableWord => 1
    case FieldsWord => 2
    case InsertWord => 3
    case IntoWord => 4
    case ValuesWord => 5
    case SelectWord => 6
    case Asterisk => 7
    case FromWord => 8
    case WhereWord => 9
    case LiteralWord => 10
    case Commas => 11
    case Parens => 12
    case RelationalWord => 13
    case LogicalWord => 14
  }

  function MarkOf(state: int): int {
    if state == 5 || state == 11 || state == 18 || state == 23 || state == 24 then 1
    else if 0 <= state <= 24 then 0 else -1
  }

  /** The three statements, one transition a line of the source. */
  function Move(state: int, code: int): int {
    match (state, code)
    case (0, 0) => 1
    case (1, 1) => 2
    case (2, 10) => 3
    case (3, 2) => 4
    case (4, 10) => 5
    case (5, 11) => 6
    case (6, 10) => 5
    case (0, 3) => 7
    case (7, 4) => 8
    case (8, 10) => 9
    case (9, 5) => 10
    case (10, 10) => 11
    case (11, 11) => 12
    case (12, 10) => 11
    case (0, 6) => 13
    case (13, 7) => 16
    case (16, 8) => 17
    case (13, 10) => 14
    case (14, 11) => 15
    case (15, 10) => 14
    case (14, 8) => 17
    case (17, 10) => 18
    case (18, 9) => 19
    case (19, 10) => 21
    case (19, 12) => 20
    case (20, 10) => 21
    case (20, 12) => 20
    case (21, 13) => 22
    case (22, 10) => 23
    case (23, 14) => 19
    case (23, 12) => 24
    case (24, 14) => 19
    case (24, 12) => 24
    case _ => -1
  }

  function CommandCell(state: int, code: int): int {
    if code == 0 && state != 0 then MarkOf(state) else Move(state, code)
  }

  ghost predicate CommandTable(table: Cells)
    reads table
  {
    Shaped(table) && forall r, c :: 0 <= r < MAX_ROWS && 0 <= c < MAX_COLUMNS ==> table[r, c] == CommandCell(r, c)
  }

  /** `init_`. */
  method InitCommands(table: Cells)
    requires Shaped(table)
    modifies table
    ensures CommandTable(table)
  {
    hide Move, MarkOf, GroupMove;
    InitTable(table);
    MarkStates(table);
    MarkCreate(table);
    MarkInsert(table);
    MarkProjection(table);
    MarkWhere(table);
    MovesByGroup();
  }

  method MarkStates(table: Cells)
    requires Shaped(table) && forall r, c :: 0 <= r < MAX_ROWS && 0 <= c < MAX_COLUMNS ==> table[r, c] == -1
    modifies table
    ensures forall r, c :: 0 <= r < MAX_ROWS && 0 <= c < MAX_COLUMNS ==> table[r, c] == if c == 0 then MarkOf(r) else -1
  {
    for i := 0 to 25
      invariant forall r, c :: 0 <= r < MAX_ROWS && 0 <= c < MAX_COLUMNS ==>
                  table[r, c] == if c == 0 && r < i then MarkOf(r) else -1
    {
      if i == 5 || i == 11 || i == 18 || i == 23 || i == 24 { MarkSuccess(table, i); } else { MarkFail(table, i); }
    }
  }

  /** Which statement a transition belongs to. */
  function Group(state: int, code: int): int {
    if state == 0 then if code == 0 then 1 else if code == 3 then 2 else if code == 6 then 3 else 0
    else if 1 <= state <= 6 then 1
    else if 7 <= state <= 12 then 2
    else if 13 <= state <= 17 then 3
    else if 18 <= state <= 24 then 4
    else 0
  }

  /** A transition of one group; a cell it does not set is left as it was. */
  function GroupMove(group: int, state: int, code: int, otherwise: int): int {
    if Group(state, code) == group && Move(state, code) != -1 then Move(state, code) else otherwise
  }

  method MarkCreate(table: Cells)
    requires Shaped(table)
    modifies table
    ensures forall r, c :: 0 <= r < MAX_ROWS && 0 <= c < MAX_COLUMNS ==>
              table[r, c] == GroupMove(1, r, c, old(table[r, c]))
  {
    MarkCell(0, table, Code(CreateWord), 1);
    MarkCell(1, table, Code(TableWord), 2);
    MarkCell(2, table, Code(LiteralWord), 3);
    MarkCell(3, table, Code(FieldsWord), 4);
    MarkCell(4, table, Code(LiteralWord), 5);
    MarkCell(5, table, Code(Commas), 6);
    MarkCell(6, table, Code(LiteralWord), 5);
  }

  method MarkInsert(table: Cells)
    requires Shaped(table)
    modifies table
    ensures forall r, c :: 0 <= r < MAX_ROWS && 0 <= c < MAX_COLUMNS ==>
              table[r, c] == GroupMove(2, r, c, old(table[r, c]))
  {
    MarkCell(0, table, Code(InsertWord), 7);
    MarkCell(7, table, Code(IntoWord), 8);
    MarkCell(8, table, Code(LiteralWord), 9);
    MarkCell(9, table, Code(ValuesWord), 10);
    MarkCell(10, table, Code(LiteralWord), 11);
    MarkCell(11, table, Code(Commas), 12);
    MarkCell(12, table, Code(LiteralWord), 11);
  }

  method MarkProjection(table: Cells)
    requires Shaped(table)
    modifies table
    ensures forall r, c :: 0 <= r < MAX_ROWS && 0 <= c < MAX_COLUMNS ==>
              table[r, c] == GroupMove(3, r, c, old(table[r, c]))
  {
    MarkCell(0, table, Code(SelectWord), 13);
    MarkCell(13, table, Code(Asterisk), 16);
    MarkCell(16, table, Code(FromWord), 17);
    MarkCell(13, table, Code(LiteralWord), 14);
    MarkCell(14, table, Code(Commas), 15);
    MarkCell(15, table, Code(LiteralWord), 14);
    MarkCell(14, table, Code(FromWord), 17);
    MarkCell(17, table, Code(LiteralWord), 18);
  }

  method MarkWhere(table: Cells)
    requires Shaped(table)
    modifies table
    ensures forall r, c :: 0 <= r < MAX_ROWS && 0 <= c < MAX_COLUMNS ==>
              table[r, c] == GroupMove(4, r, c, old(table[r, c]))
  {
    MarkCell(18, table, Code(WhereWord), 19);
    MarkCell(19, table, Code(LiteralWord), 21);
    MarkCell(19, table, Code(Parens), 20);
    MarkCell(20, table, Code(LiteralWord), 21);
    MarkCell(20, table, Code(Parens), 20);
    MarkCell(21, table, Code(RelationalWord), 22);
    MarkCell(22, table, Code(LiteralWord), 23);
    MarkCell(23, table, Code(LogicalWord), 19);
    MarkCell(23, table, Code(Parens), 24);
    MarkCell(24, table, Code(LogicalWord), 19);
    MarkCell(24, table, Code(Parens), 24);
  }

  lemma MovesByGroup()
    ensures forall r: int, c: int ::
      CommandCell(r, c) ==
        GroupMove(4, r, c, GroupMove(3, r, c, GroupMove(2, r, c, GroupMove(1, r, c, if c == 0 then MarkOf(r) else -1))))
  {
  }

  // ----- the language

  function NextState(state: int, p: Part): int { CommandCell(state, Code(p)) }

  predicate Successful(state: int) { CommandCell(state, 0) == 1 }

  predicate Accepts(state: int, parts: seq<Part>)
    decreases |parts|
  {
    if parts == [] then Successful(state)
    else NextState(state, parts[0]) != -1 && Accepts(NextState(state, parts[0]), parts[1..])
  }

  /** What `parse` accepts. */
  predicate Accepted(parts: seq<Part>) {
    && parts != [] && (parts[0].CreateWord? || parts[0].InsertWord? || parts[0].SelectWord?)
    && Accepts(NextState(0, parts[0]), parts[1..])
  }

  predicate ListOf(parts: seq<Part>) {
    |parts| >= 1 && parts[0].LiteralWord? && (|parts| == 1 || (parts[1].Commas? && ListOf(parts[2..])))
  }

  /** Comparisons joined by connectives, with parens of either kind in front
      of a comparison or behind it. */
  predicate ConditionOf(parts: seq<Part>)
    decreases |parts|
  {
    if parts != [] && parts[0].Parens? then ConditionOf(parts[1..])
    else
      |parts| >= 3 && parts[0].LiteralWord? && parts[1].RelationalWord? && parts[2].LiteralWord? && MoreOf(parts[3..])
  }

  predicate MoreOf(parts: seq<Part>)
    decreases |parts|
  {
    parts == [] || (parts[0].Parens? && MoreOf(parts[1..])) || (parts[0].LogicalWord? && ConditionOf(parts[1..]))
  }

  predicate SourceOf(parts: seq<Part>) {
    && |parts| >= 2 && parts[0].FromWord? && parts[1].LiteralWord?
    && (|parts| == 2 || (parts[2].WhereWord? && ConditionOf(parts[3..])))
  }

  predicate ColumnsOf(parts: seq<Part>) {
    |parts| >= 2 && parts[0].LiteralWord? && (SourceOf(parts[1..]) || (parts[1].Commas? && ColumnsOf(parts[2..])))
  }

  predicate Headed(parts: seq<Part>, first: Part, second: Part, fourth: Part) {
    && |parts| >= 4 && parts[0] == first && parts[1] == second && parts[2].LiteralWord? && parts[3] == fourth
    && ListOf(parts[4..])
  }

  predicate Sentence(parts: seq<Part>) {
    || Headed(parts, CreateWord, TableWord, FieldsWord)
    || Headed(parts, InsertWord, IntoWord, ValuesWord)
    || (|parts| >= 2 && parts[0].SelectWord? && ((parts[1].Asterisk? && SourceOf(parts[2..])) || ColumnsOf(parts[1..])))
  }

  predicate NoCreate(parts: seq<Part>) { CreateWord !in parts }

  lemma PlainRest(parts: seq<Part>, n: nat)
    requires NoCreate(parts) && n <= |parts|
    ensures NoCreate(parts[n..])
  {
  }

  lemma Step(state: int, parts: seq<Part>)
    requires parts != []
    ensures Accepts(state, parts) <==>
              NextState(state, parts[0]) != -1 && Accepts(NextState(state, parts[0]), parts[1..])
  {
  }

  lemma Stop(state: int)
    ensures Accepts(state, []) <==> Successful(state)
  {
  }

  /** The lists of `create` and `insert`. */
  lemma {:induction false} AcceptsList(item: int, comma: int, parts: seq<Part>)
    requires NoCreate(parts) && ((item == 5 && comma == 6) || (item == 11 && comma == 12))
    ensures Accepts(comma, parts) <==> ListOf(parts)
    ensures Accepts(comma - 2, parts) <==> ListOf(parts)
    decreases |parts|
  {
    hide Accepts;
    if parts == [] {
      Stop(comma);
      Stop(comma - 2);
    } else {
      Step(comma, parts);
      Step(comma - 2, parts);
      if parts[0].LiteralWord? {
        if |parts| == 1 {
          assert parts[1..] == [];
          Stop(item);
        } else {
          Step(item, parts[1..]);
          assert parts[1..][1..] == parts[2..];
          PlainRest(parts, 2);
          AcceptsList(item, comma, parts[2..]);
        }
      }
    }
  }

  lemma {:induction false} AcceptsCondition(state: int, parts: seq<Part>)
    requires NoCreate(parts) && 19 <= state <= 20
    ensures Accepts(state, parts) <==> ConditionOf(parts)
    decreases |parts|, 1
  {
    hide Accepts, MoreOf;
    if parts == [] {
      Stop(state);
    } else {
      Step(state, parts);
      PlainRest(parts, 1);
      if parts[0].Parens? {
        AcceptsCondition(20, parts[1..]);
      } else if parts[0].LiteralWord? {
        AcceptsComparison(parts[1..]);
        assert |parts| >= 3 ==> parts[1..][2..] == parts[3..];
      }
    }
  }

  lemma {:induction false} AcceptsComparison(parts: seq<Part>)
    requires NoCreate(parts)
    ensures Accepts(21, parts) <==>
              |parts| >= 2 && parts[0].RelationalWord? && parts[1].LiteralWord? && MoreOf(parts[2..])
    decreases |parts|, 0
  {
    hide Accepts, MoreOf;
    if parts == [] {
      Stop(21);
    } else {
      Step(21, parts);
      if |parts| == 1 {
        assert parts[1..] == [];
        Stop(22);
      } else {
        Step(22, parts[1..]);
        assert parts[1..][1..] == parts[2..];
        PlainRest(parts, 2);
        AcceptsMore(23, parts[2..]);
      }
    }
  }

  lemma {:induction false} AcceptsMore(state: int, parts: seq<Part>)
    requires NoCreate(parts) && 23 <= state <= 24
    ensures Accepts(state, parts) <==> MoreOf(parts)
    decreases |parts|, 0
  {
    hide Accepts, ConditionOf;
    if parts == [] {
      Stop(state);
    } else {
      Step(state, parts);
      PlainRest(parts, 1);
      if parts[0].Parens? { AcceptsMore(24, parts[1..]); }
      if parts[0].LogicalWord? { AcceptsCondition(19, parts[1..]); }
    }
  }

  lemma AcceptsSource(state: int, parts: seq<Part>)
    requires NoCreate(parts) && state == 16
    ensures Accepts(state, parts) <==> SourceOf(parts)
  {
    hide Accepts, ConditionOf;
    if parts == [] {
      Stop(state);
    } else {
      Step(state, parts);
      if parts[0].FromWord? { AcceptsTable(parts[1..]); }
      assert |parts| >= 3 ==> parts[1..][2..] == parts[3..];
    }
  }

  lemma AcceptsTable(parts: seq<Part>)
    requires NoCreate(parts)
    ensures Accepts(17, parts) <==>
              && |parts| >= 1 && parts[0].LiteralWord?
              && (|parts| == 1 || (parts[1].WhereWord? && ConditionOf(parts[2..])))
  {
    hide Accepts, ConditionOf;
    if parts == [] {
      Stop(17);
    } else {
      Step(17, parts);
      if |parts| == 1 {
        assert parts[1..] == [];
        Stop(18);
      } else {
        Step(18, parts[1..]);
        assert parts[1..][1..] == parts[2..];
        PlainRest(parts, 2);
        AcceptsCondition(19, parts[2..]);
      }
    }
  }

  lemma {:induction false} AcceptsColumns(parts: seq<Part>)
    requires NoCreate(parts)
    ensures Accepts(15, parts) <==> ColumnsOf(parts)
    decreases |parts|
  {
    hide Accepts, ConditionOf;
    if parts == [] {
      Stop(15);
    } else {
      Step(15, parts);
      if parts[0].LiteralWord? {
        PlainRest(parts, 1);
        AcceptsAfterColumn(parts[1..]);
        if |parts| >= 2 {
          assert parts[1..][1..] == parts[2..];
          PlainRest(parts, 2);
          AcceptsColumns(parts[2..]);
        }
      }
    }
  }

  lemma AcceptsAfterColumn(parts: seq<Part>)
    requires NoCreate(parts)
    ensures Accepts(14, parts) <==> SourceOf(parts) || (|parts| >= 1 && parts[0].Commas? && Accepts(15, parts[1..]))
  {
    hide Accepts, ConditionOf;
    if parts == [] {
      Stop(14);
    } else {
      Step(14, parts);
      if parts[0].FromWord? { AcceptsTable(parts[1..]); }
      assert |parts| >= 3 ==> parts[1..][2..] == parts[3..];
    }
  }

  lemma AcceptsSelect(parts: seq<Part>)
    requires NoCreate(parts)
    ensures Accepts(13, parts) <==> (|parts| >= 1 && parts[0].Asterisk? && SourceOf(parts[1..])) || ColumnsOf(parts)
  {
    hide Accepts, SourceOf;
    AcceptsColumns(parts);
    if parts == [] {
      Stop(13);
    } else {
      Step(13, parts);
      Step(15, parts);
      PlainRest(parts, 1);
      AcceptsSource(16, parts[1..]);
    }
  }

  /** The two words and the name in front of a list. */
  lemma AcceptsHead(first: int, parts: seq<Part>)
    requires NoCreate(parts) && (first == 1 || first == 7)
    ensures Accepts(first, parts) <==>
      |parts| >= 3 && parts[0] == (if first == 1 then TableWord else IntoWord) && parts[1].LiteralWord?
      && parts[2] == (if first == 1 then FieldsWord else ValuesWord) && ListOf(parts[3..])
  {
    hide Accepts, ListOf;
    if parts == [] {
      Stop(first);
    } else {
      Step(first, parts);
      if |parts| == 1 {
        assert parts[1..] == [];
        Stop(first + 1);
      } else {
        Step(first + 1, parts[1..]);
        assert parts[1..][1..] == parts[2..];
        if |parts| == 2 {
          assert parts[2..] == [];
          Stop(first + 2);
        } else {
          Step(first + 2, parts[2..]);
          assert parts[2..][1..] == parts[3..];
          PlainRest(parts, 3);
          AcceptsList(first + 4, first + 5, parts[3..]);
        }
      }
    }
  }

  lemma {:induction false} PlainList(parts: seq<Part>)
    requires ListOf(parts)
    ensures NoCreate(parts)
  {
    if |parts| > 1 {
      PlainList(parts[2..]);
      assert parts == [parts[0], parts[1]] + parts[2..];
    }
  }

  lemma {:induction false} PlainCondition(parts: seq<Part>)
    ensures ConditionOf(parts) || MoreOf(parts) ==> NoCreate(parts)
    decreases |parts|
  {
    if parts != [] {
      PlainCondition(parts[1..]);
      assert parts == [parts[0]] + parts[1..];
      if |parts| >= 3 {
        PlainCondition(parts[3..]);
        assert parts == [parts[0], parts[1], parts[2]] + parts[3..];
      }
    }
  }

  lemma PlainSource(parts: seq<Part>)
    requires SourceOf(parts)
    ensures NoCreate(parts)
  {
    hide ConditionOf;
    if |parts| > 2 {
      PlainCondition(parts[3..]);
      assert parts == [parts[0], parts[1], parts[2]] + parts[3..];
    }
  }

  lemma {:induction false} PlainColumns(parts: seq<Part>)
    requires ColumnsOf(parts)
    ensures NoCreate(parts)
  {
    hide SourceOf;
    if SourceOf(parts[1..]) {
      PlainSource(parts[1..]);
      assert parts == [parts[0]] + parts[1..];
    } else {
      PlainColumns(parts[2..]);
      assert parts == [parts[0], parts[1]] + parts[2..];
    }
  }

  lemma PlainSentence(parts: seq<Part>)
    requires Sentence(parts)
    ensures NoCreate(parts[1..])
  {
    hide ListOf, SourceOf, ColumnsOf;
    if parts[0].SelectWord? {
      if parts[1].Asterisk? && SourceOf(parts[2..]) {
        PlainSource(parts[2..]);
        assert parts[1..] == [parts[1]] + parts[2..];
      } else {
        PlainColumns(parts[1..]);
      }
    } else {
      PlainList(parts[4..]);
      assert parts[1..] == [parts[1], parts[2], parts[3]] + parts[4..];
    }
  }

  /** The accepted command lines are the sentences, except that a second
      `create` is not noticed: it leads back to a start state. */
  lemma SentencesAreAccepted(parts: seq<Part>)
    requires parts != []
    ensures Sentence(parts) <==> Accepted(parts) && NoCreate(parts[1..])
  {
    hide ListOf, SourceOf, Accepts;
    var rest := parts[1..];
    if Sentence(parts) { PlainSentence(parts); }
    if NoCreate(rest) {
      AcceptsHead(1, rest);
      AcceptsHead(7, rest);
      AcceptsSelect(rest);
      assert |parts| >= 4 ==> rest[3..] == parts[4..];
      assert |parts| >= 2 ==> rest[1..] == parts[2..];
    }
  }

  /** `create create` is accepted and is no sentence. */
  lemma SecondCreateIsAccepted()
    ensures Accepted([CreateWord, CreateWord]) && !Sentence([CreateWord, CreateWord])
  {
    assert [CreateWord, CreateWord][1..] == [CreateWord] && [CreateWord][1..] == [];
    assert Accepts(0, []);
  }
}
