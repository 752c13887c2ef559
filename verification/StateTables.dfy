/** The transition tables both automata are built from. */
module StateTables {
  const MAX_ROWS := 100
  const MAX_COLUMNS := 256

  type Cells = array2<int>

  ghost predicate Shaped(table: Cells) { table.Length0 == MAX_ROWS && table.Length1 == MAX_COLUMNS }

  /** `init_table`. */
  method InitTable(table: Cells)
    requires Shaped(table)
    modifies table
    ensures forall r, c :: 0 <= r < MAX_ROWS && 0 <= c < MAX_COLUMNS ==> table[r, c] == -1
  {
    for i := 0 to MAX_ROWS
      invariant forall r, c :: 0 <= r < i && 0 <= c < MAX_COLUMNS ==> table[r, c] == -1
    {
      for j := 0 to MAX_COLUMNS
        invariant forall r, c :: 0 <= r < i && 0 <= c < MAX_COLUMNS ==> table[r, c] == -1
        invariant forall c :: 0 <= c < j ==> table[i, c] == -1
      {
        table[i, j] := -1;
      }
    }
  }

  /** `mark_success`: the mark shares column 0 with the transitions. */
  method MarkSuccess(table: Cells, state: nat)
    requires Shaped(table) && state < MAX_ROWS
    modifies table
    ensures forall r, c :: 0 <= r < MAX_ROWS && 0 <= c < MAX_COLUMNS ==>
              table[r, c] == if r == state && c == 0 then 1 else old(table[r, c])
  {
    table[state, 0] := 1;
  }

  method MarkFail(table: Cells, state: nat)
    requires Shaped(table) && state < MAX_ROWS
    modifies table
    ensures forall r, c :: 0 <= r < MAX_ROWS && 0 <= c < MAX_COLUMNS ==>
              table[r, c] == if r == state && c == 0 then 0 else old(table[r, c])
  {
    table[state, 0] := 0;
  }

  method IsSuccess(table: Cells, state: nat) returns (r: bool)
    requires Shaped(table) && state < MAX_ROWS
    ensures r <==> table[state, 0] == 1
  {
    r := table[state, 0] == 1;
  }

  /** `mark_cell`. */
  method MarkCell(row: nat, table: Cells, column: nat, state: int)
    requires Shaped(table) && row < MAX_ROWS && column < MAX_COLUMNS
    modifies table
    ensures forall r, c :: 0 <= r < MAX_ROWS && 0 <= c < MAX_COLUMNS ==>
              table[r, c] == if r == row && c == column then state else old(table[r, c])
  {
    table[row, column] := state;
  }

  /** `mark_cells` for the characters of a string. */
  method MarkCells(row: nat, table: Cells, columns: seq<nat>, state: int)
    requires Shaped(table) && row < MAX_ROWS && forall c :: c in columns ==> c < MAX_COLUMNS
    modifies table
    ensures forall r, c :: 0 <= r < MAX_ROWS && 0 <= c < MAX_COLUMNS ==>
      table[r, c] == if r == row && c in columns then state else old(table[r, c])
  {
    for i := 0 to |columns|
      invariant forall r, c :: 0 <= r < MAX_ROWS && 0 <= c < MAX_COLUMNS ==>
        table[r, c] == if r == row && c in columns[..i] then state else old(table[r, c])
    {
      assert columns[..i + 1] == columns[..i] + [columns[i]];
      assert columns[i] in columns;
      table[row, columns[i]] := state;
    }
    assert columns[..|columns|] == columns;
  }
}
