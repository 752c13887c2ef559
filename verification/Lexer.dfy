/** The scanner: character classes, the longest token at a position, and the
    tokens of a command. */
module Lexer {
  import opened Ordering
  import opened StateTables

  // ----- character classes

  function Run(from: nat, count: nat): (r: seq<nat>)
    ensures forall c: nat :: c in r <==> from <= c < from + count
  {
    if count == 0 then [] else Run(from, count - 1) + [from + count - 1]
  }

  predicate IsDigit(c: int) { 48 <= c < 58 }

  predicate IsAlpha(c: int) { 97 <= c < 123 || 65 <= c < 91 || c == 95 || IsDigit(c) }

  predicate IsOperator(c: int) { 60 <= c < 63 || c == 33 }

  function Alphas(): (r: seq<nat>)
    ensures forall c: nat :: c in r <==> IsAlpha(c)
  {
    Run(97, 26) + Run(65, 26) + [95] + Run(48, 10)
  }

  /** The transition table. */
  function Cell(state: int, c: int): int {
    if c == 0 then if state == 0 then 0 else if 1 <= state <= 7 then 1 else -1
    else if state == 0 then
      if IsDigit(c) then 2
      else if IsAlpha(c) then 1
      else if IsOperator(c) then 3
      else if c == 44 then 4
      else if c == 32 || c == 9 || c == 10 then 5
      else if c == 40 || c == 41 then 6
      else if c == 42 then 7
      else -1
    else if state == 1 then if IsAlpha(c) then 1 else -1
    else if state == 2 then if IsDigit(c) then 2 else -1
    else if state == 3 then if IsOperator(c) then 3 else -1
    else -1
  }

  ghost predicate ScannerTable(table: Cells)
    reads table
  {
    Shaped(table) && forall r, c :: 0 <= r < MAX_ROWS && 0 <= c < MAX_COLUMNS ==> table[r, c] == Cell(r, c)
  }

  /** `make_table`: the digits overwrite what the letters marked. */
  method MakeTable(table: Cells)
    requires Shaped(table)
    modifies table
    ensures ScannerTable(table)
  {
    hide Run, Alphas;
    InitTable(table);
    MarkFail(table, 0);
    for i := 1 to 8
      invariant forall r, c :: 0 <= r < MAX_ROWS && 0 <= c < MAX_COLUMNS ==>
                  table[r, c] == if c == 0 && r < i then if r == 0 then 0 else 1 else -1
    {
      MarkSuccess(table, i);
    }
    MarkStart(table);
    MarkCells(1, table, Alphas(), 1);
    MarkCells(2, table, Run(48, 10), 2);
    MarkCells(3, table, [62, 60, 61, 33], 3);
  }

  method MarkStart(table: Cells)
    requires Shaped(table)
    modifies table
    ensures forall r, c :: 0 <= r < MAX_ROWS && 0 <= c < MAX_COLUMNS ==>
      table[r, c] == if r == 0 && c != 0 && Cell(0, c) != -1 then Cell(0, c) else old(table[r, c])
  {
    hide Run, Alphas;
    MarkCells(0, table, Alphas(), 1);
    MarkCells(0, table, Run(48, 10), 2);
    MarkCells(0, table, [62, 60, 61, 33], 3);
    MarkCells(0, table, [44], 4);
    MarkCells(0, table, [32, 9, 10], 5);
    MarkCells(0, table, [40, 41], 6);
    MarkCells(0, table, [42], 7);
  }

  // ----- the longest token

  datatype Kind = Number | Alpha | Space | Operator | Comma | Paren | Star | Unknown

  datatype SToken = SToken(text: Bytes, kind: Kind)

  function KindOf(state: int): Kind {
    if state == 1 then Alpha
    else if state == 2 then Number
    else if state == 3 then Operator
    else if state == 4 then Comma
    else if state == 5 then Space
    else if state == 6 then Paren
    else if state == 7 then Star
    else Unknown
  }

  /** How far a state repeats. */
  function Span(state: int, s: Bytes): (n: nat)
    ensures n <= |s|
  {
    if s == [] || Cell(state, s[0]) != state then 0 else 1 + Span(state, s[1..])
  }

  function NextLength(s: Bytes): (n: nat)
    requires s != []
    ensures 1 <= n <= |s|
  {
    var state := Cell(0, s[0]);
    if state == 1 || state == 3 then 1 + Span(state, s[1..])
    else if state == 2 then
      var n := 1 + Span(2, s[1..]);
      if n + 1 < |s| && s[n] == 46 && IsDigit(s[n + 1]) then n + 1 + Span(2, s[n + 1..]) else n
    else 1
  }

  function Next(s: Bytes): (t: SToken)
    requires s != []
    ensures t.text != [] && t.text <= s
  {
    SToken(s[..NextLength(s)], KindOf(Cell(0, s[0])))
  }

  // ----- the longest lexeme

  predicate IsWord(w: Bytes) { w != [] && !IsDigit(w[0]) && forall i :: 0 <= i < |w| ==> IsAlpha(w[i]) }

  predicate IsOperatorRun(w: Bytes) { w != [] && forall i :: 0 <= i < |w| ==> IsOperator(w[i]) }

  predicate Digits(w: Bytes, from: nat, to: nat)
    requires from <= to <= |w|
  {
    forall i :: from <= i < to ==> IsDigit(w[i])
  }

  /** A decimal part behind position `n`. */
  predicate PointAt(w: Bytes, n: nat) { 0 < n && n + 1 < |w| && w[n] == 46 && Digits(w, 0, n) && Digits(w, n + 1, |w|) }

  /** Digits, with at most one decimal part. */
  ghost predicate IsNumber(w: Bytes) { w != [] && (Digits(w, 0, |w|) || exists n: nat :: PointAt(w, n)) }

  /** What the scanner reads in one piece, with the kind it gives it. */
  ghost predicate IsLexeme(w: Bytes, kind: Kind) {
    match kind
    case Alpha => IsWord(w)
    case Number => IsNumber(w)
    case Operator => IsOperatorRun(w)
    case Comma => w == [44]
    case Space => w in [[32], [9], [10]]
    case Paren => w in [[40], [41]]
    case Star => w == [42]
    case Unknown => |w| == 1 && !IsAlpha(w[0]) && !IsOperator(w[0]) && w[0] !in [44, 32, 9, 10, 40, 41, 42]
  }

  lemma {:induction false} SpanIs(state: int, s: Bytes)
    requires 0 !in s
    ensures forall i :: 0 <= i < Span(state, s) ==> Cell(state, s[i]) == state
    ensures Span(state, s) < |s| ==> Cell(state, s[Span(state, s)]) != state
  {
    hide Cell;
    if s != [] && Cell(state, s[0]) == state {
      SpanIs(state, s[1..]);
      forall i | 0 <= i < Span(state, s) ensures Cell(state, s[i]) == state {
        if i > 0 { assert s[i] == s[1..][i - 1]; }
      }
    }
  }

  lemma KeepsState(state: int, c: int)
    requires 0 < c < 256
    ensures state == 1 ==> (Cell(1, c) == 1 <==> IsAlpha(c))
    ensures state == 2 ==> (Cell(2, c) == 2 <==> IsDigit(c))
    ensures state == 3 ==> (Cell(3, c) == 3 <==> IsOperator(c))
    ensures Cell(0, c) == 1 <==> IsAlpha(c) && !IsDigit(c)
    ensures Cell(0, c) == 2 <==> IsDigit(c)
    ensures Cell(0, c) == 3 <==> IsOperator(c)
  {
  }

  lemma SpanClass(state: int, s: Bytes)
    requires 0 !in s
    ensures state == 1 ==> forall i :: 0 <= i < Span(1, s) ==> IsAlpha(s[i])
    ensures state == 1 && Span(1, s) < |s| ==> !IsAlpha(s[Span(1, s)])
    ensures state == 2 ==> forall i :: 0 <= i < Span(2, s) ==> IsDigit(s[i])
    ensures state == 2 && Span(2, s) < |s| ==> !IsDigit(s[Span(2, s)])
    ensures state == 3 ==> forall i :: 0 <= i < Span(3, s) ==> IsOperator(s[i])
    ensures state == 3 && Span(3, s) < |s| ==> !IsOperator(s[Span(3, s)])
  {
    hide Cell, IsAlpha, IsDigit, IsOperator;
    SpanIs(state, s);
    forall i | 0 <= i < |s| ensures 0 < s[i] as int < 256 { assert s[i] in s; }
    forall i | 0 <= i < |s|
      ensures state == 1 ==> (Cell(1, s[i]) == 1 <==> IsAlpha(s[i]))
      ensures state == 2 ==> (Cell(2, s[i]) == 2 <==> IsDigit(s[i]))
      ensures state == 3 ==> (Cell(3, s[i]) == 3 <==> IsOperator(s[i]))
    {
      KeepsState(state, s[i]);
    }
  }

  lemma WordRun(s: Bytes)
    requires s != [] && 0 !in s && Cell(0, s[0]) == 1
    ensures Next(s).kind == Alpha && IsAlpha(s[0]) && !IsDigit(s[0])
    ensures var n := NextLength(s); (forall i :: 0 <= i < n ==> IsAlpha(s[i])) && (n < |s| ==> !IsAlpha(s[n]))
  {
    hide Cell, Span, IsAlpha, IsDigit, IsOperator;
    assert s[0] in s;
    KeepsState(1, s[0]);
    SpanClass(1, s[1..]);
    assert forall i :: 0 < i < |s| ==> s[i] == s[1..][i - 1];
  }

  lemma OperatorRun(s: Bytes)
    requires s != [] && 0 !in s && Cell(0, s[0]) == 3
    ensures Next(s).kind == Operator && IsOperator(s[0])
    ensures var n := NextLength(s); (forall i :: 0 <= i < n ==> IsOperator(s[i])) && (n < |s| ==> !IsOperator(s[n]))
  {
    hide Cell, Span, IsAlpha, IsDigit, IsOperator;
    assert s[0] in s;
    KeepsState(3, s[0]);
    SpanClass(3, s[1..]);
    assert forall i :: 0 < i < |s| ==> s[i] == s[1..][i - 1];
  }

  /** The digits reach up to `d`; a decimal part follows if there can be one. */
  lemma NumberRun(s: Bytes) returns (d: nat)
    requires s != [] && 0 !in s && Cell(0, s[0]) == 2
    ensures Next(s).kind == Number && 0 < d <= |s| && Digits(s, 0, d) && (d < |s| ==> !IsDigit(s[d]))
    ensures var n := NextLength(s);
      if d + 1 < |s| && s[d] == 46 && IsDigit(s[d + 1]) then
        d + 1 < n && Digits(s, d + 1, n) && (n < |s| ==> !IsDigit(s[n]))
      else n == d
  {
    hide Cell, Span, IsAlpha, IsDigit, IsOperator;
    assert s[0] in s;
    KeepsState(2, s[0]);
    SpanClass(2, s[1..]);
    assert forall i :: 0 < i < |s| ==> s[i] == s[1..][i - 1];
    d := 1 + Span(2, s[1..]);
    if d + 1 < |s| {
      SpanClass(2, s[d + 1..]);
      assert forall i :: d < i < |s| ==> s[i] == s[d + 1..][i - (d + 1)];
    }
  }

  ghost predicate NoneLonger(s: Bytes, n: nat) {
    forall k :: n < k <= |s| ==> !IsWord(s[..k]) && !IsNumber(s[..k]) && !IsOperatorRun(s[..k])
  }

  lemma LongestWord(s: Bytes)
    requires s != [] && 0 !in s && Cell(0, s[0]) == 1
    ensures IsLexeme(Next(s).text, Next(s).kind) && NoneLonger(s, NextLength(s))
  {
    hide Cell, NextLength, IsAlpha, IsDigit, IsNumber, KindOf;
    WordRun(s);
    var n := NextLength(s);
    FirstDecides(s);
    forall k | n < k <= |s| ensures !IsWord(s[..k]) { assert s[..k][n] == s[n]; }
  }

  lemma LongestOperators(s: Bytes)
    requires s != [] && 0 !in s && Cell(0, s[0]) == 3
    ensures IsLexeme(Next(s).text, Next(s).kind) && NoneLonger(s, NextLength(s))
  {
    hide Cell, NextLength, IsAlpha, IsDigit, IsOperator, IsNumber, KindOf;
    OperatorRun(s);
    var n := NextLength(s);
    FirstDecides(s);
    forall k | n < k <= |s| ensures !IsOperatorRun(s[..k]) { assert s[..k][n] == s[n]; }
  }

  /** The first character decides what a prefix can be. */
  lemma FirstDecides(s: Bytes)
    requires s != []
    ensures forall k :: 0 < k <= |s| && IsWord(s[..k]) ==> IsAlpha(s[0]) && !IsDigit(s[0])
    ensures forall k :: 0 < k <= |s| && IsNumber(s[..k]) ==> IsDigit(s[0])
    ensures forall k :: 0 < k <= |s| && IsOperatorRun(s[..k]) ==> IsOperator(s[0])
    ensures IsOperator(s[0]) ==> !IsAlpha(s[0]) && !IsDigit(s[0])
  {
    forall k | 0 < k <= |s| && IsNumber(s[..k]) ensures IsDigit(s[0]) { assert s[..k][0] == s[0]; }
  }

  lemma LongestNumber(s: Bytes)
    requires s != [] && 0 !in s && Cell(0, s[0]) == 2
    ensures IsLexeme(Next(s).text, Next(s).kind) && NoneLonger(s, NextLength(s))
  {
    hide Cell, NextLength, IsAlpha, IsDigit, IsOperator, KindOf, IsNumber, IsWord, IsOperatorRun, Digits;
    var d := NumberRun(s);
    var n := NextLength(s);
    NumberIs(s, d, n);
    FirstDecides(s);
    FirstDigit(s, d);
    DigitOnly(s[0]);
    forall k | n < k <= |s| ensures !IsNumber(s[..k]) { NoLongerNumber(s, d, n, k); }
  }

  lemma FirstDigit(s: Bytes, d: nat)
    requires 0 < d <= |s| && Digits(s, 0, d)
    ensures IsDigit(s[0])
  {
  }

  lemma DigitOnly(c: int)
    requires IsDigit(c)
    ensures !IsOperator(c)
  {
  }

  ghost predicate ReadNumber(s: Bytes, d: nat, n: nat) {
    && 0 < d <= |s| && d <= n <= |s| && Digits(s, 0, d) && (d < |s| ==> !IsDigit(s[d]))
    && if d + 1 < |s| && s[d] == 46 && IsDigit(s[d + 1]) then
         d + 1 < n && Digits(s, d + 1, n) && (n < |s| ==> !IsDigit(s[n]))
       else n == d
  }

  lemma NumberIs(s: Bytes, d: nat, n: nat)
    requires ReadNumber(s, d, n)
    ensures IsNumber(s[..n])
  {
    hide IsDigit;
    if n > d { assert PointAt(s[..n], d); }
  }

  lemma NoLongerNumber(s: Bytes, d: nat, n: nat, k: nat)
    requires ReadNumber(s, d, n) && n < k <= |s|
    ensures !IsNumber(s[..k])
  {
    hide IsDigit;
    var w := s[..k];
    assert w[d] == s[d] && w[n] == s[n];
    forall m: nat ensures !PointAt(w, m) { NoLongerPoint(s, d, n, k, m); }
  }

  lemma NoLongerPoint(s: Bytes, d: nat, n: nat, k: nat, m: nat)
    requires ReadNumber(s, d, n) && n < k <= |s|
    ensures !PointAt(s[..k], m)
  {
    var w := s[..k];
    assert d < |w| ==> w[d] == s[d];
    assert n < |w| ==> w[n] == s[n];
    assert d + 1 < |w| ==> w[d + 1] == s[d + 1];
  }

  /** The longest match: words, numbers and operator runs are read whole, and no
      longer prefix is a word, a number or an operator run. */
  lemma LongestMatch(s: Bytes)
    requires s != [] && 0 !in s
    ensures IsLexeme(Next(s).text, Next(s).kind) && NoneLonger(s, |Next(s).text|)
  {
    hide Cell, IsWord, IsNumber, IsOperatorRun, IsDigit, IsAlpha, IsOperator, NextLength, KindOf;
    var state := Cell(0, s[0]);
    if state == 1 {
      LongestWord(s);
    } else if state == 2 {
      LongestNumber(s);
    } else if state == 3 {
      LongestOperators(s);
    } else {
      SingleOnly(s);
    }
  }

  lemma SingleOnly(s: Bytes)
    requires s != [] && 0 !in s && !(1 <= Cell(0, s[0]) <= 3)
    ensures NextLength(s) == 1 && NoneLonger(s, 1) && IsLexeme(Next(s).text, Next(s).kind)
  {
    hide Cell, IsAlpha, IsDigit, IsOperator, IsNumber, IsWord, IsOperatorRun, KindOf;
    assert s[0] in s;
    KeepsState(0, s[0]);
    FirstDecides(s);
    assert s[..1] == [s[0]];
    SingleKind(s[0]);
  }

  lemma SingleKind(c: byte)
    requires c != 0 && !(1 <= Cell(0, c as int) <= 3)
    ensures IsLexeme([c], KindOf(Cell(0, c as int)))
  {
  }

  function Tokens(s: Bytes): seq<SToken> {
    if s == [] then [] else [Next(s)] + Tokens(s[|Next(s).text|..])
  }

  function Texts(tokens: seq<SToken>): Bytes {
    if tokens == [] then [] else tokens[0].text + Texts(tokens[1..])
  }

  /** The tokens of a command are non-empty and concatenate back to it. */
  lemma {:induction false} TokensConcatenate(s: Bytes)
    ensures Texts(Tokens(s)) == s && forall t :: t in Tokens(s) ==> t.text != []
  {
    hide Next;
    if s != [] {
      var t := Next(s);
      TokensConcatenate(s[|t.text|..]);
      assert Tokens(s)[1..] == Tokens(s[|t.text|..]);
    }
  }

  // ----- the scanner

  /** What a C string keeps of a buffer. */
  function UpToNul(s: Bytes): (r: Bytes)
    ensures r <= s && 0 !in r && (0 !in s ==> r == s)
  {
    if s == [] || s[0] == 0 then [] else [s[0]] + UpToNul(s[1..])
  }

  lemma SpanStep(state: int, s: Bytes, from: nat, i: nat)
    requires from <= i < |s| && Span(state, s[from..]) == i - from + Span(state, s[i..])
    ensures Cell(state, s[i]) == state ==> Span(state, s[from..]) == i + 1 - from + Span(state, s[i + 1..])
    ensures Cell(state, s[i]) != state ==> Span(state, s[from..]) == i - from
  {
    hide Cell;
    assert s[i..][1..] == s[i + 1..];
  }

  class STokenizer {
    var buffer: Bytes
    var pos: nat
    const table: Cells

    ghost predicate Valid()
      reads this, table
    {
      ScannerTable(table) && pos <= |buffer| && 0 !in buffer
    }

    constructor ()
      ensures Valid() && buffer == [] && pos == 0 && fresh(table)
    {
      buffer, pos, table := [], 0, new int[MAX_ROWS, MAX_COLUMNS];
      new;
      MakeTable(table);
    }

    method SetString(s: Bytes)
      requires Valid()
      modifies this
      ensures Valid() && buffer == UpToNul(s) && pos == 0
    {
      pos := 0;
      buffer := UpToNul(s);
    }

    method More() returns (r: bool)
      ensures r <==> pos < |buffer|
    {
      r := !(pos >= |buffer|);
    }

    /** `get_token` from the start state. */
    method GetToken() returns (ok: bool, token: SToken)
      requires Valid()
      modifies this`pos
      ensures Valid() && (ok <==> old(pos) < |buffer|)
      ensures !ok ==> pos == old(pos)
      ensures ok ==> token == Next(buffer[old(pos)..]) && pos == old(pos) + |token.text|
      ensures ok ==> IsLexeme(token.text, token.kind) && NoneLonger(buffer[old(pos)..], |token.text|)
    {
      hide Cell, Span, Next, NextLength, KindOf, IsLexeme, NoneLonger;
      if pos < |buffer| { LongestMatch(buffer[pos..]); }
      if pos >= |buffer| { return false, SToken([], Unknown); }
      var rest, t := buffer[pos..], buffer[pos];
      assert t == rest[0];
      var state := table[0, t];
      StartStates(t);
      if !(1 <= state <= 3) { NextSingle(rest); }
      if 4 <= state <= 7 {
        pos := pos + 1;
        return true, SToken([t], KindOf(state));
      }
      if state == -1 {
        pos := pos + 1;
        return true, SToken([t], Unknown);
      }
      ok := true;
      token := GetLongToken(state);
    }

    method GetLongToken(state: int) returns (token: SToken)
      requires Valid() && pos < |buffer| && 1 <= state <= 3 && Cell(0, buffer[pos]) == state
      modifies this`pos
      ensures Valid() && token == Next(buffer[old(pos)..]) && pos == old(pos) + |token.text|
    {
      hide Cell, Span, Next, NextLength, KindOf;
      var hold := pos;
      var start := ScanSame(hold, state);
      if state == 2 {
        start := ScanFraction(start);
      }
      LongToken(buffer, hold, state);
      token := SToken(buffer[hold..start], KindOf(state));
      pos := start;
    }

    /** The characters that keep the state. */
    method ScanSame(hold: nat, state: int) returns (start: nat)
      requires Valid() && hold < |buffer| && 1 <= state <= 3
      ensures hold < start <= |buffer| && start == hold + 1 + Span(state, buffer[hold + 1..])
    {
      hide Cell;
      start := hold + 1;
      while start < |buffer|
        invariant hold + 1 <= start <= |buffer|
        invariant Span(state, buffer[hold + 1..]) == start - hold - 1 + Span(state, buffer[start..])
      {
        SpanStep(state, buffer, hold + 1, start);
        var t := buffer[start];
        var nextState := table[state, t];
        if nextState != state { break; }
        start := start + 1;
      }
      assert start == |buffer| ==> buffer[start..] == [];
    }

    /** A point with a digit behind it continues a number. */
    method ScanFraction(point: nat) returns (start: nat)
      requires Valid() && point <= |buffer|
      ensures point <= start <= |buffer|
      ensures start ==
                if point + 1 < |buffer| && buffer[point] == 46 && IsDigit(buffer[point + 1]) then
                  point + 1 + Span(2, buffer[point + 1..])
                else point
    {
      hide Cell, Span;
      start := point;
      if start + 1 < |buffer| && buffer[start] == 46 {
        DigitState(buffer[start + 1]);
        var nextToken := buffer[start + 1];
        if table[2, nextToken] == 2 {
          start := ScanSame(point, 2);
        }
      }
    }
  }

  lemma NextSingle(s: Bytes)
    requires s != [] && !(1 <= Cell(0, s[0]) <= 3)
    ensures Next(s) == SToken([s[0]], KindOf(Cell(0, s[0]))) && (Cell(0, s[0]) == -1 ==> Next(s).kind == Unknown)
  {
    hide Cell;
  }

  /** Where the scan of a word, an operator or a number ends. */
  function LongEnd(s: Bytes, hold: nat, state: int): (end: nat)
    requires hold < |s|
    ensures hold < end <= |s|
  {
    var point := hold + 1 + Span(state, s[hold + 1..]);
    if state == 2 && point + 1 < |s| && s[point] == 46 && IsDigit(s[point + 1]) then point + 1 + Span(2, s[point + 1..])
    else point
  }

  lemma LongToken(s: Bytes, hold: nat, state: int)
    requires hold < |s| && 1 <= state <= 3 && Cell(0, s[hold]) == state
    ensures Next(s[hold..]) == SToken(s[hold..LongEnd(s, hold, state)], KindOf(state))
  {
    hide Cell, Span, KindOf;
    var rest := s[hold..];
    assert rest[1..] == s[hold + 1..];
    var point := hold + 1 + Span(state, s[hold + 1..]);
    assert point + 1 <= |s| ==> rest[point + 1 - hold..] == s[point + 1..];
    assert rest[..LongEnd(s, hold, state) - hold] == s[hold..LongEnd(s, hold, state)];
  }

  lemma StartStates(c: int)
    requires 0 < c < 256
    ensures Cell(0, c) == -1 || 1 <= Cell(0, c) <= 7
  {
  }

  lemma DigitState(c: int)
    requires 0 < c < 256
    ensures Cell(2, c) == 2 <==> IsDigit(c)
  {
  }
}
