/** The postfix machine: two stacks, and what a condition means for a row. */
module WhereEval {
  import opened Ordering
  import opened Codec
  import opened Streams
  import opened TableImage
  import opened QueryPaths
  import opened RecordLists
  import opened WhereTokens

  /** The fields by name and the stored rows. */
  datatype Relational = Relational(columns: map<Key, nat>, rows: seq<Row>)

  ghost predicate Fits(d: Relational) {
    forall i, name :: 0 <= i < |d.rows| && name in d.columns ==> d.columns[name] < |d.rows[i]|
  }

  /** What one comparison selects. */
  ghost function Selected(d: Relational, field: Key, c: Comparison, value: Key): Result<seq<nat>> {
    if field !in d.columns then Err(InvalidArgument) else Ok(Matching(ColumnIndex(d.rows, d.columns[field]), c, value))
  }

  // ----- the machine

  datatype Machine = Machine(strings: seq<Key>, lists: seq<seq<nat>>)

  function Combine(l: Connective, first: seq<nat>, second: seq<nat>): seq<nat> {
    if l.And? then Intersection(first, second) else Union(first, second)
  }

  ghost function Turn(d: Relational, m: Machine, t: Token): Result<Machine> {
    var s, k := |m.strings|, |m.lists|;
    match t
    case Text(text) => Ok(m.(strings := m.strings + [text]))
    case Relation(c) =>
      if s < 2 then Err(InvalidArgument)
      else
        var list := Selected(d, m.strings[s - 2], c, m.strings[s - 1]);
        if list.Err? then Err(list.error) else Ok(Machine(m.strings[..s - 2], m.lists + [list.value]))
    case Logical(l) =>
      if k < 2 then Err(InvalidArgument)
      else Ok(m.(lists := m.lists[..k - 2] + [Combine(l, m.lists[k - 1], m.lists[k - 2])]))
    case LeftParen => Ok(m)
    case RightParen => Ok(m)
  }

  ghost function TurnAll(d: Relational, m: Result<Machine>, tokens: seq<Token>): Result<Machine>
    decreases |tokens|
  {
    if tokens == [] || m.Err? then m else TurnAll(d, Turn(d, m.value, tokens[0]), tokens[1..])
  }

  ghost function Verdict(m: Result<Machine>): Result<seq<nat>> {
    if m.Err? then Err(m.error)
    else if m.value.strings != [] || |m.value.lists| != 1 then Err(InvalidArgument)
    else Ok(m.value.lists[0])
  }

  // ----- meaning

  ghost predicate Known(d: Relational, e: Condition) {
    match e
    case Atom(field, _, _) => field in d.columns
    case Group(inner) => Known(d, inner)
    case Both(left, right) => Known(d, left) && Known(d, right)
    case Either(left, right) => Known(d, left) && Known(d, right)
  }

  /** Direct evaluation of a condition on one row. */
  ghost predicate Meets(d: Relational, e: Condition, r: nat)
    requires Fits(d) && Known(d, e) && r < |d.rows|
  {
    match e
    case Atom(field, c, value) => Satisfies(c, d.rows[r][d.columns[field]], value)
    case Group(inner) => Meets(d, inner, r)
    case Both(left, right) => Meets(d, left, r) && Meets(d, right, r)
    case Either(left, right) => Meets(d, left, r) || Meets(d, right, r)
  }

  /** The list the machine leaves for a condition. */
  ghost function ValueOf(d: Relational, e: Condition): seq<nat>
    requires Known(d, e)
  {
    match e
    case Atom(field, c, value) => Matching(ColumnIndex(d.rows, d.columns[field]), c, value)
    case Group(inner) => ValueOf(d, inner)
    case Both(left, right) => Combine(And, ValueOf(d, right), ValueOf(d, left))
    case Either(left, right) => Combine(Or, ValueOf(d, right), ValueOf(d, left))
  }

  lemma {:induction false} TurnAllSplit(d: Relational, m: Result<Machine>, a: seq<Token>, b: seq<Token>)
    ensures TurnAll(d, m, a + b) == TurnAll(d, TurnAll(d, m, a), b)
    decreases |a|
  {
    hide Turn;
    if a == [] {
      assert a + b == b;
    } else if m.Ok? {
      assert (a + b)[1..] == a[1..] + b;
      TurnAllSplit(d, Turn(d, m.value, a[0]), a[1..], b);
    }
  }

  lemma TurnOne(d: Relational, m: Machine, t: Token)
    ensures TurnAll(d, Ok(m), [t]) == Turn(d, m, t)
  {
    assert [t][1..] == [];
  }

  /** Running the postfix form of a condition pushes its list, or stops with
      the error of an unknown field. */
  lemma {:induction false} RunsPostfix(d: Relational, e: Condition, m: Machine)
    ensures TurnAll(d, Ok(m), PostfixOf(e)) ==
            if Known(d, e) then Ok(m.(lists := m.lists + [ValueOf(d, e)])) else Err(InvalidArgument)
  {
    hide Turn, TurnAll, Combine;
    match e {
      case Atom(field, c, value) => RunsAtom(d, field, c, value, m);
      case Group(inner) => RunsPostfix(d, inner, m);
      case Both(left, right) =>
        RunsPostfix(d, left, m);
        if Known(d, left) { RunsPostfix(d, right, m.(lists := m.lists + [ValueOf(d, left)])); }
        RunsConnective(d, left, right, And, m);
      case Either(left, right) =>
        RunsPostfix(d, left, m);
        if Known(d, left) { RunsPostfix(d, right, m.(lists := m.lists + [ValueOf(d, left)])); }
        RunsConnective(d, left, right, Or, m);
    }
  }

  lemma RunsAtom(d: Relational, field: Key, c: Comparison, value: Key, m: Machine)
    ensures TurnAll(d, Ok(m), [Text(field), Text(value), Relation(c)]) ==
            if field in d.columns then
              Ok(m.(lists := m.lists + [Matching(ColumnIndex(d.rows, d.columns[field]), c, value)]))
            else Err(InvalidArgument)
  {
    hide Matching, ColumnIndex;
    var f, v, r := Text(field), Text(value), Relation(c);
    assert [f, v, r] == [f] + ([v] + [r]);
    TurnAllSplit(d, Ok(m), [f], [v] + [r]);
    TurnOne(d, m, f);
    var m1 := m.(strings := m.strings + [field]);
    TurnAllSplit(d, Ok(m1), [v], [r]);
    TurnOne(d, m1, v);
    var m2 := m.(strings := m.strings + [field] + [value]);
    TurnOne(d, m2, r);
    assert m2.strings[..|m2.strings| - 2] == m.strings;
  }

  lemma ErrStays(d: Relational, error: Error, tokens: seq<Token>)
    ensures TurnAll(d, Err(error), tokens) == Err(error)
  {
  }

  lemma RunsConnective(d: Relational, left: Condition, right: Condition, l: Connective, m: Machine)
    requires TurnAll(d, Ok(m), PostfixOf(left)) ==
               if Known(d, left) then Ok(m.(lists := m.lists + [ValueOf(d, left)])) else Err(InvalidArgument)
    requires Known(d, left) ==>
      TurnAll(d, Ok(m.(lists := m.lists + [ValueOf(d, left)])), PostfixOf(right)) ==
      if Known(d, right) then Ok(m.(lists := m.lists + [ValueOf(d, left)] + [ValueOf(d, right)]))
      else Err(InvalidArgument)
    ensures TurnAll(d, Ok(m), PostfixOf(left) + PostfixOf(right) + [Logical(l)]) ==
            if Known(d, left) && Known(d, right) then
              Ok(m.(lists := m.lists + [Combine(l, ValueOf(d, right), ValueOf(d, left))]))
            else Err(InvalidArgument)
  {
    hide PostfixOf, ValueOf, Known, Combine, TurnAll, Turn;
    var a, b, t := PostfixOf(left), PostfixOf(right), Logical(l);
    TurnAllSplit(d, Ok(m), a + b, [t]);
    TurnAllSplit(d, Ok(m), a, b);
    ErrStays(d, InvalidArgument, b);
    ErrStays(d, InvalidArgument, [t]);
    if Known(d, left) && Known(d, right) {
      TurnConnective(d, m, ValueOf(d, left), ValueOf(d, right), l);
    }
  }

  lemma TurnConnective(d: Relational, m: Machine, second: seq<nat>, first: seq<nat>, l: Connective)
    ensures TurnAll(d, Ok(m.(lists := m.lists + [second] + [first])), [Logical(l)]) ==
              Ok(m.(lists := m.lists + [Combine(l, first, second)]))
  {
    hide Combine, TurnAll;
    var m2 := m.(lists := m.lists + [second] + [first]);
    TurnOne(d, m2, Logical(l));
    assert m2.lists[..|m2.lists| - 2] == m.lists;
  }

  // ----- the list is the set of rows that meet the condition

  lemma {:induction false} DistinctRecords(entries: seq<Entry>, c: Comparison, value: Key)
    requires forall i, j :: 0 <= i < j < |entries| ==> entries[i].record != entries[j].record
    ensures NoDuplicates(Matching(entries, c, value))
    ensures forall r :: r in Matching(entries, c, value) ==> exists i :: 0 <= i < |entries| && entries[i].record == r
  {
    hide Satisfies;
    if entries != [] {
      var n := |entries| - 1;
      var rest := Matching(entries[..n], c, value);
      DistinctRecords(entries[..n], c, value);
      forall r | r in rest ensures r != entries[n].record {
        var i :| 0 <= i < n && entries[..n][i].record == r;
        assert entries[i].record != entries[n].record;
      }
      forall i | 0 <= i < |rest| ensures rest[i] != entries[n].record { assert rest[i] in rest; }
      forall r | r in Matching(entries, c, value) ensures exists i :: 0 <= i < |entries| && entries[i].record == r {
        if r != entries[n].record {
          assert r in Matching(entries[..n], c, value);
          var i :| 0 <= i < n && entries[..n][i].record == r;
          assert entries[i].record == r;
        }
      }
    }
  }

  lemma ColumnRecordsDistinct(rows: seq<Row>, f: nat)
    ensures forall i, j :: 0 <= i < j < |ColumnIndex(rows, f)| ==>
              ColumnIndex(rows, f)[i].record != ColumnIndex(rows, f)[j].record
  {
    hide ColumnIndex, Less;
    LessIsStrictTotalOrder();
    var x := ColumnIndex(rows, f);
    ColumnIndexSorted(rows, f);
    forall i, j | 0 <= i < j < |x| ensures x[i].record != x[j].record {
      assert x[i] in x && x[j] in x;
      assert x[i] in Column(rows, f) && x[j] in Column(rows, f);
      var a :| 0 <= a < |rows| && Column(rows, f)[a] == x[i];
      var b :| 0 <= b < |rows| && Column(rows, f)[b] == x[j];
      assert Less(x[i], x[j]);
    }
  }

  lemma StrictDistinct(s: seq<nat>)
    requires Strict(s)
    ensures NoDuplicates(s)
  {
  }

  lemma {:induction false} ValueDistinct(d: Relational, e: Condition)
    requires Known(d, e)
    ensures NoDuplicates(ValueOf(d, e))
  {
    hide Matching, ColumnIndex, Intersection, Union, Strict, NoDuplicates;
    match e {
      case Atom(field, c, value) =>
        ColumnRecordsDistinct(d.rows, d.columns[field]);
        DistinctRecords(ColumnIndex(d.rows, d.columns[field]), c, value);
      case Group(inner) => ValueDistinct(d, inner);
      case Both(left, right) =>
        ValueDistinct(d, left);
        ValueDistinct(d, right);
        IntersectionIs(ValueOf(d, right), ValueOf(d, left));
        StrictDistinct(ValueOf(d, e));
      case Either(left, right) =>
        UnionIs(ValueOf(d, right), ValueOf(d, left));
        StrictDistinct(ValueOf(d, e));
    }
  }

  /** A row is in the list exactly if it meets the condition. */
  lemma {:induction false} ValueMembers(d: Relational, e: Condition, r: nat)
    requires Fits(d) && Known(d, e)
    ensures r in ValueOf(d, e) <==> r < |d.rows| && Meets(d, e, r)
  {
    hide Matching, ColumnIndex, Intersection, Union, Strict, NoDuplicates, Satisfies, Fits;
    match e {
      case Atom(field, c, value) => AtomMembers(d, field, c, value, r);
      case Group(inner) => ValueMembers(d, inner, r);
      case Both(left, right) =>
        ValueMembers(d, left, r);
        ValueMembers(d, right, r);
        IntersectionIs(ValueOf(d, right), ValueOf(d, left));
      case Either(left, right) =>
        ValueMembers(d, left, r);
        ValueMembers(d, right, r);
        UnionIs(ValueOf(d, right), ValueOf(d, left));
    }
  }

  lemma AtomMembers(d: Relational, field: Key, c: Comparison, value: Key, r: nat)
    requires Fits(d) && field in d.columns
    ensures r in Matching(ColumnIndex(d.rows, d.columns[field]), c, value)
       <==> r < |d.rows| && Satisfies(c, d.rows[r][d.columns[field]], value)
  {
    hide Matching, ColumnIndex, Satisfies;
    MatchingIsFilter(d.rows, d.columns[field], c, value, r);
  }

  // ----- from words to records

  function TokensOf(words: seq<Key>): (tokens: seq<Token>)
    ensures |tokens| == |words|
  {
    seq(|words|, i requires 0 <= i < |words| => TokenOf(words[i]))
  }

  function WordsOf(tokens: seq<Token>): (words: seq<Key>)
    ensures |words| == |tokens|
  {
    seq(|tokens|, i requires 0 <= i < |tokens| => WordOf(tokens[i]))
  }

  ghost function AllRecords(n: nat): seq<nat> { seq(n, i requires 0 <= i < n => i) }

  /** What `select` with a condition list selects. */
  ghost function Where(d: Relational, words: seq<Key>): Result<seq<nat>> {
    var postfix := Postfix(FeedAll(Running([], []), TokensOf(words)));
    if postfix.None? then Err(InvalidArgument)
    else if postfix.value == [] then Ok(AllRecords(|d.rows|))
    else Verdict(TurnAll(d, Ok(Machine([], [])), postfix.value))
  }

  /** Operands that are not mistaken for an operator. */
  predicate Plain(e: Condition) {
    match e
    case Atom(field, _, value) => !Reserved(field) && !Reserved(value)
    case Group(inner) => Plain(inner)
    case Both(left, right) => Plain(left) && Plain(right)
    case Either(left, right) => Plain(left) && Plain(right)
  }

  lemma TokensSplit(a: seq<Token>, b: seq<Token>)
    ensures TokensOf(WordsOf(a + b)) == TokensOf(WordsOf(a)) + TokensOf(WordsOf(b))
  {
    hide TokenOf, WordOf;
  }

  lemma TokensOne(t: Token)
    ensures TokensOf(WordsOf([t])) == [t] <==> !(t.Text? && Reserved(t.text))
    ensures |TokensOf(WordsOf([t]))| == 1
  {
    hide TokenOf, WordOf, Reserved;
    TokenOfWord(t);
    assert TokensOf(WordsOf([t])) == [TokenOf(WordOf(t))];
  }

  lemma SameParts(a: seq<Token>, b: seq<Token>, a': seq<Token>, b': seq<Token>)
    requires |a| == |a'|
    ensures a + b == a' + b' <==> a == a' && b == b'
  {
    if a + b == a' + b' {
      assert a == (a + b)[..|a|] && a' == (a' + b')[..|a|];
      assert b == (a + b)[|a|..] && b' == (a' + b')[|a|..];
    }
  }

  /** The words of two pieces read back exactly if both pieces do. */
  lemma ReadsBackSplit(a: seq<Token>, b: seq<Token>)
    ensures ReadsBack(a + b) <==> ReadsBack(a) && ReadsBack(b)
  {
    hide TokensOf, WordsOf;
    TokensSplit(a, b);
    SameParts(TokensOf(WordsOf(a)), TokensOf(WordsOf(b)), a, b);
  }

  predicate ReadsBack(tokens: seq<Token>) { TokensOf(WordsOf(tokens)) == tokens }

  lemma ReadsBackOne(t: Token)
    ensures ReadsBack([t]) <==> !(t.Text? && Reserved(t.text))
  {
    TokensOne(t);
  }

  /** The token objects stand for the condition exactly if no operand is a
      reserved word. */
  lemma {:induction false} PlainReadsBack(e: Condition)
    ensures ReadsBack(Infix(e)) <==> Plain(e)
  {
    hide ReadsBack, Reserved;
    match e {
      case Atom(field, c, value) =>
        var f, r, v := Text(field), Relation(c), Text(value);
        assert [f, r, v] == [f] + ([r] + [v]);
        ReadsBackSplit([f], [r] + [v]);
        ReadsBackSplit([r], [v]);
        ReadsBackOne(f);
        ReadsBackOne(r);
        ReadsBackOne(v);
      case Group(inner) =>
        ReadsBackSplit([LeftParen] + Infix(inner), [RightParen]);
        ReadsBackSplit([LeftParen], Infix(inner));
        ReadsBackOne(LeftParen);
        ReadsBackOne(RightParen);
        PlainReadsBack(inner);
      case Both(left, right) =>
        ReadsBackSplit(Infix(left), [Logical(And)] + Infix(right));
        ReadsBackSplit([Logical(And)], Infix(right));
        ReadsBackOne(Logical(And));
        PlainReadsBack(left);
        PlainReadsBack(right);
      case Either(left, right) =>
        ReadsBackSplit(Infix(left), [Logical(Or)] + Infix(right));
        ReadsBackSplit([Logical(Or)], Infix(right));
        ReadsBackOne(Logical(Or));
        PlainReadsBack(left);
        PlainReadsBack(right);
    }
  }

  lemma PostfixNotEmpty(e: Condition)
    ensures PostfixOf(e) != []
  {
  }

  lemma PlainMeansCondition(d: Relational, e: Condition)
    requires Fits(d) && Canonical(e) && Plain(e)
    ensures var w := Where(d, WordsOf(Infix(e)));
      if Known(d, e) then
        && w.Ok? && NoDuplicates(w.value)
        && forall r: nat :: r in w.value <==> r < |d.rows| && Meets(d, e, r)
      else w == Err(InvalidArgument)
  {
    hide FeedAll, Postfix, PostfixOf, Infix, Turn, TurnAll, ValueOf, NoDuplicates, Meets, Plain, TokensOf, WordsOf,
      Known, Canonical;
    PlainReadsBack(e);
    YieldsPostfix(e);
    PostfixNotEmpty(e);
    RunsPostfix(d, e, Machine([], []));
    if Known(d, e) {
      assert [] + [ValueOf(d, e)] == [ValueOf(d, e)];
      ValueDistinct(d, e);
      forall r: nat ensures r in ValueOf(d, e) <==> r < |d.rows| && Meets(d, e, r) { ValueMembers(d, e, r); }
    }
  }

  // ----- operands and comparisons balance

  /** What a token does to the string stack. */
  function Weight(t: Token): int {
    match t
    case Text(_) => 1
    case Relation(_) => -2
    case _ => 0
  }

  function Balance(tokens: seq<Token>): int {
    if tokens == [] then 0 else Weight(tokens[0]) + Balance(tokens[1..])
  }

  lemma {:induction false} BalanceSplit(a: seq<Token>, b: seq<Token>)
    ensures Balance(a + b) == Balance(a) + Balance(b)
  {
    hide Weight;
    if a == [] {
      assert a + b == b;
    } else {
      assert (a + b)[1..] == a[1..] + b;
      BalanceSplit(a[1..], b);
    }
  }

  lemma BalanceOne(t: Token)
    ensures Balance([t]) == Weight(t)
  {
    assert [t][1..] == [];
  }

  lemma {:induction false} BalanceReverse(s: seq<Token>)
    ensures Balance(Reverse(s)) == Balance(s)
  {
    hide Weight, Balance;
    if s != [] {
      var n := |s| - 1;
      assert s == s[..n] + [s[n]];
      BalanceReverse(s[..n]);
      BalanceSplit(s[..n], [s[n]]);
      BalanceSplit([s[n]], Reverse(s[..n]));
    }
  }

  ghost function YardBalance(y: Yard): int
    requires y.Running?
  {
    Balance(y.stack) + Balance(y.output)
  }

  /** The yard drops nothing but parens. */
  lemma FeedBalance(y: Yard, t: Token)
    requires y.Running?
    ensures Feed(y, t).Running? ==> YardBalance(Feed(y, t)) == YardBalance(y) + Weight(t)
  {
    hide Precedence, PopCount, ParenCount, Balance, Reverse;
    BalanceOne(t);
    BalanceSplit(y.output, [t]);
    BalanceSplit(y.stack, [t]);
    if t.Logical? {
      PartBalance(y, |y.stack| - PopCount(y.stack, Precedence(t)));
      BalanceSplit(y.stack[..|y.stack| - PopCount(y.stack, Precedence(t))], [t]);
    } else if t == RightParen {
      var n := |y.stack| - ParenCount(y.stack);
      PartBalance(y, n);
      if n > 0 {
        assert y.stack[..n] == y.stack[..n - 1] + [LeftParen];
        BalanceSplit(y.stack[..n - 1], [LeftParen]);
        BalanceOne(LeftParen);
      }
    }
  }

  lemma PartBalance(y: Yard, n: nat)
    requires y.Running? && n <= |y.stack|
    ensures Balance(y.stack[..n]) + Balance(y.output + Reverse(y.stack[n..])) == YardBalance(y)
  {
    hide Balance, Reverse;
    assert y.stack == y.stack[..n] + y.stack[n..];
    BalanceSplit(y.stack[..n], y.stack[n..]);
    BalanceReverse(y.stack[n..]);
    BalanceSplit(y.output, Reverse(y.stack[n..]));
  }

  lemma {:induction false} FeedAllBalance(y: Yard, tokens: seq<Token>)
    requires y.Running?
    ensures FeedAll(y, tokens).Running? ==> YardBalance(FeedAll(y, tokens)) == YardBalance(y) + Balance(tokens)
    decreases |tokens|
  {
    hide Feed, YardBalance, Weight;
    if tokens != [] {
      FeedBalance(y, tokens[0]);
      if Feed(y, tokens[0]).Running? {
        FeedAllBalance(Feed(y, tokens[0]), tokens[1..]);
      } else {
        StaysFailed(tokens[1..]);
      }
    }
  }

  lemma PostfixBalance(tokens: seq<Token>)
    ensures var p := Postfix(FeedAll(Running([], []), tokens)); p.Some? ==> Balance(p.value) == Balance(tokens)
  {
    hide FeedAll, Reverse;
    var y := FeedAll(Running([], []), tokens);
    FeedAllBalance(Running([], []), tokens);
    if y.Running? {
      BalanceReverse(y.stack);
      BalanceSplit(y.output, Reverse(y.stack));
    }
  }

  lemma TurnBalance(d: Relational, m: Machine, t: Token)
    ensures Turn(d, m, t).Ok? ==> |Turn(d, m, t).value.strings| == |m.strings| + Weight(t)
    ensures Turn(d, m, t).Err? ==> Turn(d, m, t).error == InvalidArgument
  {
    hide Matching, ColumnIndex, Combine;
  }

  lemma {:induction false} TurnAllBalance(d: Relational, m: Machine, tokens: seq<Token>)
    ensures var r := TurnAll(d, Ok(m), tokens);
      if r.Ok? then |r.value.strings| == |m.strings| + Balance(tokens) else r.error == InvalidArgument
    decreases |tokens|
  {
    hide Turn, Weight;
    if tokens != [] {
      TurnBalance(d, m, tokens[0]);
      if Turn(d, m, tokens[0]).Ok? { TurnAllBalance(d, Turn(d, m, tokens[0]).value, tokens[1..]); }
    }
  }

  /** For any words: a select succeeds only if there are two operands for each
      comparison, and every failure is the same error. */
  lemma OnlyBalancedSelects(d: Relational, words: seq<Key>)
    ensures if Where(d, words).Ok? then Balance(TokensOf(words)) == 0 else Where(d, words) == Err(InvalidArgument)
  {
    hide TurnAll, FeedAll;
    var postfix := Postfix(FeedAll(Running([], []), TokensOf(words)));
    PostfixBalance(TokensOf(words));
    if postfix.Some? { TurnAllBalance(d, Machine([], []), postfix.value); }
  }

  // ----- reserved operands

  function WordsBalance(tokens: seq<Token>): int { Balance(TokensOf(WordsOf(tokens))) }

  lemma WordsBalanceSplit(a: seq<Token>, b: seq<Token>)
    ensures WordsBalance(a + b) == WordsBalance(a) + WordsBalance(b)
  {
    hide TokensOf, WordsOf, Balance;
    TokensSplit(a, b);
    BalanceSplit(TokensOf(WordsOf(a)), TokensOf(WordsOf(b)));
  }

  lemma WordsBalanceOne(t: Token)
    ensures WordsBalance([t]) == Weight(TokenOf(WordOf(t)))
    ensures t.Text? ==> if Reserved(t.text) then WordsBalance([t]) <= 0 else WordsBalance([t]) == 1
    ensures !t.Text? ==> WordsBalance([t]) == Weight(t)
  {
    hide Balance, TokenOf, Reserved;
    assert TokensOf(WordsOf([t])) == [TokenOf(WordOf(t))];
    BalanceOne(TokenOf(WordOf(t)));
    TokenOfWord(t);
    if t.Text? { ReservedWeight(t.text); }
  }

  lemma ReservedWeight(w: Key)
    ensures if Reserved(w) then Weight(TokenOf(w)) <= 0 else Weight(TokenOf(w)) == 1
  {
  }

  /** The words of a condition lack operands exactly if some are reserved. */
  lemma {:induction false} PlainBalance(e: Condition)
    ensures if Plain(e) then WordsBalance(Infix(e)) == 0 else WordsBalance(Infix(e)) < 0
  {
    hide WordsBalance, Reserved;
    match e {
      case Atom(field, c, value) =>
        var f, r, v := Text(field), Relation(c), Text(value);
        assert [f, r, v] == [f] + ([r] + [v]);
        WordsBalanceSplit([f], [r] + [v]);
        WordsBalanceSplit([r], [v]);
        WordsBalanceOne(f);
        WordsBalanceOne(r);
        WordsBalanceOne(v);
      case Group(inner) =>
        WordsBalanceSplit([LeftParen] + Infix(inner), [RightParen]);
        WordsBalanceSplit([LeftParen], Infix(inner));
        WordsBalanceOne(LeftParen);
        WordsBalanceOne(RightParen);
        PlainBalance(inner);
      case Both(left, right) =>
        JoinBalance(left, right, And);
        PlainBalance(left);
        PlainBalance(right);
      case Either(left, right) =>
        JoinBalance(left, right, Or);
        PlainBalance(left);
        PlainBalance(right);
    }
  }

  lemma JoinBalance(left: Condition, right: Condition, l: Connective)
    ensures WordsBalance(Infix(left) + ([Logical(l)] + Infix(right))) ==
              WordsBalance(Infix(left)) + WordsBalance(Infix(right))
  {
    hide WordsBalance, Infix;
    WordsBalanceSplit(Infix(left), [Logical(l)] + Infix(right));
    WordsBalanceSplit([Logical(l)], Infix(right));
    WordsBalanceOne(Logical(l));
  }

  /** A reserved word as operand is always refused, never silently misread. */
  lemma ReservedIsRefused(d: Relational, e: Condition)
    requires !Plain(e)
    ensures Where(d, WordsOf(Infix(e))) == Err(InvalidArgument)
  {
    hide Balance, TokensOf, WordsOf, Infix, Plain, Where;
    PlainBalance(e);
    OnlyBalancedSelects(d, WordsOf(Infix(e)));
  }

  /** Compilation preserves meaning: the words of a condition select exactly if
      no operand is reserved and every field is known, and then, without
      duplicates, exactly the rows that meet it. */
  lemma WhereMeansCondition(d: Relational, e: Condition)
    requires Fits(d) && Canonical(e)
    ensures var w := Where(d, WordsOf(Infix(e)));
      if Plain(e) && Known(d, e) then
        && w.Ok? && NoDuplicates(w.value)
        && forall r: nat :: r in w.value <==> r < |d.rows| && Meets(d, e, r)
      else w == Err(InvalidArgument)
  {
    hide FeedAll, Postfix, PostfixOf, Infix, Turn, TurnAll, ValueOf, NoDuplicates, Meets, Plain, TokensOf, WordsOf,
      Known, Canonical, Where;
    if Plain(e) { PlainMeansCondition(d, e); } else { ReservedIsRefused(d, e); }
  }

  ghost predicate InRange(lists: seq<seq<nat>>, n: nat) { forall i, r :: 0 <= i < |lists| && r in lists[i] ==> r < n }

  lemma TurnInRange(d: Relational, m: Machine, t: Token)
    requires Fits(d) && InRange(m.lists, |d.rows|)
    ensures Turn(d, m, t).Ok? ==> InRange(Turn(d, m, t).value.lists, |d.rows|)
  {
    hide Matching, ColumnIndex, Satisfies, Intersection, Union, Fits;
    var s, k := |m.strings|, |m.lists|;
    if t.Relation? && s >= 2 && m.strings[s - 2] in d.columns {
      var list := Matching(ColumnIndex(d.rows, d.columns[m.strings[s - 2]]), t.c, m.strings[s - 1]);
      forall r | r in list ensures r < |d.rows| {
        AtomMembers(d, m.strings[s - 2], t.c, m.strings[s - 1], r);
      }
    } else if t.Logical? && k >= 2 {
      IntersectionIs(m.lists[k - 1], m.lists[k - 2]);
      UnionIs(m.lists[k - 1], m.lists[k - 2]);
    }
  }

  lemma {:induction false} TurnAllInRange(d: Relational, m: Machine, tokens: seq<Token>)
    requires Fits(d) && InRange(m.lists, |d.rows|)
    ensures TurnAll(d, Ok(m), tokens).Ok? ==> InRange(TurnAll(d, Ok(m), tokens).value.lists, |d.rows|)
    decreases |tokens|
  {
    hide Turn, InRange, Fits;
    if tokens != [] {
      TurnInRange(d, m, tokens[0]);
      if Turn(d, m, tokens[0]).Ok? { TurnAllInRange(d, Turn(d, m, tokens[0]).value, tokens[1..]); }
    }
  }

  /** Whatever the words are, only numbers of stored rows are selected. */
  lemma WhereInRange(d: Relational, words: seq<Key>)
    requires Fits(d) && Where(d, words).Ok?
    ensures forall r: nat :: r in Where(d, words).value ==> r < |d.rows|
  {
    hide Turn, TurnAll, FeedAll, Postfix, Fits;
    var postfix := Postfix(FeedAll(Running([], []), TokensOf(words)));
    if postfix.Some? { TurnAllInRange(d, Machine([], []), postfix.value); }
  }

  /** Unbalanced parens are refused, whatever else the words are. */
  lemma UnbalancedIsRefused(d: Relational, words: seq<Key>)
    requires !Balanced(TokensOf(words))
    ensures Where(d, words) == Err(InvalidArgument)
  {
    hide Balanced, FeedAll;
    ErrorMeansUnbalanced(TokensOf(words));
  }
}
