/** Condition tokens and the shunting yard: infix to postfix with an operator
    stack. */
module WhereTokens {
  import opened Ordering
  import opened Codec
  import opened QueryPaths

  datatype Connective = And | Or

  datatype Token = Text(text: Key) | Relation(c: Comparison) | Logical(l: Connective) | LeftParen | RightParen

  function Precedence(t: Token): int {
    match t
    case Relation(_) => 4
    case Logical(And) => 2
    case Logical(Or) => 1
    case _ => -1
  }

  // ----- words

  function RelationWord(c: Comparison): Key {
    match c
    case Equal => [61]
    case NotEqual => [33, 61]
    case Less_ => [60]
    case LessEqual => [60, 61]
    case Greater => [62]
    case GreaterEqual => [62, 61]
  }

  const AND_WORD: Key := [97, 110, 100]
  const OR_WORD: Key := [111, 114]
  const LEFT_WORD: Key := [40]
  const RIGHT_WORD: Key := [41]

  function WordOf(t: Token): Key {
    match t
    case Text(text) => text
    case Relation(c) => RelationWord(c)
    case Logical(l) => if l.And? then AND_WORD else OR_WORD
    case LeftParen => LEFT_WORD
    case RightParen => RIGHT_WORD
  }

  /** The words with a meaning of their own. */
  predicate Reserved(w: Key) {
    w in [RelationWord(GreaterEqual), RelationWord(LessEqual), RelationWord(Greater), RelationWord(Less_),
          RelationWord(Equal), RelationWord(NotEqual),
          LEFT_WORD, RIGHT_WORD, AND_WORD, OR_WORD]
  }

  function TokenOf(w: Key): Token {
    if w == RelationWord(GreaterEqual) then Relation(GreaterEqual)
    else if w == RelationWord(LessEqual) then Relation(LessEqual)
    else if w == RelationWord(Greater) then Relation(Greater)
    else if w == RelationWord(Less_) then Relation(Less_)
    else if w == RelationWord(Equal) then Relation(Equal)
    else if w == RelationWord(NotEqual) then Relation(NotEqual)
    else if w == LEFT_WORD then LeftParen
    else if w == RIGHT_WORD then RightParen
    else if w == AND_WORD then Logical(And)
    else if w == OR_WORD then Logical(Or)
    else Text(w)
  }

  lemma TokenOfWord(t: Token)
    ensures TokenOf(WordOf(t)) == t <==> !(t.Text? && Reserved(t.text))
    ensures WordOf(TokenOf(WordOf(t))) == WordOf(t)
  {
  }

  /** `allocate_tokens_memory`. */
  method AllocateTokens(words: seq<Key>) returns (tokens: seq<Token>)
    ensures |tokens| == |words| && forall i :: 0 <= i < |words| ==> tokens[i] == TokenOf(words[i])
  {
    hide TokenOf;
    tokens := [];
    for i := 0 to |words|
      invariant |tokens| == i && forall j :: 0 <= j < i ==> tokens[j] == TokenOf(words[j])
    {
      tokens := tokens + [TokenOf(words[i])];
    }
  }

  // ----- the operator stack; its top is the last element

  function Reverse<T>(s: seq<T>): (r: seq<T>)
    ensures |r| == |s|
  {
    if s == [] then [] else [s[|s| - 1]] + Reverse(s[..|s| - 1])
  }

  /** Operators above the last open paren with at least this precedence. */
  function PopCount(stack: seq<Token>, p: int): (n: nat)
    ensures n <= |stack|
  {
    if stack == [] then 0
    else
      var top := stack[|stack| - 1];
      if top == LeftParen || Precedence(top) < p then 0 else 1 + PopCount(stack[..|stack| - 1], p)
  }

  /** Everything above the last open paren. */
  function ParenCount(stack: seq<Token>): (n: nat)
    ensures n <= |stack|
    ensures n == |stack| <==> LeftParen !in stack
    ensures n < |stack| ==> stack[|stack| - 1 - n] == LeftParen
    ensures LeftParen !in stack[|stack| - n..]
  {
    if stack == [] || stack[|stack| - 1] == LeftParen then 0 else 1 + ParenCount(stack[..|stack| - 1])
  }

  datatype Yard = Failed | Running(stack: seq<Token>, output: seq<Token>)

  /** One token read. */
  function Feed(y: Yard, t: Token): Yard {
    if y.Failed? then y
    else
      match t
      case Text(_) => y.(output := y.output + [t])
      case Relation(_) => y.(stack := y.stack + [t])
      case LeftParen => y.(stack := y.stack + [t])
      case Logical(_) =>
        var n := |y.stack| - PopCount(y.stack, Precedence(t));
        Running(y.stack[..n] + [t], y.output + Reverse(y.stack[n..]))
      case RightParen =>
        var n := |y.stack| - ParenCount(y.stack);
        if n == 0 then Failed else Running(y.stack[..n - 1], y.output + Reverse(y.stack[n..]))
  }

  function FeedAll(y: Yard, tokens: seq<Token>): Yard
    decreases |tokens|
  {
    if tokens == [] then y else FeedAll(Feed(y, tokens[0]), tokens[1..])
  }

  /** The postfix form, unless a paren is left open. */
  function Postfix(y: Yard): Option<seq<Token>> {
    if y.Failed? || LeftParen in y.stack then None else Some(y.output + Reverse(y.stack))
  }

  /** `shunting_yard`: the error flag and the output queue. */
  method ShuntingYard(tokens: seq<Token>) returns (error: bool, output: seq<Token>)
    ensures var p := Postfix(FeedAll(Running([], []), tokens));
      if p.None? then error && output == [] else !error && output == p.value
  {
    hide Precedence;
    var queue := tokens;
    var stack: seq<Token> := [];
    error, output := false, [];
    while queue != []
      invariant FeedAll(Running(stack, output), queue) == FeedAll(Running([], []), tokens)
      decreases |queue|
    {
      var token := queue[0];
      ghost var y := Running(stack, output);
      queue := queue[1..];
      match token {
        case Text(_) => output := output + [token];
        case LeftParen => stack := stack + [token];
        case Relation(_) => stack := stack + [token];
        case Logical(_) =>
          stack, output := PopOperators(stack, output, Precedence(token));
          stack := stack + [token];
        case RightParen =>
          ghost var n := |stack| - ParenCount(stack);
          stack, output := PopToParen(stack, output);
          if stack == [] {
            StaysFailed(queue);
            return true, [];
          }
          stack := stack[..|stack| - 1];
      }
      assert Feed(y, token) == Running(stack, output);
    }
    ghost var last, done := stack, output;
    while stack != []
      invariant LeftParen in stack <==> LeftParen in last
      invariant LeftParen !in last ==> output + Reverse(stack) == done + Reverse(last)
      decreases |stack|
    {
      var top := stack[|stack| - 1];
      if top == LeftParen { return true, []; }
      assert stack == stack[..|stack| - 1] + [top];
      Reassociate(output, [top], Reverse(stack[..|stack| - 1]));
      output := output + [top];
      stack := stack[..|stack| - 1];
    }
  }

  lemma {:induction false} StaysFailed(tokens: seq<Token>)
    ensures FeedAll(Failed, tokens) == Failed
    decreases |tokens|
  {
    if tokens != [] { StaysFailed(tokens[1..]); }
  }

  /** Pops operators of at least the precedence. */
  method PopOperators(stack0: seq<Token>, output0: seq<Token>, p: int) returns (stack: seq<Token>, output: seq<Token>)
    ensures var n := |stack0| - PopCount(stack0, p); stack == stack0[..n] && output == output0 + Reverse(stack0[n..])
  {
    hide Precedence;
    stack, output := stack0, output0;
    while stack != [] && stack[|stack| - 1] != LeftParen && Precedence(stack[|stack| - 1]) >= p
      invariant stack <= stack0 && output == output0 + Reverse(stack0[|stack|..])
      invariant PopCount(stack0, p) == PopCount(stack, p) + |stack0| - |stack|
      decreases |stack|
    {
      ReverseFront(stack0, |stack| - 1);
      Reassociate(output0, Reverse(stack0[|stack|..]), [stack[|stack| - 1]]);
      output := output + [stack[|stack| - 1]];
      stack := stack[..|stack| - 1];
    }
  }

  /** Pops everything down to an open paren, which stays. */
  method PopToParen(stack0: seq<Token>, output0: seq<Token>) returns (stack: seq<Token>, output: seq<Token>)
    ensures var n := |stack0| - ParenCount(stack0); stack == stack0[..n] && output == output0 + Reverse(stack0[n..])
  {
    stack, output := stack0, output0;
    while stack != [] && stack[|stack| - 1] != LeftParen
      invariant stack <= stack0 && output == output0 + Reverse(stack0[|stack|..])
      invariant ParenCount(stack0) == ParenCount(stack) + |stack0| - |stack|
      decreases |stack|
    {
      ReverseFront(stack0, |stack| - 1);
      Reassociate(output0, Reverse(stack0[|stack|..]), [stack[|stack| - 1]]);
      output := output + [stack[|stack| - 1]];
      stack := stack[..|stack| - 1];
    }
  }

  lemma {:induction false} ReverseSplit<T>(a: seq<T>, b: seq<T>)
    ensures Reverse(a + b) == Reverse(b) + Reverse(a)
    decreases |b|
  {
    if b == [] {
      assert a + b == a;
    } else {
      assert (a + b)[..|a + b| - 1] == a + b[..|b| - 1];
      ReverseSplit(a, b[..|b| - 1]);
    }
  }

  lemma ReverseFront<T>(s: seq<T>, n: nat)
    requires n < |s|
    ensures Reverse(s[n..]) == Reverse(s[n + 1..]) + [s[n]]
  {
    assert s[n..] == [s[n]] + s[n + 1..];
    ReverseSplit([s[n]], s[n + 1..]);
    ReverseOne(s[n]);
  }

  // ----- the error flag

  /** The depth after the tokens, if it never becomes negative. */
  function Depth(tokens: seq<Token>, d: nat): Option<nat>
    decreases |tokens|
  {
    if tokens == [] then Some(d)
    else if tokens[0] == LeftParen then Depth(tokens[1..], d + 1)
    else if tokens[0] == RightParen then if d == 0 then None else Depth(tokens[1..], d - 1)
    else Depth(tokens[1..], d)
  }

  predicate Balanced(tokens: seq<Token>) { Depth(tokens, 0) == Some(0) }

  function OpenParens(stack: seq<Token>): nat {
    if stack == [] then 0 else OpenParens(stack[..|stack| - 1]) + if stack[|stack| - 1] == LeftParen then 1 else 0
  }

  lemma {:induction false} OpenParensSplit(a: seq<Token>, b: seq<Token>)
    ensures OpenParens(a + b) == OpenParens(a) + OpenParens(b)
    decreases |b|
  {
    if b == [] {
      assert a + b == a;
    } else {
      assert (a + b)[..|a + b| - 1] == a + b[..|b| - 1];
      OpenParensSplit(a, b[..|b| - 1]);
    }
  }

  lemma {:induction false} NoOpenParens(s: seq<Token>)
    ensures OpenParens(s) == 0 <==> LeftParen !in s
  {
    if s != [] {
      NoOpenParens(s[..|s| - 1]);
      assert s == s[..|s| - 1] + [s[|s| - 1]];
    }
  }

  lemma {:induction false} PopCountStops(stack: seq<Token>, p: int)
    ensures LeftParen !in stack[|stack| - PopCount(stack, p)..]
  {
    hide Precedence;
    if stack != [] {
      var n := |stack| - 1;
      PopCountStops(stack[..n], p);
      if PopCount(stack, p) > 0 {
        var m := n - PopCount(stack[..n], p);
        assert stack[m..] == stack[..n][m..] + [stack[n]];
      }
    }
  }

  /** One token changes the number of open parens as it should. */
  lemma FeedDepth(y: Yard, t: Token)
    requires y.Running?
    ensures Feed(y, t).Failed? <==> t == RightParen && OpenParens(y.stack) == 0
    ensures Feed(y, t).Running? ==>
      OpenParens(Feed(y, t).stack) ==
        if t == LeftParen then OpenParens(y.stack) + 1
        else if t == RightParen then OpenParens(y.stack) - 1
        else OpenParens(y.stack)
  {
    hide Precedence, PopCount, ParenCount, OpenParens, Reverse;
    var stack := y.stack;
    OpenParensSplit(stack, [t]);
    OneParen(t);
    if t.Logical? {
      var n := |stack| - PopCount(stack, Precedence(t));
      assert stack == stack[..n] + stack[n..];
      OpenParensSplit(stack[..n], stack[n..]);
      PopCountStops(stack, Precedence(t));
      NoOpenParens(stack[n..]);
      OpenParensSplit(stack[..n], [t]);
    } else if t == RightParen {
      var n := |stack| - ParenCount(stack);
      NoOpenParens(stack);
      if n > 0 {
        assert stack == stack[..n - 1] + ([LeftParen] + stack[n..]);
        OpenParensSplit(stack[..n - 1], [LeftParen] + stack[n..]);
        OpenParensSplit([LeftParen], stack[n..]);
        OneParen(LeftParen);
        NoOpenParens(stack[n..]);
      }
    }
  }

  lemma OneParen(t: Token)
    ensures OpenParens([t]) == if t == LeftParen then 1 else 0
  {
  }

  lemma {:induction false} FeedAllDepth(y: Yard, tokens: seq<Token>)
    requires y.Running?
    ensures FeedAll(y, tokens).Running? <==> Depth(tokens, OpenParens(y.stack)).Some?
    ensures FeedAll(y, tokens).Running? ==>
              Depth(tokens, OpenParens(y.stack)) == Some(OpenParens(FeedAll(y, tokens).stack))
    decreases |tokens|
  {
    hide Feed, OpenParens;
    if tokens != [] {
      FeedDepth(y, tokens[0]);
      if Feed(y, tokens[0]).Running? {
        FeedAllDepth(Feed(y, tokens[0]), tokens[1..]);
      } else {
        StaysFailed(tokens[1..]);
      }
    }
  }

  /** For every token list: the error flag is set exactly if the parens do not
      balance. */
  lemma ErrorMeansUnbalanced(tokens: seq<Token>)
    ensures Postfix(FeedAll(Running([], []), tokens)).None? <==> !Balanced(tokens)
  {
    var y := FeedAll(Running([], []), tokens);
    FeedAllDepth(Running([], []), tokens);
    if y.Running? { NoOpenParens(y.stack); }
  }

  // ----- conditions

  /** Conditions as they are written, parens included. */
  datatype Condition =
    | Atom(field: Key, c: Comparison, value: Key)
    | Group(inner: Condition)
    | Both(left: Condition, right: Condition)
    | Either(left: Condition, right: Condition)

  /** The parse the text stands for: `and` above `or`, both to the left. */
  predicate Canonical(e: Condition) {
    match e
    case Atom(_, _, _) => true
    case Group(inner) => Canonical(inner)
    case Both(left, right) => Canonical(left) && Canonical(right) && !left.Either? && (right.Atom? || right.Group?)
    case Either(left, right) => Canonical(left) && Canonical(right) && !right.Either?
  }

  function Infix(e: Condition): seq<Token> {
    match e
    case Atom(field, c, value) => [Text(field), Relation(c), Text(value)]
    case Group(inner) => [LeftParen] + Infix(inner) + [RightParen]
    case Both(left, right) => Infix(left) + ([Logical(And)] + Infix(right))
    case Either(left, right) => Infix(left) + ([Logical(Or)] + Infix(right))
  }

  function PostfixOf(e: Condition): seq<Token> {
    match e
    case Atom(field, c, value) => [Text(field), Text(value), Relation(c)]
    case Group(inner) => PostfixOf(inner)
    case Both(left, right) => PostfixOf(left) + PostfixOf(right) + [Logical(And)]
    case Either(left, right) => PostfixOf(left) + PostfixOf(right) + [Logical(Or)]
  }

  /** Operators still on the stack after a condition was read. */
  function Pending(e: Condition): seq<Token> {
    match e
    case Atom(_, c, _) => [Relation(c)]
    case Group(_) => []
    case Both(_, right) => [Logical(And)] + Pending(right)
    case Either(_, right) => [Logical(Or)] + Pending(right)
  }

  /** Output it has produced by then. */
  function Written(e: Condition): seq<Token> {
    match e
    case Atom(field, _, value) => [Text(field), Text(value)]
    case Group(inner) => PostfixOf(inner)
    case Both(left, right) => PostfixOf(left) + Written(right)
    case Either(left, right) => PostfixOf(left) + Written(right)
  }

  lemma {:induction false} WrittenAndPending(e: Condition)
    ensures Written(e) + Reverse(Pending(e)) == PostfixOf(e)
  {
    hide Reverse;
    match e {
      case Atom(_, c, _) => ReverseOne(Relation(c));
      case Group(_) => assert Reverse<Token>([]) == [];
      case Both(left, right) =>
        WrittenAndPending(right);
        PendingAfter(left, right, Logical(And));
      case Either(left, right) =>
        WrittenAndPending(right);
        PendingAfter(left, right, Logical(Or));
    }
  }

  lemma ReverseOne<T>(x: T)
    ensures Reverse([x]) == [x]
  {
  }

  lemma PendingAfter(left: Condition, right: Condition, t: Token)
    requires Written(right) + Reverse(Pending(right)) == PostfixOf(right)
    ensures PostfixOf(left) + Written(right) + Reverse([t] + Pending(right)) == PostfixOf(left) + PostfixOf(right) + [t]
  {
    hide Reverse, Written, Pending, PostfixOf;
    ReverseSplit([t], Pending(right));
    ReverseOne(t);
    var a, b, c := PostfixOf(left), Written(right), Reverse(Pending(right));
    assert a + b + (c + [t]) == a + (b + c) + [t];
  }

  /** The least precedence a condition leaves pending. */
  function Floor(e: Condition): int { if e.Either? then 1 else 2 }

  lemma {:induction false} PendingPrecedence(e: Condition)
    requires Canonical(e)
    ensures forall i :: 0 <= i < |Pending(e)| ==> Pending(e)[i] != LeftParen && Precedence(Pending(e)[i]) >= Floor(e)
  {
    match e {
      case Atom(_, _, _) =>
      case Group(_) =>
      case Both(left, right) => PendingPrecedence(right);
      case Either(left, right) => PendingPrecedence(right);
    }
  }

  /** Nothing on the stack below would be popped at this precedence. */
  predicate Shielded(stack: seq<Token>, p: int) {
    stack == [] || stack[|stack| - 1] == LeftParen || Precedence(stack[|stack| - 1]) < p
  }

  lemma {:induction false} PopsPending(stack: seq<Token>, pending: seq<Token>, p: int)
    requires Shielded(stack, p)
    requires forall i :: 0 <= i < |pending| ==> pending[i] != LeftParen && Precedence(pending[i]) >= p
    ensures PopCount(stack + pending, p) == |pending|
    decreases |pending|
  {
    hide Precedence;
    if pending == [] {
      assert stack + pending == stack;
    } else {
      var n := |pending| - 1;
      assert (stack + pending)[..|stack + pending| - 1] == stack + pending[..n];
      PopsPending(stack, pending[..n], p);
    }
  }

  lemma {:induction false} ParenPopsPending(stack: seq<Token>, pending: seq<Token>)
    requires LeftParen !in pending
    ensures ParenCount(stack + [LeftParen] + pending) == |pending|
    decreases |pending|
  {
    if pending == [] {
      assert stack + [LeftParen] + pending == stack + [LeftParen];
    } else {
      var n := |pending| - 1;
      var all := stack + [LeftParen] + pending;
      assert all[..|all| - 1] == stack + [LeftParen] + pending[..n];
      ParenPopsPending(stack, pending[..n]);
    }
  }

  lemma {:induction false} FeedAllSplit(y: Yard, a: seq<Token>, b: seq<Token>)
    ensures FeedAll(y, a + b) == FeedAll(FeedAll(y, a), b)
    decreases |a|
  {
    hide Feed;
    if a == [] {
      assert a + b == b;
    } else {
      assert (a + b)[1..] == a[1..] + b;
      FeedAllSplit(Feed(y, a[0]), a[1..], b);
    }
  }

  lemma FeedOne(y: Yard, t: Token)
    ensures FeedAll(y, [t]) == Feed(y, t)
  {
    assert [t][1..] == [];
  }

  /** A connective pops exactly what its left operand left pending. */
  lemma FeedConnective(stack: seq<Token>, output: seq<Token>, left: Condition, l: Connective)
    requires Canonical(left) && Shielded(stack, Precedence(Logical(l))) && Floor(left) >= Precedence(Logical(l))
    ensures Feed(Running(stack + Pending(left), output + Written(left)), Logical(l)) ==
              Running(stack + [Logical(l)], output + PostfixOf(left))
  {
    hide PopCount, Reverse, Written, Pending, PostfixOf;
    var all, p := stack + Pending(left), Precedence(Logical(l));
    PendingPrecedence(left);
    PopsPending(stack, Pending(left), p);
    assert all[..|stack|] == stack && all[|stack|..] == Pending(left);
    WrittenAndPending(left);
    Reassociate(output, Written(left), Reverse(Pending(left)));
  }

  /** Reading a condition leaves its operators pending above the old stack. */
  lemma {:induction false} YardReads(e: Condition, stack: seq<Token>, output: seq<Token>)
    requires Canonical(e) && (e.Both? ==> Shielded(stack, 2)) && (e.Either? ==> Shielded(stack, 1))
    ensures FeedAll(Running(stack, output), Infix(e)) == Running(stack + Pending(e), output + Written(e))
    decreases e, 0
  {
    hide Feed, FeedAll, Reverse, PopCount, ParenCount, PostfixOf;
    match e {
      case Atom(field, c, value) => ReadAtom(field, c, value, stack, output);
      case Group(inner) => ReadGroup(inner, stack, output);
      case Both(left, right) =>
        YardReads(left, stack, output);
        FeedConnective(stack, output, left, And);
        YardReads(right, stack + [Logical(And)], output + PostfixOf(left));
        JoinReads(left, right, And, stack, output);
      case Either(left, right) =>
        if left.Both? { LooserShield(stack); }
        YardReads(left, stack, output);
        FeedConnective(stack, output, left, Or);
        YardReads(right, stack + [Logical(Or)], output + PostfixOf(left));
        JoinReads(left, right, Or, stack, output);
    }
  }

  lemma LooserShield(stack: seq<Token>)
    requires Shielded(stack, 1)
    ensures Shielded(stack, 2)
  {
  }

  lemma JoinReads(left: Condition, right: Condition, l: Connective, stack: seq<Token>, output: seq<Token>)
    requires FeedAll(Running(stack, output), Infix(left)) == Running(stack + Pending(left), output + Written(left))
    requires Feed(Running(stack + Pending(left), output + Written(left)), Logical(l)) ==
               Running(stack + [Logical(l)], output + PostfixOf(left))
    requires FeedAll(Running(stack + [Logical(l)], output + PostfixOf(left)), Infix(right))
          == Running(stack + [Logical(l)] + Pending(right), output + PostfixOf(left) + Written(right))
    ensures FeedAll(Running(stack, output), Infix(left) + ([Logical(l)] + Infix(right)))
         == Running(stack + ([Logical(l)] + Pending(right)), output + (PostfixOf(left) + Written(right)))
  {
    hide Feed, FeedAll, Pending, Written, PostfixOf, Infix;
    var y := Running(stack, output);
    FeedAllSplit(y, Infix(left), [Logical(l)] + Infix(right));
    FeedAllSplit(FeedAll(y, Infix(left)), [Logical(l)], Infix(right));
    FeedOne(FeedAll(y, Infix(left)), Logical(l));
    Reassociate(stack, [Logical(l)], Pending(right));
    Reassociate(output, PostfixOf(left), Written(right));
  }

  lemma ReadAtom(field: Key, c: Comparison, value: Key, stack: seq<Token>, output: seq<Token>)
    ensures FeedAll(Running(stack, output), [Text(field), Relation(c), Text(value)])
         == Running(stack + [Relation(c)], output + [Text(field), Text(value)])
  {
    hide Reverse, PopCount, ParenCount;
    var y := Running(stack, output);
    var f, r, v := Text(field), Relation(c), Text(value);
    assert [f, r, v] == [f] + ([r] + [v]);
    FeedAllSplit(y, [f], [r] + [v]);
    FeedOne(y, f);
    FeedAllSplit(Feed(y, f), [r], [v]);
    FeedOne(Feed(y, f), r);
    FeedOne(Feed(Feed(y, f), r), v);
    assert output + [f] + [v] == output + [f, v];
  }

  lemma {:induction false} ReadGroup(inner: Condition, stack: seq<Token>, output: seq<Token>)
    requires Canonical(inner)
    ensures FeedAll(Running(stack, output), [LeftParen] + Infix(inner) + [RightParen]) ==
              Running(stack, output + PostfixOf(inner))
    decreases inner, 1
  {
    hide FeedAll, Reverse, PopCount, ParenCount, PostfixOf, Infix, Pending, Written;
    var y := Running(stack, output);
    var base := stack + [LeftParen];
    Reassociate([LeftParen], Infix(inner), [RightParen]);
    FeedAllSplit(y, [LeftParen], Infix(inner) + [RightParen]);
    FeedOne(y, LeftParen);
    YardReads(inner, base, output);
    FeedAllSplit(Feed(y, LeftParen), Infix(inner), [RightParen]);
    var read := Running(base + Pending(inner), output + Written(inner));
    FeedOne(read, RightParen);
    PendingPrecedence(inner);
    ParenPopsPending(stack, Pending(inner));
    assert read.stack[|base|..] == Pending(inner) && read.stack[..|base| - 1] == stack;
    WrittenAndPending(inner);
    Reassociate(output, Written(inner), Reverse(Pending(inner)));
  }

  /** The shunting yard turns every condition into its postfix form. */
  lemma YieldsPostfix(e: Condition)
    requires Canonical(e)
    ensures Postfix(FeedAll(Running([], []), Infix(e))) == Some(PostfixOf(e))
  {
    hide FeedAll, Reverse, Infix, Pending, Written, PostfixOf;
    YardReads(e, [], []);
    assert [] + Pending(e) == Pending(e) && [] + Written(e) == Written(e);
    PendingPrecedence(e);
    WrittenAndPending(e);
  }
}
