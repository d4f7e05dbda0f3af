/** What the expression parser makes of operators of different classes, and that it reads back what is written out. */
module Precedence {
  import opened Mem
  import opened Ast
  import opened Parser

  /** OR, then AND, then comparisons, then sums, then products; no other token is an operator. */
  function Rank(t: Token): nat {
    match t
    case Star => 5
    case Operator(Arith(Div)) => 5
    case Operator(Arith(Mod)) => 5
    case Operator(Arith(Add)) => 4
    case Operator(Arith(Sub)) => 4
    case Operator(Compare(_)) => 3
    case Operator(And) => 2
    case Operator(Or) => 1
    case _ => 0
  }

  lemma PowerIsRank(a: Token, b: Token)
    ensures Power(a) == 0 <==> Rank(a) == 0
    ensures Power(a) < Power(b) <==> Rank(a) < Rank(b)
    ensures Power(a) <= 11
  {
  }

  /** A binary node's left operand is of the same or a higher class, its right operand of a higher class. */
  ghost predicate Binds(op: Token, l: Tree, r: Tree) {
    Rank(op) > 0 && (l.Node? ==> Rank(l.op) >= Rank(op)) && (r.Node? ==> Rank(r.op) > Rank(op))
  }

  ghost predicate ByRank(t: Tree)
    decreases t
  {
    match t
    case Leaf(tok) => IsAtom(tok)
    case Paren(inner) => ByRank(inner)
    case CallTree(_, args) => ArgsByRank(args)
    case Node(l, op, r) => Binds(op, l, r) && ByRank(l) && ByRank(r)
  }

  ghost predicate ArgsByRank(a: ArgTree)
    decreases a
  {
    match a case Listed(list) => ListByRank(list) case _ => true
  }

  ghost predicate ListByRank(ts: Trees)
    decreases ts
  {
    match ts case One(t) => ByRank(t) case More(t, rest) => ByRank(t) && ListByRank(rest)
  }

  lemma {:induction false} ProperIsByRank(t: Tree)
    ensures Proper(t) <==> ByRank(t)
    decreases t
  {
    hide Power, Rank, IsAtom;
    match t
    case Leaf(_) =>
    case Paren(inner) => ProperIsByRank(inner);
    case CallTree(_, Listed(list)) => ListIsByRank(list);
    case CallTree(_, _) =>
    case Node(l, op, r) =>
      ProperIsByRank(l);
      ProperIsByRank(r);
      BindsIs(l, op, r);
  }

  lemma BindsIs(l: Tree, op: Token, r: Tree)
    ensures Binds(op, l, r) <==> Power(op) > 0 && Tightness(l) >= Power(op) && Tightness(r) > Power(op)
  {
    hide Power, Rank;
    PowerIsRank(op, op);
    if l.Node? {
      PowerIsRank(l.op, op);
    }
    if r.Node? {
      PowerIsRank(op, r.op);
    }
  }

  lemma {:induction false} ListIsByRank(ts: Trees)
    ensures ProperList(ts) <==> ListByRank(ts)
    decreases ts
  {
    match ts
    case One(t) => ProperIsByRank(t);
    case More(t, rest) =>
      ProperIsByRank(t);
      ListIsByRank(rest);
  }

  /** The end of an expression: nothing, or a token that is neither an operator nor rejected. */
  predicate Ends(s: seq<Token>) {
    s == [] || (s[0] != Bad && Rank(s[0]) == 0)
  }

  /**
    The parser returns a tree and the tokens after it exactly when the tree's operators are grouped by
    class and to the left within a class, its tokens are those consumed, and what follows ends it.
   */
  lemma ParsedByRank(s: seq<Token>, t: Tree, rest: seq<Token>)
    ensures Climb(s, 0) == Ok(Parsed(t, rest)) <==> s == Yield(t) + rest && ByRank(t) && Ends(rest) && Follows(t, rest)
  {
    hide Climb, Yield, Proper, ByRank, Follows, Power, Rank;
    ProperIsByRank(t);
    if rest != [] {
      PowerIsRank(rest[0], rest[0]);
    }
    if Climb(s, 0) == Ok(Parsed(t, rest)) {
      ClimbSound(s, 0);
    }
    if s == Yield(t) + rest && ByRank(t) && Ends(rest) && Follows(t, rest) {
      ClimbComplete(t, rest, 0);
    }
  }

  /** Three operands and two operators: to the left unless the second operator is of a higher class. */
  lemma TwoOperators(x: Token, o: Token, y: Token, p: Token, z: Token)
    requires IsAtom(x) && IsAtom(y) && IsAtom(z) && Rank(o) > 0 && Rank(p) > 0
    ensures
      Climb([x, o, y, p, z], 0) ==
        Ok(Parsed(if Rank(p) <= Rank(o) then Node(Node(Leaf(x), o, Leaf(y)), p, Leaf(z)) else Node(Leaf(x), o, Node(Leaf(y), p, Leaf(z))), []))
  {
    hide Climb;
    var t := if Rank(p) <= Rank(o) then Node(Node(Leaf(x), o, Leaf(y)), p, Leaf(z)) else Node(Leaf(x), o, Node(Leaf(y), p, Leaf(z)));
    if Rank(p) <= Rank(o) {
      var l := Node(Leaf(x), o, Leaf(y));
      assert ByRank(l);
      assert Yield(l) == [x] + [o] + [y] && Yield(t) == Yield(l) + [p] + [z];
    } else {
      var r := Node(Leaf(y), p, Leaf(z));
      assert ByRank(r);
      assert Yield(r) == [y] + [p] + [z] && Yield(t) == [x] + [o] + Yield(r);
    }
    assert ByRank(t);
    assert Yield(t) + [] == [x, o, y, p, z];
    ParsedByRank([x, o, y, p, z], t, []);
  }

  /** The operator that an infix token stands for. */
  lemma OperatorTokens(op: BinaryOp)
    ensures OperatorOf(Token.Star) == Arith(Mul)
    ensures OperatorOf(Operator(op)) == op
  {
  }

  // ---- Writing out and reading back ----

  /** Expressions that can be written in tokens: no unary operators, NULL tests or truth literals. */
  predicate Writable(e: Expr)
    decreases e
  {
    match e
    case Literal(l) => !l.True? && !l.False? && !l.OtherLiteral?
    case Column(_) => true
    case Binary(op, l, r) => (op.Arith? || op.Compare? || op.And? || op.Or?) && Writable(l) && Writable(r)
    case Call(_, kind, list) => if kind == List then list.Cons? && AllWritable(list) else (kind == NoArgs || kind == ArgKind.Star) && list == Nil
    case _ => false
  }

  predicate AllWritable(es: Exprs)
    decreases es
  {
    match es case Nil => true case Cons(x, rest) => Writable(x) && AllWritable(rest)
  }

  function LiteralToken(l: Literal): Token {
    match l
    case Number(i) => IntegerTok(i)
    case Float(f) => FloatTok(f)
    case Str(text, bytes) => StringTok(text, bytes)
    case CurrentDate => DateTok
    case CurrentTime => TimeTok
    case CurrentTimestamp => TimestampTok
    case _ => NullTok
  }

  /** `*` is written as the star. */
  function OperatorToken(op: BinaryOp): Token {
    if op == Arith(Mul) then Token.Star else Operator(op)
  }

  /** The tokens of an expression, with parentheses around every operand. */
  function Written(e: Expr): seq<Token>
    decreases e
  {
    match e
    case Literal(l) => [LiteralToken(l)]
    case Column(name) => [Ident(name)]
    case Binary(op, l, r) => [LParen] + Written(l) + [RParen] + [OperatorToken(op)] + ([LParen] + Written(r) + [RParen])
    case Call(name, kind, list) =>
      [Ident(name), LParen] + (if kind == NoArgs then [] else if kind == ArgKind.Star then [Token.Star] else WrittenList(list)) + [RParen]
    case _ => []
  }

  function WrittenList(es: Exprs): seq<Token>
    decreases es
  {
    match es case Nil => [] case Cons(x, Nil) => Written(x) case Cons(x, rest) => Written(x) + [Comma] + WrittenList(rest)
  }

  /** The tree of what is written. */
  function TreeOf(e: Expr): Tree
    decreases e
  {
    match e
    case Literal(l) => Leaf(LiteralToken(l))
    case Column(name) => Leaf(Ident(name))
    case Binary(op, l, r) => Node(Paren(TreeOf(l)), OperatorToken(op), Paren(TreeOf(r)))
    case Call(name, kind, list) =>
      CallTree(name, if kind == NoArgs || list == Nil then (if kind == ArgKind.Star then StarGiven else NoneGiven) else Listed(TreesOf(list)))
    case _ => Leaf(NullTok)
  }

  function TreesOf(es: Exprs): Trees
    decreases es
  {
    match es case Nil => One(Leaf(NullTok)) case Cons(x, Nil) => One(TreeOf(x)) case Cons(x, rest) => More(TreeOf(x), TreesOf(rest))
  }

  lemma {:induction false} TreeIs(e: Expr)
    requires Writable(e)
    ensures ByRank(TreeOf(e)) && Yield(TreeOf(e)) == Written(e) && ToExpr(TreeOf(e)) == e
    decreases e
  {
    match e
    case Binary(op, l, r) =>
      TreeIs(l);
      TreeIs(r);
    case Call(_, kind, list) =>
      if kind == List {
        TreesAre(list);
      }
    case _ =>
  }

  lemma {:induction false} TreesAre(es: Exprs)
    requires es.Cons? && AllWritable(es)
    ensures ListByRank(TreesOf(es)) && YieldList(TreesOf(es)) == WrittenList(es) && ToExprs(TreesOf(es)) == es
    decreases es
  {
    TreeIs(es.head);
    if es.tail.Cons? {
      TreesAre(es.tail);
    }
  }

  /** Parsing what is written out gives the expression back, whatever ends it. */
  lemma WrittenBack(e: Expr, rest: seq<Token>)
    requires Writable(e) && Ends(rest) && (rest == [] || rest[0] != LParen)
    ensures
      var r := Climb(Written(e) + rest, 0);
      r.Ok? && r.value.rest == rest && ToExpr(r.value.tree) == e
  {
    hide Climb, ByRank, Written, ToExpr, Yield, TreeOf;
    TreeIs(e);
    ParsedByRank(Written(e) + rest, TreeOf(e), rest);
  }
}
