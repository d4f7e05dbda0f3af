/** The expression parser: precedence climbing finds exactly the tree that the binding powers call for. */
module Parser {
  import opened Mem
  import opened Ast

  /** Numbers and strings are given by their values; Bad is a piece of text the tokenizer rejects. */
  datatype Token =
    | NullTok
    | DateTok
    | TimeTok
    | TimestampTok
    | IntegerTok(i: I64)
    | FloatTok(f: Double)
    | StringTok(text: string, bytes: Data)
    | Ident(id: string)
    | LParen
    | RParen
    | Comma
    | Star
    | Operator(op: BinaryOp)
    | Other(other: string)
    | Bad

  datatype ParseError = SyntaxError(tok: Token) | UnexpectedEof | TokenError
  datatype Result<+T> = Ok(value: T) | Err(error: ParseError)

  /** A tree that keeps its parentheses. */
  datatype Tree =
    | Leaf(tok: Token)
    | Paren(inner: Tree)
    | CallTree(id: string, args: ArgTree)
    | Node(left: Tree, op: Token, right: Tree)

  datatype ArgTree = NoneGiven | StarGiven | Listed(list: Trees)
  datatype Trees = One(t: Tree) | More(t: Tree, rest: Trees)

  // ---- Binding powers ----

  /** Left binding power of a token; 0 if it is no infix operator. The right power is one more. */
  function Power(t: Token): nat {
    match t
    case Star => 11
    case Operator(Or) => 1
    case Operator(And) => 3
    case Operator(Compare(_)) => 5
    case Operator(Arith(Add)) => 9
    case Operator(Arith(Sub)) => 9
    case Operator(Arith(Div)) => 11
    case Operator(Arith(Mod)) => 11
    case _ => 0
  }

  /** The operator of an infix token. */
  function OperatorOf(t: Token): BinaryOp {
    match t
    case Operator(op) => op
    case _ => Arith(Mul)
  }

  predicate IsAtom(t: Token) {
    t.NullTok? || t.DateTok? || t.TimeTok? || t.TimestampTok? || t.IntegerTok? || t.FloatTok? || t.StringTok? || t.Ident?
  }

  // ---- Trees ----

  /** The tokens of a tree, in order. */
  function Yield(t: Tree): (s: seq<Token>)
    ensures |s| >= 1
    decreases t
  {
    match t
    case Leaf(tok) => [tok]
    case Paren(inner) => [LParen] + Yield(inner) + [RParen]
    case CallTree(id, args) => [Ident(id), LParen] + YieldArgs(args) + [RParen]
    case Node(l, op, r) => Yield(l) + [op] + Yield(r)
  }

  function YieldArgs(a: ArgTree): seq<Token>
    decreases a
  {
    match a case NoneGiven => [] case StarGiven => [Token.Star] case Listed(list) => YieldList(list)
  }

  function YieldList(ts: Trees): (s: seq<Token>)
    ensures |s| >= 1
    decreases ts
  {
    match ts case One(t) => Yield(t) case More(t, rest) => Yield(t) + [Comma] + YieldList(rest)
  }

  const TIGHTEST: nat := 100

  /** How tightly the top of a tree binds. */
  function Tightness(t: Tree): nat {
    if t.Node? then Power(t.op) else TIGHTEST
  }

  /** Each left operand binds at least as tightly as its parent, each right operand strictly more tightly. */
  predicate Proper(t: Tree)
    decreases t
  {
    match t
    case Leaf(tok) => IsAtom(tok)
    case Paren(inner) => Proper(inner)
    case CallTree(_, args) => ProperArgs(args)
    case Node(l, op, r) =>
      Power(op) > 0 && Proper(l) && Proper(r) && Tightness(l) >= Power(op) && Tightness(r) > Power(op)
  }

  predicate ProperArgs(a: ArgTree)
    decreases a
  {
    match a case Listed(list) => ProperList(list) case _ => true
  }

  predicate ProperList(ts: Trees)
    decreases ts
  {
    match ts case One(t) => Proper(t) case More(t, rest) => Proper(t) && ProperList(rest)
  }

  /** The expression that a tree stands for. */
  function ToExpr(t: Tree): Expr
    decreases t
  {
    match t
    case Leaf(tok) => LeafExpr(tok)
    case Paren(inner) => ToExpr(inner)
    case CallTree(id, NoneGiven) => Call(id, NoArgs, Nil)
    case CallTree(id, StarGiven) => Call(id, ArgKind.Star, Nil)
    case CallTree(id, Listed(list)) => Call(id, List, ToExprs(list))
    case Node(l, op, r) => Binary(OperatorOf(op), ToExpr(l), ToExpr(r))
  }

  function ToExprs(ts: Trees): Exprs
    decreases ts
  {
    match ts case One(t) => Cons(ToExpr(t), Nil) case More(t, rest) => Cons(ToExpr(t), ToExprs(rest))
  }

  function ToExprSeq(ts: seq<Tree>): seq<Expr> {
    seq(|ts|, i requires 0 <= i < |ts| => ToExpr(ts[i]))
  }

  function ListOf(es: seq<Expr>): Exprs {
    if es == [] then Nil else Cons(es[0], ListOf(es[1..]))
  }

  function Joined(ts: seq<Tree>, last: Trees): Trees {
    if ts == [] then last else More(ts[0], Joined(ts[1..], last))
  }

  lemma JoinedNone()
    ensures forall last :: Joined([], last) == last
  {
  }

  lemma {:induction false} JoinedMore(ts: seq<Tree>, t: Tree)
    ensures forall last :: Joined(ts + [t], last) == Joined(ts, More(t, last))
  {
    if ts == [] {
      assert (ts + [t])[1..] == [];
    } else {
      JoinedMore(ts[1..], t);
      assert (ts + [t])[1..] == ts[1..] + [t];
    }
  }

  lemma {:induction false} JoinedExprs(ts: seq<Tree>, t: Tree)
    ensures ToExprs(Joined(ts, One(t))) == ListOf(ToExprSeq(ts) + [ToExpr(t)])
  {
    var es := ToExprSeq(ts) + [ToExpr(t)];
    if ts == [] {
      assert es[1..] == [];
    } else {
      JoinedExprs(ts[1..], t);
      assert es[1..] == ToExprSeq(ts[1..]) + [ToExpr(t)];
    }
  }

  function LeafExpr(t: Token): Expr {
    match t
    case NullTok => Literal(NullLiteral)
    case DateTok => Literal(CurrentDate)
    case TimeTok => Literal(CurrentTime)
    case TimestampTok => Literal(CurrentTimestamp)
    case IntegerTok(i) => Literal(Number(i))
    case FloatTok(f) => Literal(Float(f))
    case StringTok(text, bytes) => Literal(Str(text, bytes))
    case Ident(id) => Expr.Column(id)
    case _ => OtherExpr
  }

  // ---- Parsing ----

  /** A tree and the tokens after it. */
  datatype Parsed<+T> = Parsed(tree: T, rest: seq<Token>)

  function Climb(s: seq<Token>, bp: nat): (r: Result<Parsed<Tree>>)
    ensures r.Ok? ==> |r.value.rest| < |s|
    decreases |s|, 3
  {
    match Primary(s)
    case Err(e) => Err(e)
    case Ok(p) => Extend(p.tree, p.rest, bp)
  }

  /** Take further operators of power at least bp. */
  function Extend(lhs: Tree, s: seq<Token>, bp: nat): (r: Result<Parsed<Tree>>)
    ensures r.Ok? ==> |r.value.rest| <= |s|
    decreases |s|, 4
  {
    if s == [] then Ok(Parsed(lhs, s))
    else if s[0] == Bad then Err(TokenError)
    else if Power(s[0]) == 0 || Power(s[0]) < bp then Ok(Parsed(lhs, s))
    else
      match Climb(s[1..], Power(s[0]) + 1)
      case Err(e) => Err(e)
      case Ok(p) => Extend(Node(lhs, s[0], p.tree), p.rest, bp)
  }

  function Primary(s: seq<Token>): (r: Result<Parsed<Tree>>)
    ensures r.Ok? ==> |r.value.rest| < |s|
    decreases |s|, 2
  {
    if s == [] then Err(UnexpectedEof)
    else if s[0] == Bad then Err(TokenError)
    else if s[0].Ident? then
      if |s| > 1 && s[1] == Bad then Err(TokenError)
      else if |s| > 1 && s[1] == LParen then
        match Arguments(s[2..])
        case Err(e) => Err(e)
        case Ok(p) => Ok(Parsed(CallTree(s[0].id, p.tree), p.rest))
      else Ok(Parsed(Leaf(s[0]), s[1..]))
    else if s[0] == LParen then
      match Climb(s[1..], 0)
      case Err(e) => Err(e)
      case Ok(p) => (match Expect(p.rest, RParen) case Err(e) => Err(e) case Ok(rest) => Ok(Parsed(Paren(p.tree), rest)))
    else if IsAtom(s[0]) then Ok(Parsed(Leaf(s[0]), s[1..]))
    else Err(SyntaxError(s[0]))
  }

  function Expect(s: seq<Token>, t: Token): (r: Result<seq<Token>>)
    ensures r.Ok? ==> |s| >= 1 && s[0] == t && r.value == s[1..]
  {
    if s == [] then Err(UnexpectedEof)
    else if s[0] == Bad then Err(TokenError)
    else if s[0] == t then Ok(s[1..]) else Err(SyntaxError(s[0]))
  }

  /** What follows the opening parenthesis of a call. */
  function Arguments(s: seq<Token>): (r: Result<Parsed<ArgTree>>)
    ensures r.Ok? ==> |r.value.rest| < |s|
    decreases |s|, 5
  {
    if s != [] && s[0] == Bad then Err(TokenError)
    else if s != [] && s[0] == RParen then Ok(Parsed(NoneGiven, s[1..]))
    else if s != [] && s[0] == Token.Star then (match Expect(s[1..], RParen) case Err(e) => Err(e) case Ok(rest) => Ok(Parsed(StarGiven, rest)))
    else
      match Listing(s)
      case Err(e) => Err(e)
      case Ok(p) => (match Expect(p.rest, RParen) case Err(e) => Err(e) case Ok(rest) => Ok(Parsed(Listed(p.tree), rest)))
  }

  function Listing(s: seq<Token>): (r: Result<Parsed<Trees>>)
    ensures r.Ok? ==> |r.value.rest| < |s|
    decreases |s|, 4
  {
    match Climb(s, 0)
    case Err(e) => Err(e)
    case Ok(p) =>
      if p.rest != [] && p.rest[0] == Bad then Err(TokenError)
      else if p.rest != [] && p.rest[0] == Comma then
        match Listing(p.rest[1..])
        case Err(e) => Err(e)
        case Ok(more) => Ok(Parsed(More(p.tree, more.tree), more.rest))
      else Ok(Parsed(One(p.tree), p.rest))
  }

  /** A list that starts at s has had the given trees read, and goes on at rest. */
  predicate Continues(s: seq<Token>, ts: seq<Tree>, rest: seq<Token>) {
    Listing(s) == (match Listing(rest) case Err(e) => Err(e) case Ok(p) => Ok(Parsed(Joined(ts, p.tree), p.rest)))
  }

  // ---- Soundness ----

  /** What is left does not continue an expression parsed at bp. */
  predicate Stops(s: seq<Token>, bp: nat) {
    s == [] || (s[0] != Bad && (Power(s[0]) == 0 || Power(s[0]) < bp))
  }

  /** The next token binds no more tightly than the top of t. */
  predicate Within(t: Tree, s: seq<Token>) {
    s == [] || Power(s[0]) <= Tightness(t)
  }

  /** The last token is a bare name, which a parenthesis would turn into a call. */
  predicate EndsInName(t: Tree)
    decreases t
  {
    match t
    case Leaf(tok) => tok.Ident?
    case Node(_, _, r) => EndsInName(r)
    case _ => false
  }

  /** No parenthesis turns the end of t into a call. */
  predicate NoCall(t: Tree, s: seq<Token>) {
    s == [] || s[0] != LParen || !EndsInName(t)
  }

  /** s may follow t without becoming part of it. */
  predicate Follows(t: Tree, s: seq<Token>) {
    (s == [] || s[0] != Bad) && NoCall(t, s)
  }

  /**
    A successful parse returns the tree of exactly the tokens it consumed, with every operand bound
    as its operator demands and the top at least at bp, and stops at the first operator below bp.
   */
  lemma {:induction false} ClimbSound(s: seq<Token>, bp: nat)
    requires Climb(s, bp).Ok? && bp <= 12
    ensures
      var p := Climb(s, bp).value;
      s == Yield(p.tree) + p.rest && Proper(p.tree) && Tightness(p.tree) >= bp && Stops(p.rest, bp) && Follows(p.tree, p.rest)
    decreases |s|, 3
  {
    hide Primary, Extend, Yield, Proper;
    PrimarySound(s);
    var p := Primary(s).value;
    ExtendSound(p.tree, p.rest, bp);
  }

  lemma {:induction false} ExtendSound(lhs: Tree, s: seq<Token>, bp: nat)
    requires Extend(lhs, s, bp).Ok? && Proper(lhs) && Tightness(lhs) >= bp && Within(lhs, s) && NoCall(lhs, s)
    ensures
      var p := Extend(lhs, s, bp).value;
      Yield(lhs) + s == Yield(p.tree) + p.rest && Proper(p.tree) && Tightness(p.tree) >= bp && Stops(p.rest, bp) && NoCall(p.tree, p.rest)
    decreases |s|, 4
  {
    hide Climb, Yield, Proper, NoCall;
    if s != [] && Power(s[0]) > 0 && Power(s[0]) >= bp {
      ClimbSound(s[1..], Power(s[0]) + 1);
      var p := Climb(s[1..], Power(s[0]) + 1).value;
      NodeGrows(lhs, s, p.tree, p.rest);
      ExtendSound(Node(lhs, s[0], p.tree), p.rest, bp);
    }
  }

  lemma NodeGrows(lhs: Tree, s: seq<Token>, t: Tree, rest: seq<Token>)
    requires s != [] && Power(s[0]) > 0 && Proper(lhs) && Within(lhs, s)
    requires s[1..] == Yield(t) + rest && Proper(t) && Tightness(t) > Power(s[0]) && Stops(rest, Power(s[0]) + 1) && Follows(t, rest)
    ensures
      var node := Node(lhs, s[0], t);
      && Proper(node) && Tightness(node) == Power(s[0]) && Within(node, rest) && NoCall(node, rest)
      && Yield(lhs) + s == Yield(node) + rest
  {
    assert s == [s[0]] + s[1..];
  }

  lemma {:induction false} PrimarySound(s: seq<Token>)
    requires Primary(s).Ok?
    ensures var p := Primary(s).value; s == Yield(p.tree) + p.rest && Proper(p.tree) && Tightness(p.tree) == TIGHTEST && NoCall(p.tree, p.rest)
    decreases |s|, 2
  {
    hide Climb, Arguments;
    var p := Primary(s).value;
    if s[0].Ident? && |s| > 1 && s[1] == LParen {
      ArgumentsSound(s[2..]);
      var q := Arguments(s[2..]).value;
      assert s == [s[0], LParen] + s[2..];
      assert [s[0], LParen] + (YieldArgs(q.tree) + [RParen] + q.rest) == Yield(p.tree) + p.rest;
    } else if s[0] == LParen {
      ClimbSound(s[1..], 0);
      var q := Climb(s[1..], 0).value;
      assert s == [LParen] + (Yield(q.tree) + q.rest);
      assert q.rest == [RParen] + p.rest;
      assert [LParen] + (Yield(q.tree) + ([RParen] + p.rest)) == Yield(p.tree) + p.rest;
    }
  }

  lemma {:induction false} ArgumentsSound(s: seq<Token>)
    requires Arguments(s).Ok?
    ensures var p := Arguments(s).value; s == YieldArgs(p.tree) + [RParen] + p.rest && ProperArgs(p.tree)
    decreases |s|, 5
  {
    hide Listing;
    var p := Arguments(s).value;
    if s == [] || (s[0] != RParen && s[0] != Token.Star) {
      ListingSound(s);
      var q := Listing(s).value;
      assert q.rest == [RParen] + p.rest;
    }
  }

  lemma {:induction false} ListingSound(s: seq<Token>)
    requires Listing(s).Ok?
    ensures var p := Listing(s).value; s == YieldList(p.tree) + p.rest && ProperList(p.tree)
    decreases |s|, 4
  {
    hide Climb;
    ClimbSound(s, 0);
    var p := Climb(s, 0).value;
    if p.rest != [] && p.rest[0] == Comma {
      ListingSound(p.rest[1..]);
      var more := Listing(p.rest[1..]).value;
      assert p.rest == [Comma] + (YieldList(more.tree) + more.rest);
      assert Yield(p.tree) + ([Comma] + (YieldList(more.tree) + more.rest)) == YieldList(More(p.tree, more.tree)) + more.rest;
    }
  }

  // ---- Completeness and uniqueness ----

  lemma {:induction false} FirstToken(t: Tree)
    requires Proper(t)
    ensures IsAtom(Yield(t)[0]) || Yield(t)[0] == LParen
    decreases t
  {
    if t.Node? {
      FirstToken(t.left);
    }
  }

  /** Climbing over the tokens of a proper tree arrives at that tree, and goes on from there. */
  lemma {:induction false} ClimbTree(t: Tree, rest: seq<Token>, bp: nat)
    requires Proper(t) && Tightness(t) >= bp && Within(t, rest) && Follows(t, rest)
    ensures Climb(Yield(t) + rest, bp) == Extend(t, rest, bp)
    decreases t, 1
  {
    hide Climb, Extend, Primary, Arguments, Proper, Yield, Power, OperatorOf;
    if t.Node? {
      NodeFacts(t);
      var after := [t.op] + (Yield(t.right) + rest);
      assert Yield(t) + rest == Yield(t.left) + after;
      ClimbTree(t.left, after, bp);
      ClimbTree(t.right, rest, Power(t.op) + 1);
      ExtendStops(t.right, rest, Power(t.op) + 1);
      ExtendStep(t.left, t.op, t.right, rest, bp);
    } else {
      PrimaryTree(t, rest);
      ClimbStart(Yield(t) + rest, bp);
    }
  }

  lemma NodeFacts(t: Tree)
    requires t.Node? && Proper(t)
    ensures Yield(t) == Yield(t.left) + [t.op] + Yield(t.right) && Proper(t.left) && Proper(t.right)
    ensures 0 < Power(t.op) <= Tightness(t.left) && Power(t.op) < Tightness(t.right) && Tightness(t) == Power(t.op)
    ensures t.op != Bad && t.op != LParen && (EndsInName(t) <==> EndsInName(t.right))
  {
  }

  lemma ClimbStart(s: seq<Token>, bp: nat)
    requires Primary(s).Ok?
    ensures Climb(s, bp) == Extend(Primary(s).value.tree, Primary(s).value.rest, bp)
  {
    hide Primary, Extend;
  }

  lemma ExtendStops(t: Tree, rest: seq<Token>, bp: nat)
    requires Stops(rest, bp)
    ensures Extend(t, rest, bp) == Ok(Parsed(t, rest))
  {
    hide Climb;
  }

  lemma ExtendStep(l: Tree, op: Token, r: Tree, rest: seq<Token>, bp: nat)
    requires Power(op) > 0 && Power(op) >= bp && op != Bad && Climb(Yield(r) + rest, Power(op) + 1) == Ok(Parsed(r, rest))
    ensures Extend(l, [op] + (Yield(r) + rest), bp) == Extend(Node(l, op, r), rest, bp)
  {
    hide Climb, Yield;
    assert ([op] + (Yield(r) + rest))[1..] == Yield(r) + rest;
  }

  lemma {:induction false} PrimaryTree(t: Tree, rest: seq<Token>)
    requires Proper(t) && !t.Node? && Follows(t, rest)
    ensures Primary(Yield(t) + rest) == Ok(Parsed(t, rest))
    decreases t, 0
  {
    hide Climb, Arguments, Power;
    var s := Yield(t) + rest;
    match t
    case Leaf(tok) =>
      assert s[1..] == rest;
    case Paren(inner) =>
      assert s[1..] == Yield(inner) + ([RParen] + rest);
      InnerTree(inner, [RParen] + rest);
    case CallTree(id, args) =>
      assert s[2..] == YieldArgs(args) + ([RParen] + rest);
      ArgumentsTree(args, rest);
  }

  /** A tree before a token that is no operator is parsed on its own. */
  lemma {:induction false} InnerTree(t: Tree, rest: seq<Token>)
    requires Proper(t) && rest != [] && (rest[0] == RParen || rest[0] == Comma)
    ensures Climb(Yield(t) + rest, 0) == Ok(Parsed(t, rest))
    decreases t, 2
  {
    hide Climb, Extend, Yield, Proper;
    ClimbTree(t, rest, 0);
    ExtendStops(t, rest, 0);
  }

  lemma {:induction false} ArgumentsTree(args: ArgTree, rest: seq<Token>)
    requires ProperArgs(args)
    ensures Arguments(YieldArgs(args) + ([RParen] + rest)) == Ok(Parsed(args, rest))
    decreases args, 0
  {
    hide Listing;
    var s := YieldArgs(args) + ([RParen] + rest);
    match args
    case NoneGiven =>
      assert s[1..] == rest;
    case StarGiven =>
      assert s[1..] == [RParen] + rest;
    case Listed(list) =>
      ListTree(list, [RParen] + rest);
      var t := list.t;
      FirstToken(t);
      assert s[0] == Yield(t)[0];
  }

  lemma {:induction false} ListTree(ts: Trees, rest: seq<Token>)
    requires ProperList(ts) && rest != [] && rest[0] == RParen
    ensures Listing(YieldList(ts) + rest) == Ok(Parsed(ts, rest))
    decreases ts, 0
  {
    hide Climb;
    match ts
    case One(t) =>
      InnerTree(t, rest);
    case More(t, more) =>
      var after := [Comma] + (YieldList(more) + rest);
      assert YieldList(ts) + rest == Yield(t) + after;
      InnerTree(t, after);
      assert after[1..] == YieldList(more) + rest;
      ListTree(more, rest);
  }

  /**
    Whenever the tokens begin with a proper tree that binds at bp and what follows cannot continue
    it, the parser returns that tree: so the tree is unique, and the parser fails only without one.
   */
  lemma ClimbComplete(t: Tree, rest: seq<Token>, bp: nat)
    requires Proper(t) && Tightness(t) >= bp && Stops(rest, bp) && Follows(t, rest)
    ensures Climb(Yield(t) + rest, bp) == Ok(Parsed(t, rest))
  {
    hide Climb, Extend, Yield, Proper;
    ClimbTree(t, rest, bp);
    ExtendStops(t, rest, bp);
  }

  /** The parser succeeds exactly when the tokens begin with such a tree. */
  lemma ParsesIff(s: seq<Token>, bp: nat)
    requires bp <= 12
    ensures Climb(s, bp).Ok? <==>
      exists t, rest :: s == Yield(t) + rest && Proper(t) && Tightness(t) >= bp && Stops(rest, bp) && Follows(t, rest)
  {
    hide Climb, Yield, Proper, Stops, Follows;
    if Climb(s, bp).Ok? {
      ClimbSound(s, bp);
    }
    forall t, rest | s == Yield(t) + rest && Proper(t) && Tightness(t) >= bp && Stops(rest, bp) && Follows(t, rest)
      ensures Climb(s, bp).Ok?
    {
      ClimbComplete(t, rest, bp);
    }
  }

  lemma TreeUnique(t: Tree, rest: seq<Token>, t': Tree, rest': seq<Token>, bp: nat)
    requires Proper(t) && Tightness(t) >= bp && Stops(rest, bp) && Follows(t, rest)
    requires Proper(t') && Tightness(t') >= bp && Stops(rest', bp) && Follows(t', rest')
    requires Yield(t) + rest == Yield(t') + rest'
    ensures t == t' && rest == rest'
  {
    hide Climb, Yield, Proper;
    ClimbComplete(t, rest, bp);
    ClimbComplete(t', rest', bp);
  }

  // ---- The recursive-descent parser ----

  /** The tokens and the position of the next one. */
  class ExprParser {
    const tokens: seq<Token>
    var pos: nat

    constructor (tokens: seq<Token>)
      ensures this.tokens == tokens && Valid() && Rest() == tokens
    {
      this.tokens, pos := tokens, 0;
    }

    predicate Valid()
      reads this
    {
      pos <= |tokens|
    }

    function Rest(): seq<Token>
      requires Valid()
      reads this
    {
      tokens[pos..]
    }

    /** The next token, without consuming it. */
    method Peek() returns (r: Result<Option<Token>>)
      requires Valid()
      ensures r == if Rest() == [] then Ok(None) else if Rest()[0] == Bad then Err(TokenError) else Ok(Some(Rest()[0]))
    {
      if pos == |tokens| {
        return Ok(None);
      }
      r := if tokens[pos] == Bad then Err(TokenError) else Ok(Some(tokens[pos]));
    }

    method Consume() returns (r: Result<Option<Token>>)
      requires Valid()
      modifies this
      ensures Valid() && Rest() == if old(Rest()) == [] then [] else old(Rest())[1..]
      ensures r == if old(Rest()) == [] then Ok(None) else if old(Rest())[0] == Bad then Err(TokenError) else Ok(Some(old(Rest())[0]))
    {
      r := Peek();
      if pos < |tokens| {
        pos := pos + 1;
      }
    }

    method ConsumeIf(t: Token) returns (r: Result<bool>)
      requires Valid() && t != Bad
      modifies this
      ensures Valid()
      ensures r == if old(Rest()) != [] && old(Rest())[0] == Bad then Err(TokenError) else Ok(old(Rest()) != [] && old(Rest())[0] == t)
      ensures Rest() == if r == Ok(true) then old(Rest())[1..] else old(Rest())
    {
      var tok := Peek();
      if tok.Err? {
        return Err(tok.error);
      }
      if tok.value == Some(t) {
        var _ := Consume();
        return Ok(true);
      }
      r := Ok(false);
    }

    method ExpectToken(t: Token) returns (r: Result<()>)
      requires Valid()
      modifies this
      ensures Valid()
      ensures
        match Expect(old(Rest()), t)
        case Err(e) => r == Err(e)
        case Ok(rest) => r == Ok(()) && Rest() == rest
    {
      var tok := Consume();
      if tok.Err? {
        return Err(tok.error);
      }
      if tok.value == None {
        return Err(UnexpectedEof);
      }
      r := if tok.value.value == t then Ok(()) else Err(SyntaxError(tok.value.value));
    }

    method ParseExprBp(bp: nat) returns (r: Result<Expr>)
      requires Valid()
      modifies this
      ensures Valid()
      ensures
        match Climb(old(Rest()), bp)
        case Err(e) => r == Err(e)
        case Ok(p) => r == Ok(ToExpr(p.tree)) && Rest() == p.rest
      decreases |tokens| - pos, 3
    {
      hide Primary, Power;
      r := ParsePrimary();
      if r.Err? {
        return;
      }
      var lhs := r.value;
      ghost var tree := Primary(old(Rest())).value.tree;
      while true
        invariant Valid() && lhs == ToExpr(tree) && |Rest()| < |old(Rest())|
        invariant Extend(tree, Rest(), bp) == Climb(old(Rest()), bp)
        decreases |tokens| - pos
      {
        var tok := Peek();
        if tok.Err? {
          return Err(tok.error);
        }
        if tok.value == None || Power(tok.value.value) == 0 || Power(tok.value.value) < bp {
          break;
        }
        ghost var rest := Rest();
        var _ := Consume();
        var rhs := ParseExprBp(Power(tok.value.value) + 1);
        if rhs.Err? {
          return rhs;
        }
        lhs := Binary(OperatorOf(tok.value.value), lhs, rhs.value);
        tree := Node(tree, tok.value.value, Climb(rest[1..], Power(tok.value.value) + 1).value.tree);
      }
      r := Ok(lhs);
    }

    method ParsePrimary() returns (r: Result<Expr>)
      requires Valid()
      modifies this
      ensures Valid()
      ensures
        match Primary(old(Rest()))
        case Err(e) => r == Err(e)
        case Ok(p) => r == Ok(ToExpr(p.tree)) && Rest() == p.rest
      decreases |tokens| - pos, 2
    {
      hide Climb, Arguments;
      ghost var s := Rest();
      var tok := Peek();
      if tok.Err? {
        return Err(tok.error);
      }
      if tok.value == None {
        return Err(UnexpectedEof);
      }
      var t := tok.value.value;
      if t.Ident? {
        var _ := Consume();
        var call := ConsumeIf(LParen);
        if call.Err? {
          return Err(call.error);
        }
        if call.value {
          assert Rest() == s[2..];
          r := ParseArguments(t.id);
        } else {
          r := Ok(Expr.Column(t.id));
        }
      } else if t == LParen {
        var _ := Consume();
        r := ParseExprBp(0);
        if r.Err? {
          return;
        }
        var close := ExpectToken(RParen);
        if close.Err? {
          return Err(close.error);
        }
      } else if IsAtom(t) {
        var _ := Consume();
        r := Ok(LeafExpr(t));
      } else {
        r := Err(SyntaxError(t));
      }
    }

    method ParseArguments(id: string) returns (r: Result<Expr>)
      requires Valid()
      modifies this
      ensures Valid()
      ensures
        match Arguments(old(Rest()))
        case Err(e) => r == Err(e)
        case Ok(p) => r == Ok(ToExpr(CallTree(id, p.tree))) && Rest() == p.rest
      decreases |tokens| - pos, 5
    {
      hide Climb, Listing;
      var none := ConsumeIf(RParen);
      if none.Err? {
        return Err(none.error);
      }
      if none.value {
        return Ok(Call(id, NoArgs, Nil));
      }
      var star := ConsumeIf(Token.Star);
      // A bad token was reported by the first check.
      var result: Expr;
      if star == Ok(true) {
        result := Call(id, ArgKind.Star, Nil);
      } else {
        var list := ParseList();
        if list.Err? {
          return Err(list.error);
        }
        result := Call(id, List, list.value);
      }
      var close := ExpectToken(RParen);
      r := if close.Err? then Err(close.error) else Ok(result);
    }

    /** Expressions separated by commas. */
    method ParseList() returns (r: Result<Exprs>)
      requires Valid()
      modifies this
      ensures Valid()
      ensures
        match Listing(old(Rest()))
        case Err(e) => r == Err(e)
        case Ok(p) => r == Ok(ToExprs(p.tree)) && Rest() == p.rest
      decreases |tokens| - pos, 4
    {
      hide Climb, Joined, ListOf, ToExprs;
      var exprs: seq<Expr> := [];
      ghost var trees: seq<Tree> := [];
      JoinedNone();
      while true
        invariant Valid() && |Rest()| <= |old(Rest())|
        invariant exprs == ToExprSeq(trees)
        invariant Continues(old(Rest()), trees, Rest())
        decreases |tokens| - pos
      {
        ghost var s := Rest();
        var first := ParseExprBp(0);
        if first.Err? {
          return Err(first.error);
        }
        ghost var tree := Climb(s, 0).value.tree;
        exprs := exprs + [first.value];
        var comma := ConsumeIf(Comma);
        if comma.Err? {
          return Err(comma.error);
        }
        if !comma.value {
          JoinedExprs(trees, tree);
          break;
        }
        JoinedMore(trees, tree);
        trees := trees + [tree];
      }
      r := Ok(ListOf(exprs));
    }
  }
}
