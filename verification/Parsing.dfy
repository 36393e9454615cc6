/**
 What the recursive-descent parser computes from the tokens at an index: a tree and the index
 behind it, or a failure, and how many errors are reported on the way. Trees are exactly the
 grammar's: every result is a sentence of the grammar, and every sentence is parsed back.
 */
module Parsing {
  import opened Syntax

  /** `Outside`: the expression goes on with a construct that is not modelled. */
  datatype Outcome = Parsed(tree: Expr, next: nat, errs: nat) | Failed(errs: nat) | Outside

  datatype Listing = Items(trees: seq<Expr>, next: nat, errs: nat) | ListOutside

  predicate Is(toks: seq<Token>, i: nat, t: Token) { i < |toks| && toks[i] == t }

  predicate IsOperator(toks: seq<Token>, i: nat, k: nat) {
    i < |toks| && toks[i].Operation? && LevelOf(toks[i].op) == k
  }

  function Expression(toks: seq<Token>, i: nat): (r: Outcome)
    ensures r.Parsed? ==> i < r.next <= |toks|
    decreases |toks| - i, 14
  {
    if i >= |toks| then Failed(0)
    else if toks[i].IfTk? || toks[i].OpenSquare? then Outside
    else Level(toks, 0, i)
  }

  function Level(toks: seq<Token>, k: nat, i: nat): (r: Outcome)
    requires k <= UNARY
    ensures r.Parsed? ==> i < r.next <= |toks|
    decreases |toks| - i, 13 - k
  {
    if k == UNARY then ParseUnary(toks, i)
    else match Level(toks, k + 1, i)
         case Parsed(lhs, j, errs) => Chain(toks, k, lhs, j, errs)
         case r => r
  }

  /** The operators of level `k` that follow a parsed left operand. */
  function Chain(toks: seq<Token>, k: nat, lhs: Expr, j: nat, errs: nat): (r: Outcome)
    requires k < UNARY
    ensures r.Parsed? && j <= |toks| ==> j <= r.next <= |toks|
    decreases |toks| - j, 0
  {
    if !IsOperator(toks, j, k) then Parsed(lhs, j, errs)
    else match Level(toks, k + 1, j + 1)
         case Parsed(rhs, j', more) => Chain(toks, k, Binary(toks[j].op, lhs, rhs), j', errs + more)
         case Failed(more) => Failed(errs + more)
         case Outside => Outside
  }

  /** A prefix operator whose operand cannot be parsed still makes a node. */
  function ParseUnary(toks: seq<Token>, i: nat): (r: Outcome)
    ensures r.Parsed? ==> i < r.next <= |toks|
    decreases |toks| - i, 2
  {
    match Postfix(toks, i)
    case Failed(errs) =>
      if i >= |toks| then Failed(errs)
      else if toks[i].Unalias? then Outside
      else if PrefixOf(toks[i]) == [] then Failed(errs)
      else
        var p := PrefixOf(toks[i])[0];
        (match ParseUnary(toks, i + 1)
         case Parsed(x, j, more) => Parsed(Unary(p, x), j, errs + more)
         case Failed(more) => Parsed(Unary(p, Missing), i + 1, errs + more)
         case Outside => Outside)
    case r => r
  }

  function Postfix(toks: seq<Token>, i: nat): (r: Outcome)
    ensures r.Parsed? ==> i < r.next <= |toks|
    decreases |toks| - i, 1
  {
    match Primary(toks, i)
    case Parsed(x, j, errs) => Suffixes(toks, x, j, errs)
    case r => r
  }

  function Suffixes(toks: seq<Token>, x: Expr, j: nat, errs: nat): (r: Outcome)
    ensures r.Parsed? && j <= |toks| ==> j <= r.next <= |toks|
    decreases |toks| - j, 0
  {
    if Is(toks, j, OpenParen) || Is(toks, j, OpenSquare) then
      var close := if toks[j].OpenParen? then CloseParen else CloseSquare;
      (match ExpressionList(toks, j + 1)
       case Items(args, j', more) =>
         if !Is(toks, j', close) then Failed(errs + more + 1)
         else Suffixes(toks, if toks[j].OpenParen? then Call(x, args) else Index(x, args), j' + 1, errs + more)
       case ListOutside => Outside)
    else if Is(toks, j, Dot) then
      if j + 1 < |toks| && toks[j + 1].Identifier? then Suffixes(toks, Member(x, toks[j + 1].name), j + 2, errs)
      else Failed(errs + 1)
    else Parsed(x, j, errs)
  }

  function Primary(toks: seq<Token>, i: nat): (r: Outcome)
    ensures r.Parsed? ==> i < r.next <= |toks|
    decreases |toks| - i, 0
  {
    if i >= |toks| then Failed(0)
    else match toks[i]
         case OpenParen =>
           (match Expression(toks, i + 1)
            case Parsed(x, j, errs) => if Is(toks, j, CloseParen) then Parsed(x, j + 1, errs) else Failed(errs + 1)
            case Failed(errs) => Failed(errs + if Is(toks, i + 1, CloseParen) then 0 else 1)
            case Outside => Outside)
         case FnOrLiteral => Outside
         case IntegerTk(n) => Parsed(Int(n), i + 1, 0)
         case TrueTk => Parsed(Boolean(true), i + 1, 0)
         case FalseTk => Parsed(Boolean(false), i + 1, 0)
         case Identifier(name) => QualifiedName(toks, [], name, i + 1)
         case _ => Failed(0)
  }

  function QualifiedName(toks: seq<Token>, qualifiers: seq<string>, name: string, j: nat): (r: Outcome)
    ensures r.Parsed? && j <= |toks| ==> j <= r.next <= |toks|
    decreases |toks| - j
  {
    if !Is(toks, j, ColonColon) then Parsed(Variable(qualifiers, name), j, 0)
    else if j + 1 < |toks| && toks[j + 1].Identifier? then
      QualifiedName(toks, qualifiers + [name], toks[j + 1].name, j + 2)
    else Failed(1)
  }

  /** Expressions up to one that no comma follows; an empty list is a list. */
  function ExpressionList(toks: seq<Token>, i: nat): (r: Listing)
    ensures r.Items? && i <= |toks| ==> i <= r.next <= |toks|
    decreases |toks| - i, 15
  {
    match Expression(toks, i)
    case Failed(errs) => Items([], i, errs)
    case Outside => ListOutside
    case Parsed(x, j, errs) =>
      if !Is(toks, j, Comma) then Items([x], j, errs)
      else match ExpressionList(toks, j + 1)
           case ListOutside => ListOutside
           case Items(rest, j', more) => Items([x] + rest, j', errs + more)
  }
}
