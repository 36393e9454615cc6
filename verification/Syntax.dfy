/**
 Expressions: their tokens, their syntax trees, and the grammar as concrete syntax trees that
 record grouping parentheses and trailing commas.
 */
module Syntax {

  datatype Operator =
    | LogOr | LogAnd | BitOr | BitXor | BitAnd | EqualsEquals | NotEquals
    | Less | LessEquals | Greater | GreaterEquals | LShift | RShift | Plus | Minus | Star | Slash | Mod

  datatype Prefix = NegateOp | PositiveOp | NotOp | InvertOp

  /**
   `FnOrLiteral` stands for a token that begins a function, a string, a character or a real;
   `Other` for any token that neither begins nor continues an expression.
   */
  datatype Token =
    | IntegerTk(n: nat)
    | TrueTk
    | FalseTk
    | Identifier(name: string)
    | Operation(op: Operator)
    | Bang
    | Tilde
    | OpenParen
    | CloseParen
    | OpenSquare
    | CloseSquare
    | IndexGet
    | Dot
    | Comma
    | ColonColon
    | Terminator
    | IfTk
    | Unalias
    | FnOrLiteral
    | Other

  /** `Missing` is the null operand of a prefix operator that nothing follows. */
  datatype Expr =
    | Int(n: nat)
    | Boolean(b: bool)
    | Variable(qualifiers: seq<string>, name: string)
    | Binary(op: Operator, lhs: Expr, rhs: Expr)
    | Unary(prefix: Prefix, operand: Expr)
    | Call(callee: Expr, args: seq<Expr>)
    | Index(thing: Expr, subscript: seq<Expr>)
    | Member(thing: Expr, member: string)
    | Missing

  /** The ten levels of binary operators, from loosest to tightest. */
  function LevelOf(op: Operator): (k: nat)
    ensures k < UNARY
  {
    match op
    case LogOr => 0
    case LogAnd => 1
    case BitOr => 2
    case BitXor => 3
    case BitAnd => 4
    case EqualsEquals => 5 case NotEquals => 5
    case Less => 6 case LessEquals => 6 case Greater => 6 case GreaterEquals => 6
    case LShift => 7 case RShift => 7
    case Plus => 8 case Minus => 8
    case Star => 9 case Slash => 9 case Mod => 9
  }

  /** The levels above the binary ones: prefix operators, then calls, indexing and members. */
  const UNARY := 10
  const POSTFIX := 11

  function PrefixOf(t: Token): seq<Prefix> {
    match t
    case Operation(Minus) => [NegateOp]
    case Operation(Plus) => [PositiveOp]
    case Bang => [NotOp]
    case Tilde => [InvertOp]
    case _ => []
  }

  function PrefixToken(p: Prefix): Token {
    match p
    case NegateOp => Operation(Minus)
    case PositiveOp => Operation(Plus)
    case NotOp => Bang
    case InvertOp => Tilde
  }

  // ----- the grammar -----

  datatype Cst =
    | CInt(n: nat)
    | CBoolean(b: bool)
    | CVariable(qualifiers: seq<string>, name: string)
    | CGroup(inner: Cst)
    | CBinary(op: Operator, lhs: Cst, rhs: Cst)
    | CUnary(prefix: Prefix, operand: Cst)
    | CCall(callee: Cst, args: seq<Cst>, trailing: bool)
    | CIndex(thing: Cst, subscript: seq<Cst>, trailing: bool)
    | CMember(thing: Cst, member: string)
    | CMissing

  function Tokens(c: Cst): seq<Token>
    decreases c, 1
  {
    match c
    case CInt(n) => [IntegerTk(n)]
    case CBoolean(b) => [if b then TrueTk else FalseTk]
    case CVariable(qualifiers, name) => QualifierTokens(qualifiers) + [Identifier(name)]
    case CGroup(inner) => [OpenParen] + (Tokens(inner) + [CloseParen])
    case CBinary(op, l, r) => Tokens(l) + ([Operation(op)] + Tokens(r))
    case CUnary(p, x) => [PrefixToken(p)] + Tokens(x)
    case CCall(f, args, trailing) => Tokens(f) + ([OpenParen] + (ListTokens(args, trailing) + [CloseParen]))
    case CIndex(x, args, trailing) => Tokens(x) + ([OpenSquare] + (ListTokens(args, trailing) + [CloseSquare]))
    case CMember(x, member) => Tokens(x) + [Dot, Identifier(member)]
    case CMissing => []
  }

  function QualifierTokens(qualifiers: seq<string>): seq<Token> {
    if qualifiers == [] then [] else [Identifier(qualifiers[0]), ColonColon] + QualifierTokens(qualifiers[1..])
  }

  /** Elements between commas, with a comma after the last one if `trailing`. */
  function ListTokens(list: seq<Cst>, trailing: bool): seq<Token>
    decreases list, 0
  {
    if list == [] then []
    else if |list| == 1 then Tokens(list[0]) + (if trailing then [Comma] else [])
    else Tokens(list[0]) + ([Comma] + ListTokens(list[1..], trailing))
  }

  /** The syntax tree: grouping and trailing commas are forgotten. */
  function Strip(c: Cst): Expr
    decreases c, 1
  {
    match c
    case CInt(n) => Int(n)
    case CBoolean(b) => Boolean(b)
    case CVariable(qualifiers, name) => Variable(qualifiers, name)
    case CGroup(inner) => Strip(inner)
    case CBinary(op, l, r) => Binary(op, Strip(l), Strip(r))
    case CUnary(p, x) => Unary(p, Strip(x))
    case CCall(f, args, _) => Call(Strip(f), StripAll(args))
    case CIndex(x, args, _) => Index(Strip(x), StripAll(args))
    case CMember(x, member) => Member(Strip(x), member)
    case CMissing => Missing
  }

  function StripAll(list: seq<Cst>): seq<Expr>
    decreases list, 0
  {
    if list == [] then [] else [Strip(list[0])] + StripAll(list[1..])
  }

  /**
   `c` is an expression of level `k` or tighter: a binary operator's left operand is of its own
   level, so chains lean to the left, and its right operand is tighter.
   */
  predicate Fits(c: Cst, k: nat)
    decreases c, 1
  {
    match c
    case CInt(_) => true
    case CBoolean(_) => true
    case CVariable(_, _) => true
    case CGroup(inner) => Fits(inner, 0)
    case CBinary(op, l, r) => k <= LevelOf(op) && Fits(l, LevelOf(op)) && Fits(r, LevelOf(op) + 1)
    case CUnary(_, x) => k <= UNARY && (x.CMissing? || Fits(x, UNARY))
    case CCall(f, args, trailing) => Fits(f, POSTFIX) && FitsList(args) && (trailing ==> args != [])
    case CIndex(x, args, trailing) => Fits(x, POSTFIX) && FitsList(args) && (trailing ==> args != [])
    case CMember(x, _) => Fits(x, POSTFIX)
    case CMissing => false
  }

  predicate FitsList(list: seq<Cst>)
    decreases list, 0
  {
    forall i | 0 <= i < |list| :: Fits(list[i], 0)
  }

  /** No operand is missing. */
  predicate Whole(c: Cst) {
    match c
    case CGroup(inner) => Whole(inner)
    case CBinary(_, l, r) => Whole(l) && Whole(r)
    case CUnary(_, x) => Whole(x)
    case CCall(f, args, _) => Whole(f) && forall i | 0 <= i < |args| :: Whole(args[i])
    case CIndex(x, args, _) => Whole(x) && forall i | 0 <= i < |args| :: Whole(args[i])
    case CMember(x, _) => Whole(x)
    case CMissing => false
    case _ => true
  }
}
