/**
 The pretty printer, at the level of the tokens its text is read back as, and the round trip: a
 printed expression is parsed back to itself exactly if it has no empty subscript, which the
 lexer reads as one index-operator token.
 */
module Printers {
  import opened Syntax
  import opened Parsing
  import opened ParserSoundness
  import opened ParserCompleteness

  /** No operand is missing: the printer requires every operand. */
  predicate Complete(e: Expr) {
    match e
    case Binary(_, l, r) => Complete(l) && Complete(r)
    case Unary(_, x) => Complete(x)
    case Call(f, args) => Complete(f) && forall i | 0 <= i < |args| :: Complete(args[i])
    case Index(x, args) => Complete(x) && forall i | 0 <= i < |args| :: Complete(args[i])
    case Member(x, _) => Complete(x)
    case Missing => false
    case _ => true
  }

  /** Something is between the square brackets of every subscript. */
  predicate Subscripted(e: Expr) {
    match e
    case Binary(_, l, r) => Subscripted(l) && Subscripted(r)
    case Unary(_, x) => Subscripted(x)
    case Call(f, args) => Subscripted(f) && forall i | 0 <= i < |args| :: Subscripted(args[i])
    case Index(x, args) => args != [] && Subscripted(x) && forall i | 0 <= i < |args| :: Subscripted(args[i])
    case Member(x, _) => Subscripted(x)
    case _ => true
  }

  function Print(e: Expr): seq<Token>
    decreases e, 1
  {
    match e
    case Int(n) => [IntegerTk(n)]
    case Boolean(b) => [if b then TrueTk else FalseTk]
    case Variable(qualifiers, name) => QualifierTokens(qualifiers) + [Identifier(name)]
    case Binary(op, l, r) => [OpenParen] + Print(l) + [Operation(op)] + Print(r) + [CloseParen]
    case Unary(p, x) => [OpenParen, PrefixToken(p)] + Print(x) + [CloseParen]
    case Call(f, args) => Print(f) + [OpenParen] + PrintList(args) + [CloseParen]
    case Index(x, args) =>
      Print(x) + (if args == [] then [IndexGet] else [OpenSquare] + PrintList(args) + [CloseSquare])
    case Member(x, member) => Print(x) + [Dot] + [Identifier(member)]
    case Missing => []
  }

  function PrintList(list: seq<Expr>): seq<Token>
    decreases list, 0
  {
    if list == [] then []
    else if |list| == 1 then Print(list[0])
    else Print(list[0]) + [Comma] + PrintList(list[1..])
  }

  lemma PrintParts(e: Expr)
    ensures match e
            case Int(n) => Print(e) == [IntegerTk(n)]
            case Boolean(b) => Print(e) == [if b then TrueTk else FalseTk]
            case Variable(qualifiers, name) => Print(e) == QualifierTokens(qualifiers) + [Identifier(name)]
            case Binary(op, l, r) => Print(e) == [OpenParen] + Print(l) + [Operation(op)] + Print(r) + [CloseParen]
            case Unary(p, x) => Print(e) == [OpenParen, PrefixToken(p)] + Print(x) + [CloseParen]
            case Call(f, args) => Print(e) == Print(f) + [OpenParen] + PrintList(args) + [CloseParen]
            case Index(x, args) =>
              Print(e) == Print(x) + (if args == [] then [IndexGet] else [OpenSquare] + PrintList(args) + [CloseSquare])
            case Member(x, member) => Print(e) == Print(x) + [Dot] + [Identifier(member)]
            case Missing => Print(e) == []
  {
  }

  class PrettyPrinter {
    var str: seq<Token>

    constructor ()
      ensures str == []
    {
      str := [];
    }

    method ToString(e: Expr)
      requires Complete(e)
      modifies this
      ensures str == old(str) + Print(e)
      decreases e, 1
    {
      hide Print;
      PrintParts(e);
      match e
      case Int(n) => str := str + [IntegerTk(n)];
      case Boolean(b) => str := str + [if b then TrueTk else FalseTk];
      case Variable(qualifiers, name) => VisitVariable(qualifiers, name);
      case Binary(op, l, r) => VisitBinary(op, l, r);
      case Unary(p, x) => VisitUnary(p, x);
      case Call(f, args) => VisitCall(f, args);
      case Index(x, args) => VisitIndex(x, args);
      case Member(x, member) =>
        ToString(x);
        str := str + [Dot];
        str := str + [Identifier(member)];
    }

    method VisitBinary(op: Operator, lhs: Expr, rhs: Expr)
      requires Complete(lhs) && Complete(rhs)
      modifies this
      ensures str == old(str) + ([OpenParen] + Print(lhs) + [Operation(op)] + Print(rhs) + [CloseParen])
      decreases Binary(op, lhs, rhs), 0
    {
      hide Print;
      str := str + [OpenParen];
      ToString(lhs);
      str := str + [Operation(op)];
      ToString(rhs);
      str := str + [CloseParen];
    }

    method VisitUnary(prefix: Prefix, operand: Expr)
      requires Complete(operand)
      modifies this
      ensures str == old(str) + ([OpenParen, PrefixToken(prefix)] + Print(operand) + [CloseParen])
      decreases Unary(prefix, operand), 0
    {
      hide Print;
      str := str + [OpenParen, PrefixToken(prefix)];
      ToString(operand);
      str := str + [CloseParen];
    }

    method VisitCall(callee: Expr, args: seq<Expr>)
      requires Complete(Call(callee, args))
      modifies this
      ensures str == old(str) + (Print(callee) + [OpenParen] + PrintList(args) + [CloseParen])
      decreases Call(callee, args), 0
    {
      hide Print, PrintList;
      ToString(callee);
      str := str + [OpenParen];
      VisitList(args);
      str := str + [CloseParen];
    }

    method VisitIndex(thing: Expr, subscript: seq<Expr>)
      requires Complete(Index(thing, subscript))
      modifies this
      ensures str ==
                old(str) + (Print(thing)
                            + (if subscript == [] then [IndexGet]
                               else [OpenSquare] + PrintList(subscript) + [CloseSquare]))
      decreases Index(thing, subscript), 0
    {
      hide Print, PrintList;
      ToString(thing);
      if subscript == [] {
        str := str + [IndexGet];
      } else {
        str := str + [OpenSquare];
        VisitList(subscript);
        str := str + [CloseSquare];
      }
    }

    method VisitVariable(qualifiers: seq<string>, name: string)
      modifies this
      ensures str == old(str) + (QualifierTokens(qualifiers) + [Identifier(name)])
    {
      var i := 0;
      assert qualifiers[i..] == qualifiers;
      while i < |qualifiers|
        invariant i <= |qualifiers|
        invariant str + QualifierTokens(qualifiers[i..]) == old(str) + QualifierTokens(qualifiers)
      {
        assert qualifiers[i..][1..] == qualifiers[i + 1..];
        str := str + [Identifier(qualifiers[i])] + [ColonColon];
        i := i + 1;
      }
      assert str + [] == str;
      str := str + [Identifier(name)];
    }

    method VisitList(list: seq<Expr>)
      requires forall i | 0 <= i < |list| :: Complete(list[i])
      modifies this
      ensures str == old(str) + PrintList(list)
      decreases list, 0
    {
      hide Print;
      var i := 0;
      assert list[i..] == list;
      while i < |list|
        invariant i <= |list|
        invariant str + PrintList(list[i..]) == old(str) + PrintList(list)
      {
        assert list[i..][1..] == list[i + 1..];
        ToString(list[i]);
        if i + 1 < |list| { str := str + [Comma]; }
        i := i + 1;
      }
    }
  }

  // ----- the round trip -----

  /** The sentence that is printed: every operator in its own parentheses. */
  function Grouped(e: Expr): Cst
    decreases e, 1
  {
    match e
    case Int(n) => CInt(n)
    case Boolean(b) => CBoolean(b)
    case Variable(qualifiers, name) => CVariable(qualifiers, name)
    case Binary(op, l, r) => CGroup(CBinary(op, Grouped(l), Grouped(r)))
    case Unary(p, x) => CGroup(CUnary(p, Grouped(x)))
    case Call(f, args) => CCall(Grouped(f), GroupedAll(args), false)
    case Index(x, args) => CIndex(Grouped(x), GroupedAll(args), false)
    case Member(x, member) => CMember(Grouped(x), member)
    case Missing => CMissing
  }

  function GroupedAll(list: seq<Expr>): (r: seq<Cst>)
    ensures |r| == |list|
    decreases list, 0
  {
    if list == [] then [] else [Grouped(list[0])] + GroupedAll(list[1..])
  }

  lemma {:induction false} GroupedIsPrinted(e: Expr)
    requires Complete(e)
    ensures Strip(Grouped(e)) == e && Whole(Grouped(e)) && Fits(Grouped(e), POSTFIX)
    ensures Subscripted(e) ==> Tokens(Grouped(e)) == Print(e)
    decreases e, 2
  {
    hide PrintList, ListTokens;
    match e
    case Int(_) =>
    case Boolean(_) =>
    case Variable(_, _) =>
    case Binary(op, l, r) => GroupedBinary(op, l, r);
    case Unary(p, x) =>
      GroupedIsPrinted(x);
      FitsLooser(Grouped(x), POSTFIX, UNARY);
    case Call(_, _) => GroupedCall(e);
    case Index(_, _) => GroupedCall(e);
    case Member(x, _) => GroupedIsPrinted(x);
  }

  lemma {:induction false} GroupedBinary(op: Operator, l: Expr, r: Expr)
    requires Complete(l) && Complete(r)
    ensures var e := Binary(op, l, r);
            && Strip(Grouped(e)) == e && Whole(Grouped(e)) && Fits(Grouped(e), POSTFIX)
            && (Subscripted(e) ==> Tokens(Grouped(e)) == Print(e))
    decreases Binary(op, l, r), 1
  {
    GroupedIsPrinted(l);
    GroupedIsPrinted(r);
    FitsLooser(Grouped(l), POSTFIX, LevelOf(op));
    FitsLooser(Grouped(r), POSTFIX, LevelOf(op) + 1);
  }

  lemma {:induction false} GroupedCall(e: Expr)
    requires Complete(e) && (e.Call? || e.Index?)
    ensures Strip(Grouped(e)) == e && Whole(Grouped(e)) && Fits(Grouped(e), POSTFIX)
    ensures Subscripted(e) ==> Tokens(Grouped(e)) == Print(e)
    decreases e, 1
  {
    hide PrintList, ListTokens, GroupedAll, StripAll, FitsList;
    var f, args := if e.Call? then e.callee else e.thing, if e.Call? then e.args else e.subscript;
    GroupedIsPrinted(f);
    GroupedAllIsPrinted(args);
  }

  lemma {:induction false} GroupedAllIsPrinted(list: seq<Expr>)
    requires forall i | 0 <= i < |list| :: Complete(list[i])
    ensures StripAll(GroupedAll(list)) == list && AllWhole(GroupedAll(list)) && FitsList(GroupedAll(list))
    ensures (forall i | 0 <= i < |list| :: Subscripted(list[i])) ==>
              ListTokens(GroupedAll(list), false) == PrintList(list)
    decreases list, 0
  {
    hide Print, Tokens, Grouped, Strip, Complete, Subscripted, Whole, Fits;
    if list != [] {
      GroupedIsPrinted(list[0]);
      GroupedAllIsPrinted(list[1..]);
      FitsLooser(Grouped(list[0]), POSTFIX, 0);
      assert GroupedAll(list)[1..] == GroupedAll(list[1..]);
      if |list| == 1 { OneElement(GroupedAll(list)); }
    }
  }

  /** The parser never consumes an index-operator token. */
  lemma {:induction false} NoIndexGet(c: Cst)
    ensures IndexGet !in Tokens(c)
    decreases c, 1
  {
    hide ListTokens;
    match c
    case CInt(_) =>
    case CBoolean(_) =>
    case CVariable(qualifiers, _) => NoIndexGetName(qualifiers);
    case CGroup(inner) => NoIndexGet(inner);
    case CBinary(_, l, r) =>
      NoIndexGet(l);
      NoIndexGet(r);
    case CUnary(_, x) => NoIndexGet(x);
    case CCall(f, args, trailing) =>
      NoIndexGet(f);
      NoIndexGetList(args, trailing);
    case CIndex(x, args, trailing) =>
      NoIndexGet(x);
      NoIndexGetList(args, trailing);
    case CMember(x, _) => NoIndexGet(x);
    case CMissing =>
  }

  lemma {:induction false} NoIndexGetName(qualifiers: seq<string>)
    ensures IndexGet !in QualifierTokens(qualifiers)
  {
    if qualifiers != [] { NoIndexGetName(qualifiers[1..]); }
  }

  lemma {:induction false} NoIndexGetList(list: seq<Cst>, trailing: bool)
    ensures IndexGet !in ListTokens(list, trailing)
    decreases list, 0
  {
    hide Tokens;
    if list != [] {
      NoIndexGet(list[0]);
      NoIndexGetList(list[1..], trailing);
    }
  }

  lemma {:induction false} EmptySubscriptPrinted(e: Expr)
    requires !Subscripted(e)
    ensures IndexGet in Print(e)
    decreases e, 1
  {
    hide PrintList;
    match e
    case Binary(_, l, r) => if !Subscripted(l) { EmptySubscriptPrinted(l); } else { EmptySubscriptPrinted(r); }
    case Unary(_, x) => EmptySubscriptPrinted(x);
    case Call(f, args) => if !Subscripted(f) { EmptySubscriptPrinted(f); } else { EmptySubscriptListed(args); }
    case Index(x, args) =>
      if args != [] { if !Subscripted(x) { EmptySubscriptPrinted(x); } else { EmptySubscriptListed(args); } }
    case Member(x, _) => EmptySubscriptPrinted(x);
  }

  lemma {:induction false} EmptySubscriptListed(list: seq<Expr>)
    requires exists i | 0 <= i < |list| :: !Subscripted(list[i])
    ensures IndexGet in PrintList(list)
    decreases list, 0
  {
    hide Print, Subscripted;
    if !Subscripted(list[0]) {
      EmptySubscriptPrinted(list[0]);
    } else {
      assert exists i | 0 <= i < |list[1..]| :: !Subscripted(list[1..][i]) by {
        var i :| 0 <= i < |list| && !Subscripted(list[i]);
        assert list[1..][i - 1] == list[i];
      }
      EmptySubscriptListed(list[1..]);
    }
  }

  /**
   Printing and parsing back: the same tree, all of the printed tokens, no error, whatever
   follows that cannot continue an expression; exactly if no subscript is empty.
   */
  lemma RoundTrip(e: Expr, rest: seq<Token>)
    requires Complete(e) && Stops(rest, 0, 0)
    ensures Expression(Print(e) + rest, 0) == Parsed(e, |Print(e)|, 0) <==> Subscripted(e)
  {
    hide Print, Tokens, Expression, Grouped;
    var toks := Print(e) + rest;
    if Subscripted(e) {
      GroupedIsPrinted(e);
      FitsLooser(Grouped(e), POSTFIX, 0);
      assert toks[0..0 + |Print(e)|] == Print(e);
      assert |Print(e)| < |toks| ==> toks[|Print(e)|] == rest[0];
      CompleteExpression(toks, 0, Grouped(e));
    } else if Expression(toks, 0) == Parsed(e, |Print(e)|, 0) {
      var c := SoundExpression(toks, 0);
      assert toks[0..|Print(e)|] == Print(e);
      NoIndexGet(c);
      EmptySubscriptPrinted(e);
    }
  }

  /** The grammar is unambiguous: its whole sentences with the same tokens have the same tree. */
  lemma Unambiguous(c: Cst, d: Cst)
    requires Fits(c, 0) && Fits(d, 0) && Whole(c) && Whole(d) && Tokens(c) == Tokens(d)
    ensures Strip(c) == Strip(d)
  {
    hide Expression, Tokens;
    var toks := Tokens(c);
    assert toks[0..0 + |toks|] == toks;
    CompleteExpression(toks, 0, c);
    CompleteExpression(toks, 0, d);
  }
}
