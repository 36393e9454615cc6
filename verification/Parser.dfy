/**
 The parser as the object that does it: an index into the tokens that is advanced by accepting
 tokens and set back when a rule fails, and a count of reported errors. The ten functions for
 binary operators differ only in their operators and are one method with a level.
 */
module Parsers {
  import opened Wrappers
  import opened Syntax
  import opened Parsing
  import opened ParserSoundness
  import opened Precedence

  class Parser {
    const tokens: seq<Token>
    var lexIdx: nat
    var errors: nat
    /** A construct that is not modelled was met; nothing is claimed from then on. */
    var outside: bool

    constructor (tokens: seq<Token>)
      ensures this.tokens == tokens && lexIdx == 0 && errors == 0 && !outside
    {
      this.tokens := tokens;
      lexIdx, errors, outside := 0, 0, false;
    }

    /** The outcome `r` of a rule that was tried at `start`, in terms of this object. */
    ghost predicate Shows(r: Outcome, start: nat, before: nat, result: Option<Expr>)
      reads this
    {
      match r
      case Parsed(tree, next, errs) => !outside && result == Some(tree) && lexIdx == next && errors == before + errs
      case Failed(errs) => !outside && result == None && lexIdx == start && errors == before + errs
      case Outside => outside && result == None
    }

    method Accept(t: Token) returns (accepted: bool)
      modifies this`lexIdx
      ensures accepted == Is(tokens, old(lexIdx), t)
      ensures lexIdx == old(lexIdx) + if accepted then 1 else 0
    {
      accepted := lexIdx < |tokens| && tokens[lexIdx] == t;
      if accepted { lexIdx := lexIdx + 1; }
    }

    method AcceptOperator(k: nat) returns (op: Option<Operator>)
      modifies this`lexIdx
      ensures op == if IsOperator(tokens, old(lexIdx), k) then Some(tokens[old(lexIdx)].op) else None
      ensures lexIdx == old(lexIdx) + if op.Some? then 1 else 0
    {
      if lexIdx < |tokens| && tokens[lexIdx].Operation? && LevelOf(tokens[lexIdx].op) == k {
        op := Some(tokens[lexIdx].op);
        lexIdx := lexIdx + 1;
      } else {
        op := None;
      }
    }

    method Expect(t: Token) returns (found: bool)
      modifies this`lexIdx, this`errors
      ensures found == Is(tokens, old(lexIdx), t)
      ensures lexIdx == old(lexIdx) + (if found then 1 else 0) && errors == old(errors) + (if found then 0 else 1)
    {
      found := Accept(t);
      if !found { errors := errors + 1; }
    }

    method ExpectIdentifier() returns (name: Option<string>)
      modifies this`lexIdx, this`errors
      ensures name ==
              if old(lexIdx) < |tokens| && tokens[old(lexIdx)].Identifier? then Some(tokens[old(lexIdx)].name)
              else None
      ensures lexIdx == old(lexIdx) + (if name.Some? then 1 else 0)
      ensures errors == old(errors) + (if name.Some? then 0 else 1)
    {
      if lexIdx < |tokens| && tokens[lexIdx].Identifier? {
        name := Some(tokens[lexIdx].name);
        lexIdx := lexIdx + 1;
      } else {
        name := None;
        errors := errors + 1;
      }
    }

    method ParseExpression() returns (result: Option<Expr>)
      requires !outside
      modifies this
      ensures Shows(Expression(tokens, old(lexIdx)), old(lexIdx), old(errors), result)
      ensures result.Some? ==>
        lexIdx > old(lexIdx) && InGrammar(tokens, old(lexIdx), result.value, lexIdx, errors - old(errors))
      ensures forall xs, ops | IsChain(tokens, old(lexIdx), xs, ops) :: result.Some? && IsTree(result.value, xs, ops)
      decreases |tokens| - lexIdx, 14
    {
      hide IsChain, IsTree;
      ghost var start := lexIdx;
      ChainsParsed(tokens, start);
      if lexIdx >= |tokens| {
        return None;
      }
      if tokens[lexIdx].IfTk? || tokens[lexIdx].OpenSquare? {
        outside := true;
        return None;
      }
      result := ParseBinary(0);
      if result.Some? { var c := SoundExpression(tokens, start); }
    }

    method ParseBinary(k: nat) returns (result: Option<Expr>)
      requires !outside && k <= UNARY
      modifies this
      ensures Shows(Level(tokens, k, old(lexIdx)), old(lexIdx), old(errors), result)
      decreases |tokens| - lexIdx, 13 - k
    {
      if k == UNARY {
        result := ParsePrefix();
        return;
      }
      var save := lexIdx;
      var lhs := ParseBinary(k + 1);
      if outside || lhs == None { return None; }
      ghost var start, first := lexIdx, lhs.value;
      var op := AcceptOperator(k);
      while op != None
        invariant lhs.Some? && !outside && errors >= old(errors)
        invariant op == None ==> !IsOperator(tokens, lexIdx, k)
        invariant op != None ==>
                    lexIdx > 0 && IsOperator(tokens, lexIdx - 1, k) && tokens[lexIdx - 1].op == op.value
                    && lexIdx > save + 1
        invariant Level(tokens, k, save) ==
                    Chain(tokens, k, lhs.value, if op == None then lexIdx else lexIdx - 1, errors - old(errors))
        decreases |tokens| - lexIdx, if op == None then 0 else 1
      {
        var rhs := ParseBinary(k + 1);
        if outside { return None; }
        if rhs == None {
          lexIdx := save;
          return None;
        }
        lhs := Some(Binary(op.value, lhs.value, rhs.value));
        op := AcceptOperator(k);
      }
      result := lhs;
    }

    method ParsePrefix() returns (result: Option<Expr>)
      requires !outside
      modifies this
      ensures Shows(ParseUnary(tokens, old(lexIdx)), old(lexIdx), old(errors), result)
      decreases |tokens| - lexIdx, 2
    {
      result := ParsePostfix();
      if outside || result.Some? || lexIdx >= |tokens| { return; }
      var t := tokens[lexIdx];
      if t.Unalias? {
        outside := true;
        return None;
      }
      if PrefixOf(t) == [] { return None; }
      lexIdx := lexIdx + 1;
      var operand := ParsePrefix();
      if outside { return None; }
      result := Some(Unary(PrefixOf(t)[0], if operand.Some? then operand.value else Missing));
    }

    method ParsePostfix() returns (result: Option<Expr>)
      requires !outside
      modifies this
      ensures Shows(Postfix(tokens, old(lexIdx)), old(lexIdx), old(errors), result)
      decreases |tokens| - lexIdx, 1
    {
      hide Primary, ExpressionList, Suffixes;
      var save := lexIdx;
      var x := ParsePrimary();
      if outside || x == None { return None; }
      while true
        invariant x.Some? && !outside && save < lexIdx && errors >= old(errors)
        invariant Postfix(tokens, save) == Suffixes(tokens, x.value, lexIdx, errors - old(errors))
        decreases |tokens| - lexIdx
      {
        SuffixStep(tokens, x.value, lexIdx, errors - old(errors));
        var paren := Accept(OpenParen);
        var square := false;
        if !paren { square := Accept(OpenSquare); }
        if paren || square {
          var args := ParseBracketed(if paren then CloseParen else CloseSquare);
          if outside { return None; }
          if args == None {
            lexIdx := save;
            return None;
          }
          x := Some(if paren then Call(x.value, args.value) else Index(x.value, args.value));
        } else {
          var dot := Accept(Dot);
          if !dot { break; }
          var name := ExpectIdentifier();
          if name == None {
            lexIdx := save;
            return None;
          }
          x := Some(Member(x.value, name.value));
        }
      }
      result := x;
    }

    /** A list of expressions up to the bracket that closes it; a missing one is reported. */
    method ParseBracketed(close: Token) returns (args: Option<seq<Expr>>)
      requires !outside && lexIdx <= |tokens|
      modifies this
      ensures match ExpressionList(tokens, old(lexIdx))
              case ListOutside => outside && args == None
              case Items(trees, next, errs) =>
                && !outside && args == (if Is(tokens, next, close) then Some(trees) else None)
                && (args.Some? ==> lexIdx == next + 1)
                && errors == old(errors) + errs + (if args.Some? then 0 else 1)
      decreases |tokens| - lexIdx, 16
    {
      hide ExpressionList;
      var trees := ParseExpressionList();
      if outside { return None; }
      var closed := Expect(close);
      args := if closed then Some(trees) else None;
    }

    method ParsePrimary() returns (result: Option<Expr>)
      requires !outside
      modifies this
      ensures Shows(Primary(tokens, old(lexIdx)), old(lexIdx), old(errors), result)
      decreases |tokens| - lexIdx, 0
    {
      if lexIdx >= |tokens| { return None; }
      var save := lexIdx;
      match tokens[lexIdx]
      case OpenParen =>
        lexIdx := lexIdx + 1;
        var x := ParseExpression();
        if outside { return None; }
        var closed := Expect(CloseParen);
        if !closed || x == None {
          lexIdx := save;
          return None;
        }
        result := x;
      case FnOrLiteral =>
        outside := true;
        result := None;
      case IntegerTk(n) =>
        lexIdx := lexIdx + 1;
        result := Some(Int(n));
      case TrueTk =>
        lexIdx := lexIdx + 1;
        result := Some(Boolean(true));
      case FalseTk =>
        lexIdx := lexIdx + 1;
        result := Some(Boolean(false));
      case Identifier(_) => result := ParseQualifiedName();
      case _ => result := None;
    }

    method ParseQualifiedName() returns (result: Option<Expr>)
      requires !outside && lexIdx < |tokens| && tokens[lexIdx].Identifier?
      modifies this`lexIdx, this`errors
      ensures Shows(QualifiedName(tokens, [], tokens[old(lexIdx)].name, old(lexIdx) + 1), old(lexIdx), old(errors),
                    result)
    {
      var save, name, qualifiers := lexIdx, tokens[lexIdx].name, [];
      lexIdx := lexIdx + 1;
      var more := Accept(ColonColon);
      while more
        invariant lexIdx > save + (if more then 1 else 0) && errors == old(errors)
        invariant more ==> Is(tokens, lexIdx - 1, ColonColon)
        invariant !more ==> !Is(tokens, lexIdx, ColonColon)
        invariant QualifiedName(tokens, [], tokens[save].name, save + 1)
               == QualifiedName(tokens, qualifiers, name, if more then lexIdx - 1 else lexIdx)
        decreases |tokens| - lexIdx, if more then 1 else 0
      {
        qualifiers := qualifiers + [name];
        var next := ExpectIdentifier();
        if next == None {
          lexIdx := save;
          return None;
        }
        name := next.value;
        more := Accept(ColonColon);
      }
      result := Some(Variable(qualifiers, name));
    }

    /** An element can only be missing at the start or behind a comma, so no error is reported about it. */
    method ParseExpressionList() returns (contents: seq<Expr>)
      requires !outside && lexIdx <= |tokens|
      modifies this
      ensures match ExpressionList(tokens, old(lexIdx))
              case ListOutside => outside
              case Items(trees, next, errs) =>
                !outside && contents == trees && lexIdx == next && errors == old(errors) + errs
      decreases |tokens| - lexIdx, 15
    {
      hide Expression, ExpressionList, Prepended;
      contents := [];
      ghost var start, all := lexIdx, ExpressionList(tokens, lexIdx);
      NothingPrepended(all);
      while true
        invariant !outside && start <= lexIdx <= |tokens| && errors >= old(errors)
        invariant contents != [] ==> lexIdx > start && Is(tokens, lexIdx - 1, Comma)
        invariant Prepended(contents, errors - old(errors), ExpressionList(tokens, lexIdx)) == all
        decreases |tokens| - lexIdx
      {
        ListStep(tokens, lexIdx, contents, errors - old(errors));
        var x := ParseExpression();
        if outside { return; }
        if x == None {
          assert contents == [] || tokens[lexIdx - 1].Comma?;
          break;
        }
        contents := contents + [x.value];
        var comma := Accept(Comma);
        if !comma { break; }
      }
    }
  }

  /** A list whose first elements have been parsed already. */
  function Prepended(contents: seq<Expr>, errs: nat, rest: Listing): Listing {
    match rest
    case ListOutside => ListOutside
    case Items(trees, next, more) => Items(contents + trees, next, errs + more)
  }

  lemma NothingPrepended(rest: Listing)
    ensures Prepended([], 0, rest) == rest
  {
    if rest.Items? { assert [] + rest.trees == rest.trees; }
  }

  /** What one more element, or none, does to a list. */
  lemma ListStep(toks: seq<Token>, i: nat, contents: seq<Expr>, errs: nat)
    ensures Prepended(contents, errs, ExpressionList(toks, i)) ==
      match Expression(toks, i)
      case Failed(more) => Items(contents, i, errs + more)
      case Outside => ListOutside
      case Parsed(x, j, more) =>
        if Is(toks, j, Comma) then Prepended(contents + [x], errs + more, ExpressionList(toks, j + 1))
        else Items(contents + [x], j, errs + more)
  {
    hide Expression;
    assert contents + [] == contents;
    match Expression(toks, i)
    case Parsed(x, j, _) =>
      if Is(toks, j, Comma) && ExpressionList(toks, j + 1).Items? {
        var rest := ExpressionList(toks, j + 1).trees;
        assert contents + ([x] + rest) == (contents + [x]) + rest;
      }
    case Failed(_) =>
    case Outside =>
  }

  /** What follows a parsed expression, one suffix at a time. */
  lemma SuffixStep(toks: seq<Token>, x: Expr, j: nat, errs: nat)
    ensures Suffixes(toks, x, j, errs) ==
              if Is(toks, j, OpenParen) then AfterBracket(toks, x, true, j, errs)
              else if Is(toks, j, OpenSquare) then AfterBracket(toks, x, false, j, errs)
              else if !Is(toks, j, Dot) then Parsed(x, j, errs)
              else if j + 1 < |toks| && toks[j + 1].Identifier? then
                Suffixes(toks, Member(x, toks[j + 1].name), j + 2, errs)
              else Failed(errs + 1)
  {
    hide ExpressionList;
  }

  function AfterBracket(toks: seq<Token>, x: Expr, paren: bool, j: nat, errs: nat): Outcome {
    match ExpressionList(toks, j + 1)
    case ListOutside => Outside
    case Items(args, k, more) =>
      if !Is(toks, k, if paren then CloseParen else CloseSquare) then Failed(errs + more + 1)
      else Suffixes(toks, if paren then Call(x, args) else Index(x, args), k + 1, errs + more)
  }
}
