/**
 Every sentence of the grammar is parsed back to its tree, without an error, whatever follows it
 as long as the next token cannot continue the expression.
 */
module ParserCompleteness {
  import opened Syntax
  import opened Parsing
  import opened ParserSoundness

  ghost predicate Lies(toks: seq<Token>, i: nat, frag: seq<Token>) {
    i + |frag| <= |toks| && toks[i..i + |frag|] == frag
  }

  /** The token at `j` does not continue an expression of level `k` or tighter. */
  predicate Stops(toks: seq<Token>, j: nat, k: nat) {
    j < |toks| ==>
      && !toks[j].OpenParen? && !toks[j].OpenSquare? && !toks[j].Dot? && !toks[j].ColonColon?
      && (toks[j].Operation? ==> LevelOf(toks[j].op) < k)
  }

  lemma LiesSplit(toks: seq<Token>, i: nat, a: seq<Token>, b: seq<Token>)
    requires Lies(toks, i, a + b)
    ensures Lies(toks, i, a) && Lies(toks, i + |a|, b)
  {
    assert toks[i..i + |a|] == (a + b)[..|a|] == a;
    assert toks[i + |a|..i + |a| + |b|] == (a + b)[|a|..] == b;
  }

  lemma LiesFirst(toks: seq<Token>, i: nat, t: Token, b: seq<Token>)
    requires Lies(toks, i, [t] + b)
    ensures Is(toks, i, t) && Lies(toks, i + 1, b)
  {
    LiesSplit(toks, i, [t], b);
    assert toks[i..i + 1][0] == t;
  }

  lemma LiesOne(toks: seq<Token>, i: nat, t: Token)
    requires Lies(toks, i, [t])
    ensures Is(toks, i, t)
  {
    assert toks[i..i + 1][0] == t;
  }

  /** No sentence begins with a token that leads out of the grammar. */
  lemma {:induction false} FirstToken(c: Cst, k: nat)
    requires Fits(c, k)
    ensures Tokens(c) != [] && !Tokens(c)[0].IfTk? && !Tokens(c)[0].OpenSquare?
    decreases c
  {
    match c
    case CBinary(op, l, _) => FirstToken(l, LevelOf(op));
    case CCall(f, _, _) => FirstToken(f, POSTFIX);
    case CIndex(x, _, _) => FirstToken(x, POSTFIX);
    case CMember(x, _) => FirstToken(x, POSTFIX);
    case CInt(_) =>
    case CBoolean(_) =>
    case CVariable(_, _) =>
    case CGroup(_) =>
    case CUnary(_, _) =>
  }

  lemma {:induction false} CompleteExpression(toks: seq<Token>, i: nat, c: Cst)
    requires Fits(c, 0) && Whole(c) && Lies(toks, i, Tokens(c)) && Stops(toks, i + |Tokens(c)|, 0)
    ensures Expression(toks, i) == Parsed(Strip(c), i + |Tokens(c)|, 0)
    decreases c, UNARY, 4
  {
    hide Tokens, Fits, Whole, Level;
    FirstToken(c, 0);
    assert toks[i] == toks[i..i + |Tokens(c)|][0];
    CompleteLevel(toks, 0, i, c);
  }

  lemma {:induction false} CompleteLevel(toks: seq<Token>, k: nat, i: nat, c: Cst)
    requires k <= UNARY && Fits(c, k) && Whole(c) && Lies(toks, i, Tokens(c)) && Stops(toks, i + |Tokens(c)|, k)
    ensures Level(toks, k, i) == Parsed(Strip(c), i + |Tokens(c)|, 0)
    decreases c, UNARY - k, 3
  {
    hide Tokens, Fits, Whole, Chain, Lies, Strip, ParseUnary, Stops;
    if k == UNARY {
      CompleteUnary(toks, i, c);
    } else {
      ChainStops(toks, k, Strip(c), i + |Tokens(c)|);
      CompleteChain(toks, k, i, c);
    }
  }

  /** Parsing at a level gets to the end of `c` and goes on with the operators of that level. */
  lemma {:induction false} CompleteChain(toks: seq<Token>, k: nat, i: nat, c: Cst)
    requires k < UNARY && Fits(c, k) && Whole(c) && Lies(toks, i, Tokens(c)) && Stops(toks, i + |Tokens(c)|, k + 1)
    ensures Level(toks, k, i) == Chain(toks, k, Strip(c), i + |Tokens(c)|, 0)
    decreases c, UNARY - k, 2
  {
    hide Level, Chain, Fits, Stops, Tokens, Lies, Whole, Strip;
    if c.CBinary? && LevelOf(c.op) == k {
      var j := i + |Tokens(c.lhs)|;
      BinaryParts(toks, k, i, c);
      CompleteChain(toks, k, i, c.lhs);
      CompleteLevel(toks, k + 1, j + 1, c.rhs);
      ChainStep(toks, k, Strip(c.lhs), j, Strip(c.rhs), j + 1 + |Tokens(c.rhs)|);
    } else {
      FitsTighter(c, k);
      CompleteLevel(toks, k + 1, i, c);
      LevelStep(toks, k, i);
    }
  }

  lemma BinaryParts(toks: seq<Token>, k: nat, i: nat, c: Cst)
    requires c.CBinary? && LevelOf(c.op) == k && Fits(c, k) && Whole(c) && Lies(toks, i, Tokens(c))
    ensures var j := i + |Tokens(c.lhs)|;
            && Fits(c.lhs, k) && Fits(c.rhs, k + 1) && Whole(c.lhs) && Whole(c.rhs)
            && Lies(toks, i, Tokens(c.lhs)) && Lies(toks, j + 1, Tokens(c.rhs))
            && Is(toks, j, Operation(c.op)) && Stops(toks, j, k + 1)
            && i + |Tokens(c)| == j + 1 + |Tokens(c.rhs)| && Strip(c) == Binary(c.op, Strip(c.lhs), Strip(c.rhs))
  {
    LiesSplit(toks, i, Tokens(c.lhs), [Operation(c.op)] + Tokens(c.rhs));
    LiesFirst(toks, i + |Tokens(c.lhs)|, Operation(c.op), Tokens(c.rhs));
  }

  lemma ChainStep(toks: seq<Token>, k: nat, lhs: Expr, j: nat, rhs: Expr, next: nat)
    requires k < UNARY && IsOperator(toks, j, k) && Level(toks, k + 1, j + 1) == Parsed(rhs, next, 0)
    ensures Chain(toks, k, lhs, j, 0) == Chain(toks, k, Binary(toks[j].op, lhs, rhs), next, 0)
  {
  }

  lemma LevelStep(toks: seq<Token>, k: nat, i: nat)
    requires k < UNARY && Level(toks, k + 1, i).Parsed?
    ensures var r := Level(toks, k + 1, i); Level(toks, k, i) == Chain(toks, k, r.tree, r.next, r.errs)
  {
  }

  lemma ChainStops(toks: seq<Token>, k: nat, lhs: Expr, j: nat)
    requires k < UNARY && Stops(toks, j, k)
    ensures Chain(toks, k, lhs, j, 0) == Parsed(lhs, j, 0) && Stops(toks, j, k + 1)
  {
  }

  lemma FitsTighter(c: Cst, k: nat)
    requires k < UNARY && Fits(c, k) && !(c.CBinary? && LevelOf(c.op) == k)
    ensures Fits(c, k + 1)
  {
  }

  lemma {:induction false} CompleteUnary(toks: seq<Token>, i: nat, c: Cst)
    requires Fits(c, UNARY) && Whole(c) && Lies(toks, i, Tokens(c)) && Stops(toks, i + |Tokens(c)|, UNARY)
    ensures ParseUnary(toks, i) == Parsed(Strip(c), i + |Tokens(c)|, 0)
    decreases c, 0, 2
  {
    hide Suffixes, Postfix, Lies, Fits, Whole;
    UnaryParts(c);
    if c.CUnary? {
      LiesFirst(toks, i, PrefixToken(c.prefix), Tokens(c.operand));
      NoErrorAtPrefix(toks, i);
      CompleteUnary(toks, i + 1, c.operand);
    } else {
      CompletePostfix(toks, i, c);
      SuffixesStop(toks, Strip(c), i + |Tokens(c)|);
    }
  }

  lemma UnaryParts(c: Cst)
    requires Fits(c, UNARY) && Whole(c)
    ensures if c.CUnary? then Fits(c.operand, UNARY) && Whole(c.operand) else Fits(c, POSTFIX)
  {
  }

  lemma SuffixesStop(toks: seq<Token>, x: Expr, j: nat)
    requires Stops(toks, j, UNARY)
    ensures Suffixes(toks, x, j, 0) == Parsed(x, j, 0)
  {
  }

  /** Going over one call, subscript or member. */
  lemma SuffixStep(toks: seq<Token>, x: Expr, j: nat, args: seq<Expr>, next: nat)
    requires Is(toks, j, OpenParen) || Is(toks, j, OpenSquare)
    requires ExpressionList(toks, j + 1) == Items(args, next, 0)
    requires Is(toks, next, if toks[j].OpenParen? then CloseParen else CloseSquare)
    ensures Suffixes(toks, x, j, 0) ==
              Suffixes(toks, if toks[j].OpenParen? then Call(x, args) else Index(x, args), next + 1, 0)
  {
  }

  lemma {:induction false} CompleteCall(toks: seq<Token>, i: nat, c: Cst)
    requires c.CCall? || c.CIndex?
    requires Fits(c, POSTFIX) && Whole(c) && Lies(toks, i, Tokens(c))
    ensures Postfix(toks, i) == Suffixes(toks, Strip(c), i + |Tokens(c)|, 0)
    decreases c, 0, 0
  {
    hide Suffixes, Postfix, Lies, ExpressionList;
    var open, close := if c.CCall? then OpenParen else OpenSquare, if c.CCall? then CloseParen else CloseSquare;
    var f, args := if c.CCall? then c.callee else c.thing, if c.CCall? then c.args else c.subscript;
    LiesSplit(toks, i, Tokens(f), [open] + (ListTokens(args, c.trailing) + [close]));
    var j := i + |Tokens(f)|;
    LiesFirst(toks, j, open, ListTokens(args, c.trailing) + [close]);
    CompletePostfix(toks, i, f);
    CompleteBracket(toks, j + 1, args, c.trailing, close);
    SuffixStep(toks, Strip(f), j, StripAll(args), j + 1 + |ListTokens(args, c.trailing)|);
  }

  lemma {:induction false} CompleteMember(toks: seq<Token>, i: nat, x: Cst, member: string)
    requires Fits(x, POSTFIX) && Whole(x) && Lies(toks, i, Tokens(x) + [Dot, Identifier(member)])
    ensures Postfix(toks, i) == Suffixes(toks, Member(Strip(x), member), i + |Tokens(x)| + 2, 0)
    decreases x, 0, 2
  {
    hide Postfix, Lies, Fits, Whole, Strip, Tokens;
    LiesSplit(toks, i, Tokens(x), [Dot, Identifier(member)]);
    var j := i + |Tokens(x)|;
    assert [Dot, Identifier(member)] == [Dot] + [Identifier(member)];
    LiesFirst(toks, j, Dot, [Identifier(member)]);
    LiesOne(toks, j + 1, Identifier(member));
    CompletePostfix(toks, i, x);
  }

  lemma {:induction false} CompletePostfix(toks: seq<Token>, i: nat, c: Cst)
    requires Fits(c, POSTFIX) && Whole(c) && Lies(toks, i, Tokens(c)) && !Is(toks, i + |Tokens(c)|, ColonColon)
    ensures Postfix(toks, i) == Suffixes(toks, Strip(c), i + |Tokens(c)|, 0)
    decreases c, 0, 1
  {
    hide Expression, ExpressionList, Suffixes;
    match c
    case CInt(n) => LiesOne(toks, i, IntegerTk(n));
    case CBoolean(b) => LiesOne(toks, i, if b then TrueTk else FalseTk);
    case CVariable(qualifiers, name) => CompleteVariable(toks, i, qualifiers, name);
    case CGroup(inner) => CompleteGroup(toks, i, inner);
    case CCall(_, _, _) => CompleteCall(toks, i, c);
    case CIndex(_, _, _) => CompleteCall(toks, i, c);
    case CMember(x, member) => CompleteMember(toks, i, x, member);
  }

  lemma {:induction false} CompleteGroup(toks: seq<Token>, i: nat, inner: Cst)
    requires Fits(inner, 0) && Whole(inner) && Lies(toks, i, Tokens(CGroup(inner)))
    ensures Primary(toks, i) == Parsed(Strip(inner), i + |Tokens(CGroup(inner))|, 0)
    decreases inner, UNARY, 5
  {
    hide Fits, Whole, Lies;
    LiesFirst(toks, i, OpenParen, Tokens(inner) + [CloseParen]);
    LiesSplit(toks, i + 1, Tokens(inner), [CloseParen]);
    LiesOne(toks, i + 1 + |Tokens(inner)|, CloseParen);
    CompleteExpression(toks, i + 1, inner);
  }

  /** A list up to its closing bracket. */
  lemma {:induction false} CompleteBracket(toks: seq<Token>, i: nat, list: seq<Cst>, trailing: bool, close: Token)
    requires FitsList(list) && AllWhole(list) && (trailing ==> list != []) && (close.CloseParen? || close.CloseSquare?)
    requires Lies(toks, i, ListTokens(list, trailing) + [close])
    ensures var j := i + |ListTokens(list, trailing)|;
            ExpressionList(toks, i) == Items(StripAll(list), j, 0) && Is(toks, j, close)
    decreases list, 0, 0
  {
    hide Expression, ExpressionList, Lies, Tokens, Fits, Whole, Strip, ListTokens, StripAll, FitsList, AllWhole, Stops;
    LiesSplit(toks, i, ListTokens(list, trailing), [close]);
    var j := i + |ListTokens(list, trailing)|;
    LiesOne(toks, j, close);
    if list == [] {
      NothingListed(trailing);
      NoErrorAtClose(toks, 0, i);
      NoItem(toks, i);
    } else {
      var x := list[0];
      ListParts(list);
      if |list| == 1 && !trailing {
        OneElement(list);
        BracketStops(toks, j);
        CompleteExpression(toks, i, x);
        LastItem(toks, i, Strip(x), j);
      } else {
        var rest, more, k := list[1..], trailing && |list| > 1, i + |Tokens(x)|;
        MoreParts(toks, i, list, trailing, close);
        BracketStops(toks, k);
        CompleteExpression(toks, i, x);
        CompleteBracket(toks, k + 1, rest, more, close);
        NextItem(toks, i, Strip(x), k);
      }
    }
  }

  lemma MoreParts(toks: seq<Token>, i: nat, list: seq<Cst>, trailing: bool, close: Token)
    requires list != [] && (trailing || |list| > 1) && Lies(toks, i, ListTokens(list, trailing) + [close])
    ensures var rest, more, k := list[1..], trailing && |list| > 1, i + |Tokens(list[0])|;
            && Lies(toks, i, Tokens(list[0])) && Is(toks, k, Comma)
            && Lies(toks, k + 1, ListTokens(rest, more) + [close])
            && i + |ListTokens(list, trailing)| == k + 1 + |ListTokens(rest, more)|
  {
    hide Lies, Tokens, ListTokens;
    var rest, more := list[1..], trailing && |list| > 1;
    ListHead(list, trailing, close);
    HeadLies(toks, i, Tokens(list[0]), ListTokens(rest, more) + [close]);
  }

  lemma HeadLies(toks: seq<Token>, i: nat, first: seq<Token>, tail: seq<Token>)
    requires Lies(toks, i, first + ([Comma] + tail))
    ensures Lies(toks, i, first) && Is(toks, i + |first|, Comma) && Lies(toks, i + |first| + 1, tail)
  {
    hide Lies;
    LiesSplit(toks, i, first, [Comma] + tail);
    LiesFirst(toks, i + |first|, Comma, tail);
  }

  lemma ListParts(list: seq<Cst>)
    requires list != [] && FitsList(list) && AllWhole(list)
    ensures Fits(list[0], 0) && Whole(list[0]) && FitsList(list[1..]) && AllWhole(list[1..])
    ensures StripAll(list) == [Strip(list[0])] + StripAll(list[1..])
  {
  }

  lemma BracketStops(toks: seq<Token>, j: nat)
    requires Is(toks, j, Comma) || Is(toks, j, CloseParen) || Is(toks, j, CloseSquare)
    ensures Stops(toks, j, 0)
  {
  }

  lemma NothingListed(trailing: bool)
    ensures ListTokens([], trailing) == [] && StripAll([]) == []
  {
  }

  lemma NoItem(toks: seq<Token>, i: nat)
    requires Expression(toks, i) == Failed(0)
    ensures ExpressionList(toks, i) == Items([], i, 0)
  {
  }

  lemma OneElement(list: seq<Cst>)
    requires |list| == 1
    ensures ListTokens(list, false) == Tokens(list[0]) && StripAll(list) == [Strip(list[0])]
  {
    assert Tokens(list[0]) + [] == Tokens(list[0]);
    assert StripAll(list[1..]) == [];
  }

  lemma LastItem(toks: seq<Token>, i: nat, x: Expr, j: nat)
    requires Expression(toks, i) == Parsed(x, j, 0) && !Is(toks, j, Comma)
    ensures ExpressionList(toks, i) == Items([x], j, 0)
  {
  }

  lemma NextItem(toks: seq<Token>, i: nat, x: Expr, j: nat)
    requires Expression(toks, i) == Parsed(x, j, 0) && Is(toks, j, Comma) && ExpressionList(toks, j + 1).Items?
    ensures var r := ExpressionList(toks, j + 1); ExpressionList(toks, i) == Items([x] + r.trees, r.next, r.errs)
  {
  }

  lemma ListHead(list: seq<Cst>, trailing: bool, close: Token)
    requires list != [] && (trailing || |list| > 1)
    ensures var rest, more := list[1..], trailing && |list| > 1;
            && ListTokens(list, trailing) + [close] == Tokens(list[0]) + ([Comma] + (ListTokens(rest, more) + [close]))
            && |ListTokens(list, trailing)| == |Tokens(list[0])| + 1 + |ListTokens(rest, more)|
  {
  }

  lemma CompleteVariable(toks: seq<Token>, i: nat, qualifiers: seq<string>, name: string)
    requires Lies(toks, i, QualifierTokens(qualifiers) + [Identifier(name)])
    requires !Is(toks, i + |QualifierTokens(qualifiers) + [Identifier(name)]|, ColonColon)
    ensures Primary(toks, i) ==
              Parsed(Variable(qualifiers, name), i + |QualifierTokens(qualifiers) + [Identifier(name)]|, 0)
  {
    CompleteName(toks, i, [], qualifiers, name);
    if qualifiers == [] {
      assert [] + [Identifier(name)] == [Identifier(name)];
      LiesOne(toks, i, Identifier(name));
    } else {
      var rest := [ColonColon] + QualifierTokens(qualifiers[1..]) + [Identifier(name)];
      assert QualifierTokens(qualifiers) + [Identifier(name)] == [Identifier(qualifiers[0])] + rest;
      LiesFirst(toks, i, Identifier(qualifiers[0]), rest);
    }
    assert [] + qualifiers == qualifiers;
  }

  lemma {:induction false} CompleteName(toks: seq<Token>, i: nat, before: seq<string>, qualifiers: seq<string>,
                                        name: string)
    requires Lies(toks, i, QualifierTokens(qualifiers) + [Identifier(name)])
    requires !Is(toks, i + |QualifierTokens(qualifiers) + [Identifier(name)]|, ColonColon)
    ensures QualifiedName(toks, before, if qualifiers == [] then name else qualifiers[0], i + 1)
         == Parsed(Variable(before + qualifiers, name), i + |QualifierTokens(qualifiers) + [Identifier(name)]|, 0)
    decreases |qualifiers|
  {
    if qualifiers == [] {
      assert before + [] == before;
    } else {
      var rest := QualifierTokens(qualifiers[1..]) + [Identifier(name)];
      assert QualifierTokens(qualifiers) + [Identifier(name)] == [Identifier(qualifiers[0]), ColonColon] + rest;
      LiesSplit(toks, i, [Identifier(qualifiers[0]), ColonColon], rest);
      assert toks[i + 1] == toks[i..i + 2][1];
      CompleteName(toks, i + 2, before + [qualifiers[0]], qualifiers[1..], name);
      assert (before + [qualifiers[0]]) + qualifiers[1..] == before + qualifiers;
      NextName(toks, i + 2, qualifiers[1..], name);
    }
  }

  lemma NextName(toks: seq<Token>, i: nat, qualifiers: seq<string>, name: string)
    requires Lies(toks, i, QualifierTokens(qualifiers) + [Identifier(name)])
    ensures Is(toks, i, Identifier(if qualifiers == [] then name else qualifiers[0]))
  {
    assert toks[i] == toks[i..i + |QualifierTokens(qualifiers) + [Identifier(name)]|][0];
  }
}
