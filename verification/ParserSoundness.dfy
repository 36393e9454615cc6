/** Every tree the parser returns is a sentence of the grammar, made of exactly the tokens it consumed. */
module ParserSoundness {
  import opened Syntax
  import opened Parsing

  /** `c` is what was parsed from `i` up to `next`; errors are reported only if an operand is missing. */
  ghost predicate Sentence(toks: seq<Token>, i: nat, c: Cst, k: nat, tree: Expr, next: nat, errs: nat) {
    && i <= next <= |toks| && Tokens(c) == toks[i..next]
    && Strip(c) == tree && Fits(c, k) && (Whole(c) ==> errs == 0)
  }

  /** The tokens from `i` to `next` are a sentence with the given tree. */
  ghost predicate InGrammar(toks: seq<Token>, i: nat, tree: Expr, next: nat, errs: nat) {
    exists c :: Sentence(toks, i, c, 0, tree, next, errs)
  }

  lemma Joined(toks: seq<Token>, i: nat, j: nat, k: nat)
    requires i <= j <= k <= |toks|
    ensures toks[i..j] + toks[j..k] == toks[i..k]
  {
  }

  lemma One(toks: seq<Token>, i: nat)
    requires i < |toks|
    ensures toks[i..i + 1] == [toks[i]]
  {
  }

  lemma {:induction false} SoundExpression(toks: seq<Token>, i: nat) returns (c: Cst)
    requires Expression(toks, i).Parsed?
    ensures var r := Expression(toks, i); Sentence(toks, i, c, 0, r.tree, r.next, r.errs)
    decreases |toks| - i, 14
  {
    c := SoundLevel(toks, 0, i);
  }

  lemma {:induction false} SoundLevel(toks: seq<Token>, k: nat, i: nat) returns (c: Cst)
    requires k <= UNARY && Level(toks, k, i).Parsed?
    ensures var r := Level(toks, k, i); Sentence(toks, i, c, k, r.tree, r.next, r.errs)
    decreases |toks| - i, 13 - k
  {
    if k == UNARY {
      c := SoundUnary(toks, i);
    } else {
      var lhs := SoundLevel(toks, k + 1, i);
      var r := Level(toks, k + 1, i);
      FitsLooser(lhs, k + 1, k);
      c := SoundChain(toks, k, i, lhs, r.tree, r.next, r.errs);
    }
  }

  lemma {:induction false} FitsLooser(c: Cst, k: nat, k': nat)
    requires Fits(c, k) && k' <= k
    ensures Fits(c, k')
  {
  }

  lemma {:induction false} SoundChain(toks: seq<Token>, k: nat, i: nat, lhs: Cst, tree: Expr, j: nat, errs: nat)
    returns (c: Cst)
    requires k < UNARY && i < j && Sentence(toks, i, lhs, k, tree, j, errs) && Chain(toks, k, tree, j, errs).Parsed?
    ensures var r := Chain(toks, k, tree, j, errs); Sentence(toks, i, c, k, r.tree, r.next, r.errs)
    decreases |toks| - j, 0
  {
    hide Sentence, Level;
    if !IsOperator(toks, j, k) {
      c := lhs;
    } else {
      var rhs := SoundLevel(toks, k + 1, j + 1);
      var r := Level(toks, k + 1, j + 1);
      var all := CBinary(toks[j].op, lhs, rhs);
      BinarySentence(toks, i, k, lhs, tree, j, errs, rhs, r);
      c := SoundChain(toks, k, i, all, Binary(toks[j].op, tree, r.tree), r.next, errs + r.errs);
    }
  }

  lemma BinarySentence(toks: seq<Token>, i: nat, k: nat, lhs: Cst, tree: Expr, j: nat, errs: nat, rhs: Cst, r: Outcome)
    requires Sentence(toks, i, lhs, k, tree, j, errs) && IsOperator(toks, j, k)
    requires r.Parsed? && Sentence(toks, j + 1, rhs, k + 1, r.tree, r.next, r.errs)
    ensures Sentence(toks, i, CBinary(toks[j].op, lhs, rhs), k, Binary(toks[j].op, tree, r.tree), r.next, errs + r.errs)
  {
    One(toks, j);
    Joined(toks, j, j + 1, r.next);
    Joined(toks, i, j, r.next);
  }

  lemma {:induction false} SoundUnary(toks: seq<Token>, i: nat) returns (c: Cst)
    requires ParseUnary(toks, i).Parsed?
    ensures var r := ParseUnary(toks, i); Sentence(toks, i, c, UNARY, r.tree, r.next, r.errs)
    decreases |toks| - i, 2
  {
    match Postfix(toks, i)
    case Parsed(_, _, _) =>
      c := SoundPostfix(toks, i);
      FitsLooser(c, POSTFIX, UNARY);
    case Failed(errs) =>
      NoErrorAtPrefix(toks, i);
      One(toks, i);
      var p := PrefixOf(toks[i])[0];
      if ParseUnary(toks, i + 1).Parsed? {
        var x := SoundUnary(toks, i + 1);
        Joined(toks, i, i + 1, ParseUnary(toks, i + 1).next);
        c := CUnary(p, x);
      } else {
        c := CUnary(p, CMissing);
        assert Tokens(c) == [PrefixToken(p)] + [] == toks[i..i + 1];
      }
  }

  /** What fails at a prefix operator or a closing bracket fails at once. */
  lemma NoErrorAtPrefix(toks: seq<Token>, i: nat)
    ensures i < |toks| && PrefixOf(toks[i]) != [] ==> Postfix(toks, i) == Failed(0)
    ensures i < |toks| && (toks[i].CloseParen? || toks[i].CloseSquare?) ==>
              Postfix(toks, i) == Failed(0) && ParseUnary(toks, i) == Failed(0)
  {
  }

  lemma {:induction false} NoErrorAtClose(toks: seq<Token>, k: nat, i: nat)
    requires k <= UNARY && i < |toks| && (toks[i].CloseParen? || toks[i].CloseSquare?)
    ensures Level(toks, k, i) == Failed(0) && (k == 0 ==> Expression(toks, i) == Failed(0))
    decreases UNARY - k
  {
    if k == UNARY { NoErrorAtPrefix(toks, i); } else { NoErrorAtClose(toks, k + 1, i); }
  }

  lemma {:induction false} SoundPostfix(toks: seq<Token>, i: nat) returns (c: Cst)
    requires Postfix(toks, i).Parsed?
    ensures var r := Postfix(toks, i); Sentence(toks, i, c, POSTFIX, r.tree, r.next, r.errs)
    decreases |toks| - i, 1
  {
    var x := SoundPrimary(toks, i);
    var r := Primary(toks, i);
    c := SoundSuffixes(toks, i, x, r.tree, r.next, r.errs);
  }

  lemma {:induction false} SoundSuffixes(toks: seq<Token>, i: nat, x: Cst, tree: Expr, j: nat, errs: nat)
    returns (c: Cst)
    requires i < j && Sentence(toks, i, x, POSTFIX, tree, j, errs) && Suffixes(toks, tree, j, errs).Parsed?
    ensures var r := Suffixes(toks, tree, j, errs); Sentence(toks, i, c, POSTFIX, r.tree, r.next, r.errs)
    decreases |toks| - j, 0
  {
    hide Sentence, ExpressionList, FitsList, AllWhole, ListTokens, StripAll;
    if Is(toks, j, OpenParen) || Is(toks, j, OpenSquare) {
      var r := ExpressionList(toks, j + 1);
      var args, trailing := SoundList(toks, j + 1);
      BracketSentence(toks, i, x, tree, j, errs, args, trailing, r);
      if toks[j].OpenParen? {
        c := SoundSuffixes(toks, i, CCall(x, args, trailing), Call(tree, r.trees), r.next + 1, errs + r.errs);
      } else {
        c := SoundSuffixes(toks, i, CIndex(x, args, trailing), Index(tree, r.trees), r.next + 1, errs + r.errs);
      }
    } else if Is(toks, j, Dot) {
      MemberSentence(toks, i, x, tree, j, errs);
      c := SoundSuffixes(toks, i, CMember(x, toks[j + 1].name), Member(tree, toks[j + 1].name), j + 2, errs);
    } else {
      c := x;
    }
  }

  lemma BracketSentence(toks: seq<Token>, i: nat, x: Cst, tree: Expr, j: nat, errs: nat, args: seq<Cst>, trailing: bool,
                        r: Listing)
    requires Sentence(toks, i, x, POSTFIX, tree, j, errs) && r.Items? && j < r.next < |toks|
    requires ListTokens(args, trailing) == toks[j + 1..r.next] && StripAll(args) == r.trees
    requires FitsList(args) && (trailing ==> args != []) && (AllWhole(args) ==> r.errs == 0)
    ensures Is(toks, j, OpenParen) && Is(toks, r.next, CloseParen)
        ==> Sentence(toks, i, CCall(x, args, trailing), POSTFIX, Call(tree, r.trees), r.next + 1, errs + r.errs)
    ensures Is(toks, j, OpenSquare) && Is(toks, r.next, CloseSquare)
        ==> Sentence(toks, i, CIndex(x, args, trailing), POSTFIX, Index(tree, r.trees), r.next + 1, errs + r.errs)
  {
    hide ListTokens, StripAll, FitsList;
    BracketTokens(toks, i, j, r.next);
  }

  lemma BracketTokens(toks: seq<Token>, i: nat, j: nat, next: nat)
    requires i <= j < next < |toks|
    ensures toks[i..j] + ([toks[j]] + (toks[j + 1..next] + [toks[next]])) == toks[i..next + 1]
  {
    One(toks, j);
    One(toks, next);
    Joined(toks, j + 1, next, next + 1);
    Joined(toks, j, j + 1, next + 1);
    Joined(toks, i, j, next + 1);
  }

  lemma MemberSentence(toks: seq<Token>, i: nat, x: Cst, tree: Expr, j: nat, errs: nat)
    requires Sentence(toks, i, x, POSTFIX, tree, j, errs) && Is(toks, j, Dot) && j + 1 < |toks|
    requires toks[j + 1].Identifier?
    ensures Sentence(toks, i, CMember(x, toks[j + 1].name), POSTFIX, Member(tree, toks[j + 1].name), j + 2, errs)
  {
    assert toks[j..j + 2] == [Dot, Identifier(toks[j + 1].name)];
    Joined(toks, i, j, j + 2);
  }

  lemma {:induction false} SoundPrimary(toks: seq<Token>, i: nat) returns (c: Cst)
    requires Primary(toks, i).Parsed?
    ensures var r := Primary(toks, i); Sentence(toks, i, c, POSTFIX, r.tree, r.next, r.errs)
    decreases |toks| - i, 0
  {
    One(toks, i);
    match toks[i]
    case OpenParen =>
      var x := SoundExpression(toks, i + 1);
      var j := Expression(toks, i + 1).next;
      One(toks, j);
      Joined(toks, i + 1, j, j + 1);
      Joined(toks, i, i + 1, j + 1);
      c := CGroup(x);
    case IntegerTk(n) => c := CInt(n);
    case TrueTk => c := CBoolean(true);
    case FalseTk => c := CBoolean(false);
    case Identifier(name) =>
      assert QualifierTokens([]) + [Identifier(name)] == toks[i..i + 1];
      c := SoundName(toks, i, [], name, i + 1);
  }

  lemma {:induction false} QualifierAppend(qualifiers: seq<string>, name: string)
    ensures QualifierTokens(qualifiers + [name]) == QualifierTokens(qualifiers) + [Identifier(name), ColonColon]
    decreases |qualifiers|
  {
    if qualifiers == [] {
      assert [] + [name] == [name] && [name][1..] == [];
    } else {
      assert (qualifiers + [name])[1..] == qualifiers[1..] + [name];
      QualifierAppend(qualifiers[1..], name);
    }
  }

  lemma {:induction false} SoundName(toks: seq<Token>, i: nat, qualifiers: seq<string>, name: string, j: nat)
    returns (c: Cst)
    requires i < j <= |toks| && QualifierTokens(qualifiers) + [Identifier(name)] == toks[i..j]
    requires QualifiedName(toks, qualifiers, name, j).Parsed?
    ensures var r := QualifiedName(toks, qualifiers, name, j); Sentence(toks, i, c, POSTFIX, r.tree, r.next, r.errs)
    decreases |toks| - j
  {
    if !Is(toks, j, ColonColon) {
      c := CVariable(qualifiers, name);
    } else {
      QualifierAppend(qualifiers, name);
      var next := toks[j + 1].name;
      assert toks[j..j + 2] == [ColonColon, Identifier(next)];
      Joined(toks, i, j, j + 2);
      assert QualifierTokens(qualifiers + [name]) + [Identifier(next)]
          == (QualifierTokens(qualifiers) + [Identifier(name)]) + [ColonColon, Identifier(next)];
      c := SoundName(toks, i, qualifiers + [name], next, j + 2);
    }
  }

  ghost predicate AllWhole(list: seq<Cst>) { forall i | 0 <= i < |list| :: Whole(list[i]) }

  lemma {:induction false} SoundList(toks: seq<Token>, i: nat) returns (list: seq<Cst>, trailing: bool)
    requires i <= |toks| && ExpressionList(toks, i).Items?
    ensures var r := ExpressionList(toks, i);
            && ListTokens(list, trailing) == toks[i..r.next] && StripAll(list) == r.trees
            && FitsList(list) && (trailing ==> list != [])
    ensures var r := ExpressionList(toks, i);
            AllWhole(list) && (Is(toks, r.next, CloseParen) || Is(toks, r.next, CloseSquare)) ==> r.errs == 0
    decreases |toks| - i, 15
  {
    hide Tokens, ListTokens, Strip, Fits, Whole, Level;
    match Expression(toks, i)
    case Failed(_) =>
      NoItems();
      list, trailing := [], false;
      if i < |toks| && (toks[i].CloseParen? || toks[i].CloseSquare?) { NoErrorAtClose(toks, 0, i); }
    case Parsed(_, j, _) =>
      var x := SoundExpression(toks, i);
      if !Is(toks, j, Comma) {
        list, trailing := [x], false;
        OneItem(x);
      } else {
        var rest, more := SoundList(toks, j + 1);
        var r := ExpressionList(toks, j + 1);
        list, trailing := [x] + rest, more || rest == [];
        CommaTokens(toks, i, j, r.next);
        MoreItems(x, rest, more);
      }
  }

  lemma CommaTokens(toks: seq<Token>, i: nat, j: nat, next: nat)
    requires i <= j < next <= |toks| && toks[j] == Comma
    ensures toks[i..j] + [Comma] + toks[j + 1..next] == toks[i..next]
  {
    One(toks, j);
    Joined(toks, i, j, j + 1);
    Joined(toks, i, j + 1, next);
  }

  lemma NoItems()
    ensures ListTokens([], false) == [] && StripAll([]) == []
  {
  }

  lemma OneItem(x: Cst)
    ensures ListTokens([x], false) == Tokens(x) && ListTokens([x], true) == Tokens(x) + [Comma]
    ensures StripAll([x]) == [Strip(x)]
  {
    assert Tokens(x) + [] == Tokens(x);
    assert StripAll([x]) == [Strip(x)] + StripAll([]);
  }

  lemma MoreItems(x: Cst, rest: seq<Cst>, more: bool)
    requires rest == [] ==> !more
    ensures ListTokens([x] + rest, more || rest == []) == Tokens(x) + [Comma] + ListTokens(rest, more)
    ensures StripAll([x] + rest) == [Strip(x)] + StripAll(rest)
  {
    assert ([x] + rest)[1..] == rest;
    if rest == [] {
      OneItem(x);
      assert [x] + rest == [x];
      assert Tokens(x) + [Comma] + [] == Tokens(x) + [Comma];
    } else {
      assert Tokens(x) + ([Comma] + ListTokens(rest, more)) == Tokens(x) + [Comma] + ListTokens(rest, more);
    }
  }
}
