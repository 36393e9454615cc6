/**
 The precedence of the binary operators, as a table apart from the parser's levels: whatever chain
 of operands and operators is parsed, its tree is the one that the table gives it.
 */
module Precedence {
  import opened Syntax
  import opened Parsing
  import ParserCompleteness

  /** The operators from the loosest to the tightest; those of one group lean to the left. */
  const GROUPS: seq<set<Operator>> := [
    {LogOr}, {LogAnd}, {BitOr}, {BitXor}, {BitAnd}, {EqualsEquals, NotEquals},
    {Less, LessEquals, Greater, GreaterEquals}, {LShift, RShift}, {Plus, Minus}, {Star, Slash, Operator.Mod}]

  /** `q` stands in a later group than `p`. */
  ghost predicate Tighter(q: Operator, p: Operator) {
    exists i, j :: 0 <= i < j < |GROUPS| && p in GROUPS[i] && q in GROUPS[j]
  }

  /** The operator that is applied last: the last one of the loosest group there is. */
  ghost predicate IsRoot(ops: seq<Operator>, m: nat) {
    && m < |ops|
    && (forall j | 0 <= j < m :: !Tighter(ops[m], ops[j]))
    && (forall j | m < j < |ops| :: Tighter(ops[j], ops[m]))
  }

  /** `t` is the tree of the operands `xs` with the operators `ops` between them. */
  ghost predicate IsTree(t: Expr, xs: seq<Expr>, ops: seq<Operator>)
    requires |xs| == |ops| + 1
    decreases |ops|
  {
    if ops == [] then t == xs[0] else
    exists m: nat :: IsRoot(ops, m) && Joins(t, xs, ops, m)
  }

  ghost predicate Joins(t: Expr, xs: seq<Expr>, ops: seq<Operator>, m: nat)
    requires |xs| == |ops| + 1 && m < |ops|
    decreases |ops|, 0
  {
    && t.Binary? && t.op == ops[m]
    && IsTree(t.lhs, xs[..m + 1], ops[..m]) && IsTree(t.rhs, xs[m + 1..], ops[m + 1..])
  }

  /** From `i` on there are operands, with prefix operators, calls and so on of their own, and operators in turn. */
  ghost predicate IsChain(toks: seq<Token>, i: nat, xs: seq<Expr>, ops: seq<Operator>)
    decreases |ops|
  {
    |xs| == |ops| + 1 &&
    match ParseUnary(toks, i)
    case Parsed(x, j, _) =>
      && x == xs[0]
      && (if ops == [] then j < |toks| ==> !toks[j].Operation?
          else j < |toks| && toks[j] == Operation(ops[0]) && IsChain(toks, j + 1, xs[1..], ops[1..]))
    case _ => false
  }

  /** Where the `n`th operand ends, and how many errors were reported up to there. */
  function EndOf(toks: seq<Token>, i: nat, n: nat): (nat, nat)
    decreases n
  {
    match ParseUnary(toks, i)
    case Parsed(_, j, errs) =>
      if n == 0 then (j, errs) else
      var (k, more) := EndOf(toks, j + 1, n - 1);
      (k, errs + more)
    case _ => (i, 0)
  }

  // ----- the table agrees with the parser's levels -----

  lemma GroupIsLevel(op: Operator, i: nat)
    requires i < |GROUPS|
    ensures op in GROUPS[i] <==> LevelOf(op) == i
  {
  }

  lemma TighterIsLevel(q: Operator, p: Operator)
    ensures Tighter(q, p) <==> LevelOf(q) > LevelOf(p)
  {
    hide LevelOf, GROUPS;
    LevelInside(p);
    LevelInside(q);
    GroupIsLevel(p, LevelOf(p));
    GroupIsLevel(q, LevelOf(q));
    if i, j :| 0 <= i < j < |GROUPS| && p in GROUPS[i] && q in GROUPS[j] {
      GroupIsLevel(p, i);
      GroupIsLevel(q, j);
    }
  }

  lemma LevelInside(op: Operator)
    ensures LevelOf(op) < |GROUPS|
  {
  }

  // ----- chains -----

  lemma {:induction false} ChainAt(toks: seq<Token>, i: nat, xs: seq<Expr>, ops: seq<Operator>, m: nat)
    requires IsChain(toks, i, xs, ops) && m < |ops|
    ensures var (j, _) := EndOf(toks, i, m);
            j < |toks| && toks[j] == Operation(ops[m]) && IsChain(toks, j + 1, xs[m + 1..], ops[m + 1..])
    decreases m
  {
    if m > 0 {
      var j := ParseUnary(toks, i).next;
      ChainAt(toks, j + 1, xs[1..], ops[1..], m - 1);
      assert xs[1..][m..] == xs[m + 1..] && ops[1..][m..] == ops[m + 1..];
    }
  }

  lemma {:induction false} ChainEnds(toks: seq<Token>, i: nat, xs: seq<Expr>, ops: seq<Operator>)
    requires IsChain(toks, i, xs, ops)
    ensures var (j, _) := EndOf(toks, i, |ops|); j < |toks| ==> !toks[j].Operation?
    decreases |ops|
  {
    if ops != [] { ChainEnds(toks, ParseUnary(toks, i).next + 1, xs[1..], ops[1..]); }
  }

  lemma {:induction false} EndAfter(toks: seq<Token>, i: nat, xs: seq<Expr>, ops: seq<Operator>, m: nat, n: nat)
    requires IsChain(toks, i, xs, ops) && m + 1 + n <= |ops|
    ensures var (j, errs) := EndOf(toks, i, m);
            var (k, more) := EndOf(toks, j + 1, n);
            EndOf(toks, i, m + 1 + n) == (k, errs + more)
    decreases m
  {
    if m > 0 { EndAfter(toks, ParseUnary(toks, i).next + 1, xs[1..], ops[1..], m - 1, n); }
  }

  /** The first operator from `m` on of level `k` or looser, before `n`; `n` if there is none. */
  function FirstLoose(ops: seq<Operator>, k: nat, m: nat, n: nat): (r: nat)
    requires m <= n <= |ops|
    ensures m <= r <= n && (forall j | m <= j < r :: LevelOf(ops[j]) > k) && (r < n ==> LevelOf(ops[r]) <= k)
    decreases n - m
  {
    if m == n || LevelOf(ops[m]) <= k then m else FirstLoose(ops, k, m + 1, n)
  }

  /** The next operator is looser than level `k`, or there is none. */
  predicate LooseAt(ops: seq<Operator>, k: nat, n: nat) { n <= |ops| && (n < |ops| ==> LevelOf(ops[n]) < k) }

  /** Parsing at level `k` takes the operands up to the first looser operator, and makes their tree. */
  lemma {:induction false} LevelTree(toks: seq<Token>, k: nat, i: nat, xs: seq<Expr>, ops: seq<Operator>, n: nat)
    returns (t: Expr)
    requires k <= UNARY && IsChain(toks, i, xs, ops) && LooseAt(ops, k, n)
    requires forall j | 0 <= j < n :: LevelOf(ops[j]) >= k
    ensures var (end, errs) := EndOf(toks, i, n); Level(toks, k, i) == Parsed(t, end, errs)
    ensures IsTree(t, xs[..n + 1], ops[..n])
    decreases |ops|, UNARY - k, |ops| + 1
  {
    if k == UNARY {
      t := xs[0];
    } else {
      var m := FirstLoose(ops, k, 0, n);
      var lhs := LevelTree(toks, k + 1, i, xs, ops, m);
      t := ChainTree(toks, k, i, xs, ops, m, n, lhs);
    }
  }

  lemma {:induction false} ChainTree(toks: seq<Token>, k: nat, i: nat, xs: seq<Expr>, ops: seq<Operator>, m: nat,
                                     n: nat, lhs: Expr)
    returns (t: Expr)
    requires k < UNARY && IsChain(toks, i, xs, ops) && m <= n && LooseAt(ops, k, n) && LooseAt(ops, k + 1, m)
    requires forall j | 0 <= j < n :: LevelOf(ops[j]) >= k
    requires IsTree(lhs, xs[..m + 1], ops[..m])
    ensures var (j, errs) := EndOf(toks, i, m);
            var (end, errs') := EndOf(toks, i, n);
            Chain(toks, k, lhs, j, errs) == Parsed(t, end, errs')
    ensures IsTree(t, xs[..n + 1], ops[..n])
    decreases |ops|, UNARY - k, |ops| - m
  {
    hide Level, IsTree, Chain, EndOf, ParseUnary, LevelOf;
    var (j, errs) := EndOf(toks, i, m);
    if m == n {
      t := lhs;
      if n < |ops| { ChainAt(toks, i, xs, ops, n); } else { ChainEnds(toks, i, xs, ops); }
      ChainStops(toks, k, lhs, j, errs);
    } else {
      ChainAt(toks, i, xs, ops, m);
      var m' := FirstLoose(ops, k, m + 1, n);
      var xs', ops', n' := xs[m + 1..], ops[m + 1..], m' - m - 1;
      var rhs := LevelTree(toks, k + 1, j + 1, xs', ops', n');
      EndAfter(toks, i, xs, ops, m, n');
      Joined(lhs, rhs, xs, ops, k, m, m');
      ChainStep(toks, k, lhs, j, errs, ops[m]);
      t := ChainTree(toks, k, i, xs, ops, m', n, Binary(ops[m], lhs, rhs));
    }
  }

  lemma ChainStep(toks: seq<Token>, k: nat, lhs: Expr, j: nat, errs: nat, op: Operator)
    requires k < UNARY && j < |toks| && toks[j] == Operation(op) && LevelOf(op) == k
    ensures match Level(toks, k + 1, j + 1)
            case Parsed(rhs, j', more) =>
              Chain(toks, k, lhs, j, errs) == Chain(toks, k, Binary(op, lhs, rhs), j', errs + more)
            case _ => true
  {
    hide Level, LevelOf;
  }

  lemma ChainStops(toks: seq<Token>, k: nat, lhs: Expr, j: nat, errs: nat)
    requires k < UNARY && !IsOperator(toks, j, k)
    ensures Chain(toks, k, lhs, j, errs) == Parsed(lhs, j, errs)
  {
  }

  lemma Joined(lhs: Expr, rhs: Expr, xs: seq<Expr>, ops: seq<Operator>, k: nat, m: nat, n: nat)
    requires |xs| == |ops| + 1 && m < n <= |ops|
    requires LevelOf(ops[m]) == k && (forall j | 0 <= j < m :: LevelOf(ops[j]) >= k)
    requires forall j | m < j < n :: LevelOf(ops[j]) > k
    requires IsTree(lhs, xs[..m + 1], ops[..m]) && IsTree(rhs, xs[m + 1..][..n - m], ops[m + 1..][..n - m - 1])
    ensures IsTree(Binary(ops[m], lhs, rhs), xs[..n + 1], ops[..n])
  {
    hide Tighter, LevelOf;
    var xs', ops' := xs[..n + 1], ops[..n];
    forall j | 0 <= j < m ensures !Tighter(ops'[m], ops'[j]) { TighterIsLevel(ops[m], ops[j]); }
    forall j | m < j < n ensures Tighter(ops'[j], ops'[m]) { TighterIsLevel(ops[j], ops[m]); }
    assert IsRoot(ops', m);
    assert xs'[..m + 1] == xs[..m + 1] && ops'[..m] == ops[..m];
    assert xs'[m + 1..] == xs[m + 1..][..n - m] && ops'[m + 1..] == ops[m + 1..][..n - m - 1];
    assert Joins(Binary(ops[m], lhs, rhs), xs', ops', m);
  }

  /** Every chain is parsed to the tree that the table gives it, up to its end. */
  lemma ChainParsed(toks: seq<Token>, i: nat, xs: seq<Expr>, ops: seq<Operator>) returns (t: Expr)
    requires IsChain(toks, i, xs, ops)
    ensures var (end, errs) := EndOf(toks, i, |ops|); Expression(toks, i) == Parsed(t, end, errs)
    ensures IsTree(t, xs, ops)
  {
    hide Level, IsTree;
    t := LevelTree(toks, 0, i, xs, ops, |ops|);
    assert xs[..|ops| + 1] == xs && ops[..|ops|] == ops;
    if toks[i].IfTk? || toks[i].OpenSquare? { NotOperand(toks, i); }
  }

  /** The operator is of the `k`th group or a tighter one. */
  ghost predicate FromGroup(op: Operator, k: nat) { exists i :: k <= i < |GROUPS| && op in GROUPS[i] }

  /** The first `n` operators are of the `k`th group or tighter ones, and no more. */
  ghost predicate Covers(ops: seq<Operator>, k: nat, n: nat) {
    n <= |ops| && (forall j | 0 <= j < n :: FromGroup(ops[j], k)) && (n < |ops| ==> !FromGroup(ops[n], k))
  }

  lemma FromGroupIsLevel(op: Operator, k: nat)
    ensures FromGroup(op, k) <==> LevelOf(op) >= k
  {
    hide LevelOf, GROUPS;
    LevelInside(op);
    GroupIsLevel(op, LevelOf(op));
    if i :| k <= i < |GROUPS| && op in GROUPS[i] { GroupIsLevel(op, i); }
  }

  /** Each level parses as many operands as its group and the tighter ones join, to their tree. */
  lemma LevelParsed(toks: seq<Token>, k: nat, i: nat, xs: seq<Expr>, ops: seq<Operator>, n: nat)
    requires k <= UNARY && IsChain(toks, i, xs, ops) && Covers(ops, k, n)
    ensures Level(toks, k, i).Parsed? && IsTree(Level(toks, k, i).tree, xs[..n + 1], ops[..n])
    ensures Level(toks, k, i).next == EndOf(toks, i, n).0
  {
    hide Level, IsTree, FromGroup, LevelOf;
    forall j | 0 <= j < |ops| ensures FromGroup(ops[j], k) <==> LevelOf(ops[j]) >= k { FromGroupIsLevel(ops[j], k); }
    var t := LevelTree(toks, k, i, xs, ops, n);
  }

  lemma ChainsParsed(toks: seq<Token>, i: nat)
    ensures forall xs, ops | IsChain(toks, i, xs, ops) ::
              |xs| == |ops| + 1 && Expression(toks, i).Parsed? && IsTree(Expression(toks, i).tree, xs, ops)
  {
    hide Expression, IsTree;
    forall xs, ops | IsChain(toks, i, xs, ops)
      ensures |xs| == |ops| + 1 && Expression(toks, i).Parsed? && IsTree(Expression(toks, i).tree, xs, ops)
    {
      var t := ChainParsed(toks, i, xs, ops);
    }
  }

  lemma NotOperand(toks: seq<Token>, i: nat)
    requires i < |toks| && (toks[i].IfTk? || toks[i].OpenSquare?)
    ensures !ParseUnary(toks, i).Parsed?
  {
    assert Primary(toks, i) == Failed(0);
    assert Postfix(toks, i) == Failed(0) && PrefixOf(toks[i]) == [];
  }

  /** The table leaves no choice. */
  lemma {:induction false} OneTree(t: Expr, u: Expr, xs: seq<Expr>, ops: seq<Operator>)
    requires |xs| == |ops| + 1 && IsTree(t, xs, ops) && IsTree(u, xs, ops)
    ensures t == u
    decreases |ops|
  {
    if ops != [] {
      var m: nat :| IsRoot(ops, m) && Joins(t, xs, ops, m);
      var n: nat :| IsRoot(ops, n) && Joins(u, xs, ops, n);
      assert m == n;
      OneTree(t.lhs, u.lhs, xs[..m + 1], ops[..m]);
      OneTree(t.rhs, u.rhs, xs[m + 1..], ops[m + 1..]);
    }
  }

  /** Two operators: the second takes its operands first exactly if it is the tighter one. */
  lemma TwoOperators(toks: seq<Token>, i: nat, x: Expr, p: Operator, y: Expr, q: Operator, z: Expr)
    requires IsChain(toks, i, [x, y, z], [p, q])
    ensures Expression(toks, i).Parsed?
    ensures Expression(toks, i).tree ==
              if Tighter(q, p) then Binary(p, x, Binary(q, y, z)) else Binary(q, Binary(p, x, y), z)
  {
    hide Expression, Tighter;
    var xs, ops := [x, y, z], [p, q];
    var t := ChainParsed(toks, i, xs, ops);
    var m: nat :| IsRoot(ops, m) && Joins(t, xs, ops, m);
    if m == 0 {
      assert xs[..1] == [x] && ops[..0] == [] && IsTree(t.lhs, [x], []);
      OneOperator(t.rhs, y, q, z, xs[1..], ops[1..]);
    } else {
      assert xs[2..] == [z] && ops[2..] == [] && IsTree(t.rhs, [z], []);
      OneOperator(t.lhs, x, p, y, xs[..2], ops[..1]);
    }
  }

  lemma OneOperator(t: Expr, x: Expr, p: Operator, y: Expr, xs: seq<Expr>, ops: seq<Operator>)
    requires xs == [x, y] && ops == [p] && IsTree(t, xs, ops)
    ensures t == Binary(p, x, y)
  {
    var m: nat :| IsRoot(ops, m) && Joins(t, xs, ops, m);
    assert m == 0 && ops[..0] == [] && ops[1..] == [] && xs[..1] == [x] && xs[1..] == [y];
    assert IsTree(t.lhs, [x], []) && IsTree(t.rhs, [y], []);
  }

  // ----- operands -----

  /** Literals and names stand for themselves, unless a call, an index, a member or a qualifier follows. */
  lemma Atoms(toks: seq<Token>, i: nat)
    requires i < |toks|
    requires i + 1 < |toks| ==> !toks[i + 1].OpenParen? && !toks[i + 1].OpenSquare? && !toks[i + 1].Dot?
    requires i + 1 < |toks| ==> !toks[i + 1].ColonColon?
    ensures toks[i].IntegerTk? ==> ParseUnary(toks, i) == Parsed(Int(toks[i].n), i + 1, 0)
    ensures toks[i].TrueTk? ==> ParseUnary(toks, i) == Parsed(Boolean(true), i + 1, 0)
    ensures toks[i].FalseTk? ==> ParseUnary(toks, i) == Parsed(Boolean(false), i + 1, 0)
    ensures toks[i].Identifier? ==> ParseUnary(toks, i) == Parsed(Variable([], toks[i].name), i + 1, 0)
  {
    var r := Primary(toks, i);
    if toks[i].Identifier? { assert r == QualifiedName(toks, [], toks[i].name, i + 1); }
    if r.Parsed? { assert Suffixes(toks, r.tree, i + 1, 0) == Parsed(r.tree, i + 1, 0); }
  }

  /** A prefix operator is the tighter one of any binary operator, and which token stands for which. */
  lemma PrefixOperators(toks: seq<Token>, i: nat, p: Prefix, x: Expr, j: nat, errs: nat)
    requires i < |toks| && ParseUnary(toks, i + 1) == Parsed(x, j, errs)
    requires match toks[i]
             case Operation(Minus) => p == NegateOp
             case Operation(Plus) => p == PositiveOp
             case Bang => p == NotOp
             case Tilde => p == InvertOp
             case _ => false
    ensures ParseUnary(toks, i) == Parsed(Unary(p, x), j, errs)
  {
    assert Primary(toks, i) == Failed(0);
    assert Postfix(toks, i) == Failed(0) && PrefixOf(toks[i]) == [p];
  }

  // ----- chains of written operands -----

  /** The tokens of the operands with the operators between them. */
  function ChainTokens(cs: seq<Cst>, ops: seq<Operator>): seq<Token>
    requires |cs| == |ops| + 1
    decreases |ops|
  {
    if ops == [] then Tokens(cs[0]) else Tokens(cs[0]) + ([Operation(ops[0])] + ChainTokens(cs[1..], ops[1..]))
  }

  /** Operands written as the grammar has them, down to prefix operators, and operators in turn are a chain. */
  lemma {:induction false} WrittenChain(toks: seq<Token>, i: nat, cs: seq<Cst>, ops: seq<Operator>)
    requires |cs| == |ops| + 1 && forall k | 0 <= k < |cs| :: Fits(cs[k], UNARY) && Whole(cs[k])
    requires ParserCompleteness.Lies(toks, i, ChainTokens(cs, ops))
    requires ParserCompleteness.Stops(toks, i + |ChainTokens(cs, ops)|, 0)
    ensures IsChain(toks, i, StripAll(cs), ops) && EndOf(toks, i, |ops|) == (i + |ChainTokens(cs, ops)|, 0)
    decreases |ops|
  {
    hide Tokens, Fits, Whole, Strip, ParseUnary, ParserCompleteness.Lies, LevelOf;
    var c := cs[0];
    assert StripAll(cs) == [Strip(c)] + StripAll(cs[1..]);
    if ops == [] {
      ParserCompleteness.CompleteUnary(toks, i, c);
    } else {
      var j, rest := i + |Tokens(c)|, ChainTokens(cs[1..], ops[1..]);
      ParserCompleteness.LiesSplit(toks, i, Tokens(c), [Operation(ops[0])] + rest);
      ParserCompleteness.LiesFirst(toks, j, Operation(ops[0]), rest);
      ParserCompleteness.CompleteUnary(toks, i, c);
      WrittenChain(toks, j + 1, cs[1..], ops[1..]);
    }
  }

  /** What is written as a chain is parsed to the tree of the table, without an error, up to its end. */
  lemma WrittenParsed(toks: seq<Token>, i: nat, cs: seq<Cst>, ops: seq<Operator>) returns (t: Expr)
    requires |cs| == |ops| + 1 && forall k | 0 <= k < |cs| :: Fits(cs[k], UNARY) && Whole(cs[k])
    requires ParserCompleteness.Lies(toks, i, ChainTokens(cs, ops))
    requires ParserCompleteness.Stops(toks, i + |ChainTokens(cs, ops)|, 0)
    ensures |StripAll(cs)| == |cs| && IsTree(t, StripAll(cs), ops)
    ensures Expression(toks, i) == Parsed(t, i + |ChainTokens(cs, ops)|, 0)
  {
    hide ChainTokens, IsTree, Expression, ParserCompleteness.Lies, ParserCompleteness.Stops;
    WrittenChain(toks, i, cs, ops);
    t := ChainParsed(toks, i, StripAll(cs), ops);
  }
}
