/** Chains of links in a map, each node with at most one link. */
module AliasGraph {
  import opened Wrappers

  /** `n` links from `t` the chain ends. */
  ghost predicate EndsIn<N>(p: map<N, Option<N>>, t: N, n: nat) {
    t in p && (if n == 0 then p[t].None? else p[t].Some? && EndsIn(p, p[t].value, n - 1))
  }

  /** Every chain ends, inside the map. */
  ghost predicate Acyclic<N>(p: map<N, Option<N>>) { forall t | t in p :: Ends(p, t) }

  ghost predicate Ends<N>(p: map<N, Option<N>>, t: N) { exists n: nat :: EndsIn(p, t, n) }

  /** `k` links lead from `t` to `s`. */
  ghost predicate Leads<N>(p: map<N, Option<N>>, t: N, s: N, k: nat) {
    t in p && (if k == 0 then t == s else p[t].Some? && Leads(p, p[t].value, s, k - 1))
  }

  ghost predicate IsAlias<N>(p: map<N, Option<N>>, t: N, s: N) { exists k: nat :: Leads(p, t, s, k) }

  lemma AliasSelf<N>(p: map<N, Option<N>>, t: N)
    requires t in p
    ensures IsAlias(p, t, t)
  {
    assert Leads(p, t, t, 0);
  }

  lemma {:induction false} LeadsOn<N>(p: map<N, Option<N>>, t: N, s: N, r: N, j: nat, k: nat)
    requires Leads(p, t, s, j) && Leads(p, s, r, k)
    ensures Leads(p, t, r, j + k)
    decreases j
  {
    if j > 0 { LeadsOn(p, p[t].value, s, r, j - 1, k); }
  }

  lemma {:induction false} LeadsEnds<N>(p: map<N, Option<N>>, t: N, s: N, k: nat, n: nat)
    requires Leads(p, t, s, k) && EndsIn(p, t, n)
    ensures k <= n && EndsIn(p, s, n - k)
    decreases k
  {
    if k > 0 { LeadsEnds(p, p[t].value, s, k - 1, n - 1); }
  }

  lemma {:induction false} EndsOnce<N>(p: map<N, Option<N>>, t: N, m: nat, n: nat)
    requires EndsIn(p, t, m) && EndsIn(p, t, n)
    ensures m == n
    decreases m
  {
    if m > 0 && n > 0 { EndsOnce(p, p[t].value, m - 1, n - 1); }
  }

  /** Being an alias of is a partial order: reflexive, transitive and antisymmetric. */
  lemma AliasOrder<N>(p: map<N, Option<N>>, t: N, s: N, r: N)
    requires Acyclic(p) && t in p
    ensures IsAlias(p, t, t)
    ensures IsAlias(p, t, s) && IsAlias(p, s, r) ==> IsAlias(p, t, r)
    ensures IsAlias(p, t, s) && IsAlias(p, s, t) ==> t == s
  {
    AliasSelf(p, t);
    if IsAlias(p, t, s) {
      var j: nat :| Leads(p, t, s, j);
      if IsAlias(p, s, r) {
        var k: nat :| Leads(p, s, r, k);
        LeadsOn(p, t, s, r, j, k);
      }
      if IsAlias(p, s, t) {
        var k: nat :| Leads(p, s, t, k);
        LeadsOn(p, t, s, t, j, k);
        assert Ends(p, t);
        var n: nat :| EndsIn(p, t, n);
        LeadsEnds(p, t, t, j + k, n);
        EndsOnce(p, t, n, n - (j + k));
      }
    }
  }

  /** Following from `t` in the extended map: as before, or on from `b` once the end `a` is reached. */
  lemma {:induction false} EndsAfterLink<N>(p: map<N, Option<N>>, a: N, b: N, t: N, n: nat, m: nat)
    requires a in p && p[a].None? && EndsIn(p, t, n) && EndsIn(p, b, m) && !IsAlias(p, b, a)
    ensures Ends(p[a := Some(b)], t)
    decreases n
  {
    var q := p[a := Some(b)];
    if t == a {
      KeepsAway(p, a, b, b, m);
      assert EndsIn(q, a, m + 1);
    } else if n == 0 {
      assert EndsIn(q, t, 0);
    } else {
      EndsAfterLink(p, a, b, p[t].value, n - 1, m);
      var k: nat :| EndsIn(q, p[t].value, k);
      assert EndsIn(q, t, k + 1);
    }
  }

  lemma {:induction false} KeepsAway<N>(p: map<N, Option<N>>, a: N, b: N, t: N, m: nat)
    requires EndsIn(p, t, m) && !IsAlias(p, t, a)
    ensures EndsIn(p[a := Some(b)], t, m)
    decreases m
  {
    AliasSelf(p, t);
    if m > 0 {
      if IsAlias(p, p[t].value, a) {
        var k: nat :| Leads(p, p[t].value, a, k);
        assert Leads(p, t, a, k + 1);
      }
      KeepsAway(p, a, b, p[t].value, m - 1);
    }
  }

  /** Linking an end `a` to `b` keeps all chains finite exactly if the chain of `b` does not lead to `a`. */
  lemma LinkAcyclic<N>(p: map<N, Option<N>>, a: N, b: N)
    requires Acyclic(p) && a in p && b in p && p[a].None?
    ensures Acyclic(p[a := Some(b)]) <==> !IsAlias(p, b, a)
  {
    var q := p[a := Some(b)];
    if IsAlias(p, b, a) {
      var k: nat :| Leads(p, b, a, k);
      LeadsKeep(p, a, b, b, k);
      assert Leads(q, a, a, k + 1);
      if Acyclic(q) {
        assert Ends(q, a);
        var n: nat :| EndsIn(q, a, n);
        LeadsEnds(q, a, a, k + 1, n);
        EndsOnce(q, a, n, n - (k + 1));
      }
    } else {
      assert Ends(p, b);
      var m: nat :| EndsIn(p, b, m);
      forall t | t in q ensures Ends(q, t) {
        assert Ends(p, t);
        var n: nat :| EndsIn(p, t, n);
        EndsAfterLink(p, a, b, t, n, m);
      }
    }
  }

  lemma {:induction false} LeadsKeep<N>(p: map<N, Option<N>>, a: N, b: N, t: N, k: nat)
    requires a in p && p[a].None? && Leads(p, t, a, k)
    ensures Leads(p[a := Some(b)], t, a, k)
    decreases k
  {
    if k > 0 { LeadsKeep(p, a, b, p[t].value, k - 1); }
  }

  /** Leading to `s` is leading to it from the next link on, unless `s` is the start. */
  lemma AliasNext<N>(p: map<N, Option<N>>, t: N, s: N)
    requires t in p && t != s
    ensures IsAlias(p, t, s) <==> p[t].Some? && IsAlias(p, p[t].value, s)
  {
    if IsAlias(p, t, s) {
      var k: nat :| Leads(p, t, s, k);
      assert Leads(p, p[t].value, s, k - 1);
    }
    if p[t].Some? && IsAlias(p, p[t].value, s) {
      var k: nat :| Leads(p, p[t].value, s, k);
      assert Leads(p, t, s, k + 1);
    }
  }

  lemma {:induction false} LeadsNext<N>(p: map<N, Option<N>>, t: N, s: N, k: nat)
    requires Leads(p, t, s, k) && s in p && p[s].Some? && p[s].value in p
    ensures Leads(p, t, p[s].value, k + 1)
    decreases k
  {
    if k == 0 {
      assert Leads(p, p[t].value, p[s].value, 0);
    } else {
      LeadsNext(p, p[t].value, s, k - 1);
    }
  }

  lemma {:induction false} LeadsFrom<N>(p: map<N, Option<N>>, t: N, s: N, r: N, j: nat, k: nat)
    requires Leads(p, t, s, j) && Leads(p, t, r, k) && j <= k
    ensures Leads(p, s, r, k - j)
    decreases j
  {
    if j > 0 { LeadsFrom(p, p[t].value, s, r, j - 1, k - 1); }
  }

  lemma {:induction false} LeadsToEnd<N>(p: map<N, Option<N>>, t: N, s: N, k: nat)
    requires Leads(p, t, s, k) && s in p && p[s].None?
    ensures EndsIn(p, t, k)
    decreases k
  {
    if k > 0 { LeadsToEnd(p, p[t].value, s, k - 1); }
  }

  /** A chain that comes back to one of its nodes has no end. */
  lemma NoEnd<N>(p: map<N, Option<N>>, t: N, s: N, j: nat, k: nat)
    requires j < k && Leads(p, t, s, j) && Leads(p, t, s, k)
    ensures !Ends(p, t)
  {
    if Ends(p, t) {
      var n: nat :| EndsIn(p, t, n);
      LeadsEnds(p, t, s, j, n);
      LeadsEnds(p, t, s, k, n);
      EndsOnce(p, s, n - j, n - k);
    }
  }

  lemma AcyclicInside<N>(p: map<N, Option<N>>)
    requires Acyclic(p)
    ensures forall t | t in p && p[t].Some? :: p[t].value in p
  {
    forall t | t in p && p[t].Some? ensures p[t].value in p {
      assert Ends(p, t);
      var n: nat :| EndsIn(p, t, n);
      assert EndsIn(p, p[t].value, n - 1);
    }
  }

  /** `s` is between `lo` and `hi` links away from `t`. */
  ghost predicate Within<N>(p: map<N, Option<N>>, t: N, s: N, lo: nat, hi: nat) {
    exists j: nat :: lo <= j < hi && Leads(p, t, s, j)
  }
}
