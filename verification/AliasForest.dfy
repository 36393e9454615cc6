/** Type aliases: linking a type to another with a cycle check, and the walks along the links. */
module AliasForest {
  import opened Wrappers
  import opened AliasGraph

  datatype Method = Method(name: string, params: seq<nat>, id: nat)

  ghost function Parents(types: set<TypeInfo>): map<TypeInfo, Option<TypeInfo>>
    reads types`mAliasedTo
  {
    map t | t in types :: t.mAliasedTo
  }

  /** Every chain of aliases is finite, and no cycle flag is set. */
  ghost predicate Forest(types: set<TypeInfo>)
    reads types`mAliasedTo, types`mCycle
  {
    Acyclic(Parents(types)) && forall t | t in types :: !t.mCycle
  }

  class TypeInfo {
    var mAliasedTo: Option<TypeInfo>
    var mCycle: bool
    var mTypeToken: nat
    var mMethods: seq<Method>

    constructor (token: nat)
      ensures mAliasedTo == None && !mCycle && mTypeToken == token && mMethods == []
    {
      mAliasedTo, mCycle, mTypeToken, mMethods := None, false, token, [];
    }

    /**
     Makes this type an alias. It is refused exactly if the type is its own target, has a target
     already, or the new link would close a cycle; otherwise just that link is added.
     */
    method AliasedTo(target: TypeInfo, ghost types: set<TypeInfo>) returns (ok: bool)
      requires this in types && target in types && Forest(types)
      modifies types
      ensures ok <==> target != this && old(mAliasedTo) == None && !IsAlias(old(Parents(types)), target, this)
      ensures ok ==> Forest(types) && Parents(types) == old(Parents(types))[this := Some(target)]
      ensures ok ==> mTypeToken == target.mTypeToken
      ensures ok ==> forall t | t in types ::
                t.mMethods == old(t.mMethods) && (t != this ==> t.mTypeToken == old(t.mTypeToken))
    {
      hide Acyclic, Ends, IsAlias;
      if target == this || mAliasedTo.Some? { return false; }
      ghost var p := Parents(types);
      assert Acyclic(p);
      LinkAcyclic(p, this, target);
      StaysInside(types);
      mAliasedTo := Some(target);
      ghost var q := Parents(types);
      assert q == p[this := Some(target)];
      BackAgain(p, this, target);
      var closes := MarkChain(target, types);
      if closes { return false; }
      UnmarkChain(target, types);
      mTypeToken := target.mTypeToken;
      return true;
    }

    /** This type and the types it is an alias of. */
    method IsAliasTo(other: TypeInfo, ghost types: set<TypeInfo>) returns (yes: bool)
      requires this in types && Forest(types)
      ensures yes <==> IsAlias(Parents(types), this, other)
    {
      ghost var p := Parents(types);
      AliasSelf(p, this);
      if this == other { return true; }
      AliasNext(p, this, other);
      assert Ends(p, this);
      ghost var n: nat :| EndsIn(p, this, n);
      var cur := mAliasedTo;
      while cur.Some?
        invariant cur.Some? ==> n > 0 && EndsIn(p, cur.value, n - 1)
        invariant IsAlias(p, this, other) <==> cur.Some? && IsAlias(p, cur.value, other)
        decreases n, cur.Some?
      {
        if cur.value == other {
          AliasSelf(p, other);
          return true;
        }
        AliasNext(p, cur.value, other);
        cur := cur.value.mAliasedTo;
        n := n - 1;
      }
      return false;
    }

    /** The end of the chain. */
    method ConstAliasedToTop(ghost types: set<TypeInfo>) returns (top: TypeInfo)
      requires this in types && Forest(types)
      ensures top in types && IsAlias(Parents(types), this, top) && top.mAliasedTo.None?
    {
      ghost var p := Parents(types);
      assert Ends(p, this);
      ghost var n: nat :| EndsIn(p, this, n);
      ghost var k: nat := 0;
      top := this;
      while top.mAliasedTo.Some?
        invariant top in types && k <= n && EndsIn(p, top, n - k) && Leads(p, this, top, k)
        decreases n - k
      {
        LeadsNext(p, this, top, k);
        top := top.mAliasedTo.value;
        k := k + 1;
      }
    }

    /**
     The method of that name and signature of the nearest type on the chain that has one, the first
     if that type has several; none exactly if no type on the chain has one.
     */
    method FindMethod(name: string, params: seq<nat>, ghost types: set<TypeInfo>) returns (found: Option<Method>)
      requires this in types && Forest(types)
      ensures found.Some? ==> found.value.name == name && found.value.params == params
      ensures found.Some? ==> exists s, k: nat, i: nat :: FoundAt(types, this, name, params, found.value, s, k, i)
      ensures found.None? <==> forall s, m | s in types && IsAlias(Parents(types), this, s) && m in s.mMethods ::
                m.name != name || m.params != params
    {
      ghost var p := Parents(types);
      assert Ends(p, this);
      ghost var n: nat :| EndsIn(p, this, n);
      ghost var k: nat := 0;
      var cur := Some(this);
      while cur.Some?
        invariant cur.Some? ==>
                    cur.value in types && k <= n && EndsIn(p, cur.value, n - k) && Leads(p, this, cur.value, k)
        invariant cur.None? ==> k == n + 1
        invariant Nothing(types, this, name, params, k)
        decreases n + 1 - k
      {
        var at;
        found, at := FirstOf(cur.value.mMethods, name, params);
        if found.Some? {
          assert FoundAt(types, this, name, params, found.value, cur.value, k, at);
          assert IsAlias(p, this, cur.value) && found.value in cur.value.mMethods;
          return;
        }
        forall j: nat, s, m | j <= k && s in types && Leads(p, this, s, j) && m in s.mMethods
          ensures m.name != name || m.params != params
        {
          if j == k { LeadsFrom(p, this, cur.value, s, k, k); }
        }
        if cur.value.mAliasedTo.Some? { LeadsNext(p, this, cur.value, k); }
        cur := cur.value.mAliasedTo;
        k := k + 1;
      }
      forall s, m | s in types && IsAlias(p, this, s) && m in s.mMethods ensures m.name != name || m.params != params {
        var j: nat :| Leads(p, this, s, j);
        LeadsEnds(p, this, s, j, n);
      }
      found := None;
    }
  }

  /** Aliasings one after the other, until one is refused: whatever was linked is a forest. */
  method AliasAll(pairs: seq<(TypeInfo, TypeInfo)>, ghost types: set<TypeInfo>) returns (done: nat)
    requires Forest(types) && forall i | 0 <= i < |pairs| :: pairs[i].0 in types && pairs[i].1 in types
    modifies types
    ensures done <= |pairs| && (done == |pairs| ==> Forest(types))
  {
    done := 0;
    while done < |pairs|
      invariant done <= |pairs| && Forest(types)
    {
      var ok := pairs[done].0.AliasedTo(pairs[done].1, types);
      if !ok { return; }
      done := done + 1;
    }
  }

  /** The first method of that name and signature, if there is one. */
  method FirstOf(methods: seq<Method>, name: string, params: seq<nat>) returns (found: Option<Method>, at: nat)
    ensures at <= |methods| && forall j | 0 <= j < at :: methods[j].name != name || methods[j].params != params
    ensures found.Some? ==> at < |methods| && found.value == methods[at]
    ensures found.Some? ==> methods[at].name == name && methods[at].params == params
    ensures found.None? ==> at == |methods|
  {
    at := 0;
    while at < |methods|
      invariant at <= |methods|
      invariant forall j | 0 <= j < at :: methods[j].name != name || methods[j].params != params
    {
      if methods[at].name == name && methods[at].params == params { return Some(methods[at]), at; }
      at := at + 1;
    }
    found := None;
  }

  /** No type less than `k` links away from `t` has a method of that name and signature. */
  ghost predicate Nothing(types: set<TypeInfo>, t: TypeInfo, name: string, params: seq<nat>, k: nat)
    reads types`mAliasedTo, types`mMethods
  {
    forall j: nat, s, m | j < k && s in types && Leads(Parents(types), t, s, j) && m in s.mMethods ::
      m.name != name || m.params != params
  }

  /** `s`, `k` links away from `t`, has `found` as its `i`th method; no type nearer by and no earlier method matches. */
  ghost predicate FoundAt(types: set<TypeInfo>, t: TypeInfo, name: string, params: seq<nat>, found: Method,
                          s: TypeInfo, k: nat, i: nat)
    reads types`mAliasedTo, types`mMethods
  {
    && s in types && Leads(Parents(types), t, s, k) && i < |s.mMethods| && s.mMethods[i] == found
    && (forall j | 0 <= j < i :: s.mMethods[j].name != name || s.mMethods[j].params != params)
    && Nothing(types, t, name, params, k)
  }

  lemma StaysInside(types: set<TypeInfo>)
    requires Forest(types)
    ensures forall t | t in types && t.mAliasedTo.Some? :: t.mAliasedTo.value in types
  {
    AcyclicInside(Parents(types));
    assert forall t | t in types && t.mAliasedTo.Some? :: t in Parents(types) && Parents(types)[t] == t.mAliasedTo;
  }

  /** With the link from `a` to `b` added, the chain of `b` ends exactly if all chains do. */
  lemma BackAgain(p: map<TypeInfo, Option<TypeInfo>>, a: TypeInfo, b: TypeInfo)
    requires Acyclic(p) && a in p && b in p && p[a].None?
    ensures var q := p[a := Some(b)]; Ends(q, b) <==> Acyclic(q)
  {
    var q := p[a := Some(b)];
    LinkAcyclic(p, a, b);
    if IsAlias(p, b, a) {
      var k: nat :| Leads(p, b, a, k);
      LeadsKeep(p, a, b, b, k);
      LeadsNext(q, b, a, k);
      assert Leads(q, b, b, 0);
      NoEnd(q, b, b, 0, k + 1);
    }
  }

  /** Sets the cycle flag along a chain; stops at a type whose flag is set already. */
  method MarkChain(start: TypeInfo, ghost types: set<TypeInfo>) returns (closes: bool)
    requires start in types && (forall t | t in types :: !t.mCycle)
    requires forall t | t in types && t.mAliasedTo.Some? :: t.mAliasedTo.value in types
    modifies types`mCycle
    ensures closes <==> !Ends(Parents(types), start)
    ensures !closes ==> forall t | t in types && t.mCycle :: IsAlias(Parents(types), start, t)
  {
    ghost var q := Parents(types);
    ghost var i: nat := 0;
    var t := Some(start);
    while t.Some?
      invariant t.Some? ==> t.value in types && Leads(q, start, t.value, i)
      invariant t.None? ==> Ends(q, start)
      invariant forall x | x in types && x.mCycle :: Within(q, start, x, 0, i)
      decreases set x | x in types && !x.mCycle
    {
      if t.value.mCycle {
        ghost var j: nat :| 0 <= j < i && Leads(q, start, t.value, j);
        NoEnd(q, start, t.value, j, i);
        return true;
      }
      ghost var unmarked := set x | x in types && !x.mCycle;
      t.value.mCycle := true;
      assert (set x | x in types && !x.mCycle) < unmarked by { assert t.value in unmarked; }
      if t.value.mAliasedTo.Some? {
        LeadsNext(q, start, t.value, i);
      } else {
        LeadsToEnd(q, start, t.value, i);
      }
      t := t.value.mAliasedTo;
      i := i + 1;
    }
    assert forall x | x in types && x.mCycle :: Within(q, start, x, 0, i);
    return false;
  }

  method UnmarkChain(start: TypeInfo, ghost types: set<TypeInfo>)
    requires start in types && Ends(Parents(types), start)
    requires forall t | t in types && t.mCycle :: IsAlias(Parents(types), start, t)
    modifies types`mCycle
    ensures forall t | t in types :: !t.mCycle
  {
    ghost var q := Parents(types);
    ghost var n: nat :| EndsIn(q, start, n);
    ghost var i: nat := 0;
    forall x | x in types && x.mCycle ensures Within(q, start, x, 0, n + 1) {
      var j: nat :| Leads(q, start, x, j);
      LeadsEnds(q, start, x, j, n);
    }
    var t := Some(start);
    while t.Some?
      invariant t.Some? ==> t.value in types && i <= n && Leads(q, start, t.value, i) && EndsIn(q, t.value, n - i)
      invariant t.None? ==> i == n + 1
      invariant forall x | x in types && x.mCycle :: Within(q, start, x, i, n + 1)
      decreases n + 1 - i
    {
      t.value.mCycle := false;
      forall x | x in types && x.mCycle ensures Within(q, start, x, i + 1, n + 1) {
        var j: nat :| i <= j < n + 1 && Leads(q, start, x, j);
        if j == i { LeadsFrom(q, start, t.value, x, i, i); }
      }
      if t.value.mAliasedTo.Some? { LeadsNext(q, start, t.value, i); }
      t := t.value.mAliasedTo;
      i := i + 1;
    }
  }
}
