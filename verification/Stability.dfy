/**
 Evidence only accumulates: what a conjunction of conditions found true on some facts it
 finds true on more of them, as long as no functional fact has two true values. The one
 kind of condition this fails for is found exactly.
 */
module Stability {
  import opened Base
  import opened Knowledge
  import opened Search

  ghost predicate Includes(larger: Store, smaller: Store) {
    forall i :: 0 <= i < |smaller| ==> smaller[i] in larger
  }

  predicate SameSubject(a: Entry, b: Entry) {
    && a.fact == b.fact && |a.args| == |b.args| && |a.args| > 0
    && a.args[..|a.args| - 1] == b.args[..|b.args| - 1]
  }

  /** A functional fact has at most one true value for each subject. */
  ghost predicate SingleValued(facts: map<Id, Fact>, store: Store) {
    forall a, b ::
      && a in store && b in store && a.truth && b.truth && SameSubject(a, b)
      && a.fact in facts && facts[a.fact].functional
      ==> a.args == b.args
  }

  ghost predicate IsEvidence(facts: map<Id, Fact>, store: Store) {
    IsStore(store) && Typed(facts, store) && SingleValued(facts, store)
  }

  ghost predicate Grows(facts: map<Id, Fact>, store: Store, store': Store) {
    IsEvidence(facts, store') && Includes(store', store)
  }

  lemma {:induction false} HitsMembers(store: Store, c: Condition, args: seq<string>, bind: Binding, r: Reading)
    requires c.Test?
    ensures r in Hits(store, c, args, bind) <==> exists e :: e in store && r in Reads(c, args, bind, e)
  {
    if store != [] {
      var front, last := store[..|store| - 1], store[|store| - 1];
      HitsMembers(front, c, args, bind, r);
      assert store == front + [last];
    }
  }

  /** With nothing open, a condition is about one ground fact, and binds nothing. */
  lemma {:induction false} ClosedUnifies(c: Condition, args: seq<string>, fargs: seq<string>, b: Binding)
    requires c.Test? && |args| == |fargs| && !AnyOpen(c, args)
    ensures Unified(c, args, fargs, b) == if args == fargs then Some(b) else None
  {
    if args != [] {
      assert forall i :: 0 <= i < |args| - 1 ==> args[1..][i] == args[i + 1];
      ClosedUnifies(c, args[1..], fargs[1..], b);
      assert args == [args[0]] + args[1..] && fargs == [fargs[0]] + fargs[1..];
    }
  }

  lemma ClosedReads(c: Condition, args: seq<string>, bind: Binding, e: Entry)
    requires c.Test? && !AnyOpen(c, args)
    ensures Reads(c, args, bind, e)
            == if e.fact == c.fact && e.args == args
               then [Reading(Signed(c, Compared(c.compare, bind, e.truth, if e.truth then T else F)), bind)]
               else []
  {
    if e.fact == c.fact && |e.args| == |args| {
      ClosedUnifies(c, args, e.args, bind);
    }
  }

  /** The condition is true only because its functional fact is known with another value,
      and its comparisons would not let a recorded denial of it count. */
  ghost predicate Brittle(facts: map<Id, Fact>, store: Store, c: Condition, bind: Binding)
    requires Resolves(facts, c)
  {
    && c.Test?
    && var args := Substituted(c.args, bind);
       && c.negated && facts[c.fact].functional && !AnyOpen(c, args)
       && AnyOtherValue(store, c, args)
       && !SaysSame(Hits(store, c, args, bind), bind)
       && Compared(c.compare, bind, false, F) != F
  }

  /** A recorded fact that read true still reads true. */
  lemma HitPersists(facts: map<Id, Fact>, store: Store, store': Store, c: Condition, bind: Binding, r: Reading)
    requires c.Test? && Resolves(facts, c) && Includes(store', store)
    requires r in Hits(store, c, Substituted(c.args, bind), bind)
    ensures r in Value(facts, store', c, bind)
  {
    var args := Substituted(c.args, bind);
    HitsMembers(store, c, args, bind, r);
    HitsMembers(store', c, args, bind, r);
  }

  lemma OtherValuePersists(store: Store, store': Store, c: Condition, args: seq<string>)
    requires c.Test? && Includes(store', store) && AnyOtherValue(store, c, args)
    ensures AnyOtherValue(store', c, args)
  {
    var i :| 0 <= i < |store| && OtherValue(c, args, store[i]);
    var k :| 0 <= k < |store'| && store'[k] == store[i];
  }

  /** Where another value is known, what is recorded of this one can only be a denial. */
  lemma HitIsDenial(facts: map<Id, Fact>, store: Store, c: Condition, bind: Binding, r: Reading)
    requires c.Test? && Resolves(facts, c) && IsEvidence(facts, store)
    requires facts[c.fact].functional && !AnyOpen(c, Substituted(c.args, bind))
    requires AnyOtherValue(store, c, Substituted(c.args, bind))
    requires r in Hits(store, c, Substituted(c.args, bind), bind)
    ensures r == Reading(Signed(c, Compared(c.compare, bind, false, F)), bind)
  {
    var args := Substituted(c.args, bind);
    HitsMembers(store, c, args, bind, r);
    var e :| e in store && r in Reads(c, args, bind, e);
    ClosedReads(c, args, bind, e);
    var k :| 0 <= k < |store| && OtherValue(c, args, store[k]);
    assert SameSubject(e, store[k]) && store[k] in store;
  }

  /** A condition true by another value of its functional fact stays true, unless brittle. */
  lemma InferencePersists(facts: map<Id, Fact>, store: Store, store': Store, c: Condition, bind: Binding)
    requires c.Test? && Resolves(facts, c) && Grows(facts, store, store')
    requires c.negated && facts[c.fact].functional && !AnyOpen(c, Substituted(c.args, bind))
    requires AnyOtherValue(store, c, Substituted(c.args, bind))
    requires Compared(c.compare, bind, false, F) == F
    ensures Reading(T, bind) in Value(facts, store', c, bind)
  {
    var args := Substituted(c.args, bind);
    OtherValuePersists(store, store', c, args);
    var hits := Hits(store', c, args, bind);
    if SaysSame(hits, bind) {
      HitIsDenial(facts, store', c, bind, hits[0]);
      assert hits[0] == Reading(T, bind);
    }
  }

  lemma TruePersists(facts: map<Id, Fact>, store: Store, store': Store, c: Condition, bind: Binding, r: Reading)
    requires Resolves(facts, c) && Grows(facts, store, store')
    requires r in Options(facts, store, c, bind) && r.value == T
    requires !Brittle(facts, store, c, bind)
    ensures r in Options(facts, store', c, bind)
  {
    var args := Substituted(c.args, bind);
    if r in Hits(store, c, args, bind) {
      HitPersists(facts, store, store', c, bind, r);
    } else {
      InferencePersists(facts, store, store', c, bind);
    }
  }

  function Denial(c: Condition, bind: Binding): Entry
    requires c.Test?
  {
    Entry(c.fact, Substituted(c.args, bind), false)
  }

  lemma DenialGrows(facts: map<Id, Fact>, store: Store, c: Condition, bind: Binding)
    requires Resolves(facts, c) && IsEvidence(facts, store) && Brittle(facts, store, c, bind)
    ensures Grows(facts, store, store + [Denial(c, bind)])
  {
    var args, store' := Substituted(c.args, bind), store + [Denial(c, bind)];
    NoHits(store, c, args, bind);
    DenialIsNew(store, c, args, bind);
    assert store'[|store|] == Denial(c, bind) && forall i :: 0 <= i < |store| ==> store'[i] == store[i];
    assert forall e :: e in store' && e.truth ==> e in store;
  }

  lemma DeniedReads(facts: map<Id, Fact>, store: Store, c: Condition, bind: Binding)
    requires Resolves(facts, c) && Brittle(facts, store, c, bind)
    ensures forall r :: r in Options(facts, store + [Denial(c, bind)], c, bind) ==> r.value != T
  {
    var args, store' := Substituted(c.args, bind), store + [Denial(c, bind)];
    NoHits(store, c, args, bind);
    assert store'[..|store|] == store;
    ClosedReads(c, args, bind, Denial(c, bind));
    var hits := Hits(store', c, args, bind);
    assert hits == Reads(c, args, bind, Denial(c, bind));
    assert hits[0].bind == bind;
  }

  /** Recording that a brittle condition's fact is false stops the condition being true. */
  lemma BrittleBreaks(facts: map<Id, Fact>, store: Store, c: Condition, bind: Binding)
    requires Resolves(facts, c) && IsEvidence(facts, store)
    requires Brittle(facts, store, c, bind)
    ensures Options(facts, store, c, bind) == [Reading(T, bind)]
    ensures Grows(facts, store, store + [Denial(c, bind)])
    ensures forall r :: r in Options(facts, store + [Denial(c, bind)], c, bind) ==> r.value != T
  {
    NoHits(store, c, Substituted(c.args, bind), bind);
    DenialGrows(facts, store, c, bind);
    DeniedReads(facts, store, c, bind);
  }

  lemma NoHits(store: Store, c: Condition, args: seq<string>, bind: Binding)
    requires c.Test? && !AnyOpen(c, args) && !SaysSame(Hits(store, c, args, bind), bind)
    ensures Hits(store, c, args, bind) == []
  {
    var hits := Hits(store, c, args, bind);
    if hits != [] {
      HitsMembers(store, c, args, bind, hits[0]);
      var e :| e in store && hits[0] in Reads(c, args, bind, e);
      ClosedReads(c, args, bind, e);
      assert false;
    }
  }

  lemma DenialIsNew(store: Store, c: Condition, args: seq<string>, bind: Binding)
    requires c.Test? && !AnyOpen(c, args) && Hits(store, c, args, bind) == []
    ensures forall e :: e in store ==> e.fact != c.fact || e.args != args
  {
    forall e | e in store
      ensures e.fact != c.fact || e.args != args
    {
      ClosedReads(c, args, bind, e);
      if e.fact == c.fact && e.args == args {
        HitsMembers(store, c, args, bind, Reads(c, args, bind, e)[0]);
      }
    }
  }

  /** A condition that is true stays true on every growth of the evidence exactly when it
      is not brittle. */
  lemma TruePersistsExactly(facts: map<Id, Fact>, store: Store, c: Condition, bind: Binding, r: Reading)
    requires Resolves(facts, c) && IsEvidence(facts, store)
    requires r in Options(facts, store, c, bind) && r.value == T
    ensures (forall store' :: Grows(facts, store, store') ==> r in Options(facts, store', c, bind))
            <==> !Brittle(facts, store, c, bind)
  {
    if Brittle(facts, store, c, bind) {
      BrittleBreaks(facts, store, c, bind);
      var store' := store + [Denial(c, bind)];
      assert Grows(facts, store, store') && r !in Options(facts, store', c, bind);
    } else {
      forall store' | Grows(facts, store, store')
        ensures r in Options(facts, store', c, bind)
      {
        TruePersists(facts, store, store', c, bind, r);
      }
    }
  }

  /** A step that is true and not brittle is not brittle on more evidence either. */
  lemma FirmStaysFirm(facts: map<Id, Fact>, store: Store, store': Store, c: Condition, bind: Binding, r: Reading)
    requires Resolves(facts, c) && Grows(facts, store, store')
    requires r in Options(facts, store, c, bind) && r.value == T
    requires !Brittle(facts, store, c, bind)
    ensures !Brittle(facts, store', c, bind)
  {
    if c.Test? && !AnyOpen(c, Substituted(c.args, bind)) {
      var args := Substituted(c.args, bind);
      if r in Hits(store, c, args, bind) {
        HitsMembers(store, c, args, bind, r);
        HitsMembers(store', c, args, bind, r);
        var e :| e in store && r in Reads(c, args, bind, e);
        ClosedReads(c, args, bind, e);
        var hits := Hits(store', c, args, bind);
        var k :| 0 <= k < |hits| && hits[k] == r;
        assert SaysSame(hits, bind);
      }
    }
  }

  // ---------------------------------------- the exact condition, for a single condition

  ghost predicate AlwaysPersists(facts: map<Id, Fact>, c: Condition)
    requires AllResolve(facts, [c])
  {
    forall store, store' ::
      && IsEvidence(facts, store) && Grows(facts, store, store')
      && AlternativeValue(facts, store, [c]).value == T
      ==> AlternativeValue(facts, store', [c]).value == T
  }

  /** It denies a functional fact and compares something: only such a step can be brittle. */
  predicate Denies(facts: map<Id, Fact>, c: Condition)
    requires Resolves(facts, c)
  {
    c.Test? && c.negated && facts[c.fact].functional && c.args != [] && c.compare != []
  }

  /** It denies a functional fact of a fixed subject and value, and compares something. */
  predicate Loose(facts: map<Id, Fact>, c: Condition)
    requires Resolves(facts, c)
  {
    Denies(facts, c) && !AnyOpen(c, c.args)
  }

  lemma SingleReading(facts: map<Id, Fact>, store: Store, c: Condition)
    requires AllResolve(facts, [c])
    ensures AlternativeValue(facts, store, [c]).value == T
            <==> exists r :: r in Options(facts, store, c, map[]) && r.value == T
  {
    TrueWhenHolds(facts, store, [c]);
    if r :| r in Options(facts, store, c, map[]) && r.value == T {
      assert [r][1..] == [] && Least([r]) == Min(r.value, Least([r][1..]));
      assert IsReading(facts, store, [c], [r]) && Least([r]) == T;
    }
    if Holds(facts, store, [c]) {
      var chain: seq<Reading> :| IsReading(facts, store, [c], chain) && Least(chain) == T;
      assert chain[0] in Options(facts, store, c, map[]) && chain[0].value == T;
    }
  }

  /** Nothing bound yet: any comparison at all leaves a denial undecided. */
  lemma {:induction false} ComparedUnbound(compare: seq<Comparison>, v: Kleene)
    ensures Compared(compare, map[], false, v) == if compare == [] then v else U
  {
    if compare != [] {
      ComparedUnbound(compare[1..], U);
    }
  }

  lemma UnboundArgs(args: seq<string>)
    ensures Substituted(args, map[]) == args
  {
  }

  /** The one recorded fact that makes a loose condition true: another value. */
  function Another(c: Condition): Entry
    requires c.Test? && |c.args| > 0
  {
    var n := |c.args| - 1;
    Entry(c.fact, c.args[..n] + [c.args[n] + "'"], true)
  }

  lemma LooseIsBrittle(facts: map<Id, Fact>, c: Condition)
    requires AllResolve(facts, [c]) && Resolves(facts, c) && Loose(facts, c)
    ensures IsEvidence(facts, [Another(c)]) && Brittle(facts, [Another(c)], c, map[])
  {
    var store, args := [Another(c)], c.args;
    UnboundArgs(args);
    ComparedUnbound(c.compare, F);
    assert store[..0] == [];
    ClosedReads(c, args, map[], Another(c));
    var n := |args| - 1;
    assert Another(c).args[n] != args[n];
    assert Hits(store, c, args, map[]) == [];
    assert OtherValue(c, args, store[0]);
  }

  /** For an alternative of one condition: true stays true on all evidence exactly when the
      condition is not a denial of a functional fact with a comparison and nothing open. */
  lemma SinglePersistsExactly(facts: map<Id, Fact>, c: Condition)
    requires AllResolve(facts, [c]) && Resolves(facts, c)
    ensures AlwaysPersists(facts, c) <==> !Loose(facts, c)
  {
    if Loose(facts, c) {
      LooseIsBrittle(facts, c);
      var store := [Another(c)];
      BrittleBreaks(facts, store, c, map[]);
      var store' := store + [Denial(c, map[])];
      assert Reading(T, map[]) in Options(facts, store, c, map[]);
      SingleReading(facts, store, c);
      SingleReading(facts, store', c);
      assert Grows(facts, store, store');
    } else {
      forall store, store' | IsEvidence(facts, store) && Grows(facts, store, store')
        && AlternativeValue(facts, store, [c]).value == T
        ensures AlternativeValue(facts, store', [c]).value == T
      {
        SingleReading(facts, store, c);
        var r :| r in Options(facts, store, c, map[]) && r.value == T;
        NotLooseNotBrittle(facts, store, c);
        TruePersists(facts, store, store', c, map[], r);
        SingleReading(facts, store', c);
      }
    }
  }

  lemma NotLooseNotBrittle(facts: map<Id, Fact>, store: Store, c: Condition)
    requires AllResolve(facts, [c]) && Resolves(facts, c) && !Loose(facts, c)
    ensures !Brittle(facts, store, c, map[])
  {
    if c.Test? {
      UnboundArgs(c.args);
    }
  }
}
