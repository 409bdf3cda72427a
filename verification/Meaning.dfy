/**
 What it means that an alternative holds, apart from how its bindings are threaded: one
 value for each of its variables, under which every condition is true by itself.
 */
module Meaning {
  import opened Base
  import opened Knowledge
  import opened Search
  import opened Stability

  function OpenIn(c: Condition, args: seq<string>): set<string>
    requires c.Test?
  {
    set a | a in args && IsOpen(c, a)
  }

  function VarsOf(c: Condition): set<string> {
    if c.Prose? then {} else OpenIn(c, c.args)
  }

  /** The variables of the first `i` conditions. */
  function VarsUpto(alt: Alternative, i: nat): set<string>
    requires i <= |alt|
  {
    if i == 0 then {} else VarsUpto(alt, i - 1) + VarsOf(alt[i - 1])
  }

  /** What an entry records in the place where condition `j` first has a variable is not the
      variable's own name, and is open in no later condition that has the variable too. A role
      letter, a literal a condition marks and a value without a capital are never open. */
  ghost predicate BindsForGood(alt: Alternative, j: nat, n: nat, e: Entry)
    requires j < |alt| && alt[j].Test? && n < |alt[j].args| == |e.args|
  {
    var v := alt[j].args[n];
    IsOpen(alt[j], v) && v !in VarsUpto(alt, j) ==>
      && e.args[n] != v
      && forall m :: j < m < |alt| && alt[m].Test? && v in alt[m].args ==> !IsOpen(alt[m], e.args[n])
  }

  /** No variable of the alternative is open again once an entry has bound it. */
  ghost predicate NoneReopens(alt: Alternative, store: Store) {
    forall j, e, n {:trigger BindsForGood(alt, j, n, e)} ::
      && 0 <= j < |alt| && alt[j].Test? && e in store && e.fact == alt[j].fact
      && |e.args| == |alt[j].args| && 0 <= n < |e.args|
      ==> BindsForGood(alt, j, n, e)
  }

  function Within(b: Binding, vars: set<string>): Binding {
    map v | v in b && v in vars :: b[v]
  }

  predicate IsRecordedOf(store: Store, fact: Id, args: seq<string>) {
    exists k :: 0 <= k < |store| && store[k].fact == fact && store[k].args == args
  }

  /** The value an entry gives the condition. */
  function OnEntry(c: Condition, b: Binding, truth: bool): Kleene
    requires c.Test?
  {
    Signed(c, Compared(c.compare, b, truth, if truth then T else F))
  }

  /** An entry for the condition's fact, with its arguments as they stand under `b`, makes
      it true. */
  predicate TrueByEntry(store: Store, c: Condition, b: Binding)
    requires c.Test?
  {
    exists k :: 0 <= k < |store| && store[k].fact == c.fact && store[k].args == Substituted(c.args, b)
                && OnEntry(c, b, store[k].truth) == T
  }

  /** It denies a functional fact of which nothing is recorded but another value. */
  predicate TrueByOther(facts: map<Id, Fact>, store: Store, c: Condition, b: Binding)
    requires c.Test? && Resolves(facts, c)
  {
    var args := Substituted(c.args, b);
    && c.negated && facts[c.fact].functional && !AnyOpen(c, args)
    && AnyOtherValue(store, c, args) && !IsRecordedOf(store, c.fact, args)
  }

  /** Condition `i` is true by itself under values for the variables met so far: by an entry,
      or, when it has no variable of its own, by another value of its fact. */
  predicate TrueBy(facts: map<Id, Fact>, store: Store, alt: Alternative, i: nat, b: Binding)
    requires AllResolve(facts, alt) && i < |alt|
  {
    && alt[i].Test?
    && (TrueByEntry(store, alt[i], b)
        || (VarsOf(alt[i]) <= VarsUpto(alt, i) && TrueByOther(facts, store, alt[i], b)))
  }

  predicate TrueUnder(facts: map<Id, Fact>, store: Store, alt: Alternative, i: nat, sub: Binding)
    requires AllResolve(facts, alt) && i < |alt|
  {
    TrueBy(facts, store, alt, i, Within(sub, VarsUpto(alt, i + 1)))
  }

  ghost predicate TrueFrom(facts: map<Id, Fact>, store: Store, alt: Alternative, i: nat, sub: Binding)
    requires AllResolve(facts, alt)
  {
    forall k :: i <= k < |alt| ==> TrueUnder(facts, store, alt, k, sub)
  }

  /** A value for each variable, and each condition true under it. */
  ghost predicate Satisfies(facts: map<Id, Fact>, store: Store, alt: Alternative, sub: Binding)
    requires AllResolve(facts, alt)
  {
    && sub.Keys == VarsUpto(alt, |alt|)
    && TrueFrom(facts, store, alt, 0, sub)
  }

  // ---------------------------------------------------------------------- one entry

  /** `b` gives each open argument the recorded one, and the others are as recorded. */
  ghost predicate Matches(c: Condition, args: seq<string>, fargs: seq<string>, b: Binding)
    requires c.Test? && |args| == |fargs|
  {
    forall n :: 0 <= n < |args| ==>
      if IsOpen(c, args[n]) then args[n] in b && b[args[n]] == fargs[n] else args[n] == fargs[n]
  }

  ghost predicate Extends(b: Binding, b': Binding) {
    forall v :: v in b ==> v in b' && b'[v] == b[v]
  }

  /** No open argument is recorded as its own name. */
  ghost predicate NotItself(c: Condition, args: seq<string>, fargs: seq<string>)
    requires c.Test? && |args| == |fargs|
  {
    forall n :: 0 <= n < |args| && IsOpen(c, args[n]) ==> fargs[n] != args[n]
  }

  /** What is bound of the condition's arguments is not open in it again. */
  ghost predicate StaysBound(c: Condition, b: Binding)
    requires c.Test?
  {
    forall v :: v in b && v in c.args ==> !IsOpen(c, b[v])
  }

  lemma OpenInCons(c: Condition, args: seq<string>)
    requires c.Test? && args != []
    ensures OpenIn(c, args) == (if IsOpen(c, args[0]) then {args[0]} else {}) + OpenIn(c, args[1..])
  {
    assert args == [args[0]] + args[1..];
  }

  lemma {:induction false} UnifiedMatches(c: Condition, args: seq<string>, fargs: seq<string>, b: Binding)
    requires c.Test? && |args| == |fargs| && NotItself(c, args, fargs)
    requires Unified(c, args, fargs, b).Some?
    ensures var b' := Unified(c, args, fargs, b).value;
            b'.Keys == b.Keys + OpenIn(c, args) && Extends(b, b') && Matches(c, args, fargs, b')
  {
    if args != [] {
      OpenInCons(c, args);
      var b1 := if args[0] == fargs[0] || args[0] in b then b else b[args[0] := fargs[0]];
      UnifiedMatches(c, args[1..], fargs[1..], b1);
      MatchesCons(c, args, fargs, Unified(c, args, fargs, b).value);
    }
  }

  lemma MatchesCons(c: Condition, args: seq<string>, fargs: seq<string>, b: Binding)
    requires c.Test? && |args| == |fargs| > 0 && Matches(c, args[1..], fargs[1..], b)
    requires if IsOpen(c, args[0]) then args[0] in b && b[args[0]] == fargs[0] else args[0] == fargs[0]
    ensures Matches(c, args, fargs, b)
  {
    forall n | 0 < n < |args|
      ensures if IsOpen(c, args[n]) then args[n] in b && b[args[n]] == fargs[n] else args[n] == fargs[n]
    {
      assert args[n] == args[1..][n - 1] && fargs[n] == fargs[1..][n - 1];
    }
  }

  lemma {:induction false} MatchesUnify(c: Condition, args: seq<string>, fargs: seq<string>, b: Binding, b': Binding)
    requires c.Test? && |args| == |fargs| && NotItself(c, args, fargs)
    requires b'.Keys == b.Keys + OpenIn(c, args) && Extends(b, b') && Matches(c, args, fargs, b')
    ensures Unified(c, args, fargs, b) == Some(b')
  {
    if args == [] {
      assert b' == b;
    } else {
      OpenInCons(c, args);
      var b1 := if args[0] == fargs[0] || args[0] in b then b else b[args[0] := fargs[0]];
      MatchesUnify(c, args[1..], fargs[1..], b1, b');
    }
  }

  /** Under what a binding and a condition's own variables come to, matching is equality. */
  lemma MatchesIsEqual(c: Condition, fargs: seq<string>, b: Binding, b': Binding)
    requires c.Test? && |fargs| == |c.args| && StaysBound(c, b)
    requires Extends(b, b') && b'.Keys == b.Keys + VarsOf(c)
    ensures Matches(c, Substituted(c.args, b), fargs, b') <==> Substituted(c.args, b') == fargs
    ensures b.Keys + OpenIn(c, Substituted(c.args, b)) == b'.Keys
  {
    var args, args' := Substituted(c.args, b), Substituted(c.args, b');
    forall n | 0 <= n < |args|
      ensures args'[n] == if IsOpen(c, args[n]) then b'[args[n]] else args[n]
      ensures IsOpen(c, args[n]) ==> args[n] in b'
    {
      var a := c.args[n];
      assert a in c.args && (a !in b ==> (a in b' <==> IsOpen(c, a)));
    }
    forall v | v in VarsOf(c) && v !in b
      ensures v in OpenIn(c, args)
    {
      var n :| 0 <= n < |c.args| && c.args[n] == v;
      assert args[n] == v;
    }
    forall v | v in OpenIn(c, args)
      ensures v in b'.Keys
    {
      var n :| 0 <= n < |args| && args[n] == v;
    }
  }

  lemma EntryBinds(c: Condition, b: Binding, e: Entry, r: Reading)
    requires c.Test? && StaysBound(c, b)
    requires e.fact == c.fact && |e.args| == |c.args| ==> NotItself(c, Substituted(c.args, b), e.args)
    requires r in Reads(c, Substituted(c.args, b), b, e)
    ensures Extends(b, r.bind) && r.bind.Keys == b.Keys + VarsOf(c)
    ensures e.fact == c.fact && e.args == Substituted(c.args, r.bind) && r.value == OnEntry(c, r.bind, e.truth)
  {
    var args := Substituted(c.args, b);
    UnifiedMatches(c, args, e.args, b);
    OpenOfSubstituted(c, b);
    MatchesIsEqual(c, e.args, b, r.bind);
  }

  lemma OpenOfSubstituted(c: Condition, b: Binding)
    requires c.Test? && StaysBound(c, b)
    ensures b.Keys + OpenIn(c, Substituted(c.args, b)) == b.Keys + VarsOf(c)
  {
    var b' := map v | v in b.Keys + VarsOf(c) :: if v in b then b[v] else "";
    MatchesIsEqual(c, Substituted(c.args, b), b, b');
  }

  lemma BindsEntry(c: Condition, b: Binding, b': Binding, e: Entry)
    requires c.Test? && StaysBound(c, b)
    requires e.fact == c.fact && |e.args| == |c.args| ==> NotItself(c, Substituted(c.args, b), e.args)
    requires Extends(b, b') && b'.Keys == b.Keys + VarsOf(c)
    requires e.fact == c.fact && e.args == Substituted(c.args, b')
    ensures Reads(c, Substituted(c.args, b), b, e) == [Reading(OnEntry(c, b', e.truth), b')]
  {
    MatchesIsEqual(c, e.args, b, b');
    MatchesUnify(c, Substituted(c.args, b), e.args, b, b');
  }

  // -------------------------------------------------------------------- one condition

  /** The binding that goes into condition `i`: of the variables before it, none of which is
      open again from there on. */
  ghost predicate Fitting(alt: Alternative, i: nat, b: Binding)
    requires i <= |alt|
  {
    && b.Keys == VarsUpto(alt, i)
    && forall m :: i <= m < |alt| && alt[m].Test? ==> StaysBound(alt[m], b)
  }

  /** An entry that gives condition `i` its variables' values leaves a fitting binding. */
  lemma EntryFits(store: Store, alt: Alternative, i: nat, b: Binding, b': Binding, e: Entry)
    requires i < |alt| && alt[i].Test? && NoneReopens(alt, store) && Fitting(alt, i, b)
    requires e in store && e.fact == alt[i].fact && e.args == Substituted(alt[i].args, b')
    requires Extends(b, b') && b'.Keys == VarsUpto(alt, i + 1)
    ensures Fitting(alt, i + 1, b')
  {
    forall m, v | i + 1 <= m < |alt| && alt[m].Test? && v in b' && v in alt[m].args
      ensures !IsOpen(alt[m], b'[v])
    {
      if v in b {
        assert StaysBound(alt[m], b);
      } else {
        var n :| 0 <= n < |alt[i].args| && alt[i].args[n] == v;
        assert BindsForGood(alt, i, n, e);
        assert e.args[n] == b'[v];
      }
    }
  }

  lemma EntryIsNotItself(store: Store, alt: Alternative, i: nat, b: Binding, e: Entry)
    requires i < |alt| && alt[i].Test? && NoneReopens(alt, store) && Fitting(alt, i, b)
    requires e in store && e.fact == alt[i].fact && |e.args| == |alt[i].args|
    ensures NotItself(alt[i], Substituted(alt[i].args, b), e.args)
  {
    var c, args := alt[i], Substituted(alt[i].args, b);
    assert StaysBound(c, b);
    forall n | 0 <= n < |args| && IsOpen(c, args[n])
      ensures e.args[n] != args[n]
    {
      assert c.args[n] in c.args && c.args[n] !in b;
      assert BindsForGood(alt, i, n, e);
    }
  }

  /** With nothing open, what is recorded of the fact is read under the binding it came with. */
  lemma ClosedSaysSame(store: Store, c: Condition, args: seq<string>, b: Binding)
    requires c.Test? && !AnyOpen(c, args)
    ensures SaysSame(Hits(store, c, args, b), b) <==> IsRecordedOf(store, c.fact, args)
  {
    var hits := Hits(store, c, args, b);
    if k :| 0 <= k < |hits| && hits[k].bind == b {
      HitsMembers(store, c, args, b, hits[k]);
      var e :| e in store && hits[k] in Reads(c, args, b, e);
      ClosedReads(c, args, b, e);
    }
    if k :| 0 <= k < |store| && store[k].fact == c.fact && store[k].args == args {
      ClosedReads(c, args, b, store[k]);
      var r := Reads(c, args, b, store[k])[0];
      HitsMembers(store, c, args, b, r);
      var j :| 0 <= j < |hits| && hits[j] == r;
    }
  }

  lemma ClosedHasNoVars(c: Condition, b: Binding)
    requires c.Test? && StaysBound(c, b)
    ensures !AnyOpen(c, Substituted(c.args, b)) <==> VarsOf(c) <= b.Keys
  {
    var args := Substituted(c.args, b);
    if n :| 0 <= n < |args| && IsOpen(c, args[n]) {
      assert c.args[n] in c.args && c.args[n] !in b;
    }
    if v :| v in VarsOf(c) && v !in b {
      var n :| 0 <= n < |c.args| && c.args[n] == v;
      assert args[n] == v;
    }
  }

  lemma {:induction false} StepIsTrue(facts: map<Id, Fact>, store: Store, alt: Alternative, i: nat, b: Binding, r: Reading)
    requires AllResolve(facts, alt) && i < |alt| && NoneReopens(alt, store) && Fitting(alt, i, b)
    requires r in Options(facts, store, alt[i], b) && r.value == T
    ensures Fitting(alt, i + 1, r.bind) && Extends(b, r.bind) && TrueBy(facts, store, alt, i, r.bind)
  {
    var c := alt[i];
    var args := Substituted(c.args, b);
    if r in Hits(store, c, args, b) {
      HitsMembers(store, c, args, b, r);
      var e :| e in store && r in Reads(c, args, b, e);
      var k :| 0 <= k < |store| && store[k] == e;
      if |e.args| == |c.args| && e.fact == c.fact {
        EntryIsNotItself(store, alt, i, b, e);
      }
      EntryBinds(c, b, e, r);
      EntryFits(store, alt, i, b, r.bind, e);
      assert TrueByEntry(store, c, r.bind);
    } else {
      ClosedHasNoVars(c, b);
      ClosedSaysSame(store, c, args, b);
    }
  }

  lemma {:induction false} EntryIsStep(store: Store, alt: Alternative, i: nat, b: Binding, b': Binding, e: Entry)
    requires i < |alt| && alt[i].Test? && NoneReopens(alt, store) && Fitting(alt, i, b)
    requires b'.Keys == VarsUpto(alt, i + 1) && Extends(b, b') && e in store
    requires e.fact == alt[i].fact && e.args == Substituted(alt[i].args, b') && OnEntry(alt[i], b', e.truth) == T
    ensures Reading(T, b') in Hits(store, alt[i], Substituted(alt[i].args, b), b) && Fitting(alt, i + 1, b')
  {
    EntryIsNotItself(store, alt, i, b, e);
    BindsEntry(alt[i], b, b', e);
    EntryFits(store, alt, i, b, b', e);
    HitsMembers(store, alt[i], Substituted(alt[i].args, b), b, Reading(T, b'));
  }

  lemma {:induction false} OtherIsStep(facts: map<Id, Fact>, store: Store, c: Condition, b: Binding)
    requires c.Test? && Resolves(facts, c) && TrueByOther(facts, store, c, b)
    ensures Reading(T, b) in Value(facts, store, c, b)
  {
    ClosedSaysSame(store, c, Substituted(c.args, b), b);
  }

  lemma {:induction false} TrueIsStep(facts: map<Id, Fact>, store: Store, alt: Alternative, i: nat, b: Binding, b': Binding)
    requires AllResolve(facts, alt) && i < |alt| && NoneReopens(alt, store) && Fitting(alt, i, b)
    requires b'.Keys == VarsUpto(alt, i + 1) && Extends(b, b') && TrueBy(facts, store, alt, i, b')
    ensures Reading(T, b') in Options(facts, store, alt[i], b) && Fitting(alt, i + 1, b')
  {
    var c := alt[i];
    var args := Substituted(c.args, b);
    if TrueByEntry(store, c, b') {
      var k :| 0 <= k < |store| && store[k].fact == c.fact && store[k].args == Substituted(c.args, b')
               && OnEntry(c, b', store[k].truth) == T;
      EntryIsStep(store, alt, i, b, b', store[k]);
    } else {
      assert b' == b;
      OtherIsStep(facts, store, c, b);
    }
  }

  // ------------------------------------------------------------------ whole alternatives

  lemma {:induction false} VarsGrow(alt: Alternative, i: nat, j: nat)
    requires i <= j <= |alt|
    ensures VarsUpto(alt, i) <= VarsUpto(alt, j)
  {
    if i < j {
      VarsGrow(alt, i, j - 1);
    }
  }

  lemma WithinIs(b: Binding, sub: Binding)
    requires Extends(b, sub)
    ensures Within(sub, b.Keys) == b
  {
  }

  lemma TrueFromStep(facts: map<Id, Fact>, store: Store, alt: Alternative, i: nat, b: Binding, sub: Binding)
    requires AllResolve(facts, alt) && i < |alt| && TrueBy(facts, store, alt, i, b)
    requires Within(sub, VarsUpto(alt, i + 1)) == b && TrueFrom(facts, store, alt, i + 1, sub)
    ensures TrueFrom(facts, store, alt, i, sub)
  {
  }

  lemma {:induction false} ChainUncons(facts: map<Id, Fact>, store: Store, alt: Alternative, i: nat, b: Binding,
                                       chain: seq<Reading>)
    requires AllResolve(facts, alt) && i < |alt| && IsChain(facts, store, alt, i, b, chain) && Least(chain) == T
    ensures chain != [] && chain[0] in Options(facts, store, alt[i], b) && chain[0].value == T
    ensures IsChain(facts, store, alt, i + 1, chain[0].bind, chain[1..]) && Least(chain[1..]) == T
  {
  }

  lemma {:induction false} ChainSatisfies(facts: map<Id, Fact>, store: Store, alt: Alternative, i: nat, b: Binding,
                                          chain: seq<Reading>)
    returns (sub: Binding)
    requires AllResolve(facts, alt) && i <= |alt| && NoneReopens(alt, store) && Fitting(alt, i, b)
    requires IsChain(facts, store, alt, i, b, chain) && Least(chain) == T
    ensures sub.Keys == VarsUpto(alt, |alt|) && Extends(b, sub) && TrueFrom(facts, store, alt, i, sub)
    decreases |alt| - i
  {
    if i == |alt| {
      sub := b;
    } else {
      var r := chain[0];
      ChainUncons(facts, store, alt, i, b, chain);
      StepIsTrue(facts, store, alt, i, b, r);
      sub := ChainSatisfies(facts, store, alt, i + 1, r.bind, chain[1..]);
      WithinIs(r.bind, sub);
      TrueFromStep(facts, store, alt, i, r.bind, sub);
      ExtendsMore(b, r.bind, sub);
    }
  }

  lemma ExtendsMore(a: Binding, b: Binding, c: Binding)
    requires Extends(a, b) && Extends(b, c)
    ensures Extends(a, c)
  {
  }

  lemma {:induction false} SatisfyingChain(facts: map<Id, Fact>, store: Store, alt: Alternative, i: nat, sub: Binding)
    returns (chain: seq<Reading>)
    requires AllResolve(facts, alt) && i <= |alt| && NoneReopens(alt, store) && Satisfies(facts, store, alt, sub)
    requires Fitting(alt, i, Within(sub, VarsUpto(alt, i)))
    ensures IsChain(facts, store, alt, i, Within(sub, VarsUpto(alt, i)), chain) && Least(chain) == T
    decreases |alt| - i
  {
    if i == |alt| {
      chain := [];
    } else {
      var b, r := Within(sub, VarsUpto(alt, i)), Reading(T, Within(sub, VarsUpto(alt, i + 1)));
      SatisfyingStep(facts, store, alt, i, sub);
      var rest := SatisfyingChain(facts, store, alt, i + 1, sub);
      chain := ChainCons(facts, store, alt, i, b, r, rest);
    }
  }

  lemma {:induction false} SatisfyingStep(facts: map<Id, Fact>, store: Store, alt: Alternative, i: nat, sub: Binding)
    requires AllResolve(facts, alt) && i < |alt| && NoneReopens(alt, store) && Satisfies(facts, store, alt, sub)
    requires Fitting(alt, i, Within(sub, VarsUpto(alt, i)))
    ensures Reading(T, Within(sub, VarsUpto(alt, i + 1))) in Options(facts, store, alt[i], Within(sub, VarsUpto(alt, i)))
    ensures Fitting(alt, i + 1, Within(sub, VarsUpto(alt, i + 1)))
  {
    VarsGrow(alt, i + 1, |alt|);
    VarsGrow(alt, i, i + 1);
    assert TrueUnder(facts, store, alt, i, sub);
    TrueIsStep(facts, store, alt, i, Within(sub, VarsUpto(alt, i)), Within(sub, VarsUpto(alt, i + 1)));
  }

  lemma {:induction false} ChainCons(facts: map<Id, Fact>, store: Store, alt: Alternative, i: nat, b: Binding, r: Reading,
                                     rest: seq<Reading>)
    returns (chain: seq<Reading>)
    requires AllResolve(facts, alt) && i < |alt| && r in Options(facts, store, alt[i], b) && r.value == T
    requires IsChain(facts, store, alt, i + 1, r.bind, rest) && Least(rest) == T
    ensures IsChain(facts, store, alt, i, b, chain) && Least(chain) == T
  {
    chain := [r] + rest;
    assert chain[1..] == rest;
  }

  /** Where no variable is open again once bound, an alternative holds exactly when one
      choice of values for its variables makes every condition true by itself. */
  lemma HoldsBySubstitution(facts: map<Id, Fact>, store: Store, alt: Alternative)
    requires AllResolve(facts, alt) && NoneReopens(alt, store)
    ensures Holds(facts, store, alt) <==> exists sub :: Satisfies(facts, store, alt, sub)
  {
    if Holds(facts, store, alt) {
      var chain: seq<Reading> :| IsReading(facts, store, alt, chain) && Least(chain) == T;
      var sub := ChainSatisfies(facts, store, alt, 0, map[], chain);
      assert Satisfies(facts, store, alt, sub);
    }
    if sub :| Satisfies(facts, store, alt, sub) {
      assert Within(sub, VarsUpto(alt, 0)) == map[];
      var chain := SatisfyingChain(facts, store, alt, 0, sub);
      assert IsReading(facts, store, alt, chain);
    }
  }

  /** So it is, whatever the alternative, where each recorded argument is a role letter or
      starts with no capital. */
  lemma RolesNeverReopen(alt: Alternative, store: Store)
    requires forall e, n :: e in store && 0 <= n < |e.args| ==> !Capitalised(e.args[n]) || e.args[n] in ROLES
    ensures NoneReopens(alt, store)
  {
    forall j, e, n {:trigger BindsForGood(alt, j, n, e)} |
      && 0 <= j < |alt| && alt[j].Test? && e in store && e.fact == alt[j].fact
      && |e.args| == |alt[j].args| && 0 <= n < |e.args|
      ensures BindsForGood(alt, j, n, e)
    {
      assert !Capitalised(e.args[n]) || e.args[n] in ROLES;
    }
  }

  // --------------------------------------------------------- a variable that is open again

  const F_OF_X := Test("f", ["X"], false, [], {})
  const G_OF_X := Test("g", ["X"], false, [], {})
  const TWO_FACTS: map<Id, Fact> := map["f" := Fact(["A"], false), "g" := Fact(["A"], false)]

  /** `X` is bound to a name with a capital, which is open again where `X` is next used. */
  const OPEN_AGAIN := [Entry("f", ["Y"], true), Entry("g", ["z"], true)]

  lemma OneArgument(c: Condition, a: string, e: Entry, b: Binding)
    requires c.Test? && c.compare == [] && !c.negated && c.literals == {} && IsOpen(c, a) && a !in b
    requires |e.args| == 1 && e.args[0] != a && e.truth
    ensures Reads(c, [a], b, e) == if e.fact == c.fact then [Reading(T, b[a := e.args[0]])] else []
  {
    assert [a][1..] == [] && e.args[1..] == [];
    assert Unified(c, [a][1..], e.args[1..], b[a := e.args[0]]) == Some(b[a := e.args[0]]);
  }

  lemma OpenAgainReads()
    ensures Reading(T, map["X" := "Y"]) in Value(TWO_FACTS, OPEN_AGAIN, F_OF_X, map[])
    ensures Reading(T, map["X" := "Y", "Y" := "z"]) in Value(TWO_FACTS, OPEN_AGAIN, G_OF_X, map["X" := "Y"])
  {
    var b := map["X" := "Y"];
    var first, second := Reading(T, b), Reading(T, b["Y" := "z"]);
    assert "X"[0] == 'X' && "Y"[0] == 'Y' && "z"[0] == 'z';
    assert Substituted(F_OF_X.args, map[]) == ["X"] && Substituted(G_OF_X.args, b) == ["Y"];
    OneArgument(F_OF_X, "X", OPEN_AGAIN[0], map[]);
    OneArgument(G_OF_X, "Y", OPEN_AGAIN[1], b);
    HitsMembers(OPEN_AGAIN, F_OF_X, ["X"], map[], first);
    HitsMembers(OPEN_AGAIN, G_OF_X, ["Y"], b, second);
    assert b["Y" := "z"] == map["X" := "Y", "Y" := "z"];
  }

  lemma OpenAgainChain()
    ensures AllResolve(TWO_FACTS, [F_OF_X, G_OF_X]) && Holds(TWO_FACTS, OPEN_AGAIN, [F_OF_X, G_OF_X])
  {
    var facts, store, alt := TWO_FACTS, OPEN_AGAIN, [F_OF_X, G_OF_X];
    var first, second := Reading(T, map["X" := "Y"]), Reading(T, map["X" := "Y", "Y" := "z"]);
    OpenAgainReads();
    assert IsChain(facts, store, alt, 2, second.bind, []);
    var rest := ChainCons(facts, store, alt, 1, first.bind, second, []);
    var chain := ChainCons(facts, store, alt, 0, map[], first, rest);
    assert IsReading(facts, store, alt, chain);
  }

  lemma NamedByEntry(c: Condition, a: string, b: Binding)
    requires (c == F_OF_X && a == "Y") || (c == G_OF_X && a == "z")
    requires TrueByEntry(OPEN_AGAIN, c, b)
    ensures "X" in b && b["X"] == a
  {
    assert Substituted(c.args, b)[0] == if "X" in b then b["X"] else "X";
    var k :| 0 <= k < |OPEN_AGAIN| && OPEN_AGAIN[k].fact == c.fact && OPEN_AGAIN[k].args == Substituted(c.args, b);
    assert OPEN_AGAIN[k].args[0] == a && "Y"[0] != 'X' && "z"[0] != 'X';
  }

  lemma NoneMakesBothTrue(sub: Binding)
    requires AllResolve(TWO_FACTS, [F_OF_X, G_OF_X])
    ensures !Satisfies(TWO_FACTS, OPEN_AGAIN, [F_OF_X, G_OF_X], sub)
  {
    var facts, store, alt := TWO_FACTS, OPEN_AGAIN, [F_OF_X, G_OF_X];
    var b, b' := Within(sub, VarsUpto(alt, 1)), Within(sub, VarsUpto(alt, 2));
    assert "Y"[0] != "z"[0];
    if TrueUnder(facts, store, alt, 0, sub) && TrueUnder(facts, store, alt, 1, sub) {
      NamedByEntry(F_OF_X, "Y", b);
      NamedByEntry(G_OF_X, "z", b');
      assert false;
    }
  }

  /** Without that, the search binds the value in its turn, and an alternative holds that no
      choice of values makes true. */
  lemma OpenAgainHolds()
    ensures AllResolve(TWO_FACTS, [F_OF_X, G_OF_X]) && Holds(TWO_FACTS, OPEN_AGAIN, [F_OF_X, G_OF_X])
    ensures !exists sub :: Satisfies(TWO_FACTS, OPEN_AGAIN, [F_OF_X, G_OF_X], sub)
    ensures !NoneReopens([F_OF_X, G_OF_X], OPEN_AGAIN)
  {
    var facts, store, alt := TWO_FACTS, OPEN_AGAIN, [F_OF_X, G_OF_X];
    OpenAgainChain();
    if sub :| Satisfies(facts, store, alt, sub) {
      NoneMakesBothTrue(sub);
      assert false;
    }
    if NoneReopens(alt, store) {
      HoldsBySubstitution(facts, store, alt);
      assert false;
    }
  }
}
