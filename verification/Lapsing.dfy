/**
 When an alternative that holds can cease to hold: a denying comparison that nothing bound
 can reach is true by another value alone, and recording the denial takes it back.
 */
module Lapsing {
  import opened Knowledge
  import opened Search
  import opened Stability
  import opened Lasting

  /** Condition `i` is of one ground fact and compares nothing bound, however the conditions
      before it are read. */
  predicate Sealed(alt: Alternative, i: nat)
    requires i < |alt| && alt[i].Test?
  {
    && (forall n :: 0 <= n < |alt[i].args| ==> !IsOpen(alt[i], alt[i].args[n]) && !MayBind(alt, i, alt[i].args[n]))
    && (forall k :: 0 <= k < |alt[i].compare| ==> !MayBind(alt, i, alt[i].compare[k].variable))
  }

  /** It goes on holding on all growth of all evidence. */
  ghost predicate AlwaysLasts(facts: map<Id, Fact>, alt: Alternative)
    requires AllResolve(facts, alt)
  {
    forall store, store' ::
      IsEvidence(facts, store) && Grows(facts, store, store') && Holds(facts, store, alt) ==> Holds(facts, store', alt)
  }

  ghost predicate CanHold(facts: map<Id, Fact>, alt: Alternative)
    requires AllResolve(facts, alt)
  {
    exists store :: IsEvidence(facts, store) && Holds(facts, store, alt)
  }

  /** Of comparisons none of whose variables is bound, nothing is known. */
  lemma {:induction false} ComparedIdle(compare: seq<Comparison>, b: Binding, truth: bool, v: Kleene)
    requires compare != [] && forall k :: 0 <= k < |compare| ==> compare[k].variable !in b
    ensures Compared(compare, b, truth, v) == U
  {
    assert compare[0].variable !in b;
    if |compare| > 1 {
      ComparedIdle(compare[1..], b, truth, U);
    } else {
      assert Compared(compare[1..], b, truth, U) == U;
    }
  }

  /** A sealed condition reads as written, and what is recorded of it decides nothing. */
  lemma SealedReads(alt: Alternative, i: nat, bind: Binding, e: Entry)
    requires i < |alt| && alt[i].Test? && Sealed(alt, i) && alt[i].compare != [] && Bound(alt, i, bind)
    ensures Substituted(alt[i].args, bind) == alt[i].args && !AnyOpen(alt[i], alt[i].args)
    ensures Compared(alt[i].compare, bind, false, F) == U
    ensures Reads(alt[i], alt[i].args, bind, e)
            == if e.fact == alt[i].fact && e.args == alt[i].args then [Reading(U, bind)] else []
  {
    var c := alt[i];
    assert forall n :: 0 <= n < |c.args| ==> c.args[n] !in bind;
    ComparedIdle(c.compare, bind, false, F);
    ComparedIdle(c.compare, bind, e.truth, if e.truth then T else F);
    ClosedReads(c, c.args, bind, e);
  }

  /** So when it is true, it is by another value of its fact, and nothing is recorded of it. */
  lemma SealedTrueIsBrittle(facts: map<Id, Fact>, store: Store, alt: Alternative, i: nat, bind: Binding, r: Reading)
    requires AllResolve(facts, alt) && i < |alt| && Denies(facts, alt[i]) && Sealed(alt, i) && Bound(alt, i, bind)
    requires r in Options(facts, store, alt[i], bind) && r.value == T
    ensures Brittle(facts, store, alt[i], bind) && !IsRecorded(store, alt[i])
  {
    var c := alt[i];
    SealedReads(alt, i, bind, Entry(c.fact, c.args, false));
    if r in Hits(store, c, c.args, bind) {
      HitsMembers(store, c, c.args, bind, r);
      var e :| e in store && r in Reads(c, c.args, bind, e);
      SealedReads(alt, i, bind, e);
      assert false;
    }
    NoHits(store, c, c.args, bind);
    DenialIsNew(store, c, c.args, bind);
  }

  /** A chain that makes every condition true makes the `n`-th true under some binding the
      ones before it can leave. */
  lemma {:induction false} StepOfChain(facts: map<Id, Fact>, store: Store, alt: Alternative, i: nat, bind: Binding,
                                       chain: seq<Reading>, n: nat)
    returns (b: Binding, r: Reading)
    requires AllResolve(facts, alt) && i <= n < |alt| && Bound(alt, i, bind)
    requires IsChain(facts, store, alt, i, bind, chain) && Least(chain) == T
    ensures Bound(alt, n, b) && r in Options(facts, store, alt[n], b) && r.value == T
    decreases n - i
  {
    if i == n {
      b, r := bind, chain[0];
    } else {
      OptionBinds(facts, store, alt, i, bind, chain[0]);
      b, r := StepOfChain(facts, store, alt, i + 1, chain[0].bind, chain[1..], n);
    }
  }

  lemma StepOfHolding(facts: map<Id, Fact>, store: Store, alt: Alternative, n: nat) returns (b: Binding, r: Reading)
    requires AllResolve(facts, alt) && n < |alt| && Holds(facts, store, alt)
    ensures Bound(alt, n, b) && r in Options(facts, store, alt[n], b) && r.value == T
  {
    var chain: seq<Reading> :| IsReading(facts, store, alt, chain) && Least(chain) == T;
    b, r := StepOfChain(facts, store, alt, 0, map[], chain, n);
  }

  predicate IsRecorded(store: Store, c: Condition)
    requires c.Test?
  {
    exists k :: 0 <= k < |store| && store[k].fact == c.fact && store[k].args == c.args
  }

  /** The store with the condition's fact denied, unless something is recorded of it. */
  function Denied(store: Store, c: Condition): Store
    requires c.Test?
  {
    if IsRecorded(store, c) then store else store + [Entry(c.fact, c.args, false)]
  }

  lemma DeniedGrows(facts: map<Id, Fact>, store: Store, c: Condition)
    requires c.Test? && Resolves(facts, c) && IsEvidence(facts, store)
    ensures Grows(facts, store, Denied(store, c)) && IsRecorded(Denied(store, c), c)
  {
    var store' := Denied(store, c);
    assert forall k :: 0 <= k < |store| ==> store'[k] == store[k];
    assert !IsRecorded(store, c) ==> store'[|store|] == Entry(c.fact, c.args, false);
    assert forall e :: e in store' && e.truth ==> e in store;
  }

  lemma GrowsTransitive(facts: map<Id, Fact>, a: Store, b: Store, c: Store)
    requires Grows(facts, a, b) && Grows(facts, b, c)
    ensures Grows(facts, a, c)
  {
    forall k | 0 <= k < |a|
      ensures a[k] in c
    {
      var e := a[k];
      assert e in b;
      var j :| 0 <= j < |b| && b[j] == e;
      assert b[j] in c;
    }
  }

  lemma RecordedStays(facts: map<Id, Fact>, store: Store, store': Store, c: Condition)
    requires c.Test? && IsRecorded(store, c) && Grows(facts, store, store')
    ensures IsRecorded(store', c)
  {
    var k :| 0 <= k < |store| && store[k].fact == c.fact && store[k].args == c.args;
    assert store[k] in store';
  }

  /** A denying comparison that is sealed. */
  predicate CanBeDenied(facts: map<Id, Fact>, alt: Alternative, i: nat)
    requires AllResolve(facts, alt) && i < |alt|
  {
    Denies(facts, alt[i]) && Sealed(alt, i)
  }

  predicate SomeCanBeDenied(facts: map<Id, Fact>, alt: Alternative) {
    AllResolve(facts, alt) && exists i :: 0 <= i < |alt| && CanBeDenied(facts, alt, i)
  }

  lemma SealedIsUnsteady(facts: map<Id, Fact>, alt: Alternative)
    requires SomeCanBeDenied(facts, alt)
    ensures !Steady(facts, alt)
  {
    var i :| 0 <= i < |alt| && CanBeDenied(facts, alt, i);
    assert !KeepsOpen(alt, i);
  }

  /** Something is recorded of the fact of one. */
  predicate SomeIsRecorded(facts: map<Id, Fact>, store: Store, alt: Alternative) {
    AllResolve(facts, alt) && exists i :: 0 <= i < |alt| && CanBeDenied(facts, alt, i) && IsRecorded(store, alt[i])
  }

  lemma SomeStaysRecorded(facts: map<Id, Fact>, store: Store, store': Store, alt: Alternative)
    requires SomeIsRecorded(facts, store, alt) && Grows(facts, store, store')
    ensures SomeIsRecorded(facts, store', alt)
  {
    var i :| 0 <= i < |alt| && CanBeDenied(facts, alt, i) && IsRecorded(store, alt[i]);
    RecordedStays(facts, store, store', alt[i]);
  }

  /** Then the alternative cannot hold. */
  lemma RecordedStops(facts: map<Id, Fact>, store: Store, alt: Alternative)
    requires SomeIsRecorded(facts, store, alt)
    ensures !Holds(facts, store, alt)
  {
    var i :| 0 <= i < |alt| && CanBeDenied(facts, alt, i) && IsRecorded(store, alt[i]);
    if Holds(facts, store, alt) {
      var b, r := StepOfHolding(facts, store, alt, i);
      SealedTrueIsBrittle(facts, store, alt, i, b, r);
      assert false;
    }
  }

  /** On whatever evidence, denials end all alternatives with a sealed denying comparison,
      for good. */
  lemma {:induction false} DenialsEndAll(facts: map<Id, Fact>, store: Store, alts: seq<Alternative>, n: nat)
    returns (store': Store)
    requires IsEvidence(facts, store) && n <= |alts|
    requires forall k :: 0 <= k < |alts| ==> SomeCanBeDenied(facts, alts[k])
    ensures Grows(facts, store, store') && forall k :: 0 <= k < n ==> SomeIsRecorded(facts, store', alts[k])
  {
    if n == 0 {
      store' := store;
    } else {
      var before := DenialsEndAll(facts, store, alts, n - 1);
      var alt := alts[n - 1];
      var i :| 0 <= i < |alt| && CanBeDenied(facts, alt, i);
      DeniedGrows(facts, before, alt[i]);
      store' := Denied(before, alt[i]);
      GrowsTransitive(facts, store, before, store');
      forall k | 0 <= k < n - 1
        ensures SomeIsRecorded(facts, store', alts[k])
      {
        SomeStaysRecorded(facts, before, store', alts[k]);
      }
    }
  }

  /** Such alternatives all come to an end, on any evidence. */
  lemma EvidenceAgainstAll(facts: map<Id, Fact>, store: Store, alts: seq<Alternative>) returns (store': Store)
    requires IsEvidence(facts, store) && forall k :: 0 <= k < |alts| ==> SomeCanBeDenied(facts, alts[k])
    ensures Grows(facts, store, store') && forall k :: 0 <= k < |alts| ==> AllResolve(facts, alts[k]) && !Holds(facts, store', alts[k])
  {
    store' := DenialsEndAll(facts, store, alts, |alts|);
    forall k | 0 <= k < |alts|
      ensures AllResolve(facts, alts[k]) && !Holds(facts, store', alts[k])
    {
      RecordedStops(facts, store', alts[k]);
    }
  }

  // ------------------------------------------------ denials that leave others as they are

  predicate Tests(alt: Alternative, fact: Id) {
    exists i :: 0 <= i < |alt| && alt[i].Test? && alt[i].fact == fact
  }

  lemma OthersTheSame(store: Store, e: Entry, c: Condition, args: seq<string>)
    requires c.Test? && c.fact != e.fact
    ensures AnyOtherValue(store + [e], c, args) == AnyOtherValue(store, c, args)
  {
    var store' := store + [e];
    if i :| 0 <= i < |store| && OtherValue(c, args, store[i]) {
      assert OtherValue(c, args, store'[i]);
    }
    if i :| 0 <= i < |store'| && OtherValue(c, args, store'[i]) {
      assert store'[i] == store[i];
    }
  }

  lemma HitsTheSame(store: Store, e: Entry, c: Condition, args: seq<string>, bind: Binding)
    requires c.Test? && c.fact != e.fact
    ensures Hits(store + [e], c, args, bind) == Hits(store, c, args, bind)
  {
    assert (store + [e])[..|store|] == store;
    assert Reads(c, args, bind, e) == [];
  }

  lemma {:induction false} OthersReadTheSame(facts: map<Id, Fact>, store: Store, e: Entry, c: Condition, bind: Binding)
    requires Resolves(facts, c) && (c.Test? ==> c.fact != e.fact)
    ensures Options(facts, store + [e], c, bind) == Options(facts, store, c, bind)
  {
    if c.Test? {
      HitsTheSame(store, e, c, Substituted(c.args, bind), bind);
      OthersTheSame(store, e, c, Substituted(c.args, bind));
    }
  }

  /** The alternative's conditions read the same on both. */
  ghost predicate ReadAlike(facts: map<Id, Fact>, alt: Alternative, store: Store, store': Store)
    requires AllResolve(facts, alt)
  {
    forall i, bind :: 0 <= i < |alt| ==> Options(facts, store', alt[i], bind) == Options(facts, store, alt[i], bind)
  }

  lemma {:induction false} ChainsTheSame(facts: map<Id, Fact>, store: Store, store': Store, alt: Alternative, i: nat,
                                         bind: Binding, chain: seq<Reading>)
    requires AllResolve(facts, alt) && i <= |alt| && ReadAlike(facts, alt, store, store')
    requires IsChain(facts, store, alt, i, bind, chain)
    ensures IsChain(facts, store', alt, i, bind, chain)
    decreases |alt| - i
  {
    if i < |alt| {
      ChainsTheSame(facts, store, store', alt, i + 1, chain[0].bind, chain[1..]);
      assert chain[0] in Options(facts, store', alt[i], bind);
    }
  }

  lemma HoldsAlike(facts: map<Id, Fact>, store: Store, store': Store, alt: Alternative)
    requires AllResolve(facts, alt) && ReadAlike(facts, alt, store, store') && Holds(facts, store, alt)
    ensures Holds(facts, store', alt)
  {
    var chain: seq<Reading> :| IsReading(facts, store, alt, chain) && Least(chain) == T;
    ChainsTheSame(facts, store, store', alt, 0, map[], chain);
    assert IsReading(facts, store', alt, chain);
  }

  /** An entry of a fact the alternative does not test is nothing to it. */
  lemma HoldsTheSame(facts: map<Id, Fact>, store: Store, e: Entry, alt: Alternative)
    requires AllResolve(facts, alt) && !Tests(alt, e.fact)
    ensures Holds(facts, store + [e], alt) <==> Holds(facts, store, alt)
  {
    var store' := store + [e];
    forall i, bind | 0 <= i < |alt|
      ensures Options(facts, store', alt[i], bind) == Options(facts, store, alt[i], bind)
    {
      OthersReadTheSame(facts, store, e, alt[i], bind);
    }
    if Holds(facts, store, alt) {
      HoldsAlike(facts, store, store', alt);
    }
    if Holds(facts, store', alt) {
      HoldsAlike(facts, store', store, alt);
    }
  }

  /** A sealed denying comparison of the `k`-th is of a fact no steady one tests. */
  predicate DeniedApart(facts: map<Id, Fact>, alts: seq<Alternative>, k: nat)
    requires k < |alts| && forall j :: 0 <= j < |alts| ==> AllResolve(facts, alts[j])
  {
    exists i :: 0 <= i < |alts[k]| && CanBeDenied(facts, alts[k], i) && NoSteadyTests(facts, alts, alts[k][i].fact)
  }

  predicate NoSteadyTests(facts: map<Id, Fact>, alts: seq<Alternative>, fact: Id)
    requires forall j :: 0 <= j < |alts| ==> AllResolve(facts, alts[j])
  {
    forall j :: 0 <= j < |alts| && Steady(facts, alts[j]) ==> !Tests(alts[j], fact)
  }

  predicate SteadyOrApart(facts: map<Id, Fact>, alts: seq<Alternative>) {
    && (forall j :: 0 <= j < |alts| ==> AllResolve(facts, alts[j]))
    && (forall k :: 0 <= k < |alts| ==> Steady(facts, alts[k]) || DeniedApart(facts, alts, k))
  }

  /** What is so of the steady ones before stays so. */
  ghost predicate SteadyAsBefore(facts: map<Id, Fact>, alts: seq<Alternative>, store: Store, store': Store)
    requires forall j :: 0 <= j < |alts| ==> AllResolve(facts, alts[j])
  {
    forall k :: 0 <= k < |alts| && Steady(facts, alts[k]) ==> (Holds(facts, store', alts[k]) <==> Holds(facts, store, alts[k]))
  }

  lemma DeniedLeavesSteady(facts: map<Id, Fact>, alts: seq<Alternative>, store: Store, c: Condition)
    requires c.Test? && (forall j :: 0 <= j < |alts| ==> AllResolve(facts, alts[j])) && NoSteadyTests(facts, alts, c.fact)
    ensures SteadyAsBefore(facts, alts, store, Denied(store, c))
  {
    if !IsRecorded(store, c) {
      forall k | 0 <= k < |alts| && Steady(facts, alts[k])
        ensures Holds(facts, Denied(store, c), alts[k]) <==> Holds(facts, store, alts[k])
      {
        HoldsTheSame(facts, store, Entry(c.fact, c.args, false), alts[k]);
      }
    }
  }

  /** Denials end all that are not steady, and change nothing for those that are. */
  lemma {:induction false} DenialsEndOthers(facts: map<Id, Fact>, store: Store, alts: seq<Alternative>, n: nat)
    returns (store': Store)
    requires IsEvidence(facts, store) && SteadyOrApart(facts, alts) && n <= |alts|
    ensures Grows(facts, store, store') && SteadyAsBefore(facts, alts, store, store')
    ensures forall k :: 0 <= k < n ==> Steady(facts, alts[k]) || SomeIsRecorded(facts, store', alts[k])
  {
    if n == 0 {
      store' := store;
    } else {
      var before := DenialsEndOthers(facts, store, alts, n - 1);
      store' := before;
      var alt := alts[n - 1];
      if !Steady(facts, alt) {
        var i :| 0 <= i < |alt| && CanBeDenied(facts, alt, i) && NoSteadyTests(facts, alts, alt[i].fact);
        DeniedGrows(facts, before, alt[i]);
        DeniedLeavesSteady(facts, alts, before, alt[i]);
        store' := Denied(before, alt[i]);
        GrowsTransitive(facts, store, before, store');
        forall k | 0 <= k < n - 1
          ensures Steady(facts, alts[k]) || SomeIsRecorded(facts, store', alts[k])
        {
          if !Steady(facts, alts[k]) {
            SomeStaysRecorded(facts, before, store', alts[k]);
          }
        }
      }
    }
  }

  /** So where no steady one holds, more evidence leaves none that does. */
  lemma EvidenceAgainstOthers(facts: map<Id, Fact>, store: Store, alts: seq<Alternative>) returns (store': Store)
    requires IsEvidence(facts, store) && SteadyOrApart(facts, alts)
    requires forall k :: 0 <= k < |alts| && Steady(facts, alts[k]) ==> !Holds(facts, store, alts[k])
    ensures Grows(facts, store, store') && forall k :: 0 <= k < |alts| ==> !Holds(facts, store', alts[k])
  {
    store' := DenialsEndOthers(facts, store, alts, |alts|);
    forall k | 0 <= k < |alts|
      ensures !Holds(facts, store', alts[k])
    {
      if !Steady(facts, alts[k]) {
        RecordedStops(facts, store', alts[k]);
      }
    }
  }

  /** Told from the alternative: where each denying comparison keeps an argument open it
      lasts, and with a sealed one it does just when it can never hold at all. */
  lemma LastsExactly(facts: map<Id, Fact>, alt: Alternative)
    requires AllResolve(facts, alt) && (Steady(facts, alt) || SomeCanBeDenied(facts, alt))
    ensures AlwaysLasts(facts, alt) <==> Steady(facts, alt) || !CanHold(facts, alt)
  {
    if Steady(facts, alt) {
      forall store, store' | IsEvidence(facts, store) && Grows(facts, store, store') && Holds(facts, store, alt)
        ensures Holds(facts, store', alt)
      {
        SteadyIsFirm(facts, store, alt);
        AlternativePersists(facts, store, store', alt);
      }
    } else if CanHold(facts, alt) {
      var store :| IsEvidence(facts, store) && Holds(facts, store, alt);
      var store' := EvidenceAgainstAll(facts, store, [alt]);
      assert !Holds(facts, store', [alt][0]);
      assert !AlwaysLasts(facts, alt);
    }
  }
}
