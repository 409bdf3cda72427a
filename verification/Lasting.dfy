/**
 Whole alternatives as evidence accumulates: when one that holds goes on holding, whatever
 is recorded later, and how far that can be told from the alternative by itself.
 */
module Lasting {
  import opened Base
  import opened Knowledge
  import opened Search
  import opened Stability

  /** A reading of the conditions from `i` on that makes each true, none of them brittle
      under the binding it is read with. */
  ghost predicate FirmChain(facts: map<Id, Fact>, store: Store, alt: Alternative, i: nat, bind: Binding,
                            chain: seq<Reading>)
    requires AllResolve(facts, alt) && i <= |alt|
    decreases |alt| - i
  {
    && |chain| == |alt| - i
    && (chain != [] ==>
          && chain[0] in Options(facts, store, alt[i], bind) && chain[0].value == T
          && !Brittle(facts, store, alt[i], bind)
          && FirmChain(facts, store, alt, i + 1, chain[0].bind, chain[1..]))
  }

  ghost predicate FirmlyHolds(facts: map<Id, Fact>, store: Store, alt: Alternative)
    requires AllResolve(facts, alt)
  {
    exists chain :: FirmChain(facts, store, alt, 0, map[], chain)
  }

  lemma {:induction false} FirmChainIsTrue(facts: map<Id, Fact>, store: Store, alt: Alternative, i: nat, bind: Binding,
                                           chain: seq<Reading>)
    requires AllResolve(facts, alt) && i <= |alt| && FirmChain(facts, store, alt, i, bind, chain)
    ensures IsChain(facts, store, alt, i, bind, chain) && Least(chain) == T
    decreases |alt| - i
  {
    if i < |alt| {
      FirmChainIsTrue(facts, store, alt, i + 1, chain[0].bind, chain[1..]);
    }
  }

  lemma {:induction false} FirmChainPersists(facts: map<Id, Fact>, store: Store, store': Store, alt: Alternative, i: nat,
                                             bind: Binding, chain: seq<Reading>)
    requires AllResolve(facts, alt) && i <= |alt| && Grows(facts, store, store')
    requires FirmChain(facts, store, alt, i, bind, chain)
    ensures FirmChain(facts, store', alt, i, bind, chain)
    decreases |alt| - i
  {
    if i < |alt| {
      TruePersists(facts, store, store', alt[i], bind, chain[0]);
      FirmStaysFirm(facts, store, store', alt[i], bind, chain[0]);
      FirmChainPersists(facts, store, store', alt, i + 1, chain[0].bind, chain[1..]);
    }
  }

  /** An alternative that some reading makes true without a brittle step holds, and so it
      does on more evidence, even where a variable was bound to a value that is open again. */
  lemma AlternativePersists(facts: map<Id, Fact>, store: Store, store': Store, alt: Alternative)
    requires AllResolve(facts, alt) && Grows(facts, store, store') && FirmlyHolds(facts, store, alt)
    ensures Holds(facts, store, alt) && Holds(facts, store', alt) && FirmlyHolds(facts, store', alt)
  {
    var chain: seq<Reading> :| FirmChain(facts, store, alt, 0, map[], chain);
    FirmChainIsTrue(facts, store, alt, 0, map[], chain);
    FirmChainPersists(facts, store, store', alt, 0, map[], chain);
    FirmChainIsTrue(facts, store', alt, 0, map[], chain);
    assert IsReading(facts, store, alt, chain) && IsReading(facts, store', alt, chain);
  }

  // -------------------------------------------- a condition on the alternative by itself

  /** A variable of `c` is an argument of `d` too. */
  predicate Shares(c: Condition, d: Condition) {
    c.Test? && d.Test? && exists n :: 0 <= n < |c.args| && IsOpen(c, c.args[n]) && c.args[n] in d.args
  }

  /** Two of the first `i` conditions share a variable. What it was bound to may be open
      again, and bind anything. */
  predicate Rejoins(alt: Alternative, i: nat)
    requires i <= |alt|
  {
    exists j, k :: 0 <= j < k < i && Shares(alt[j], alt[k])
  }

  /** The conditions before `i` might have bound `a`. */
  predicate MayBind(alt: Alternative, i: nat, a: string)
    requires i <= |alt|
  {
    Rejoins(alt, i) || exists j :: 0 <= j < i && alt[j].Test? && a in alt[j].args && IsOpen(alt[j], a)
  }

  /** Some argument of condition `i` is open however the conditions before it are read. */
  predicate KeepsOpen(alt: Alternative, i: nat)
    requires i < |alt| && alt[i].Test?
  {
    exists n :: 0 <= n < |alt[i].args| && IsOpen(alt[i], alt[i].args[n]) && !MayBind(alt, i, alt[i].args[n])
  }

  /** Every denying comparison keeps an argument open that nothing before it binds. */
  predicate Steady(facts: map<Id, Fact>, alt: Alternative)
    requires AllResolve(facts, alt)
  {
    forall i :: 0 <= i < |alt| ==> Denies(facts, alt[i]) ==> KeepsOpen(alt, i)
  }

  ghost predicate Bound(alt: Alternative, i: nat, bind: Binding)
    requires i <= |alt|
  {
    forall a :: a in bind ==> MayBind(alt, i, a)
  }

  lemma {:induction false} UnifiedKeys(c: Condition, args: seq<string>, fargs: seq<string>, b: Binding, a: string)
    requires c.Test? && |args| == |fargs|
    requires Unified(c, args, fargs, b).Some? && a in Unified(c, args, fargs, b).value && a !in b
    ensures a in args && IsOpen(c, a)
  {
    if args != [] {
      var b' := if args[0] == fargs[0] || args[0] in b then b else b[args[0] := fargs[0]];
      if a !in b' {
        UnifiedKeys(c, args[1..], fargs[1..], b', a);
        assert forall k :: 0 <= k < |args| - 1 ==> args[1..][k] == args[k + 1];
      }
    }
  }

  lemma MayBindMore(alt: Alternative, i: nat, a: string)
    requires i < |alt| && MayBind(alt, i, a)
    ensures MayBind(alt, i + 1, a)
  {
    if j :| 0 <= j < i && alt[j].Test? && a in alt[j].args && IsOpen(alt[j], a) {
      assert j < i + 1;
    }
  }

  /** A key bound at condition `i` is an argument of it, or what an earlier one of its
      arguments was bound to. */
  lemma NewKey(alt: Alternative, i: nat, bind: Binding, a: string)
    requires i < |alt| && alt[i].Test? && Bound(alt, i, bind)
    requires a in Substituted(alt[i].args, bind) && IsOpen(alt[i], a)
    ensures MayBind(alt, i + 1, a)
  {
    var args := Substituted(alt[i].args, bind);
    var n :| 0 <= n < |args| && args[n] == a;
    var x := alt[i].args[n];
    if x in bind {
      assert MayBind(alt, i, x);
      if j :| 0 <= j < i && alt[j].Test? && x in alt[j].args && IsOpen(alt[j], x) {
        var m :| 0 <= m < |alt[j].args| && alt[j].args[m] == x;
        assert Shares(alt[j], alt[i]);
      }
    }
  }

  lemma OptionBinds(facts: map<Id, Fact>, store: Store, alt: Alternative, i: nat, bind: Binding, r: Reading)
    requires AllResolve(facts, alt) && i < |alt| && Bound(alt, i, bind)
    requires r in Options(facts, store, alt[i], bind)
    ensures Bound(alt, i + 1, r.bind)
  {
    forall a | a in r.bind
      ensures MayBind(alt, i + 1, a)
    {
      if a in bind {
        MayBindMore(alt, i, a);
      } else {
        var c := alt[i];
        var args := Substituted(c.args, bind);
        HitsMembers(store, c, args, bind, r);
        var e :| e in store && r in Reads(c, args, bind, e);
        UnifiedKeys(c, args, e.args, bind, a);
        NewKey(alt, i, bind, a);
      }
    }
  }

  lemma SteadyStep(facts: map<Id, Fact>, store: Store, alt: Alternative, i: nat, bind: Binding)
    requires AllResolve(facts, alt) && Steady(facts, alt) && i < |alt| && Bound(alt, i, bind)
    ensures !Brittle(facts, store, alt[i], bind)
  {
    var c := alt[i];
    if Denies(facts, c) {
      assert KeepsOpen(alt, i);
      var n :| 0 <= n < |c.args| && IsOpen(c, c.args[n]) && !MayBind(alt, i, c.args[n]);
      assert Substituted(c.args, bind)[n] == c.args[n];
    }
  }

  lemma {:induction false} SteadyChainIsFirm(facts: map<Id, Fact>, store: Store, alt: Alternative, i: nat, bind: Binding,
                                             chain: seq<Reading>)
    requires AllResolve(facts, alt) && Steady(facts, alt) && i <= |alt| && Bound(alt, i, bind)
    requires IsChain(facts, store, alt, i, bind, chain) && Least(chain) == T
    ensures FirmChain(facts, store, alt, i, bind, chain)
    decreases |alt| - i
  {
    if i < |alt| {
      SteadyStep(facts, store, alt, i, bind);
      OptionBinds(facts, store, alt, i, bind, chain[0]);
      SteadyChainIsFirm(facts, store, alt, i + 1, chain[0].bind, chain[1..]);
    }
  }

  /** A steady alternative never holds but firmly, whatever the evidence. */
  lemma SteadyIsFirm(facts: map<Id, Fact>, store: Store, alt: Alternative)
    requires AllResolve(facts, alt) && Steady(facts, alt) && Holds(facts, store, alt)
    ensures FirmlyHolds(facts, store, alt)
  {
    var chain: seq<Reading> :| IsReading(facts, store, alt, chain) && Least(chain) == T;
    SteadyChainIsFirm(facts, store, alt, 0, map[], chain);
  }

  // --------------------------------------------------- firm is more than it takes to last

  const TWO_PARAMETERS: map<Id, Fact> := map["f" := Fact(["Subject", "Code"], true)]

  /** Some subject is denied the value 0; and so is `w`, being that subject. */
  const SOME_DENIED := Test("f", ["X", "0"], true, [], {})
  const W_DENIED := Test("f", ["w", "0"], true, [Comparison("X", "==", "w")], {})
  const BOTH := [SOME_DENIED, W_DENIED]

  const W_HAS_FIVE := Entry("f", ["w", "5"], true)
  const X_NOT_ZERO := Entry("f", ["x", "0"], false)
  const W_NOT_ZERO := Entry("f", ["w", "0"], false)
  const EVIDENCE := [W_HAS_FIVE, X_NOT_ZERO]

  lemma ZeroUnifies(c: Condition, x: string, b: Binding)
    requires c.Test?
    ensures Unified(c, ["0"], [x], b) == if x == "0" then Some(b) else None
  {
    assert ["0"][1..] == [] && [x][1..] == [] && !Capitalised("0");
  }

  lemma SomeDeniedReads(e: Entry)
    requires e.fact == "f" && |e.args| == 2
    ensures Reads(SOME_DENIED, ["X", "0"], map[], e)
            == if e.args[1] == "0" && e.args[0] != "X" then [Reading(if e.truth then F else T, map["X" := e.args[0]])]
               else if e.args[1] == "0" then [Reading(if e.truth then F else T, map[])] else []
  {
    var c, args := SOME_DENIED, ["X", "0"];
    assert args[1..] == ["0"] && e.args[1..] == [e.args[1]] && args[0] == "X";
    ZeroUnifies(c, e.args[1], map[]);
    ZeroUnifies(c, e.args[1], map["X" := e.args[0]]);
    var b := if e.args[0] == "X" then map[] else map["X" := e.args[0]];
    assert Unified(c, args, e.args, map[]) == if e.args[1] == "0" then Some(b) else None;
  }

  lemma SomeDeniedOnEvidence()
    ensures Options(TWO_PARAMETERS, EVIDENCE, SOME_DENIED, map[]) == [Reading(T, map["X" := "x"])]
  {
    UnboundArgs(SOME_DENIED.args);
    SomeDeniedReads(W_HAS_FIVE);
    SomeDeniedReads(X_NOT_ZERO);
    assert W_HAS_FIVE.args[1] == "5" && "5" != "0";
    assert X_NOT_ZERO.args[0] == "x" && "x" != "X";
    assert EVIDENCE[..1] == [W_HAS_FIVE] && [W_HAS_FIVE][..0] == [];
    var args := ["X", "0"];
    assert Hits([W_HAS_FIVE], SOME_DENIED, args, map[]) == [];
    assert Hits(EVIDENCE, SOME_DENIED, args, map[]) == [Reading(T, map["X" := "x"])];
    assert IsOpen(SOME_DENIED, args[0]);
  }

  lemma WClosed(bind: Binding)
    requires bind.Keys == {"X"}
    ensures Substituted(W_DENIED.args, bind) == ["w", "0"] && !AnyOpen(W_DENIED, ["w", "0"])
  {
    assert !Capitalised("w") && !Capitalised("0");
    assert "w" != "X" && "0" != "X";
  }

  /** While nothing is recorded of `w` and 0, the denial rests on the other value. */
  lemma WDeniedByOther(store: Store)
    requires W_HAS_FIVE in store && forall e :: e in store ==> e.fact != "f" || e.args != ["w", "0"]
    ensures Options(TWO_PARAMETERS, store, W_DENIED, map["X" := "x"]) == [Reading(T, map["X" := "x"])]
    ensures Brittle(TWO_PARAMETERS, store, W_DENIED, map["X" := "x"])
  {
    var bind, args := map["X" := "x"], ["w", "0"];
    WClosed(bind);
    var hits := Hits(store, W_DENIED, args, bind);
    if hits != [] {
      HitsMembers(store, W_DENIED, args, bind, hits[0]);
      var e :| e in store && hits[0] in Reads(W_DENIED, args, bind, e);
      ClosedReads(W_DENIED, args, bind, e);
      assert false;
    }
    var i :| 0 <= i < |store| && store[i] == W_HAS_FIVE;
    assert W_HAS_FIVE.args[..1] == args[..1] && W_HAS_FIVE.args[1] != args[1];
    assert OtherValue(W_DENIED, args, store[i]);
    assert W_DENIED.compare[1..] == [] && "x" != "w";
  }

  /** Once it is, the reading rests on a recorded fact: `w` is the subject denied. */
  lemma WDeniedItself(store: Store)
    requires W_NOT_ZERO in store
    ensures Reading(T, map["X" := "w"]) in Options(TWO_PARAMETERS, store, SOME_DENIED, map[])
    ensures Reading(T, map["X" := "w"]) in Options(TWO_PARAMETERS, store, W_DENIED, map["X" := "w"])
  {
    var r, bind := Reading(T, map["X" := "w"]), map["X" := "w"];
    UnboundArgs(SOME_DENIED.args);
    SomeDeniedReads(W_NOT_ZERO);
    assert W_NOT_ZERO.args[0] == "w" && "w" != "X";
    HitsMembers(store, SOME_DENIED, ["X", "0"], map[], r);
    WClosed(bind);
    ClosedReads(W_DENIED, ["w", "0"], bind, W_NOT_ZERO);
    assert W_DENIED.compare[1..] == [];
    HitsMembers(store, W_DENIED, ["w", "0"], bind, r);
  }

  lemma TwoReadings(store: Store, first: Reading, second: Reading)
    requires first in Options(TWO_PARAMETERS, store, SOME_DENIED, map[]) && first.value == T
    requires second in Options(TWO_PARAMETERS, store, W_DENIED, first.bind) && second.value == T
    ensures AllResolve(TWO_PARAMETERS, BOTH) && Holds(TWO_PARAMETERS, store, BOTH)
  {
    var chain := [first, second];
    assert chain[1..] == [second] && [second][1..] == [];
    assert Least([second]) == T;
    assert IsChain(TWO_PARAMETERS, store, BOTH, 2, second.bind, []);
    assert IsChain(TWO_PARAMETERS, store, BOTH, 1, first.bind, [second]);
    assert IsReading(TWO_PARAMETERS, store, BOTH, chain) && Least(chain) == T;
  }

  /** With `w` denied, both conditions are read of it. */
  lemma BothByDenial(store': Store, e: Entry)
    requires Grows(TWO_PARAMETERS, EVIDENCE, store') && EVIDENCE[0] in store'
    requires e in store' && e.fact == "f" && e.args == ["w", "0"]
    ensures AllResolve(TWO_PARAMETERS, BOTH) && Holds(TWO_PARAMETERS, store', BOTH)
  {
    assert W_HAS_FIVE.args[..1] == e.args[..1] && W_HAS_FIVE.args[1] != e.args[1];
    assert SameSubject(e, W_HAS_FIVE);
    assert e == W_NOT_ZERO;
    WDeniedItself(store');
    TwoReadings(store', Reading(T, map["X" := "w"]), Reading(T, map["X" := "w"]));
  }

  /** Without, the first is read of `x` and the second by another value of `w`. */
  lemma BothByOther(store': Store)
    requires Grows(TWO_PARAMETERS, EVIDENCE, store') && EVIDENCE[0] in store' && EVIDENCE[1] in store'
    requires forall e :: e in store' && e.fact == "f" ==> e.args != ["w", "0"]
    ensures AllResolve(TWO_PARAMETERS, BOTH) && Holds(TWO_PARAMETERS, store', BOTH)
  {
    WDeniedByOther(store');
    UnboundArgs(SOME_DENIED.args);
    SomeDeniedReads(X_NOT_ZERO);
    assert X_NOT_ZERO.args[0] == "x" && "x" != "X";
    HitsMembers(store', SOME_DENIED, ["X", "0"], map[], Reading(T, map["X" := "x"]));
    TwoReadings(store', Reading(T, map["X" := "x"]), Reading(T, map["X" := "x"]));
  }

  lemma BothLasts(store': Store)
    requires Grows(TWO_PARAMETERS, EVIDENCE, store')
    ensures AllResolve(TWO_PARAMETERS, BOTH) && Holds(TWO_PARAMETERS, store', BOTH)
  {
    assert EVIDENCE[0] in store' && EVIDENCE[1] in store';
    if e :| e in store' && e.fact == "f" && e.args == ["w", "0"] {
      BothByDenial(store', e);
    } else {
      BothByOther(store');
    }
  }

  lemma FirmSecondStep(facts: map<Id, Fact>, store: Store, alt: Alternative)
    requires AllResolve(facts, alt) && |alt| > 1 && FirmlyHolds(facts, store, alt)
    ensures exists r :: r in Options(facts, store, alt[0], map[]) && !Brittle(facts, store, alt[1], r.bind)
  {
    var chain: seq<Reading> :| FirmChain(facts, store, alt, 0, map[], chain);
    assert FirmChain(facts, store, alt, 1, chain[0].bind, chain[1..]);
  }

  lemma EvidenceIsAllowed()
    ensures AllResolve(TWO_PARAMETERS, BOTH) && IsEvidence(TWO_PARAMETERS, EVIDENCE)
  {
    assert W_HAS_FIVE.args[0] == "w" && X_NOT_ZERO.args[0] == "x" && "w" != "x";
  }

  lemma NotFirmOnEvidence()
    ensures AllResolve(TWO_PARAMETERS, BOTH) && !FirmlyHolds(TWO_PARAMETERS, EVIDENCE, BOTH)
  {
    assert W_HAS_FIVE.args[0] == "w" && X_NOT_ZERO.args[0] == "x" && "w" != "x" && "w" != "X";
    SomeDeniedOnEvidence();
    assert W_HAS_FIVE.args[1] == "5" && "5" != "0";
    WDeniedByOther(EVIDENCE);
    if FirmlyHolds(TWO_PARAMETERS, EVIDENCE, BOTH) {
      FirmSecondStep(TWO_PARAMETERS, EVIDENCE, BOTH);
      assert false;
    }
  }

  /** The converse fails step by step: here the one true reading has a brittle step, and the
      denial that breaks the step is itself what the condition before it can be read by, so
      that the alternative holds on all evidence there can ever be. */
  lemma LastingIsNotFirm()
    ensures AllResolve(TWO_PARAMETERS, BOTH) && IsEvidence(TWO_PARAMETERS, EVIDENCE)
    ensures !FirmlyHolds(TWO_PARAMETERS, EVIDENCE, BOTH)
    ensures forall store' :: Grows(TWO_PARAMETERS, EVIDENCE, store') ==> Holds(TWO_PARAMETERS, store', BOTH)
  {
    EvidenceIsAllowed();
    forall store' | Grows(TWO_PARAMETERS, EVIDENCE, store')
      ensures Holds(TWO_PARAMETERS, store', BOTH)
    {
      BothLasts(store');
    }
    NotFirmOnEvidence();
  }

  /** For one condition by itself, steady is all it takes. */
  lemma SteadyAlone(facts: map<Id, Fact>, c: Condition)
    requires AllResolve(facts, [c]) && Resolves(facts, c)
    ensures Steady(facts, [c]) <==> AlwaysPersists(facts, c)
  {
    SinglePersistsExactly(facts, c);
    assert [c][0] == c;
    assert forall a :: !MayBind([c], 0, a);
    assert c.Test? ==> (KeepsOpen([c], 0) <==> AnyOpen(c, c.args));
  }
}
