/**
 What this deployment can observe (`_producers`, `_missing`, `_cost` at run time;
 `observable_condition` and `decidable` at build time).
 */
module Availability {
  import opened Base
  import opened Knowledge

  /** The kind of change a condition names, if it names one. */
  function ChangeKind(K: KnowledgeBase, c: Condition): (k: Option<Id>)
    requires c.Test?
    ensures k.Some? ==> k.value in K.changes
  {
    if c.fact == CHANGE_FACT && |c.args| == 2 && c.args[1] in K.changes then Some(c.args[1]) else None
  }

  function SeenBy(K: KnowledgeBase, kind: Id): set<Id>
    requires kind in K.changes
  {
    set n | n in K.changes[kind] && n in K.actions
  }

  function ProducersOf(K: KnowledgeBase, fact: Id): set<Id> {
    set n | n in K.actions && fact in K.actions[n].produces
  }

  /** The actions that can observe a condition. An empty kind name counts as none. */
  function Producers(K: KnowledgeBase, c: Condition): (r: set<Id>)
    requires c.Test?
    ensures r <= K.actions.Keys
  {
    var kind := ChangeKind(K, c);
    if kind.Some? && kind.value != "" then SeenBy(K, kind.value) else ProducersOf(K, c.fact)
  }

  predicate Usable(K: KnowledgeBase, n: Id, have: set<string>) {
    n in K.actions && K.actions[n].requires_ in have
  }

  /** Some available action can observe the condition. */
  predicate Available(K: KnowledgeBase, c: Condition, have: set<string>)
    requires c.Test?
  {
    exists n :: n in Producers(K, c) && Usable(K, n, have)
  }

  /** The cheapest available action's cost. */
  method CheapestOf(K: KnowledgeBase, c: Condition, have: set<string>) returns (cost: Option<int>)
    requires c.Test?
    ensures cost.None? <==> !Available(K, c, have)
    ensures cost.Some? ==> exists n :: n in Producers(K, c) && Usable(K, n, have) && K.actions[n].cost == cost.value
    ensures cost.Some? ==> forall n :: n in Producers(K, c) && Usable(K, n, have) ==> cost.value <= K.actions[n].cost
  {
    cost := None;
    var todo := Producers(K, c);
    while todo != {}
      invariant todo <= Producers(K, c)
      invariant cost.None? ==> forall n :: n in Producers(K, c) - todo ==> !Usable(K, n, have)
      invariant cost.Some? ==> exists n :: n in Producers(K, c) && Usable(K, n, have) && K.actions[n].cost == cost.value
      invariant cost.Some? ==> forall n :: n in Producers(K, c) - todo && Usable(K, n, have) ==> cost.value <= K.actions[n].cost
      decreases todo
    {
      var n :| n in todo;
      todo := todo - {n};
      if Usable(K, n, have) && (cost.None? || K.actions[n].cost < cost.value) {
        cost := Some(K.actions[n].cost);
      }
    }
  }

  /** What deciding one condition costs at least, here: prose is the model's call. */
  ghost predicate CostsAtLeast(K: KnowledgeBase, c: Condition, have: set<string>, cost: int) {
    if c.Prose? then cost <= 2
    else forall n :: n in Producers(K, c) && Usable(K, n, have) ==> cost <= K.actions[n].cost
  }

  ghost predicate CostsAtMost(K: KnowledgeBase, c: Condition, have: set<string>, cost: int) {
    if c.Prose? then 2 <= cost
    else exists n :: n in Producers(K, c) && Usable(K, n, have) && K.actions[n].cost <= cost
  }

  predicate DecidableHere(K: KnowledgeBase, alt: Alternative, have: set<string>) {
    forall i :: 0 <= i < |alt| ==> alt[i].Prose? || Available(K, alt[i], have)
  }

  /** `_cost`: the dearest condition, each by its cheapest available action; none when the
      alternative cannot be decided here. */
  method CostOf(K: KnowledgeBase, alt: Alternative, have: set<string>) returns (worst: Option<int>)
    ensures worst.Some? <==> DecidableHere(K, alt, have)
    ensures worst.Some? ==> worst.value >= 0 && forall i :: 0 <= i < |alt| ==> CostsAtMost(K, alt[i], have, worst.value)
    ensures worst.Some? && worst.value > 0 ==> exists i :: 0 <= i < |alt| && CostsAtLeast(K, alt[i], have, worst.value)
  {
    var dearest: int := 0;
    for i := 0 to |alt|
      invariant DecidableHere(K, alt[..i], have)
      invariant dearest >= 0 && forall k :: 0 <= k < i ==> CostsAtMost(K, alt[k], have, dearest)
      invariant dearest > 0 ==> exists k :: 0 <= k < i && CostsAtLeast(K, alt[k], have, dearest)
    {
      if alt[i].Prose? {
        dearest := Max(dearest, 2);
      } else {
        var cost := CheapestOf(K, alt[i], have);
        if cost.None? {
          return None;
        }
        dearest := Max(dearest, cost.value);
      }
    }
    assert alt[..|alt|] == alt;
    worst := Some(dearest);
  }

  /** `_missing`: the capabilities whose absence leaves a condition unobservable. */
  function Missing(K: KnowledgeBase, alt: Alternative, have: set<string>): set<string> {
    set i, n | 0 <= i < |alt| && alt[i].Test? && !Available(K, alt[i], have) && n in Producers(K, alt[i])
      :: K.actions[n].requires_
  }

  // --------------------------------------------------------------------- at build time

  predicate Observable(K: KnowledgeBase, fact: Id, have: set<string>) {
    exists n :: n in K.actions && fact in K.actions[n].produces && Usable(K, n, have)
  }

  predicate ObservableCondition(K: KnowledgeBase, c: Condition, have: set<string>)
    requires c.Test?
  {
    if c.fact == CHANGE_FACT && |c.args| == 2 && c.args[1] in K.changes then
      exists n :: n in K.changes[c.args[1]] && Usable(K, n, have)
    else Observable(K, c.fact, have)
  }

  predicate Decidable(K: KnowledgeBase, alt: Alternative, have: set<string>) {
    forall i :: 0 <= i < |alt| ==> alt[i].Prose? || ObservableCondition(K, alt[i], have)
  }

  // --------------------------------------------------------- the two halves agree, when

  /** What has to be there, one of them at least, for the build and for the run. */
  function NeedsAtBuild(K: KnowledgeBase, c: Condition): set<string>
    requires c.Test?
  {
    var ns := if ChangeKind(K, c).Some? then SeenBy(K, ChangeKind(K, c).value) else ProducersOf(K, c.fact);
    set n | n in ns && n in K.actions :: K.actions[n].requires_
  }

  function NeedsAtRun(K: KnowledgeBase, c: Condition): set<string>
    requires c.Test?
  {
    set n | n in Producers(K, c) :: K.actions[n].requires_
  }

  lemma NeedsMeanAvailable(K: KnowledgeBase, c: Condition, have: set<string>)
    requires c.Test?
    ensures ObservableCondition(K, c, have) <==> NeedsAtBuild(K, c) * have != {}
    ensures Available(K, c, have) <==> NeedsAtRun(K, c) * have != {}
  {
    if ObservableCondition(K, c, have) {
      var n :| n in K.actions && Usable(K, n, have)
               && if ChangeKind(K, c).Some? then n in SeenBy(K, ChangeKind(K, c).value) else n in ProducersOf(K, c.fact);
      assert K.actions[n].requires_ in NeedsAtBuild(K, c) * have;
    }
    if x :| x in NeedsAtBuild(K, c) * have {
      var n :| n in K.actions && K.actions[n].requires_ == x
               && if ChangeKind(K, c).Some? then n in SeenBy(K, ChangeKind(K, c).value) else n in ProducersOf(K, c.fact);
      assert Usable(K, n, have);
    }
    if Available(K, c, have) {
      var n :| n in Producers(K, c) && Usable(K, n, have);
      assert K.actions[n].requires_ in NeedsAtRun(K, c) * have;
    }
    if x :| x in NeedsAtRun(K, c) * have {
      var n :| n in Producers(K, c) && K.actions[n].requires_ == x;
      assert Usable(K, n, have);
    }
  }

  /** The condition names a change kind whose name is empty, which the run overlooks. */
  predicate NamesEmptyKind(K: KnowledgeBase, c: Condition) {
    c.Test? && ChangeKind(K, c) == Some("")
  }

  /** For a single condition, the build and the run agree on every set of capabilities
      exactly when they look at actions with the same requirements, and they always do
      unless the condition names an empty change kind. */
  lemma ConditionAgreesExactly(K: KnowledgeBase, c: Condition)
    requires c.Test?
    ensures (forall have :: ObservableCondition(K, c, have) == Available(K, c, have))
            <==> NeedsAtBuild(K, c) == NeedsAtRun(K, c)
    ensures !NamesEmptyKind(K, c) ==> NeedsAtBuild(K, c) == NeedsAtRun(K, c)
  {
    if NeedsAtBuild(K, c) == NeedsAtRun(K, c) {
      forall have
        ensures ObservableCondition(K, c, have) == Available(K, c, have)
      {
        NeedsMeanAvailable(K, c, have);
      }
    } else {
      var x :| x in NeedsAtBuild(K, c) <==> x !in NeedsAtRun(K, c);
      NeedsMeanAvailable(K, c, {x});
      assert (x in NeedsAtBuild(K, c) * {x}) <==> x in NeedsAtBuild(K, c);
      assert (x in NeedsAtRun(K, c) * {x}) <==> x in NeedsAtRun(K, c);
    }
  }

  // ------------------------------------------------------------------ whole alternatives

  /** What each condition of the alternative needs one of, at build or at run. */
  function Needs(K: KnowledgeBase, alt: Alternative, build: bool): seq<set<string>> {
    if alt == [] then []
    else
      var c := alt[|alt| - 1];
      Needs(K, alt[..|alt| - 1], build)
      + if c.Prose? then [] else [if build then NeedsAtBuild(K, c) else NeedsAtRun(K, c)]
  }

  /** Every need is met in part. */
  predicate Meets(needs: seq<set<string>>, have: set<string>) {
    forall i :: 0 <= i < |needs| ==> needs[i] * have != {}
  }

  lemma MeetsSnoc(needs: seq<set<string>>, last: set<string>, have: set<string>)
    ensures Meets(needs + [last], have) <==> Meets(needs, have) && last * have != {}
  {
    var all := needs + [last];
    assert all[|needs|] == last && forall i :: 0 <= i < |needs| ==> all[i] == needs[i];
  }

  lemma {:induction false} DecidableMeans(K: KnowledgeBase, alt: Alternative, have: set<string>)
    ensures Decidable(K, alt, have) <==> Meets(Needs(K, alt, true), have)
    ensures DecidableHere(K, alt, have) <==> Meets(Needs(K, alt, false), have)
  {
    if alt != [] {
      var front, c := alt[..|alt| - 1], alt[|alt| - 1];
      DecidableMeans(K, front, have);
      FrontAndLast(alt);
      assert Decidable(K, alt, have) <==> Decidable(K, front, have) && (c.Prose? || ObservableCondition(K, c, have));
      assert DecidableHere(K, alt, have) <==> DecidableHere(K, front, have) && (c.Prose? || Available(K, c, have));
      if c.Test? {
        NeedsMeanAvailable(K, c, have);
        MeetsSnoc(Needs(K, front, true), NeedsAtBuild(K, c), have);
        MeetsSnoc(Needs(K, front, false), NeedsAtRun(K, c), have);
      } else {
        assert Needs(K, front, true) + [] == Needs(K, front, true);
        assert Needs(K, front, false) + [] == Needs(K, front, false);
      }
    }
  }

  /** Each of `b` not met by what there always is has one of `a` within it. */
  predicate HasWithin(a: seq<set<string>>, b: seq<set<string>>, always: set<string>) {
    forall j :: 0 <= j < |b| && b[j] * always == {} ==> exists i :: 0 <= i < |a| && a[i] <= b[j]
  }

  ghost predicate Entails(a: seq<set<string>>, b: seq<set<string>>, always: set<string>) {
    forall have :: always <= have && Meets(a, have) ==> Meets(b, have)
  }

  function UnionOf(needs: seq<set<string>>): set<string> {
    set x, i | 0 <= i < |needs| && x in needs[i] :: x
  }

  /** All there is to have but for one need: it meets every need not within that one. */
  lemma AllButOne(a: seq<set<string>>, need: set<string>, always: set<string>)
    requires need * always == {} && forall i :: 0 <= i < |a| ==> !(a[i] <= need)
    ensures var have := UnionOf(a) + always - need; Meets(a, have) && need * have == {} && always <= have
  {
    var have := UnionOf(a) + always - need;
    forall i | 0 <= i < |a|
      ensures a[i] * have != {}
    {
      assert !(a[i] <= need);
      var x :| x in a[i] && x !in need;
      assert x in UnionOf(a);
      assert x in a[i] * have;
    }
    assert forall x :: x in always ==> x !in need * always;
  }

  lemma WithinMeets(a: seq<set<string>>, b: seq<set<string>>, always: set<string>, have: set<string>)
    requires HasWithin(a, b, always) && always <= have && Meets(a, have)
    ensures Meets(b, have)
  {
    forall j | 0 <= j < |b|
      ensures b[j] * have != {}
    {
      var need := b[j];
      if need * always == {} {
        var i :| 0 <= i < |a| && a[i] <= need;
        assert a[i] * have != {};
        var x :| x in a[i] * have;
        assert x in b[j] * have;
      } else {
        var x :| x in need * always;
        assert x in b[j] * have;
      }
    }
  }

  lemma AllButOneFails(a: seq<set<string>>, b: seq<set<string>>, always: set<string>, j: nat)
    requires j < |b| && b[j] * always == {} && forall i :: 0 <= i < |a| ==> !(a[i] <= b[j])
    ensures !Entails(a, b, always)
  {
    AllButOne(a, b[j], always);
    assert !Meets(b, UnionOf(a) + always - b[j]);
  }

  lemma EntailsExactly(a: seq<set<string>>, b: seq<set<string>>, always: set<string>)
    ensures Entails(a, b, always) <==> HasWithin(a, b, always)
  {
    if HasWithin(a, b, always) {
      forall have | always <= have && Meets(a, have)
        ensures Meets(b, have)
      {
        WithinMeets(a, b, always, have);
      }
    } else if Entails(a, b, always) {
      var j :| 0 <= j < |b| && b[j] * always == {} && !exists i :: 0 <= i < |a| && a[i] <= b[j];
      AllButOneFails(a, b, always, j);
      assert false;
    }
  }

  ghost predicate Agree(K: KnowledgeBase, alt: Alternative, always: set<string>) {
    forall have :: always <= have ==> Decidable(K, alt, have) == DecidableHere(K, alt, have)
  }

  /** The build calls an alternative decidable just when it has a cost at run time, whatever
      there is to observe with beside what there always is, exactly when each condition's
      needs at run that this does not meet have some condition's needs at build within them,
      and the reverse. */
  lemma AlternativeAgreesExactly(K: KnowledgeBase, alt: Alternative, always: set<string>)
    ensures Agree(K, alt, always)
            <==> HasWithin(Needs(K, alt, true), Needs(K, alt, false), always)
                 && HasWithin(Needs(K, alt, false), Needs(K, alt, true), always)
  {
    var build, run := Needs(K, alt, true), Needs(K, alt, false);
    EntailsExactly(build, run, always);
    EntailsExactly(run, build, always);
    forall have
      ensures Decidable(K, alt, have) <==> Meets(build, have)
      ensures DecidableHere(K, alt, have) <==> Meets(run, have)
    {
      DecidableMeans(K, alt, have);
    }
    if Agree(K, alt, always) {
      forall have | always <= have
        ensures Meets(build, have) == Meets(run, have)
      {
        assert Decidable(K, alt, have) == DecidableHere(K, alt, have);
      }
    }
  }

  /** Knowledge with a change kind whose name is empty, and `changed_before_onset[W, ]`. */
  const EMPTY_KIND := KnowledgeBase(
    map[], map[], map[CHANGE_FACT := Fact(["Workload", "Kind"], false)],
    map["a" := Action("k8stools", [], 1)], map[], map["" := ["a"]])
  const OF_EMPTY_KIND := Test(CHANGE_FACT, ["W", ""], false, [], {})

  /** The build finds it decidable; at run time nothing is looked at that can observe it. */
  lemma EmptyKindDisagrees()
    ensures Decidable(EMPTY_KIND, [OF_EMPTY_KIND], {"k8stools"})
    ensures !DecidableHere(EMPTY_KIND, [OF_EMPTY_KIND], {"k8stools"})
  {
    var K, c := EMPTY_KIND, OF_EMPTY_KIND;
    assert [c][0] == c && c.args[1] == "";
    assert K.changes[""][0] == "a" && Usable(K, "a", {"k8stools"});
    assert ObservableCondition(K, c, {"k8stools"});
    assert ChangeKind(K, c) == Some("");
    assert Producers(K, c) == ProducersOf(K, CHANGE_FACT) == {};
    assert !Available(K, c, {"k8stools"});
  }

  /** Where build and run look at actions with the same requirements for each condition, what
      the build calls decidable costs something at run time, and the reverse. */
  lemma DecidableMeansCosted(K: KnowledgeBase, alt: Alternative, have: set<string>)
    requires forall i :: 0 <= i < |alt| && alt[i].Test? ==> NeedsAtBuild(K, alt[i]) == NeedsAtRun(K, alt[i])
    ensures Decidable(K, alt, have) <==> DecidableHere(K, alt, have)
  {
    forall i | 0 <= i < |alt| && alt[i].Test?
      ensures ObservableCondition(K, alt[i], have) == Available(K, alt[i], have)
    {
      NeedsMeanAvailable(K, alt[i], have);
    }
  }

  /** Nothing is reported missing from an undecidable alternative exactly when each
      condition that cannot be observed has no producer anywhere. */
  lemma MissingExactly(K: KnowledgeBase, alt: Alternative, have: set<string>)
    ensures Missing(K, alt, have) == {} <==>
            forall i :: 0 <= i < |alt| && alt[i].Test? && !Available(K, alt[i], have) ==> Producers(K, alt[i]) == {}
    ensures (forall i :: 0 <= i < |alt| && alt[i].Test? ==> Producers(K, alt[i]) != {})
            ==> (Missing(K, alt, have) == {} <==> DecidableHere(K, alt, have))
  {
    forall i, n | 0 <= i < |alt| && alt[i].Test? && !Available(K, alt[i], have) && n in Producers(K, alt[i])
      ensures K.actions[n].requires_ in Missing(K, alt, have)
    {
    }
    if Missing(K, alt, have) == {} {
      forall i | 0 <= i < |alt| && alt[i].Test? && !Available(K, alt[i], have)
        ensures Producers(K, alt[i]) == {}
      {
        assert forall n :: n !in Producers(K, alt[i]);
      }
    }
  }

  /** What is reported missing is any capability that, had in addition, would make a condition
      observable that is not. */
  lemma MissingWouldHelp(K: KnowledgeBase, alt: Alternative, have: set<string>, capability: string)
    ensures capability in Missing(K, alt, have) <==>
            exists i :: 0 <= i < |alt| && alt[i].Test? && !Available(K, alt[i], have) && Available(K, alt[i], have + {capability})
  {
    if i, n :| 0 <= i < |alt| && alt[i].Test? && !Available(K, alt[i], have) && n in Producers(K, alt[i])
               && K.actions[n].requires_ == capability {
      assert Usable(K, n, have + {capability});
    }
    if i :| 0 <= i < |alt| && alt[i].Test? && !Available(K, alt[i], have) && Available(K, alt[i], have + {capability}) {
      var n :| n in Producers(K, alt[i]) && Usable(K, n, have + {capability});
      assert !Usable(K, n, have);
    }
  }
}
