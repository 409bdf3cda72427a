/**
 The rule a claim's standing follows, told from which of its alternatives hold: what decides
 it, what its grade is, and when it is open.
 */
module StatusRule {
  import opened Base
  import opened Knowledge
  import opened Search
  import opened Picks
  import opened Availability
  import opened FactLines
  import opened Standings

  /** `a` weighs more than `b`. */
  predicate Heavier(a: Weight, b: Weight) {
    (a == Strong && b != Strong) || (a == Moderate && b == Weak)
  }

  /** The `i`-th is the first of the heaviest that hold. */
  ghost predicate IsTop(facts: map<Id, Fact>, store: Store, fors: seq<Weighted>, i: nat) {
    && i < |fors| && HoldsAt(facts, store, fors, i)
    && forall j :: 0 <= j < |fors| && HoldsAt(facts, store, fors, j) ==>
         !Heavier(fors[j].weight, fors[i].weight) && (j < i ==> Heavier(fors[i].weight, fors[j].weight))
  }

  lemma {:induction false} TopForIsFirst(facts: map<Id, Fact>, store: Store, fors: seq<Weighted>) returns (i: nat)
    requires forall k :: 0 <= k < |fors| ==> AllResolve(facts, fors[k].when)
    ensures TopAt(facts, store, fors, i)
  {
    i := 0;
    if fors != [] {
      var n := |fors| - 1;
      i := TopForIsFirst(facts, store, fors[..n]);
      TrueWhenHolds(facts, store, fors[n].when);
      i := OneMoreFor(facts, store, fors, i);
    }
  }

  ghost predicate TopAt(facts: map<Id, Fact>, store: Store, fors: seq<Weighted>, i: nat)
    requires forall k :: 0 <= k < |fors| ==> AllResolve(facts, fors[k].when)
  {
    var top := TopFor(facts, store, fors);
    if top.None? then forall j :: 0 <= j < |fors| ==> !HoldsAt(facts, store, fors, j)
    else IsTop(facts, store, fors, i) && top.value == fors[i]
  }

  lemma {:induction false} OneMoreFor(facts: map<Id, Fact>, store: Store, fors: seq<Weighted>, i: nat) returns (i': nat)
    requires fors != [] && forall k :: 0 <= k < |fors| ==> AllResolve(facts, fors[k].when)
    requires TopAt(facts, store, fors[..|fors| - 1], i)
    requires IsTrue(facts, store, fors[|fors| - 1].when) <==> HoldsAt(facts, store, fors, |fors| - 1)
    ensures TopAt(facts, store, fors, i')
  {
    var n := |fors| - 1;
    var best := TopFor(facts, store, fors[..n]);
    PrefixHolds(facts, store, fors, n);
    if IsTrue(facts, store, fors[n].when) && (best.None? || Grade(fors[n].weight) > Grade(best.value.weight)) {
      i' := n;
    } else {
      i' := i;
    }
  }

  lemma PrefixHolds(facts: map<Id, Fact>, store: Store, fors: seq<Weighted>, n: nat)
    requires n <= |fors|
    ensures forall j :: 0 <= j < n ==> (HoldsAt(facts, store, fors[..n], j) <==> HoldsAt(facts, store, fors, j))
  {
  }

  /** The alternatives of these that hold. */
  ghost function Holding(facts: map<Id, Fact>, store: Store): Alternative -> Option<Alternative> {
    (a: Alternative) => if AllResolve(facts, a) && Holds(facts, store, a) then Some(a) else None
  }

  ghost function HoldingWeighted(facts: map<Id, Fact>, store: Store): Weighted -> Option<Weighted> {
    (w: Weighted) => if AllResolve(facts, w.when) && Holds(facts, store, w.when) then Some(w) else None
  }

  lemma {:induction false} TrueOnesPicked(facts: map<Id, Fact>, store: Store, alts: seq<Alternative>)
    requires forall i :: 0 <= i < |alts| ==> AllResolve(facts, alts[i])
    ensures Picked(alts, Holding(facts, store), TrueOnes(facts, store, alts))
  {
    if alts == [] {
      PickedNone(Holding(facts, store));
    } else {
      TrueOnesPicked(facts, store, alts[..|alts| - 1]);
      PickedLast(alts, Holding(facts, store), TrueOnes(facts, store, alts[..|alts| - 1]));
      TrueWhenHolds(facts, store, alts[|alts| - 1]);
    }
  }

  lemma {:induction false} TrueWeightedPicked(facts: map<Id, Fact>, store: Store, ws: seq<Weighted>)
    requires forall i :: 0 <= i < |ws| ==> AllResolve(facts, ws[i].when)
    ensures Picked(ws, HoldingWeighted(facts, store), TrueWeighted(facts, store, ws))
  {
    if ws == [] {
      PickedNone(HoldingWeighted(facts, store));
    } else {
      TrueWeightedPicked(facts, store, ws[..|ws| - 1]);
      PickedLast(ws, HoldingWeighted(facts, store), TrueWeighted(facts, store, ws[..|ws| - 1]));
      TrueWhenHolds(facts, store, ws[|ws| - 1].when);
    }
  }

  // --------------------------------------------------------------------------- what is left

  /** The action sees what the condition is about: a change, if it is of a kind that names the
      action; anything else, if it produces the fact. */
  predicate Sees(K: KnowledgeBase, n: Id, c: Condition)
    requires c.Test? && n in K.actions
  {
    if c.fact == "changed_before_onset" && |c.args| == 2 && c.args[1] in K.changes && c.args[1] != ""
    then n in K.changes[c.args[1]] else c.fact in K.actions[n].produces
  }

  /** The condition could be found out here, from more than the evidence record. */
  predicate CanBeSeen(K: KnowledgeBase, c: Condition, have: set<string>) {
    c.Test? ==>
      && c.fact != "onset_observed" && c.fact != "changed_before_onset"
      && exists n :: n in K.actions && K.actions[n].requires_ in have && Sees(K, n, c)
  }

  /** The alternative is unknown, and all that is unknown in it can be found out here. */
  predicate CanBeSettled(K: KnowledgeBase, store: Store, alt: Alternative, have: set<string>)
    requires AllResolve(K.facts, alt)
  {
    && AlternativeValue(K.facts, store, alt).value == U
    && forall i :: 0 <= i < |AlternativeValue(K.facts, store, alt).unknown| ==>
         CanBeSeen(K, AlternativeValue(K.facts, store, alt).unknown[i], have)
  }

  lemma SeesMeansProduces(K: KnowledgeBase, c: Condition, n: Id)
    requires c.Test? && n in K.actions
    ensures n in Producers(K, c) <==> Sees(K, n, c)
  {
  }

  lemma SettledMeansDecides(K: KnowledgeBase, store: Store, alt: Alternative, have: set<string>)
    requires AllResolve(K.facts, alt)
    ensures CouldStillDecide(K, store, alt, have) <==> CanBeSettled(K, store, alt, have)
  {
    var unknown := AlternativeValue(K.facts, store, alt).unknown;
    forall i | 0 <= i < |unknown|
      ensures CanBeSeen(K, unknown[i], have)
              <==> unknown[i].Prose? || (Available(K, unknown[i], have) && unknown[i].fact !in RESERVED)
    {
      SeenMeansAvailable(K, unknown[i], have);
    }
  }

  lemma SeenMeansAvailable(K: KnowledgeBase, c: Condition, have: set<string>)
    ensures CanBeSeen(K, c, have) <==> c.Prose? || (Available(K, c, have) && c.fact !in RESERVED)
  {
    if c.Test? {
      forall n | n in K.actions
        ensures n in Producers(K, c) <==> Sees(K, n, c)
      {
        SeesMeansProduces(K, c, n);
      }
    }
  }

  /** Some rules_out could still be settled, or some `for` that outweighs all that hold. */
  ghost predicate CanBeMoved(K: KnowledgeBase, store: Store, c: Claim, have: set<string>)
    requires ClaimResolves(K.facts, c)
  {
    || (exists i :: 0 <= i < |c.rulesOut| && CanBeSettled(K, store, c.rulesOut[i], have))
    || (exists i :: 0 <= i < |c.for_| && CanBeSettled(K, store, c.for_[i].when, have) && OutweighsAll(K.facts, store, c.for_, i))
  }

  /** It is heavier than every `for` that holds. */
  ghost predicate OutweighsAll(facts: map<Id, Fact>, store: Store, fors: seq<Weighted>, i: nat)
    requires i < |fors|
  {
    forall j :: 0 <= j < |fors| && HoldsAt(facts, store, fors, j) ==> Heavier(fors[i].weight, fors[j].weight)
  }

  lemma {:induction false} MovedMeansLeft(K: KnowledgeBase, store: Store, c: Claim, have: set<string>)
    requires ClaimResolves(K.facts, c)
    ensures var top := TopFor(K.facts, store, c.for_);
            CanBeMoved(K, store, c, have)
            <==> AnythingLeft(K, store, c, if top.Some? then Grade(top.value.weight) else 0, have)
  {
    var top := TopFor(K.facts, store, c.for_);
    RulesOutLeft(K, store, c.rulesOut, have);
    ForLeft(K, store, c.for_, have, if top.Some? then Grade(top.value.weight) else 0);
  }

  lemma {:induction false} RulesOutLeft(K: KnowledgeBase, store: Store, alts: seq<Alternative>, have: set<string>)
    requires forall i :: 0 <= i < |alts| ==> AllResolve(K.facts, alts[i])
    ensures (exists i :: 0 <= i < |alts| && CouldStillDecide(K, store, alts[i], have))
            <==> exists i :: 0 <= i < |alts| && CanBeSettled(K, store, alts[i], have)
  {
    forall i | 0 <= i < |alts|
      ensures CouldStillDecide(K, store, alts[i], have) <==> CanBeSettled(K, store, alts[i], have)
    {
      SettledMeansDecides(K, store, alts[i], have);
    }
  }

  lemma {:induction false} ForLeft(K: KnowledgeBase, store: Store, fors: seq<Weighted>, have: set<string>, held: nat)
    requires forall i :: 0 <= i < |fors| ==> AllResolve(K.facts, fors[i].when)
    requires var top := TopFor(K.facts, store, fors); held == if top.Some? then Grade(top.value.weight) else 0
    ensures (exists i :: 0 <= i < |fors| && Grade(fors[i].weight) > held && CouldStillDecide(K, store, fors[i].when, have))
            <==> exists i :: 0 <= i < |fors| && CanBeSettled(K, store, fors[i].when, have) && OutweighsAll(K.facts, store, fors, i)
  {
    forall i | 0 <= i < |fors|
      ensures Grade(fors[i].weight) > held && CouldStillDecide(K, store, fors[i].when, have)
              <==> CanBeSettled(K, store, fors[i].when, have) && OutweighsAll(K.facts, store, fors, i)
    {
      SettledMeansDecides(K, store, fors[i].when, have);
      OutweighsTop(K.facts, store, fors, i, held);
    }
  }

  lemma {:induction false} OutweighsTop(facts: map<Id, Fact>, store: Store, fors: seq<Weighted>, i: nat, held: nat)
    requires i < |fors| && forall k :: 0 <= k < |fors| ==> AllResolve(facts, fors[k].when)
    requires var top := TopFor(facts, store, fors); held == if top.Some? then Grade(top.value.weight) else 0
    ensures OutweighsAll(facts, store, fors, i) <==> Grade(fors[i].weight) > held
  {
    var t := TopForIsFirst(facts, store, fors);
    if TopFor(facts, store, fors).Some? {
      assert IsTop(facts, store, fors, t);
    }
  }

  // ---------------------------------------------------------------------------- the rule

  /** What is listed of the `for` that hold. */
  ghost predicate ListsTop(facts: map<Id, Fact>, store: Store, fors: seq<Weighted>, decided: seq<Alternative>) {
    if exists i: nat :: IsTop(facts, store, fors, i)
    then exists i: nat :: IsTop(facts, store, fors, i) && decided == [fors[i].when]
    else decided == []
  }

  ghost predicate SomeHolds(facts: map<Id, Fact>, store: Store, fors: seq<Weighted>, weight: Weight) {
    exists i: nat :: HoldsAt(facts, store, fors, i) && fors[i].weight == weight
  }

  /** The grade the `for` that hold give. */
  ghost function Support(facts: map<Id, Fact>, store: Store, fors: seq<Weighted>): nat {
    if SomeHolds(facts, store, fors, Strong) then 3
    else if SomeHolds(facts, store, fors, Moderate) then 2
    else if SomeHolds(facts, store, fors, Weak) then 1
    else 0
  }

  lemma {:induction false} SupportIsTop(facts: map<Id, Fact>, store: Store, fors: seq<Weighted>)
    requires forall k :: 0 <= k < |fors| ==> AllResolve(facts, fors[k].when)
    ensures var top := TopFor(facts, store, fors);
            && Support(facts, store, fors) == (if top.Some? then Grade(top.value.weight) else 0)
            && ListsTop(facts, store, fors, if top.Some? then [top.value.when] else [])
  {
    var i := TopForIsFirst(facts, store, fors);
    if TopFor(facts, store, fors).Some? {
      assert IsTop(facts, store, fors, i) && SomeHolds(facts, store, fors, fors[i].weight);
      forall weight | SomeHolds(facts, store, fors, weight)
        ensures !Heavier(weight, fors[i].weight)
      {
        var j: nat :| HoldsAt(facts, store, fors, j) && fors[j].weight == weight;
      }
      assert Heavier(Strong, Moderate) && Heavier(Strong, Weak) && Heavier(Moderate, Weak);
    }
  }

  ghost predicate AnyRulesOut(facts: map<Id, Fact>, store: Store, alts: seq<Alternative>) {
    exists i :: 0 <= i < |alts| && AllResolve(facts, alts[i]) && Holds(facts, store, alts[i])
  }

  /** Ruled out, or in conflict when a strong `for` holds as well; what holds is listed. */
  ghost predicate IsOut(facts: map<Id, Fact>, store: Store, c: Claim, s: Standing) {
    var conflict := SomeHolds(facts, store, c.for_, Strong);
    && s.grade == 0 && s.against == [] && s.via == None
    && s.verdict == (if conflict then Conflicting else RuledOut)
    && ListsOut(facts, store, c, conflict, s.decided)
  }

  ghost predicate ListsOut(facts: map<Id, Fact>, store: Store, c: Claim, conflict: bool, decided: seq<Alternative>) {
    exists held, no ::
      && decided == held + no && Picked(c.rulesOut, Holding(facts, store), no)
      && if conflict then ListsTop(facts, store, c.for_, held) else held == []
  }

  /** The heaviest `for` that holds, less two for each strong `against` that holds and one for
      each moderate. */
  ghost function Left(facts: map<Id, Fact>, store: Store, c: Claim): int {
    Support(facts, store, c.for_) - 2 * |HoldingAt(facts, store, c.against, Strong)|
    - |HoldingAt(facts, store, c.against, Moderate)|
  }

  ghost predicate IsGraded(K: KnowledgeBase, store: Store, c: Claim, have: set<string>, s: Standing)
    requires ClaimResolves(K.facts, c)
  {
    var left := Left(K.facts, store, c);
    && s.grade == (if left > 0 then left else 0) && s.via == None
    && s.verdict == (if left == 3 then StrongSupport else if left == 2 then ModerateSupport
                     else if left == 1 then WeakSupport
                     else if CanBeMoved(K, store, c, have) then Undecided else CouldNotCheck)
    && ListsTop(K.facts, store, c.for_, s.decided)
    && Picked(c.against, HoldingWeighted(K.facts, store), s.against)
  }

  lemma {:induction false} OutListed(facts: map<Id, Fact>, store: Store, c: Claim, held: seq<Alternative>)
    requires ClaimResolves(facts, c) && ListsTop(facts, store, c.for_, held)
    ensures ListsOut(facts, store, c, true, held + TrueOnes(facts, store, c.rulesOut))
    ensures ListsOut(facts, store, c, false, TrueOnes(facts, store, c.rulesOut))
  {
    var no := TrueOnes(facts, store, c.rulesOut);
    TrueOnesPicked(facts, store, c.rulesOut);
    assert [] + no == no;
  }

  lemma {:induction false} StrongIsTop(facts: map<Id, Fact>, store: Store, fors: seq<Weighted>)
    requires forall k :: 0 <= k < |fors| ==> AllResolve(facts, fors[k].when)
    ensures var top := TopFor(facts, store, fors); SomeHolds(facts, store, fors, Strong) <==> top.Some? && top.value.weight == Strong
  {
    SupportIsTop(facts, store, fors);
  }

  lemma {:induction false} StatusOut(K: KnowledgeBase, store: Store, cid: Id, have: set<string>)
    requires cid in K.claims && ClaimResolves(K.facts, K.claims[cid])
    requires TrueOnes(K.facts, store, K.claims[cid].rulesOut) != []
    ensures IsOut(K.facts, store, K.claims[cid], Status(K, store, cid, have))
  {
    var c := K.claims[cid];
    var top := TopFor(K.facts, store, c.for_);
    StrongIsTop(K.facts, store, c.for_);
    SupportIsTop(K.facts, store, c.for_);
    OutListed(K.facts, store, c, if top.Some? then [top.value.when] else []);
  }

  lemma {:induction false} StatusGraded(K: KnowledgeBase, store: Store, cid: Id, have: set<string>)
    requires cid in K.claims && ClaimResolves(K.facts, K.claims[cid])
    requires TrueOnes(K.facts, store, K.claims[cid].rulesOut) == []
    ensures IsGraded(K, store, K.claims[cid], have, Status(K, store, cid, have))
  {
    var c := K.claims[cid];
    SupportIsTop(K.facts, store, c.for_);
    TrueWeightedPicked(K.facts, store, c.against);
    LoweringCounts(K.facts, store, c.against);
    MovedMeansLeft(K, store, c, have);
  }

  /** A claim some rules_out holds of is ruled out or in conflict, and lists what holds. Any
      other has the grade of its heaviest `for` that holds, less what the `against` that hold
      take; it lists the first such `for` and every `against` that holds; and with nothing left
      it is open just when something could still move it. */
  lemma StatusExactly(K: KnowledgeBase, store: Store, cid: Id, have: set<string>)
    requires cid in K.claims && ClaimResolves(K.facts, K.claims[cid])
    ensures var c, s := K.claims[cid], Status(K, store, cid, have);
            if AnyRulesOut(K.facts, store, c.rulesOut) then IsOut(K.facts, store, c, s) else IsGraded(K, store, c, have, s)
  {
    RulesOutMeans(K.facts, store, K.claims[cid]);
    if TrueOnes(K.facts, store, K.claims[cid].rulesOut) != [] {
      StatusOut(K, store, cid, have);
    } else {
      StatusGraded(K, store, cid, have);
    }
  }
}
