/** A claim's standing from the facts so far (`status`), and how it moves as they grow. */
module Standings {
  import opened Base
  import opened Knowledge
  import opened Search
  import opened Stability
  import opened Lasting
  import opened Lapsing
  import opened Availability
  import opened FactLines

  datatype Verdict = RuledOut | Conflicting | StrongSupport | ModerateSupport | WeakSupport | Undecided | CouldNotCheck

  /** `via` names the sub-cause a claim's grade was lifted by. */
  datatype Standing = Standing(
    verdict: Verdict,
    grade: nat,
    decided: seq<Alternative>,
    against: seq<Weighted>,
    via: Option<Id>)

  function GradeName(g: nat): Verdict
    requires 1 <= g <= 3
  {
    if g == 3 then StrongSupport else if g == 2 then ModerateSupport else WeakSupport
  }

  predicate ClaimResolves(facts: map<Id, Fact>, c: Claim) {
    && (forall i :: 0 <= i < |c.for_| ==> AllResolve(facts, c.for_[i].when))
    && (forall i :: 0 <= i < |c.against| ==> AllResolve(facts, c.against[i].when))
    && (forall i :: 0 <= i < |c.rulesOut| ==> AllResolve(facts, c.rulesOut[i]))
  }

  predicate IsTrue(facts: map<Id, Fact>, store: Store, alt: Alternative)
    requires AllResolve(facts, alt)
  {
    AlternativeValue(facts, store, alt).value == T
  }

  /** The first of the weightiest `for` that hold: what a stable sort puts first. */
  function TopFor(facts: map<Id, Fact>, store: Store, fors: seq<Weighted>): (r: Option<Weighted>)
    requires forall i :: 0 <= i < |fors| ==> AllResolve(facts, fors[i].when)
  {
    if fors == [] then None
    else
      var last := fors[|fors| - 1];
      var best := TopFor(facts, store, fors[..|fors| - 1]);
      if IsTrue(facts, store, last.when) && (best.None? || Grade(last.weight) > Grade(best.value.weight))
      then Some(last) else best
  }

  lemma {:induction false} TopForIs(facts: map<Id, Fact>, store: Store, fors: seq<Weighted>)
    requires forall i :: 0 <= i < |fors| ==> AllResolve(facts, fors[i].when)
    ensures var r := TopFor(facts, store, fors);
            r.Some? ==> exists i :: 0 <= i < |fors| && fors[i] == r.value && IsTrue(facts, store, fors[i].when)
    ensures var r := TopFor(facts, store, fors);
            forall i :: 0 <= i < |fors| && IsTrue(facts, store, fors[i].when)
              ==> r.Some? && Grade(fors[i].weight) <= Grade(r.value.weight)
  {
    if fors != [] {
      var front := fors[..|fors| - 1];
      TopForIs(facts, store, front);
      var r := TopFor(facts, store, front);
      if r.Some? {
        var i :| 0 <= i < |front| && front[i] == r.value && IsTrue(facts, store, front[i].when);
        assert fors[i] == r.value;
      }
      assert forall i :: 0 <= i < |front| ==> front[i] == fors[i];
    }
  }

  function TrueOnes(facts: map<Id, Fact>, store: Store, alts: seq<Alternative>): seq<Alternative>
    requires forall i :: 0 <= i < |alts| ==> AllResolve(facts, alts[i])
  {
    if alts == [] then []
    else
      var last := alts[|alts| - 1];
      TrueOnes(facts, store, alts[..|alts| - 1]) + if IsTrue(facts, store, last) then [last] else []
  }

  function TrueWeighted(facts: map<Id, Fact>, store: Store, ws: seq<Weighted>): seq<Weighted>
    requires forall i :: 0 <= i < |ws| ==> AllResolve(facts, ws[i].when)
  {
    if ws == [] then []
    else
      var last := ws[|ws| - 1];
      TrueWeighted(facts, store, ws[..|ws| - 1]) + if IsTrue(facts, store, last.when) then [last] else []
  }

  /** A strong one against lowers the support two grades, a moderate one by one. */
  function Lowering(ws: seq<Weighted>): nat {
    if ws == [] then 0
    else
      Lowering(ws[..|ws| - 1]) +
      match ws[|ws| - 1].weight case Strong => 2 case Moderate => 1 case Weak => 0
  }

  /** The alternative is unknown, and what is unknown in it could be found out here. Timing
      facts come from the evidence record alone. */
  predicate CouldStillDecide(K: KnowledgeBase, store: Store, alt: Alternative, have: set<string>)
    requires AllResolve(K.facts, alt)
  {
    var best := AlternativeValue(K.facts, store, alt);
    && best.value == U
    && DecidableHere(K, best.unknown, have)
    && forall i :: 0 <= i < |best.unknown| && best.unknown[i].Test? ==> best.unknown[i].fact !in RESERVED
  }

  predicate AnythingLeft(K: KnowledgeBase, store: Store, c: Claim, held: nat, have: set<string>)
    requires ClaimResolves(K.facts, c)
  {
    || (exists i :: 0 <= i < |c.rulesOut| && CouldStillDecide(K, store, c.rulesOut[i], have))
    || (exists i :: 0 <= i < |c.for_| && Grade(c.for_[i].weight) > held
                    && CouldStillDecide(K, store, c.for_[i].when, have))
  }

  function Status(K: KnowledgeBase, store: Store, cid: Id, have: set<string>): (s: Standing)
    requires cid in K.claims && ClaimResolves(K.facts, K.claims[cid])
    ensures s.grade <= 3
    ensures s.verdict in {RuledOut, Conflicting, Undecided, CouldNotCheck} <==> s.grade == 0
    ensures s.grade > 0 ==> s.verdict == GradeName(s.grade) && s.decided != []
  {
    var c := K.claims[cid];
    var top := TopFor(K.facts, store, c.for_);
    var no := TrueOnes(K.facts, store, c.rulesOut);
    var held := if top.Some? then [top.value.when] else [];
    if no != [] && top.Some? && top.value.weight == Strong then Standing(Conflicting, 0, held + no, [], None)
    else if no != [] then Standing(RuledOut, 0, no, [], None)
    else
      var against := TrueWeighted(K.facts, store, c.against);
      var support: nat := if top.Some? then Grade(top.value.weight) else 0;
      var grade := support - Lowering(against);
      if grade > 0 then Standing(GradeName(grade), grade, held, against, None)
      else if AnythingLeft(K, store, c, support, have) then Standing(Undecided, 0, held, against, None)
      else Standing(CouldNotCheck, 0, held, against, None)
  }

  predicate IsDead(s: Standing) {
    s.verdict.RuledOut? || s.verdict.Conflicting?
  }

  // ------------------------------------------------------------------ what a standing means

  ghost predicate SomeRulesOut(facts: map<Id, Fact>, store: Store, c: Claim)
    requires ClaimResolves(facts, c)
  {
    exists i :: 0 <= i < |c.rulesOut| && Holds(facts, store, c.rulesOut[i])
  }

  /** Some `for` of at least this grade holds. */
  ghost predicate Supported(facts: map<Id, Fact>, store: Store, c: Claim, grade: nat)
    requires ClaimResolves(facts, c)
  {
    exists i :: 0 <= i < |c.for_| && Grade(c.for_[i].weight) >= grade && Holds(facts, store, c.for_[i].when)
  }

  /** Something could still be found out here that would move the claim: a rules_out, or a
      `for` that outweighs all that hold. */
  ghost predicate StillOpen(K: KnowledgeBase, store: Store, c: Claim, have: set<string>)
    requires ClaimResolves(K.facts, c)
  {
    || (exists i :: 0 <= i < |c.rulesOut| && CouldStillDecide(K, store, c.rulesOut[i], have))
    || (exists i :: 0 <= i < |c.for_| && !Supported(K.facts, store, c, Grade(c.for_[i].weight))
                    && CouldStillDecide(K, store, c.for_[i].when, have))
  }

  ghost predicate HoldsAt(facts: map<Id, Fact>, store: Store, ws: seq<Weighted>, i: nat) {
    i < |ws| && AllResolve(facts, ws[i].when) && Holds(facts, store, ws[i].when)
  }

  /** The places of those of this weight that hold. */
  ghost function HoldingAt(facts: map<Id, Fact>, store: Store, ws: seq<Weighted>, weight: Weight): set<nat> {
    set i: nat | i < |ws| && ws[i].weight == weight && HoldsAt(facts, store, ws, i)
  }

  lemma {:induction false} LoweringCounts(facts: map<Id, Fact>, store: Store, ws: seq<Weighted>)
    requires forall i :: 0 <= i < |ws| ==> AllResolve(facts, ws[i].when)
    ensures Lowering(TrueWeighted(facts, store, ws))
            == 2 * |HoldingAt(facts, store, ws, Strong)| + |HoldingAt(facts, store, ws, Moderate)|
  {
    if ws != [] {
      var front, n := ws[..|ws| - 1], |ws| - 1;
      LoweringCounts(facts, store, front);
      TrueWhenHolds(facts, store, ws[n].when);
      CountsOneMore(facts, store, ws, Strong);
      CountsOneMore(facts, store, ws, Moderate);
      LoweringSnoc(TrueWeighted(facts, store, front), ws[n]);
      assert TrueWeighted(facts, store, front) + [] == TrueWeighted(facts, store, front);
    }
  }

  lemma LoweringSnoc(ws: seq<Weighted>, w: Weighted)
    ensures Lowering(ws + [w]) == Lowering(ws) + if w.weight == Strong then 2 else if w.weight == Moderate then 1 else 0
  {
    assert (ws + [w])[..|ws|] == ws;
  }

  lemma CountsOneMore(facts: map<Id, Fact>, store: Store, ws: seq<Weighted>, weight: Weight)
    requires ws != []
    ensures |HoldingAt(facts, store, ws, weight)| == |HoldingAt(facts, store, ws[..|ws| - 1], weight)|
            + if ws[|ws| - 1].weight == weight && HoldsAt(facts, store, ws, |ws| - 1) then 1 else 0
  {
    var front, n := ws[..|ws| - 1], |ws| - 1;
    var more := ws[n].weight == weight && HoldsAt(facts, store, ws, n);
    forall k: nat
      ensures k in HoldingAt(facts, store, ws, weight) <==> k in HoldingAt(facts, store, front, weight) || (more && k == n)
    {
      assert k < n ==> front[k] == ws[k];
    }
    OneMore(HoldingAt(facts, store, front, weight), HoldingAt(facts, store, ws, weight), n, more);
  }

  lemma OneMore(s: set<nat>, s': set<nat>, n: nat, more: bool)
    requires n !in s && forall k: nat :: k in s' <==> k in s || (more && k == n)
    ensures |s'| == |s| + if more then 1 else 0
  {
    assert s' == s + if more then {n} else {};
  }

  /** Ruled out when a rules_out holds and no strong `for` does; in conflict when both do;
      otherwise its grade is its best `for` less what the `against` that hold take off, and
      without support it is open exactly when something could still move it. */
  lemma StatusMeans(K: KnowledgeBase, store: Store, cid: Id, have: set<string>)
    requires cid in K.claims && ClaimResolves(K.facts, K.claims[cid])
    ensures var c, s := K.claims[cid], Status(K, store, cid, have);
            && (s.verdict == Conflicting <==> SomeRulesOut(K.facts, store, c) && Supported(K.facts, store, c, 3))
            && (s.verdict == RuledOut <==> SomeRulesOut(K.facts, store, c) && !Supported(K.facts, store, c, 3))
            && var taken := 2 * |HoldingAt(K.facts, store, c.against, Strong)| + |HoldingAt(K.facts, store, c.against, Moderate)|;
               (!IsDead(s) ==>
                  && (forall g: nat :: g > taken ==> (Supported(K.facts, store, c, g) <==> s.grade >= g - taken))
                  && (s.grade == 0 ==> (s.verdict == Undecided <==> StillOpen(K, store, c, have))))
  {
    var facts, c := K.facts, K.claims[cid];
    RulesOutMeans(facts, store, c);
    SupportMeans(facts, store, c);
    LoweringCounts(facts, store, c.against);
    LeftMeansOpen(K, store, c, have);
  }

  lemma LeftMeansOpen(K: KnowledgeBase, store: Store, c: Claim, have: set<string>)
    requires ClaimResolves(K.facts, c)
    ensures var top := TopFor(K.facts, store, c.for_);
            StillOpen(K, store, c, have)
            <==> AnythingLeft(K, store, c, if top.Some? then Grade(top.value.weight) else 0, have)
  {
    SupportMeans(K.facts, store, c);
  }

  lemma {:induction false} TrueWeightedMembers(facts: map<Id, Fact>, store: Store, ws: seq<Weighted>, w: Weighted)
    requires forall k :: 0 <= k < |ws| ==> AllResolve(facts, ws[k].when)
    requires AllResolve(facts, w.when)
    ensures w in TrueWeighted(facts, store, ws) <==> w in ws && IsTrue(facts, store, w.when)
  {
    if ws != [] {
      var front, last := ws[..|ws| - 1], ws[|ws| - 1];
      TrueWeightedMembers(facts, store, front, w);
      assert ws == front + [last];
    }
  }

  lemma {:induction false} TrueOnesMembers(facts: map<Id, Fact>, store: Store, alts: seq<Alternative>, a: Alternative)
    requires forall i :: 0 <= i < |alts| ==> AllResolve(facts, alts[i])
    ensures a in TrueOnes(facts, store, alts) <==> a in alts && AllResolve(facts, a) && IsTrue(facts, store, a)
  {
    if alts != [] {
      var front, last := alts[..|alts| - 1], alts[|alts| - 1];
      TrueOnesMembers(facts, store, front, a);
      assert alts == front + [last];
    }
  }

  lemma RulesOutMeans(facts: map<Id, Fact>, store: Store, c: Claim)
    requires ClaimResolves(facts, c)
    ensures TrueOnes(facts, store, c.rulesOut) != [] <==> SomeRulesOut(facts, store, c)
  {
    var no := TrueOnes(facts, store, c.rulesOut);
    if no != [] {
      TrueOnesMembers(facts, store, c.rulesOut, no[0]);
      var i :| 0 <= i < |c.rulesOut| && c.rulesOut[i] == no[0];
      TrueWhenHolds(facts, store, c.rulesOut[i]);
    }
    if i :| 0 <= i < |c.rulesOut| && Holds(facts, store, c.rulesOut[i]) {
      TrueWhenHolds(facts, store, c.rulesOut[i]);
      TrueOnesMembers(facts, store, c.rulesOut, c.rulesOut[i]);
    }
  }

  lemma SupportMeans(facts: map<Id, Fact>, store: Store, c: Claim)
    requires ClaimResolves(facts, c)
    ensures var top := TopFor(facts, store, c.for_);
            forall g: nat :: Supported(facts, store, c, g) <==> top.Some? && Grade(top.value.weight) >= g
  {
    var top := TopFor(facts, store, c.for_);
    TopForIs(facts, store, c.for_);
    if top.Some? {
      var i :| 0 <= i < |c.for_| && c.for_[i] == top.value && IsTrue(facts, store, c.for_[i].when);
      TrueWhenHolds(facts, store, c.for_[i].when);
    }
    forall g: nat | Supported(facts, store, c, g)
      ensures top.Some? && Grade(top.value.weight) >= g
    {
      var i :| 0 <= i < |c.for_| && Grade(c.for_[i].weight) >= g && Holds(facts, store, c.for_[i].when);
      TrueWhenHolds(facts, store, c.for_[i].when);
    }
  }

  /** What a standing shows is what it rests on: every alternative it lists holds; a dead
      claim lists all that rule it out; and of the `against` it lists those that hold. */
  lemma StandingShowsWhy(K: KnowledgeBase, store: Store, cid: Id, have: set<string>)
    requires cid in K.claims && ClaimResolves(K.facts, K.claims[cid])
    ensures var c, s := K.claims[cid], Status(K, store, cid, have);
            && (forall a :: a in s.decided ==> AllResolve(K.facts, a) && Holds(K.facts, store, a))
            && (IsDead(s) ==> forall i :: 0 <= i < |c.rulesOut| && Holds(K.facts, store, c.rulesOut[i])
                                ==> c.rulesOut[i] in s.decided)
            && (!IsDead(s) ==> forall i :: 0 <= i < |c.against|
                                 ==> (c.against[i] in s.against <==> Holds(K.facts, store, c.against[i].when)))
  {
    var facts, c, s := K.facts, K.claims[cid], Status(K, store, cid, have);
    var no := TrueOnes(facts, store, c.rulesOut);
    TopForIs(facts, store, c.for_);
    forall a | a in s.decided
      ensures AllResolve(facts, a) && Holds(facts, store, a)
    {
      TrueOnesMembers(facts, store, c.rulesOut, a);
      assert AllResolve(facts, a) && IsTrue(facts, store, a);
      TrueWhenHolds(facts, store, a);
    }
    forall i | 0 <= i < |c.rulesOut| && Holds(facts, store, c.rulesOut[i])
      ensures c.rulesOut[i] in no
    {
      TrueOnesMembers(facts, store, c.rulesOut, c.rulesOut[i]);
      TrueWhenHolds(facts, store, c.rulesOut[i]);
    }
    forall i | 0 <= i < |c.against|
      ensures c.against[i] in TrueWeighted(facts, store, c.against) <==> Holds(facts, store, c.against[i].when)
    {
      TrueWeightedMembers(facts, store, c.against, c.against[i]);
      TrueWhenHolds(facts, store, c.against[i].when);
    }
  }

  // ------------------------------------------------------------------------- as facts grow

  /** What makes the claim ruled out, or strongly supported, holds firmly: by some reading
      without a brittle step. */
  ghost predicate FirmClaim(facts: map<Id, Fact>, store: Store, c: Claim)
    requires ClaimResolves(facts, c)
  {
    && (SomeRulesOut(facts, store, c) ==> FirmlyRuledOut(facts, store, c))
    && (Supported(facts, store, c, 3) ==> FirmlySupported(facts, store, c))
  }

  ghost predicate FirmlyRuledOut(facts: map<Id, Fact>, store: Store, c: Claim)
    requires ClaimResolves(facts, c)
  {
    exists i :: 0 <= i < |c.rulesOut| && FirmlyHolds(facts, store, c.rulesOut[i])
  }

  ghost predicate FirmlySupported(facts: map<Id, Fact>, store: Store, c: Claim)
    requires ClaimResolves(facts, c)
  {
    exists i :: 0 <= i < |c.for_| && Grade(c.for_[i].weight) >= 3 && FirmlyHolds(facts, store, c.for_[i].when)
  }

  /** On more evidence a conflict stays one, and a claim ruled out stays so unless it comes
      to be in conflict. */
  lemma VerdictPersists(K: KnowledgeBase, store: Store, store': Store, cid: Id, have: set<string>)
    requires cid in K.claims && ClaimResolves(K.facts, K.claims[cid]) && FirmClaim(K.facts, store, K.claims[cid])
    requires Grows(K.facts, store, store')
    ensures var s, s' := Status(K, store, cid, have).verdict, Status(K, store', cid, have).verdict;
            && (s == Conflicting ==> s' == Conflicting)
            && (s == RuledOut ==> s' in {RuledOut, Conflicting})
  {
    var facts, c := K.facts, K.claims[cid];
    StatusMeans(K, store, cid, have);
    StatusMeans(K, store', cid, have);
    if i :| 0 <= i < |c.rulesOut| && FirmlyHolds(facts, store, c.rulesOut[i]) {
      AlternativePersists(facts, store, store', c.rulesOut[i]);
    }
    if i :| 0 <= i < |c.for_| && Grade(c.for_[i].weight) >= 3 && FirmlyHolds(facts, store, c.for_[i].when) {
      AlternativePersists(facts, store, store', c.for_[i].when);
    }
  }

  /** Every denying comparison of the claim keeps an argument open. */
  predicate SteadyClaim(facts: map<Id, Fact>, c: Claim)
    requires ClaimResolves(facts, c)
  {
    && (forall i :: 0 <= i < |c.for_| ==> Steady(facts, c.for_[i].when))
    && (forall i :: 0 <= i < |c.rulesOut| ==> Steady(facts, c.rulesOut[i]))
  }

  /** Such a claim is firm whatever is recorded, which can be told from the claim alone. */
  lemma SteadyClaimIsFirm(facts: map<Id, Fact>, store: Store, c: Claim)
    requires ClaimResolves(facts, c) && SteadyClaim(facts, c)
    ensures FirmClaim(facts, store, c)
  {
    if i :| 0 <= i < |c.rulesOut| && Holds(facts, store, c.rulesOut[i]) {
      SteadyIsFirm(facts, store, c.rulesOut[i]);
    }
    if i :| 0 <= i < |c.for_| && Grade(c.for_[i].weight) >= 3 && Holds(facts, store, c.for_[i].when) {
      SteadyIsFirm(facts, store, c.for_[i].when);
    }
  }

  /** Adding lines to a facts file never takes such a verdict back. */
  lemma MoreLinesKeepVerdict(K: KnowledgeBase, lines: seq<Line>, more: seq<Line>, derived: bool, cid: Id, have: set<string>)
    requires cid in K.claims && ClaimResolves(K.facts, K.claims[cid])
    requires FirmClaim(K.facts, Parse(K.facts, lines, derived).store, K.claims[cid])
    requires SingleValued(K.facts, Parse(K.facts, lines + more, derived).store)
    ensures var s := Status(K, Parse(K.facts, lines, derived).store, cid, have).verdict;
            var s' := Status(K, Parse(K.facts, lines + more, derived).store, cid, have).verdict;
            && (s == Conflicting ==> s' == Conflicting)
            && (s == RuledOut ==> s' in {RuledOut, Conflicting})
  {
    MoreLinesInclude(K.facts, lines, more, derived);
    VerdictPersists(K, Parse(K.facts, lines, derived).store, Parse(K.facts, lines + more, derived).store, cid, have);
  }

  /** Each rules_out has a denying comparison that is sealed. */
  predicate EachCanLapse(facts: map<Id, Fact>, c: Claim)
    requires ClaimResolves(facts, c)
  {
    forall i :: 0 <= i < |c.rulesOut| ==> SomeCanBeDenied(facts, c.rulesOut[i])
  }

  /** Such a claim can always come back, whatever its `for` and whatever is recorded. */
  lemma RuledOutCanLapse(K: KnowledgeBase, store: Store, cid: Id, have: set<string>) returns (store': Store)
    requires cid in K.claims && ClaimResolves(K.facts, K.claims[cid]) && EachCanLapse(K.facts, K.claims[cid])
    requires IsEvidence(K.facts, store)
    ensures Grows(K.facts, store, store') && !IsDead(Status(K, store', cid, have))
  {
    store' := EvidenceAgainstAll(K.facts, store, K.claims[cid].rulesOut);
    StatusMeans(K, store', cid, have);
  }

  /** Ruled out or in conflict, it stays one of the two on all growth of all evidence. */
  ghost predicate StaysDead(K: KnowledgeBase, cid: Id, have: set<string>)
    requires cid in K.claims && ClaimResolves(K.facts, K.claims[cid])
  {
    forall store, store' ::
      IsEvidence(K.facts, store) && Grows(K.facts, store, store') && IsDead(Status(K, store, cid, have))
      ==> IsDead(Status(K, store', cid, have))
  }

  /** On some evidence the claim is ruled out, and by nothing steady. */
  ghost predicate UnsteadilyRuledOut(facts: map<Id, Fact>, c: Claim)
    requires ClaimResolves(facts, c)
  {
    exists store ::
      && IsEvidence(facts, store) && SomeRulesOut(facts, store, c)
      && forall i :: 0 <= i < |c.rulesOut| && Steady(facts, c.rulesOut[i]) ==> !Holds(facts, store, c.rulesOut[i])
  }

  /** Where each rules_out is steady, or has a sealed denying comparison of a fact that no
      steady one tests, the claim stays ruled out exactly when it never is without a steady one
      that holds. */
  lemma StaysDeadExactly(K: KnowledgeBase, cid: Id, have: set<string>)
    requires cid in K.claims && ClaimResolves(K.facts, K.claims[cid])
    requires SteadyOrApart(K.facts, K.claims[cid].rulesOut)
    ensures StaysDead(K, cid, have) <==> !UnsteadilyRuledOut(K.facts, K.claims[cid])
  {
    var facts, c := K.facts, K.claims[cid];
    forall store
      ensures IsDead(Status(K, store, cid, have)) <==> SomeRulesOut(facts, store, c)
    {
      StatusMeans(K, store, cid, have);
    }
    if store :| IsEvidence(facts, store) && SomeRulesOut(facts, store, c)
                && forall i :: 0 <= i < |c.rulesOut| && Steady(facts, c.rulesOut[i]) ==> !Holds(facts, store, c.rulesOut[i]) {
      var store' := EvidenceAgainstOthers(facts, store, c.rulesOut);
      assert !SomeRulesOut(facts, store', c) && !StaysDead(K, cid, have);
    } else {
      forall store, store' | IsEvidence(facts, store) && Grows(facts, store, store') && SomeRulesOut(facts, store, c)
        ensures SomeRulesOut(facts, store', c)
      {
        var i :| 0 <= i < |c.rulesOut| && Steady(facts, c.rulesOut[i]) && Holds(facts, store, c.rulesOut[i]);
        SteadyIsFirm(facts, store, c.rulesOut[i]);
        AlternativePersists(facts, store, store', c.rulesOut[i]);
      }
    }
  }

  /** So it stays ruled out when all that rules it out is steady; and when none of it is, just
      when none of it can ever hold. */
  lemma StaysDeadOfOneKind(K: KnowledgeBase, cid: Id, have: set<string>)
    requires cid in K.claims && ClaimResolves(K.facts, K.claims[cid])
    ensures (forall i :: 0 <= i < |K.claims[cid].rulesOut| ==> Steady(K.facts, K.claims[cid].rulesOut[i]))
            ==> StaysDead(K, cid, have)
    ensures EachCanLapse(K.facts, K.claims[cid]) ==> (StaysDead(K, cid, have) <==> !CanBeRuledOut(K.facts, K.claims[cid]))
  {
    var facts, c := K.facts, K.claims[cid];
    if EachCanLapse(facts, c) {
      forall k | 0 <= k < |c.rulesOut|
        ensures !Steady(facts, c.rulesOut[k]) && DeniedApart(facts, c.rulesOut, k)
      {
        EachIsUnsteady(facts, c, k);
      }
      StaysDeadExactly(K, cid, have);
      if i, store :| 0 <= i < |c.rulesOut| && IsEvidence(facts, store) && Holds(facts, store, c.rulesOut[i]) {
        assert SomeRulesOut(facts, store, c);
      }
    } else if forall i :: 0 <= i < |c.rulesOut| ==> Steady(facts, c.rulesOut[i]) {
      StaysDeadExactly(K, cid, have);
    }
  }

  lemma EachIsUnsteady(facts: map<Id, Fact>, c: Claim, k: nat)
    requires ClaimResolves(facts, c) && EachCanLapse(facts, c) && k < |c.rulesOut|
    ensures !Steady(facts, c.rulesOut[k]) && DeniedApart(facts, c.rulesOut, k)
  {
    forall j | 0 <= j < |c.rulesOut|
      ensures !Steady(facts, c.rulesOut[j])
    {
      SealedIsUnsteady(facts, c.rulesOut[j]);
    }
    var i :| 0 <= i < |c.rulesOut[k]| && CanBeDenied(facts, c.rulesOut[k], i);
    assert NoSteadyTests(facts, c.rulesOut, c.rulesOut[k][i].fact);
  }

  ghost predicate CanBeRuledOut(facts: map<Id, Fact>, c: Claim)
    requires ClaimResolves(facts, c)
  {
    exists i :: 0 <= i < |c.rulesOut| && CanHold(facts, c.rulesOut[i])
  }

  // -------------------------------------------------------------- when `status` raises

  /** Reading the claim raises: each of its alternatives is read first of all. */
  predicate StatusRaises(facts: map<Id, Fact>, store: Store, c: Claim)
    requires ClaimResolves(facts, c)
  {
    || (exists i :: 0 <= i < |c.for_| && AlternativeRaises(facts, store, c.for_[i].when))
    || (exists i :: 0 <= i < |c.rulesOut| && AlternativeRaises(facts, store, c.rulesOut[i]))
    || (exists i :: 0 <= i < |c.against| && AlternativeRaises(facts, store, c.against[i].when))
  }

  predicate ClaimTestsNullary(facts: map<Id, Fact>, c: Claim)
    requires ClaimResolves(facts, c)
  {
    || (exists i :: 0 <= i < |c.for_| && TestsNullary(facts, c.for_[i].when))
    || (exists i :: 0 <= i < |c.rulesOut| && TestsNullary(facts, c.rulesOut[i]))
    || (exists i :: 0 <= i < |c.against| && TestsNullary(facts, c.against[i].when))
  }

  lemma RaisesNeedNullary(facts: map<Id, Fact>, store: Store, c: Claim)
    requires ClaimResolves(facts, c) && StatusRaises(facts, store, c)
    ensures ClaimTestsNullary(facts, c)
  {
    if i :| 0 <= i < |c.for_| && AlternativeRaises(facts, store, c.for_[i].when) {
      StopsAtNullary(facts, store, c.for_[i].when, 0, map[], T);
    }
    if i :| 0 <= i < |c.rulesOut| && AlternativeRaises(facts, store, c.rulesOut[i]) {
      StopsAtNullary(facts, store, c.rulesOut[i], 0, map[], T);
    }
    if i :| 0 <= i < |c.against| && AlternativeRaises(facts, store, c.against[i].when) {
      StopsAtNullary(facts, store, c.against[i].when, 0, map[], T);
    }
  }

  /** A store of one entry on which a claim that tests a nullary functional fact raises. */
  lemma RaisingStore(facts: map<Id, Fact>, c: Claim) returns (e: Entry)
    requires ClaimResolves(facts, c) && ClaimTestsNullary(facts, c)
    ensures e == Bare(e.fact) && IsStore([e]) && Typed(facts, [e]) && e.fact in facts && facts[e.fact].functional
    ensures StatusRaises(facts, [e], c)
  {
    if i :| 0 <= i < |c.for_| && TestsNullary(facts, c.for_[i].when) {
      e := NullaryRaises(facts, c.for_[i].when);
    } else if i :| 0 <= i < |c.rulesOut| && TestsNullary(facts, c.rulesOut[i]) {
      e := NullaryRaises(facts, c.rulesOut[i]);
    } else {
      var i :| 0 <= i < |c.against| && TestsNullary(facts, c.against[i].when);
      e := NullaryRaises(facts, c.against[i].when);
    }
  }

  /** `status` of a claim raises on no store that can be recorded exactly when none of its
      alternatives tests a functional fact without parameters. */
  lemma StatusSafeExactly(facts: map<Id, Fact>, c: Claim)
    requires ClaimResolves(facts, c)
    ensures (forall store :: IsStore(store) && Typed(facts, store) ==> !StatusRaises(facts, store, c))
            <==> !ClaimTestsNullary(facts, c)
  {
    if ClaimTestsNullary(facts, c) {
      var e := RaisingStore(facts, c);
      assert IsStore([e]) && Typed(facts, [e]) && StatusRaises(facts, [e], c);
    }
    forall store | StatusRaises(facts, store, c)
      ensures ClaimTestsNullary(facts, c)
    {
      RaisesNeedNullary(facts, store, c);
    }
  }

  lemma FirstReadsTrue(facts: map<Id, Fact>, store: Store, alt: Alternative)
    requires AllResolve(facts, alt) && alt != [] && Holds(facts, store, alt)
    ensures exists r :: r in Options(facts, store, alt[0], map[]) && r.value == T
  {
    var chain: seq<Reading> :| IsReading(facts, store, alt, chain) && Least(chain) == T;
    assert chain[0] in Options(facts, store, alt[0], map[]);
  }

  /** On a lone entry of a nullary functional fact, a claim that tests none is not dead,
      unless something rules it out that asks for nothing. */
  lemma UntestedNotDead(K: KnowledgeBase, e: Entry, cid: Id, have: set<string>)
    requires cid in K.claims && ClaimResolves(K.facts, K.claims[cid])
    requires e == Bare(e.fact) && Typed(K.facts, [e]) && e.fact in K.facts && K.facts[e.fact].functional
    requires !ClaimTestsNullary(K.facts, K.claims[cid]) && [] !in K.claims[cid].rulesOut
    ensures !IsDead(Status(K, [e], cid, have))
  {
    var facts, c := K.facts, K.claims[cid];
    StatusMeans(K, [e], cid, have);
    assert [e][0] == e;
    forall i | 0 <= i < |c.rulesOut|
      ensures !Holds(facts, [e], c.rulesOut[i])
    {
      UntestedNotTrue(facts, e, c.rulesOut[i]);
    }
  }

  lemma UntestedNotTrue(facts: map<Id, Fact>, e: Entry, alt: Alternative)
    requires AllResolve(facts, alt) && alt != [] && !TestsNullary(facts, alt)
    requires e == Bare(e.fact) && Typed(facts, [e]) && e.fact in facts && facts[e.fact].functional
    ensures !Holds(facts, [e], alt)
  {
    assert [e][0] == e && !IsNullary(facts, alt[0]);
    OthersUnknown(facts, e, alt[0], map[]);
    if Holds(facts, [e], alt) {
      FirstReadsTrue(facts, [e], alt);
      assert false;
    }
  }
}
