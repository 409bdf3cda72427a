/**
 Knowledge the build lets pass, and facts recorded of it, on which the chain of leaders
 starts with a candidate other than the candidates' leader.
 */
module Beaten {
  import opened Base
  import opened Knowledge
  import opened Search
  import opened Stability
  import opened Standings
  import opened Availability
  import opened FactLines
  import opened Layers
  import opened Refinement
  import opened OpenWalk
  import opened OpenTheorems
  import opened Ranking
  import opened OpenSymptom
  import Check

  /** A claim supported by its sign, ruled out without it. */
  function Cause(sign: Id, weight: Weight, subs: seq<Id>): Claim {
    Claim([Weighted(weight, [Sign(sign, false)])], [], [[Sign(sign, true)]], subs, false)
  }

  const CAUSES := Layer(
    map["s" := CANDIDATES], map[],
    map["b" := Fact([], false), "p" := Fact([], false), "m" := Fact([], false)],
    map["a" := Action("k8stools", ["b", "p", "m"], 1)],
    map["b" := Cause("b", Weak, []), "p" := Cause("p", Weak, ["b"]), "m" := Cause("m", Strong, [])],
    map[], [], map[])

  /** The signs of `b` and of `m` are there; of `p` nothing is known. */
  const SIGNS := [Entry("b", [], true), Entry("m", [], true)]

  lemma {:induction false} OnlyOption(facts: map<Id, Fact>, store: Store, c: Condition, v: Kleene)
    requires AllResolve(facts, [c]) && Resolves(facts, c) && Options(facts, store, c, map[]) == [Reading(v, map[])]
    ensures AlternativeValue(facts, store, [c]) == Best(v, if v == T then [] else [c])
  {
    var start := Best(F, [c]);
    OneOption(facts, store, [c], 0, Reading(v, map[]), T, [], start);
    assert [c][0] == c && [] + Unsure(c, v) == Unsure(c, v);
  }

  lemma SignReads(facts: map<Id, Fact>, sign: Id, negated: bool)
    requires sign in facts && facts[sign] == Fact([], false)
    ensures var c := Sign(sign, negated);
            Resolves(facts, c) && Options(facts, SIGNS, c, map[])
            == [Reading(if sign != "b" && sign != "m" then U else if negated then F else T, map[])]
  {
    var c := Sign(sign, negated);
    var none: seq<string> := [];
    UnboundArgs(none);
    ClosedReads(c, none, map[], SIGNS[0]);
    ClosedReads(c, none, map[], SIGNS[1]);
    assert SIGNS[..1] == [SIGNS[0]] && [SIGNS[0]][..0] == [];
    assert Hits([], c, none, map[]) == [];
    assert Hits([SIGNS[0]], c, none, map[]) == [] + Reads(c, none, map[], SIGNS[0]);
    assert Hits(SIGNS, c, none, map[]) == Hits([SIGNS[0]], c, none, map[]) + Reads(c, none, map[], SIGNS[1]);
  }

  lemma SignValue(facts: map<Id, Fact>, sign: Id, negated: bool)
    requires sign in facts && facts[sign] == Fact([], false)
    ensures var c := Sign(sign, negated);
            AllResolve(facts, [c])
            && AlternativeValue(facts, SIGNS, [c])
               == if sign != "b" && sign != "m" then Best(U, [c]) else if negated then Best(F, [c]) else Best(T, [])
  {
    SignReads(facts, sign, negated);
    OnlyOption(facts, SIGNS, Sign(sign, negated), if sign != "b" && sign != "m" then U else if negated then F else T);
  }

  lemma CauseStatus(K: KnowledgeBase, cid: Id, weight: Weight, subs: seq<Id>, have: set<string>)
    requires cid in K.claims && K.claims[cid] == Cause(cid, weight, subs)
    requires cid in K.facts && K.facts[cid] == Fact([], false) && cid !in RESERVED
    requires DecidableHere(K, [Sign(cid, false)], have)
    ensures ClaimResolves(K.facts, K.claims[cid])
    ensures Status(K, SIGNS, cid, have)
            == if cid == "b" || cid == "m" then Standing(GradeName(Grade(weight)), Grade(weight), [[Sign(cid, false)]], [], None)
               else OPEN
  {
    if cid == "b" || cid == "m" {
      SeenCause(K, cid, weight, subs, have);
    } else {
      UnseenCause(K, cid, weight, subs, have);
    }
  }

  lemma SeenCause(K: KnowledgeBase, cid: Id, weight: Weight, subs: seq<Id>, have: set<string>)
    requires cid in K.claims && K.claims[cid] == Cause(cid, weight, subs) && (cid == "b" || cid == "m")
    requires cid in K.facts && K.facts[cid] == Fact([], false)
    ensures ClaimResolves(K.facts, K.claims[cid])
    ensures Status(K, SIGNS, cid, have)
            == Standing(GradeName(Grade(weight)), Grade(weight), [[Sign(cid, false)]], [], None)
  {
    SignValue(K.facts, cid, false);
    SignValue(K.facts, cid, true);
    SeenStatus(K, SIGNS, cid, weight, subs, have);
  }

  lemma UnseenCause(K: KnowledgeBase, cid: Id, weight: Weight, subs: seq<Id>, have: set<string>)
    requires cid in K.claims && K.claims[cid] == Cause(cid, weight, subs) && cid != "b" && cid != "m"
    requires cid in K.facts && K.facts[cid] == Fact([], false) && cid !in RESERVED
    requires DecidableHere(K, [Sign(cid, false)], have)
    ensures ClaimResolves(K.facts, K.claims[cid]) && Status(K, SIGNS, cid, have) == OPEN
  {
    SignValue(K.facts, cid, false);
    SignValue(K.facts, cid, true);
    UnseenStatus(K, SIGNS, cid, weight, subs, have);
  }

  lemma SeenStatus(K: KnowledgeBase, store: Store, cid: Id, weight: Weight, subs: seq<Id>, have: set<string>)
    requires cid in K.claims && K.claims[cid] == Cause(cid, weight, subs) && ClaimResolves(K.facts, K.claims[cid])
    requires var w := K.claims[cid].for_[0].when; AllResolve(K.facts, w) && IsTrue(K.facts, store, w)
    requires var out := K.claims[cid].rulesOut[0]; AllResolve(K.facts, out) && !IsTrue(K.facts, store, out)
    ensures Status(K, store, cid, have)
            == Standing(GradeName(Grade(weight)), Grade(weight), [[Sign(cid, false)]], [], None)
  {
    OneFor(K.facts, store, K.claims[cid].for_[0]);
    OneOut(K.facts, store, K.claims[cid].rulesOut[0]);
  }

  lemma UnseenStatus(K: KnowledgeBase, store: Store, cid: Id, weight: Weight, subs: seq<Id>, have: set<string>)
    requires cid in K.claims && K.claims[cid] == Cause(cid, weight, subs) && ClaimResolves(K.facts, K.claims[cid])
    requires var w := K.claims[cid].for_[0].when; AllResolve(K.facts, w) && AlternativeValue(K.facts, store, w) == Best(U, w)
    requires var out := K.claims[cid].rulesOut[0]; AllResolve(K.facts, out) && !IsTrue(K.facts, store, out)
    requires cid !in RESERVED && DecidableHere(K, [Sign(cid, false)], have)
    ensures Status(K, store, cid, have) == OPEN
  {
    OneFor(K.facts, store, K.claims[cid].for_[0]);
    OneOut(K.facts, store, K.claims[cid].rulesOut[0]);
    assert CouldStillDecide(K, store, K.claims[cid].for_[0].when, have);
  }

  lemma {:induction false} OneFor(facts: map<Id, Fact>, store: Store, w: Weighted)
    requires AllResolve(facts, w.when)
    ensures TopFor(facts, store, [w]) == if IsTrue(facts, store, w.when) then Some(w) else None
  {
    assert [w][..0] == [] && TopFor(facts, store, []) == None;
  }

  lemma {:induction false} OneOut(facts: map<Id, Fact>, store: Store, alt: Alternative)
    requires AllResolve(facts, alt)
    ensures TrueOnes(facts, store, [alt]) == if IsTrue(facts, store, alt) then [alt] else []
  {
    assert [alt][..0] == [] && TrueOnes(facts, store, []) == [];
  }

  lemma SignOk(k: Layer, sign: Id, negated: bool)
    requires sign in k.facts && k.facts[sign].params == [] && sign != CHANGE_FACT
    ensures Check.AlternativeOk(k, [Sign(sign, negated)])
  {
  }

  lemma CauseOk(k: Layer, name: Id, weight: Weight, subs: seq<Id>)
    requires name in k.facts && k.facts[name].params == [] && name != CHANGE_FACT && Check.AllIn(subs, k.claims.Keys)
    ensures Check.ClaimOk(k, name, Cause(name, weight, subs))
  {
    SignOk(k, name, false);
    SignOk(k, name, true);
  }

  lemma CausesDefined()
    ensures Check.DefinitionsOk(CAUSES)
  {
    var k := CAUSES;
    forall f | f in k.facts
      ensures Check.Produced(k, f)
    {
      assert f in k.actions["a"].produces;
    }
  }

  lemma CausesClaimed()
    ensures Check.ClaimsOk(CAUSES)
  {
    assert "b" != CHANGE_FACT && "p" != CHANGE_FACT && "m" != CHANGE_FACT;
    CauseOk(CAUSES, "b", Weak, []);
    CauseOk(CAUSES, "p", Weak, ["b"]);
    CauseOk(CAUSES, "m", Strong, []);
  }

  lemma CausesAcyclic()
    ensures Check.Acyclic(CAUSES)
  {
    var subs, rank: map<Id, nat> := Check.SubsOf(CAUSES.claims), map["b" := 0, "p" := 1, "m" := 0];
    assert subs == map["b" := [], "p" := ["b"], "m" := []];
    assert IsRank(subs, rank);
    RankedExactly(subs);
  }

  lemma CausesChecked()
    ensures Checked(CAUSES) && AllResolved(CAUSES)
  {
    CausesDefined();
    CausesClaimed();
    CausesAcyclic();
    CheckedResolves(CAUSES);
  }

  lemma SignDecidable(cid: Id, have: set<string>)
    requires cid in CAUSES.facts && "k8stools" in have
    ensures DecidableHere(KnowledgeOf(CAUSES), [Sign(cid, false)], have)
  {
    var K, c := KnowledgeOf(CAUSES), Sign(cid, false);
    assert cid in K.actions["a"].produces;
    assert "a" in ProducersOf(K, cid) && Usable(K, "a", have);
    assert Available(K, c, have);
  }

  lemma CauseStands(cid: Id, have: set<string>)
    requires cid in SHARED.own && "k8stools" in have
    ensures cid in CAUSES.claims && ClaimResolves(CAUSES.facts, CAUSES.claims[cid])
    ensures Status(KnowledgeOf(CAUSES), SIGNS, cid, have) == SHARED.own[cid]
  {
    assert "b" !in RESERVED && "p" !in RESERVED && "m" !in RESERVED;
    SignDecidable(cid, have);
    CauseStatus(KnowledgeOf(CAUSES), cid, if cid == "m" then Strong else Weak, if cid == "p" then ["b"] else [], have);
  }

  lemma OwnIs(k: Layer, store: Store, have: set<string>, own: map<Id, Standing>)
    requires AllResolved(k) && own.Keys == k.claims.Keys
    requires forall c :: c in own ==> Status(KnowledgeOf(k), store, c, have) == own[c]
    ensures OwnStandings(k, store, have) == own
  {
  }

  lemma CausesSubs(cid: Id)
    requires cid in SHARED.own && AllResolved(CAUSES)
    ensures cid in CAUSES.claims
    ensures Common(CAUSES.claims, CAUSES.claims[cid].refinedBy) == SHARED.common[cid]
    ensures Uncommon(CAUSES.claims, CAUSES.claims[cid].refinedBy) == SHARED.rare[cid]
  {
    var claims := CAUSES.claims;
    assert ["b"][..0] == [] && Uncommon(claims, []) == [];
    assert !claims["b"].uncommon && Uncommon(claims, ["b"]) == [] + [];
  }

  lemma GraphIs(k: Layer, g: Graph)
    requires AllResolved(k) && g.common.Keys == g.rare.Keys == k.claims.Keys
    requires forall c :: c in k.claims ==> Common(k.claims, k.claims[c].refinedBy) == g.common[c]
    requires forall c :: c in k.claims ==> Uncommon(k.claims, k.claims[c].refinedBy) == g.rare[c]
    ensures GraphOf(k, g.own) == g
  {
    assert GraphOf(k, g.own).common == g.common;
    assert GraphOf(k, g.own).rare == g.rare;
  }

  lemma CausesGraph(have: set<string>)
    requires "k8stools" in have && AllResolved(CAUSES)
    ensures GraphOf(CAUSES, OwnStandings(CAUSES, SIGNS, have)) == SHARED
  {
    assert SHARED.own.Keys == SHARED.common.Keys == SHARED.rare.Keys == CAUSES.claims.Keys;
    forall c | c in SHARED.own
      ensures Status(KnowledgeOf(CAUSES), SIGNS, c, have) == SHARED.own[c]
      ensures Common(CAUSES.claims, CAUSES.claims[c].refinedBy) == SHARED.common[c]
      ensures Uncommon(CAUSES.claims, CAUSES.claims[c].refinedBy) == SHARED.rare[c]
    {
      CauseStands(c, have);
      CausesSubs(c);
    }
    OwnIs(CAUSES, SIGNS, have, SHARED.own);
    GraphIs(CAUSES, SHARED);
  }

  lemma SignsAreEvidence()
    ensures IsEvidence(CAUSES.facts, SIGNS)
  {
  }

  /** On that knowledge and those facts, whatever else there is to observe with, `m` leads
      the candidates alone, and the chain starts with the weaker `b`. */
  lemma BeatenOnFacts(have: set<string>, leads: set<Id>)
    requires "k8stools" in have
    ensures Checked(CAUSES) && AllResolved(CAUSES) && CAUSES.symptoms["s"] == CANDIDATES
    ensures IsEvidence(CAUSES.facts, SIGNS)
    ensures GraphOf(CAUSES, OwnStandings(CAUSES, SIGNS, have)) == SHARED && IsOpenable(SHARED, CANDIDATES)
    ensures var w := Opened(SHARED, CANDIDATES);
            (forall x :: x in leads <==> IsLead(w.st, w.groups, x)) ==>
              Leads(w.st, CANDIDATES, "m") && HeadRow(w.rows, leads, |w.rows|) == Some("b")
  {
    CausesChecked();
    CausesGraph(have);
    SignsAreEvidence();
    SharedIsOpenable();
    var w := Opened(SHARED, CANDIDATES);
    if forall x :: x in leads <==> IsLead(w.st, w.groups, x) {
      HeadCanBeBeaten(leads);
    }
  }
}
