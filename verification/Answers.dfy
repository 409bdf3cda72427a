/**
 Which symptom `open` answers for, and which standings the walk starts from, said of the
 knowledge as the layers leave it.
 */
module Answers {
  import opened Base
  import opened Knowledge
  import opened Search
  import opened Standings
  import opened Layers
  import opened OpenWalk
  import StatusRule
  import OpenRun
  import Check
  import opened OpenSymptom

  /** The name's symptom is an alert's or the name itself, and one the knowledge has. */
  lemma NamedExactly(k: Layer, name: Id, sid: Id)
    ensures SymptomNamed(k, name) == Some(sid)
            <==> sid in k.symptoms && (if name in k.alerts then k.alerts[name] == sid else name == sid)
  {
  }

  /** `wider` is another symptom, a candidate of which has all of the asked one's, of which
      there are some, among its sub-causes. */
  ghost predicate IsWider(k: Layer, asked: Id, wider: Id) {
    && asked in k.symptoms && wider in k.symptoms && wider != asked && k.symptoms[asked] != []
    && exists c :: && c in k.symptoms[wider] && c in k.claims
                   && forall x :: x in k.symptoms[asked] ==> x in k.claims[c].refinedBy
  }

  lemma WidensExactly(k: Layer, asked: Id, wider: Id)
    ensures Widens(k, asked, wider) <==> IsWider(k, asked, wider)
  {
    if asked in k.symptoms && wider in k.symptoms {
      forall c | c in k.claims
        ensures SubCausesAll(k.symptoms[asked], k.claims[c]) <==> forall x :: x in k.symptoms[asked] ==> x in k.claims[c].refinedBy
      {
        HasAll(k.symptoms[asked], k.claims[c]);
      }
    }
  }

  lemma HasAll(cands: seq<Id>, c: Claim)
    ensures SubCausesAll(cands, c) <==> forall x :: x in cands ==> x in c.refinedBy
  {
    assert forall i :: 0 <= i < |cands| ==> cands[i] in cands;
  }

  /** For a symptom asked, a wider one is opened, if there is one, and otherwise itself. */
  lemma OpensForExactly(k: Layer, asked: Id, sid: Id)
    ensures OpensFor(k, asked, sid) <==> IsWider(k, asked, sid) || (sid == asked && forall other :: !IsWider(k, asked, other))
  {
    forall other
      ensures Widens(k, asked, other) <==> IsWider(k, asked, other)
    {
      WidensExactly(k, asked, other);
    }
  }

  /** Each claim starts with the standing `status` gives it on the same facts, actions and kinds
      of change, and by its own alternatives. */
  lemma OwnStandingsAre(k: Layer, store: Store, have: set<string>, c: Id, K: KnowledgeBase)
    requires AllResolved(k) && c in k.claims
    requires K.facts == k.facts && K.claims == k.claims && K.actions == k.actions && K.changes == k.changes
    requires K.symptoms == k.symptoms && K.alerts == k.alerts
    ensures var s := OwnStandings(k, store, have)[c];
            if StatusRule.AnyRulesOut(k.facts, store, k.claims[c].rulesOut)
            then StatusRule.IsOut(k.facts, store, k.claims[c], s) else StatusRule.IsGraded(K, store, k.claims[c], have, s)
  {
    StatusRule.StatusExactly(K, store, c, have);
  }

  /** The alternative is one of the claim's: a rules_out, a `for` or an `against`. */
  ghost predicate IsOf(alt: Alternative, c: Claim) {
    alt in c.rulesOut || exists w :: (w in c.for_ || w in c.against) && w.when == alt
  }

  lemma OfResolves(facts: map<Id, Fact>, c: Claim, alt: Alternative)
    requires ClaimResolves(facts, c) && IsOf(alt, c)
    ensures AllResolve(facts, alt)
  {
  }

  ghost predicate SomeRaises(facts: map<Id, Fact>, store: Store, c: Claim) {
    exists alt :: IsOf(alt, c) && AllResolve(facts, alt) && AlternativeRaises(facts, store, alt)
  }

  lemma RaisesExactly(facts: map<Id, Fact>, store: Store, c: Claim)
    requires ClaimResolves(facts, c)
    ensures StatusRaises(facts, store, c) <==> SomeRaises(facts, store, c)
  {
    if SomeRaises(facts, store, c) {
      var alt :| IsOf(alt, c) && AllResolve(facts, alt) && AlternativeRaises(facts, store, alt);
      OfClaim(facts, store, c, alt);
    }
    if i :| 0 <= i < |c.for_| && AlternativeRaises(facts, store, c.for_[i].when) {
      assert c.for_[i] in c.for_ && IsOf(c.for_[i].when, c);
    }
    if i :| 0 <= i < |c.against| && AlternativeRaises(facts, store, c.against[i].when) {
      assert c.against[i] in c.against && IsOf(c.against[i].when, c);
    }
    if i :| 0 <= i < |c.rulesOut| && AlternativeRaises(facts, store, c.rulesOut[i]) {
      assert IsOf(c.rulesOut[i], c);
    }
  }

  lemma OfClaim(facts: map<Id, Fact>, store: Store, c: Claim, alt: Alternative)
    requires ClaimResolves(facts, c) && IsOf(alt, c) && AllResolve(facts, alt) && AlternativeRaises(facts, store, alt)
    ensures StatusRaises(facts, store, c)
  {
    if alt in c.rulesOut {
      var i :| 0 <= i < |c.rulesOut| && c.rulesOut[i] == alt;
    } else {
      var w :| (w in c.for_ || w in c.against) && w.when == alt;
      if w in c.for_ {
        var i :| 0 <= i < |c.for_| && c.for_[i] == w;
      } else {
        var i :| 0 <= i < |c.against| && c.against[i] == w;
      }
    }
  }

  ghost predicate MeetsOneThatRaises(k: Layer, store: Store, seen: set<Id>) {
    exists c :: c in seen && c in k.claims && SomeRaises(k.facts, store, k.claims[c])
  }

  lemma MeetsExactly(k: Layer, store: Store, seen: set<Id>)
    requires AllResolved(k)
    ensures OpenRun.MeetsRaising({}, seen, Raising(k, store)) <==> MeetsOneThatRaises(k, store, seen)
  {
    forall c | c in k.claims
      ensures c in Raising(k, store) <==> SomeRaises(k.facts, store, k.claims[c])
    {
      RaisesExactly(k.facts, store, k.claims[c]);
    }
  }

  /** `open` raises just when it meets a claim one of whose alternatives raises. */
  lemma OpenRaisesExactly(k: Layer, store: Store, have: set<string>, cands: seq<Id>)
    requires AllResolved(k) && Check.AllIn(cands, k.claims.Keys)
    ensures IsGraph(GraphOf(k, OwnStandings(k, store, have)))
    ensures OpenRaises(k, store, have, cands)
            <==> MeetsOneThatRaises(k, store, Opened(GraphOf(k, OwnStandings(k, store, have)), cands).seen)
  {
    OwnAreStandings(k, store, have);
    GraphOfIsGraph(k, OwnStandings(k, store, have));
    MeetsExactly(k, store, Opened(GraphOf(k, OwnStandings(k, store, have)), cands).seen);
  }
}
