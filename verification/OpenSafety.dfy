/**
 When opening a symptom raises: a functional fact without parameters has no value to be a
 function of, and reading a condition on one takes the last argument of none.
 */
module OpenSafety {
  import opened Base
  import opened Knowledge
  import opened Search
  import opened Standings
  import opened FactLines
  import opened Layers
  import opened Refinement
  import opened OpenWalk
  import OpenTheorems
  import opened OpenSymptom
  import Check

  /** Common sub-causes from a candidate down to a claim that tests a functional fact without
      parameters, through claims that nothing rules out for free. */
  ghost predicate NullaryTrail(k: Layer, cands: seq<Id>, path: seq<Id>)
    requires AllResolved(k)
  {
    && path != [] && path[0] in cands
    && (forall j :: 0 <= j < |path| ==> path[j] in k.claims)
    && (forall j :: 0 <= j < |path| - 1 ==> TrailStep(k, path[j], path[j + 1]))
    && ClaimTestsNullary(k.facts, k.claims[path[|path| - 1]])
  }

  ghost predicate TrailStep(k: Layer, c: Id, x: Id)
    requires AllResolved(k) && c in k.claims
  {
    [] !in k.claims[c].rulesOut && x in Common(k.claims, k.claims[c].refinedBy)
  }

  lemma TrailPart(k: Layer, cands: seq<Id>, path: seq<Id>, j: nat)
    requires AllResolved(k) && NullaryTrail(k, cands, path) && j < |path|
    requires ClaimTestsNullary(k.facts, k.claims[path[j]])
    ensures NullaryTrail(k, cands, path[..j + 1])
  {
    var part := path[..j + 1];
    forall i | 0 <= i < j
      ensures part[i] in k.claims && TrailStep(k, part[i], part[i + 1])
    {
      assert TrailStep(k, path[i], path[i + 1]);
    }
  }

  /** The trail as far as its first claim that tests such a fact. */
  lemma {:induction false} FirstOnTrail(k: Layer, cands: seq<Id>, path: seq<Id>, n: nat) returns (first: seq<Id>)
    requires AllResolved(k) && n < |path| && NullaryTrail(k, cands, path[..n + 1])
    ensures NullaryTrail(k, cands, first)
    ensures forall j :: 0 <= j < |first| - 1 ==> !ClaimTestsNullary(k.facts, k.claims[first[j]])
  {
    first := path[..n + 1];
    if j :| 0 <= j < n && ClaimTestsNullary(k.facts, k.claims[first[j]]) {
      TrailPart(k, cands, first, j);
      assert path[..j + 1] == first[..j + 1];
      first := FirstOnTrail(k, cands, path, j);
    }
  }

  /** On the lone entry that makes the trail's last claim raise, the whole trail is live. */
  lemma TrailIsMet(k: Layer, e: Entry, have: set<string>, cands: seq<Id>, path: seq<Id>)
    requires AllResolved(k) && Check.AllIn(cands, k.claims.Keys) && NullaryTrail(k, cands, path)
    requires exists rank :: IsRank(Check.SubsOf(k.claims), rank)
    requires forall j :: 0 <= j < |path| - 1 ==> !ClaimTestsNullary(k.facts, k.claims[path[j]])
    requires e == Bare(e.fact) && Typed(k.facts, [e]) && e.fact in k.facts && k.facts[e.fact].functional
    requires StatusRaises(k.facts, [e], k.claims[path[|path| - 1]])
    ensures OpenRaises(k, [e], have, cands)
  {
    var own := OwnStandings(k, [e], have);
    var rank :| IsRank(Check.SubsOf(k.claims), rank);
    OwnAreStandings(k, [e], have);
    GraphOfRanked(k, own, rank);
    var g := GraphOf(k, own);
    forall j | 0 <= j < |path| - 1
      ensures path[j] in g.own && !IsDead(g.own[path[j]]) && path[j + 1] in g.common[path[j]]
    {
      assert TrailStep(k, path[j], path[j + 1]);
      UntestedNotDead(KnowledgeOf(k), e, path[j], have);
    }
    assert OpenTheorems.LivePath(g, cands, path);
    var last := path[|path| - 1];
    assert OpenTheorems.Reached(g, cands, last);
    OpenTheorems.OpenedReached(g, cands, last);
    assert last in Opened(g, cands).seen && last in Raising(k, [e]);
  }

  lemma FreelyRuledOut(K: KnowledgeBase, store: Store, cid: Id, have: set<string>)
    requires cid in K.claims && ClaimResolves(K.facts, K.claims[cid]) && [] in K.claims[cid].rulesOut
    ensures IsDead(Status(K, store, cid, have))
  {
    StatusMeans(K, store, cid, have);
    var i :| 0 <= i < |K.claims[cid].rulesOut| && K.claims[cid].rulesOut[i] == [];
    assert IsReading(K.facts, store, [], []) && Least([]) == T;
    assert Holds(K.facts, store, K.claims[cid].rulesOut[i]);
  }

  /** Standings that hold every claim ruled out which something rules out for free. */
  ghost predicate RulesOutFreely(k: Layer, own: map<Id, Standing>) {
    own.Keys == k.claims.Keys && forall c :: c in k.claims && [] in k.claims[c].rulesOut ==> IsDead(own[c])
  }

  lemma OwnRulesOutFreely(k: Layer, store: Store, have: set<string>)
    requires AllResolved(k)
    ensures RulesOutFreely(k, OwnStandings(k, store, have))
  {
    forall c | c in k.claims && [] in k.claims[c].rulesOut
      ensures IsDead(OwnStandings(k, store, have)[c])
    {
      FreelyRuledOut(KnowledgeOf(k), store, c, have);
    }
  }

  lemma LiveIsTrail(k: Layer, own: map<Id, Standing>, cands: seq<Id>, path: seq<Id>)
    requires AllResolved(k) && RulesOutFreely(k, own) && IsGraph(GraphOf(k, own))
    requires OpenTheorems.LivePath(GraphOf(k, own), cands, path)
    requires path[|path| - 1] in k.claims && ClaimTestsNullary(k.facts, k.claims[path[|path| - 1]])
    ensures NullaryTrail(k, cands, path)
  {
    forall j | 0 <= j < |path| - 1
      ensures path[j] in k.claims && TrailStep(k, path[j], path[j + 1])
    {
    }
  }

  /** The claim that raises, and how `open` came to it. */
  lemma RaisingPath(k: Layer, store: Store, have: set<string>, cands: seq<Id>) returns (path: seq<Id>)
    requires AllResolved(k) && Check.AllIn(cands, k.claims.Keys) && OpenRaises(k, store, have, cands)
    requires exists rank :: IsRank(Check.SubsOf(k.claims), rank)
    ensures IsGraph(GraphOf(k, OwnStandings(k, store, have)))
    ensures OpenTheorems.LivePath(GraphOf(k, OwnStandings(k, store, have)), cands, path)
    ensures path[|path| - 1] in Raising(k, store)
  {
    var own := OwnStandings(k, store, have);
    var rank :| IsRank(Check.SubsOf(k.claims), rank);
    OwnAreStandings(k, store, have);
    GraphOfRanked(k, own, rank);
    var g := GraphOf(k, own);
    var c :| c in Opened(g, cands).seen && c in Raising(k, store);
    OpenTheorems.OpenedReached(g, cands, c);
    path :| OpenTheorems.LivePath(g, cands, path) && path[|path| - 1] == c;
  }

  lemma RaisingIsOnTrail(k: Layer, store: Store, have: set<string>, cands: seq<Id>) returns (path: seq<Id>)
    requires AllResolved(k) && Check.AllIn(cands, k.claims.Keys) && OpenRaises(k, store, have, cands)
    requires exists rank :: IsRank(Check.SubsOf(k.claims), rank)
    ensures NullaryTrail(k, cands, path)
  {
    path := RaisingPath(k, store, have, cands);
    RaisesNeedNullary(k.facts, store, k.claims[path[|path| - 1]]);
    OwnRulesOutFreely(k, store, have);
    LiveIsTrail(k, OwnStandings(k, store, have), cands, path);
  }

  lemma TrailRaises(k: Layer, have: set<string>, cands: seq<Id>, path: seq<Id>) returns (e: Entry)
    requires AllResolved(k) && Check.AllIn(cands, k.claims.Keys) && NullaryTrail(k, cands, path)
    requires exists rank :: IsRank(Check.SubsOf(k.claims), rank)
    ensures IsStore([e]) && Typed(k.facts, [e]) && OpenRaises(k, [e], have, cands)
  {
    assert path[..|path|] == path;
    var first := FirstOnTrail(k, cands, path, |path| - 1);
    e := RaisingStore(k.facts, k.claims[first[|first| - 1]]);
    TrailIsMet(k, e, have, cands, first);
  }

  ghost predicate OpensOnAll(k: Layer, have: set<string>, cands: seq<Id>)
    requires AllResolved(k) && Check.AllIn(cands, k.claims.Keys)
  {
    forall store {:trigger OpenRaises(k, store, have, cands)} ::
      IsStore(store) && Typed(k.facts, store) ==> !OpenRaises(k, store, have, cands)
  }

  ghost predicate HasNullaryTrail(k: Layer, cands: seq<Id>)
    requires AllResolved(k)
  {
    exists path {:trigger NullaryTrail(k, cands, path)} :: NullaryTrail(k, cands, path)
  }

  lemma TrailRaisesSome(k: Layer, have: set<string>, cands: seq<Id>)
    requires AllResolved(k) && Check.AllIn(cands, k.claims.Keys) && HasNullaryTrail(k, cands)
    requires exists rank :: IsRank(Check.SubsOf(k.claims), rank)
    ensures !OpensOnAll(k, have, cands)
  {
    var path :| NullaryTrail(k, cands, path);
    var e := TrailRaises(k, have, cands, path);
  }

  lemma NoTrailOpens(k: Layer, store: Store, have: set<string>, cands: seq<Id>)
    requires AllResolved(k) && Check.AllIn(cands, k.claims.Keys) && !HasNullaryTrail(k, cands)
    requires exists rank :: IsRank(Check.SubsOf(k.claims), rank)
    ensures !OpenRaises(k, store, have, cands)
  {
    if OpenRaises(k, store, have, cands) {
      var path := RaisingIsOnTrail(k, store, have, cands);
      assert false;
    }
  }

  /** A symptom opens on every store that can be recorded, and never raises, exactly when no
      such trail leads from its candidates. */
  lemma OpenSafeExactly(k: Layer, have: set<string>, cands: seq<Id>)
    requires AllResolved(k) && Check.AllIn(cands, k.claims.Keys) && Check.Acyclic(k)
    ensures OpensOnAll(k, have, cands) <==> !HasNullaryTrail(k, cands)
  {
    RankedExactly(Check.SubsOf(k.claims));
    if HasNullaryTrail(k, cands) {
      TrailRaisesSome(k, have, cands);
    } else {
      forall store | IsStore(store) && Typed(k.facts, store)
        ensures !OpenRaises(k, store, have, cands)
      {
        NoTrailOpens(k, store, have, cands);
      }
    }
  }

  // -------------------------------------------------------------- what the check lets pass

  /** A functional fact that takes no argument has no value to be a function of. */
  const NULLARY := Layer(
    map["s" := ["c"]], map[], map["f" := Fact([], true)], map["a" := Action("k8stools", ["f"], 1)],
    map["c" := Claim([Weighted(Strong, [Test("f", [], false, [], {})])], [], [[Test("f", [], true, [], {})]], [], false)],
    map[], [], map[])

  /** The line `f[]`. */
  const BARE_LINE := Stated(false, "f", [])

  lemma NullaryChecks()
    ensures Checked(NULLARY) && AllResolved(NULLARY)
    ensures exists rank :: IsRank(Check.SubsOf(NULLARY.claims), rank)
  {
    var k := NULLARY;
    assert "f" in k.actions["a"].produces;
    var rank: map<Id, nat> := map["c" := 0];
    assert IsRank(Check.SubsOf(k.claims), rank);
    RankedExactly(Check.SubsOf(k.claims));
    NullaryClaimOk();
    CheckedResolves(k);
  }

  /** The build does not ask that a functional fact have a parameter, and a line records one
      without: opening the symptom then raises. */
  lemma CheckAllowsNullaryFunctional(have: set<string>)
    ensures Checked(NULLARY) && AllResolved(NULLARY)
    ensures Parse(NULLARY.facts, [BARE_LINE], false) == Parsed([Bare("f")], [])
    ensures Check.AllIn(["c"], NULLARY.claims.Keys) && NULLARY.symptoms["s"] == ["c"]
    ensures OpenRaises(NULLARY, [Bare("f")], have, ["c"])
  {
    NullaryChecks();
    BareLineParses();
    NullaryRaisesOnBare();
    assert NullaryTrail(NULLARY, ["c"], ["c"]);
    TrailIsMet(NULLARY, Bare("f"), have, ["c"], ["c"]);
  }

  lemma BareLineParses()
    ensures Parse(NULLARY.facts, [BARE_LINE], false) == Parsed([Bare("f")], [])
  {
    var facts, lines := NULLARY.facts, [BARE_LINE];
    assert lines[..0] == [] && Parse(facts, [], false) == Parsed([], []);
    assert "f" !in RESERVED;
    assert WithRoles(facts["f"].params, BARE_LINE.args) == [];
    assert Recordable(facts, BARE_LINE, false) == Some(Bare("f"));
    assert Find([], "f", []) == None;
    assert [] + [Bare("f")] == [Bare("f")];
    assert Put([], Bare("f")) == [Bare("f")];
  }

  lemma NullaryRaisesOnBare()
    ensures AllResolved(NULLARY)
    ensures ClaimTestsNullary(NULLARY.facts, NULLARY.claims["c"])
    ensures StatusRaises(NULLARY.facts, [Bare("f")], NULLARY.claims["c"])
  {
    var facts, c := NULLARY.facts, NULLARY.claims["c"];
    NullaryClaimOk();
    var alt := c.for_[0].when;
    assert IsNullary(facts, alt[0]) && [Bare("f")][0].fact == "f";
    assert RaisesOn(facts, [Bare("f")], alt[0]);
    assert AlternativeRaises(facts, [Bare("f")], alt);
  }

  lemma NullaryClaimOk()
    ensures Check.ClaimOk(NULLARY, "c", NULLARY.claims["c"])
  {
  }
}
