/**
 What the build's check for cycles keeps from happening: two claims that refine each other,
 opened, lead each other, and the chain of leaders from either never runs out.
 */
module LeaderCycle {
  import opened Base
  import opened Knowledge
  import opened Standings
  import opened OpenWalk
  import opened Ranking

  const CYCLE := Graph(map["a" := WEAK, "b" := OPEN], map["a" := ["b"], "b" := ["a"]], map["a" := [], "b" := []])

  const STARTED := Walk({}, [], map[], map[], [Group(None, ["a"])])
  const MET_A := Walk({"a"}, [Row(0, "a", WEAK)], map["a" := WEAK], map[], [Group(None, ["a"])])
  const TOLD_B := MET_A.(parent := map["b" := "a"])
  const MET_B := Walk({"a", "b"}, [Row(0, "a", WEAK), Row(1, "b", OPEN)], map["a" := WEAK, "b" := OPEN],
                      map["b" := "a"], [Group(None, ["a"])])
  const TOLD_A := MET_B.(parent := map["b" := "a", "a" := "b"])

  lemma CycleFits()
    ensures IsGraph(CYCLE) && AllKnown(CYCLE, ["a"])
    ensures Fits(CYCLE, STARTED) && Fits(CYCLE, MET_A) && Fits(CYCLE, TOLD_B) && Fits(CYCLE, MET_B) && Fits(CYCLE, TOLD_A)
  {
  }

  lemma UnderB()
    ensures IsGraph(CYCLE) && Fits(CYCLE, MET_B) && VisitedUnder(CYCLE, "b", 1, 1, MET_B) == TOLD_A
  {
    CycleFits();
    assert VisitedUnder(CYCLE, "b", 1, 0, MET_B) == MET_B;
    assert WithParent(MET_B, "a", "b") == TOLD_A;
    assert Visited(CYCLE, "a", 2, TOLD_A) == TOLD_A;
  }

  /** A claim with one common sub-cause, whose parent it is, is lifted by that one or stands as it was. */
  lemma ClosedOverOne(g: Graph, cid: Id, x: Id, depth: nat, w: Walk)
    requires IsGraph(g) && cid in g.own && cid in w.seen && Fits(g, w)
    requires g.common[cid] == [x] && g.rare[cid] == [] && x in w.st && x in w.parent && w.parent[x] == cid
    ensures var r := Closed(g, cid, depth, w);
            && r.parent == w.parent && r.groups == w.groups + [Group(Some(cid), [x])]
            && (w.st[x].grade <= g.own[cid].grade ==> r.st == w.st)
            && (w.st[x].grade > g.own[cid].grade ==>
                  cid in r.st && r.st == w.st[cid := r.st[cid]] && r.st[cid].grade == w.st[x].grade)
  {
    assert BestOf(w.st, [x], 0) == None && BestOf(w.st, [x], 1) == Some(x);
    assert [x][..0] == [] && Under([], w.parent, cid) == [];
    assert Under([x], w.parent, cid) == [x];
  }

  /** `b` is lifted by `a`, which leads under it. */
  lemma CloseB()
    ensures IsGraph(CYCLE) && Fits(CYCLE, TOLD_A)
    ensures var r := Closed(CYCLE, "b", 1, TOLD_A);
            && r.st["a"] == WEAK && r.st["b"].grade == 1 && r.parent == TOLD_A.parent
            && r.groups == [Group(None, ["a"]), Group(Some("b"), ["a"])]
  {
    CycleFits();
    ClosedOverOne(CYCLE, "b", "a", 1, TOLD_A);
    assert TOLD_A.groups + [Group(Some("b"), ["a"])] == [Group(None, ["a"]), Group(Some("b"), ["a"])];
  }

  lemma VisitB()
    ensures IsGraph(CYCLE) && Fits(CYCLE, TOLD_B) && Fits(CYCLE, TOLD_A)
    ensures Visited(CYCLE, "b", 1, TOLD_B) == Closed(CYCLE, "b", 1, TOLD_A)
  {
    CycleFits();
    assert Met(CYCLE, "b", 1, TOLD_B) == MET_B;
    UnderB();
    assert VisitedNew(CYCLE, "b", 1, TOLD_B) == Closed(CYCLE, "b", 1, TOLD_A);
  }

  lemma UnderA()
    ensures IsGraph(CYCLE) && Fits(CYCLE, MET_A) && Fits(CYCLE, TOLD_A)
    ensures VisitedUnder(CYCLE, "a", 0, 1, MET_A) == Closed(CYCLE, "b", 1, TOLD_A)
  {
    CycleFits();
    assert VisitedUnder(CYCLE, "a", 0, 0, MET_A) == MET_A;
    assert WithParent(MET_A, "b", "a") == TOLD_B;
    VisitB();
  }

  /** `a` is not lifted further, and `b` leads under it. */
  lemma CloseA(w: Walk)
    requires Fits(CYCLE, w) && w.seen == {"a", "b"} && w.st["a"] == WEAK && w.st["b"].grade == 1
    requires w.parent == TOLD_A.parent
    ensures IsGraph(CYCLE)
    ensures var r := Closed(CYCLE, "a", 0, w);
            r.st == w.st && r.parent == w.parent && r.groups == w.groups + [Group(Some("a"), ["b"])]
  {
    CycleFits();
    ClosedOverOne(CYCLE, "a", "b", 0, w);
  }

  lemma OpenCycle()
    ensures IsGraph(CYCLE) && AllKnown(CYCLE, ["a"])
    ensures var w := Opened(CYCLE, ["a"]);
            && w.st.Keys == {"a", "b"} && w.st["a"].grade == 1 && w.st["b"].grade == 1 && w.parent == TOLD_A.parent
            && w.groups == [Group(None, ["a"]), Group(Some("b"), ["a"]), Group(Some("a"), ["b"])]
  {
    CycleFits();
    UnderA();
    CloseB();
    var w := Closed(CYCLE, "b", 1, TOLD_A);
    CloseA(w);
    assert Met(CYCLE, "a", 0, STARTED) == MET_A;
    assert VisitedNew(CYCLE, "a", 0, STARTED) == Closed(CYCLE, "a", 0, w);
    assert OpenedFirst(CYCLE, ["a"], 0) == STARTED;
    assert w.groups + [Group(Some("a"), ["b"])] == [Group(None, ["a"]), Group(Some("b"), ["a"]), Group(Some("a"), ["b"])];
  }

  lemma AloneLeads(st: map<Id, Standing>, x: Id, y: Id)
    requires x in st && st[x].grade > 0
    ensures Leads(st, [x], y) <==> y == x
  {
    assert [x][0] == x && LeadsAt(st, [x], 0);
  }

  lemma BothLead(st: map<Id, Standing>, x: Id)
    requires "a" in st && "b" in st && st["a"].grade > 0 && st["b"].grade > 0
    ensures var groups := [Group(None, ["a"]), Group(Some("b"), ["a"]), Group(Some("a"), ["b"])];
            IsLead(st, groups, x) <==> x == "a" || x == "b"
  {
    var groups := [Group(None, ["a"]), Group(Some("b"), ["a"]), Group(Some("a"), ["b"])];
    AloneLeads(st, "a", x);
    AloneLeads(st, "b", x);
    assert groups[0].members == ["a"] && groups[1].members == ["a"] && groups[2].members == ["b"];
    assert x == "a" ==> Leads(st, groups[0].members, x);
    assert x == "b" ==> Leads(st, groups[2].members, x);
  }

  lemma EachBelowTheOther(leads: set<Id>, parent: map<Id, Id>)
    requires leads == {"a", "b"} && parent == TOLD_A.parent
    ensures IsLeaderCycle(leads, parent, map["a" := "b", "b" := "a"])
  {
  }

  /** Opened, each leads under the other: no chain of leaders from the top ever ends. */
  lemma CycleNeverEnds(leads: set<Id>, chain: seq<Id>)
    requires IsGraph(CYCLE) && AllKnown(CYCLE, ["a"])
    requires var w := Opened(CYCLE, ["a"]); forall x :: x in leads <==> IsLead(w.st, w.groups, x)
    requires IsLeaderChain(leads, Opened(CYCLE, ["a"]).parent, chain) && chain != [] && chain[0] == "a"
    ensures leads == {"a", "b"} && !Ends(leads, Opened(CYCLE, ["a"]).parent, chain)
  {
    OpenCycle();
    var w := Opened(CYCLE, ["a"]);
    forall x
      ensures x in leads <==> x == "a" || x == "b"
    {
      BothLead(w.st, x);
    }
    EachBelowTheOther(leads, w.parent);
    NoEndOnACycle(leads, w.parent, map["a" := "b", "b" := "a"], chain);
  }
}
