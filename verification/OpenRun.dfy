/** The walk of `open` as it runs, updating its rows, standings, parents and groups. */
module OpenRun {
  import opened Base
  import opened Knowledge
  import opened Standings
  import opened OpenWalk
  import opened OpenTheorems
  import opened OpenRows
  import opened Ranking

  /** Some claim newly met is one whose `status` raises. */
  ghost predicate MeetsRaising(before: set<Id>, after: set<Id>, raising: set<Id>) {
    exists c :: c in after && c !in before && c in raising
  }

  lemma MeetsInTwo(a: set<Id>, b: set<Id>, c: set<Id>, raising: set<Id>)
    requires a <= b <= c
    ensures MeetsRaising(a, c, raising) <==> MeetsRaising(a, b, raising) || MeetsRaising(b, c, raising)
  {
  }

  /** One more sub-cause visited: what that says of the whole loop. */
  lemma UnderMeets(g: Graph, cid: Id, depth: nat, k: nat, w: Walk, raising: set<Id>)
    requires IsGraph(g) && cid in g.own && k < |g.common[cid]| && Fits(g, w)
    requires !MeetsRaising(w.seen, VisitedUnder(g, cid, depth, k, w).seen, raising)
    ensures var before, after := VisitedUnder(g, cid, depth, k, w).seen, VisitedUnder(g, cid, depth, k + 1, w).seen;
            && (MeetsRaising(before, after, raising)
                ==> MeetsRaising(w.seen, VisitedUnder(g, cid, depth, |g.common[cid]|, w).seen, raising))
            && (!MeetsRaising(before, after, raising) ==> !MeetsRaising(w.seen, after, raising))
  {
    UnderStep(g, cid, depth, k, w);
    UnderGrows(g, cid, depth, k + 1, |g.common[cid]|, w);
    var before, after := VisitedUnder(g, cid, depth, k, w).seen, VisitedUnder(g, cid, depth, k + 1, w).seen;
    MeetsInTwo(w.seen, before, after, raising);
    MeetsInTwo(w.seen, after, VisitedUnder(g, cid, depth, |g.common[cid]|, w).seen, raising);
  }

  class Walker {
    const g: Graph
    const raising: set<Id>
    var seen: set<Id>
    var rows: seq<Row>
    var st: map<Id, Standing>
    var parent: map<Id, Id>
    var groups: seq<Group>

    ghost function State(): Walk
      reads this
    {
      Walk(seen, rows, st, parent, groups)
    }

    constructor (g: Graph, raising: set<Id>, cands: seq<Id>)
      ensures this.g == g && this.raising == raising
      ensures State() == Walk({}, [], map[], map[], [Group(None, cands)])
    {
      this.g, this.raising := g, raising;
      seen, rows, st, parent, groups := {}, [], map[], map[], [Group(None, cands)];
    }

    /** The visit of a claim; it ends at once when the `status` of a claim raises. */
    method Visit(cid: Id, depth: nat) returns (raised: bool)
      requires IsGraph(g) && cid in g.own && Fits(g, State()) && RowsSeen(State())
      modifies this
      ensures raised == MeetsRaising(old(seen), Visited(g, cid, depth, old(State())).seen, raising)
      ensures !raised ==> State() == Visited(g, cid, depth, old(State())) && RowsSeen(State())
      decreases g.own.Keys - seen, 1
    {
      VisitKeepsRows(g, cid, depth, State());
      if cid in seen {
        return false;
      }
      ghost var w := State();
      seen := seen + {cid};
      if cid in raising {
        return true;
      }
      st := st[cid := g.own[cid]];
      rows := rows + [Row(depth, cid, g.own[cid])];
      raised := false;
      if !IsDead(g.own[cid]) {
        VisitKeepsRowsOf(cid, depth, w);
        raised := VisitSubCauses(cid, depth);
        if !raised {
          Close(cid, depth);
        }
      }
    }

    lemma VisitKeepsRowsOf(cid: Id, depth: nat, w: Walk)
      requires IsGraph(g) && cid in g.own && cid !in w.seen && Fits(g, w) && RowsSeen(w)
      ensures RowsSeen(Met(g, cid, depth, w))
      ensures var r := VisitedUnder(g, cid, depth, |g.common[cid]|, Met(g, cid, depth, w));
              RowsSeen(r) && FindRow(r.rows, cid).Some?
    {
      var w1, n := Met(g, cid, depth, w), |g.common[cid]|;
      UnderKeepsRows(g, cid, depth, n, w1);
      FindRowAppend(w.rows, Row(depth, cid, g.own[cid]), cid);
      FindRowPrefix(VisitedUnder(g, cid, depth, n, w1).rows, |w1.rows|, cid);
    }

    method VisitSub(cid: Id, sub: Id, depth: nat) returns (raised: bool)
      requires IsGraph(g) && sub in g.own && Fits(g, State()) && RowsSeen(State())
      modifies this
      ensures var r := Visited(g, sub, depth + 1, WithParent(old(State()), sub, cid));
              && raised == MeetsRaising(old(seen), r.seen, raising)
              && (!raised ==> State() == r && RowsSeen(State()))
      decreases g.own.Keys - seen, 2
    {
      if sub !in parent {
        parent := parent[sub := cid];
      }
      raised := Visit(sub, depth + 1);
    }

    /** The loop over the common sub-causes. */
    method VisitSubCauses(cid: Id, depth: nat) returns (raised: bool)
      requires IsGraph(g) && cid in g.own && cid in seen && Fits(g, State()) && RowsSeen(State())
      modifies this
      ensures raised == MeetsRaising(old(seen), VisitedUnder(g, cid, depth, |g.common[cid]|, old(State())).seen, raising)
      ensures !raised ==> State() == VisitedUnder(g, cid, depth, |g.common[cid]|, old(State()))
      decreases g.own.Keys - seen, 3
    {
      var common := g.common[cid];
      ghost var w := State();
      for k := 0 to |common|
        invariant State() == VisitedUnder(g, cid, depth, k, w)
        invariant w.seen <= seen && RowsSeen(State()) && !MeetsRaising(w.seen, seen, raising)
      {
        UnderStep(g, cid, depth, k, w);
        UnderMeets(g, cid, depth, k, w, raising);
        var stopped := VisitSub(cid, common[k], depth);
        if stopped {
          return true;
        }
      }
      raised := false;
    }

    method Close(cid: Id, depth: nat)
      requires IsGraph(g) && cid in g.own && cid in seen && Fits(g, State()) && FindRow(rows, cid).Some?
      modifies this
      ensures State() == Closed(g, cid, depth, old(State()))
    {
      var common, rare := g.common[cid], g.rare[cid];
      if common != [] {
        groups := groups + [Group(Some(cid), Under(common, parent, cid))];
      }
      if rare != [] {
        FindRowAppend(rows, Held(depth + 1, rare), cid);
        rows := rows + [Held(depth + 1, rare)];
      }
      var best := BestOf(st, common, |common|);
      if best.Some? && st[best.value].grade > g.own[cid].grade {
        var here := Standing(GradeName(st[best.value].grade), st[best.value].grade, [], g.own[cid].against, best);
        st := st[cid := here];
        var index := FindRow(rows, cid);
        rows := rows[index.value := Row(depth, cid, here)];
      }
    }
  }

  /** The walk over all of a symptom's candidates, ready to be ranked; none when the
      `status` of a claim it meets raises. */
  method Open(g: Graph, raising: set<Id>, cands: seq<Id>) returns (w: Option<Walk>)
    requires IsGraph(g) && AllKnown(g, cands)
    ensures w.None? <==> MeetsRaising({}, Opened(g, cands).seen, raising)
    ensures w.Some? ==> w.value == Opened(g, cands)
    ensures w.Some? && Acyclic(g) ==> Coherent(g, cands, w.value)
  {
    var walker := new Walker(g, raising, cands);
    for n := 0 to |cands|
      invariant walker.g == g && walker.raising == raising
      invariant walker.State() == OpenedFirst(g, cands, n) && RowsSeen(walker.State())
      invariant !MeetsRaising({}, walker.seen, raising)
    {
      var stopped := walker.Visit(cands[n], 0);
      if stopped {
        OpenGrows(g, cands, n + 1, |cands|);
        return None;
      }
    }
    if Acyclic(g) {
      OpenedCoherent(g, cands);
    }
    return Some(Walk(walker.seen, walker.rows, walker.st, walker.parent, walker.groups));
  }
}
