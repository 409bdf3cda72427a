/**
 When the most likely cause `open` names is the candidates' own leader, told from the
 knowledge alone: from which claims are common sub-causes of which, and the order in which
 a symptom lists its candidates.
 */
module Overtaking {
  import opened Base
  import opened Knowledge
  import opened Refinement
  import opened Standings
  import opened OpenWalk
  import opened OpenTheorems
  import opened OpenRows
  import opened Ranking

  /** A trail from a candidate down to the one first listed at `i`, through no candidate
      listed before it. */
  ghost predicate TrailPast(common: Subs, cands: seq<Id>, i: nat, path: seq<Id>) {
    && i < |cands| && cands[i] !in cands[..i]
    && |path| > 1 && path[0] in cands && path[|path| - 1] == cands[i] && IsTrail(common, path)
    && forall j :: 0 <= j < |path| - 1 ==> path[j] !in cands[..i + 1]
  }

  /** `x` is listed, and `b` is not listed before it. */
  ghost predicate ListedFirst(xs: seq<Id>, x: Id, b: Id) {
    exists k :: 0 <= k < |xs| && xs[k] == x && b !in xs[..k]
  }

  ghost predicate ListedOnce(xs: seq<Id>, b: Id) {
    forall k, l :: 0 <= k < |xs| && 0 <= l < |xs| && xs[k] == b && xs[l] == b ==> k == l
  }

  /** Going down, each next claim is listed before the trail's end. */
  ghost predicate GoesDown(common: Subs, path: seq<Id>) {
    forall j :: 0 <= j < |path| - 2 ==>
      path[j] in common && ListedFirst(common[path[j]], path[j + 1], path[|path| - 1])
  }

  /** ... and the last lists the end just once. */
  ghost predicate Overtakes(common: Subs, cands: seq<Id>, i: nat, path: seq<Id>) {
    && TrailPast(common, cands, i, path) && GoesDown(common, path)
    && path[|path| - 2] in common && ListedOnce(common[path[|path| - 2]], cands[i])
  }

  ghost predicate CanBeOvertaken(common: Subs, cands: seq<Id>) {
    exists i, path :: Overtakes(common, cands, i, path)
  }

  lemma {:induction false} TrailFalls(g: Graph, rank: map<Id, nat>, path: seq<Id>, j: nat)
    requires IsGraph(g) && Ranked(g, rank) && IsTrail(g.common, path) && j < |path| - 1
    ensures path[j] in g.own && path[|path| - 1] in g.own && rank[path[|path| - 1]] < rank[path[j]]
    decreases |path| - j
  {
    assert path[j] in g.common && path[j + 1] in g.common[path[j]];
    var k :| 0 <= k < |g.common[path[j]]| && g.common[path[j]][k] == path[j + 1];
    if j + 1 < |path| - 1 {
      TrailFalls(g, rank, path, j + 1);
    }
  }

  // ------------------------------------------------------ where a parent can come from

  /** A trail from `from` to `to` through claims not met before. */
  ghost predicate NewTrail(g: Graph, path: seq<Id>, from: Id, to: Id, seen: set<Id>) {
    && |path| > 1 && path[0] == from && path[|path| - 1] == to
    && IsTrail(g.common, path) && GoesDown(g.common, path)
    && forall j :: 0 <= j < |path| - 1 ==> path[j] !in seen
  }

  /** A claim that gets a parent during a visit is below the claim visited, and the last of
      the trail down to it is that parent. */
  lemma {:induction false} VisitNewParent(g: Graph, cid: Id, depth: nat, w: Walk, x: Id) returns (path: seq<Id>)
    requires IsGraph(g) && cid in g.own && Fits(g, w)
    requires x !in w.parent && x in Visited(g, cid, depth, w).parent
    ensures NewTrail(g, path, cid, x, w.seen) && Visited(g, cid, depth, w).parent[x] == path[|path| - 2]
    decreases g.own.Keys - w.seen, 0
  {
    var w1 := Met(g, cid, depth, w);
    assert cid !in w.seen && !IsDead(g.own[cid]);
    assert cid in (g.own.Keys - w.seen) && cid !in (g.own.Keys - w1.seen);
    path := UnderNewParent(g, cid, depth, |g.common[cid]|, w1, x);
  }

  lemma {:induction false} UnderNewParent(g: Graph, cid: Id, depth: nat, n: nat, w: Walk, x: Id) returns (path: seq<Id>)
    requires IsGraph(g) && cid in g.own && n <= |g.common[cid]| && Fits(g, w)
    requires x !in w.parent && x in VisitedUnder(g, cid, depth, n, w).parent
    ensures IsBelow(g.common, path, cid, x, w.seen) && VisitedUnder(g, cid, depth, n, w).parent[x] == path[|path| - 2]
    decreases g.own.Keys - w.seen, n + 2
  {
    var before, sub := VisitedUnder(g, cid, depth, n - 1, w), g.common[cid][n - 1];
    if x in before.parent {
      path := UnderNewParent(g, cid, depth, n - 1, w, x);
      UnderParentKept(g, cid, depth, n, w, x);
    } else if x == sub {
      path := [cid, sub];
      UnderNewSub(g, cid, depth, n, w);
    } else {
      path := UnderDeeper(g, cid, depth, n, w, x);
    }
  }

  lemma {:induction false} UnderParentKept(g: Graph, cid: Id, depth: nat, n: nat, w: Walk, x: Id)
    requires IsGraph(g) && cid in g.own && 0 < n <= |g.common[cid]| && Fits(g, w)
    requires x in VisitedUnder(g, cid, depth, n - 1, w).parent
    ensures x in VisitedUnder(g, cid, depth, n, w).parent
    ensures VisitedUnder(g, cid, depth, n, w).parent[x] == VisitedUnder(g, cid, depth, n - 1, w).parent[x]
  {
    SubExtends(g, cid, depth, g.common[cid][n - 1], VisitedUnder(g, cid, depth, n - 1, w));
  }

  lemma {:induction false} UnderNewSub(g: Graph, cid: Id, depth: nat, n: nat, w: Walk)
    requires IsGraph(g) && cid in g.own && 0 < n <= |g.common[cid]| && Fits(g, w)
    requires g.common[cid][n - 1] !in VisitedUnder(g, cid, depth, n - 1, w).parent
    ensures var sub, r := g.common[cid][n - 1], VisitedUnder(g, cid, depth, n, w); sub in r.parent && r.parent[sub] == cid
  {
    var before, sub := VisitedUnder(g, cid, depth, n - 1, w), g.common[cid][n - 1];
    VisitExtends(g, sub, depth + 1, WithParent(before, sub, cid));
  }

  lemma {:induction false} UnderDeeper(g: Graph, cid: Id, depth: nat, n: nat, w: Walk, x: Id) returns (path: seq<Id>)
    requires IsGraph(g) && cid in g.own && 0 < n <= |g.common[cid]| && Fits(g, w) && x != g.common[cid][n - 1]
    requires x !in VisitedUnder(g, cid, depth, n - 1, w).parent && x in VisitedUnder(g, cid, depth, n, w).parent
    ensures IsBelow(g.common, path, cid, x, w.seen) && VisitedUnder(g, cid, depth, n, w).parent[x] == path[|path| - 2]
    decreases g.own.Keys - w.seen, n + 1
  {
    var before, sub := VisitedUnder(g, cid, depth, n - 1, w), g.common[cid][n - 1];
    UnderHaveParents(g, cid, depth, n - 1, w);
    SubIsListed(g, cid, n - 1, x, before.parent);
    assert g.own.Keys - before.seen <= g.own.Keys - w.seen;
    var rest := SubNewParent(g, cid, depth, sub, before, x);
    path := TrailFrom(g, cid, sub, rest, x, before.seen, w.seen);
  }

  lemma SubIsListed(g: Graph, cid: Id, k: nat, x: Id, parent: map<Id, Id>)
    requires cid in g.common && k < |g.common[cid]| && x !in parent
    requires forall i :: 0 <= i < k ==> g.common[cid][i] in parent
    ensures ListedFirst(g.common[cid], g.common[cid][k], x)
  {
    assert x !in g.common[cid][..k];
  }

  /** A trail from `cid`, on which all between it and `x` had not been met. */
  ghost predicate IsBelow(common: Subs, path: seq<Id>, cid: Id, x: Id, seen: set<Id>) {
    && |path| > 1 && path[0] == cid && path[|path| - 1] == x && IsTrail(common, path) && GoesDown(common, path)
    && forall j :: 0 < j < |path| - 1 ==> path[j] !in seen
  }

  lemma TrailFrom(g: Graph, cid: Id, sub: Id, rest: seq<Id>, x: Id, later: set<Id>, seen: set<Id>) returns (path: seq<Id>)
    requires NewTrail(g, rest, sub, x, later) && seen <= later && cid in g.common && sub in g.common[cid]
    requires ListedFirst(g.common[cid], sub, x)
    ensures IsBelow(g.common, path, cid, x, seen) && |path| > 2 && path[|path| - 2] == rest[|rest| - 2]
  {
    path := [cid] + rest;
    forall i | 0 <= i < |path| - 1
      ensures path[i] in g.common && path[i + 1] in g.common[path[i]] && (i > 0 ==> path[i] !in seen)
      ensures i < |path| - 2 ==> ListedFirst(g.common[path[i]], path[i + 1], x)
    {
      assert i > 0 ==> path[i] == rest[i - 1] && path[i + 1] == rest[i];
    }
  }

  lemma {:induction false} SubNewParent(g: Graph, cid: Id, depth: nat, sub: Id, w: Walk, x: Id) returns (path: seq<Id>)
    requires IsGraph(g) && sub in g.own && Fits(g, w) && x != sub
    requires x !in w.parent && x in Visited(g, sub, depth + 1, WithParent(w, sub, cid)).parent
    ensures NewTrail(g, path, sub, x, w.seen)
    ensures Visited(g, sub, depth + 1, WithParent(w, sub, cid)).parent[x] == path[|path| - 2]
    decreases g.own.Keys - w.seen, 1
  {
    path := VisitNewParent(g, sub, depth + 1, WithParent(w, sub, cid), x);
  }

  lemma {:induction false} ParentKept(g: Graph, cands: seq<Id>, x: Id, k: nat, n: nat)
    requires IsGraph(g) && AllKnown(g, cands) && k <= n <= |cands| && x in OpenedFirst(g, cands, k).parent
    ensures x in OpenedFirst(g, cands, n).parent
    ensures OpenedFirst(g, cands, n).parent[x] == OpenedFirst(g, cands, k).parent[x]
  {
    if k < n {
      ParentKept(g, cands, x, k, n - 1);
      VisitExtends(g, cands[n - 1], 0, OpenedFirst(g, cands, n - 1));
    }
  }

  lemma {:induction false} FirstParent(g: Graph, cands: seq<Id>, x: Id, lo: nat, hi: nat) returns (n: nat)
    requires IsGraph(g) && AllKnown(g, cands) && lo <= hi <= |cands|
    requires x !in OpenedFirst(g, cands, lo).parent && x in OpenedFirst(g, cands, hi).parent
    ensures lo <= n < hi
    ensures x !in OpenedFirst(g, cands, n).parent && x in OpenedFirst(g, cands, n + 1).parent
  {
    n := hi - 1;
    if x in OpenedFirst(g, cands, hi - 1).parent {
      n := FirstParent(g, cands, x, lo, hi - 1);
    }
  }

  // ------------------------------------------------------------------- rows at the top

  lemma RowsMoreCandidates(some: seq<Id>, more: seq<Id>, w: Walk)
    requires RowsOk(some, w) && forall x :: x in some ==> x in more
    ensures RowsOk(more, w)
  {
    forall i | 0 <= i < |w.rows| && w.rows[i].Row?
      ensures RowOk(more, w.rows, w.st, w.parent, i)
    {
      assert RowOk(some, w.rows, w.st, w.parent, i);
    }
  }

  /** A row at the top is one of the candidates' visited so far. */
  lemma {:induction false} FirstRows(g: Graph, cands: seq<Id>, n: nat)
    requires IsGraph(g) && AllKnown(g, cands) && n <= |cands|
    ensures RowsOk(cands[..n], OpenedFirst(g, cands, n))
  {
    if n > 0 {
      FirstRows(g, cands, n - 1);
      assert cands[..n] == cands[..n - 1] + [cands[n - 1]];
      RowsMoreCandidates(cands[..n - 1], cands[..n], OpenedFirst(g, cands, n - 1));
      OpenParents(g, cands, n - 1);
      OpenKeepsRows(g, cands, n - 1);
      VisitRows(g, cands[..n], cands[n - 1], 0, OpenedFirst(g, cands, n - 1));
    }
  }

  lemma {:induction false} OpenRowsExtend(g: Graph, cands: seq<Id>, k: nat, n: nat)
    requires IsGraph(g) && AllKnown(g, cands) && k <= n <= |cands|
    ensures RowsExtend(OpenedFirst(g, cands, n).rows, OpenedFirst(g, cands, k).rows)
  {
    if k < n {
      OpenRowsExtend(g, cands, k, n - 1);
      OpenKeepsRows(g, cands, n - 1);
      VisitKeepsRows(g, cands[n - 1], 0, OpenedFirst(g, cands, n - 1));
      RowsExtendTrans(OpenedFirst(g, cands, n).rows, OpenedFirst(g, cands, n - 1).rows, OpenedFirst(g, cands, k).rows);
    }
  }

  lemma FoundAgain(g: Graph, cands: seq<Id>, k: nat, x: Id)
    requires IsGraph(g) && AllKnown(g, cands) && k <= |cands| && FindRow(OpenedFirst(g, cands, k).rows, x).Some?
    ensures FindRow(Opened(g, cands).rows, x) == FindRow(OpenedFirst(g, cands, k).rows, x)
    ensures var r := FindRow(OpenedFirst(g, cands, k).rows, x).value;
            r < |Opened(g, cands).rows| && Opened(g, cands).rows[r] == OpenedFirst(g, cands, k).rows[r]
  {
    OpenRowsExtend(g, cands, k, |cands|);
    var rows, first := Opened(g, cands).rows, OpenedFirst(g, cands, k).rows;
    FindRowPrefix(rows, |first|, x);
    var r := FindRow(first, x).value;
    assert rows[..|first|][r] == rows[r];
  }

  lemma TopRowMet(g: Graph, cands: seq<Id>, i: nat, x: Id, r: nat)
    requires IsGraph(g) && AllKnown(g, cands) && i <= |cands|
    requires TopRow(Opened(g, cands).rows, r, x) && x in OpenedFirst(g, cands, i).seen
    ensures x in cands[..i]
  {
    var first, w := OpenedFirst(g, cands, i), Opened(g, cands);
    FirstRows(g, cands, i);
    OpenRowsFirst(g, cands, |cands|);
    assert RowOk(cands, w.rows, w.st, w.parent, r);
    FoundAgain(g, cands, i, x);
    assert RowOk(cands[..i], first.rows, first.st, first.parent, r);
  }

  /** A candidate whose row is at the top had not been met before its turn came. */
  lemma TopIsUnmet(g: Graph, cands: seq<Id>, i: nat, r: nat)
    requires IsGraph(g) && AllKnown(g, cands) && i < |cands| && cands[i] !in cands[..i]
    requires TopRow(Opened(g, cands).rows, r, cands[i])
    ensures cands[i] !in OpenedFirst(g, cands, i).seen
  {
    if cands[i] in OpenedFirst(g, cands, i).seen {
      TopRowMet(g, cands, i, cands[i], r);
      assert false;
    }
  }

  lemma NoParentYet(g: Graph, rank: map<Id, nat>, cands: seq<Id>, i: nat)
    requires IsGraph(g) && Ranked(g, rank) && AllKnown(g, cands) && i < |cands|
    requires cands[i] !in OpenedFirst(g, cands, i).seen
    ensures cands[i] !in OpenedFirst(g, cands, i + 1).parent
  {
    OpenParents(g, cands, i);
    if cands[i] in OpenedFirst(g, cands, i + 1).parent {
      var path := VisitNewParent(g, cands[i], 0, OpenedFirst(g, cands, i), cands[i]);
      TrailFalls(g, rank, path, 0);
      assert false;
    }
  }

  /** Whatever the standings, a candidate that overtakes is one the knowledge lets overtake:
      its parent came from a walk begun at a later candidate. */
  lemma OvertakingNeedsTrail(g: Graph, cands: seq<Id>)
    requires IsOpenable(g, cands) && Overtaken(g, cands, Opened(g, cands))
    ensures CanBeOvertaken(g.common, cands)
  {
    var w := Opened(g, cands);
    var r: nat, x :| TopRow(w.rows, r, x) && LeadsSiblings(g, w, x);
    OpenRowsFirst(g, cands, |cands|);
    assert RowOk(cands, w.rows, w.st, w.parent, r);
    var i := FirstListed(cands, x);
    TopIsUnmet(g, cands, i, r);
    var path := TrailOfParent(g, cands, i);
    LeaderListedOnce(w.st, g.common[w.parent[x]], w.parent, w.parent[x], x);
    assert Overtakes(g.common, cands, i, path);
  }

  /** Who leads the siblings under its parent is listed there once: else it is its own rival. */
  lemma LeaderListedOnce(st: map<Id, Standing>, subs: seq<Id>, parent: map<Id, Id>, q: Id, x: Id)
    requires x in parent && parent[x] == q && Leads(st, Under(subs, parent, q), x)
    ensures ListedOnce(subs, x)
  {
    var members := Under(subs, parent, q);
    forall k, l | 0 <= k < l < |subs| && subs[k] == x && subs[l] == x
      ensures false
    {
      var m, n := TwiceUnder(subs, parent, q, x, k, l);
    }
  }

  lemma {:induction false} TwiceUnder(subs: seq<Id>, parent: map<Id, Id>, q: Id, x: Id, k: nat, l: nat) returns (m: nat, n: nat)
    requires k < l < |subs| && subs[k] == x && subs[l] == x && x in parent && parent[x] == q
    ensures var members := Under(subs, parent, q); m < n < |members| && members[m] == x && members[n] == x
  {
    var last := |subs| - 1;
    var front := Under(subs[..last], parent, q);
    if l < last {
      m, n := TwiceUnder(subs[..last], parent, q, x, k, l);
    } else {
      UnderMembers(subs[..last], parent, q, x);
      assert subs[..last][k] == x;
      m :| 0 <= m < |front| && front[m] == x;
      n := |front|;
    }
  }

  lemma TrailOfParent(g: Graph, cands: seq<Id>, i: nat) returns (path: seq<Id>)
    requires IsOpenable(g, cands) && i < |cands| && cands[i] !in cands[..i]
    requires cands[i] !in OpenedFirst(g, cands, i).seen && cands[i] in Opened(g, cands).parent
    ensures TrailPast(g.common, cands, i, path) && GoesDown(g.common, path)
    ensures path[|path| - 2] == Opened(g, cands).parent[cands[i]]
  {
    var rank :| Ranked(g, rank);
    NoParentYet(g, rank, cands, i);
    var n := FirstParent(g, cands, cands[i], i + 1, |cands|);
    path := TrailOfWalk(g, cands, i, n);
    ParentKept(g, cands, cands[i], n + 1, |cands|);
  }

  lemma TrailOfWalk(g: Graph, cands: seq<Id>, i: nat, n: nat) returns (path: seq<Id>)
    requires IsGraph(g) && AllKnown(g, cands) && i < n < |cands| && cands[i] !in cands[..i]
    requires cands[i] !in OpenedFirst(g, cands, n).parent && cands[i] in OpenedFirst(g, cands, n + 1).parent
    ensures TrailPast(g.common, cands, i, path) && GoesDown(g.common, path)
    ensures path[|path| - 2] == OpenedFirst(g, cands, n + 1).parent[cands[i]]
  {
    path := VisitNewParent(g, cands[n], 0, OpenedFirst(g, cands, n), cands[i]);
    TrailMisses(g, cands, i, n, path);
  }

  lemma TrailMisses(g: Graph, cands: seq<Id>, i: nat, n: nat, path: seq<Id>)
    requires IsGraph(g) && AllKnown(g, cands) && i < n <= |cands|
    requires forall j :: 0 <= j < |path| - 1 ==> path[j] !in OpenedFirst(g, cands, n).seen
    ensures forall j :: 0 <= j < |path| - 1 ==> path[j] !in cands[..i + 1]
  {
    forall j | 0 <= j < |path| - 1
      ensures path[j] !in cands[..i + 1]
    {
      NotListedBefore(g, cands, i, n, path[j]);
    }
  }

  lemma NotListedBefore(g: Graph, cands: seq<Id>, i: nat, n: nat, c: Id)
    requires IsGraph(g) && AllKnown(g, cands) && i < n <= |cands| && c !in OpenedFirst(g, cands, n).seen
    ensures c !in cands[..i + 1]
  {
    var listed := cands[..i + 1];
    if c in listed {
      var k :| 0 <= k < |listed| && listed[k] == c;
      OpenGrows(g, cands, k + 1, n);
      assert false;
    }
  }

  lemma {:induction false} FirstListed(cands: seq<Id>, x: Id) returns (i: nat)
    requires x in cands
    ensures i < |cands| && cands[i] == x && x !in cands[..i]
  {
    var last := |cands| - 1;
    if x in cands[..last] {
      i := FirstListed(cands[..last], x);
      assert cands[..last][..i] == cands[..i];
    } else {
      assert cands == cands[..last] + [cands[last]];
      i := last;
    }
  }

  // ------------------------------------------------------------------ a shortest trail

  ghost predicate IsShortest(common: Subs, cands: seq<Id>, i: nat, path: seq<Id>) {
    forall other :: Overtakes(common, cands, i, other) ==> |path| <= |other|
  }

  lemma {:induction false} ShortestTrail(common: Subs, cands: seq<Id>, i: nat, path: seq<Id>) returns (short: seq<Id>)
    requires Overtakes(common, cands, i, path)
    ensures Overtakes(common, cands, i, short) && IsShortest(common, cands, i, short)
    decreases |path|
  {
    if other :| Overtakes(common, cands, i, other) && |other| < |path| {
      short := ShortestTrail(common, cands, i, other);
    } else {
      short := path;
    }
  }

  lemma StartLater(common: Subs, cands: seq<Id>, i: nat, path: seq<Id>, j: nat)
    requires Overtakes(common, cands, i, path) && 0 < j < |path| - 1 && path[j] in cands
    ensures Overtakes(common, cands, i, path[j..])
  {
    var late := path[j..];
    forall k | 0 <= k < |late| - 1
      ensures late[k] in common && late[k + 1] in common[late[k]] && late[k] !in cands[..i + 1]
      ensures k < |late| - 2 ==> ListedFirst(common[late[k]], late[k + 1], late[|late| - 1])
    {
      assert late[k] == path[j + k] && late[k + 1] == path[j + k + 1];
      assert Refines(common, path[j + k], path[j + k + 1]);
    }
  }

  /** On a shortest trail only the first is a candidate, but for its end. */
  lemma StartsLast(common: Subs, cands: seq<Id>, i: nat, path: seq<Id>, j: nat)
    requires Overtakes(common, cands, i, path) && IsShortest(common, cands, i, path) && 0 < j < |path| - 1
    ensures path[j] !in cands
  {
    if path[j] in cands {
      StartLater(common, cands, i, path, j);
    }
  }

  lemma SkipSome(common: Subs, cands: seq<Id>, i: nat, path: seq<Id>, j: nat, l: nat)
    requires Overtakes(common, cands, i, path) && j + 1 < l < |path| - 1
    requires path[j] in common && ListedFirst(common[path[j]], path[l], cands[i])
    ensures Overtakes(common, cands, i, path[..j + 1] + path[l..])
  {
    var short := path[..j + 1] + path[l..];
    forall k | 0 <= k < |short| - 1
      ensures short[k] in common && short[k + 1] in common[short[k]] && short[k] !in cands[..i + 1]
      ensures k < |short| - 2 ==> ListedFirst(common[short[k]], short[k + 1], short[|short| - 1])
    {
      if k < j {
        assert short[k] == path[k] && short[k + 1] == path[k + 1] && Refines(common, path[k], path[k + 1]);
      } else if k > j {
        assert short[k] == path[k + l - j - 1] && short[k + 1] == path[k + l - j];
        assert Refines(common, path[k + l - j - 1], path[k + l - j]);
      }
    }
  }

  /** ... and none but the next is listed before the end. */
  lemma NextIsNext(common: Subs, cands: seq<Id>, i: nat, path: seq<Id>, j: nat, l: nat)
    requires Overtakes(common, cands, i, path) && IsShortest(common, cands, i, path) && j + 1 < l < |path| - 1
    ensures path[j] in common && !ListedFirst(common[path[j]], path[l], cands[i])
  {
    assert Refines(common, path[j], path[j + 1]);
    if ListedFirst(common[path[j]], path[l], cands[i]) {
      SkipSome(common, cands, i, path, j, l);
    }
  }

  // --------------------------------------------- where no claim lists a sub-cause twice

  ghost predicate Skips(common: Subs, path: seq<Id>, j: nat, l: nat) {
    j + 1 < l < |path| && path[j] in common && path[l] in common[path[j]]
  }

  lemma {:induction false} DirectTrail(common: Subs, cands: seq<Id>, i: nat, path: seq<Id>) returns (direct: seq<Id>)
    requires TrailPast(common, cands, i, path)
    ensures TrailPast(common, cands, i, direct) && forall j: nat, l: nat :: !Skips(common, direct, j, l)
    decreases |path|
  {
    if j: nat, l: nat :| Skips(common, path, j, l) {
      Shortcut(common, cands, i, path, j, l);
      direct := DirectTrail(common, cands, i, path[..j + 1] + path[l..]);
    } else {
      direct := path;
    }
  }

  lemma Shortcut(common: Subs, cands: seq<Id>, i: nat, path: seq<Id>, j: nat, l: nat)
    requires TrailPast(common, cands, i, path) && Skips(common, path, j, l)
    ensures TrailPast(common, cands, i, path[..j + 1] + path[l..])
  {
    var short := path[..j + 1] + path[l..];
    forall k | 0 <= k < |short| - 1
      ensures short[k] in common && short[k + 1] in common[short[k]] && short[k] !in cands[..i + 1]
    {
      if k < j {
        assert short[k] == path[k] && short[k + 1] == path[k + 1];
      } else if k > j {
        assert short[k] == path[k + l - j - 1] && short[k + 1] == path[k + l - j];
      }
    }
  }

  ghost predicate NoRepeats(common: Subs) {
    forall c :: c in common ==> NoDup(common[c])
  }

  /** There any trail will do, past all candidates listed before its end. */
  lemma AnyTrailWillDo(common: Subs, cands: seq<Id>)
    requires NoRepeats(common)
    ensures CanBeOvertaken(common, cands) <==> exists i, path :: TrailPast(common, cands, i, path)
  {
    if i, path :| TrailPast(common, cands, i, path) {
      var direct := DirectTrail(common, cands, i, path);
      var end := |direct| - 1;
      forall j | 0 <= j < end
        ensures direct[j] in common && (j < end - 1 ==> ListedFirst(common[direct[j]], direct[j + 1], direct[end]))
      {
        assert Refines(common, direct[j], direct[j + 1]);
        assert j < end - 1 ==> !Skips(common, direct, j, end);
        var k :| 0 <= k < |common[direct[j]]| && common[direct[j]][k] == direct[j + 1];
      }
      assert NoDup(common[direct[end - 1]]);
      assert Overtakes(common, cands, i, direct);
    }
  }
}
