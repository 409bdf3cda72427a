/**
 Whether the chain of leaders starts with the candidates' leader, for all standings at once.
 */
module HeadOfChain {
  import opened Base
  import opened Knowledge
  import opened Refinement
  import opened Standings
  import opened OpenWalk
  import opened OpenTheorems
  import opened OpenRows
  import opened Ranking
  import opened Overtaking

  // ------------------------------------------------------- grades along a rigged trail

  const BLOCKED := Standing(RuledOut, 0, [], [], None)

  /** The trail's end weak, the rest of it undecided, and everything else ruled out. */
  function Rigged(claims: set<Id>, path: seq<Id>): map<Id, Standing>
    requires path != []
  {
    map c | c in claims :: if c == path[|path| - 1] then WEAK else if c in path then OPEN else BLOCKED
  }

  lemma {:induction false} FinalAtMost(g: Graph, rank: map<Id, nat>, c: Id, top: nat)
    requires IsGraph(g) && Ranked(g, rank) && c in g.own && forall x :: x in g.own ==> g.own[x].grade <= top
    ensures FinalGrade(g, rank, c) <= top
    decreases rank[c], 1, 0
  {
    BestAtMost(g, rank, c, |g.common[c]|, top);
  }

  lemma {:induction false} BestAtMost(g: Graph, rank: map<Id, nat>, c: Id, n: nat, top: nat)
    requires IsGraph(g) && Ranked(g, rank) && c in g.own && n <= |g.common[c]|
    requires forall x :: x in g.own ==> g.own[x].grade <= top
    ensures BestGrade(g, rank, c, n) <= top
    decreases rank[c], 0, n
  {
    if n > 0 {
      BestAtMost(g, rank, c, n - 1, top);
      FinalAtMost(g, rank, g.common[c][n - 1], top);
    }
  }

  lemma {:induction false} BestCovers(g: Graph, rank: map<Id, nat>, c: Id, n: nat, i: nat)
    requires IsGraph(g) && Ranked(g, rank) && c in g.own && i < n <= |g.common[c]|
    ensures g.common[c][i] in g.own && FinalGrade(g, rank, g.common[c][i]) <= BestGrade(g, rank, c, n)
  {
    assert g.common[c][n - 1] in g.own;
    if i < n - 1 {
      BestCovers(g, rank, c, n - 1, i);
    }
  }

  /** A live trail's claims are all at least as well supported as its end. */
  lemma {:induction false} TrailLifts(g: Graph, rank: map<Id, nat>, path: seq<Id>, j: nat)
    requires IsGraph(g) && Ranked(g, rank) && IsTrail(g.common, path) && j < |path|
    requires path[|path| - 1] in g.own
    requires forall k :: 0 <= k < |path| - 1 ==> path[k] in g.own && !IsDead(g.own[path[k]])
    ensures path[j] in g.own && FinalGrade(g, rank, path[|path| - 1]) <= FinalGrade(g, rank, path[j])
    decreases |path| - j
  {
    if j < |path| - 1 {
      TrailLifts(g, rank, path, j + 1);
      assert path[j] in g.common && path[j + 1] in g.common[path[j]];
      var i :| 0 <= i < |g.common[path[j]]| && g.common[path[j]][i] == path[j + 1];
      BestCovers(g, rank, path[j], |g.common[path[j]]|, i);
    }
  }

  // ------------------------------------------------------------------- the rigged walk

  /** What is needed of the graph rigged for a shortest trail to the candidate at `i`. */
  ghost predicate IsRigged(g: Graph, rank: map<Id, nat>, cands: seq<Id>, i: nat, path: seq<Id>) {
    && IsGraph(g) && Ranked(g, rank) && AllKnown(g, cands)
    && Overtakes(g.common, cands, i, path) && IsShortest(g.common, cands, i, path)
    && g.own == Rigged(g.own.Keys, path)
  }

  lemma RiggedStanding(g: Graph, rank: map<Id, nat>, cands: seq<Id>, i: nat, path: seq<Id>, c: Id)
    requires IsRigged(g, rank, cands, i, path) && c in g.own
    ensures g.own[c] == if c == path[|path| - 1] then WEAK else if c in path then OPEN else BLOCKED
    ensures g.own[c].grade <= 1 && (IsDead(g.own[c]) <==> c !in path)
  {
  }

  lemma OnTrail(g: Graph, rank: map<Id, nat>, cands: seq<Id>, i: nat, path: seq<Id>, j: nat)
    requires IsRigged(g, rank, cands, i, path) && j < |path|
    ensures path[j] in g.own && !IsDead(g.own[path[j]])
    ensures j < |path| - 1 ==> path[j] != path[|path| - 1]
  {
    if j < |path| - 1 {
      TrailFalls(g, rank, path, j);
    } else {
      TrailFalls(g, rank, path, 0);
    }
    RiggedStanding(g, rank, cands, i, path, path[j]);
  }

  lemma RiggedGrade(g: Graph, rank: map<Id, nat>, cands: seq<Id>, i: nat, path: seq<Id>, c: Id)
    requires IsRigged(g, rank, cands, i, path) && c in g.own
    ensures FinalGrade(g, rank, c) <= 1
    ensures c in path ==> FinalGrade(g, rank, c) == 1
    ensures c !in path ==> FinalGrade(g, rank, c) == 0
  {
    forall x | x in g.own
      ensures g.own[x].grade <= 1
    {
      RiggedStanding(g, rank, cands, i, path, x);
    }
    FinalAtMost(g, rank, c, 1);
    RiggedStanding(g, rank, cands, i, path, c);
    if j :| 0 <= j < |path| && path[j] == c {
      RiggedTrailGrade(g, rank, cands, i, path, j);
    }
  }

  lemma RiggedTrailGrade(g: Graph, rank: map<Id, nat>, cands: seq<Id>, i: nat, path: seq<Id>, j: nat)
    requires IsRigged(g, rank, cands, i, path) && j < |path|
    ensures path[j] in g.own && FinalGrade(g, rank, path[j]) >= 1
  {
    forall k | 0 <= k < |path|
      ensures path[k] in g.own && !IsDead(g.own[path[k]])
    {
      OnTrail(g, rank, cands, i, path, k);
    }
    RiggedStanding(g, rank, cands, i, path, path[|path| - 1]);
    TrailLifts(g, rank, path, j);
  }

  /** Two candidates are at the top, so none leads. */
  lemma NobodyLeads(g: Graph, rank: map<Id, nat>, cands: seq<Id>, i: nat, path: seq<Id>, m: Id)
    requires IsRigged(g, rank, cands, i, path) && IsOpenable(g, cands)
    ensures !Leads(Opened(g, cands).st, cands, m)
  {
    var w := Opened(g, cands);
    OpenedSettled(g, cands);
    var p :| 0 <= p < |cands| && cands[p] == path[0];
    OnTrail(g, rank, cands, i, path, 0);
    forall j | 0 <= j < |cands|
      ensures cands[j] in w.seen && w.st[cands[j]].grade <= 1 && (cands[j] in path ==> w.st[cands[j]].grade == 1)
    {
      assert cands[j] in cands;
      OpenedGrades(g, rank, cands, cands[j]);
      RiggedGrade(g, rank, cands, i, path, cands[j]);
    }
    assert cands[i] in path && cands[p] in path && i != p;
  }

  lemma VisitDead(g: Graph, cid: Id, depth: nat, w: Walk)
    requires IsGraph(g) && cid in g.own && Fits(g, w) && IsDead(g.own[cid])
    ensures Visited(g, cid, depth, w).seen <= w.seen + {cid} && Visited(g, cid, depth, w).parent == w.parent
  {
    if cid !in w.seen {
      assert VisitedNew(g, cid, depth, w) == Met(g, cid, depth, w);
    }
  }

  lemma {:induction false} DeadFirst(g: Graph, cands: seq<Id>, n: nat)
    requires IsGraph(g) && AllKnown(g, cands) && n <= |cands|
    requires forall j :: 0 <= j < n ==> IsDead(g.own[cands[j]])
    ensures forall x :: x in OpenedFirst(g, cands, n).seen ==> x in cands[..n]
  {
    if n > 0 {
      DeadFirst(g, cands, n - 1);
      assert cands[..n] == cands[..n - 1] + [cands[n - 1]];
      VisitDead(g, cands[n - 1], 0, OpenedFirst(g, cands, n - 1));
    }
  }

  lemma CloseDepth(g: Graph, cid: Id, depth: nat, w: Walk)
    requires IsGraph(g) && cid in w.seen && Fits(g, w) && HasDepth(w.rows, cid, depth)
    ensures HasDepth(Closed(g, cid, depth, w).rows, cid, depth)
  {
    var held := Held(depth + 1, g.rare[cid]);
    FindRowAppend(w.rows, held, cid);
    var rows := if g.rare[cid] != [] then w.rows + [held] else w.rows;
    var here := Lifted(g.own[cid], w.st, g.common[cid]);
    FindRowUpdate(rows, FindRow(rows, cid).value, Row(depth, cid, here), cid);
  }

  lemma VisitHasDepth(g: Graph, cid: Id, depth: nat, w: Walk)
    requires IsGraph(g) && cid in g.own && Fits(g, w) && RowsSeen(w) && cid !in w.seen
    ensures HasDepth(Visited(g, cid, depth, w).rows, cid, depth)
  {
    var w1 := Met(g, cid, depth, w);
    FindRowNone(w.rows, cid);
    FindRowAppend(w.rows, Row(depth, cid, g.own[cid]), cid);
    assert HasDepth(w1.rows, cid, depth);
    if !IsDead(g.own[cid]) {
      UnderDepth(g, cid, depth, |g.common[cid]|, w1);
      CloseDepth(g, cid, depth, VisitedUnder(g, cid, depth, |g.common[cid]|, w1));
    }
  }

  /** The trail's end gets its row at the top: everything before it is ruled out. */
  lemma EndIsOnTop(g: Graph, rank: map<Id, nat>, cands: seq<Id>, i: nat, path: seq<Id>) returns (r: nat)
    requires IsRigged(g, rank, cands, i, path)
    ensures TopRow(Opened(g, cands).rows, r, cands[i])
  {
    forall j | 0 <= j < i
      ensures IsDead(g.own[cands[j]])
    {
      BeforeIsDead(g, rank, cands, i, path, j);
    }
    r := TopAfterDead(g, cands, i);
  }

  lemma TopAfterDead(g: Graph, cands: seq<Id>, i: nat) returns (r: nat)
    requires IsGraph(g) && AllKnown(g, cands) && i < |cands| && cands[i] !in cands[..i]
    requires forall j :: 0 <= j < i ==> IsDead(g.own[cands[j]])
    ensures TopRow(Opened(g, cands).rows, r, cands[i])
  {
    DeadFirst(g, cands, i);
    OpenKeepsRows(g, cands, i);
    VisitHasDepth(g, cands[i], 0, OpenedFirst(g, cands, i));
    FoundAgain(g, cands, i + 1, cands[i]);
    r := FindRow(Opened(g, cands).rows, cands[i]).value;
  }

  lemma BeforeIsDead(g: Graph, rank: map<Id, nat>, cands: seq<Id>, i: nat, path: seq<Id>, j: nat)
    requires IsRigged(g, rank, cands, i, path) && j < i
    ensures IsDead(g.own[cands[j]])
  {
    assert cands[..i][j] == cands[j] && cands[..i + 1][j] == cands[j];
    RiggedStanding(g, rank, cands, i, path, cands[j]);
  }

  // ---------------------------------------------- the walk goes down the trail to its end

  /** Sub-causes all ruled out leave nothing behind but themselves. */
  lemma {:induction false} DeadUnder(g: Graph, cid: Id, depth: nat, k: nat, w: Walk, b: Id)
    requires IsGraph(g) && cid in g.own && k <= |g.common[cid]| && Fits(g, w) && b !in w.parent
    requires forall m :: 0 <= m < k ==> g.common[cid][m] != b && IsDead(g.own[g.common[cid][m]])
    ensures var r := VisitedUnder(g, cid, depth, k, w); r.seen <= w.seen + Elements(g.common[cid][..k]) && b !in r.parent
  {
    if k > 0 {
      DeadUnder(g, cid, depth, k - 1, w, b);
      var before, sub := VisitedUnder(g, cid, depth, k - 1, w), g.common[cid][k - 1];
      DeadSub(g, cid, depth, sub, before, b);
      ElementsSnoc(g.common[cid], k);
    }
  }

  lemma DeadSub(g: Graph, cid: Id, depth: nat, sub: Id, w: Walk, b: Id)
    requires IsGraph(g) && sub in g.own && Fits(g, w) && IsDead(g.own[sub]) && sub != b && b !in w.parent
    ensures var r := Visited(g, sub, depth + 1, WithParent(w, sub, cid)); r.seen <= w.seen + {sub} && b !in r.parent
  {
    VisitDead(g, sub, depth + 1, WithParent(w, sub, cid));
  }

  lemma ElementsSnoc(xs: seq<Id>, k: nat)
    requires 0 < k <= |xs|
    ensures Elements(xs[..k]) == Elements(xs[..k - 1]) + {xs[k - 1]}
  {
    assert xs[..k] == xs[..k - 1] + [xs[k - 1]];
  }

  predicate HasParent(parent: map<Id, Id>, x: Id, p: Id) {
    x in parent && parent[x] == p
  }

  lemma {:induction false} UnderKeepsParent(g: Graph, cid: Id, depth: nat, k: nat, n: nat, w: Walk, x: Id, p: Id)
    requires IsGraph(g) && cid in g.own && k <= n <= |g.common[cid]| && Fits(g, w)
    requires HasParent(VisitedUnder(g, cid, depth, k, w).parent, x, p)
    ensures HasParent(VisitedUnder(g, cid, depth, n, w).parent, x, p)
    decreases n
  {
    if k < n {
      UnderKeepsParent(g, cid, depth, k, n - 1, w, x, p);
      UnderParentKept(g, cid, depth, n, w, x);
    }
  }

  /** Ranks fall along the trail. */
  lemma {:induction false} TrailRanks(g: Graph, rank: map<Id, nat>, cands: seq<Id>, i: nat, path: seq<Id>, a: nat, b: nat)
    requires IsRigged(g, rank, cands, i, path) && a < b < |path|
    ensures path[a] in g.own && path[b] in g.own && rank[path[b]] < rank[path[a]]
    decreases b - a
  {
    OnTrail(g, rank, cands, i, path, a);
    OnTrail(g, rank, cands, i, path, b);
    assert Refines(g.common, path[a], path[a + 1]);
    var k :| 0 <= k < |g.common[path[a]]| && g.common[path[a]][k] == path[a + 1];
    if a + 1 < b {
      TrailRanks(g, rank, cands, i, path, a + 1, b);
    }
  }

  /** The place where a claim of the trail first lists the next; the end is not before it. */
  lemma FirstPlace(xs: seq<Id>, x: Id, b: Id) returns (k: nat)
    requires ListedFirst(xs, x, b)
    ensures k < |xs| && xs[k] == x && x !in xs[..k] && b !in xs[..k]
  {
    var n: nat :| n < |xs| && xs[n] == x && b !in xs[..n];
    k := n;
    if x in xs[..n] {
      k := FirstListed(xs[..n], x);
      assert xs[..n][..k] == xs[..k];
    }
  }

  lemma EndPlace(xs: seq<Id>, b: Id) returns (k: nat)
    requires b in xs
    ensures k < |xs| && xs[k] == b && b !in xs[..k]
  {
    k := FirstListed(xs, b);
  }

  lemma PlaceOfNext(g: Graph, rank: map<Id, nat>, cands: seq<Id>, i: nat, path: seq<Id>, j: nat) returns (k: nat)
    requires IsRigged(g, rank, cands, i, path) && j < |path| - 1
    ensures path[j] in g.own && k < |g.common[path[j]]| && g.common[path[j]][k] == path[j + 1]
    ensures path[j + 1] !in g.common[path[j]][..k] && cands[i] !in g.common[path[j]][..k]
  {
    OnTrail(g, rank, cands, i, path, j);
    assert Refines(g.common, path[j], path[j + 1]);
    if j < |path| - 2 {
      k := FirstPlace(g.common[path[j]], path[j + 1], cands[i]);
    } else {
      k := EndPlace(g.common[path[j]], cands[i]);
    }
  }

  lemma PlacedFirst(xs: seq<Id>, m: nat, k: nat, b: Id)
    requires m < k <= |xs| && b !in xs[..k]
    ensures ListedFirst(xs, xs[m], b)
  {
    assert forall n :: 0 <= n < m ==> xs[..m][n] == xs[..k][n];
  }

  /** Before the next claim of the trail, all that is listed is ruled out. */
  lemma DeadBeforeNext(g: Graph, rank: map<Id, nat>, cands: seq<Id>, i: nat, path: seq<Id>, j: nat, k: nat, m: nat)
    requires IsRigged(g, rank, cands, i, path) && j < |path| - 1 && path[j] in g.own
    requires m < k < |g.common[path[j]]| && g.common[path[j]][k] == path[j + 1]
    requires path[j + 1] !in g.common[path[j]][..k] && cands[i] !in g.common[path[j]][..k]
    ensures g.common[path[j]][m] !in path && g.common[path[j]][m] in g.own && IsDead(g.own[g.common[path[j]][m]])
  {
    var xs := g.common[path[j]];
    assert xs[..k][m] == xs[m];
    assert rank[xs[m]] < rank[path[j]];
    PlacedFirst(xs, m, k, cands[i]);
    if l :| 0 <= l < |path| && path[l] == xs[m] {
      NotBeforeNext(g, rank, cands, i, path, j, l);
      assert false;
    }
    RiggedStanding(g, rank, cands, i, path, xs[m]);
  }

  lemma NotBeforeNext(g: Graph, rank: map<Id, nat>, cands: seq<Id>, i: nat, path: seq<Id>, j: nat, l: nat)
    requires IsRigged(g, rank, cands, i, path) && j < |path| - 1 && l < |path| && path[j] in g.own && path[l] in g.own
    requires rank[path[l]] < rank[path[j]] && ListedFirst(g.common[path[j]], path[l], cands[i])
    ensures path[l] == path[j + 1] || path[l] == cands[i]
  {
    if l < j {
      TrailRanks(g, rank, cands, i, path, l, j);
    } else if j + 1 < l < |path| - 1 {
      NextIsNext(g.common, cands, i, path, j, l);
    }
  }

  /** The next claim of a trail is listed at `k`, past claims ruled out that are not on it. */
  ghost predicate NextAt(g: Graph, path: seq<Id>, j: nat, k: nat)
    requires IsGraph(g) && j < |path| - 1 && path[j] in g.own
  {
    && k < |g.common[path[j]]| && g.common[path[j]][k] == path[j + 1]
    && forall m :: 0 <= m < k ==> g.common[path[j]][m] !in path && IsDead(g.own[g.common[path[j]][m]])
  }

  ghost predicate LeadsOn(g: Graph, path: seq<Id>, j: nat)
    requires IsGraph(g) && j < |path| - 1
  {
    path[j] in g.own && !IsDead(g.own[path[j]]) && exists k :: NextAt(g, path, j, k)
  }

  /** A live trail whose claims are each the first live one of it to be visited below the one before. */
  ghost predicate IsRunway(g: Graph, path: seq<Id>)
    requires IsGraph(g)
  {
    NoDup(path) && forall j :: 0 <= j < |path| - 1 ==> LeadsOn(g, path, j)
  }

  lemma RiggedIsRunway(g: Graph, rank: map<Id, nat>, cands: seq<Id>, i: nat, path: seq<Id>)
    requires IsRigged(g, rank, cands, i, path)
    ensures IsRunway(g, path)
  {
    RiggedNoDup(g, rank, cands, i, path);
    forall j | 0 <= j < |path| - 1
      ensures LeadsOn(g, path, j)
    {
      RiggedLeadsOn(g, rank, cands, i, path, j);
    }
  }

  lemma RiggedLeadsOn(g: Graph, rank: map<Id, nat>, cands: seq<Id>, i: nat, path: seq<Id>, j: nat)
    requires IsRigged(g, rank, cands, i, path) && j < |path| - 1
    ensures LeadsOn(g, path, j)
  {
    OnTrail(g, rank, cands, i, path, j);
    var k := RiggedNext(g, rank, cands, i, path, j);
  }

  lemma RiggedNoDup(g: Graph, rank: map<Id, nat>, cands: seq<Id>, i: nat, path: seq<Id>)
    requires IsRigged(g, rank, cands, i, path)
    ensures NoDup(path)
  {
    forall j, l | 0 <= j < l < |path|
      ensures path[j] != path[l]
    {
      TrailRanks(g, rank, cands, i, path, j, l);
    }
  }

  lemma RiggedNext(g: Graph, rank: map<Id, nat>, cands: seq<Id>, i: nat, path: seq<Id>, j: nat) returns (k: nat)
    requires IsRigged(g, rank, cands, i, path) && j < |path| - 1
    ensures path[j] in g.own && NextAt(g, path, j, k)
  {
    k := PlaceOfNext(g, rank, cands, i, path, j);
    forall m | 0 <= m < k
      ensures g.common[path[j]][m] !in path && IsDead(g.own[g.common[path[j]][m]])
    {
      DeadBeforeNext(g, rank, cands, i, path, j, k, m);
    }
  }

  /** None of the trail from `j` on has been met, but for its end, which has no parent. */
  ghost predicate Ahead(path: seq<Id>, j: nat, w: Walk)
    requires path != []
  {
    path[|path| - 1] !in w.parent && forall l :: j <= l < |path| - 1 ==> path[l] !in w.seen
  }

  /** A visit to a claim of the trail, with all below ahead, sets the end's parent. */
  lemma {:induction false} Descends(g: Graph, path: seq<Id>, j: nat, depth: nat, w: Walk)
    requires IsGraph(g) && Fits(g, w) && j < |path| - 1 && IsRunway(g, path) && Ahead(path, j, w)
    ensures path[j] in g.own
    ensures HasParent(Visited(g, path[j], depth, w).parent, path[|path| - 1], path[|path| - 2])
    decreases |path| - j, 2
  {
    assert LeadsOn(g, path, j);
    assert Ahead(path, j + 1, Met(g, path[j], depth, w));
    DescendsInto(g, path, j, depth, Met(g, path[j], depth, w));
    NewlyVisited(g, path[j], depth, w);
  }

  lemma {:induction false} DescendsInto(g: Graph, path: seq<Id>, j: nat, depth: nat, w: Walk)
    requires IsGraph(g) && Fits(g, w) && j < |path| - 1 && IsRunway(g, path) && Ahead(path, j + 1, w)
    ensures path[j] in g.own
    ensures HasParent(VisitedUnder(g, path[j], depth, |g.common[path[j]]|, w).parent, path[|path| - 1], path[|path| - 2])
    decreases |path| - j, 1
  {
    var cid := path[j];
    assert LeadsOn(g, path, j);
    var k: nat :| NextAt(g, path, j, k);
    UpToNext(g, path, j, depth, w, k);
    DescendsPast(g, path, j, depth, w, k);
    UnderKeepsParent(g, cid, depth, k + 1, |g.common[cid]|, w, path[|path| - 1], path[|path| - 2]);
  }

  lemma {:induction false} DescendsPast(g: Graph, path: seq<Id>, j: nat, depth: nat, w: Walk, k: nat)
    requires IsGraph(g) && Fits(g, w) && j < |path| - 1 && IsRunway(g, path)
    requires path[j] in g.own && NextAt(g, path, j, k) && Ahead(path, j + 1, VisitedUnder(g, path[j], depth, k, w))
    ensures HasParent(VisitedUnder(g, path[j], depth, k + 1, w).parent, path[|path| - 1], path[|path| - 2])
    decreases |path| - j, 0
  {
    if j == |path| - 2 {
      UnderNewSub(g, path[j], depth, k + 1, w);
    } else {
      var told := WithParent(VisitedUnder(g, path[j], depth, k, w), path[j + 1], path[j]);
      assert path[j + 1] != path[|path| - 1];
      Descends(g, path, j + 1, depth + 1, told);
    }
  }

  /** Up to the next claim of the trail nothing changes what is ahead. */
  lemma UpToNext(g: Graph, path: seq<Id>, j: nat, depth: nat, w: Walk, k: nat)
    requires IsGraph(g) && Fits(g, w) && j < |path| - 1 && path[j] in g.own && NextAt(g, path, j, k)
    requires Ahead(path, j + 1, w)
    ensures Ahead(path, j + 1, VisitedUnder(g, path[j], depth, k, w))
  {
    DeadUnder(g, path[j], depth, k, w, path[|path| - 1]);
    NoneAmong(path, g.common[path[j]], k);
  }

  lemma NoneAmong(path: seq<Id>, xs: seq<Id>, k: nat)
    requires k <= |xs| && forall m :: 0 <= m < k ==> xs[m] !in path
    ensures forall l :: 0 <= l < |path| ==> path[l] !in Elements(xs[..k])
  {
  }

  // ------------------------------------------------------ when the trail's start comes up

  lemma MetHasRow(g: Graph, cands: seq<Id>, n: nat, x: Id)
    requires IsGraph(g) && AllKnown(g, cands) && n <= |cands| && x in OpenedFirst(g, cands, n).seen
    ensures x in cands[..n] || x in OpenedFirst(g, cands, n).parent
  {
    var w := OpenedFirst(g, cands, n);
    FirstRows(g, cands, n);
    var r := FindRow(w.rows, x).value;
    assert RowOk(cands[..n], w.rows, w.st, w.parent, r);
  }

  /** Until then none of the trail has been met but its end. */
  lemma {:induction false} NotMetBefore(g: Graph, rank: map<Id, nat>, cands: seq<Id>, i: nat, path: seq<Id>, p: nat, l: nat)
    requires IsRigged(g, rank, cands, i, path) && l < |path| - 1
    requires p < |cands| && cands[p] == path[0] && path[0] !in cands[..p]
    ensures path[l] !in OpenedFirst(g, cands, p).seen
  {
    var w := OpenedFirst(g, cands, p);
    if path[l] in w.seen {
      MetHasRow(g, cands, p, path[l]);
      if l > 0 {
        StartsLast(g.common, cands, i, path, l);
      }
      assert path[l] !in cands[..p];
      var k := ParentOnTrail(g, rank, cands, i, path, p, l);
      NotMetBefore(g, rank, cands, i, path, p, k);
      assert false;
    }
  }

  /** A parent met so far of a claim of the trail is on the trail above it. */
  lemma ParentOnTrail(g: Graph, rank: map<Id, nat>, cands: seq<Id>, i: nat, path: seq<Id>, p: nat, l: nat) returns (k: nat)
    requires IsRigged(g, rank, cands, i, path) && l < |path| && p <= |cands|
    requires path[l] in OpenedFirst(g, cands, p).parent
    ensures k < l && path[k] == OpenedFirst(g, cands, p).parent[path[l]] && path[k] in OpenedFirst(g, cands, p).seen
  {
    var w := OpenedFirst(g, cands, p);
    OpenParents(g, cands, p);
    var q := w.parent[path[l]];
    assert ParentOf(g, w.seen, path[l], q);
    RiggedStanding(g, rank, cands, i, path, q);
    k :| 0 <= k < |path| && path[k] == q;
    var at :| 0 <= at < |g.common[q]| && g.common[q][at] == path[l];
    OnTrail(g, rank, cands, i, path, l);
    assert rank[path[l]] < rank[q];
    if l < k {
      TrailRanks(g, rank, cands, i, path, l, k);
    }
  }

  lemma TrailIsAhead(g: Graph, rank: map<Id, nat>, cands: seq<Id>, i: nat, path: seq<Id>, p: nat)
    requires IsRigged(g, rank, cands, i, path) && p < |cands| && cands[p] == path[0] && path[0] !in cands[..p]
    ensures Ahead(path, 0, OpenedFirst(g, cands, p))
  {
    var w := OpenedFirst(g, cands, p);
    forall l | 0 <= l < |path| - 1
      ensures path[l] !in w.seen
    {
      NotMetBefore(g, rank, cands, i, path, p, l);
    }
    if path[|path| - 1] in w.parent {
      var k := ParentOnTrail(g, rank, cands, i, path, p, |path| - 1);
    }
  }

  /** Its parent is the claim before it on the trail. */
  lemma EndHasParent(g: Graph, rank: map<Id, nat>, cands: seq<Id>, i: nat, path: seq<Id>)
    requires IsRigged(g, rank, cands, i, path)
    ensures HasParent(Opened(g, cands).parent, cands[i], path[|path| - 2])
  {
    var p := FirstListed(cands, path[0]);
    TrailIsAhead(g, rank, cands, i, path, p);
    RiggedIsRunway(g, rank, cands, i, path);
    RunwayEnds(g, cands, path, p);
  }

  lemma RunwayEnds(g: Graph, cands: seq<Id>, path: seq<Id>, p: nat)
    requires IsGraph(g) && AllKnown(g, cands) && |path| > 1 && IsRunway(g, path) && p < |cands| && cands[p] == path[0]
    requires Ahead(path, 0, OpenedFirst(g, cands, p))
    ensures HasParent(Opened(g, cands).parent, path[|path| - 1], path[|path| - 2])
  {
    Descends(g, path, 0, 0, OpenedFirst(g, cands, p));
    ParentKept(g, cands, path[|path| - 1], p + 1, |cands|);
  }

  lemma {:induction false} OnceUnder(subs: seq<Id>, parent: map<Id, Id>, cid: Id, x: Id)
    requires ListedOnce(subs, x)
    ensures ListedOnce(Under(subs, parent, cid), x)
  {
    if subs != [] {
      var front := subs[..|subs| - 1];
      assert forall k :: 0 <= k < |front| ==> front[k] == subs[k];
      OnceUnder(front, parent, cid, x);
      UnderMembers(front, parent, cid, x);
      var r := Under(front, parent, cid);
      assert forall k :: 0 <= k < |r| ==> r[k] in r;
    }
  }

  /** Under it the trail's end is alone in having support. */
  lemma SiblingsTrail(g: Graph, rank: map<Id, nat>, cands: seq<Id>, i: nat, path: seq<Id>, x: Id)
    requires IsRigged(g, rank, cands, i, path) && x in g.own
    requires x in g.common[path[|path| - 2]] && x != path[|path| - 1]
    ensures x !in path
  {
    var n := |path| - 2;
    OnTrail(g, rank, cands, i, path, n);
    var k :| 0 <= k < |g.common[path[n]]| && g.common[path[n]][k] == x;
    assert rank[x] < rank[path[n]];
    forall j | 0 <= j < n
      ensures path[j] in rank && rank[path[n]] < rank[path[j]]
    {
      TrailRanks(g, rank, cands, i, path, j, n);
    }
    NoneAbove(rank, path, x);
  }

  lemma NoneAbove(rank: map<Id, nat>, path: seq<Id>, x: Id)
    requires |path| > 1 && path[|path| - 2] in rank && x in rank && x != path[|path| - 1]
    requires rank[x] < rank[path[|path| - 2]]
    requires forall j :: 0 <= j < |path| - 2 ==> path[j] in rank && rank[path[|path| - 2]] < rank[path[j]]
    ensures x !in path
  {
  }

  lemma EndLeadsSiblings(g: Graph, rank: map<Id, nat>, cands: seq<Id>, i: nat, path: seq<Id>)
    requires IsRigged(g, rank, cands, i, path) && IsOpenable(g, cands)
    ensures LeadsSiblings(g, Opened(g, cands), cands[i])
  {
    var w, b, q := Opened(g, cands), cands[i], path[|path| - 2];
    OpenedCoherent(g, cands);
    EndHasParent(g, rank, cands, i, path);
    OnTrail(g, rank, cands, i, path, |path| - 2);
    assert Refines(g.common, q, b);
    var members := Under(g.common[q], w.parent, q);
    OnceUnder(g.common[q], w.parent, q, b);
    forall k | 0 <= k < |members|
      ensures members[k] in w.st && w.st[members[k]].grade == if members[k] == b then 1 else 0
    {
      assert members[k] in members;
      UnderMembers(g.common[q], w.parent, q, members[k]);
      assert ParentOf(g, w.seen, members[k], q);
      OpenedGrades(g, rank, cands, members[k]);
      RiggedGrade(g, rank, cands, i, path, members[k]);
      if members[k] != b {
        SiblingsTrail(g, rank, cands, i, path, members[k]);
      }
    }
    UnderMembers(g.common[q], w.parent, q, b);
    var at :| 0 <= at < |members| && members[at] == b;
    assert LeadsAt(w.st, members, at);
  }

  lemma RiggedIsOvertaken(g: Graph, rank: map<Id, nat>, cands: seq<Id>, i: nat, path: seq<Id>)
    requires IsRigged(g, rank, cands, i, path) && IsOpenable(g, cands)
    ensures Overtaken(g, cands, Opened(g, cands))
  {
    var w := Opened(g, cands);
    var r := EndIsOnTop(g, rank, cands, i, path);
    EndLeadsSiblings(g, rank, cands, i, path);
    forall j: nat, m | j < r && TopRow(w.rows, j, m)
      ensures !Leads(w.st, cands, m)
    {
      NobodyLeads(g, rank, cands, i, path, m);
    }
  }

  // ------------------------------------------------------------------- for all standings

  ghost function LeadersOf(w: Walk): (leads: set<Id>)
    ensures forall x :: x in leads <==> IsLead(w.st, w.groups, x)
  {
    set x | x in w.st.Keys && IsLead(w.st, w.groups, x)
  }

  /** The chain starts with the candidates' leader, and there is a chain only if they have one. */
  ghost predicate HeadIsLeader(g: Graph, cands: seq<Id>)
    requires IsGraph(g) && AllKnown(g, cands)
  {
    var w := Opened(g, cands);
    forall m :: HeadRow(w.rows, LeadersOf(w), |w.rows|) == Some(m) <==> Leads(w.st, cands, m)
  }

  /** These standings could be the claims' own. */
  ghost predicate CouldStand(g: Graph, own: map<Id, Standing>) {
    own.Keys == g.own.Keys && IsGraph(g.(own := own))
  }

  lemma RestoodOpenable(g: Graph, own: map<Id, Standing>, cands: seq<Id>)
    requires IsOpenable(g, cands) && CouldStand(g, own)
    ensures IsOpenable(g.(own := own), cands)
  {
    var rank :| Ranked(g, rank);
    assert Ranked(g.(own := own), rank);
  }

  lemma RiggedCouldStand(g: Graph, path: seq<Id>)
    requires IsGraph(g) && path != []
    ensures CouldStand(g, Rigged(g.own.Keys, path))
  {
  }

  lemma RiggedFails(g: Graph, cands: seq<Id>) returns (own: map<Id, Standing>)
    requires IsOpenable(g, cands) && CanBeOvertaken(g.common, cands)
    ensures CouldStand(g, own) && !HeadIsLeader(g.(own := own), cands)
  {
    var i, any :| Overtakes(g.common, cands, i, any);
    var path := ShortestTrail(g.common, cands, i, any);
    own := Rigged(g.own.Keys, path);
    RiggedCouldStand(g, path);
    RestoodOpenable(g, own, cands);
    var rank :| Ranked(g.(own := own), rank);
    RiggedHead(g.(own := own), rank, cands, i, path);
  }

  lemma RiggedHead(g: Graph, rank: map<Id, nat>, cands: seq<Id>, i: nat, path: seq<Id>)
    requires IsRigged(g, rank, cands, i, path) && IsOpenable(g, cands)
    ensures !HeadIsLeader(g, cands)
  {
    RiggedIsOvertaken(g, rank, cands, i, path);
    OpenedCoherent(g, cands);
    HeadExactly(g, cands, Opened(g, cands), LeadersOf(Opened(g, cands)));
  }

  lemma NeverOvertaken(g: Graph, own: map<Id, Standing>, cands: seq<Id>)
    requires IsOpenable(g, cands) && CouldStand(g, own) && !CanBeOvertaken(g.common, cands)
    ensures IsOpenable(g.(own := own), cands) && HeadIsLeader(g.(own := own), cands)
  {
    var g' := g.(own := own);
    RestoodOpenable(g, own, cands);
    OpenedCoherent(g', cands);
    if Overtaken(g', cands, Opened(g', cands)) {
      OvertakingNeedsTrail(g', cands);
      assert false;
    }
    HeadExactly(g', cands, Opened(g', cands), LeadersOf(Opened(g', cands)));
  }

  ghost predicate HeadAlwaysLeads(g: Graph, cands: seq<Id>)
    requires IsOpenable(g, cands)
  {
    forall own {:trigger CouldStand(g, own)} :: CouldStand(g, own) ==> HeadIsLeader(g.(own := own), cands)
  }

  /** Whatever the claims' own standings, the chain starts with the candidates' leader, exactly
      when no trail of common sub-causes goes down to a candidate from one listed after it, past
      every candidate listed before, each claim of it listing the next before the end, and the
      last listing the end once. */
  lemma HeadAlwaysLeadsExactly(g: Graph, cands: seq<Id>)
    requires IsOpenable(g, cands)
    ensures HeadAlwaysLeads(g, cands) <==> !CanBeOvertaken(g.common, cands)
  {
    if CanBeOvertaken(g.common, cands) {
      var own := RiggedFails(g, cands);
    } else {
      forall own | CouldStand(g, own)
        ensures HeadIsLeader(g.(own := own), cands)
      {
        NeverOvertaken(g, own, cands);
      }
    }
  }

  /** Where no claim lists a sub-cause twice, that is when no trail at all goes down there past
      the candidates listed before. */
  lemma HeadAlwaysLeadsWithoutRepeats(g: Graph, cands: seq<Id>)
    requires IsOpenable(g, cands) && NoRepeats(g.common)
    ensures HeadAlwaysLeads(g, cands) <==> !exists i, path :: TrailPast(g.common, cands, i, path)
  {
    HeadAlwaysLeadsExactly(g, cands);
    AnyTrailWillDo(g.common, cands);
  }
}
