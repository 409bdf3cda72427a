/**
 `open`: the depth-first walk over a symptom's candidates and, through live claims, their
 common sub-causes. It gives every claim it meets one row and one standing, lifts a claim
 to the support of its best sub-cause, and remembers who each claim was first met under.
 */
module OpenWalk {
  import opened Base
  import opened Knowledge
  import opened Standings

  /** What the walk reads of the knowledge and the facts: each claim's own standing, and
      its sub-causes, common and uncommon. */
  datatype Graph = Graph(own: map<Id, Standing>, common: map<Id, seq<Id>>, rare: map<Id, seq<Id>>)

  predicate IsGraph(g: Graph) {
    && g.common.Keys == g.own.Keys && g.rare.Keys == g.own.Keys
    && (forall c, i :: c in g.common && 0 <= i < |g.common[c]| ==> g.common[c][i] in g.own)
    && (forall c :: c in g.own ==> g.own[c].grade <= 3 && (IsDead(g.own[c]) ==> g.own[c].grade == 0))
  }

  /** A claim's row, or the note of the uncommon sub-causes held back. */
  datatype Row = Row(depth: nat, cid: Id, standing: Standing) | Held(depth: nat, rare: seq<Id>)

  /** The candidates (`of` is none), or a claim's sub-causes first met under it. */
  datatype Group = Group(of_: Option<Id>, members: seq<Id>)

  datatype Walk = Walk(
    seen: set<Id>,
    rows: seq<Row>,
    st: map<Id, Standing>,
    parent: map<Id, Id>,
    groups: seq<Group>)

  /** The index of a claim's row: the first that is its. */
  function FindRow(rows: seq<Row>, cid: Id): (i: Option<nat>)
    ensures i.Some? ==> i.value < |rows| && rows[i.value].Row? && rows[i.value].cid == cid
  {
    if rows == [] then None
    else
      var last := |rows| - 1;
      var i := FindRow(rows[..last], cid);
      if i.Some? then i
      else if rows[last].Row? && rows[last].cid == cid then Some(last) else None
  }

  // ------------------------------------------------------------------ a sub-cause's support

  /** Python's order on strings. */
  predicate Precedes(a: string, b: string) {
    if b == "" then false
    else if a == "" then true
    else a[0] < b[0] || (a[0] == b[0] && Precedes(a[1..], b[1..]))
  }

  /** `(grade, name)` of `x` is above that of `y`. */
  predicate Outranks(st: map<Id, Standing>, x: Id, y: Id)
    requires x in st && y in st
  {
    st[x].grade > st[y].grade || (st[x].grade == st[y].grade && Precedes(y, x))
  }

  /** The best supported of the first `n` claims that has a standing. */
  function BestOf(st: map<Id, Standing>, xs: seq<Id>, n: nat): (b: Option<Id>)
    requires n <= |xs|
    ensures b.Some? ==> b.value in st
  {
    if n == 0 then None
    else
      var b := BestOf(st, xs, n - 1);
      if xs[n - 1] in st && (b.None? || Outranks(st, xs[n - 1], b.value)) then Some(xs[n - 1]) else b
  }

  /** A claim's standing, lifted to its best sub-cause's grade when that is higher. */
  function Lifted(own: Standing, st: map<Id, Standing>, common: seq<Id>): (s: Standing)
    requires forall x :: x in st ==> st[x].grade <= 3
    ensures s.grade >= own.grade && (own.grade <= 3 ==> s.grade <= 3)
  {
    var b := BestOf(st, common, |common|);
    if b.Some? && st[b.value].grade > own.grade
    then Standing(GradeName(st[b.value].grade), st[b.value].grade, [], own.against, b) else own
  }

  // ------------------------------------------------------------------------------ the walk

  ghost predicate Fits(g: Graph, w: Walk) {
    && w.st.Keys == w.seen <= g.own.Keys
    && (forall c :: c in w.st ==> w.st[c].grade <= 3)
  }

  function Met(g: Graph, cid: Id, depth: nat, w: Walk): (r: Walk)
    requires IsGraph(g) && cid in g.own && Fits(g, w)
    ensures Fits(g, r) && r.seen == w.seen + {cid}
  {
    w.(seen := w.seen + {cid}, st := w.st[cid := g.own[cid]], rows := w.rows + [Row(depth, cid, g.own[cid])])
  }

  function WithParent(w: Walk, sub: Id, cid: Id): Walk {
    if sub in w.parent then w else w.(parent := w.parent[sub := cid])
  }

  /** The sub-causes whose parent is this claim. */
  function Under(subs: seq<Id>, parent: map<Id, Id>, cid: Id): seq<Id> {
    if subs == [] then []
    else
      var last := subs[|subs| - 1];
      Under(subs[..|subs| - 1], parent, cid) + if last in parent && parent[last] == cid then [last] else []
  }

  /** `rows[rows.index(cid)] = row`. */
  function SetRow(rows: seq<Row>, cid: Id, row: Row): (r: seq<Row>)
    ensures |r| == |rows|
  {
    match FindRow(rows, cid)
    case Some(i) => rows[i := row]
    case None => rows
  }

  /** The claim's sub-causes are done: its group, the uncommon ones held back, its lift. */
  function Closed(g: Graph, cid: Id, depth: nat, w: Walk): (r: Walk)
    requires IsGraph(g) && cid in w.seen && Fits(g, w)
    ensures Fits(g, r) && r.seen == w.seen && r.parent == w.parent
    ensures r.st == w.st[cid := r.st[cid]]
  {
    var common, rare := g.common[cid], g.rare[cid];
    var groups := if common != [] then w.groups + [Group(Some(cid), Under(common, w.parent, cid))] else w.groups;
    var rows := if rare != [] then w.rows + [Held(depth + 1, rare)] else w.rows;
    var here := Lifted(g.own[cid], w.st, common);
    if here.grade > g.own[cid].grade then
      w.(groups := groups, rows := SetRow(rows, cid, Row(depth, cid, here)), st := w.st[cid := here])
    else w.(groups := groups, rows := rows)
  }

  function Visited(g: Graph, cid: Id, depth: nat, w: Walk): (r: Walk)
    requires IsGraph(g) && cid in g.own && Fits(g, w)
    ensures Fits(g, r) && w.seen <= r.seen && cid in r.seen
    decreases g.own.Keys - w.seen, 1
  {
    if cid in w.seen then w else VisitedNew(g, cid, depth, w)
  }

  /** A claim not seen before, and everything below it. */
  function VisitedNew(g: Graph, cid: Id, depth: nat, w: Walk): (r: Walk)
    requires IsGraph(g) && cid in g.own && Fits(g, w) && cid !in w.seen
    ensures Fits(g, r) && w.seen <= r.seen && cid in r.seen
    decreases g.own.Keys - w.seen, 0
  {
    var w1 := Met(g, cid, depth, w);
    if IsDead(g.own[cid]) then w1
    else
      assert cid in (g.own.Keys - w.seen) && cid !in (g.own.Keys - w1.seen);
      Closed(g, cid, depth, VisitedUnder(g, cid, depth, |g.common[cid]|, w1))
  }

  /** The first `n` common sub-causes of a claim visited. */
  function VisitedUnder(g: Graph, cid: Id, depth: nat, n: nat, w: Walk): (r: Walk)
    requires IsGraph(g) && cid in g.own && n <= |g.common[cid]| && Fits(g, w)
    ensures Fits(g, r) && w.seen <= r.seen
    decreases g.own.Keys - w.seen, n + 2
  {
    if n == 0 then w
    else
      var before := VisitedUnder(g, cid, depth, n - 1, w);
      var sub := g.common[cid][n - 1];
      Visited(g, sub, depth + 1, WithParent(before, sub, cid))
  }

  ghost predicate AllKnown(g: Graph, cands: seq<Id>) {
    forall i :: 0 <= i < |cands| ==> cands[i] in g.own
  }

  function OpenedFirst(g: Graph, cands: seq<Id>, n: nat): (r: Walk)
    requires IsGraph(g) && AllKnown(g, cands) && n <= |cands|
    ensures Fits(g, r)
  {
    if n == 0 then Walk({}, [], map[], map[], [Group(None, cands)])
    else Visited(g, cands[n - 1], 0, OpenedFirst(g, cands, n - 1))
  }

  function Opened(g: Graph, cands: seq<Id>): (r: Walk)
    requires IsGraph(g) && AllKnown(g, cands)
    ensures Fits(g, r)
  {
    OpenedFirst(g, cands, |cands|)
  }

  lemma UnderStep(g: Graph, cid: Id, depth: nat, k: nat, w: Walk)
    requires IsGraph(g) && cid in g.own && k < |g.common[cid]| && Fits(g, w)
    ensures var before, sub := VisitedUnder(g, cid, depth, k, w), g.common[cid][k];
            && VisitedUnder(g, cid, depth, k + 1, w) == Visited(g, sub, depth + 1, WithParent(before, sub, cid))
            && w.seen <= before.seen <= VisitedUnder(g, cid, depth, k + 1, w).seen
  {
  }

  lemma {:induction false} UnderGrows(g: Graph, cid: Id, depth: nat, k: nat, n: nat, w: Walk)
    requires IsGraph(g) && cid in g.own && k <= n <= |g.common[cid]| && Fits(g, w)
    ensures VisitedUnder(g, cid, depth, k, w).seen <= VisitedUnder(g, cid, depth, n, w).seen
  {
    UnderHolds(g, cid, depth, k, n, w, VisitedUnder(g, cid, depth, k, w).seen);
  }

  /** What was met after `k` of the sub-causes is met after more. */
  lemma {:induction false} UnderHolds(g: Graph, cid: Id, depth: nat, k: nat, n: nat, w: Walk, seen: set<Id>)
    requires IsGraph(g) && cid in g.own && k <= n <= |g.common[cid]| && Fits(g, w)
    requires seen <= VisitedUnder(g, cid, depth, k, w).seen
    ensures seen <= VisitedUnder(g, cid, depth, n, w).seen
    decreases n - k
  {
    if k < n {
      UnderMore(g, cid, depth, k, w, seen);
      UnderHolds(g, cid, depth, k + 1, n, w, seen);
    }
  }

  lemma {:induction false} UnderMore(g: Graph, cid: Id, depth: nat, k: nat, w: Walk, seen: set<Id>)
    requires IsGraph(g) && cid in g.own && k < |g.common[cid]| && Fits(g, w)
    requires seen <= VisitedUnder(g, cid, depth, k, w).seen
    ensures seen <= VisitedUnder(g, cid, depth, k + 1, w).seen
  {
    UnderStep(g, cid, depth, k, w);
  }

  lemma {:induction false} OpenGrows(g: Graph, cands: seq<Id>, k: nat, n: nat)
    requires IsGraph(g) && AllKnown(g, cands) && k <= n <= |cands|
    ensures OpenedFirst(g, cands, k).seen <= OpenedFirst(g, cands, n).seen
  {
    if k < n {
      OpenGrows(g, cands, k, n - 1);
    }
  }

  /** Standings already given stay, and so do parents. */
  ghost predicate Extends(r: Walk, w: Walk) {
    && (forall c :: c in w.st ==> c in r.st && r.st[c] == w.st[c])
    && (forall x :: x in w.parent ==> x in r.parent && r.parent[x] == w.parent[x])
  }

  lemma ExtendsAll(a: Walk, b: Walk, c: Walk)
    requires Extends(b, a) && Extends(c, b)
    ensures Extends(c, a)
  {
  }

  lemma {:induction false} VisitExtends(g: Graph, cid: Id, depth: nat, w: Walk)
    requires IsGraph(g) && cid in g.own && Fits(g, w)
    ensures Extends(Visited(g, cid, depth, w), w)
    decreases g.own.Keys - w.seen, 0
  {
    if cid !in w.seen {
      var w1 := Met(g, cid, depth, w);
      if !IsDead(g.own[cid]) {
        assert cid in (g.own.Keys - w.seen) && cid !in (g.own.Keys - w1.seen);
        UnderExtends(g, cid, depth, |g.common[cid]|, w1);
      }
    }
  }

  lemma {:induction false} UnderExtends(g: Graph, cid: Id, depth: nat, n: nat, w: Walk)
    requires IsGraph(g) && cid in g.own && n <= |g.common[cid]| && Fits(g, w)
    ensures Extends(VisitedUnder(g, cid, depth, n, w), w)
    decreases g.own.Keys - w.seen, n + 2
  {
    if n > 0 {
      UnderExtends(g, cid, depth, n - 1, w);
      var before := VisitedUnder(g, cid, depth, n - 1, w);
      var sub := g.common[cid][n - 1];
      SubExtends(g, cid, depth, sub, before);
      ExtendsAll(w, before, VisitedUnder(g, cid, depth, n, w));
    }
  }

  lemma {:induction false} SubExtends(g: Graph, cid: Id, depth: nat, sub: Id, w: Walk)
    requires IsGraph(g) && sub in g.own && Fits(g, w)
    ensures Extends(Visited(g, sub, depth + 1, WithParent(w, sub, cid)), w)
    decreases g.own.Keys - w.seen, 1
  {
    var told := WithParent(w, sub, cid);
    assert Extends(told, w);
    VisitExtends(g, sub, depth + 1, told);
    ExtendsAll(w, told, Visited(g, sub, depth + 1, told));
  }
}
