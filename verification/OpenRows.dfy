/** The rows, parents and sibling groups the walk of `open` leaves behind. */
module OpenRows {
  import opened Base
  import opened Knowledge
  import opened Standings
  import opened OpenWalk

  // ------------------------------------------------------------------------------ parents

  /** `x` was first met under a live claim that has it among its common sub-causes. */
  ghost predicate ParentOf(g: Graph, seen: set<Id>, x: Id, p: Id) {
    p in seen && p in g.own && p in g.common && !IsDead(g.own[p]) && x in g.common[p]
  }

  /** Parents are claims met, of claims met, or of the one about to be. */
  ghost predicate ParentsOk(g: Graph, w: Walk, next: Id) {
    forall x {:trigger w.parent[x]} :: x in w.parent ==>
      (x in w.seen || x == next) && ParentOf(g, w.seen, x, w.parent[x])
  }

  ghost predicate ParentsMet(g: Graph, w: Walk) {
    forall x {:trigger w.parent[x]} :: x in w.parent ==> x in w.seen && ParentOf(g, w.seen, x, w.parent[x])
  }

  lemma {:induction false} VisitParents(g: Graph, cid: Id, depth: nat, w: Walk)
    requires IsGraph(g) && cid in g.own && Fits(g, w) && ParentsOk(g, w, cid)
    ensures ParentsMet(g, Visited(g, cid, depth, w))
    decreases g.own.Keys - w.seen, 0
  {
    if cid !in w.seen {
      var w1 := Met(g, cid, depth, w);
      if !IsDead(g.own[cid]) {
        assert cid in (g.own.Keys - w.seen) && cid !in (g.own.Keys - w1.seen);
        UnderParents(g, cid, depth, |g.common[cid]|, w1);
      }
    }
  }

  lemma {:induction false} UnderParents(g: Graph, cid: Id, depth: nat, n: nat, w: Walk)
    requires IsGraph(g) && cid in g.own && n <= |g.common[cid]| && Fits(g, w)
    requires cid in w.seen && !IsDead(g.own[cid]) && ParentsMet(g, w)
    ensures ParentsMet(g, VisitedUnder(g, cid, depth, n, w))
    decreases g.own.Keys - w.seen, n + 2
  {
    if n > 0 {
      UnderParents(g, cid, depth, n - 1, w);
      var before := VisitedUnder(g, cid, depth, n - 1, w);
      var sub := g.common[cid][n - 1];
      SubParents(g, cid, depth, sub, before);
    }
  }

  lemma {:induction false} SubParents(g: Graph, cid: Id, depth: nat, sub: Id, w: Walk)
    requires IsGraph(g) && sub in g.own && Fits(g, w) && ParentsMet(g, w) && ParentOf(g, w.seen, sub, cid)
    ensures ParentsMet(g, Visited(g, sub, depth + 1, WithParent(w, sub, cid)))
    decreases g.own.Keys - w.seen, 1
  {
    VisitParents(g, sub, depth + 1, WithParent(w, sub, cid));
  }

  lemma {:induction false} OpenParents(g: Graph, cands: seq<Id>, n: nat)
    requires IsGraph(g) && AllKnown(g, cands) && n <= |cands|
    ensures ParentsMet(g, OpenedFirst(g, cands, n))
  {
    if n > 0 {
      OpenParents(g, cands, n - 1);
      VisitParents(g, cands[n - 1], 0, OpenedFirst(g, cands, n - 1));
    }
  }

  /** Every sub-cause visited under a claim has some parent. */
  lemma {:induction false} UnderHaveParents(g: Graph, cid: Id, depth: nat, n: nat, w: Walk)
    requires IsGraph(g) && cid in g.own && n <= |g.common[cid]| && Fits(g, w)
    ensures var r := VisitedUnder(g, cid, depth, n, w);
            forall i :: 0 <= i < n ==> g.common[cid][i] in r.parent
  {
    if n > 0 {
      UnderHaveParents(g, cid, depth, n - 1, w);
      var before := VisitedUnder(g, cid, depth, n - 1, w);
      var sub := g.common[cid][n - 1];
      VisitExtends(g, sub, depth + 1, WithParent(before, sub, cid));
    }
  }

  // --------------------------------------------------------------------------- finding rows

  lemma {:induction false} FindRowNone(rows: seq<Row>, c: Id)
    ensures FindRow(rows, c).None? <==> forall i :: 0 <= i < |rows| && rows[i].Row? ==> rows[i].cid != c
  {
    if rows != [] {
      FindRowNone(rows[..|rows| - 1], c);
    }
  }

  lemma FindRowAppend(rows: seq<Row>, row: Row, c: Id)
    ensures FindRow(rows + [row], c) == if FindRow(rows, c).Some? then FindRow(rows, c)
                                        else if row.Row? && row.cid == c then Some(|rows|) else None
  {
    assert (rows + [row])[..|rows|] == rows;
  }

  lemma {:induction false} FindRowUpdate(rows: seq<Row>, i: nat, row: Row, c: Id)
    requires i < |rows| && rows[i].Row? && row.Row? && row.cid == rows[i].cid
    ensures FindRow(rows[i := row], c) == FindRow(rows, c)
  {
    var last := |rows| - 1;
    if i < last {
      FindRowUpdate(rows[..last], i, row, c);
      assert rows[i := row][..last] == rows[..last][i := row];
    } else {
      assert rows[i := row][..last] == rows[..last];
    }
  }

  lemma {:induction false} FindRowPrefix(rows: seq<Row>, n: nat, c: Id)
    requires n <= |rows| && FindRow(rows[..n], c).Some?
    ensures FindRow(rows, c) == FindRow(rows[..n], c)
  {
    if n < |rows| {
      var last := |rows| - 1;
      assert rows[..last][..n] == rows[..n];
      FindRowPrefix(rows[..last], n, c);
    } else {
      assert rows[..n] == rows;
    }
  }

  // ------------------------------------------------------- rows already there are untouched

  ghost predicate RowsSeen(w: Walk) {
    forall i :: 0 <= i < |w.rows| && w.rows[i].Row? ==> w.rows[i].cid in w.seen
  }

  ghost predicate RowsExtend(rows': seq<Row>, rows: seq<Row>) {
    |rows| <= |rows'| && rows'[..|rows|] == rows
  }

  lemma {:induction false} VisitKeepsRows(g: Graph, cid: Id, depth: nat, w: Walk)
    requires IsGraph(g) && cid in g.own && Fits(g, w) && RowsSeen(w)
    ensures RowsSeen(Visited(g, cid, depth, w)) && RowsExtend(Visited(g, cid, depth, w).rows, w.rows)
    decreases g.own.Keys - w.seen, 0
  {
    if cid !in w.seen {
      var w1 := Met(g, cid, depth, w);
      assert RowsExtend(w1.rows, w.rows);
      if !IsDead(g.own[cid]) {
        assert cid in (g.own.Keys - w.seen) && cid !in (g.own.Keys - w1.seen);
        UnderKeepsRows(g, cid, depth, |g.common[cid]|, w1);
        var w2 := VisitedUnder(g, cid, depth, |g.common[cid]|, w1);
        CloseKeepsRows(g, cid, depth, w, w2);
      }
    }
  }

  lemma {:induction false} UnderKeepsRows(g: Graph, cid: Id, depth: nat, n: nat, w: Walk)
    requires IsGraph(g) && cid in g.own && n <= |g.common[cid]| && Fits(g, w) && RowsSeen(w)
    ensures var r := VisitedUnder(g, cid, depth, n, w); RowsSeen(r) && RowsExtend(r.rows, w.rows)
    decreases g.own.Keys - w.seen, n + 2
  {
    if n > 0 {
      UnderKeepsRows(g, cid, depth, n - 1, w);
      var before := VisitedUnder(g, cid, depth, n - 1, w);
      var sub := g.common[cid][n - 1];
      SubKeepsRows(g, cid, depth, sub, before);
      RowsExtendTrans(VisitedUnder(g, cid, depth, n, w).rows, before.rows, w.rows);
    }
  }

  lemma {:induction false} SubKeepsRows(g: Graph, cid: Id, depth: nat, sub: Id, w: Walk)
    requires IsGraph(g) && sub in g.own && Fits(g, w) && RowsSeen(w)
    ensures var r := Visited(g, sub, depth + 1, WithParent(w, sub, cid)); RowsSeen(r) && RowsExtend(r.rows, w.rows)
    decreases g.own.Keys - w.seen, 1
  {
    VisitKeepsRows(g, sub, depth + 1, WithParent(w, sub, cid));
  }

  lemma RowsExtendTrans(a: seq<Row>, b: seq<Row>, c: seq<Row>)
    requires RowsExtend(a, b) && RowsExtend(b, c)
    ensures RowsExtend(a, c)
  {
    assert a[..|c|] == b[..|c|];
  }

  lemma CloseKeepsRows(g: Graph, cid: Id, depth: nat, w: Walk, w2: Walk)
    requires IsGraph(g) && cid in w2.seen && Fits(g, w2) && RowsSeen(w) && RowsSeen(w2)
    requires RowsExtend(w2.rows, w.rows) && cid !in w.seen
    ensures RowsSeen(Closed(g, cid, depth, w2)) && RowsExtend(Closed(g, cid, depth, w2).rows, w.rows)
  {
    var rows := if g.rare[cid] != [] then w2.rows + [Held(depth + 1, g.rare[cid])] else w2.rows;
    var r := Closed(g, cid, depth, w2);
    assert RowsExtend(rows, w.rows);
    forall k | 0 <= k < |w.rows|
      ensures rows[k] == w.rows[k] && r.rows[k] == w.rows[k]
    {
      assert rows[..|w.rows|][k] == w.rows[k];
    }
    forall k | 0 <= k < |r.rows| && r.rows[k].Row?
      ensures r.rows[k].cid in r.seen
    {
      assert k < |w2.rows|;
    }
  }

  lemma {:induction false} OpenKeepsRows(g: Graph, cands: seq<Id>, n: nat)
    requires IsGraph(g) && AllKnown(g, cands) && n <= |cands|
    ensures RowsSeen(OpenedFirst(g, cands, n))
  {
    if n > 0 {
      OpenKeepsRows(g, cands, n - 1);
      VisitKeepsRows(g, cands[n - 1], 0, OpenedFirst(g, cands, n - 1));
    }
  }

  // ------------------------------------------------------------------- one row for each claim

  /** The row of `p` comes before row `i`, one level up. */
  ghost predicate RowAbove(rows: seq<Row>, i: nat, p: Id)
    requires i < |rows|
  {
    var j := FindRow(rows, p);
    j.Some? && j.value < i && rows[j.value].depth + 1 == rows[i].depth
  }

  /** Row `i` is its claim's only row, and shows its standing; at depth 0 the claim is a
      candidate, and deeper its parent's row is above. */
  ghost predicate RowOk(cands: seq<Id>, rows: seq<Row>, st: map<Id, Standing>, parent: map<Id, Id>, i: nat)
    requires i < |rows| && rows[i].Row?
  {
    var cid := rows[i].cid;
    && cid in st && rows[i].standing == st[cid]
    && FindRow(rows, cid) == Some(i)
    && (rows[i].depth == 0 ==> cid in cands)
    && (rows[i].depth > 0 ==> cid in parent && RowAbove(rows, i, parent[cid]))
  }

  ghost predicate RowsOk(cands: seq<Id>, w: Walk) {
    && (forall i {:trigger RowOk(cands, w.rows, w.st, w.parent, i)} :: 0 <= i < |w.rows| && w.rows[i].Row? ==>
          RowOk(cands, w.rows, w.st, w.parent, i))
    && (forall c {:trigger FindRow(w.rows, c)} :: c in w.seen ==> FindRow(w.rows, c).Some?)
  }

  lemma RowStays(cands: seq<Id>, rows: seq<Row>, rows': seq<Row>, st: map<Id, Standing>, st': map<Id, Standing>,
                 parent: map<Id, Id>, parent': map<Id, Id>, i: nat)
    requires i < |rows| <= |rows'| && rows[i].Row? && RowOk(cands, rows, st, parent, i)
    requires rows'[i].Row? && rows'[i].cid == rows[i].cid && rows'[i].depth == rows[i].depth
    requires rows[i].cid in st' && rows'[i].standing == st'[rows[i].cid]
    requires forall x :: x in parent ==> x in parent' && parent'[x] == parent[x]
    requires forall c :: FindRow(rows, c).Some? ==>
               FindRow(rows', c) == FindRow(rows, c) && rows'[FindRow(rows, c).value].depth == rows[FindRow(rows, c).value].depth
    ensures RowOk(cands, rows', st', parent', i)
  {
  }

  /** What the walk knows of the claim it is about to meet. */
  ghost predicate Expected(cands: seq<Id>, w: Walk, cid: Id, depth: nat) {
    || cid in w.seen
    || (depth == 0 && cid in cands)
    || (depth > 0 && cid in w.parent && HasDepth(w.rows, w.parent[cid], depth - 1))
  }

  ghost predicate HasDepth(rows: seq<Row>, c: Id, depth: nat) {
    var j := FindRow(rows, c);
    j.Some? && rows[j.value].depth == depth
  }

  lemma MetRows(g: Graph, cands: seq<Id>, cid: Id, depth: nat, w: Walk)
    requires IsGraph(g) && cid in g.own && Fits(g, w) && cid !in w.seen
    requires RowsOk(cands, w) && RowsSeen(w) && Expected(cands, w, cid, depth)
    ensures RowsOk(cands, Met(g, cid, depth, w)) && HasDepth(Met(g, cid, depth, w).rows, cid, depth)
  {
    var r, n := Met(g, cid, depth, w), |w.rows|;
    FindRowNone(w.rows, cid);
    forall c
      ensures FindRow(r.rows, c) == if c == cid then Some(n) else FindRow(w.rows, c)
    {
      FindRowAppend(w.rows, Row(depth, cid, g.own[cid]), c);
    }
    forall i | 0 <= i < |r.rows| && r.rows[i].Row?
      ensures RowOk(cands, r.rows, r.st, r.parent, i)
    {
      if i < n {
        assert RowOk(cands, w.rows, w.st, w.parent, i);
        RowStays(cands, w.rows, r.rows, w.st, r.st, w.parent, r.parent, i);
      }
    }
  }

  lemma WithParentRows(cands: seq<Id>, w: Walk, sub: Id, cid: Id)
    requires RowsOk(cands, w)
    ensures RowsOk(cands, WithParent(w, sub, cid))
  {
    var r := WithParent(w, sub, cid);
    forall i | 0 <= i < |r.rows| && r.rows[i].Row?
      ensures RowOk(cands, r.rows, r.st, r.parent, i)
    {
      assert RowOk(cands, w.rows, w.st, w.parent, i);
    }
  }

  lemma HeldRows(cands: seq<Id>, w: Walk, r: Walk, held: Row)
    requires RowsOk(cands, w) && held.Held? && r == w.(rows := w.rows + [held], groups := r.groups)
    ensures RowsOk(cands, r)
  {
    forall c
      ensures FindRow(r.rows, c) == FindRow(w.rows, c)
    {
      FindRowAppend(w.rows, held, c);
    }
    forall i | 0 <= i < |r.rows| && r.rows[i].Row?
      ensures RowOk(cands, r.rows, r.st, r.parent, i)
    {
      assert RowOk(cands, w.rows, w.st, w.parent, i);
      RowStays(cands, w.rows, r.rows, w.st, r.st, w.parent, r.parent, i);
    }
  }

  lemma LiftRows(cands: seq<Id>, w: Walk, r: Walk, cid: Id, depth: nat, here: Standing)
    requires RowsOk(cands, w) && cid in w.seen && HasDepth(w.rows, cid, depth)
    requires r == w.(rows := SetRow(w.rows, cid, Row(depth, cid, here)), st := w.st[cid := here], groups := r.groups)
    ensures RowsOk(cands, r)
  {
    var k, row := FindRow(w.rows, cid).value, Row(depth, cid, here);
    forall c
      ensures FindRow(r.rows, c) == FindRow(w.rows, c)
    {
      FindRowUpdate(w.rows, k, row, c);
    }
    forall i | 0 <= i < |r.rows| && r.rows[i].Row?
      ensures RowOk(cands, r.rows, r.st, r.parent, i)
    {
      assert RowOk(cands, w.rows, w.st, w.parent, i);
      RowStays(cands, w.rows, r.rows, w.st, r.st, w.parent, r.parent, i);
    }
  }

  lemma CloseRows(g: Graph, cands: seq<Id>, cid: Id, depth: nat, w: Walk)
    requires IsGraph(g) && cid in w.seen && Fits(g, w) && RowsOk(cands, w) && HasDepth(w.rows, cid, depth)
    ensures RowsOk(cands, Closed(g, cid, depth, w))
  {
    var r, held := Closed(g, cid, depth, w), Held(depth + 1, g.rare[cid]);
    var mid := if g.rare[cid] != [] then w.(rows := w.rows + [held]) else w;
    if g.rare[cid] != [] {
      HeldRows(cands, w, mid, held);
      FindRowAppend(w.rows, held, cid);
    }
    var here := Lifted(g.own[cid], w.st, g.common[cid]);
    if here.grade > g.own[cid].grade {
      LiftRows(cands, mid, r, cid, depth, here);
    } else {
      RegroupRows(cands, mid, r);
    }
  }

  lemma RegroupRows(cands: seq<Id>, w: Walk, r: Walk)
    requires RowsOk(cands, w) && r == w.(groups := r.groups)
    ensures RowsOk(cands, r)
  {
    forall i | 0 <= i < |r.rows| && r.rows[i].Row?
      ensures RowOk(cands, r.rows, r.st, r.parent, i)
    {
      assert RowOk(cands, w.rows, w.st, w.parent, i);
    }
  }

  lemma {:induction false} VisitRows(g: Graph, cands: seq<Id>, cid: Id, depth: nat, w: Walk)
    requires IsGraph(g) && cid in g.own && Fits(g, w) && ParentsOk(g, w, cid)
    requires RowsOk(cands, w) && RowsSeen(w) && Expected(cands, w, cid, depth)
    ensures RowsOk(cands, Visited(g, cid, depth, w))
    decreases g.own.Keys - w.seen, 0
  {
    if cid !in w.seen {
      var w1 := Met(g, cid, depth, w);
      MetRows(g, cands, cid, depth, w);
      if !IsDead(g.own[cid]) {
        assert cid in (g.own.Keys - w.seen) && cid !in (g.own.Keys - w1.seen);
        UnderRows(g, cands, cid, depth, |g.common[cid]|, w1);
        UnderDepth(g, cid, depth, |g.common[cid]|, w1);
        CloseRows(g, cands, cid, depth, VisitedUnder(g, cid, depth, |g.common[cid]|, w1));
      }
    }
  }

  lemma {:induction false} UnderRows(g: Graph, cands: seq<Id>, cid: Id, depth: nat, n: nat, w: Walk)
    requires IsGraph(g) && cid in g.own && n <= |g.common[cid]| && Fits(g, w) && ParentsMet(g, w)
    requires cid in w.seen && !IsDead(g.own[cid]) && RowsOk(cands, w) && RowsSeen(w) && HasDepth(w.rows, cid, depth)
    ensures RowsOk(cands, VisitedUnder(g, cid, depth, n, w))
    decreases g.own.Keys - w.seen, n + 2
  {
    if n > 0 {
      UnderRows(g, cands, cid, depth, n - 1, w);
      UnderParents(g, cid, depth, n - 1, w);
      UnderDepth(g, cid, depth, n - 1, w);
      SubRows(g, cands, cid, depth, g.common[cid][n - 1], VisitedUnder(g, cid, depth, n - 1, w));
    }
  }

  lemma UnderDepth(g: Graph, cid: Id, depth: nat, n: nat, w: Walk)
    requires IsGraph(g) && cid in g.own && n <= |g.common[cid]| && Fits(g, w)
    requires RowsSeen(w) && HasDepth(w.rows, cid, depth)
    ensures var r := VisitedUnder(g, cid, depth, n, w);
            RowsSeen(r) && HasDepth(r.rows, cid, depth)
  {
    UnderKeepsRows(g, cid, depth, n, w);
    FindRowPrefix(VisitedUnder(g, cid, depth, n, w).rows, |w.rows|, cid);
  }

  lemma {:induction false} SubRows(g: Graph, cands: seq<Id>, cid: Id, depth: nat, sub: Id, w: Walk)
    requires IsGraph(g) && Fits(g, w) && ParentsMet(g, w) && sub in g.own
    requires ParentOf(g, w.seen, sub, cid)
    requires RowsOk(cands, w) && RowsSeen(w) && HasDepth(w.rows, cid, depth)
    ensures RowsOk(cands, Visited(g, sub, depth + 1, WithParent(w, sub, cid)))
    decreases g.own.Keys - w.seen, 1
  {
    var w' := WithParent(w, sub, cid);
    WithParentRows(cands, w, sub, cid);
    assert Expected(cands, w', sub, depth + 1);
    assert ParentsOk(g, w', sub);
    VisitRows(g, cands, sub, depth + 1, w');
  }

  lemma {:induction false} OpenRowsFirst(g: Graph, cands: seq<Id>, n: nat)
    requires IsGraph(g) && AllKnown(g, cands) && n <= |cands|
    ensures RowsOk(cands, OpenedFirst(g, cands, n))
  {
    if n > 0 {
      OpenRowsFirst(g, cands, n - 1);
      OpenParents(g, cands, n - 1);
      OpenKeepsRows(g, cands, n - 1);
      VisitRows(g, cands, cands[n - 1], 0, OpenedFirst(g, cands, n - 1));
    }
  }
}
