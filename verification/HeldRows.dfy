/**
 The rows that hold back uncommon sub-causes: each claim met, alive and with some, has one,
 the last of the rows below it, and there is no other.
 */
module HeldRows {
  import opened Base
  import opened Knowledge
  import opened Standings
  import opened OpenWalk
  import opened OpenRows

  /** Row `h` holds back `rare` for the claim of row `r`: one deeper, and the last of those below it. */
  ghost predicate HeldAt(rows: seq<Row>, c: Id, rare: seq<Id>, r: nat, h: nat) {
    && r < h < |rows| && rows[r].Row? && rows[r].cid == c && rows[h] == Held(rows[r].depth + 1, rare)
    && (forall k :: r < k < h ==> rows[k].depth > rows[r].depth)
    && (h + 1 < |rows| ==> rows[h + 1].depth <= rows[r].depth)
  }

  /** A claim below which uncommon sub-causes are held back. */
  predicate HoldsBack(g: Graph, c: Id)
    requires IsGraph(g)
  {
    c in g.own && !IsDead(g.own[c]) && g.rare[c] != []
  }

  /** ... and if it is the last row of all, its claim is at this level or below. */
  ghost predicate HeldFrom(g: Graph, rows: seq<Row>, c: Id, level: nat, r: nat, h: nat)
    requires IsGraph(g)
  {
    HoldsBack(g, c) && HeldAt(rows, c, g.rare[c], r, h) && (h == |rows| - 1 ==> rows[r].depth >= level)
  }

  ghost predicate HasHeld(g: Graph, rows: seq<Row>, c: Id, level: nat)
    requires IsGraph(g)
  {
    exists r: nat, h: nat :: HeldFrom(g, rows, c, level, r, h)
  }

  ghost predicate IsHeld(g: Graph, rows: seq<Row>, done: set<Id>, level: nat, h: nat)
    requires IsGraph(g)
  {
    exists c, r: nat :: c in done && HeldFrom(g, rows, c, level, r, h)
  }

  /** Every claim done with has its row of those held back, and every such row is of one. */
  ghost predicate AllHeld(g: Graph, rows: seq<Row>, done: set<Id>, level: nat)
    requires IsGraph(g)
  {
    && (forall c {:trigger HasHeld(g, rows, c, level)} :: c in done && HoldsBack(g, c) ==> HasHeld(g, rows, c, level))
    && (forall h: nat {:trigger IsHeld(g, rows, done, level, h)} ::
          h < |rows| && rows[h].Held? ==> IsHeld(g, rows, done, level, h))
  }

  ghost predicate Deeper(rows': seq<Row>, rows: seq<Row>, level: nat) {
    |rows| <= |rows'| && forall k :: |rows| <= k < |rows'| ==> rows'[k].depth >= level
  }

  /** One more row, no deeper than those at this level. */
  lemma HeldStays(g: Graph, rows: seq<Row>, row: Row, c: Id, level: nat, level': nat, r: nat, h: nat)
    requires IsGraph(g) && HeldFrom(g, rows, c, level, r, h) && row.depth <= level
    ensures HeldFrom(g, rows + [row], c, level', r, h)
  {
    var more := rows + [row];
    assert forall k :: 0 <= k < |rows| ==> more[k] == rows[k];
  }

  lemma HasStays(g: Graph, rows: seq<Row>, row: Row, c: Id, level: nat, level': nat)
    requires IsGraph(g) && HasHeld(g, rows, c, level) && row.depth <= level
    ensures HasHeld(g, rows + [row], c, level')
  {
    var r: nat, h: nat :| HeldFrom(g, rows, c, level, r, h);
    HeldStays(g, rows, row, c, level, level', r, h);
  }

  lemma IsStays(g: Graph, rows: seq<Row>, row: Row, done: set<Id>, done': set<Id>, level: nat, level': nat, h: nat)
    requires IsGraph(g) && IsHeld(g, rows, done, level, h) && row.depth <= level && done <= done'
    ensures IsHeld(g, rows + [row], done', level', h)
  {
    var c, r: nat :| c in done && HeldFrom(g, rows, c, level, r, h);
    HeldStays(g, rows, row, c, level, level', r, h);
  }

  lemma AppendRow(g: Graph, rows: seq<Row>, row: Row, done: set<Id>, level: nat, level': nat)
    requires IsGraph(g) && AllHeld(g, rows, done, level) && row.Row? && row.depth <= level
    ensures AllHeld(g, rows + [row], done, level')
  {
    var more := rows + [row];
    forall c | c in done && HoldsBack(g, c)
      ensures HasHeld(g, more, c, level')
    {
      assert HasHeld(g, rows, c, level);
      HasStays(g, rows, row, c, level, level');
    }
    forall h: nat | h < |more| && more[h].Held?
      ensures IsHeld(g, more, done, level', h)
    {
      assert rows[h].Held? && IsHeld(g, rows, done, level, h);
      IsStays(g, rows, row, done, done, level, level', h);
    }
  }

  /** What may change of the rows without changing any of this: their standings, and which
      claims are done with among those with nothing to hold back. */
  ghost predicate SameShape(rows: seq<Row>, rows': seq<Row>) {
    && |rows'| == |rows|
    && forall k :: 0 <= k < |rows| ==>
         if rows[k].Row? then rows'[k].Row? && rows'[k].cid == rows[k].cid && rows'[k].depth == rows[k].depth
         else rows'[k] == rows[k]
  }

  lemma ShapeStays(g: Graph, rows: seq<Row>, rows': seq<Row>, c: Id, level: nat, level': nat, r: nat, h: nat)
    requires IsGraph(g) && HeldFrom(g, rows, c, level, r, h) && SameShape(rows, rows') && level' <= level
    ensures HeldFrom(g, rows', c, level', r, h)
  {
    assert forall k :: 0 <= k < |rows| ==> rows'[k].depth == rows[k].depth;
  }

  lemma Reshape(g: Graph, rows: seq<Row>, rows': seq<Row>, done: set<Id>, done': set<Id>, level: nat, level': nat)
    requires IsGraph(g) && AllHeld(g, rows, done, level) && SameShape(rows, rows') && level' <= level && done <= done'
    requires forall c :: c in done' && HoldsBack(g, c) ==> c in done
    ensures AllHeld(g, rows', done', level')
  {
    forall c | c in done' && HoldsBack(g, c)
      ensures HasHeld(g, rows', c, level')
    {
      assert HasHeld(g, rows, c, level);
      var r: nat, h: nat :| HeldFrom(g, rows, c, level, r, h);
      ShapeStays(g, rows, rows', c, level, level', r, h);
    }
    forall h: nat | h < |rows'| && rows'[h].Held?
      ensures IsHeld(g, rows', done', level', h)
    {
      assert rows[h].Held? && IsHeld(g, rows, done, level, h);
      var c, r: nat :| c in done && HeldFrom(g, rows, c, level, r, h);
      ShapeStays(g, rows, rows', c, level, level', r, h);
    }
  }

  lemma NewHeld(g: Graph, rows: seq<Row>, c: Id, level: nat, r: nat)
    requires IsGraph(g) && HoldsBack(g, c) && r < |rows| && rows[r].Row? && rows[r].cid == c && rows[r].depth == level
    requires forall k :: r < k < |rows| ==> rows[k].depth > level
    ensures HeldFrom(g, rows + [Held(level + 1, g.rare[c])], c, level, r, |rows|)
  {
    var more := rows + [Held(level + 1, g.rare[c])];
    assert forall k :: 0 <= k < |rows| ==> more[k] == rows[k];
  }

  /** The row of those held back for the claim of row `r`, added after all below it. */
  lemma AppendHeld(g: Graph, rows: seq<Row>, row: Row, done: set<Id>, c: Id, level: nat, r: nat)
    requires IsGraph(g) && AllHeld(g, rows, done, level + 1) && row.depth <= level + 1
    requires HeldFrom(g, rows + [row], c, level, r, |rows|)
    ensures AllHeld(g, rows + [row], done + {c}, level)
  {
    forall x | x in done + {c} && HoldsBack(g, x)
      ensures HasHeld(g, rows + [row], x, level)
    {
      EachHasHeld(g, rows, row, done, c, level, r, x);
    }
    forall h: nat | h < |rows + [row]| && (rows + [row])[h].Held?
      ensures IsHeld(g, rows + [row], done + {c}, level, h)
    {
      EachIsHeld(g, rows, row, done, c, level, r, h);
    }
  }

  lemma EachHasHeld(g: Graph, rows: seq<Row>, row: Row, done: set<Id>, c: Id, level: nat, r: nat, x: Id)
    requires IsGraph(g) && AllHeld(g, rows, done, level + 1) && row.depth <= level + 1
    requires HeldFrom(g, rows + [row], c, level, r, |rows|) && x in done + {c} && HoldsBack(g, x)
    ensures HasHeld(g, rows + [row], x, level)
  {
    if x in done {
      assert HasHeld(g, rows, x, level + 1);
      HasStays(g, rows, row, x, level + 1, level);
    } else {
      FromIsHeld(g, rows + [row], done + {c}, c, level, r, |rows|);
    }
  }

  lemma EachIsHeld(g: Graph, rows: seq<Row>, row: Row, done: set<Id>, c: Id, level: nat, r: nat, h: nat)
    requires IsGraph(g) && AllHeld(g, rows, done, level + 1) && row.depth <= level + 1
    requires HeldFrom(g, rows + [row], c, level, r, |rows|) && h <= |rows| && (rows + [row])[h].Held?
    ensures IsHeld(g, rows + [row], done + {c}, level, h)
  {
    if h < |rows| {
      assert rows[h].Held? && IsHeld(g, rows, done, level + 1, h);
      IsStays(g, rows, row, done, done + {c}, level + 1, level, h);
    } else {
      FromIsHeld(g, rows + [row], done + {c}, c, level, r, |rows|);
    }
  }

  lemma FromIsHeld(g: Graph, rows: seq<Row>, done: set<Id>, c: Id, level: nat, r: nat, h: nat)
    requires IsGraph(g) && c in done && HeldFrom(g, rows, c, level, r, h)
    ensures HasHeld(g, rows, c, level) && IsHeld(g, rows, done, level, h)
  {
  }

  // ---------------------------------------------------------------------------- the walk

  /** A claim's row at this depth, with nothing after it but what is deeper. */
  ghost predicate IsBlock(rows: seq<Row>, c: Id, depth: nat, r: nat) {
    && r < |rows| && rows[r].Row? && rows[r].cid == c && rows[r].depth == depth && FindRow(rows, c) == Some(r)
    && forall k :: r < k < |rows| ==> rows[k].depth > depth
  }

  function WithHeld(rows: seq<Row>, depth: nat, rare: seq<Id>): seq<Row> {
    if rare != [] then rows + [Held(depth + 1, rare)] else rows
  }

  lemma HeldAdded(g: Graph, cid: Id, depth: nat, rows: seq<Row>, done: set<Id>, r: nat)
    requires IsGraph(g) && cid in g.own && !IsDead(g.own[cid])
    requires IsBlock(rows, cid, depth, r) && AllHeld(g, rows, done, depth + 1)
    ensures var more := WithHeld(rows, depth, g.rare[cid]);
            AllHeld(g, more, done + {cid}, depth) && IsBlock(more, cid, depth, r)
  {
    if g.rare[cid] != [] {
      NewHeld(g, rows, cid, depth, r);
      AppendHeld(g, rows, Held(depth + 1, g.rare[cid]), done, cid, depth, r);
      FindRowAppend(rows, Held(depth + 1, g.rare[cid]), cid);
    } else {
      Reshape(g, rows, rows, done, done + {cid}, depth + 1, depth);
    }
  }

  lemma RewriteBlock(rows: seq<Row>, cid: Id, depth: nat, r: nat, row: Row)
    requires IsBlock(rows, cid, depth, r) && row.Row? && row.cid == cid && row.depth == depth
    ensures IsBlock(rows[r := row], cid, depth, r)
  {
    FindRowUpdate(rows, r, row, cid);
  }

  lemma CloseHeld(g: Graph, cid: Id, depth: nat, w: Walk, done: set<Id>, r: nat)
    requires IsGraph(g) && cid in w.seen && Fits(g, w) && !IsDead(g.own[cid])
    requires IsBlock(w.rows, cid, depth, r) && AllHeld(g, w.rows, done, depth + 1)
    ensures var rows := Closed(g, cid, depth, w).rows; AllHeld(g, rows, done + {cid}, depth) && IsBlock(rows, cid, depth, r)
  {
    var rows := WithHeld(w.rows, depth, g.rare[cid]);
    var row := Row(depth, cid, Lifted(g.own[cid], w.st, g.common[cid]));
    HeldAdded(g, cid, depth, w.rows, done, r);
    Reshape(g, rows, rows[r := row], done + {cid}, done + {cid}, depth, depth);
    RewriteBlock(rows, cid, depth, r, row);
    ClosedRows(g, cid, depth, w, r);
  }

  lemma ClosedRows(g: Graph, cid: Id, depth: nat, w: Walk, r: nat)
    requires IsGraph(g) && cid in w.seen && Fits(g, w)
    requires var rows := WithHeld(w.rows, depth, g.rare[cid]); r < |rows| && FindRow(rows, cid) == Some(r)
    ensures var rows, row := WithHeld(w.rows, depth, g.rare[cid]), Row(depth, cid, Lifted(g.own[cid], w.st, g.common[cid]));
            Closed(g, cid, depth, w).rows == rows || Closed(g, cid, depth, w).rows == rows[r := row]
  {
  }

  lemma {:induction false} VisitHeld(g: Graph, cid: Id, depth: nat, w: Walk, gray: set<Id>)
    requires IsGraph(g) && cid in g.own && Fits(g, w) && RowsSeen(w) && gray <= w.seen
    requires AllHeld(g, w.rows, w.seen - gray, depth)
    ensures var r := Visited(g, cid, depth, w); AllHeld(g, r.rows, r.seen - gray, depth) && Deeper(r.rows, w.rows, depth)
    decreases g.own.Keys - w.seen, 0
  {
    if cid !in w.seen {
      var w1, done := Met(g, cid, depth, w), w.seen - gray;
      MetHeld(g, cid, depth, w, done);
      assert w1.seen - (gray + {cid}) == done;
      if IsDead(g.own[cid]) {
        Reshape(g, w1.rows, w1.rows, done, done + {cid}, depth + 1, depth);
        assert w1.seen - gray == done + {cid};
      } else {
        assert cid in (g.own.Keys - w.seen) && cid !in (g.own.Keys - w1.seen);
        UnderHeld(g, cid, depth, |g.common[cid]|, w1, gray + {cid});
        VisitedHeld(g, cid, depth, w, gray);
      }
    }
  }

  lemma MetHeld(g: Graph, cid: Id, depth: nat, w: Walk, done: set<Id>)
    requires IsGraph(g) && cid in g.own && cid !in w.seen && Fits(g, w) && RowsSeen(w) && AllHeld(g, w.rows, done, depth)
    ensures var w1 := Met(g, cid, depth, w);
            AllHeld(g, w1.rows, done, depth + 1) && RowsSeen(w1) && IsBlock(w1.rows, cid, depth, |w.rows|)
  {
    AppendRow(g, w.rows, Row(depth, cid, g.own[cid]), done, depth, depth + 1);
    FindRowNone(w.rows, cid);
    FindRowAppend(w.rows, Row(depth, cid, g.own[cid]), cid);
  }

  /** A live claim's visit is over: its block is closed. */
  lemma VisitedHeld(g: Graph, cid: Id, depth: nat, w: Walk, gray: set<Id>)
    requires IsGraph(g) && cid in g.own && cid !in w.seen && Fits(g, w) && RowsSeen(w) && gray <= w.seen && !IsDead(g.own[cid])
    requires IsBlock(Met(g, cid, depth, w).rows, cid, depth, |w.rows|) && RowsSeen(Met(g, cid, depth, w))
    requires var w1 := Met(g, cid, depth, w);
             var w2 := VisitedUnder(g, cid, depth, |g.common[cid]|, w1);
             AllHeld(g, w2.rows, w2.seen - (gray + {cid}), depth + 1) && Deeper(w2.rows, w1.rows, depth + 1)
    ensures var r := Visited(g, cid, depth, w); AllHeld(g, r.rows, r.seen - gray, depth) && Deeper(r.rows, w.rows, depth)
  {
    var w1 := Met(g, cid, depth, w);
    var w2 := VisitedUnder(g, cid, depth, |g.common[cid]|, w1);
    UnderKeepsRows(g, cid, depth, |g.common[cid]|, w1);
    BlockStays(w1.rows, w2.rows, cid, depth, |w.rows|);
    CloseHeld(g, cid, depth, w2, w2.seen - (gray + {cid}), |w.rows|);
    LessOne(w2.seen, gray, cid);
    BlockIsDeeper(Closed(g, cid, depth, w2).rows, w.rows, cid, depth);
    NewIsClosed(g, cid, depth, w);
  }

  lemma LessOne(seen: set<Id>, gray: set<Id>, cid: Id)
    requires cid in seen && cid !in gray
    ensures seen - gray == (seen - (gray + {cid})) + {cid}
  {
  }

  lemma NewIsClosed(g: Graph, cid: Id, depth: nat, w: Walk)
    requires IsGraph(g) && cid in g.own && cid !in w.seen && Fits(g, w) && !IsDead(g.own[cid])
    ensures var w2 := VisitedUnder(g, cid, depth, |g.common[cid]|, Met(g, cid, depth, w));
            Visited(g, cid, depth, w) == Closed(g, cid, depth, w2) && Closed(g, cid, depth, w2).seen == w2.seen
  {
  }

  lemma BlockStays(rows: seq<Row>, rows': seq<Row>, cid: Id, depth: nat, r: nat)
    requires IsBlock(rows, cid, depth, r) && RowsExtend(rows', rows) && Deeper(rows', rows, depth + 1)
    ensures IsBlock(rows', cid, depth, r)
  {
    FindRowPrefix(rows', |rows|, cid);
    assert forall k :: 0 <= k < |rows| ==> rows'[k] == rows'[..|rows|][k] == rows[k];
  }

  lemma BlockIsDeeper(rows': seq<Row>, rows: seq<Row>, cid: Id, depth: nat)
    requires IsBlock(rows', cid, depth, |rows|)
    ensures Deeper(rows', rows, depth)
  {
  }

  /** What visiting sub-causes at this level leaves of the rows there were. */
  ghost predicate HeldUnder(g: Graph, r: Walk, w: Walk, gray: set<Id>, level: nat)
    requires IsGraph(g)
  {
    && AllHeld(g, r.rows, r.seen - gray, level) && Deeper(r.rows, w.rows, level)
    && RowsExtend(r.rows, w.rows) && RowsSeen(r) && gray <= r.seen
  }

  lemma HeldOnward(g: Graph, r: Walk, before: Walk, w: Walk, gray: set<Id>, level: nat)
    requires IsGraph(g) && HeldUnder(g, r, before, gray, level) && HeldUnder(g, before, w, gray, level)
    ensures HeldUnder(g, r, w, gray, level)
  {
    RowsExtendTrans(r.rows, before.rows, w.rows);
    forall k | |w.rows| <= k < |r.rows|
      ensures r.rows[k].depth >= level
    {
      assert k < |before.rows| ==> r.rows[k] == r.rows[..|before.rows|][k];
    }
  }

  lemma {:induction false} UnderHeld(g: Graph, cid: Id, depth: nat, n: nat, w: Walk, gray: set<Id>)
    requires IsGraph(g) && cid in g.own && n <= |g.common[cid]| && Fits(g, w) && RowsSeen(w) && gray <= w.seen
    requires AllHeld(g, w.rows, w.seen - gray, depth + 1)
    ensures HeldUnder(g, VisitedUnder(g, cid, depth, n, w), w, gray, depth + 1)
    decreases g.own.Keys - w.seen, n + 2
  {
    if n > 0 {
      var before, sub := VisitedUnder(g, cid, depth, n - 1, w), g.common[cid][n - 1];
      UnderHeld(g, cid, depth, n - 1, w, gray);
      UnderStep(g, cid, depth, n - 1, w);
      assert g.own.Keys - before.seen <= g.own.Keys - w.seen;
      SubHeld(g, cid, depth, sub, before, gray);
      HeldOnward(g, VisitedUnder(g, cid, depth, n, w), before, w, gray, depth + 1);
    }
  }

  lemma {:induction false} SubHeld(g: Graph, cid: Id, depth: nat, sub: Id, w: Walk, gray: set<Id>)
    requires IsGraph(g) && sub in g.own && Fits(g, w) && RowsSeen(w) && gray <= w.seen
    requires AllHeld(g, w.rows, w.seen - gray, depth + 1)
    ensures HeldUnder(g, Visited(g, sub, depth + 1, WithParent(w, sub, cid)), w, gray, depth + 1)
    decreases g.own.Keys - w.seen, 1
  {
    VisitHeld(g, sub, depth + 1, WithParent(w, sub, cid), gray);
    SubKeepsRows(g, cid, depth, sub, w);
  }

  lemma {:induction false} OpenHeld(g: Graph, cands: seq<Id>, n: nat)
    requires IsGraph(g) && AllKnown(g, cands) && n <= |cands|
    ensures AllHeld(g, OpenedFirst(g, cands, n).rows, OpenedFirst(g, cands, n).seen, 0)
  {
    if n > 0 {
      OpenHeld(g, cands, n - 1);
      OpenKeepsRows(g, cands, n - 1);
      var before := OpenedFirst(g, cands, n - 1);
      assert before.seen - {} == before.seen;
      VisitHeld(g, cands[n - 1], 0, before, {});
      assert OpenedFirst(g, cands, n).seen - {} == OpenedFirst(g, cands, n).seen;
    }
  }

  /** Each claim met that is alive and has uncommon sub-causes has one row that holds back just
      those, right after all below it; and every row that holds some back is such a one. */
  lemma HeldExactly(g: Graph, cands: seq<Id>)
    requires IsGraph(g) && AllKnown(g, cands)
    ensures var w := Opened(g, cands);
            && (forall c :: c in w.seen && HoldsBack(g, c) ==>
                  exists r: nat, h: nat :: HeldAt(w.rows, c, g.rare[c], r, h) && forall h': nat :: HeldAt(w.rows, c, g.rare[c], r, h') ==> h' == h)
            && (forall h: nat :: h < |w.rows| && w.rows[h].Held? ==>
                  exists c, r: nat :: c in w.seen && HoldsBack(g, c) && HeldAt(w.rows, c, g.rare[c], r, h))
  {
    var w := Opened(g, cands);
    OpenHeld(g, cands, |cands|);
    forall c | c in w.seen && HoldsBack(g, c)
      ensures exists r: nat, h: nat ::
                HeldAt(w.rows, c, g.rare[c], r, h) && forall h': nat :: HeldAt(w.rows, c, g.rare[c], r, h') ==> h' == h
    {
      assert HasHeld(g, w.rows, c, 0);
      var r: nat, h: nat :| HeldFrom(g, w.rows, c, 0, r, h);
      forall h': nat | HeldAt(w.rows, c, g.rare[c], r, h')
        ensures h' == h
      {
        HeldOnce(w.rows, c, g.rare[c], r, h, h');
      }
    }
    forall h: nat | h < |w.rows| && w.rows[h].Held?
      ensures exists c, r: nat :: c in w.seen && HoldsBack(g, c) && HeldAt(w.rows, c, g.rare[c], r, h)
    {
      assert IsHeld(g, w.rows, w.seen, 0, h);
      var c, r: nat :| c in w.seen && HeldFrom(g, w.rows, c, 0, r, h);
    }
  }

  /** A claim's row has one row of those held back, and that is no other's. */
  lemma HeldOnce(rows: seq<Row>, c: Id, rare: seq<Id>, r: nat, h: nat, h': nat)
    requires HeldAt(rows, c, rare, r, h) && HeldAt(rows, c, rare, r, h')
    ensures h == h'
  {
  }

  lemma HeldForOne(rows: seq<Row>, c: Id, rare: seq<Id>, r: nat, c': Id, rare': seq<Id>, r': nat, h: nat)
    requires HeldAt(rows, c, rare, r, h) && HeldAt(rows, c', rare', r', h)
    ensures r == r' && c == c' && rare == rare'
  {
  }
}
