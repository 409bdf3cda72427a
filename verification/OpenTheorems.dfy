/** What the walk of `open` comes to, whatever the facts and the order of its candidates. */
module OpenTheorems {
  import opened Base
  import opened Knowledge
  import opened Standings
  import opened OpenWalk

  /** Common sub-causes rank below their claim: the refinement graph has no cycle. */
  ghost predicate Ranked(g: Graph, rank: map<Id, nat>) {
    && g.own.Keys <= rank.Keys
    && forall c, i :: c in g.common && 0 <= i < |g.common[c]| && c in rank && g.common[c][i] in rank
                      ==> rank[g.common[c][i]] < rank[c]
  }

  ghost predicate Acyclic(g: Graph) {
    exists rank :: Ranked(g, rank)
  }

  // ------------------------------------------------------------------- standings settle

  /** Every finished claim has all its sub-causes finished, and the standing they lift it to. */
  ghost predicate Settled(g: Graph, st: map<Id, Standing>, done: set<Id>)
    requires IsGraph(g)
  {
    && (forall x :: x in st ==> st[x].grade <= 3)
    && done <= g.own.Keys && done <= st.Keys
    && (forall c {:trigger SettledAt(g, st, done, c)} :: c in done ==> SettledAt(g, st, done, c))
  }

  ghost predicate SettledAt(g: Graph, st: map<Id, Standing>, done: set<Id>, c: Id)
    requires IsGraph(g) && c in g.own && c in st && forall x :: x in st ==> st[x].grade <= 3
  {
    if IsDead(g.own[c]) then st[c] == g.own[c]
    else (forall i :: 0 <= i < |g.common[c]| ==> g.common[c][i] in done) && st[c] == Lifted(g.own[c], st, g.common[c])
  }

  // ------------------------------------------------------------- the best sub-cause

  lemma {:induction false} PrecedesTransitive(a: string, b: string, c: string)
    requires Precedes(a, b) && Precedes(b, c)
    ensures Precedes(a, c)
  {
    if a != "" && a[0] == b[0] && b[0] == c[0] {
      PrecedesTransitive(a[1..], b[1..], c[1..]);
    }
  }

  lemma {:induction false} PrecedesEither(a: string, b: string)
    ensures a == b || Precedes(a, b) || Precedes(b, a)
  {
    if a != "" && b != "" && a[0] == b[0] {
      PrecedesEither(a[1..], b[1..]);
      assert a == [a[0]] + a[1..] && b == [b[0]] + b[1..];
    }
  }

  lemma OutranksTransitive(st: map<Id, Standing>, x: Id, y: Id, z: Id)
    requires x in st && y in st && z in st && Outranks(st, x, y) && Outranks(st, y, z)
    ensures Outranks(st, x, z)
  {
    if st[x].grade == st[z].grade {
      PrecedesTransitive(z, y, x);
    }
  }

  /** The best is the one above all others by grade and then by name, whatever the order. */
  lemma {:induction false} BestOfIsGreatest(st: map<Id, Standing>, xs: seq<Id>, n: nat, i: nat)
    requires i < n <= |xs| && xs[i] in st
    ensures BestOf(st, xs, n).Some?
    ensures var b := BestOf(st, xs, n).value; xs[i] == b || Outranks(st, b, xs[i])
  {
    var before := BestOf(st, xs, n - 1);
    if i == n - 1 {
      if before.Some? {
        PrecedesEither(xs[i], before.value);
      }
    } else {
      BestOfIsGreatest(st, xs, n - 1, i);
      var b := BestOf(st, xs, n).value;
      if b != before.value && xs[i] != before.value {
        OutranksTransitive(st, b, before.value, xs[i]);
      }
    }
  }

  lemma {:induction false} BestOfSame(st: map<Id, Standing>, st': map<Id, Standing>, xs: seq<Id>, n: nat)
    requires n <= |xs| && forall i :: 0 <= i < n ==> xs[i] in st && xs[i] in st' && st[xs[i]] == st'[xs[i]]
    ensures BestOf(st, xs, n) == BestOf(st', xs, n)
    ensures var b := BestOf(st, xs, n);
            b.Some? ==> b.value in st && b.value in st' && st[b.value] == st'[b.value]
  {
    if n > 0 {
      BestOfSame(st, st', xs, n - 1);
    }
  }

  ghost predicate SameOn(st: map<Id, Standing>, st': map<Id, Standing>, xs: seq<Id>) {
    forall i :: 0 <= i < |xs| ==> xs[i] in st && xs[i] in st' && st[xs[i]] == st'[xs[i]]
  }

  lemma LiftedSame(own: Standing, st: map<Id, Standing>, st': map<Id, Standing>, xs: seq<Id>)
    requires SameOn(st, st', xs)
    requires (forall x :: x in st ==> st[x].grade <= 3) && forall x :: x in st' ==> st'[x].grade <= 3
    ensures Lifted(own, st, xs) == Lifted(own, st', xs)
  {
    BestOfSame(st, st', xs, |xs|);
  }

  /** Claims that have settled stay settled while none of their standings changes. */
  lemma SettledMore(g: Graph, st: map<Id, Standing>, st': map<Id, Standing>, done: set<Id>)
    requires IsGraph(g) && Settled(g, st, done)
    requires forall c :: c in done ==> c in st && c in st' && st'[c] == st[c]
    requires forall x :: x in st' ==> st'[x].grade <= 3
    ensures Settled(g, st', done)
  {
    forall c | c in done
      ensures SettledAt(g, st', done, c)
    {
      assert SettledAt(g, st, done, c);
      if !IsDead(g.own[c]) {
        LiftedSame(g.own[c], st, st', g.common[c]);
      }
    }
  }

  lemma SettledWiden(g: Graph, st: map<Id, Standing>, done: set<Id>, c: Id)
    requires IsGraph(g) && Settled(g, st, done) && c in g.own && c in st
    requires if IsDead(g.own[c]) then st[c] == g.own[c]
             else (forall i :: 0 <= i < |g.common[c]| ==> g.common[c][i] in done)
                  && st[c] == Lifted(g.own[c], st, g.common[c])
    ensures Settled(g, st, done + {c})
  {
    forall x | x in done
      ensures SettledAt(g, st, done + {c}, x)
    {
      assert SettledAt(g, st, done, x);
    }
  }

  lemma {:induction false} VisitSettles(g: Graph, rank: map<Id, nat>, cid: Id, depth: nat, w: Walk, gray: set<Id>)
    requires IsGraph(g) && Ranked(g, rank) && cid in g.own && Fits(g, w)
    requires gray <= w.seen && forall c :: c in gray ==> rank[c] > rank[cid]
    requires Settled(g, w.st, w.seen - gray)
    ensures Settled(g, Visited(g, cid, depth, w).st, Visited(g, cid, depth, w).seen - gray)
    decreases g.own.Keys - w.seen, 0
  {
    if cid !in w.seen {
      var w1 := Met(g, cid, depth, w);
      var gray1 := gray + {cid};
      assert w1.seen - gray1 == w.seen - gray;
      SettledMore(g, w.st, w1.st, w.seen - gray);
      if IsDead(g.own[cid]) {
        assert w1.seen - gray == (w.seen - gray) + {cid};
        SettledWiden(g, w1.st, w.seen - gray, cid);
      } else {
        assert cid in (g.own.Keys - w.seen) && cid !in (g.own.Keys - w1.seen);
        UnderSettles(g, rank, cid, depth, |g.common[cid]|, w1, gray1);
        FinishSettles(g, rank, cid, depth, w1, gray);
      }
    }
  }

  lemma {:induction false} UnderSettles(g: Graph, rank: map<Id, nat>, cid: Id, depth: nat, n: nat, w: Walk, gray: set<Id>)
    requires IsGraph(g) && Ranked(g, rank) && cid in g.own && n <= |g.common[cid]| && Fits(g, w)
    requires gray <= w.seen && forall c :: c in gray ==> rank[c] >= rank[cid]
    requires Settled(g, w.st, w.seen - gray)
    ensures var r := VisitedUnder(g, cid, depth, n, w); Settled(g, r.st, r.seen - gray)
    decreases g.own.Keys - w.seen, n + 2
  {
    if n > 0 {
      UnderSettles(g, rank, cid, depth, n - 1, w, gray);
      var sub := g.common[cid][n - 1];
      assert rank[sub] < rank[cid];
      var before := VisitedUnder(g, cid, depth, n - 1, w);
      assert g.own.Keys - before.seen <= g.own.Keys - w.seen;
      SubSettles(g, rank, cid, depth, sub, before, gray);
    }
  }

  lemma {:induction false} SubSettles(g: Graph, rank: map<Id, nat>, cid: Id, depth: nat, sub: Id, w: Walk, gray: set<Id>)
    requires IsGraph(g) && Ranked(g, rank) && sub in g.own && Fits(g, w)
    requires gray <= w.seen && forall c :: c in gray ==> rank[c] > rank[sub]
    requires Settled(g, w.st, w.seen - gray)
    ensures var r := Visited(g, sub, depth + 1, WithParent(w, sub, cid)); Settled(g, r.st, r.seen - gray)
    decreases g.own.Keys - w.seen, 1
  {
    VisitSettles(g, rank, sub, depth + 1, WithParent(w, sub, cid), gray);
  }

  lemma {:induction false} UnderCovers(g: Graph, cid: Id, depth: nat, n: nat, w: Walk)
    requires IsGraph(g) && cid in g.own && n <= |g.common[cid]| && Fits(g, w)
    ensures forall i :: 0 <= i < n ==> g.common[cid][i] in VisitedUnder(g, cid, depth, n, w).seen
  {
    if n > 0 {
      UnderCovers(g, cid, depth, n - 1, w);
    }
  }

  lemma FinishSettles(g: Graph, rank: map<Id, nat>, cid: Id, depth: nat, w: Walk, gray: set<Id>)
    requires IsGraph(g) && Ranked(g, rank) && cid in w.seen && Fits(g, w) && !IsDead(g.own[cid])
    requires w.st[cid] == g.own[cid] && gray <= w.seen && forall c :: c in gray ==> rank[c] > rank[cid]
    requires var n := |g.common[cid]|;
             var w2 := VisitedUnder(g, cid, depth, n, w); Settled(g, w2.st, w2.seen - (gray + {cid}))
    ensures var r := Closed(g, cid, depth, VisitedUnder(g, cid, depth, |g.common[cid]|, w));
            Settled(g, r.st, r.seen - gray)
  {
    var n := |g.common[cid]|;
    UnderCovers(g, cid, depth, n, w);
    UnderExtends(g, cid, depth, n, w);
    CloseSettles(g, cid, depth, VisitedUnder(g, cid, depth, n, w), gray);
  }

  lemma CloseSettles(g: Graph, cid: Id, depth: nat, w: Walk, gray: set<Id>)
    requires IsGraph(g) && Fits(g, w) && cid in w.seen && !IsDead(g.own[cid]) && cid !in gray
    requires Settled(g, w.st, w.seen - (gray + {cid})) && w.st[cid] == g.own[cid]
    requires forall i :: 0 <= i < |g.common[cid]| ==> g.common[cid][i] in w.seen - (gray + {cid})
    ensures Settled(g, Closed(g, cid, depth, w).st, Closed(g, cid, depth, w).seen - gray)
  {
    var done, r := w.seen - (gray + {cid}), Closed(g, cid, depth, w);
    assert r.seen - gray == done + {cid};
    SettledMore(g, w.st, r.st, done);
    LiftedSame(g.own[cid], w.st, r.st, g.common[cid]);
    assert r.st[cid] == Lifted(g.own[cid], w.st, g.common[cid]);
    SettledWiden(g, r.st, done, cid);
  }

  lemma {:induction false} OpenSettles(g: Graph, rank: map<Id, nat>, cands: seq<Id>, n: nat)
    requires IsGraph(g) && Ranked(g, rank) && AllKnown(g, cands) && n <= |cands|
    ensures var r := OpenedFirst(g, cands, n);
            Settled(g, r.st, r.seen) && forall i :: 0 <= i < n ==> cands[i] in r.seen
  {
    if n > 0 {
      OpenSettles(g, rank, cands, n - 1);
      CandidateSettles(g, rank, cands[n - 1], OpenedFirst(g, cands, n - 1));
    }
  }

  lemma CandidateSettles(g: Graph, rank: map<Id, nat>, cid: Id, w: Walk)
    requires IsGraph(g) && Ranked(g, rank) && cid in g.own && Fits(g, w) && Settled(g, w.st, w.seen)
    ensures Settled(g, Visited(g, cid, 0, w).st, Visited(g, cid, 0, w).seen)
  {
    var r := Visited(g, cid, 0, w);
    assert w.seen - {} == w.seen && r.seen - {} == r.seen;
    VisitSettles(g, rank, cid, 0, w, {});
  }

  ghost predicate IsOpenable(g: Graph, cands: seq<Id>) {
    IsGraph(g) && Acyclic(g) && AllKnown(g, cands)
  }

  /** After `open`, every claim met has the standing its sub-causes lift it to. */
  lemma OpenedSettled(g: Graph, cands: seq<Id>)
    requires IsOpenable(g, cands)
    ensures var r := Opened(g, cands);
            Settled(g, r.st, r.seen) && r.st.Keys == r.seen && forall x :: x in cands ==> x in r.seen
  {
    var rank :| Ranked(g, rank);
    OpenSettles(g, rank, cands, |cands|);
  }

  // --------------------------------------------------------- the recursion it computes

  /** The final grade as a recursion on the refinement graph, with no walk and no memory:
      nothing for a dead claim, else the best of its own grade and its common sub-causes'. */
  ghost function FinalGrade(g: Graph, rank: map<Id, nat>, c: Id): nat
    requires IsGraph(g) && Ranked(g, rank) && c in g.own
    decreases rank[c], 1, 0
  {
    if IsDead(g.own[c]) then 0 else Max(g.own[c].grade, BestGrade(g, rank, c, |g.common[c]|))
  }

  /** The best final grade among the first `n` common sub-causes of `c`. */
  ghost function BestGrade(g: Graph, rank: map<Id, nat>, c: Id, n: nat): nat
    requires IsGraph(g) && Ranked(g, rank) && c in g.own && n <= |g.common[c]|
    decreases rank[c], 0, n
  {
    if n == 0 then 0
    else
      assert g.common[c][n - 1] in g.own;
      Max(BestGrade(g, rank, c, n - 1), FinalGrade(g, rank, g.common[c][n - 1]))
  }

  lemma {:induction false} SettledGrade(g: Graph, rank: map<Id, nat>, st: map<Id, Standing>, done: set<Id>, c: Id)
    requires IsGraph(g) && Ranked(g, rank) && Settled(g, st, done) && c in done
    ensures c in g.own && c in st && st[c].grade == FinalGrade(g, rank, c)
    decreases rank[c], 1, 0
  {
    assert SettledAt(g, st, done, c);
    if !IsDead(g.own[c]) {
      SettledBest(g, rank, st, done, c, |g.common[c]|);
    }
  }

  lemma {:induction false} SettledBest(g: Graph, rank: map<Id, nat>, st: map<Id, Standing>, done: set<Id>, c: Id, n: nat)
    requires IsGraph(g) && Ranked(g, rank) && Settled(g, st, done) && c in done && !IsDead(g.own[c])
    requires n <= |g.common[c]|
    ensures var b := BestOf(st, g.common[c], n);
            BestGrade(g, rank, c, n) == if b.Some? then st[b.value].grade else 0
    ensures n > 0 ==> BestOf(st, g.common[c], n).Some?
    decreases rank[c], 0, n
  {
    if n > 0 {
      SettledBest(g, rank, st, done, c, n - 1);
      assert SettledAt(g, st, done, c);
      SettledGrade(g, rank, st, done, g.common[c][n - 1]);
    }
  }

  /** The walk's grade is the recursion's, for every claim it met. */
  lemma OpenedGrades(g: Graph, rank: map<Id, nat>, cands: seq<Id>, c: Id)
    requires IsOpenable(g, cands) && Ranked(g, rank) && c in Opened(g, cands).seen
    ensures Opened(g, cands).st[c].grade == FinalGrade(g, rank, c)
  {
    OpenedSettled(g, cands);
    SettledGrade(g, rank, Opened(g, cands).st, Opened(g, cands).seen, c);
  }

  /** Standings that settle are the only ones that do: nothing of the order they were
      reached in is left in them, down to which sub-cause a claim was lifted by. */
  lemma {:induction false} SettledUnique(g: Graph, rank: map<Id, nat>, st: map<Id, Standing>, st': map<Id, Standing>,
                                         done: set<Id>, done': set<Id>, c: Id)
    requires IsGraph(g) && Ranked(g, rank) && Settled(g, st, done) && Settled(g, st', done')
    requires c in done && c in done'
    ensures c in st && c in st' && st[c] == st'[c]
    decreases rank[c]
  {
    assert SettledAt(g, st, done, c) && SettledAt(g, st', done', c);
    if !IsDead(g.own[c]) {
      forall i | 0 <= i < |g.common[c]|
        ensures var x := g.common[c][i]; x in st && x in st' && st[x] == st'[x]
      {
        SettledUnique(g, rank, st, st', done, done', g.common[c][i]);
      }
      LiftedSame(g.own[c], st, st', g.common[c]);
    }
  }

  // ------------------------------------------------------------------------ what is met

  ghost predicate LivePath(g: Graph, cands: seq<Id>, path: seq<Id>)
    requires IsGraph(g)
  {
    && path != [] && path[0] in cands
    && forall i :: 0 <= i < |path| - 1 ==>
         path[i] in g.own && !IsDead(g.own[path[i]]) && path[i + 1] in g.common[path[i]]
  }

  /** A chain of live claims, each a common sub-cause of the one before, leads from a
      candidate to `c`. */
  ghost predicate Reached(g: Graph, cands: seq<Id>, c: Id)
    requires IsGraph(g)
  {
    exists path :: LivePath(g, cands, path) && path[|path| - 1] == c
  }

  lemma ReachedStep(g: Graph, cands: seq<Id>, c: Id, x: Id)
    requires IsGraph(g) && Reached(g, cands, c) && c in g.own && !IsDead(g.own[c]) && x in g.common[c]
    ensures Reached(g, cands, x)
  {
    var path :| LivePath(g, cands, path) && path[|path| - 1] == c;
    var longer := path + [x];
    assert LivePath(g, cands, longer) && longer[|longer| - 1] == x;
  }

  ghost predicate AllReached(g: Graph, cands: seq<Id>, seen: set<Id>)
    requires IsGraph(g)
  {
    forall c {:trigger Reached(g, cands, c)} :: c in seen ==> Reached(g, cands, c)
  }

  lemma {:induction false} VisitReaches(g: Graph, cands: seq<Id>, cid: Id, depth: nat, w: Walk)
    requires IsGraph(g) && cid in g.own && Fits(g, w) && Reached(g, cands, cid) && AllReached(g, cands, w.seen)
    ensures AllReached(g, cands, Visited(g, cid, depth, w).seen)
    decreases g.own.Keys - w.seen, 0
  {
    if cid !in w.seen {
      var w1 := Met(g, cid, depth, w);
      if !IsDead(g.own[cid]) {
        assert cid in (g.own.Keys - w.seen) && cid !in (g.own.Keys - w1.seen);
        UnderReaches(g, cands, cid, depth, |g.common[cid]|, w1);
      }
    }
  }

  lemma {:induction false} UnderReaches(g: Graph, cands: seq<Id>, cid: Id, depth: nat, n: nat, w: Walk)
    requires IsGraph(g) && cid in g.own && !IsDead(g.own[cid]) && n <= |g.common[cid]| && Fits(g, w)
    requires Reached(g, cands, cid) && AllReached(g, cands, w.seen)
    ensures AllReached(g, cands, VisitedUnder(g, cid, depth, n, w).seen)
    decreases g.own.Keys - w.seen, n + 2
  {
    if n > 0 {
      UnderReaches(g, cands, cid, depth, n - 1, w);
      var sub := g.common[cid][n - 1];
      ReachedStep(g, cands, cid, sub);
      SubReaches(g, cands, cid, depth, sub, VisitedUnder(g, cid, depth, n - 1, w));
    }
  }

  lemma {:induction false} SubReaches(g: Graph, cands: seq<Id>, cid: Id, depth: nat, sub: Id, w: Walk)
    requires IsGraph(g) && sub in g.own && Fits(g, w) && Reached(g, cands, sub) && AllReached(g, cands, w.seen)
    ensures AllReached(g, cands, Visited(g, sub, depth + 1, WithParent(w, sub, cid)).seen)
    decreases g.own.Keys - w.seen, 1
  {
    VisitReaches(g, cands, sub, depth + 1, WithParent(w, sub, cid));
  }

  lemma {:induction false} OpenReaches(g: Graph, cands: seq<Id>, n: nat)
    requires IsGraph(g) && AllKnown(g, cands) && n <= |cands|
    ensures AllReached(g, cands, OpenedFirst(g, cands, n).seen)
  {
    if n > 0 {
      OpenReaches(g, cands, n - 1);
      var path := [cands[n - 1]];
      assert LivePath(g, cands, path) && path[|path| - 1] == cands[n - 1];
      VisitReaches(g, cands, cands[n - 1], 0, OpenedFirst(g, cands, n - 1));
    }
  }

  lemma {:induction false} SettledClosed(g: Graph, cands: seq<Id>, st: map<Id, Standing>, done: set<Id>, path: seq<Id>)
    requires IsGraph(g) && Settled(g, st, done) && (forall x :: x in cands ==> x in done) && LivePath(g, cands, path)
    ensures path[|path| - 1] in done
  {
    if |path| > 1 {
      var front := path[..|path| - 1];
      assert LivePath(g, cands, front);
      SettledClosed(g, cands, st, done, front);
      assert SettledAt(g, st, done, front[|front| - 1]);
    }
  }

  /** The claims met are exactly those live common refinement leads to from a candidate. */
  lemma OpenedReached(g: Graph, cands: seq<Id>, c: Id)
    requires IsOpenable(g, cands)
    ensures c in Opened(g, cands).seen <==> Reached(g, cands, c)
  {
    OpenedSettled(g, cands);
    OpenReaches(g, cands, |cands|);
    var r := Opened(g, cands);
    if Reached(g, cands, c) {
      var path :| LivePath(g, cands, path) && path[|path| - 1] == c;
      SettledClosed(g, cands, r.st, r.seen, path);
    }
  }

  lemma ReachedSame(g: Graph, cands: seq<Id>, cands': seq<Id>, c: Id)
    requires IsGraph(g) && (forall x :: x in cands <==> x in cands') && Reached(g, cands, c)
    ensures Reached(g, cands', c)
  {
    var path :| LivePath(g, cands, path) && path[|path| - 1] == c;
    assert LivePath(g, cands', path);
  }

  /** Neither what is met nor any standing depends on the order of the candidates. */
  lemma OrderOfCandidatesIsNoMatter(g: Graph, cands: seq<Id>, cands': seq<Id>)
    requires IsOpenable(g, cands) && forall x :: x in cands <==> x in cands'
    ensures IsOpenable(g, cands')
    ensures Opened(g, cands).seen == Opened(g, cands').seen
    ensures Opened(g, cands).st == Opened(g, cands').st
  {
    forall i | 0 <= i < |cands'|
      ensures cands'[i] in g.own
    {
      assert cands'[i] in cands;
    }
    var rank :| Ranked(g, rank);
    var r, r' := Opened(g, cands), Opened(g, cands');
    forall c
      ensures c in r.seen <==> c in r'.seen
    {
      OpenedReached(g, cands, c);
      OpenedReached(g, cands', c);
      if Reached(g, cands, c) { ReachedSame(g, cands, cands', c); }
      if Reached(g, cands', c) { ReachedSame(g, cands', cands, c); }
    }
    OpenedSettled(g, cands);
    OpenedSettled(g, cands');
    forall c | c in r.seen
      ensures r.st[c] == r'.st[c]
    {
      SettledUnique(g, rank, r.st, r'.st, r.seen, r'.seen, c);
    }
  }

  // -------------------------------------------------- the order sub-causes are visited in

  /** The same claims with the same standings and the same common sub-causes, listed and so
      visited in another order. */
  ghost predicate SameSubs(g: Graph, g': Graph) {
    && g.own == g'.own && g.common.Keys == g'.common.Keys
    && forall c {:trigger g.common[c]} {:trigger g'.common[c]} :: c in g.common ==> SameMembers(g.common[c], g'.common[c])
  }

  ghost predicate SameMembers(xs: seq<Id>, ys: seq<Id>) {
    forall x :: x in xs <==> x in ys
  }

  lemma {:induction false} PrecedesNotBoth(a: string, b: string)
    requires Precedes(a, b)
    ensures !Precedes(b, a)
  {
    if a != "" && a[0] == b[0] {
      PrecedesNotBoth(a[1..], b[1..]);
    }
  }

  lemma {:induction false} BestOfMember(st: map<Id, Standing>, xs: seq<Id>, n: nat)
    requires n <= |xs| && BestOf(st, xs, n).Some?
    ensures BestOf(st, xs, n).value in xs[..n]
  {
    if xs[n - 1] !in st || BestOf(st, xs, n) != Some(xs[n - 1]) {
      BestOfMember(st, xs, n - 1);
      assert xs[..n] == xs[..n - 1] + [xs[n - 1]];
    }
  }

  lemma BestIsThere(st: map<Id, Standing>, xs: seq<Id>, ys: seq<Id>)
    requires SameMembers(xs, ys) && BestOf(st, xs, |xs|).Some?
    ensures BestOf(st, ys, |ys|).Some?
    ensures var b, b' := BestOf(st, xs, |xs|).value, BestOf(st, ys, |ys|).value; b == b' || Outranks(st, b', b)
  {
    var b := BestOf(st, xs, |xs|).value;
    BestOfMember(st, xs, |xs|);
    assert xs[..|xs|] == xs;
    var i :| 0 <= i < |ys| && ys[i] == b;
    BestOfIsGreatest(st, ys, |ys|, i);
  }

  lemma BestOfSameMembers(st: map<Id, Standing>, xs: seq<Id>, ys: seq<Id>)
    requires SameMembers(xs, ys)
    ensures BestOf(st, xs, |xs|) == BestOf(st, ys, |ys|)
  {
    if BestOf(st, xs, |xs|).Some? || BestOf(st, ys, |ys|).Some? {
      if BestOf(st, xs, |xs|).Some? {
        BestIsThere(st, xs, ys);
        BestIsThere(st, ys, xs);
      } else {
        BestIsThere(st, ys, xs);
        BestIsThere(st, xs, ys);
      }
      var b, b' := BestOf(st, xs, |xs|).value, BestOf(st, ys, |ys|).value;
      if b != b' && st[b].grade == st[b'].grade {
        PrecedesNotBoth(b, b');
      }
    }
  }

  lemma SettledInBoth(g: Graph, g': Graph, st: map<Id, Standing>, done: set<Id>)
    requires IsGraph(g) && IsGraph(g') && SameSubs(g, g') && Settled(g, st, done)
    ensures Settled(g', st, done)
  {
    forall c | c in done
      ensures SettledAt(g', st, done, c)
    {
      assert SettledAt(g, st, done, c);
      BestOfSameMembers(st, g.common[c], g'.common[c]);
      if !IsDead(g.own[c]) {
        forall i | 0 <= i < |g'.common[c]|
          ensures g'.common[c][i] in done
        {
          assert g'.common[c][i] in g'.common[c];
        }
      }
    }
  }

  lemma ReachedInBoth(g: Graph, g': Graph, cands: seq<Id>, c: Id)
    requires IsGraph(g) && IsGraph(g') && SameSubs(g, g') && Reached(g, cands, c)
    ensures Reached(g', cands, c)
  {
    var path :| LivePath(g, cands, path) && path[|path| - 1] == c;
    forall i | 0 <= i < |path| - 1
      ensures path[i + 1] in g'.common[path[i]]
    {
      assert path[i + 1] in g.common[path[i]];
    }
    assert LivePath(g', cands, path);
  }

  lemma RankedInBoth(g: Graph, g': Graph, rank: map<Id, nat>)
    requires IsGraph(g) && IsGraph(g') && SameSubs(g, g') && Ranked(g, rank)
    ensures Ranked(g', rank)
  {
    forall c, i | c in g'.common && 0 <= i < |g'.common[c]| && c in rank && g'.common[c][i] in rank
      ensures rank[g'.common[c][i]] < rank[c]
    {
      assert g'.common[c][i] in g'.common[c];
      var j :| 0 <= j < |g.common[c]| && g.common[c][j] == g'.common[c][i];
    }
  }

  /** Nor does either depend on the order in which the sub-causes of any claim are visited,
      down to which of them a claim is lifted by. */
  lemma OrderOfSubCausesIsNoMatter(g: Graph, g': Graph, cands: seq<Id>)
    requires IsOpenable(g, cands) && IsGraph(g') && SameSubs(g, g')
    ensures IsOpenable(g', cands)
    ensures Opened(g, cands).seen == Opened(g', cands).seen
    ensures Opened(g, cands).st == Opened(g', cands).st
  {
    var rank :| Ranked(g, rank);
    RankedInBoth(g, g', rank);
    var r, r' := Opened(g, cands), Opened(g', cands);
    forall c
      ensures c in r.seen <==> c in r'.seen
    {
      OpenedReached(g, cands, c);
      OpenedReached(g', cands, c);
      if Reached(g, cands, c) { ReachedInBoth(g, g', cands, c); }
      if Reached(g', cands, c) { ReachedInBoth(g', g, cands, c); }
    }
    OpenedSettled(g, cands);
    OpenedSettled(g', cands);
    SettledInBoth(g, g', r.st, r.seen);
    forall c | c in r.seen
      ensures r.st[c] == r'.st[c]
    {
      SettledUnique(g', rank, r.st, r'.st, r.seen, r'.seen, c);
    }
  }
}
