/**
 Who leads among siblings (`ranking`), and the chain of leaders `fmt_open` prints as the
 most likely cause.
 */
module Ranking {
  import opened Base
  import opened Knowledge
  import opened Standings
  import opened OpenWalk
  import opened OpenTheorems
  import opened OpenRows

  // --------------------------------------------------------------------------- the groups

  lemma {:induction false} UnderMembers(subs: seq<Id>, parent: map<Id, Id>, cid: Id, x: Id)
    ensures x in Under(subs, parent, cid) <==> x in subs && x in parent && parent[x] == cid
  {
    if subs != [] {
      var front, last := subs[..|subs| - 1], subs[|subs| - 1];
      UnderMembers(front, parent, cid, x);
      assert subs == front + [last];
    }
  }

  lemma {:induction false} UnderSame(subs: seq<Id>, parent: map<Id, Id>, parent': map<Id, Id>, cid: Id)
    requires forall i :: 0 <= i < |subs| ==> subs[i] in parent
    requires forall x :: x in parent ==> x in parent' && parent'[x] == parent[x]
    ensures Under(subs, parent, cid) == Under(subs, parent', cid)
  {
    if subs != [] {
      assert subs[|subs| - 1] in parent;
      UnderSame(subs[..|subs| - 1], parent, parent', cid);
    }
  }

  /** A sibling group: the candidates, or the sub-causes first met under a live claim. */
  ghost predicate GroupOk(g: Graph, cands: seq<Id>, parent: map<Id, Id>, grp: Group) {
    match grp.of_
    case None => grp.members == cands
    case Some(c) =>
      && c in g.own && c in g.common && !IsDead(g.own[c])
      && (forall i :: 0 <= i < |g.common[c]| ==> g.common[c][i] in parent)
      && grp.members == Under(g.common[c], parent, c)
  }

  ghost predicate GroupsOk(g: Graph, cands: seq<Id>, w: Walk) {
    && Group(None, cands) in w.groups
    && forall k {:trigger GroupOk(g, cands, w.parent, w.groups[k])} :: 0 <= k < |w.groups| ==>
         GroupOk(g, cands, w.parent, w.groups[k])
  }

  ghost predicate HasGroup(groups: seq<Group>, c: Id) {
    exists k :: 0 <= k < |groups| && groups[k].of_ == Some(c)
  }

  /** Every finished live claim with common sub-causes has its group. */
  ghost predicate GroupsComplete(g: Graph, w: Walk, done: set<Id>)
    requires IsGraph(g)
  {
    forall c {:trigger HasGroup(w.groups, c)} :: c in done && c in g.own && !IsDead(g.own[c]) && g.common[c] != []
      ==> HasGroup(w.groups, c)
  }

  lemma GroupsExtend(g: Graph, cands: seq<Id>, w: Walk, w': Walk)
    requires GroupsOk(g, cands, w) && w'.groups == w.groups
    requires forall x :: x in w.parent ==> x in w'.parent && w'.parent[x] == w.parent[x]
    ensures GroupsOk(g, cands, w')
  {
    forall k | 0 <= k < |w'.groups|
      ensures GroupOk(g, cands, w'.parent, w'.groups[k])
    {
      assert GroupOk(g, cands, w.parent, w.groups[k]);
      if w.groups[k].of_.Some? {
        var c := w.groups[k].of_.value;
        UnderSame(g.common[c], w.parent, w'.parent, c);
      }
    }
  }

  lemma CloseGroups(g: Graph, cands: seq<Id>, cid: Id, depth: nat, w: Walk, gray: set<Id>)
    requires IsGraph(g) && cid in w.seen && Fits(g, w) && !IsDead(g.own[cid]) && cid !in gray
    requires GroupsOk(g, cands, w) && GroupsComplete(g, w, w.seen - (gray + {cid}))
    requires forall i :: 0 <= i < |g.common[cid]| ==> g.common[cid][i] in w.parent
    ensures var r := Closed(g, cid, depth, w);
            GroupsOk(g, cands, r) && GroupsComplete(g, r, r.seen - gray)
  {
    var r := Closed(g, cid, depth, w);
    forall k | 0 <= k < |r.groups|
      ensures GroupOk(g, cands, r.parent, r.groups[k])
    {
      if k < |w.groups| {
        assert r.groups[k] == w.groups[k] && GroupOk(g, cands, w.parent, w.groups[k]);
      }
    }
    forall c | c in r.seen - gray && !IsDead(g.own[c]) && g.common[c] != []
      ensures HasGroup(r.groups, c)
    {
      if c == cid {
        assert r.groups[|w.groups|].of_ == Some(cid);
      } else {
        assert HasGroup(w.groups, c);
        var k :| 0 <= k < |w.groups| && w.groups[k].of_ == Some(c);
        assert r.groups[k] == w.groups[k];
      }
    }
  }

  lemma {:induction false} VisitGroups(g: Graph, cands: seq<Id>, cid: Id, depth: nat, w: Walk, gray: set<Id>)
    requires IsGraph(g) && cid in g.own && Fits(g, w) && gray <= w.seen
    requires GroupsOk(g, cands, w) && GroupsComplete(g, w, w.seen - gray)
    ensures var r := Visited(g, cid, depth, w);
            GroupsOk(g, cands, r) && GroupsComplete(g, r, r.seen - gray)
    decreases g.own.Keys - w.seen, 0
  {
    if cid !in w.seen {
      var w1 := Met(g, cid, depth, w);
      GroupsExtend(g, cands, w, w1);
      if !IsDead(g.own[cid]) {
        assert cid in (g.own.Keys - w.seen) && cid !in (g.own.Keys - w1.seen);
        var n := |g.common[cid]|;
        UnderGroups(g, cands, cid, depth, n, w1, gray + {cid});
        UnderHaveParents(g, cid, depth, n, w1);
        CloseGroups(g, cands, cid, depth, VisitedUnder(g, cid, depth, n, w1), gray);
      }
    }
  }

  lemma {:induction false} UnderGroups(g: Graph, cands: seq<Id>, cid: Id, depth: nat, n: nat, w: Walk, gray: set<Id>)
    requires IsGraph(g) && cid in g.own && n <= |g.common[cid]| && Fits(g, w) && gray <= w.seen
    requires GroupsOk(g, cands, w) && GroupsComplete(g, w, w.seen - gray)
    ensures var r := VisitedUnder(g, cid, depth, n, w);
            GroupsOk(g, cands, r) && GroupsComplete(g, r, r.seen - gray)
    decreases g.own.Keys - w.seen, n + 2
  {
    if n > 0 {
      UnderGroups(g, cands, cid, depth, n - 1, w, gray);
      var before := VisitedUnder(g, cid, depth, n - 1, w);
      var sub := g.common[cid][n - 1];
      GroupsExtend(g, cands, before, WithParent(before, sub, cid));
      VisitGroups(g, cands, sub, depth + 1, WithParent(before, sub, cid), gray);
    }
  }

  lemma {:induction false} OpenGroups(g: Graph, cands: seq<Id>, n: nat)
    requires IsGraph(g) && AllKnown(g, cands) && n <= |cands|
    ensures var r := OpenedFirst(g, cands, n); GroupsOk(g, cands, r) && GroupsComplete(g, r, r.seen)
  {
    if n > 0 {
      OpenGroups(g, cands, n - 1);
      CandidateGroups(g, cands, cands[n - 1], OpenedFirst(g, cands, n - 1));
    }
  }

  lemma CandidateGroups(g: Graph, cands: seq<Id>, cid: Id, w: Walk)
    requires IsGraph(g) && cid in g.own && Fits(g, w)
    requires GroupsOk(g, cands, w) && GroupsComplete(g, w, w.seen)
    ensures var r := Visited(g, cid, 0, w); GroupsOk(g, cands, r) && GroupsComplete(g, r, r.seen)
  {
    var r := Visited(g, cid, 0, w);
    assert w.seen - {} == w.seen && r.seen - {} == r.seen;
    VisitGroups(g, cands, cid, 0, w, {});
  }

  /** All that `open` leaves behind hangs together. */
  ghost predicate Coherent(g: Graph, cands: seq<Id>, w: Walk)
    requires IsGraph(g)
  {
    && Settled(g, w.st, w.seen) && w.st.Keys == w.seen
    && AllReached(g, cands, w.seen) && (forall x :: x in cands ==> x in w.seen)
    && ParentsMet(g, w)
    && RowsOk(cands, w)
    && GroupsOk(g, cands, w) && GroupsComplete(g, w, w.seen)
  }

  lemma OpenedCoherent(g: Graph, cands: seq<Id>)
    requires IsOpenable(g, cands)
    ensures Coherent(g, cands, Opened(g, cands))
  {
    OpenedSettled(g, cands);
    OpenReaches(g, cands, |cands|);
    OpenParents(g, cands, |cands|);
    OpenRowsFirst(g, cands, |cands|);
    OpenGroups(g, cands, |cands|);
  }

  // -------------------------------------------------------------------------- the leaders

  /** Member `i` is supported, and strictly better than every other member. */
  predicate LeadsAt(st: map<Id, Standing>, members: seq<Id>, i: nat)
    requires i < |members| && forall j :: 0 <= j < |members| ==> members[j] in st
  {
    && st[members[i]].grade > 0
    && forall j :: 0 <= j < |members| && j != i ==> st[members[j]].grade < st[members[i]].grade
  }

  predicate AllStand(st: map<Id, Standing>, members: seq<Id>) {
    forall j :: 0 <= j < |members| ==> members[j] in st
  }

  predicate Leads(st: map<Id, Standing>, members: seq<Id>, x: Id) {
    AllStand(st, members) && exists i :: 0 <= i < |members| && members[i] == x && LeadsAt(st, members, i)
  }

  ghost predicate IsLead(st: map<Id, Standing>, groups: seq<Group>, x: Id) {
    exists k :: 0 <= k < |groups| && Leads(st, groups[k].members, x)
  }

  /** The highest grade among the first `n` members. */
  function TopGrade(st: map<Id, Standing>, members: seq<Id>, n: nat): (top: nat)
    requires AllStand(st, members) && n <= |members|
    ensures forall j :: 0 <= j < n ==> st[members[j]].grade <= top
    ensures top > 0 ==> exists j :: 0 <= j < n && st[members[j]].grade == top
  {
    if n == 0 then 0 else Max(TopGrade(st, members, n - 1), st[members[n - 1]].grade)
  }

  /** The positions, among the first `n` members, of those of this grade. */
  function AtGrade(st: map<Id, Standing>, members: seq<Id>, n: nat, grade: nat): (r: seq<nat>)
    requires AllStand(st, members) && n <= |members|
    ensures forall a :: 0 <= a < |r| ==> r[a] < n
  {
    if n == 0 then []
    else AtGrade(st, members, n - 1, grade) + if st[members[n - 1]].grade == grade then [n - 1] else []
  }

  lemma {:induction false} AtGradeMembers(st: map<Id, Standing>, members: seq<Id>, n: nat, grade: nat, i: nat)
    requires AllStand(st, members) && n <= |members|
    ensures i in AtGrade(st, members, n, grade) <==> i < n && st[members[i]].grade == grade
  {
    if n > 0 {
      AtGradeMembers(st, members, n - 1, grade, i);
    }
  }

  /** The one member at the top, if there is just one and it has support. */
  function LoneTop(st: map<Id, Standing>, members: seq<Id>): Option<Id>
    requires AllStand(st, members)
  {
    var top := TopGrade(st, members, |members|);
    var first := AtGrade(st, members, |members|, top);
    if top > 0 && |first| == 1 then Some(members[first[0]]) else None
  }

  lemma LeaderIsLoneTop(st: map<Id, Standing>, members: seq<Id>, i: nat)
    requires AllStand(st, members) && i < |members| && LeadsAt(st, members, i)
    ensures var top := TopGrade(st, members, |members|);
            top > 0 && AtGrade(st, members, |members|, top) == [i]
  {
    LoneAtGrade(st, members, |members|, i, TopGrade(st, members, |members|));
  }

  lemma {:induction false} LoneAtGrade(st: map<Id, Standing>, members: seq<Id>, n: nat, i: nat, grade: nat)
    requires AllStand(st, members) && n <= |members| && i < |members|
    requires forall j :: 0 <= j < |members| ==> (st[members[j]].grade == grade <==> j == i)
    ensures AtGrade(st, members, n, grade) == if i < n then [i] else []
  {
    if n > 0 {
      LoneAtGrade(st, members, n - 1, i, grade);
    }
  }

  lemma LoneTopIsLeader(st: map<Id, Standing>, members: seq<Id>)
    requires AllStand(st, members)
    requires var top := TopGrade(st, members, |members|);
             top > 0 && |AtGrade(st, members, |members|, top)| == 1
    ensures LeadsAt(st, members, AtGrade(st, members, |members|, TopGrade(st, members, |members|))[0])
  {
    var top := TopGrade(st, members, |members|);
    var first := AtGrade(st, members, |members|, top);
    assert first[0] in first;
    AtGradeMembers(st, members, |members|, top, first[0]);
    forall j | 0 <= j < |members| && j != first[0]
      ensures st[members[j]].grade < top
    {
      AtGradeMembers(st, members, |members|, top, j);
    }
  }

  lemma LoneTopLeads(st: map<Id, Standing>, members: seq<Id>)
    requires AllStand(st, members)
    ensures forall x :: Leads(st, members, x) <==> LoneTop(st, members) == Some(x)
  {
    var top := TopGrade(st, members, |members|);
    var first := AtGrade(st, members, |members|, top);
    forall x
      ensures Leads(st, members, x) <==> LoneTop(st, members) == Some(x)
    {
      if Leads(st, members, x) {
        var i :| 0 <= i < |members| && members[i] == x && LeadsAt(st, members, i);
        LeaderIsLoneTop(st, members, i);
      }
      if top > 0 && |first| == 1 && members[first[0]] == x {
        LoneTopIsLeader(st, members);
      }
    }
  }

  /** `ranking`: among siblings the highest support leads; a tie at the top leads nobody. */
  method RankGroups(groups: seq<Group>, st: map<Id, Standing>) returns (leads: set<Id>)
    requires forall k :: 0 <= k < |groups| ==> AllStand(st, groups[k].members)
    ensures forall x :: x in leads <==> IsLead(st, groups, x)
  {
    leads := {};
    for k := 0 to |groups|
      invariant forall x :: x in leads <==> exists i :: 0 <= i < k && Leads(st, groups[i].members, x)
    {
      var lone := LoneTop(st, groups[k].members);
      LoneTopLeads(st, groups[k].members);
      if lone.Some? {
        leads := leads + {lone.value};
      }
    }
  }

  /** Each group has at most one leader. */
  lemma OneLeaderPerGroup(st: map<Id, Standing>, members: seq<Id>, x: Id, y: Id)
    requires Leads(st, members, x) && Leads(st, members, y)
    ensures x == y
  {
    var i :| 0 <= i < |members| && members[i] == x && LeadsAt(st, members, i);
    var j :| 0 <= j < |members| && members[j] == y && LeadsAt(st, members, j);
  }

  // ---------------------------------------------------------- support rises to candidates

  lemma {:induction false} BestOfTops(st: map<Id, Standing>, xs: seq<Id>, n: nat, i: nat)
    requires i < n <= |xs| && xs[i] in st
    ensures BestOf(st, xs, n).Some? && st[xs[i]].grade <= st[BestOf(st, xs, n).value].grade
  {
    if i < n - 1 {
      BestOfTops(st, xs, n - 1, i);
    }
  }

  lemma SubNoBetter(g: Graph, st: map<Id, Standing>, done: set<Id>, c: Id, x: Id)
    requires IsGraph(g) && Settled(g, st, done) && c in done && !IsDead(g.own[c]) && x in g.common[c]
    ensures x in st && st[x].grade <= st[c].grade
  {
    assert SettledAt(g, st, done, c);
    var i :| 0 <= i < |g.common[c]| && g.common[c][i] == x;
    BestOfTops(st, g.common[c], |g.common[c]|, i);
  }

  /** Along a live path no claim is better supported than where the path began, and on an
      acyclic graph each ranks lower. */
  lemma {:induction false} SupportRises(g: Graph, rank: map<Id, nat>, cands: seq<Id>, st: map<Id, Standing>, done: set<Id>,
                                        path: seq<Id>)
    requires IsGraph(g) && Ranked(g, rank) && Settled(g, st, done) && LivePath(g, cands, path)
    requires forall x :: x in cands ==> x in done
    ensures var last := path[|path| - 1];
            last in done && path[0] in done && st[last].grade <= st[path[0]].grade && rank[last] <= rank[path[0]]
  {
    if |path| > 1 {
      var front := path[..|path| - 1];
      assert LivePath(g, cands, front);
      SupportRises(g, rank, cands, st, done, front);
      var c, x := front[|front| - 1], path[|path| - 1];
      SubNoBetter(g, st, done, c, x);
      SettledClosed(g, cands, st, done, path);
      var i :| 0 <= i < |g.common[c]| && g.common[c][i] == x;
    }
  }

  /** Every claim met is at most as well supported as some candidate that reaches it. */
  lemma AboveIsACandidate(g: Graph, rank: map<Id, nat>, cands: seq<Id>, w: Walk, c: Id) returns (q: Id)
    requires IsGraph(g) && Ranked(g, rank) && Coherent(g, cands, w) && c in w.seen
    ensures q in cands && q in w.st && w.st[c].grade <= w.st[q].grade && rank[c] <= rank[q]
  {
    assert Reached(g, cands, c);
    var path :| LivePath(g, cands, path) && path[|path| - 1] == c;
    SupportRises(g, rank, cands, w.st, w.seen, path);
    q := path[0];
  }

  /** A claim met under another has a candidate, not itself, at least as well supported. */
  lemma MetUnderIsMatched(g: Graph, rank: map<Id, nat>, cands: seq<Id>, w: Walk, m: Id)
    requires IsGraph(g) && Ranked(g, rank) && Coherent(g, cands, w) && m in w.parent
    ensures m in w.st && exists j :: 0 <= j < |cands| && cands[j] != m && cands[j] in w.st
                                     && w.st[m].grade <= w.st[cands[j]].grade
  {
    var p := w.parent[m];
    assert ParentOf(g, w.seen, m, p);
    var q := AboveIsACandidate(g, rank, cands, w, p);
    SubNoBetter(g, w.st, w.seen, p, m);
    var k :| 0 <= k < |g.common[p]| && g.common[p][k] == m;
    var j :| 0 <= j < |cands| && cands[j] == q;
    assert rank[m] < rank[p];
  }

  /** The candidates' leader is as well supported as anything met, and was met under no
      other claim; so its row is at depth 0. */
  lemma CandidateLeaderOnTop(g: Graph, cands: seq<Id>, w: Walk, m: Id)
    requires IsGraph(g) && Acyclic(g) && Coherent(g, cands, w) && Leads(w.st, cands, m)
    ensures forall c :: c in w.seen ==> w.st[c].grade <= w.st[m].grade
    ensures m !in w.parent
    ensures FindRow(w.rows, m).Some? && w.rows[FindRow(w.rows, m).value].depth == 0
  {
    var rank :| Ranked(g, rank);
    var i :| 0 <= i < |cands| && cands[i] == m && LeadsAt(w.st, cands, i);
    forall c | c in w.seen
      ensures w.st[c].grade <= w.st[m].grade
    {
      var q := AboveIsACandidate(g, rank, cands, w, c);
      var j :| 0 <= j < |cands| && cands[j] == q;
    }
    if m in w.parent {
      MetUnderIsMatched(g, rank, cands, w, m);
      assert false;
    }
    assert m in cands;
    var r := FindRow(w.rows, m).value;
    assert RowOk(cands, w.rows, w.st, w.parent, r);
  }

  /** Whom a claim leads: the candidates, or the siblings under its own parent. */
  lemma LeadKinds(g: Graph, cands: seq<Id>, w: Walk, x: Id)
    requires IsGraph(g) && Coherent(g, cands, w) && IsLead(w.st, w.groups, x)
    ensures Leads(w.st, cands, x) || (x in w.parent && w.parent[x] in g.common
                                      && Leads(w.st, Under(g.common[w.parent[x]], w.parent, w.parent[x]), x))
  {
    var k :| 0 <= k < |w.groups| && Leads(w.st, w.groups[k].members, x);
    assert GroupOk(g, cands, w.parent, w.groups[k]);
    if w.groups[k].of_.Some? {
      var c := w.groups[k].of_.value;
      UnderMembers(g.common[c], w.parent, c, x);
    }
  }

  /** At most one leader has any given parent: the step from a leader to the leader below
      it is never a choice, although it is made by scanning a set. */
  lemma OneLeaderBelow(g: Graph, cands: seq<Id>, w: Walk, x: Id, y: Id)
    requires IsGraph(g) && Acyclic(g) && Coherent(g, cands, w)
    requires IsLead(w.st, w.groups, x) && IsLead(w.st, w.groups, y)
    requires x in w.parent && y in w.parent && w.parent[x] == w.parent[y]
    ensures x == y
  {
    LeadKinds(g, cands, w, x);
    LeadKinds(g, cands, w, y);
    if Leads(w.st, cands, x) {
      CandidateLeaderOnTop(g, cands, w, x);
    }
    if Leads(w.st, cands, y) {
      CandidateLeaderOnTop(g, cands, w, y);
    }
    OneLeaderPerGroup(w.st, Under(g.common[w.parent[x]], w.parent, w.parent[x]), x, y);
  }

  // --------------------------------------------------------------------- the leader chain

  /** Each leader after the first is a leader whose parent is the one before it. */
  ghost predicate IsLeaderChain(leads: set<Id>, parent: map<Id, Id>, chain: seq<Id>) {
    forall i :: 0 <= i < |chain| - 1 ==> IsLeadBelow(leads, parent, chain[i], chain[i + 1])
  }

  predicate IsLeadBelow(leads: set<Id>, parent: map<Id, Id>, p: Id, c: Id) {
    c in leads && c in parent && parent[c] == p
  }

  /** Nothing can be added to the chain. */
  ghost predicate Ends(leads: set<Id>, parent: map<Id, Id>, chain: seq<Id>) {
    chain != [] && NoLeadBelow(leads, parent, chain[|chain| - 1])
  }

  ghost predicate NoLeadBelow(leads: set<Id>, parent: map<Id, Id>, p: Id) {
    forall c :: !IsLeadBelow(leads, parent, p, c)
  }

  /** The first row at depth 0 that leads. */
  function HeadRow(rows: seq<Row>, leads: set<Id>, n: nat): (head: Option<Id>)
    requires n <= |rows|
    ensures head.Some? ==> head.value in leads
    ensures head.Some? ==> exists i :: 0 <= i < n && rows[i].Row? && rows[i].depth == 0 && rows[i].cid == head.value
    ensures head.None? ==> forall i :: 0 <= i < n && rows[i].Row? && rows[i].depth == 0 ==> rows[i].cid !in leads
  {
    if n == 0 then None
    else
      var before := HeadRow(rows, leads, n - 1);
      if before.Some? then before
      else if rows[n - 1].Row? && rows[n - 1].depth == 0 && rows[n - 1].cid in leads then Some(rows[n - 1].cid)
      else None
  }

  /** The chain `fmt_open` follows. Its loop has no exit but running out of leaders, and
      ends because every step goes down the refinement graph. Any leader below will do. */
  method LeaderChain(rows: seq<Row>, leads: set<Id>, parent: map<Id, Id>, ghost rank: map<Id, nat>)
    returns (chain: seq<Id>)
    requires forall x :: x in parent ==> x in rank && parent[x] in rank && rank[x] < rank[parent[x]]
    ensures chain == [] <==> HeadRow(rows, leads, |rows|).None?
    ensures chain != [] ==> Some(chain[0]) == HeadRow(rows, leads, |rows|) && Ends(leads, parent, chain)
    ensures IsLeaderChain(leads, parent, chain)
  {
    var head := HeadRow(rows, leads, |rows|);
    if head.None? {
      return [];
    }
    chain := [head.value];
    while true
      invariant chain != [] && chain[0] == head.value && IsLeaderChain(leads, parent, chain)
      decreases Height(rank, chain[|chain| - 1])
    {
      var last := chain[|chain| - 1];
      var subs := set c | c in leads && IsLeadBelow(leads, parent, last, c);
      if subs == {} {
        assert forall c :: IsLeadBelow(leads, parent, last, c) ==> c in subs;
        return;
      }
      var c :| c in subs;
      chain := chain + [c];
    }
  }

  ghost function Height(rank: map<Id, nat>, c: Id): nat {
    if c in rank then rank[c] + 1 else 0
  }

  /** The walk's parents rank above what was met under them, so the chain ends. */
  lemma ParentsRankHigher(g: Graph, rank: map<Id, nat>, w: Walk)
    requires IsGraph(g) && Ranked(g, rank) && ParentsMet(g, w) && w.seen <= g.own.Keys
    ensures forall x :: x in w.parent ==> x in rank && w.parent[x] in rank && rank[x] < rank[w.parent[x]]
  {
    forall x | x in w.parent
      ensures x in rank && w.parent[x] in rank && rank[x] < rank[w.parent[x]]
    {
      var p := w.parent[x];
      assert ParentOf(g, w.seen, x, p);
      var i :| 0 <= i < |g.common[p]| && g.common[p][i] == x;
    }
  }

  /** A finished chain is the only one from its head: whichever leader each step picked, the
      answer is the same. */
  lemma {:induction false} LeaderChainUnique(g: Graph, cands: seq<Id>, w: Walk, leads: set<Id>, a: seq<Id>, b: seq<Id>,
                                             n: nat)
    requires IsGraph(g) && Acyclic(g) && Coherent(g, cands, w)
    requires forall x :: x in leads ==> IsLead(w.st, w.groups, x)
    requires IsLeaderChain(leads, w.parent, a) && IsLeaderChain(leads, w.parent, b)
    requires Ends(leads, w.parent, a) && Ends(leads, w.parent, b) && a[0] == b[0]
    requires n <= |a|
    ensures n <= |b| && a[..n] == b[..n]
    ensures n == |a| ==> a == b
  {
    assert 0 < n < |b| ==> IsLeadBelow(leads, w.parent, b[n - 1], b[n]);
    if n > 1 {
      LeaderChainUnique(g, cands, w, leads, a, b, n - 1);
      assert a[..n - 1][n - 2] == b[..n - 1][n - 2];
      assert IsLeadBelow(leads, w.parent, a[n - 2], a[n - 1]);
      if n - 1 < |b| {
        assert IsLeadBelow(leads, w.parent, b[n - 2], b[n - 1]);
        OneLeaderBelow(g, cands, w, a[n - 1], b[n - 1]);
      }
    }
  }

  /** `below` takes each claim of a cycle to the one leader under it. */
  ghost predicate IsLeaderCycle(leads: set<Id>, parent: map<Id, Id>, below: map<Id, Id>) {
    && (forall p {:trigger below[p]} :: p in below ==> below[p] in below && IsLeadBelow(leads, parent, p, below[p]))
    && (forall p, c {:trigger IsLeadBelow(leads, parent, p, c)} :: p in below && IsLeadBelow(leads, parent, p, c)
                                                                   ==> c == below[p])
  }

  /** On a cycle of leaders the loop would never run out: no chain into it ends. */
  lemma {:induction false} NoEndOnACycle(leads: set<Id>, parent: map<Id, Id>, below: map<Id, Id>, chain: seq<Id>)
    requires chain != [] && chain[0] in below && IsLeaderChain(leads, parent, chain)
    requires IsLeaderCycle(leads, parent, below)
    ensures chain[|chain| - 1] in below && !Ends(leads, parent, chain)
  {
    if |chain| > 1 {
      var front := chain[..|chain| - 1];
      assert forall i :: 0 <= i < |front| - 1 ==> IsLeadBelow(leads, parent, chain[i], chain[i + 1]);
      NoEndOnACycle(leads, parent, below, front);
      assert IsLeadBelow(leads, parent, chain[|chain| - 2], chain[|chain| - 1]);
    }
    assert IsLeadBelow(leads, parent, chain[|chain| - 1], below[chain[|chain| - 1]]);
  }

  // ----------------------------------------------------------------- the head of the chain

  /** No candidate is also a common sub-cause of a claim the knowledge has. */
  ghost predicate CandidatesRefineNothing(g: Graph, cands: seq<Id>)
    requires IsGraph(g)
  {
    forall c, i :: c in g.own && 0 <= i < |g.common[c]| ==> g.common[c][i] !in cands
  }

  ghost predicate TopRow(rows: seq<Row>, i: nat, x: Id) {
    i < |rows| && rows[i].Row? && rows[i].depth == 0 && rows[i].cid == x
  }

  lemma {:induction false} HeadIsFirst(rows: seq<Row>, leads: set<Id>, n: nat) returns (i: nat)
    requires n <= |rows| && HeadRow(rows, leads, n).Some?
    ensures i < n && TopRow(rows, i, HeadRow(rows, leads, n).value)
    ensures forall j: nat, x :: j < i && TopRow(rows, j, x) ==> x !in leads
  {
    assert HeadRow(rows, leads, 0).None?;
    if HeadRow(rows, leads, n - 1).Some? {
      i := HeadIsFirst(rows, leads, n - 1);
    } else {
      i := n - 1;
    }
  }

  /** A claim met under another leads the siblings it was met with. */
  ghost predicate LeadsSiblings(g: Graph, w: Walk, x: Id) {
    && x in w.parent && w.parent[x] in g.common
    && Leads(w.st, Under(g.common[w.parent[x]], w.parent, w.parent[x]), x)
  }

  lemma SiblingLeaderLeads(g: Graph, cands: seq<Id>, w: Walk, x: Id)
    requires IsGraph(g) && Coherent(g, cands, w) && LeadsSiblings(g, w, x)
    ensures IsLead(w.st, w.groups, x)
  {
    var p := w.parent[x];
    assert ParentOf(g, w.seen, x, p);
    assert HasGroup(w.groups, p);
    var k :| 0 <= k < |w.groups| && w.groups[k].of_ == Some(p);
    assert GroupOk(g, cands, w.parent, w.groups[k]);
  }

  /** A candidate with its row at the top also leads the siblings it has as a sub-cause, and
      no leader of the candidates has a row above it. */
  ghost predicate Overtaken(g: Graph, cands: seq<Id>, w: Walk) {
    exists i: nat, x :: TopRow(w.rows, i, x) && LeadsSiblings(g, w, x)
                   && forall j: nat, m :: j < i && TopRow(w.rows, j, m) ==> !Leads(w.st, cands, m)
  }

  lemma HeadOfOvertaken(g: Graph, cands: seq<Id>, w: Walk, leads: set<Id>) returns (head: Id)
    requires IsGraph(g) && Acyclic(g) && Coherent(g, cands, w) && Overtaken(g, cands, w)
    requires forall x :: x in leads <==> IsLead(w.st, w.groups, x)
    ensures HeadRow(w.rows, leads, |w.rows|) == Some(head) && !Leads(w.st, cands, head)
  {
    var i: nat, x :| TopRow(w.rows, i, x) && LeadsSiblings(g, w, x)
                && forall j: nat, m :: j < i && TopRow(w.rows, j, m) ==> !Leads(w.st, cands, m);
    SiblingLeaderLeads(g, cands, w, x);
    head := HeadRow(w.rows, leads, |w.rows|).value;
    var k := HeadIsFirst(w.rows, leads, |w.rows|);
    assert x in leads && k <= i;
    if Leads(w.st, cands, head) {
      CandidateLeaderOnTop(g, cands, w, head);
      assert false;
    }
  }

  lemma CandidateLeaderLeads(w: Walk, cands: seq<Id>, m: Id)
    requires Leads(w.st, cands, m) && Group(None, cands) in w.groups
    ensures IsLead(w.st, w.groups, m)
  {
    var k :| 0 <= k < |w.groups| && w.groups[k] == Group(None, cands);
    assert Leads(w.st, w.groups[k].members, m);
  }

  lemma CandidatesLeadNoOther(w: Walk, cands: seq<Id>, m: Id)
    requires !IsLead(w.st, w.groups, m) && Group(None, cands) in w.groups
    ensures !Leads(w.st, cands, m)
  {
    if Leads(w.st, cands, m) {
      CandidateLeaderLeads(w, cands, m);
      assert false;
    }
  }

  lemma HeadOtherwise(g: Graph, cands: seq<Id>, w: Walk, leads: set<Id>)
    requires IsGraph(g) && Coherent(g, cands, w) && !Overtaken(g, cands, w)
    requires forall x :: x in leads <==> IsLead(w.st, w.groups, x)
    requires HeadRow(w.rows, leads, |w.rows|).Some?
    ensures Leads(w.st, cands, HeadRow(w.rows, leads, |w.rows|).value)
  {
    var x := HeadRow(w.rows, leads, |w.rows|).value;
    var i := HeadIsFirst(w.rows, leads, |w.rows|);
    LeadKinds(g, cands, w, x);
    forall j: nat, m | j < i && TopRow(w.rows, j, m)
      ensures !Leads(w.st, cands, m)
    {
      CandidatesLeadNoOther(w, cands, m);
    }
    assert LeadsSiblings(g, w, x) ==> Overtaken(g, cands, w);
  }

  /** The chain starts with the candidates' leader, and there is a chain only if they have
      one, exactly when no candidate overtakes: leads as a sub-cause from a row at the top
      with no leader of the candidates above. */
  lemma HeadExactly(g: Graph, cands: seq<Id>, w: Walk, leads: set<Id>)
    requires IsGraph(g) && Acyclic(g) && Coherent(g, cands, w)
    requires forall x :: x in leads <==> IsLead(w.st, w.groups, x)
    ensures (forall m :: HeadRow(w.rows, leads, |w.rows|) == Some(m) <==> Leads(w.st, cands, m))
            <==> !Overtaken(g, cands, w)
  {
    var head := HeadRow(w.rows, leads, |w.rows|);
    if Overtaken(g, cands, w) {
      var x := HeadOfOvertaken(g, cands, w, leads);
    } else {
      forall m
        ensures head == Some(m) <==> Leads(w.st, cands, m)
      {
        if head.Some? {
          HeadOtherwise(g, cands, w, leads);
        }
        if Leads(w.st, cands, m) {
          CandidateLeaderOnTop(g, cands, w, m);
          CandidateLeaderLeads(w, cands, m);
          assert head.Some?;
          OneLeaderPerGroup(w.st, cands, m, head.value);
        }
      }
    }
  }

  /** So it is whenever no candidate is a common sub-cause of any claim, whatever the facts. */
  lemma HeadLeadsCandidates(g: Graph, cands: seq<Id>, w: Walk, leads: set<Id>)
    requires IsGraph(g) && Acyclic(g) && Coherent(g, cands, w) && CandidatesRefineNothing(g, cands)
    requires forall x :: x in leads <==> IsLead(w.st, w.groups, x)
    ensures forall m :: HeadRow(w.rows, leads, |w.rows|) == Some(m) <==> Leads(w.st, cands, m)
  {
    forall i: nat, x | TopRow(w.rows, i, x)
      ensures !LeadsSiblings(g, w, x)
    {
      assert RowOk(cands, w.rows, w.st, w.parent, i);
      assert x in w.parent ==> ParentOf(g, w.seen, x, w.parent[x]);
    }
    HeadExactly(g, cands, w, leads);
  }

  // ---------------------------------------------------- a candidate that is a sub-cause too

  function Sign(fact: Id, negated: bool): Condition {
    Test(fact, [], negated, [], {})
  }

  const WEAK := Standing(WeakSupport, 1, [[Sign("b", false)]], [], None)
  const STRONG := Standing(StrongSupport, 3, [[Sign("m", false)]], [], None)
  const OPEN := Standing(Undecided, 0, [], [], None)
  const LIFTED := Standing(WeakSupport, 1, [], [], Some("b"))

  /** Three candidates of which the second has the first as its one sub-cause. */
  const SHARED := Graph(map["b" := WEAK, "p" := OPEN, "m" := STRONG],
                        map["b" := [], "p" := ["b"], "m" := []],
                        map["b" := [], "p" := [], "m" := []])

  lemma AlonePath(cid: Id, depth: nat, w: Walk)
    requires cid in {"b", "m"} && Fits(SHARED, w) && cid !in w.seen
    ensures IsGraph(SHARED) && Visited(SHARED, cid, depth, w) == Met(SHARED, cid, depth, w)
  {
    var w1 := Met(SHARED, cid, depth, w);
    assert VisitedUnder(SHARED, cid, depth, 0, w1) == w1;
    assert BestOf(w1.st, [], 0) == None;
  }

  const CANDIDATES := ["b", "p", "m"]
  const AFTER_B := Walk({"b"}, [Row(0, "b", WEAK)], map["b" := WEAK], map[], [Group(None, CANDIDATES)])
  const MET_P := Walk({"b", "p"}, [Row(0, "b", WEAK), Row(0, "p", OPEN)], map["b" := WEAK, "p" := OPEN],
                      map[], [Group(None, CANDIDATES)])
  const UNDER_P := MET_P.(parent := map["b" := "p"])
  const AFTER_P := Walk({"b", "p"}, [Row(0, "b", WEAK), Row(0, "p", LIFTED)], map["b" := WEAK, "p" := LIFTED],
                        map["b" := "p"], [Group(None, CANDIDATES), Group(Some("p"), ["b"])])

  lemma UnderP()
    ensures IsGraph(SHARED) && Fits(SHARED, MET_P) && VisitedUnder(SHARED, "p", 0, 1, MET_P) == UNDER_P
  {
    assert VisitedUnder(SHARED, "p", 0, 0, MET_P) == MET_P;
    assert WithParent(MET_P, "b", "p") == UNDER_P;
    assert Visited(SHARED, "b", 1, UNDER_P) == UNDER_P;
  }

  lemma LiftP()
    ensures Lifted(OPEN, UNDER_P.st, ["b"]) == LIFTED
    ensures Under(["b"], UNDER_P.parent, "p") == ["b"]
  {
    assert BestOf(UNDER_P.st, ["b"], 0) == None && BestOf(UNDER_P.st, ["b"], 1) == Some("b");
    assert ["b"][..0] == [] && Under([], UNDER_P.parent, "p") == [];
  }

  lemma FindP()
    ensures SetRow(UNDER_P.rows, "p", Row(0, "p", LIFTED)) == AFTER_P.rows
  {
    FindRowAppend([], Row(0, "b", WEAK), "p");
    FindRowAppend([Row(0, "b", WEAK)], Row(0, "p", OPEN), "p");
    assert UNDER_P.rows == [Row(0, "b", WEAK)] + [Row(0, "p", OPEN)];
    assert [] + [Row(0, "b", WEAK)] == [Row(0, "b", WEAK)];
  }

  lemma CloseP()
    ensures IsGraph(SHARED) && Fits(SHARED, UNDER_P) && Closed(SHARED, "p", 0, UNDER_P) == AFTER_P
  {
    LiftP();
    FindP();
    assert UNDER_P.groups + [Group(Some("p"), ["b"])] == AFTER_P.groups;
    assert UNDER_P.st["p" := LIFTED] == AFTER_P.st;
  }

  lemma MeetP()
    ensures IsGraph(SHARED) && Fits(SHARED, AFTER_B) && "p" in SHARED.own && "p" !in AFTER_B.seen
    ensures !IsDead(SHARED.own["p"]) && |SHARED.common["p"]| == 1 && Met(SHARED, "p", 0, AFTER_B) == MET_P
  {
  }

  lemma NewlyVisited(g: Graph, cid: Id, depth: nat, w: Walk)
    requires IsGraph(g) && cid in g.own && Fits(g, w) && cid !in w.seen && !IsDead(g.own[cid])
    ensures var w1 := Met(g, cid, depth, w);
            Visited(g, cid, depth, w) == Closed(g, cid, depth, VisitedUnder(g, cid, depth, |g.common[cid]|, w1))
  {
  }

  lemma VisitP()
    ensures IsGraph(SHARED) && Fits(SHARED, AFTER_B) && Visited(SHARED, "p", 0, AFTER_B) == AFTER_P
  {
    MeetP();
    UnderP();
    CloseP();
    NewlyVisited(SHARED, "p", 0, AFTER_B);
  }

  const NOTHING_MET := Walk({}, [], map[], map[], [Group(None, CANDIDATES)])

  lemma VisitB()
    ensures IsGraph(SHARED) && Fits(SHARED, NOTHING_MET) && Visited(SHARED, "b", 0, NOTHING_MET) == AFTER_B
  {
    AlonePath("b", 0, NOTHING_MET);
    assert Met(SHARED, "b", 0, NOTHING_MET) == AFTER_B;
  }

  lemma SharedIsOpenable()
    ensures IsOpenable(SHARED, CANDIDATES)
  {
    assert Ranked(SHARED, map["b" := 0, "p" := 1, "m" := 0]);
  }

  lemma OpenTwo()
    ensures IsOpenable(SHARED, CANDIDATES) && OpenedFirst(SHARED, CANDIDATES, 2) == AFTER_P
  {
    SharedIsOpenable();
    VisitB();
    VisitP();
    assert OpenedFirst(SHARED, CANDIDATES, 0) == NOTHING_MET;
    assert OpenedFirst(SHARED, CANDIDATES, 1) == AFTER_B;
  }

  lemma OpenShared()
    ensures IsOpenable(SHARED, CANDIDATES) && Fits(SHARED, AFTER_P)
    ensures Opened(SHARED, CANDIDATES) == Met(SHARED, "m", 0, AFTER_P)
  {
    OpenTwo();
    AlonePath("m", 0, AFTER_P);
  }

  /** Overtaken, the strongest candidate goes unnamed: here `m` leads the candidates alone,
      and the chain starts with the weaker `b`, which leads only under `p`. */
  lemma HeadCanBeBeaten(leads: set<Id>)
    requires IsOpenable(SHARED, CANDIDATES)
    requires var w := Opened(SHARED, CANDIDATES); forall x :: x in leads <==> IsLead(w.st, w.groups, x)
    ensures var w := Opened(SHARED, CANDIDATES);
            Leads(w.st, CANDIDATES, "m") && HeadRow(w.rows, leads, |w.rows|) == Some("b")
  {
    OpenShared();
    var w := Met(SHARED, "m", 0, AFTER_P);
    assert LeadsAt(w.st, CANDIDATES, 2);
    assert LeadsAt(w.st, ["b"], 0) && w.groups[1].members == ["b"];
    assert IsLead(w.st, w.groups, "b");
    assert HeadRow(w.rows, leads, 0) == None && HeadRow(w.rows, leads, 1) == Some("b");
    assert HeadRow(w.rows, leads, 2) == Some("b");
  }
}
