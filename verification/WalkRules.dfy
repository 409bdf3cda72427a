/**
 What the walk of `open` compares and lifts by, said of names and grades outright: the order
 of names, the sub-cause that lifts a claim, and who counts as met under it.
 */
module WalkRules {
  import opened Base
  import opened Knowledge
  import opened Picks
  import opened Standings
  import opened OpenWalk
  import opened OpenTheorems
  import opened Ranking

  // ---------------------------------------------------------------------- the order of names

  /** The two agree up to `i`, and there `a` ends or has the smaller character. */
  ghost predicate DifferAt(a: string, b: string, i: nat) {
    && i <= |a| && i < |b| && a[..i] == b[..i]
    && (i < |a| ==> a[i] < b[i])
  }

  lemma DifferFurther(a: string, b: string, i: nat)
    requires a != "" && b != "" && a[0] == b[0] && DifferAt(a[1..], b[1..], i)
    ensures DifferAt(a, b, i + 1)
  {
    assert a[..i + 1] == [a[0]] + a[1..][..i];
    assert b[..i + 1] == [b[0]] + b[1..][..i];
  }

  lemma DifferNearer(a: string, b: string, i: nat)
    requires a != "" && b != "" && DifferAt(a, b, i) && i > 0
    ensures a[0] == b[0] && DifferAt(a[1..], b[1..], i - 1)
  {
    assert a[0] == a[..i][0] && b[0] == b[..i][0];
    assert a[1..][..i - 1] == a[..i][1..];
    assert b[1..][..i - 1] == b[..i][1..];
  }

  lemma {:induction false} PrecedesExactly(a: string, b: string)
    ensures Precedes(a, b) <==> exists i: nat :: DifferAt(a, b, i)
  {
    if b != "" && a == "" {
      assert DifferAt(a, b, 0);
    } else if b != "" && a[0] == b[0] {
      PrecedesExactly(a[1..], b[1..]);
      if i: nat :| DifferAt(a[1..], b[1..], i) {
        DifferFurther(a, b, i);
      }
      if i: nat :| DifferAt(a, b, i) {
        DifferNearer(a, b, i);
      }
    } else if b != "" {
      if a[0] < b[0] {
        assert DifferAt(a, b, 0);
      }
      if i: nat :| DifferAt(a, b, i) && i > 0 {
        DifferNearer(a, b, i);
      }
    }
  }

  // ----------------------------------------------------------------------------- the lift

  /** `b` is the sub-cause with the highest grade there is, and of those with that grade the
      last by name. */
  ghost predicate IsBest(st: map<Id, Standing>, subs: seq<Id>, b: Id) {
    && b in subs && b in st
    && forall x :: x in subs && x in st ==>
         st[x].grade < st[b].grade || (st[x].grade == st[b].grade && (x == b || exists i: nat :: DifferAt(x, b, i)))
  }

  lemma BestIs(st: map<Id, Standing>, subs: seq<Id>)
    ensures var b := BestOf(st, subs, |subs|);
            if b.None? then forall x :: x in subs ==> x !in st else IsBest(st, subs, b.value)
  {
    var b := BestOf(st, subs, |subs|);
    if b.Some? {
      BestOfMember(st, subs, |subs|);
    }
    forall x | x in subs && x in st
      ensures b.Some?
      ensures st[x].grade < st[b.value].grade
              || (st[x].grade == st[b.value].grade && (x == b.value || exists i: nat :: DifferAt(x, b.value, i)))
    {
      var i :| 0 <= i < |subs| && subs[i] == x;
      BestOfIsGreatest(st, subs, |subs|, i);
      PrecedesExactly(x, b.value);
    }
  }

  /** A standing that is the sub-cause's own, but for what counts against the claim itself. */
  ghost predicate IsLiftedBy(own: Standing, st: map<Id, Standing>, b: Id, s: Standing)
    requires b in st
  {
    && s.grade == st[b].grade && s.decided == [] && s.against == own.against && s.via == Some(b)
    && s.verdict == (if s.grade == 3 then StrongSupport else if s.grade == 2 then ModerateSupport else WeakSupport)
  }

  /** A claim is lifted exactly when some sub-cause has the higher grade, and then by the best. */
  lemma LiftedExactly(own: Standing, st: map<Id, Standing>, subs: seq<Id>)
    requires forall x :: x in st ==> st[x].grade <= 3
    ensures var s := Lifted(own, st, subs);
            if exists x :: x in subs && x in st && st[x].grade > own.grade
            then exists b :: IsBest(st, subs, b) && IsLiftedBy(own, st, b, s)
            else s == own
  {
    BestIs(st, subs);
    var b := BestOf(st, subs, |subs|);
    if x :| x in subs && x in st && st[x].grade > own.grade {
      assert IsBest(st, subs, b.value);
      assert IsLiftedBy(own, st, b.value, Lifted(own, st, subs));
    }
  }

  /** The standing `open` leaves a claim with: its own, if that is ruled out or in conflict or
      no common sub-cause has a higher grade, and otherwise the best of theirs. */
  ghost predicate StandsAs(g: Graph, st: map<Id, Standing>, c: Id)
    requires IsGraph(g) && c in g.own && c in st
  {
    if IsOut(g.own[c]) || forall x :: x in g.common[c] && x in st ==> st[x].grade <= g.own[c].grade
    then st[c] == g.own[c]
    else exists b :: IsBest(st, g.common[c], b) && IsLiftedBy(g.own[c], st, b, st[c])
  }

  predicate IsOut(s: Standing) {
    s.verdict == RuledOut || s.verdict == Conflicting
  }

  lemma OpenedStandsAs(g: Graph, cands: seq<Id>)
    requires IsOpenable(g, cands)
    ensures var w := Opened(g, cands);
            && w.st.Keys == w.seen <= g.own.Keys
            && forall c :: c in w.seen ==> StandsAs(g, w.st, c)
  {
    var w := Opened(g, cands);
    OpenedSettled(g, cands);
    forall c | c in w.seen
      ensures StandsAs(g, w.st, c)
    {
      assert SettledAt(g, w.st, w.seen, c);
      LiftedExactly(g.own[c], w.st, g.common[c]);
    }
  }

  // ------------------------------------------------------------------------ the sub-groups

  function IfUnder(parent: map<Id, Id>, cid: Id): Id -> Option<Id> {
    x => if x in parent && parent[x] == cid then Some(x) else None
  }

  /** A group keeps the order its claim lists its sub-causes in. */
  lemma {:induction false} UnderPicked(subs: seq<Id>, parent: map<Id, Id>, cid: Id)
    ensures Picked(subs, IfUnder(parent, cid), Under(subs, parent, cid))
  {
    if subs == [] {
      PickedNone(IfUnder(parent, cid));
    } else {
      UnderPicked(subs[..|subs| - 1], parent, cid);
      PickedLast(subs, IfUnder(parent, cid), Under(subs[..|subs| - 1], parent, cid));
    }
  }

  /** `open` leaves the group of the candidates, and one of each live claim met that has common
      sub-causes: those of them first met under it, in its order. */
  lemma GroupsAre(g: Graph, cands: seq<Id>)
    requires IsOpenable(g, cands)
    ensures var w := Opened(g, cands);
            && Group(None, cands) in w.groups
            && (forall grp :: grp in w.groups && grp.of_ == None ==> grp.members == cands)
            && (forall grp :: grp in w.groups && grp.of_.Some? ==>
                  && grp.of_.value in g.own && !IsOut(g.own[grp.of_.value])
                  && Picked(g.common[grp.of_.value], IfUnder(w.parent, grp.of_.value), grp.members))
            && (forall c :: c in w.seen && !IsOut(g.own[c]) && g.common[c] != [] ==>
                  exists grp :: grp in w.groups && grp.of_ == Some(c))
  {
    var w := Opened(g, cands);
    OpenedCoherent(g, cands);
    forall grp | grp in w.groups
      ensures grp.of_ == None ==> grp.members == cands
      ensures grp.of_.Some? ==>
                && grp.of_.value in g.own && !IsOut(g.own[grp.of_.value])
                && Picked(g.common[grp.of_.value], IfUnder(w.parent, grp.of_.value), grp.members)
    {
      GroupIs(g, cands, w, grp);
    }
    forall c | c in w.seen && !IsOut(g.own[c]) && g.common[c] != []
      ensures exists grp :: grp in w.groups && grp.of_ == Some(c)
    {
      assert HasGroup(w.groups, c);
      var k :| 0 <= k < |w.groups| && w.groups[k].of_ == Some(c);
      assert w.groups[k] in w.groups;
    }
  }

  lemma GroupIs(g: Graph, cands: seq<Id>, w: Walk, grp: Group)
    requires IsGraph(g) && GroupsOk(g, cands, w) && grp in w.groups
    ensures grp.of_ == None ==> grp.members == cands
    ensures grp.of_.Some? ==>
              && grp.of_.value in g.own && !IsOut(g.own[grp.of_.value])
              && Picked(g.common[grp.of_.value], IfUnder(w.parent, grp.of_.value), grp.members)
  {
    var k :| 0 <= k < |w.groups| && w.groups[k] == grp;
    assert GroupOk(g, cands, w.parent, w.groups[k]);
    if grp.of_.Some? {
      UnderPicked(g.common[grp.of_.value], w.parent, grp.of_.value);
    }
  }
}
