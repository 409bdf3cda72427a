/**
 Uncommon sub-causes: which of a claim's they are, and that `open` meets one only when it is a
 candidate, and otherwise holds it back.
 */
module Uncommons {
  import opened Base
  import opened Knowledge
  import opened Picks
  import opened Standings
  import opened Layers
  import opened LayerRules
  import opened OpenWalk
  import OpenTheorems
  import HeldRows
  import opened OpenSymptom
  import Check

  function IfUncommon(claims: map<Id, Claim>): Id -> Option<Id> {
    x => if x in claims && claims[x].uncommon then Some(x) else None
  }

  function IfCommon(claims: map<Id, Claim>): Id -> Option<Id> {
    x => if x in claims && !claims[x].uncommon then Some(x) else None
  }

  lemma {:induction false} UncommonPicked(claims: map<Id, Claim>, subs: seq<Id>)
    requires forall i :: 0 <= i < |subs| ==> subs[i] in claims
    ensures Picked(subs, IfUncommon(claims), Uncommon(claims, subs))
  {
    if subs == [] {
      PickedNone(IfUncommon(claims));
    } else {
      UncommonPicked(claims, subs[..|subs| - 1]);
      PickedLast(subs, IfUncommon(claims), Uncommon(claims, subs[..|subs| - 1]));
    }
  }

  lemma CommonPicked(claims: map<Id, Claim>, subs: seq<Id>)
    requires forall i :: 0 <= i < |subs| ==> subs[i] in claims
    ensures Picked(subs, IfCommon(claims), Common(claims, subs))
  {
    var rare := Uncommon(claims, subs);
    UncommonPicked(claims, subs);
    WithoutPicked(subs, rare);
    forall k | 0 <= k < |subs|
      ensures NotIn(rare)(subs[k]) == IfCommon(claims)(subs[k])
    {
      PickedMembers(subs, IfUncommon(claims), rare, subs[k]);
      assert subs[k] in claims;
      if subs[k] in rare {
        var j :| 0 <= j < |subs| && IfUncommon(claims)(subs[j]) == Some(subs[k]);
      } else {
        assert IfUncommon(claims)(subs[k]) != Some(subs[k]);
      }
    }
    PickedAlike(subs, NotIn(rare), IfCommon(claims), Common(claims, subs));
  }

  /** Of a claim's sub-causes the common and the uncommon are told apart, each kept in order
      and as often as listed. */
  lemma SubCausesSplit(k: Layer, own: map<Id, Standing>, c: Id)
    requires AllResolved(k) && c in k.claims
    ensures var g, subs := GraphOf(k, own), k.claims[c].refinedBy;
            Picked(subs, IfCommon(k.claims), g.common[c]) && Picked(subs, IfUncommon(k.claims), g.rare[c])
  {
    CommonPicked(k.claims, k.claims[c].refinedBy);
    UncommonPicked(k.claims, k.claims[c].refinedBy);
  }

  lemma CommonIsNotUncommon(k: Layer, own: map<Id, Standing>, c: Id, x: Id)
    requires AllResolved(k) && c in k.claims && x in GraphOf(k, own).common[c]
    ensures x in k.claims && !k.claims[x].uncommon
  {
    SubCausesSplit(k, own, c);
    PickedMembers(k.claims[c].refinedBy, IfCommon(k.claims), GraphOf(k, own).common[c], x);
  }

  lemma LastStep(g: Graph, cands: seq<Id>, path: seq<Id>)
    requires IsGraph(g) && OpenTheorems.LivePath(g, cands, path)
    ensures |path| == 1 ==> path[0] in cands
    ensures |path| > 1 ==> path[|path| - 2] in g.own && path[|path| - 1] in g.common[path[|path| - 2]]
  {
  }

  /** `open` meets an uncommon claim only as a candidate. */
  lemma UncommonOnlyAsCandidate(k: Layer, own: map<Id, Standing>, cands: seq<Id>, x: Id)
    requires AllResolved(k) && AreStandings(k, own) && OpenTheorems.IsOpenable(GraphOf(k, own), cands)
    requires x in Opened(GraphOf(k, own), cands).seen && x in k.claims && k.claims[x].uncommon
    ensures x in cands
  {
    var g := GraphOf(k, own);
    OpenTheorems.OpenedReached(g, cands, x);
    var path: seq<Id> :| OpenTheorems.LivePath(g, cands, path) && path[|path| - 1] == x;
    LastStep(g, cands, path);
    if |path| > 1 {
      CommonIsNotUncommon(k, own, path[|path| - 2], x);
    }
  }

  /** One row, and one only, holds back the uncommon sub-causes of the claim. */
  ghost predicate OneRowHolds(k: Layer, rows: seq<Row>, c: Id)
    requires c in k.claims
  {
    exists r: nat, h: nat, rare ::
      && Picked(k.claims[c].refinedBy, IfUncommon(k.claims), rare) && HeldRows.HeldAt(rows, c, rare, r, h)
      && forall h': nat :: HeldRows.HeldAt(rows, c, rare, r, h') ==> h' == h
  }

  /** The row holds back the uncommon sub-causes of a claim met that is alive. */
  ghost predicate HoldsForOne(k: Layer, own: map<Id, Standing>, w: Walk, h: nat)
    requires h < |w.rows| && w.rows[h].Held? && own.Keys == k.claims.Keys
  {
    exists c, r: nat ::
      && c in w.seen && c in k.claims && !IsDead(own[c]) && HeldRows.HeldAt(w.rows, c, w.rows[h].rare, r, h)
      && Picked(k.claims[c].refinedBy, IfUncommon(k.claims), w.rows[h].rare)
  }

  predicate HasUncommon(k: Layer, c: Id)
    requires AllResolved(k) && c in k.claims
  {
    exists x :: x in k.claims[c].refinedBy && k.claims[x].uncommon
  }

  /** Each live claim `open` meets that has uncommon sub-causes has one row that holds back just
      those, in the order it lists them, and no row holds back anything else. */
  lemma UncommonHeldBack(k: Layer, own: map<Id, Standing>, cands: seq<Id>)
    requires AllResolved(k) && AreStandings(k, own) && OpenTheorems.IsOpenable(GraphOf(k, own), cands)
    ensures var w := Opened(GraphOf(k, own), cands);
            && (forall c :: c in w.seen && c in k.claims && !IsDead(own[c]) && HasUncommon(k, c) ==> OneRowHolds(k, w.rows, c))
            && (forall h: nat :: h < |w.rows| && w.rows[h].Held? ==> HoldsForOne(k, own, w, h))
  {
    var g := GraphOf(k, own);
    var w := Opened(g, cands);
    HeldRows.HeldExactly(g, cands);
    forall c | c in w.seen && c in k.claims && !IsDead(own[c]) && HasUncommon(k, c)
      ensures OneRowHolds(k, w.rows, c)
    {
      OneRow(k, own, w, c);
    }
    forall h: nat | h < |w.rows| && w.rows[h].Held?
      ensures HoldsForOne(k, own, w, h)
    {
      var c, r: nat :| c in w.seen && HeldRows.HoldsBack(g, c) && HeldRows.HeldAt(w.rows, c, g.rare[c], r, h);
      SubCausesSplit(k, own, c);
    }
  }

  lemma OneRow(k: Layer, own: map<Id, Standing>, w: Walk, c: Id)
    requires AllResolved(k) && AreStandings(k, own) && c in k.claims && !IsDead(own[c]) && HasUncommon(k, c)
    requires var g := GraphOf(k, own);
             IsGraph(g) && (HeldRows.HoldsBack(g, c) ==>
               exists r: nat, h: nat :: HeldRows.HeldAt(w.rows, c, g.rare[c], r, h)
                 && forall h': nat :: HeldRows.HeldAt(w.rows, c, g.rare[c], r, h') ==> h' == h)
    ensures OneRowHolds(k, w.rows, c)
  {
    var rare := GraphOf(k, own).rare[c];
    SubCausesSplit(k, own, c);
    RareOrNot(k, c, rare);
    var r: nat, h: nat :| HeldRows.HeldAt(w.rows, c, rare, r, h)
                          && forall h': nat :: HeldRows.HeldAt(w.rows, c, rare, r, h') ==> h' == h;
  }

  lemma RareOrNot(k: Layer, c: Id, rare: seq<Id>)
    requires AllResolved(k) && c in k.claims && Picked(k.claims[c].refinedBy, IfUncommon(k.claims), rare)
    ensures (exists x :: x in k.claims[c].refinedBy && k.claims[x].uncommon) <==> rare != []
  {
    var subs := k.claims[c].refinedBy;
    if x :| x in subs && k.claims[x].uncommon {
      var i :| 0 <= i < |subs| && subs[i] == x;
      assert IfUncommon(k.claims)(subs[i]) == Some(x);
      PickedMembers(subs, IfUncommon(k.claims), rare, x);
    }
    if rare != [] {
      PickedMembers(subs, IfUncommon(k.claims), rare, rare[0]);
      var i :| 0 <= i < |subs| && IfUncommon(k.claims)(subs[i]) == Some(rare[0]);
      assert subs[i] in subs;
    }
  }
}
