/**
 What one layer laid over another comes to, list by list; and, of any number of layers, just
 what the combined knowledge holds.
 */
module LayerRules {
  import opened Base
  import opened Picks
  import opened Knowledge
  import opened Layers

  /** What is kept of a list without some. */
  function NotIn<T(==)>(have: seq<T>): T -> Option<T> {
    x => if x in have then None else Some(x)
  }

  lemma {:induction false} WithoutPicked<T(!new)>(xs: seq<T>, have: seq<T>)
    ensures Picked(xs, NotIn(have), Without(xs, have))
  {
    if xs == [] {
      PickedNone(NotIn(have));
    } else {
      WithoutPicked(xs[..|xs| - 1], have);
      PickedLast(xs, NotIn(have), Without(xs[..|xs| - 1], have));
    }
  }

  /** The list is the first, and after it what the second has that the first has not. */
  ghost predicate ThenRest<T(!new)>(first: seq<T>, second: seq<T>, list: seq<T>) {
    first <= list && Picked(second, NotIn(first), list[|first|..])
  }

  lemma ThenWithout<T(!new)>(first: seq<T>, second: seq<T>)
    ensures ThenRest(first, second, first + Without(second, first))
  {
    WithoutPicked(second, first);
    assert (first + Without(second, first))[|first|..] == Without(second, first);
  }

  function ListOf(lists: map<Id, seq<Id>>, name: Id): seq<Id> {
    if name in lists then lists[name] else []
  }

  /** A layer over others: its candidates come first, what it adds to a claim and what it has
      exclude each other come last, and of everything else its definitions replace theirs. */
  ghost predicate IsMerged(out: Layer, k: Layer, r: Layer) {
    && r.symptoms.Keys == out.symptoms.Keys + k.symptoms.Keys
    && (forall n :: n in r.symptoms ==> ThenRest(ListOf(k.symptoms, n), ListOf(out.symptoms, n), r.symptoms[n]))
    && r.refinements.Keys == out.refinements.Keys + k.refinements.Keys
    && (forall n :: n in r.refinements ==> ThenRest(ListOf(out.refinements, n), ListOf(k.refinements, n), r.refinements[n]))
    && ThenRest(out.exclusive, k.exclusive, r.exclusive)
    && IsOver(out.facts, k.facts, r.facts) && IsOver(out.claims, k.claims, r.claims)
    && IsOver(out.alerts, k.alerts, r.alerts) && IsOver(out.actions, k.actions, r.actions)
    && IsOver(out.changes, k.changes, r.changes)
  }

  ghost predicate IsOver<V(!new)>(lower: map<Id, V>, higher: map<Id, V>, r: map<Id, V>) {
    && r.Keys == lower.Keys + higher.Keys
    && forall n :: n in r ==> r[n] == if n in higher then higher[n] else lower[n]
  }

  lemma {:induction false} WithoutAny(xs: seq<Id>)
    ensures Without(xs, []) == xs
  {
    if xs != [] {
      WithoutAny(xs[..|xs| - 1]);
      FrontAndLast(xs);
    }
  }

  lemma MergedSymptom(lower: map<Id, seq<Id>>, higher: map<Id, seq<Id>>, n: Id)
    requires n in lower || n in higher
    ensures ThenRest(ListOf(higher, n), ListOf(lower, n), MergedSymptoms(lower, higher)[n])
  {
    ThenWithout(ListOf(higher, n), ListOf(lower, n));
    if n !in higher {
      WithoutAny(lower[n]);
      assert [] + lower[n] == lower[n];
    } else if n !in lower {
      assert higher[n] + Without([], higher[n]) == higher[n];
    }
  }

  lemma MergedExactly(out: Layer, k: Layer)
    ensures IsMerged(out, k, Merged(out, k))
  {
    var r := Merged(out, k);
    forall n | n in r.symptoms
      ensures ThenRest(ListOf(k.symptoms, n), ListOf(out.symptoms, n), r.symptoms[n])
    {
      MergedSymptom(out.symptoms, k.symptoms, n);
    }
    forall n | n in r.refinements
      ensures ThenRest(ListOf(out.refinements, n), ListOf(k.refinements, n), r.refinements[n])
    {
      ThenWithout(ListOf(out.refinements, n), ListOf(k.refinements, n));
    }
    ThenWithout(out.exclusive, k.exclusive);
    OverIs(out, k);
  }

  lemma OverIs(out: Layer, k: Layer)
    ensures var r := Merged(out, k);
            && IsOver(out.facts, k.facts, r.facts) && IsOver(out.claims, k.claims, r.claims)
            && IsOver(out.alerts, k.alerts, r.alerts) && IsOver(out.actions, k.actions, r.actions)
            && IsOver(out.changes, k.changes, r.changes)
  {
  }

  /** Folding changes the sub-causes of claims, and nothing else: a claim's own come first, and
      after them what was added to it. */
  lemma FoldedExactly(k: Layer)
    ensures var r := Folded(k);
            && r.claims.Keys == k.claims.Keys && r.(claims := k.claims) == k
            && forall c :: c in k.claims ==>
                 && r.claims[c].(refinedBy := k.claims[c].refinedBy) == k.claims[c]
                 && ThenRest(k.claims[c].refinedBy, ListOf(k.refinements, c), r.claims[c].refinedBy)
  {
    var r := Folded(k);
    forall c | c in k.claims
      ensures ThenRest(k.claims[c].refinedBy, ListOf(k.refinements, c), r.claims[c].refinedBy)
    {
      ThenWithout(k.claims[c].refinedBy, ListOf(k.refinements, c));
      assert k.claims[c].refinedBy + [] == k.claims[c].refinedBy;
    }
  }

  // ------------------------------------------------------------------- any number of layers

  lemma {:induction false} OverlaidExactly<V(!new)>(defs: seq<map<Id, V>>, name: Id)
    ensures name in Overlaid(defs) <==> exists j :: 0 <= j < |defs| && name in defs[j]
  {
    if defs != [] {
      var n := |defs| - 1;
      OverlaidExactly(defs[..n], name);
      if j :| 0 <= j < |defs| && name in defs[j] {
        assert j < n ==> name in defs[..n][j];
      }
    }
  }

  lemma {:induction false} AddedBySome(layers: seq<Layer>, claim: Id, sub: Id) returns (i: nat)
    requires Adds(MergedAll(layers), claim, sub)
    ensures i < |layers| && Adds(layers[i], claim, sub)
  {
    var n := |layers| - 1;
    if Adds(layers[n], claim, sub) {
      i := n;
    } else {
      i := AddedBySome(layers[..n], claim, sub);
    }
  }

  ghost predicate AddedBySomeLayer(layers: seq<Layer>, claim: Id, sub: Id) {
    exists j :: 0 <= j < |layers| && Adds(layers[j], claim, sub)
  }

  lemma AddedExactly(layers: seq<Layer>, claim: Id, sub: Id)
    ensures Adds(MergedAll(layers), claim, sub) <==> AddedBySomeLayer(layers, claim, sub)
  {
    if Adds(MergedAll(layers), claim, sub) {
      var i := AddedBySome(layers, claim, sub);
    }
    if j :| 0 <= j < |layers| && Adds(layers[j], claim, sub) {
      MergedAdds(layers, claim, sub, j);
    }
  }

  lemma FoldedSubCauses(k: Layer, claim: Id, sub: Id)
    requires claim in k.claims
    ensures claim in Folded(k).claims
    ensures sub in Folded(k).claims[claim].refinedBy <==> sub in k.claims[claim].refinedBy || Adds(k, claim, sub)
  {
  }

  /** The combined claims are those some layer defines. */
  lemma ClaimsExactly(layers: seq<Layer>, claim: Id)
    ensures claim in Combined(layers).claims <==> exists j :: 0 <= j < |layers| && claim in layers[j].claims
  {
    MergedOverlays(layers);
    OverlaidExactly(ClaimsOf(layers), claim);
    assert forall j :: 0 <= j < |layers| ==> ClaimsOf(layers)[j] == layers[j].claims;
  }

  lemma ClaimIsLast(layers: seq<Layer>, claim: Id, i: nat)
    requires DefinesLast(ClaimsOf(layers), claim, i)
    ensures claim in MergedAll(layers).claims && MergedAll(layers).claims[claim] == layers[i].claims[claim]
  {
    MergedOverlays(layers);
    OverlaidLast(ClaimsOf(layers), claim, i);
  }

  /** The sub-causes of a claim are those the highest layer that defines it gives it, and those
      any layer adds. */
  lemma SubCausesExactly(layers: seq<Layer>, claim: Id, i: nat, sub: Id)
    requires DefinesLast(ClaimsOf(layers), claim, i)
    ensures claim in Combined(layers).claims
    ensures sub in Combined(layers).claims[claim].refinedBy
            <==> sub in layers[i].claims[claim].refinedBy || AddedBySomeLayer(layers, claim, sub)
  {
    ClaimIsLast(layers, claim, i);
    FoldedSubCauses(MergedAll(layers), claim, sub);
    AddedExactly(layers, claim, sub);
  }

  /** What excludes each other in some layer does so combined, and nothing else. */
  lemma {:induction false} ExclusiveExactly(layers: seq<Layer>, pair: seq<Id>)
    ensures pair in Combined(layers).exclusive <==> exists i :: 0 <= i < |layers| && pair in layers[i].exclusive
  {
    if layers != [] {
      var n := |layers| - 1;
      ExclusiveExactly(layers[..n], pair);
      if i :| 0 <= i < |layers| && pair in layers[i].exclusive {
        assert i < n ==> pair in layers[..n][i].exclusive;
      }
    }
  }
}
