/**
 Combining layers of knowledge, lowest precedence first (`combine`), and folding added
 sub-causes into the claims they refine (`_apply_refinements`).
 */
module Layers {
  import opened Base
  import opened Knowledge

  datatype Layer = Layer(
    symptoms: map<Id, seq<Id>>,
    alerts: map<Id, Id>,
    facts: map<Id, Fact>,
    actions: map<Id, Action>,
    claims: map<Id, Claim>,
    changes: map<Id, seq<Id>>,
    exclusive: seq<seq<Id>>,
    refinements: map<Id, seq<Id>>)

  const EMPTY := Layer(map[], map[], map[], map[], map[], map[], [], map[])

  /** `[x for x in xs if x not in have]`. */
  function Without<T(==,!new)>(xs: seq<T>, have: seq<T>): (r: seq<T>)
    ensures forall x :: x in r <==> x in xs && x !in have
  {
    if xs == [] then []
    else
      var last := xs[|xs| - 1];
      assert forall x :: x in xs <==> x in xs[..|xs| - 1] || x == last;
      Without(xs[..|xs| - 1], have) + if last in have then [] else [last]
  }

  function MergedSymptoms(lower: map<Id, seq<Id>>, higher: map<Id, seq<Id>>): map<Id, seq<Id>> {
    map n | n in lower.Keys + higher.Keys ::
      if n !in higher then lower[n]
      else if n !in lower then higher[n]
      else higher[n] + Without(lower[n], higher[n])
  }

  function MergedRefinements(lower: map<Id, seq<Id>>, higher: map<Id, seq<Id>>): map<Id, seq<Id>> {
    map c | c in lower.Keys + higher.Keys ::
      var before := if c in lower then lower[c] else [];
      before + Without(if c in higher then higher[c] else [], before)
  }

  function Merged(out: Layer, k: Layer): Layer {
    Layer(MergedSymptoms(out.symptoms, k.symptoms),
          out.alerts + k.alerts, out.facts + k.facts, out.actions + k.actions,
          out.claims + k.claims, out.changes + k.changes,
          out.exclusive + Without(k.exclusive, out.exclusive),
          MergedRefinements(out.refinements, k.refinements))
  }

  function Refined(c: Claim, subs: seq<Id>): Claim {
    c.(refinedBy := c.refinedBy + Without(subs, c.refinedBy))
  }

  /** Refinements of a claim no layer has defined yet are held back. */
  function Folded(k: Layer): Layer {
    k.(claims := map c | c in k.claims ::
         if c in k.refinements then Refined(k.claims[c], k.refinements[c]) else k.claims[c])
  }

  function MergedAll(layers: seq<Layer>): Layer {
    if layers == [] then EMPTY else Merged(MergedAll(layers[..|layers| - 1]), layers[|layers| - 1])
  }

  function Combined(layers: seq<Layer>): Layer {
    Folded(MergedAll(layers))
  }

  method Combine(layers: seq<Layer>) returns (out: Layer)
    ensures out == Combined(layers)
  {
    out := EMPTY;
    for i := 0 to |layers|
      invariant out == MergedAll(layers[..i])
    {
      assert layers[..i + 1][..i] == layers[..i];
      out := Merged(out, layers[i]);
    }
    assert layers[..|layers|] == layers;
    out := Folded(out);
  }

  // --------------------------------------------------------------------------- candidates

  predicate Lists(k: Layer, name: Id, x: Id) {
    name in k.symptoms && x in k.symptoms[name]
  }

  /** A combined symptom lists exactly the candidates some layer lists for it. */
  lemma {:induction false} NoCandidateTakenAway(layers: seq<Layer>, name: Id, x: Id)
    ensures Lists(Combined(layers), name, x) <==> exists i :: 0 <= i < |layers| && Lists(layers[i], name, x)
  {
    if layers != [] {
      var n := |layers| - 1;
      NoCandidateTakenAway(layers[..n], name, x);
      var lower, higher := MergedAll(layers[..n]), layers[n];
      assert Lists(MergedAll(layers), name, x) <==> Lists(lower, name, x) || Lists(higher, name, x);
      assert layers == layers[..n] + [higher];
      if i :| 0 <= i < |layers| && Lists(layers[i], name, x) {
        assert i < n ==> Lists(layers[..n][i], name, x);
      }
    }
  }

  /** One more than the number of the highest layer that lists `x`, or 0. */
  function Level(layers: seq<Layer>, name: Id, x: Id): (l: nat)
    ensures l <= |layers|
    ensures l > 0 ==> Lists(layers[l - 1], name, x)
  {
    if layers == [] then 0
    else if Lists(layers[|layers| - 1], name, x) then |layers|
    else Level(layers[..|layers| - 1], name, x)
  }

  ghost predicate HigherFirst(layers: seq<Layer>, name: Id, list: seq<Id>) {
    forall p, q :: 0 <= p < q < |list| ==> Level(layers, name, list[p]) >= Level(layers, name, list[q])
  }

  /** Where the elements that are left came from, in order. */
  lemma {:induction false} WithoutPicks<T(!new)>(xs: seq<T>, have: seq<T>) returns (at: seq<nat>)
    ensures |at| == |Without(xs, have)|
    ensures forall p :: 0 <= p < |at| ==> at[p] < |xs| && xs[at[p]] == Without(xs, have)[p]
    ensures forall p, q :: 0 <= p < q < |at| ==> at[p] < at[q]
  {
    at := [];
    if xs != [] {
      at := WithoutPicks(xs[..|xs| - 1], have);
      if xs[|xs| - 1] !in have {
        at := at + [|xs| - 1];
      }
    }
  }

  lemma WithoutSubsequence(xs: seq<Id>, have: seq<Id>, layers: seq<Layer>, name: Id)
    requires HigherFirst(layers, name, xs)
    ensures HigherFirst(layers, name, Without(xs, have))
    ensures NoDup(xs) ==> NoDup(Without(xs, have))
  {
    var r := Without(xs, have);
    var at := WithoutPicks(xs, have);
    forall p, q | 0 <= p < q < |r|
      ensures Level(layers, name, r[p]) >= Level(layers, name, r[q])
      ensures NoDup(xs) ==> r[p] != r[q]
    {
      assert xs[at[p]] == r[p] && xs[at[q]] == r[q];
    }
  }

  /** A combined symptom lists the candidates of higher layers before those only lower
      layers have, and repeats none that no layer repeats. */
  lemma {:induction false} HigherCandidatesFirst(layers: seq<Layer>, name: Id)
    requires forall i :: 0 <= i < |layers| && name in layers[i].symptoms ==> NoDup(layers[i].symptoms[name])
    ensures name in Combined(layers).symptoms ==>
              HigherFirst(layers, name, Combined(layers).symptoms[name]) && NoDup(Combined(layers).symptoms[name])
  {
    if layers != [] {
      var n := |layers| - 1;
      var front := layers[..n];
      assert forall i :: 0 <= i < n ==> front[i] == layers[i];
      HigherCandidatesFirst(front, name);
      var lower, higher := MergedAll(front).symptoms, layers[n].symptoms;
      if name in lower && name in higher {
        WithoutSubsequence(lower[name], higher[name], front, name);
        HigherThenRest(layers, name, higher[name], Without(lower[name], higher[name]));
      } else if name in lower {
        assert forall x :: Level(layers, name, x) == Level(front, name, x);
      }
    }
  }

  lemma HigherThenRest(layers: seq<Layer>, name: Id, top: seq<Id>, rest: seq<Id>)
    requires layers != [] && name in layers[|layers| - 1].symptoms && top == layers[|layers| - 1].symptoms[name]
    requires forall x :: x in rest ==> x !in top
    requires HigherFirst(layers[..|layers| - 1], name, rest) && NoDup(top) && NoDup(rest)
    ensures HigherFirst(layers, name, top + rest) && NoDup(top + rest)
  {
    var list := top + rest;
    forall p | 0 <= p < |list|
      ensures p < |top| ==> Level(layers, name, list[p]) == |layers|
      ensures p >= |top| ==> list[p] !in top
                             && Level(layers, name, list[p]) == Level(layers[..|layers| - 1], name, rest[p - |top|])
    {
      assert p < |top| ==> list[p] in top;
      assert p >= |top| ==> list[p] in rest;
    }
    forall p, q | 0 <= p < q < |list|
      ensures list[p] != list[q]
    {
      if p < |top| <= q {
        assert list[p] in top;
      }
    }
  }

  // -------------------------------------------------------------------------- definitions

  /** Layer `i` has the last word on a name. */
  ghost predicate DefinesLast<V>(defs: seq<map<Id, V>>, name: Id, i: nat) {
    i < |defs| && name in defs[i] && forall j :: i < j < |defs| ==> name !in defs[j]
  }

  function FactsOf(layers: seq<Layer>): (r: seq<map<Id, Fact>>)
    ensures |r| == |layers|
  {
    seq(|layers|, i requires 0 <= i < |layers| => layers[i].facts)
  }

  function ClaimsOf(layers: seq<Layer>): (r: seq<map<Id, Claim>>)
    ensures |r| == |layers|
  {
    seq(|layers|, i requires 0 <= i < |layers| => layers[i].claims)
  }

  function AlertsOf(layers: seq<Layer>): (r: seq<map<Id, Id>>)
    ensures |r| == |layers|
  {
    seq(|layers|, i requires 0 <= i < |layers| => layers[i].alerts)
  }

  function ActionsOf(layers: seq<Layer>): (r: seq<map<Id, Action>>)
    ensures |r| == |layers|
  {
    seq(|layers|, i requires 0 <= i < |layers| => layers[i].actions)
  }

  function ChangesOf(layers: seq<Layer>): (r: seq<map<Id, seq<Id>>>)
    ensures |r| == |layers|
  {
    seq(|layers|, i requires 0 <= i < |layers| => layers[i].changes)
  }

  /** Definitions laid one over another: `out.update(k)` for each. */
  function Overlaid<V>(defs: seq<map<Id, V>>): map<Id, V> {
    if defs == [] then map[] else Overlaid(defs[..|defs| - 1]) + defs[|defs| - 1]
  }

  lemma {:induction false} MergedOverlays(layers: seq<Layer>)
    ensures MergedAll(layers).facts == Overlaid(FactsOf(layers))
    ensures MergedAll(layers).claims == Overlaid(ClaimsOf(layers))
  {
    if layers != [] {
      var n := |layers| - 1;
      MergedOverlays(layers[..n]);
      assert FactsOf(layers)[..n] == FactsOf(layers[..n]);
      assert ClaimsOf(layers)[..n] == ClaimsOf(layers[..n]);
    }
  }

  lemma {:induction false} MergedAlerts(layers: seq<Layer>)
    ensures MergedAll(layers).alerts == Overlaid(AlertsOf(layers))
  {
    if layers != [] {
      MergedAlerts(layers[..|layers| - 1]);
      assert AlertsOf(layers)[..|layers| - 1] == AlertsOf(layers[..|layers| - 1]);
    }
  }

  lemma {:induction false} MergedActions(layers: seq<Layer>)
    ensures MergedAll(layers).actions == Overlaid(ActionsOf(layers))
  {
    if layers != [] {
      MergedActions(layers[..|layers| - 1]);
      assert ActionsOf(layers)[..|layers| - 1] == ActionsOf(layers[..|layers| - 1]);
    }
  }

  lemma {:induction false} MergedChanges(layers: seq<Layer>)
    ensures MergedAll(layers).changes == Overlaid(ChangesOf(layers))
  {
    if layers != [] {
      MergedChanges(layers[..|layers| - 1]);
      assert ChangesOf(layers)[..|layers| - 1] == ChangesOf(layers[..|layers| - 1]);
    }
  }

  lemma {:induction false} OverlaidLast<V>(defs: seq<map<Id, V>>, name: Id, i: nat)
    requires DefinesLast(defs, name, i)
    ensures name in Overlaid(defs) && Overlaid(defs)[name] == defs[i][name]
  {
    var n := |defs| - 1;
    if i < n {
      assert name !in defs[n];
      OverlaidLast(defs[..n], name, i);
    }
  }

  /** A fact is the highest layer's that defines it; a claim too, but for the sub-causes
      layers added to it, which come after those it was defined with. */
  lemma HighestDefinitionWins(layers: seq<Layer>, name: Id, i: nat)
    ensures DefinesLast(FactsOf(layers), name, i) ==>
              name in Combined(layers).facts && Combined(layers).facts[name] == layers[i].facts[name]
    ensures DefinesLast(ClaimsOf(layers), name, i) ==>
              name in Combined(layers).claims
              && Combined(layers).claims[name].(refinedBy := []) == layers[i].claims[name].(refinedBy := [])
              && layers[i].claims[name].refinedBy <= Combined(layers).claims[name].refinedBy
  {
    MergedOverlays(layers);
    if DefinesLast(FactsOf(layers), name, i) {
      OverlaidLast(FactsOf(layers), name, i);
    }
    if DefinesLast(ClaimsOf(layers), name, i) {
      OverlaidLast(ClaimsOf(layers), name, i);
    }
  }

  /** So are alerts, actions and kinds of change. */
  lemma HighestOfTheRestWins(layers: seq<Layer>, name: Id, i: nat)
    ensures DefinesLast(AlertsOf(layers), name, i) ==>
              name in Combined(layers).alerts && Combined(layers).alerts[name] == layers[i].alerts[name]
    ensures DefinesLast(ActionsOf(layers), name, i) ==>
              name in Combined(layers).actions && Combined(layers).actions[name] == layers[i].actions[name]
    ensures DefinesLast(ChangesOf(layers), name, i) ==>
              name in Combined(layers).changes && Combined(layers).changes[name] == layers[i].changes[name]
  {
    MergedAlerts(layers);
    MergedActions(layers);
    MergedChanges(layers);
    if DefinesLast(AlertsOf(layers), name, i) {
      OverlaidLast(AlertsOf(layers), name, i);
    }
    if DefinesLast(ActionsOf(layers), name, i) {
      OverlaidLast(ActionsOf(layers), name, i);
    }
    if DefinesLast(ChangesOf(layers), name, i) {
      OverlaidLast(ChangesOf(layers), name, i);
    }
  }

  // -------------------------------------------------------------------------- refinements

  predicate Adds(k: Layer, claim: Id, sub: Id) {
    claim in k.refinements && sub in k.refinements[claim]
  }

  lemma {:induction false} MergedAdds(layers: seq<Layer>, claim: Id, sub: Id, i: nat)
    requires i < |layers| && Adds(layers[i], claim, sub)
    ensures Adds(MergedAll(layers), claim, sub)
  {
    var n := |layers| - 1;
    if i < n {
      MergedAdds(layers[..n], claim, sub, i);
    }
  }

  /** A sub-cause any layer adds to a claim any layer defines is among that claim's. */
  lemma RefinementSurvives(layers: seq<Layer>, claim: Id, sub: Id, i: nat)
    requires i < |layers| && Adds(layers[i], claim, sub) && claim in Combined(layers).claims
    ensures sub in Combined(layers).claims[claim].refinedBy
  {
    MergedAdds(layers, claim, sub, i);
  }

  lemma {:induction false} WithoutNothing<T(!new)>(xs: seq<T>, have: seq<T>)
    requires forall x :: x in xs ==> x in have
    ensures Without(xs, have) == []
  {
    if xs != [] {
      WithoutNothing(xs[..|xs| - 1], have);
      assert xs[|xs| - 1] in xs;
    }
  }

  /** Folding refinements in again changes nothing. */
  lemma FoldedTwice(k: Layer)
    ensures Folded(Folded(k)) == Folded(k)
  {
    var once := Folded(k);
    forall c | c in k.claims && c in k.refinements
      ensures Refined(once.claims[c], k.refinements[c]) == once.claims[c]
    {
      WithoutNothing(k.refinements[c], once.claims[c].refinedBy);
    }
    assert Folded(once).claims == once.claims;
  }
}
