/**
 What knowledge the build lets pass looks like, said at once of all its names.
 */
module Passing {
  import opened Knowledge
  import opened Layers
  import opened Refinement
  import Check

  /** Every candidate is a claim, and every alert has a symptom. */
  ghost predicate SymptomsStand(k: Layer) {
    && (forall s, c :: s in k.symptoms && c in k.symptoms[s] ==> c in k.claims)
    && (forall a :: a in k.alerts ==> k.alerts[a] in k.symptoms)
  }

  /** Every action needs a capability there is, and produces facts there are, and not a change;
      every kind of change is seen by actions there are. */
  ghost predicate ActionsStand(k: Layer) {
    && (forall n :: n in k.actions ==>
          k.actions[n].requires_ in {"audit-log", "human", "k8stools", "logs-backend", "prometheus", "tracing"})
    && (forall n, f :: n in k.actions && f in k.actions[n].produces ==> f in k.facts && f != "changed_before_onset")
    && (forall kind, n :: kind in k.changes && n in k.changes[kind] ==> n in k.actions)
  }

  /** Some action produces the fact or, if it is the change, sees a kind of change. */
  ghost predicate IsSeen(k: Layer, f: Id) {
    || (exists n :: n in k.actions && f in k.actions[n].produces)
    || (f == "changed_before_onset" && exists kind, n :: kind in k.changes && n in k.changes[kind] && n in k.actions)
  }

  /** An alternative tests facts there are, with as many arguments as they take; and a change in
      it is of a known kind, and stands with an onset it does not deny. */
  ghost predicate Stands(k: Layer, alt: Alternative) {
    && (forall c :: c in alt && c.Test? ==> c.fact in k.facts && |c.args| == |k.facts[c.fact].params|)
    && (forall c :: c in alt && c.Test? && c.fact == "changed_before_onset" ==>
          && (|c.args| == 2 ==> c.args[1] in k.changes)
          && exists o :: o in alt && o.Test? && o.fact == "onset_observed" && !o.negated)
  }

  /** The claim can be ruled out and supported, refines into claims there are, and is uncommon
      only as a sub-cause; and all its alternatives stand. */
  ghost predicate ClaimStands(k: Layer, n: Id)
    requires n in k.claims
  {
    var c := k.claims[n];
    && |c.rulesOut| > 0 && |c.for_| > 0
    && (forall x :: x in c.refinedBy ==> x in k.claims)
    && (c.uncommon ==> exists d :: d in k.claims && n in k.claims[d].refinedBy)
    && (forall w :: w in c.for_ || w in c.against ==> Stands(k, w.when))
    && (forall alt :: alt in c.rulesOut ==> Stands(k, alt))
  }

  /** What is added refines a claim into claims, and what excludes each other are two claims
      listed together, as candidates or as sub-causes. */
  ghost predicate RestStands(k: Layer) {
    && (forall c :: c in k.refinements ==> c in k.claims)
    && (forall c, x :: c in k.refinements && x in k.refinements[c] ==> x in k.claims)
    && (forall p :: p in k.exclusive ==>
          && |p| == 2 && p[0] in k.claims && p[1] in k.claims
          && ((exists s :: s in k.symptoms && p[0] in k.symptoms[s] && p[1] in k.symptoms[s])
              || (exists c :: c in k.claims && p[0] in k.claims[c].refinedBy && p[1] in k.claims[c].refinedBy)))
  }

  lemma AllInMeans(names: seq<Id>, known: set<Id>)
    ensures Check.AllIn(names, known) <==> forall x :: x in names ==> x in known
  {
    if Check.AllIn(names, known) {
      forall x | x in names
        ensures x in known
      {
        var i :| 0 <= i < |names| && names[i] == x;
      }
    }
  }

  lemma DefinitionsExactly(k: Layer)
    ensures Check.DefinitionsOk(k) <==> SymptomsStand(k) && ActionsStand(k) && forall f :: f in k.facts ==> IsSeen(k, f)
  {
    forall s | s in k.symptoms
      ensures Check.AllIn(k.symptoms[s], k.claims.Keys) <==> forall c :: c in k.symptoms[s] ==> c in k.claims
    {
      AllInMeans(k.symptoms[s], k.claims.Keys);
    }
    ActionsExactly(k);
    forall f
      ensures Check.Produced(k, f) <==> IsSeen(k, f)
    {
      ProducedMeans(k, f);
    }
  }

  lemma ActionsExactly(k: Layer)
    ensures (&& (forall n :: n in k.actions ==> Check.ActionOk(k, k.actions[n]))
             && (forall kind :: kind in k.changes ==> Check.AllIn(k.changes[kind], k.actions.Keys)))
            <==> ActionsStand(k)
  {
    forall n | n in k.actions
      ensures Check.AllIn(k.actions[n].produces, k.facts.Keys) <==> forall f :: f in k.actions[n].produces ==> f in k.facts
    {
      AllInMeans(k.actions[n].produces, k.facts.Keys);
    }
    forall kind | kind in k.changes
      ensures Check.AllIn(k.changes[kind], k.actions.Keys) <==> forall n :: n in k.changes[kind] ==> n in k.actions
    {
      AllInMeans(k.changes[kind], k.actions.Keys);
    }
  }

  lemma ProducedMeans(k: Layer, f: Id)
    ensures Check.Produced(k, f) <==> IsSeen(k, f)
  {
    if Check.Produced(k, f) && !exists n :: n in k.actions && f in k.actions[n].produces {
      var kind, i :| kind in k.changes && 0 <= i < |k.changes[kind]| && k.changes[kind][i] in k.actions;
      assert k.changes[kind][i] in k.changes[kind];
    }
    if kind, n :| kind in k.changes && n in k.changes[kind] && n in k.actions {
      var i :| 0 <= i < |k.changes[kind]| && k.changes[kind][i] == n;
    }
  }

  lemma StandsMeans(k: Layer, alt: Alternative)
    ensures Check.AlternativeOk(k, alt) <==> Stands(k, alt)
  {
    if Check.AlternativeOk(k, alt) {
      forall c | c in alt
        ensures Resolves(k.facts, c)
        ensures c.Test? && c.fact == CHANGE_FACT && |c.args| == 2 ==> c.args[1] in k.changes
        ensures c.Test? && c.fact == CHANGE_FACT ==> exists o :: o in alt && o.Test? && o.fact == ONSET_FACT && !o.negated
      {
        var i :| 0 <= i < |alt| && alt[i] == c;
      }
    }
    if Stands(k, alt) {
      if i :| 0 <= i < |alt| && alt[i].Test? && alt[i].fact == CHANGE_FACT {
        assert alt[i] in alt;
        var o :| o in alt && o.Test? && o.fact == "onset_observed" && !o.negated;
        var j :| 0 <= j < |alt| && alt[j] == o;
      }
      assert forall i :: 0 <= i < |alt| ==> alt[i] in alt;
    }
  }

  lemma ClaimsStandExactly(k: Layer)
    ensures (forall n :: n in k.claims ==> Check.ClaimOk(k, n, k.claims[n])) <==> forall n :: n in k.claims ==> ClaimStands(k, n)
  {
    forall n | n in k.claims
      ensures Check.ClaimOk(k, n, k.claims[n]) <==> ClaimStands(k, n)
    {
      ClaimStandsExactly(k, n);
    }
  }

  lemma ClaimStandsExactly(k: Layer, n: Id)
    requires n in k.claims
    ensures Check.ClaimOk(k, n, k.claims[n]) <==> ClaimStands(k, n)
  {
    var c := k.claims[n];
    AllInMeans(c.refinedBy, k.claims.Keys);
    AllStand(k, c.rulesOut);
    AllWeighStand(k, c.for_);
    AllWeighStand(k, c.against);
  }

  lemma AllStand(k: Layer, alts: seq<Alternative>)
    ensures (forall i :: 0 <= i < |alts| ==> Check.AlternativeOk(k, alts[i])) <==> forall alt :: alt in alts ==> Stands(k, alt)
  {
    forall alt
      ensures Check.AlternativeOk(k, alt) <==> Stands(k, alt)
    {
      StandsMeans(k, alt);
    }
    assert forall i :: 0 <= i < |alts| ==> alts[i] in alts;
  }

  lemma AllWeighStand(k: Layer, ws: seq<Weighted>)
    ensures (forall i :: 0 <= i < |ws| ==> Check.AlternativeOk(k, ws[i].when)) <==> forall w :: w in ws ==> Stands(k, w.when)
  {
    forall alt
      ensures Check.AlternativeOk(k, alt) <==> Stands(k, alt)
    {
      StandsMeans(k, alt);
    }
    assert forall i :: 0 <= i < |ws| ==> ws[i] in ws;
  }

  lemma RestStandsExactly(k: Layer)
    ensures (&& (forall c :: c in k.refinements ==> Check.RefinementOk(k, c))
             && (forall i :: 0 <= i < |k.exclusive| ==> Check.ExclusiveOk(k, k.exclusive[i])))
            <==> RestStands(k)
  {
    forall c | c in k.refinements
      ensures Check.AllIn(k.refinements[c], k.claims.Keys) <==> forall x :: x in k.refinements[c] ==> x in k.claims
    {
      AllInMeans(k.refinements[c], k.claims.Keys);
    }
    assert forall i :: 0 <= i < |k.exclusive| ==> k.exclusive[i] in k.exclusive;
  }

  /** No claim comes back to itself from sub-cause to sub-cause. */
  ghost predicate NeverItself(k: Layer) {
    forall path: seq<Id> :: |path| > 1 && GoesDown(k, path) ==> path[0] != path[|path| - 1]
  }

  /** Each claim on the path is a sub-cause of the one before it. */
  ghost predicate GoesDown(k: Layer, path: seq<Id>) {
    forall i {:trigger path[i]} :: 0 <= i < |path| - 1 ==> path[i] in k.claims && path[i + 1] in k.claims[path[i]].refinedBy
  }

  lemma TrailGoesDown(k: Layer, path: seq<Id>)
    ensures IsTrail(Check.SubsOf(k.claims), path) <==> GoesDown(k, path)
  {
    var subs := Check.SubsOf(k.claims);
    if IsTrail(subs, path) {
      forall i {:trigger path[i]} | 0 <= i < |path| - 1
        ensures path[i] in k.claims && path[i + 1] in k.claims[path[i]].refinedBy
      {
        assert Refines(subs, path[i], path[i + 1]);
      }
    }
  }

  lemma AcyclicExactly(k: Layer)
    ensures Check.Acyclic(k) <==> NeverItself(k)
  {
    var subs := Check.SubsOf(k.claims);
    forall path
      ensures IsTrail(subs, path) <==> GoesDown(k, path)
    {
      TrailGoesDown(k, path);
    }
    if Check.Acyclic(k) {
      forall path: seq<Id> | |path| > 1 && GoesDown(k, path)
        ensures path[0] != path[|path| - 1]
      {
        assert path[0] in k.claims;
        assert !IsCycle(subs, path);
      }
    }
  }

  lemma ClaimsExactly(k: Layer)
    ensures Check.ClaimsOk(k) <==> RestStands(k) && forall n :: n in k.claims ==> ClaimStands(k, n)
  {
    ClaimsStandExactly(k);
    RestStandsExactly(k);
  }

  /** The build lets knowledge pass exactly when all of this holds of it. */
  lemma PassesExactly(k: Layer)
    ensures Check.DefinitionsOk(k) && Check.ClaimsOk(k) && Check.Acyclic(k)
            <==> SymptomsStand(k) && ActionsStand(k) && RestStands(k) && NeverItself(k)
                 && (forall f :: f in k.facts ==> IsSeen(k, f))
                 && forall n :: n in k.claims ==> ClaimStands(k, n)
  {
    DefinitionsExactly(k);
    ClaimsExactly(k);
    AcyclicExactly(k);
  }
}
