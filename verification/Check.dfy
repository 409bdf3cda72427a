/**
 What the build checks of the knowledge (`check`), and what that buys at run time: on
 knowledge it passes, `open` looks up nothing that is not there.
 */
module Check {
  import opened Knowledge
  import opened Layers
  import opened Refinement

  const CAPABILITIES := {"k8stools", "prometheus", "tracing", "logs-backend", "audit-log", "human"}

  datatype Problem =
    | BadSymptom(name: Id) | BadAlert(name: Id) | BadAction(name: Id) | BadChange(name: Id)
    | BadFact(name: Id) | BadClaim(name: Id) | BadRefinement(name: Id)
    | Cycle(path: seq<Id>) | BadExclusive(pair: seq<Id>)

  predicate AllIn(names: seq<Id>, known: set<Id>) {
    forall i :: 0 <= i < |names| ==> names[i] in known
  }

  predicate ActionOk(k: Layer, a: Action) {
    a.requires_ in CAPABILITIES && AllIn(a.produces, k.facts.Keys) && CHANGE_FACT !in a.produces
  }

  /** Some action produces the fact; a change, one that sees a kind of it. */
  predicate Produced(k: Layer, f: Id) {
    || (exists n :: n in k.actions && f in k.actions[n].produces)
    || (f == CHANGE_FACT && exists kind, i :: kind in k.changes && 0 <= i < |k.changes[kind]| && k.changes[kind][i] in k.actions)
  }

  /** A change counts only against an observed onset, and only of a known kind. */
  predicate TimingOk(k: Layer, alt: Alternative) {
    && (forall i :: 0 <= i < |alt| && alt[i].Test? && alt[i].fact == CHANGE_FACT && |alt[i].args| == 2
          ==> alt[i].args[1] in k.changes)
    && ((exists i :: 0 <= i < |alt| && alt[i].Test? && alt[i].fact == CHANGE_FACT)
          ==> exists i :: 0 <= i < |alt| && alt[i].Test? && alt[i].fact == ONSET_FACT && !alt[i].negated)
  }

  predicate AlternativeOk(k: Layer, alt: Alternative) {
    (forall i :: 0 <= i < |alt| ==> Resolves(k.facts, alt[i])) && TimingOk(k, alt)
  }

  predicate RefinesSome(k: Layer, name: Id) {
    exists c :: c in k.claims && name in k.claims[c].refinedBy
  }

  predicate ClaimOk(k: Layer, name: Id, c: Claim) {
    && (c.uncommon ==> RefinesSome(k, name))
    && c.rulesOut != [] && c.for_ != []
    && AllIn(c.refinedBy, k.claims.Keys)
    && (forall i :: 0 <= i < |c.for_| ==> AlternativeOk(k, c.for_[i].when))
    && (forall i :: 0 <= i < |c.against| ==> AlternativeOk(k, c.against[i].when))
    && (forall i :: 0 <= i < |c.rulesOut| ==> AlternativeOk(k, c.rulesOut[i]))
  }

  predicate RefinementOk(k: Layer, claim: Id)
    requires claim in k.refinements
  {
    claim in k.claims && AllIn(k.refinements[claim], k.claims.Keys)
  }

  predicate Siblings(k: Layer, a: Id, b: Id) {
    || (exists s :: s in k.symptoms && a in k.symptoms[s] && b in k.symptoms[s])
    || (exists c :: c in k.claims && a in k.claims[c].refinedBy && b in k.claims[c].refinedBy)
  }

  predicate ExclusiveOk(k: Layer, pair: seq<Id>) {
    |pair| == 2 && pair[0] in k.claims && pair[1] in k.claims && Siblings(k, pair[0], pair[1])
  }

  function SubsOf(claims: map<Id, Claim>): Subs {
    map c | c in claims :: claims[c].refinedBy
  }

  ghost predicate DefinitionsOk(k: Layer) {
    && (forall s :: s in k.symptoms ==> AllIn(k.symptoms[s], k.claims.Keys))
    && (forall a :: a in k.alerts ==> k.alerts[a] in k.symptoms)
    && (forall n :: n in k.actions ==> ActionOk(k, k.actions[n]))
    && (forall kind :: kind in k.changes ==> AllIn(k.changes[kind], k.actions.Keys))
    && (forall f :: f in k.facts ==> Produced(k, f))
  }

  ghost predicate ClaimsOk(k: Layer) {
    && (forall c :: c in k.claims ==> ClaimOk(k, c, k.claims[c]))
    && (forall c :: c in k.refinements ==> RefinementOk(k, c))
    && (forall i :: 0 <= i < |k.exclusive| ==> ExclusiveOk(k, k.exclusive[i]))
  }

  ghost predicate Acyclic(k: Layer) {
    forall path :: !IsCycle(SubsOf(k.claims), path)
  }

  /** What the problem says is so. */
  ghost predicate IsProblem(k: Layer, p: Problem) {
    match p
    case BadSymptom(s) => s in k.symptoms && !AllIn(k.symptoms[s], k.claims.Keys)
    case BadAlert(a) => a in k.alerts && k.alerts[a] !in k.symptoms
    case BadAction(n) => n in k.actions && !ActionOk(k, k.actions[n])
    case BadChange(kind) => kind in k.changes && !AllIn(k.changes[kind], k.actions.Keys)
    case BadFact(f) => f in k.facts && !Produced(k, f)
    case BadClaim(c) => c in k.claims && !ClaimOk(k, c, k.claims[c])
    case BadRefinement(c) => c in k.refinements && !RefinementOk(k, c)
    case BadExclusive(pair) => pair in k.exclusive && !ExclusiveOk(k, pair)
    case Cycle(path) => IsSimpleCycle(SubsOf(k.claims), path)
  }

  ghost predicate OfActions(p: Problem) {
    p.BadAction? || p.BadChange? || p.BadFact?
  }

  ghost predicate OfDefinitions(p: Problem) {
    p.BadSymptom? || p.BadAlert? || OfActions(p)
  }

  ghost predicate OfClaims(p: Problem) {
    p.BadClaim? || p.BadRefinement? || p.BadExclusive?
  }

  lemma NoneOfDefinitions(k: Layer, problems: seq<Problem>)
    requires forall p :: p in problems <==> OfDefinitions(p) && IsProblem(k, p)
    ensures problems == [] <==> DefinitionsOk(k)
  {
    if problems == [] {
      forall s | s in k.symptoms
        ensures AllIn(k.symptoms[s], k.claims.Keys)
      {
        assert BadSymptom(s) !in problems;
      }
      forall a | a in k.alerts
        ensures k.alerts[a] in k.symptoms
      {
        assert BadAlert(a) !in problems;
      }
      forall n | n in k.actions
        ensures ActionOk(k, k.actions[n])
      {
        assert BadAction(n) !in problems;
      }
      forall n | n in k.changes
        ensures AllIn(k.changes[n], k.actions.Keys)
      {
        assert BadChange(n) !in problems;
      }
      forall f | f in k.facts
        ensures Produced(k, f)
      {
        assert BadFact(f) !in problems;
      }
    } else {
      assert problems[0] in problems;
    }
  }

  lemma NoneOfClaims(k: Layer, problems: seq<Problem>)
    requires forall p :: p in problems <==> OfClaims(p) && IsProblem(k, p)
    ensures problems == [] <==> ClaimsOk(k)
  {
    if problems == [] {
      forall c | c in k.claims
        ensures ClaimOk(k, c, k.claims[c])
      {
        assert BadClaim(c) !in problems;
      }
      forall c | c in k.refinements
        ensures RefinementOk(k, c)
      {
        assert BadRefinement(c) !in problems;
      }
      forall i | 0 <= i < |k.exclusive|
        ensures ExclusiveOk(k, k.exclusive[i])
      {
        assert k.exclusive[i] in k.exclusive && BadExclusive(k.exclusive[i]) !in problems;
      }
    } else {
      assert problems[0] in problems;
    }
  }

  method CheckDefinitions(k: Layer) returns (problems: seq<Problem>)
    ensures forall p :: p in problems <==> OfDefinitions(p) && IsProblem(k, p)
    ensures problems == [] <==> DefinitionsOk(k)
  {
    problems := [];
    ghost var soFar := problems;
    var todo := k.symptoms.Keys;
    while todo != {}
      invariant todo <= k.symptoms.Keys
      invariant forall p :: p in problems <==> p in soFar || (p.BadSymptom? && p.name in k.symptoms.Keys - todo && IsProblem(k, p))
      decreases todo
    {
      var s :| s in todo;
      todo := todo - {s};
      if !AllIn(k.symptoms[s], k.claims.Keys) { problems := problems + [BadSymptom(s)]; }
    }
    todo := k.alerts.Keys;
    soFar := problems;
    while todo != {}
      invariant todo <= k.alerts.Keys
      invariant forall p :: p in problems <==> p in soFar || (p.BadAlert? && p.name in k.alerts.Keys - todo && IsProblem(k, p))
      decreases todo
    {
      var a :| a in todo;
      todo := todo - {a};
      if k.alerts[a] !in k.symptoms { problems := problems + [BadAlert(a)]; }
    }
    var more := CheckActions(k);
    problems := problems + more;
    NoneOfDefinitions(k, problems);
  }

  method CheckActions(k: Layer) returns (problems: seq<Problem>)
    ensures forall p :: p in problems <==> OfActions(p) && IsProblem(k, p)
  {
    problems := [];
    ghost var soFar := problems;
    var todo := k.actions.Keys;
    while todo != {}
      invariant todo <= k.actions.Keys
      invariant forall p :: p in problems <==> p in soFar || (p.BadAction? && p.name in k.actions.Keys - todo && IsProblem(k, p))
      decreases todo
    {
      var n :| n in todo;
      todo := todo - {n};
      if !ActionOk(k, k.actions[n]) { problems := problems + [BadAction(n)]; }
    }
    todo := k.changes.Keys;
    soFar := problems;
    while todo != {}
      invariant todo <= k.changes.Keys
      invariant forall p :: p in problems <==> p in soFar || (p.BadChange? && p.name in k.changes.Keys - todo && IsProblem(k, p))
      decreases todo
    {
      var n :| n in todo;
      todo := todo - {n};
      if !AllIn(k.changes[n], k.actions.Keys) { problems := problems + [BadChange(n)]; }
    }
    todo := k.facts.Keys;
    soFar := problems;
    while todo != {}
      invariant todo <= k.facts.Keys
      invariant forall p :: p in problems <==> p in soFar || (p.BadFact? && p.name in k.facts.Keys - todo && IsProblem(k, p))
      decreases todo
    {
      var f :| f in todo;
      todo := todo - {f};
      if !Produced(k, f) { problems := problems + [BadFact(f)]; }
    }
  }

  method CheckClaims(k: Layer) returns (problems: seq<Problem>)
    ensures forall p :: p in problems <==> OfClaims(p) && IsProblem(k, p)
    ensures problems == [] <==> ClaimsOk(k)
  {
    problems := [];
    ghost var soFar := problems;
    var todo := k.claims.Keys;
    while todo != {}
      invariant todo <= k.claims.Keys
      invariant forall p :: p in problems <==> p in soFar || (p.BadClaim? && p.name in k.claims.Keys - todo && IsProblem(k, p))
      decreases todo
    {
      var c :| c in todo;
      todo := todo - {c};
      if !ClaimOk(k, c, k.claims[c]) { problems := problems + [BadClaim(c)]; }
    }
    todo := k.refinements.Keys;
    soFar := problems;
    while todo != {}
      invariant todo <= k.refinements.Keys
      invariant forall p :: p in problems <==> p in soFar || (p.BadRefinement? && p.name in k.refinements.Keys - todo && IsProblem(k, p))
      decreases todo
    {
      var c :| c in todo;
      todo := todo - {c};
      if !RefinementOk(k, c) { problems := problems + [BadRefinement(c)]; }
    }
    soFar := problems;
    for i := 0 to |k.exclusive|
      invariant forall p :: p in problems <==> p in soFar || (p.BadExclusive? && p.pair in k.exclusive[..i] && IsProblem(k, p))
    {
      if !ExclusiveOk(k, k.exclusive[i]) { problems := problems + [BadExclusive(k.exclusive[i])]; }
    }
    NoneOfClaims(k, problems);
  }

  /** Some cycle reported ends in one of the path's steps. */
  ghost predicate IsBroken(problems: seq<Problem>, path: seq<Id>) {
    exists p: seq<Id>, i: nat ::
      Cycle(p) in problems && i + 1 < |path| && |p| > 1 && p[|p| - 2] == path[i] && p[|p| - 1] == path[i + 1]
  }

  lemma CutIsBroken(cycles: seq<seq<Id>>, problems: seq<Problem>, path: seq<Id>)
    requires IsCut(cycles, path) && forall j :: 0 <= j < |cycles| ==> Cycle(cycles[j]) in problems
    ensures IsBroken(problems, path)
  {
    var i: nat :| i + 1 < |path| && Closes(cycles, path[i], path[i + 1]);
    var j :| 0 <= j < |cycles| && |cycles[j]| > 1 && cycles[j][|cycles[j]| - 2] == path[i]
             && cycles[j][|cycles[j]| - 1] == path[i + 1];
    assert Cycle(cycles[j]) in problems;
  }

  function AsProblems(cycles: seq<seq<Id>>): (r: seq<Problem>)
    ensures |r| == |cycles| && forall j :: 0 <= j < |cycles| ==> r[j] == Cycle(cycles[j])
  {
    seq(|cycles|, i requires 0 <= i < |cycles| => Cycle(cycles[i]))
  }

  lemma CyclesAreProblems(k: Layer, cycles: seq<seq<Id>>, p: Problem)
    requires forall i :: 0 <= i < |cycles| ==> IsSimpleCycle(SubsOf(k.claims), cycles[i])
    requires p in AsProblems(cycles)
    ensures p.Cycle? && IsProblem(k, p)
  {
    var j :| 0 <= j < |cycles| && AsProblems(cycles)[j] == p;
  }

  lemma AllAreReported(k: Layer, definitions: seq<Problem>, claims: seq<Problem>, cycles: seq<seq<Id>>)
    requires forall p :: p in definitions <==> OfDefinitions(p) && IsProblem(k, p)
    requires forall p :: p in claims <==> OfClaims(p) && IsProblem(k, p)
    requires forall i :: 0 <= i < |cycles| ==> IsSimpleCycle(SubsOf(k.claims), cycles[i])
    ensures var problems := definitions + claims + AsProblems(cycles);
            && (forall p :: p in problems ==> IsProblem(k, p))
            && (forall p :: IsProblem(k, p) && !p.Cycle? ==> p in problems)
  {
    forall p | p in AsProblems(cycles)
      ensures IsProblem(k, p)
    {
      CyclesAreProblems(k, cycles, p);
    }
  }

  lemma AllAreBroken(k: Layer, others: seq<Problem>, cycles: seq<seq<Id>>)
    requires forall path :: IsCycle(SubsOf(k.claims), path) ==> IsCut(cycles, path)
    ensures forall path :: IsCycle(SubsOf(k.claims), path) ==> IsBroken(others + AsProblems(cycles), path)
  {
    forall path | IsCycle(SubsOf(k.claims), path)
      ensures IsBroken(others + AsProblems(cycles), path)
    {
      assert forall j :: 0 <= j < |cycles| ==> AsProblems(cycles)[j] in AsProblems(cycles);
      CutIsBroken(cycles, others + AsProblems(cycles), path);
    }
  }

  /** Nothing is reported exactly when every name resolves, every claim can be supported
      and ruled out, every fact can be observed, and refinement has no cycle. What is reported
      is so, and all that is so is reported, but of cycles so many that no cycle is left without
      the last step of one of those. */
  method CheckKnowledge(k: Layer) returns (problems: seq<Problem>)
    ensures problems == [] <==> DefinitionsOk(k) && ClaimsOk(k) && Acyclic(k)
    ensures forall p :: p in problems ==> IsProblem(k, p)
    ensures forall p :: IsProblem(k, p) && !p.Cycle? ==> p in problems
    ensures forall path :: IsCycle(SubsOf(k.claims), path) ==> IsBroken(problems, path)
  {
    var definitions := CheckDefinitions(k);
    var claims := CheckClaims(k);
    var cycles := RefinementCycles(SubsOf(k.claims));
    AllAreReported(k, definitions, claims, cycles);
    AllAreBroken(k, definitions + claims, cycles);
    problems := definitions + claims + AsProblems(cycles);
  }
}
