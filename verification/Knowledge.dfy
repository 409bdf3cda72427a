/** The authored knowledge as data: facts, actions, claims, and conditions on facts. */
module Knowledge {
  type Id = string

  /** `variable op literal`, after a condition's arguments. */
  datatype Comparison = Comparison(variable: string, op: string, literal: string)

  /** A parsed condition `not fact[args], X == lit`, or prose. `literals` are the
      capitalised arguments the build marked as values rather than variables. */
  datatype Condition =
    | Prose(text: string)
    | Test(fact: Id, args: seq<string>, negated: bool, compare: seq<Comparison>, literals: set<string>)

  /** Conditions that must all hold. */
  type Alternative = seq<Condition>

  datatype Weight = Weak | Moderate | Strong

  datatype Weighted = Weighted(weight: Weight, when: Alternative)

  datatype Fact = Fact(params: seq<string>, functional: bool)

  datatype Action = Action(requires_: string, produces: seq<Id>, cost: int)

  datatype Claim = Claim(
    for_: seq<Weighted>,
    against: seq<Weighted>,
    rulesOut: seq<Alternative>,
    refinedBy: seq<Id>,
    uncommon: bool)

  datatype KnowledgeBase = KnowledgeBase(
    symptoms: map<Id, seq<Id>>,
    alerts: map<Id, Id>,
    facts: map<Id, Fact>,
    actions: map<Id, Action>,
    claims: map<Id, Claim>,
    changes: map<Id, seq<Id>>)

  function Grade(w: Weight): (g: nat)
    ensures 1 <= g <= 3
  {
    match w case Weak => 1 case Moderate => 2 case Strong => 3
  }

  /** The role letters: the container, workload, pod, node, service. */
  const ROLES := {"C", "W", "P", "N", "S"}

  /** Timing: the two facts every claim says a change with. */
  const CHANGE_FACT := "changed_before_onset"
  const ONSET_FACT := "onset_observed"

  /** A condition whose fact exists and takes as many arguments as it gives. */
  predicate Resolves(facts: map<Id, Fact>, c: Condition) {
    c.Test? ==> c.fact in facts && |c.args| == |facts[c.fact].params|
  }
}
