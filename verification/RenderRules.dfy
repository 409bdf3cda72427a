/**
 What is printed of an answer and cited below it, said of the facts by the ids they have: an id
 names the last fact that has it.
 */
module RenderRules {
  import opened Base
  import opened Picks
  import opened FactLog
  import opened Render

  /** The `i`-th is the last fact with this id. */
  ghost predicate IsNamedBy(facts: seq<Fact>, id: nat, i: nat) {
    && i < |facts| && facts[i].id == Exact(id)
    && forall j :: i < j < |facts| ==> facts[j].id != Exact(id)
  }

  predicate NamesNone(facts: seq<Fact>, id: nat) {
    forall j :: 0 <= j < |facts| ==> facts[j].id != Exact(id)
  }

  /** What the id names in all but the last of the facts it names in all, unless the last has it. */
  lemma NamedBefore(facts: seq<Fact>, id: nat, i: nat)
    requires facts != [] && facts[|facts| - 1].id != Exact(id)
    ensures IsNamedBy(facts[..|facts| - 1], id, i) ==> IsNamedBy(facts, id, i)
    ensures NamesNone(facts[..|facts| - 1], id) ==> NamesNone(facts, id)
  {
    assert forall j :: 0 <= j < |facts| - 1 ==> facts[..|facts| - 1][j] == facts[j];
  }

  lemma {:induction false} ByIdIsLast(facts: seq<Fact>, id: nat) returns (i: nat)
    ensures if id in ById(facts) then IsNamedBy(facts, id, i) && ById(facts)[id] == facts[i] else NamesNone(facts, id)
  {
    i := 0;
    if facts != [] {
      var n := |facts| - 1;
      if facts[n].id == Exact(id) {
        i := n;
      } else {
        i := ByIdIsLast(facts[..n], id);
        ByIdBefore(facts, id);
        NamedBefore(facts, id, i);
      }
    }
  }

  lemma ByIdBefore(facts: seq<Fact>, id: nat)
    requires facts != [] && facts[|facts| - 1].id != Exact(id)
    ensures var before := ById(facts[..|facts| - 1]);
            (id in ById(facts) <==> id in before) && (id in before ==> ById(facts)[id] == before[id])
  {
  }

  /** An id of a marker, if it names a fact. */
  function IfNames(facts: seq<Fact>): nat -> Option<nat> {
    (id: nat) => if NamesNone(facts, id) then None else Some(id)
  }

  lemma NamesMeansKnown(facts: seq<Fact>, id: nat)
    ensures id in ById(facts) <==> !NamesNone(facts, id)
  {
    var i := ByIdIsLast(facts, id);
  }

  lemma {:induction false} NamingPicked(facts: seq<Fact>, ids: seq<nat>)
    ensures Picked(ids, IfNames(facts), Naming(ids, ById(facts).Keys, true))
  {
    if ids == [] {
      PickedNone(IfNames(facts));
    } else {
      NamingPicked(facts, ids[..|ids| - 1]);
      PickedLast(ids, IfNames(facts), Naming(ids[..|ids| - 1], ById(facts).Keys, true));
      NamesMeansKnown(facts, ids[|ids| - 1]);
    }
  }

  /** Each number is of a note that is the last fact with the id it stands for. */
  ghost predicate LeadTo(numbers: seq<nat>, named: seq<nat>, cited: seq<Fact>, facts: seq<Fact>) {
    && |numbers| == |named|
    && forall j :: 0 <= j < |named| ==>
         1 <= numbers[j] <= |cited| && exists i: nat :: IsNamedBy(facts, named[j], i) && cited[numbers[j] - 1] == facts[i]
  }

  /** The ids of a marker that name a fact, one number for each, in order. */
  ghost predicate PrintsAs(ids: seq<nat>, numbers: seq<nat>, cited: seq<Fact>, facts: seq<Fact>) {
    exists named: seq<nat> :: Picked(ids, IfNames(facts), named) && LeadTo(numbers, named, cited, facts)
  }

  /** Text is printed as it is; and a marker as a number for each of its ids that names a fact,
      in order, where a note of that number is the last fact with that id. */
  lemma PrintedExactly(answer: seq<Token>, facts: seq<Fact>, i: nat)
    requires i < |answer|
    ensures var r := Spec(answer, facts);
            && |r.prose| == |answer|
            && match answer[i]
               case Text(text) => r.prose[i] == Plain(text)
               case Marker(ids) => r.prose[i].Notes? && PrintsAs(ids, r.prose[i].numbers, r.cited, facts)
  {
    var r := Spec(answer, facts);
    if answer[i].Marker? {
      var named := Naming(answer[i].ids, ById(facts).Keys, true);
      NamingPicked(facts, answer[i].ids);
      NotesAreFaithful(answer, facts, i);
      StandForLeads(r.prose[i].numbers, r.cited, named, facts);
    }
  }

  lemma StandForLeads(numbers: seq<nat>, cited: seq<Fact>, named: seq<nat>, facts: seq<Fact>)
    requires StandFor(numbers, cited, named, ById(facts))
    ensures LeadTo(numbers, named, cited, facts)
  {
    forall j | 0 <= j < |named|
      ensures 1 <= numbers[j] <= |cited| && exists i: nat :: IsNamedBy(facts, named[j], i) && cited[numbers[j] - 1] == facts[i]
    {
      assert named[j] in ById(facts);
      var i := ByIdIsLast(facts, named[j]);
      assert IsNamedBy(facts, named[j], i) && cited[numbers[j] - 1] == facts[i];
    }
  }
}
