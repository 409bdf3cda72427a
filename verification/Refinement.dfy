/**
 The refinement graph at build time: `_refinement_cycles`, which finds its cycles, and
 `reachable`, which collects what a symptom's candidates lead to.
 */
module Refinement {
  import opened Base
  import opened Knowledge

  type Subs = map<Id, seq<Id>>

  /** `b` refines `a`. */
  predicate Refines(subs: Subs, a: Id, b: Id) {
    a in subs && b in subs[a]
  }

  /** Claims from one to the next along refinement. */
  ghost predicate IsTrail(subs: Subs, path: seq<Id>) {
    forall i :: 0 <= i < |path| - 1 ==> Refines(subs, path[i], path[i + 1])
  }

  ghost predicate IsCycle(subs: Subs, path: seq<Id>) {
    |path| > 1 && path[0] == path[|path| - 1] && IsTrail(subs, path) && path[0] in subs
  }

  /** A number for every claim, lower for each sub-cause than for the claim it refines. */
  ghost predicate IsRank(subs: Subs, rank: map<Id, nat>) {
    && subs.Keys <= rank.Keys
    && forall a, b :: Refines(subs, a, b) && b in subs ==> rank[b] < rank[a]
  }

  lemma {:induction false} RankFalls(subs: Subs, rank: map<Id, nat>, path: seq<Id>)
    requires IsRank(subs, rank) && IsTrail(subs, path) && |path| > 1 && path[|path| - 1] in subs
    ensures path[0] in subs && rank[path[|path| - 1]] < rank[path[0]]
  {
    var n := |path| - 1;
    assert Refines(subs, path[n - 1], path[n]);
    if n > 1 {
      RankFalls(subs, rank, path[..n]);
    }
  }

  lemma RankedHasNoCycle(subs: Subs, rank: map<Id, nat>, path: seq<Id>)
    requires IsRank(subs, rank)
    ensures !IsCycle(subs, path)
  {
    if IsCycle(subs, path) {
      RankFalls(subs, rank, path);
      assert false;
    }
  }

  /** A finishing order: every sub-cause that is a claim comes before the claim. */
  ghost predicate IsOrder(subs: Subs, order: seq<Id>) {
    && NoDup(order)
    && (forall i :: 0 <= i < |order| ==> order[i] in subs)
    && (forall i, b :: 0 <= i < |order| && Refines(subs, order[i], b) && b in subs ==> b in order[..i])
  }

  lemma {:induction false} OrderGivesRank(subs: Subs, order: seq<Id>) returns (rank: map<Id, nat>)
    requires IsOrder(subs, order)
    ensures rank.Keys == Elements(order)
    ensures forall c :: c in rank ==> rank[c] < |order| && order[rank[c]] == c
  {
    if order == [] {
      rank := map[];
    } else {
      var n := |order| - 1;
      assert IsOrder(subs, order[..n]) by {
        forall i, b | 0 <= i < n && Refines(subs, order[i], b) && b in subs
          ensures b in order[..n][..i]
        {
          assert order[..n][..i] == order[..i];
        }
      }
      rank := OrderGivesRank(subs, order[..n]);
      rank := rank[order[n] := n];
      assert Elements(order) == Elements(order[..n]) + {order[n]};
    }
  }

  lemma FullOrderRanks(subs: Subs, order: seq<Id>) returns (rank: map<Id, nat>)
    requires IsOrder(subs, order) && subs.Keys <= Elements(order)
    ensures IsRank(subs, rank)
  {
    rank := OrderGivesRank(subs, order);
    forall a, b | Refines(subs, a, b) && b in subs
      ensures rank[b] < rank[a]
    {
      var i := rank[a];
      assert b in order[..i];
      var j :| 0 <= j < i && order[j] == b;
      var k := rank[b];
      assert order[k] == order[j];
    }
  }

  lemma FinishesInOrder(subs: Subs, order: seq<Id>, name: Id)
    requires IsOrder(subs, order) && name in subs && name !in Elements(order)
    requires forall b :: b in subs[name] && b in subs ==> b in Elements(order)
    ensures IsOrder(subs, order + [name]) && Elements(order + [name]) == Elements(order) + {name}
  {
    var longer := order + [name];
    assert name !in order by {
      assert name in order ==> name in Elements(order);
    }
    forall i, b | 0 <= i < |longer| && Refines(subs, longer[i], b) && b in subs
      ensures b in longer[..i]
    {
      if i < |order| {
        assert longer[..i] == order[..i];
      } else {
        assert b in Elements(order);
        assert longer[..i] == order;
      }
    }
  }

  lemma TrailLonger(subs: Subs, path: seq<Id>, sub: Id)
    requires path != [] && IsTrail(subs, path) && Refines(subs, path[|path| - 1], sub)
    ensures IsTrail(subs, path + [sub])
  {
  }

  /** A trail that comes back to a claim it has been through holds a cycle. */
  lemma CycleFound(subs: Subs, path: seq<Id>, name: Id, at: nat)
    requires at < |path| && path[at] == name && name in subs && IsTrail(subs, path + [name])
    ensures IsCycle(subs, path[at..] + [name])
  {
    var cycle := path[at..] + [name];
    forall i | 0 <= i < |cycle| - 1
      ensures Refines(subs, cycle[i], cycle[i + 1])
    {
      assert Refines(subs, (path + [name])[at + i], (path + [name])[at + i + 1]);
    }
  }

  /** Without cycles, going down from any claim not yet in order leads to one whose
      sub-causes all are. */
  lemma {:induction false} NextInOrder(subs: Subs, order: seq<Id>, name: Id, path: seq<Id>) returns (ready: Id)
    requires forall p :: !IsCycle(subs, p)
    requires IsTrail(subs, path + [name]) && forall i :: 0 <= i < |path| ==> path[i] in subs
    requires name in subs && name !in Elements(order)
    ensures ready in subs && ready !in Elements(order)
    ensures forall b :: b in subs[ready] && b in subs ==> b in Elements(order)
    decreases subs.Keys - Elements(path)
  {
    if b :| b in subs[name] && b in subs && b !in Elements(order) {
      if at :| 0 <= at < |path| && path[at] == name {
        CycleFound(subs, path, name, at);
        assert false;
      }
      var longer := path + [name];
      TrailLonger(subs, longer, b);
      assert longer[|path|] == name && forall i :: 0 <= i < |path| ==> longer[i] == path[i];
      assert Elements(longer) == Elements(path) + {name};
      ready := NextInOrder(subs, order, b, longer);
    } else {
      ready := name;
    }
  }

  lemma {:induction false} CompleteOrder(subs: Subs, order: seq<Id>) returns (full: seq<Id>)
    requires forall p :: !IsCycle(subs, p)
    requires IsOrder(subs, order)
    ensures IsOrder(subs, full) && subs.Keys <= Elements(full)
    decreases subs.Keys - Elements(order)
  {
    if name :| name in subs && name !in Elements(order) {
      assert [] + [name] == [name];
      var ready := NextInOrder(subs, order, name, []);
      FinishesInOrder(subs, order, ready);
      full := CompleteOrder(subs, order + [ready]);
    } else {
      full := order;
    }
  }

  /** The refinement graph can be ranked, each sub-cause below the claims it refines, exactly
      when it has no cycle. */
  lemma RankedExactly(subs: Subs)
    ensures (exists rank :: IsRank(subs, rank)) <==> (forall path :: !IsCycle(subs, path))
  {
    if forall path :: !IsCycle(subs, path) {
      var order := CompleteOrder(subs, []);
      var rank := FullOrderRanks(subs, order);
      assert IsRank(subs, rank);
    }
    if rank :| IsRank(subs, rank) {
      forall path
        ensures !IsCycle(subs, path)
      {
        RankedHasNoCycle(subs, rank, path);
      }
    }
  }

  /** Some problem ends in the step from `a` to `b`. */
  ghost predicate Closes(problems: seq<seq<Id>>, a: Id, b: Id) {
    exists i :: 0 <= i < |problems| && |problems[i]| > 1 && problems[i][|problems[i]| - 2] == a && problems[i][|problems[i]| - 1] == b
  }

  lemma ClosesMore(problems: seq<seq<Id>>, problems': seq<seq<Id>>, a: Id, b: Id)
    requires problems <= problems' && Closes(problems, a, b)
    ensures Closes(problems', a, b)
  {
    var i :| 0 <= i < |problems| && |problems[i]| > 1 && problems[i][|problems[i]| - 2] == a && problems[i][|problems[i]| - 1] == b;
    assert problems'[i] == problems[i];
  }

  /** A finishing order but for the steps some problem ends in. */
  ghost predicate IsOrderBut(subs: Subs, order: seq<Id>, problems: seq<seq<Id>>) {
    && NoDup(order)
    && (forall i :: 0 <= i < |order| ==> order[i] in subs)
    && (forall i, b :: 0 <= i < |order| && Refines(subs, order[i], b) && b in subs ==>
          b in order[..i] || Closes(problems, order[i], b))
  }

  lemma OrderButMore(subs: Subs, order: seq<Id>, problems: seq<seq<Id>>, problems': seq<seq<Id>>)
    requires IsOrderBut(subs, order, problems) && problems <= problems'
    ensures IsOrderBut(subs, order, problems')
  {
    forall i, b | 0 <= i < |order| && Refines(subs, order[i], b) && b in subs
      ensures b in order[..i] || Closes(problems', order[i], b)
    {
      if Closes(problems, order[i], b) {
        ClosesMore(problems, problems', order[i], b);
      }
    }
  }

  lemma FinishesBut(subs: Subs, order: seq<Id>, problems: seq<seq<Id>>, name: Id)
    requires IsOrderBut(subs, order, problems) && name in subs && name !in Elements(order)
    requires forall b :: b in subs[name] && b in subs ==> b in Elements(order) || Closes(problems, name, b)
    ensures IsOrderBut(subs, order + [name], problems) && Elements(order + [name]) == Elements(order) + {name}
  {
    var longer := order + [name];
    forall i, b | 0 <= i < |longer| && Refines(subs, longer[i], b) && b in subs
      ensures b in longer[..i] || Closes(problems, longer[i], b)
    {
      assert i < |order| ==> longer[..i] == order[..i] && longer[i] == order[i];
      assert longer[..|order|] == order;
    }
    forall i | 0 <= i < |order|
      ensures order[i] != name
    {
      assert order[i] in order;
    }
  }

  /** One of the cycle's steps is one some problem ends in. */
  ghost predicate IsCut(problems: seq<seq<Id>>, path: seq<Id>) {
    exists i :: 0 <= i < |path| - 1 && Closes(problems, path[i], path[i + 1])
  }

  /** Where a trail without such a step goes, it goes to earlier places of the order. */
  lemma {:induction false} TrailGoesBack(subs: Subs, order: seq<Id>, problems: seq<seq<Id>>, path: seq<Id>, j: nat) returns (i: nat)
    requires IsOrderBut(subs, order, problems) && subs.Keys <= Elements(order)
    requires IsTrail(subs, path) && path != [] && path[|path| - 1] in subs && !IsCut(problems, path)
    requires j < |order| && order[j] == path[0]
    ensures i <= j && i < |order| && order[i] == path[|path| - 1] && (|path| > 1 ==> i < j)
  {
    if |path| == 1 {
      i := j;
    } else {
      assert Refines(subs, path[0], path[0 + 1]) && !Closes(problems, path[0], path[0 + 1]);
      var rest := path[1..];
      TrailRest(subs, problems, path);
      assert |rest| > 1 ==> Refines(subs, rest[0], rest[0 + 1]);
      assert path[1] in order[..j];
      var k :| 0 <= k < j && order[k] == path[1];
      i := TrailGoesBack(subs, order, problems, rest, k);
    }
  }

  lemma TrailRest(subs: Subs, problems: seq<seq<Id>>, path: seq<Id>)
    requires |path| > 1 && IsTrail(subs, path)
    ensures IsTrail(subs, path[1..]) && (IsCut(problems, path[1..]) ==> IsCut(problems, path))
  {
    var rest := path[1..];
    forall i | 0 <= i < |rest| - 1
      ensures Refines(subs, rest[i], rest[i + 1])
    {
      assert Refines(subs, path[i + 1], path[i + 1 + 1]);
    }
    if i :| 0 <= i < |rest| - 1 && Closes(problems, rest[i], rest[i + 1]) {
      assert Closes(problems, path[i + 1], path[i + 1 + 1]);
    }
  }

  /** Once every claim is in order, every cycle has such a step. */
  lemma EveryCycleIsCut(subs: Subs, order: seq<Id>, problems: seq<seq<Id>>, path: seq<Id>)
    requires IsOrderBut(subs, order, problems) && subs.Keys <= Elements(order) && IsCycle(subs, path)
    ensures IsCut(problems, path)
  {
    if !IsCut(problems, path) {
      assert path[0] in Elements(order);
      var j :| 0 <= j < |order| && order[j] == path[0];
      var i := TrailGoesBack(subs, order, problems, path, j);
      assert false;
    }
  }

  /** A cycle that comes back to its first claim, and to no other. */
  ghost predicate IsSimpleCycle(subs: Subs, path: seq<Id>) {
    IsCycle(subs, path) && NoDup(path[..|path| - 1])
  }

  lemma SimpleCycleFound(subs: Subs, path: seq<Id>, name: Id, at: nat)
    requires at < |path| && path[at] == name && name in subs && IsTrail(subs, path + [name]) && NoDup(path)
    ensures IsSimpleCycle(subs, path[at..] + [name])
  {
    CycleFound(subs, path, name, at);
    var cycle := path[at..] + [name];
    assert cycle[..|cycle| - 1] == path[at..];
  }

  /** `_refinement_cycles` as it runs: a depth-first visit that carries the path it is on. */
  class CycleFinder {
    const subs: Subs
    var problems: seq<seq<Id>>
    var done: set<Id>
    ghost var order: seq<Id>

    ghost predicate Valid()
      reads this
    {
      && (forall i :: 0 <= i < |problems| ==> IsSimpleCycle(subs, problems[i]))
      && done <= subs.Keys
      && IsOrderBut(subs, order, problems) && Elements(order) == done
    }

    constructor (subs: Subs)
      ensures this.subs == subs && problems == [] && done == {} && Valid()
    {
      this.subs := subs;
      problems, done, order := [], {}, [];
    }

    /** The visit came from the path's last claim. */
    method Visit(name: Id, path: seq<Id>)
      requires Valid() && NoDup(path) && IsTrail(subs, path + [name])
      requires forall i :: 0 <= i < |path| ==> path[i] in subs && path[i] !in done
      modifies this
      ensures Valid() && old(done) <= done && old(problems) <= problems
      ensures forall i :: 0 <= i < |path| ==> path[i] !in done
      ensures name in subs ==> name in done || (path != [] && Closes(problems, path[|path| - 1], name))
      decreases subs.Keys - Elements(path)
    {
      var at := IndexIn(path, name);
      if at.Some? {
        Report(path, name, at.value);
        return;
      }
      if name in done || name !in subs {
        return;
      }
      VisitSubs(name, path);
      FinishesBut(subs, order, problems, name);
      done := done + {name};
      order := order + [name];
    }

    /** A cycle found: the part of the path from the claim on, and the claim again. */
    method Report(path: seq<Id>, name: Id, at: nat)
      requires Valid() && NoDup(path) && IsTrail(subs, path + [name])
      requires at < |path| && path[at] == name && name in subs
      modifies this`problems
      ensures Valid() && problems == old(problems) + [path[at..] + [name]]
      ensures Closes(problems, path[|path| - 1], name)
    {
      var cycle := path[at..] + [name];
      SimpleCycleFound(subs, path, name, at);
      OrderButMore(subs, order, problems, problems + [cycle]);
      problems := problems + [cycle];
      assert problems[|problems| - 1] == cycle;
    }

    /** The loop over a claim's sub-causes. */
    method VisitSubs(name: Id, path: seq<Id>)
      requires Valid() && NoDup(path) && IsTrail(subs, path + [name])
      requires forall i :: 0 <= i < |path| ==> path[i] in subs && path[i] !in done
      requires name in subs && name !in done && name !in path
      modifies this
      ensures Valid() && old(done) <= done && old(problems) <= problems
      ensures name !in done && forall i :: 0 <= i < |path| ==> path[i] !in done
      ensures forall b :: b in subs[name] && b in subs ==> b in done || Closes(problems, name, b)
      decreases subs.Keys - Elements(path), 0
    {
      var longer := path + [name];
      assert name in Elements(longer) && Elements(path) <= Elements(longer);
      for k := 0 to |subs[name]|
        invariant Valid() && old(done) <= done && old(problems) <= problems
        invariant forall i :: 0 <= i < |longer| ==> longer[i] !in done
        invariant forall j :: 0 <= j < k && subs[name][j] in subs ==> subs[name][j] in done || Closes(problems, name, subs[name][j])
      {
        var sub := subs[name][k];
        ghost var before := problems;
        TrailLonger(subs, longer, sub);
        Visit(sub, longer);
        AllClosed(subs[name][..k], before, problems, done, name);
      }
      assert longer[|path|] == name;
      assert forall i :: 0 <= i < |path| ==> longer[i] == path[i];
    }
  }

  lemma AllClosed(names: seq<Id>, before: seq<seq<Id>>, problems: seq<seq<Id>>, done: set<Id>, name: Id)
    requires before <= problems
    ensures forall j :: 0 <= j < |names| && Closes(before, name, names[j]) ==> Closes(problems, name, names[j])
  {
    forall j | 0 <= j < |names| && Closes(before, name, names[j])
      ensures Closes(problems, name, names[j])
    {
      ClosesMore(before, problems, name, names[j]);
    }
  }

  /** `path.index(name)`, if it is there. */
  function IndexIn(path: seq<Id>, name: Id): (i: Option<nat>)
    ensures i.Some? ==> i.value < |path| && path[i.value] == name
    ensures i.Some? ==> forall k :: 0 <= k < i.value ==> path[k] != name
    ensures i.None? ==> name !in path
  {
    if path == [] then None
    else
      var last := |path| - 1;
      var i := IndexIn(path[..last], name);
      assert path == path[..last] + [path[last]];
      if i.Some? then i else if path[last] == name then Some(last) else None
  }

  /** Each problem reported is a cycle, through no claim twice; and the steps they end in leave no
      cycle uncut. So problems are reported exactly when the refinement graph has a cycle. */
  method RefinementCycles(subs: Subs) returns (problems: seq<seq<Id>>)
    ensures forall i :: 0 <= i < |problems| ==> IsSimpleCycle(subs, problems[i])
    ensures forall path :: IsCycle(subs, path) ==> IsCut(problems, path)
    ensures problems == [] <==> forall path :: !IsCycle(subs, path)
  {
    var finder := new CycleFinder(subs);
    var todo := subs.Keys;
    while todo != {}
      invariant finder.subs == subs && finder.Valid() && todo <= subs.Keys
      invariant subs.Keys - todo <= finder.done
      decreases todo
    {
      var name :| name in todo;
      finder.Visit(name, []);
      todo := todo - {name};
    }
    problems := finder.problems;
    forall path | IsCycle(subs, path)
      ensures IsCut(problems, path)
    {
      EveryCycleIsCut(subs, finder.order, problems, path);
    }
    if problems != [] {
      assert IsSimpleCycle(subs, problems[0]) && IsCycle(subs, problems[0]);
    }
  }

  // ------------------------------------------------------------------------- reachability

  /** Closed under refinement, as far as the claims are defined. */
  ghost predicate IsClosed(subs: Subs, s: set<Id>) {
    forall a, b :: a in s && Refines(subs, a, b) && b in subs ==> b in s
  }

  /** Every candidate that is a claim is in the set. */
  ghost predicate Covers(subs: Subs, cands: seq<Id>, s: set<Id>) {
    forall c :: c in cands && c in subs ==> c in s
  }

  /** `reachable`: the least set of claims that has the candidates and is closed under
      refinement. */
  method Reachable(subs: Subs, cands: seq<Id>) returns (out: set<Id>)
    ensures out <= subs.Keys && IsClosed(subs, out)
    ensures Covers(subs, cands, out)
    ensures forall s :: IsClosed(subs, s) && Covers(subs, cands, s) ==> out <= s
  {
    out := {};
    var todo := cands;
    while todo != []
      invariant out <= subs.Keys
      invariant forall c :: c in cands && c in subs ==> c in out || c in todo
      invariant forall a, b :: a in out && Refines(subs, a, b) && b in subs ==> b in out || b in todo
      invariant forall s :: IsClosed(subs, s) && Covers(subs, cands, s) ==> out <= s && Covers(subs, todo, s)
      decreases subs.Keys - out, |todo|
    {
      var c := todo[|todo| - 1];
      ghost var before := todo;
      todo := todo[..|todo| - 1];
      assert before == todo + [c];
      if c !in out && c in subs {
        out := out + {c};
        assert forall b :: b in subs[c] ==> Refines(subs, c, b);
        todo := todo + subs[c];
      }
    }
  }
}
