/** What is taken from a sequence, in its order: a shape many small loops share. */
module Picks {
  import opened Base

  ghost predicate Rising(at: seq<nat>) {
    forall i, j :: 0 <= i < j < |at| ==> at[i] < at[j]
  }

  /** Each `ys[j]` is what `f` makes of the element at `at[j]`. */
  ghost predicate TakenFrom<A, B>(xs: seq<A>, f: A -> Option<B>, ys: seq<B>, at: seq<nat>) {
    |at| == |ys| && forall j :: 0 <= j < |at| ==> at[j] < |xs| && f(xs[at[j]]) == Some(ys[j])
  }

  ghost predicate LeavesNone<A, B>(xs: seq<A>, f: A -> Option<B>, at: seq<nat>) {
    forall k: nat :: k < |xs| && f(xs[k]).Some? ==> k in at
  }

  ghost predicate PickedAt<A, B>(xs: seq<A>, f: A -> Option<B>, ys: seq<B>, at: seq<nat>) {
    Rising(at) && TakenFrom(xs, f, ys, at) && LeavesNone(xs, f, at)
  }

  /** `ys` is what `f` makes of the `xs` it takes: all of those, each once, in their order. */
  ghost predicate Picked<A, B>(xs: seq<A>, f: A -> Option<B>, ys: seq<B>) {
    exists at: seq<nat> :: PickedAt(xs, f, ys, at)
  }

  lemma PickedNone<A, B>(f: A -> Option<B>)
    ensures Picked([], f, [])
  {
    var at: seq<nat> := [];
    assert PickedAt([], f, [], at);
  }

  lemma PickedSnoc<A, B>(xs: seq<A>, x: A, f: A -> Option<B>, ys: seq<B>)
    requires Picked(xs, f, ys)
    ensures Picked(xs + [x], f, ys + if f(x).Some? then [f(x).value] else [])
  {
    var at: seq<nat> :| PickedAt(xs, f, ys, at);
    if f(x).Some? {
      TakesOne(xs, x, f, ys, at);
    } else {
      assert ys + [] == ys;
      assert PickedAt(xs + [x], f, ys, at);
    }
  }

  lemma TakesOne<A, B>(xs: seq<A>, x: A, f: A -> Option<B>, ys: seq<B>, at: seq<nat>)
    requires PickedAt(xs, f, ys, at) && f(x).Some?
    ensures PickedAt(xs + [x], f, ys + [f(x).value], at + [|xs|])
  {
    var more: seq<nat> := at + [|xs|];
    assert more[|at|] == |xs|;
    forall k: nat | k < |xs + [x]| && f((xs + [x])[k]).Some?
      ensures k in more
    {
      if k < |xs| {
        assert k in at;
        var j :| 0 <= j < |at| && at[j] == k;
        assert more[j] == k;
      }
    }
  }

  /** The last of them is added to what the rest gives. */
  lemma PickedLast<A, B>(xs: seq<A>, f: A -> Option<B>, ys: seq<B>)
    requires xs != [] && Picked(xs[..|xs| - 1], f, ys)
    ensures Picked(xs, f, ys + if f(xs[|xs| - 1]).Some? then [f(xs[|xs| - 1]).value] else [])
  {
    PickedSnoc(xs[..|xs| - 1], xs[|xs| - 1], f, ys);
    FrontAndLast(xs);
  }

  lemma PickedMembers<A, B>(xs: seq<A>, f: A -> Option<B>, ys: seq<B>, y: B)
    requires Picked(xs, f, ys)
    ensures y in ys <==> exists k :: 0 <= k < |xs| && f(xs[k]) == Some(y)
  {
    var at: seq<nat> :| PickedAt(xs, f, ys, at);
    if k :| 0 <= k < |xs| && f(xs[k]) == Some(y) {
      var j :| 0 <= j < |at| && at[j] == k;
      assert ys[j] == y;
    }
    if y in ys {
      var j :| 0 <= j < |ys| && ys[j] == y;
      assert f(xs[at[j]]) == Some(y);
    }
  }

  /** It is the same for two that take the same of these, and make the same of them. */
  lemma PickedAlike<A, B>(xs: seq<A>, f: A -> Option<B>, f': A -> Option<B>, ys: seq<B>)
    requires Picked(xs, f, ys) && forall k :: 0 <= k < |xs| ==> f(xs[k]) == f'(xs[k])
    ensures Picked(xs, f', ys)
  {
    var at: seq<nat> :| PickedAt(xs, f, ys, at);
    assert PickedAt(xs, f', ys, at);
  }
}
