/**
 What the fact lines leave in the store, line by line, and where: each ground fact once, in the
 place of the first line accepted that states it. And where one store laid over another puts
 what it adds.
 */
module StoreRules {
  import opened Base
  import opened Knowledge
  import opened Search
  import opened Picks
  import opened FactLines

  /** Line `n` was not refused. */
  ghost predicate IsAccepted(facts: map<Id, Fact>, lines: seq<Line>, derived: bool, n: nat) {
    n < |lines| && n !in Parse(facts, lines, derived).refused
  }

  ghost predicate StatesSame(facts: map<Id, Fact>, lines: seq<Line>, derived: bool, m: nat, n: nat)
    requires m < |lines| && n < |lines|
  {
    var a, b := Recordable(facts, lines[m], derived), Recordable(facts, lines[n], derived);
    a.Some? && b.Some? && a.value.fact == b.value.fact && a.value.args == b.value.args
  }

  /** It is the first line accepted that states its ground fact. */
  ghost predicate IsFirst(facts: map<Id, Fact>, lines: seq<Line>, derived: bool, n: nat) {
    && IsAccepted(facts, lines, derived, n)
    && forall m: nat :: m < n && IsAccepted(facts, lines, derived, m) ==> !StatesSame(facts, lines, derived, m, n)
  }

  /** The entries are those of the first lines, in the order of the lines. */
  ghost predicate StoreAt(facts: map<Id, Fact>, lines: seq<Line>, derived: bool, store: Store, at: seq<nat>) {
    && Rising(at) && |at| == |store|
    && (forall j :: 0 <= j < |at| ==>
          IsFirst(facts, lines, derived, at[j]) && Recordable(facts, lines[at[j]], derived) == Some(store[j]))
    && (forall n: nat :: IsFirst(facts, lines, derived, n) ==> n in at)
  }

  lemma AcceptedBefore(facts: map<Id, Fact>, front: seq<Line>, line: Line, derived: bool, n: nat)
    requires n < |front|
    ensures IsAccepted(facts, front + [line], derived, n) <==> IsAccepted(facts, front, derived, n)
  {
    assert (front + [line])[..n] == front[..n];
    RefusedExactly(facts, front + [line], derived, n);
    RefusedExactly(facts, front, derived, n);
  }

  lemma FirstBefore(facts: map<Id, Fact>, front: seq<Line>, line: Line, derived: bool, n: nat)
    requires n < |front|
    ensures IsFirst(facts, front + [line], derived, n) <==> IsFirst(facts, front, derived, n)
  {
    forall m: nat | m <= n
      ensures IsAccepted(facts, front + [line], derived, m) <==> IsAccepted(facts, front, derived, m)
      ensures StatesSame(facts, front + [line], derived, m, n) <==> StatesSame(facts, front, derived, m, n)
    {
      AcceptedBefore(facts, front, line, derived, m);
    }
  }

  /** What an accepted line stated is in the store. */
  lemma AcceptedIsHeld(facts: map<Id, Fact>, lines: seq<Line>, derived: bool, m: nat)
    requires IsAccepted(facts, lines, derived, m)
    ensures Recordable(facts, lines[m], derived).Some?
    ensures Recordable(facts, lines[m], derived).value in Parse(facts, lines, derived).store
  {
    RefusedExactly(facts, lines, derived, m);
    var e := Recordable(facts, lines[m], derived).value;
    RecordedStays(facts, lines, derived, m, |lines|, e);
    assert lines[..|lines|] == lines;
    var before := Parse(facts, lines[..m + 1], derived).store;
    var i :| 0 <= i < |before| && before[i] == e;
    assert before[i] in Parse(facts, lines, derived).store;
  }

  lemma FirstIsNew(facts: map<Id, Fact>, front: seq<Line>, line: Line, derived: bool, at: seq<nat>)
    requires StoreAt(facts, front, derived, Parse(facts, front, derived).store, at)
    requires var e := Recordable(facts, line, derived);
             e.Some? && !Contradicts(Parse(facts, front, derived).store, e.value)
    ensures var e := Recordable(facts, line, derived).value;
            IsFirst(facts, front + [line], derived, |front|) <==> Find(Parse(facts, front, derived).store, e.fact, e.args).None?
  {
    var lines, n, store := front + [line], |front|, Parse(facts, front, derived).store;
    var e := Recordable(facts, line, derived).value;
    assert lines[..n] == front && lines[n] == line;
    RefusedExactly(facts, lines, derived, n);
    var k := Find(store, e.fact, e.args);
    if k.Some? {
      var m := at[k.value];
      AcceptedBefore(facts, front, line, derived, m);
      assert lines[m] == front[m] && StatesSame(facts, lines, derived, m, n);
    } else {
      forall m: nat | m < n && IsAccepted(facts, lines, derived, m)
        ensures !StatesSame(facts, lines, derived, m, n)
      {
        AcceptedBefore(facts, front, line, derived, m);
        AcceptedIsHeld(facts, front, derived, m);
        assert lines[m] == front[m];
        NotFound(store, Recordable(facts, front[m], derived).value, e);
      }
    }
  }

  lemma NotFound(store: Store, x: Entry, e: Entry)
    requires x in store && Find(store, e.fact, e.args).None?
    ensures !(x.fact == e.fact && x.args == e.args)
  {
    var i :| 0 <= i < |store| && store[i] == x;
    assert !IsKey(store[i], e.fact, e.args);
  }

  lemma PutSame(store: Store, e: Entry)
    requires IsStore(store) && !Contradicts(store, e)
    ensures Put(store, e) == if Find(store, e.fact, e.args).Some? then store else store + [e]
  {
  }

  lemma KeepsAt(facts: map<Id, Fact>, front: seq<Line>, line: Line, derived: bool, store: Store, at: seq<nat>)
    requires StoreAt(facts, front, derived, store, at) && !IsFirst(facts, front + [line], derived, |front|)
    ensures StoreAt(facts, front + [line], derived, store, at)
  {
    forall n: nat | n < |front|
      ensures IsFirst(facts, front + [line], derived, n) <==> IsFirst(facts, front, derived, n)
    {
      FirstBefore(facts, front, line, derived, n);
    }
    assert forall n: nat :: n < |front| ==> (front + [line])[n] == front[n];
  }

  lemma AddsAt(facts: map<Id, Fact>, front: seq<Line>, line: Line, derived: bool, store: Store, at: seq<nat>, e: Entry)
    requires StoreAt(facts, front, derived, store, at) && IsFirst(facts, front + [line], derived, |front|)
    requires Recordable(facts, line, derived) == Some(e)
    ensures StoreAt(facts, front + [line], derived, store + [e], at + [|front|])
  {
    var more: seq<nat> := at + [|front|];
    forall n: nat | n < |front|
      ensures IsFirst(facts, front + [line], derived, n) <==> IsFirst(facts, front, derived, n)
      ensures (front + [line])[n] == front[n]
    {
      FirstBefore(facts, front, line, derived, n);
    }
    assert more[|at|] == |front|;
    forall n: nat | IsFirst(facts, front + [line], derived, n)
      ensures n in more
    {
      if n < |front| {
        var j :| 0 <= j < |at| && at[j] == n;
        assert more[j] == n;
      }
    }
  }

  /** The store the lines leave has an entry for each line that is the first accepted to state its
      ground fact, with the truth that line gave it, in the order of those lines. */
  lemma {:induction false} StoreExactly(facts: map<Id, Fact>, lines: seq<Line>, derived: bool) returns (at: seq<nat>)
    ensures StoreAt(facts, lines, derived, Parse(facts, lines, derived).store, at)
  {
    if lines == [] {
      at := [];
    } else {
      var front, n := lines[..|lines| - 1], |lines| - 1;
      at := StoreExactly(facts, front, derived);
      FrontAndLast(lines);
      at := StoreMore(facts, front, lines[n], derived, at);
    }
  }

  lemma ParseSnoc(facts: map<Id, Fact>, front: seq<Line>, line: Line, derived: bool)
    ensures var e, store := Recordable(facts, line, derived), Parse(facts, front, derived).store;
            Parse(facts, front + [line], derived).store
            == if e.None? || Contradicts(store, e.value) || Find(store, e.value.fact, e.value.args).Some? then store
               else store + [e.value]
    ensures var e, store := Recordable(facts, line, derived), Parse(facts, front, derived).store;
            IsAccepted(facts, front + [line], derived, |front|) <==> e.Some? && !Contradicts(store, e.value)
  {
    var lines, e := front + [line], Recordable(facts, line, derived);
    assert lines[..|front|] == front && lines[|front|] == line;
    RefusedExactly(facts, lines, derived, |front|);
    if e.Some? && !Contradicts(Parse(facts, front, derived).store, e.value) {
      PutSame(Parse(facts, front, derived).store, e.value);
    }
  }

  lemma {:induction false} StoreMore(facts: map<Id, Fact>, front: seq<Line>, line: Line, derived: bool, at: seq<nat>) returns (at': seq<nat>)
    requires StoreAt(facts, front, derived, Parse(facts, front, derived).store, at)
    ensures StoreAt(facts, front + [line], derived, Parse(facts, front + [line], derived).store, at')
  {
    var store, e := Parse(facts, front, derived).store, Recordable(facts, line, derived);
    ParseSnoc(facts, front, line, derived);
    if e.Some? && !Contradicts(store, e.value) {
      FirstIsNew(facts, front, line, derived, at);
    }
    if IsFirst(facts, front + [line], derived, |front|) {
      AddsAt(facts, front, line, derived, store, at, e.value);
      at' := at + [|front|];
    } else {
      KeepsAt(facts, front, line, derived, store, at);
      at' := at;
    }
  }

  /** The lines refused are numbered in their order, each once. */
  lemma {:induction false} RefusedRise(facts: map<Id, Fact>, lines: seq<Line>, derived: bool)
    ensures Rising(Parse(facts, lines, derived).refused)
  {
    if lines != [] {
      var front := lines[..|lines| - 1];
      RefusedRise(facts, front, derived);
      RefusedInRange(facts, front, derived);
      var refused := Parse(facts, front, derived).refused;
      assert forall i :: 0 <= i < |refused| ==> refused[i] in refused;
    }
  }

  // ---------------------------------------------------------------- one store over another

  /** Each ground fact keeps its place. */
  ghost predicate KeepsPlaces(r: Store, store: Store) {
    |store| <= |r| && forall i :: 0 <= i < |store| ==> r[i].fact == store[i].fact && r[i].args == store[i].args
  }

  lemma PutKeepsPlaces(store: Store, e: Entry)
    requires IsStore(store)
    ensures KeepsPlaces(Put(store, e), store)
  {
  }

  lemma KeepsTransitive(a: Store, b: Store, c: Store)
    requires KeepsPlaces(a, b) && KeepsPlaces(b, c)
    ensures KeepsPlaces(a, c)
  {
  }

  /** What is there keeps its place, and what is not comes after it, in the order it is added. */
  lemma {:induction false} UpdatedKeepsPlaces(store: Store, more: Store, n: nat)
    requires IsStore(store) && n <= |more|
    ensures KeepsPlaces(Updated(store, more), Updated(store, more[..n]))
    ensures n == 0 ==> Updated(store, more[..n]) == store
  {
    if n < |more| {
      var front := more[..|more| - 1];
      assert front[..n] == more[..n];
      UpdatedKeepsPlaces(store, front, n);
      PutKeepsPlaces(Updated(store, front), more[|more| - 1]);
      KeepsTransitive(Updated(store, more), Updated(store, front), Updated(store, more[..n]));
    } else {
      assert more[..n] == more;
    }
  }
}
