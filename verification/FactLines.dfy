/**
 Reading fact lines into a store (`parse_facts`), and laying one store over another as
 `open` does with the facts of several sources.
 */
module FactLines {
  import opened Base
  import opened Knowledge
  import opened Search
  import opened Stability

  /** One non-blank line: `fact[args]`, `not fact[args]`, or something else. */
  datatype Line = Stated(negated: bool, fact: Id, args: seq<string>) | Malformed

  const ROLE_NAMES: map<string, string> :=
    map["C" := "C", "Container" := "C", "W" := "W", "Workload" := "W", "P" := "P", "Pod" := "P",
        "N" := "N", "Node" := "N", "S" := "S", "Service" := "S"]

  const RESERVED: set<Id> := {ONSET_FACT, CHANGE_FACT}

  /** The arguments with each role's letter in its place, whatever was written there. */
  function WithRoles(params: seq<string>, args: seq<string>): (r: seq<string>)
    requires |params| == |args|
    ensures |r| == |args|
  {
    seq(|args|, i requires 0 <= i < |args| =>
      if params[i] in ROLE_NAMES then ROLE_NAMES[params[i]] else args[i])
  }

  predicate IsKey(e: Entry, fact: Id, args: seq<string>) {
    e.fact == fact && e.args == args
  }

  /** Where a store keeps a ground fact, if it does. */
  function Find(store: Store, fact: Id, args: seq<string>): (i: Option<nat>)
    ensures i.Some? ==> i.value < |store| && IsKey(store[i.value], fact, args)
    ensures i.None? ==> forall k :: 0 <= k < |store| ==> !IsKey(store[k], fact, args)
  {
    if store == [] then None
    else
      var last := |store| - 1;
      if IsKey(store[last], fact, args) then Some(last) else Find(store[..last], fact, args)
  }

  /** `store[key] = truth`: in place if the key is there, at the end if not. */
  function Put(store: Store, e: Entry): (r: Store)
    requires IsStore(store)
    ensures IsStore(r) && e in r
    ensures forall x :: x in r ==> x == e || x in store
    ensures forall x :: x in store && !IsKey(x, e.fact, e.args) ==> x in r
  {
    match Find(store, e.fact, e.args)
    case None =>
      var r := store + [e];
      assert r[|store|] == e;
      assert forall i :: 0 <= i < |store| ==> r[i] == store[i];
      r
    case Some(i) =>
      var r := store[i := e];
      assert r[i] == e;
      assert forall k :: 0 <= k < |store| && k != i ==> r[k] == store[k];
      r
  }

  /** The entry a line records, if the line is one that may be recorded at all. */
  function Recordable(facts: map<Id, Fact>, line: Line, derived: bool): (e: Option<Entry>)
    ensures e.Some? ==> Typed(facts, [e.value])
  {
    if line.Malformed? || line.fact !in facts || (line.fact in RESERVED && !derived)
       || |line.args| != |facts[line.fact].params| then None
    else Some(Entry(line.fact, WithRoles(facts[line.fact].params, line.args), !line.negated))
  }

  /** What is recorded where the parameter is a container, a workload, a pod, a node or a
      service, by either of its names: the letter, whatever was written. Elsewhere it is what
      was written. */
  predicate IsRecordedAs(param: string, written: string, recorded: string) {
    if param == "C" || param == "Container" then recorded == "C"
    else if param == "W" || param == "Workload" then recorded == "W"
    else if param == "P" || param == "Pod" then recorded == "P"
    else if param == "N" || param == "Node" then recorded == "N"
    else if param == "S" || param == "Service" then recorded == "S"
    else recorded == written
  }

  predicate IsRole(param: string) {
    param in {"C", "Container", "W", "Workload", "P", "Pod", "N", "Node", "S", "Service"}
  }

  /** A line may be recorded when it states a known fact with as many arguments as it takes,
      and a fact of timing only when it was derived; what is recorded is the fact, true unless
      denied, with its roles' letters. */
  lemma RecordableExactly(facts: map<Id, Fact>, line: Line, derived: bool)
    ensures var e := Recordable(facts, line, derived);
            && (e.Some? <==>
                  && line.Stated? && line.fact in facts && |line.args| == |facts[line.fact].params|
                  && (derived || (line.fact != "onset_observed" && line.fact != "changed_before_onset")))
            && (e.Some? ==>
                  && e.value.fact == line.fact && e.value.truth == !line.negated && |e.value.args| == |line.args|
                  && forall i :: 0 <= i < |line.args| ==>
                       IsRecordedAs(facts[line.fact].params[i], line.args[i], e.value.args[i]))
  {
    if Recordable(facts, line, derived).Some? {
      var params, args := facts[line.fact].params, WithRoles(facts[line.fact].params, line.args);
      forall i | 0 <= i < |args|
        ensures IsRecordedAs(params[i], line.args[i], args[i])
      {
        RoleLetter(params[i], line.args[i]);
      }
    }
  }

  lemma RoleLetter(param: string, written: string)
    ensures IsRecordedAs(param, written, if param in ROLE_NAMES then ROLE_NAMES[param] else written)
  {
  }

  /** Lines of one fact that differ only in what stands for a role record one ground fact. */
  lemma RolesMakeNoDifference(facts: map<Id, Fact>, a: Line, b: Line, derived: bool)
    requires Recordable(facts, a, derived).Some? && Recordable(facts, b, derived).Some? && a.fact == b.fact
    ensures (forall i :: 0 <= i < |a.args| ==> a.args[i] == b.args[i] || IsRole(facts[a.fact].params[i]))
            <==> Recordable(facts, a, derived).value.args == Recordable(facts, b, derived).value.args
  {
    RecordableExactly(facts, a, derived);
    RecordableExactly(facts, b, derived);
    var x, y := Recordable(facts, a, derived).value, Recordable(facts, b, derived).value;
    forall i | 0 <= i < |a.args|
      ensures x.args[i] == y.args[i] <==> a.args[i] == b.args[i] || IsRole(facts[a.fact].params[i])
    {
      assert IsRecordedAs(facts[a.fact].params[i], a.args[i], x.args[i]);
      assert IsRecordedAs(facts[a.fact].params[i], b.args[i], y.args[i]);
    }
  }

  predicate Contradicts(store: Store, e: Entry) {
    var i := Find(store, e.fact, e.args);
    i.Some? && store[i.value].truth != e.truth
  }

  datatype Parsed = Parsed(store: Store, refused: seq<nat>)

  /** The store and the refused line numbers, line by line. */
  function Parse(facts: map<Id, Fact>, lines: seq<Line>, derived: bool): (r: Parsed)
    ensures IsStore(r.store) && Typed(facts, r.store)
  {
    if lines == [] then Parsed([], [])
    else
      var n := |lines| - 1;
      var before := Parse(facts, lines[..n], derived);
      match Recordable(facts, lines[n], derived)
      case None => Parsed(before.store, before.refused + [n])
      case Some(e) =>
        if Contradicts(before.store, e) then Parsed(before.store, before.refused + [n])
        else
          assert Typed(facts, [e]) && [e][0] == e;
          PutTyped(facts, before.store, e);
          Parsed(Put(before.store, e), before.refused)
  }

  lemma PutTyped(facts: map<Id, Fact>, store: Store, e: Entry)
    requires IsStore(store) && Typed(facts, store) && Typed(facts, [e])
    ensures Typed(facts, Put(store, e))
  {
    assert [e][0] == e;
    forall i | 0 <= i < |Put(store, e)|
      ensures Typed(facts, [Put(store, e)[i]])
    {
      assert Put(store, e)[i] in Put(store, e);
    }
    assert forall i :: 0 <= i < |Put(store, e)| ==> [Put(store, e)[i]][0] == Put(store, e)[i];
  }

  method ParseFacts(facts: map<Id, Fact>, lines: seq<Line>, derived: bool) returns (store: Store, refused: seq<nat>)
    ensures Parsed(store, refused) == Parse(facts, lines, derived)
  {
    store, refused := [], [];
    for n := 0 to |lines|
      invariant IsStore(store)
      invariant Parsed(store, refused) == Parse(facts, lines[..n], derived)
    {
      assert lines[..n + 1][..n] == lines[..n];
      match Recordable(facts, lines[n], derived) {
        case None =>
          refused := refused + [n];
        case Some(e) =>
          if Contradicts(store, e) {
            refused := refused + [n];
          } else {
            store := Put(store, e);
          }
      }
    }
    assert lines[..|lines|] == lines;
  }

  lemma PutAgreeing(store: Store, e: Entry)
    requires IsStore(store) && !Contradicts(store, e)
    ensures Includes(Put(store, e), store)
  {
    forall i | 0 <= i < |store|
      ensures store[i] in Put(store, e)
    {
      if IsKey(store[i], e.fact, e.args) {
        var k := Find(store, e.fact, e.args).value;
        assert i == k;
      }
    }
  }

  lemma IncludesAll(a: Store, b: Store, c: Store)
    requires Includes(b, a) && Includes(c, b)
    ensures Includes(c, a)
  {
    forall i | 0 <= i < |a|
      ensures a[i] in c
    {
      var j :| 0 <= j < |b| && b[j] == a[i];
      assert b[j] in c;
    }
  }

  lemma OneMoreLineIncludes(facts: map<Id, Fact>, lines: seq<Line>, derived: bool)
    requires lines != []
    ensures Includes(Parse(facts, lines, derived).store, Parse(facts, lines[..|lines| - 1], derived).store)
  {
    var n := |lines| - 1;
    var before := Parse(facts, lines[..n], derived).store;
    var e := Recordable(facts, lines[n], derived);
    if e.Some? && !Contradicts(before, e.value) {
      PutAgreeing(before, e.value);
    }
  }

  /** Lines only ever add: what earlier lines established, later ones keep. */
  lemma {:induction false} MoreLinesInclude(facts: map<Id, Fact>, lines: seq<Line>, more: seq<Line>, derived: bool)
    ensures Includes(Parse(facts, lines + more, derived).store, Parse(facts, lines, derived).store)
  {
    if more == [] {
      assert lines + more == lines;
    } else {
      var front := lines + more[..|more| - 1];
      assert (lines + more)[..|lines + more| - 1] == front;
      MoreLinesInclude(facts, lines, more[..|more| - 1], derived);
      OneMoreLineIncludes(facts, lines + more, derived);
      IncludesAll(Parse(facts, lines, derived).store, Parse(facts, front, derived).store,
                  Parse(facts, lines + more, derived).store);
    }
  }

  /** A line is refused when it cannot be recorded, or contradicts the lines before it. */
  lemma {:induction false} RefusedExactly(facts: map<Id, Fact>, lines: seq<Line>, derived: bool, n: nat)
    requires n < |lines|
    ensures n in Parse(facts, lines, derived).refused <==>
            var e := Recordable(facts, lines[n], derived);
            e.None? || Contradicts(Parse(facts, lines[..n], derived).store, e.value)
  {
    var last := |lines| - 1;
    RefusedInRange(facts, lines[..last], derived);
    if n < last {
      RefusedExactly(facts, lines[..last], derived, n);
      assert lines[..last][..n] == lines[..n];
    }
  }

  lemma {:induction false} RefusedInRange(facts: map<Id, Fact>, lines: seq<Line>, derived: bool)
    ensures forall k :: k in Parse(facts, lines, derived).refused ==> k < |lines|
  {
    if lines != [] {
      RefusedInRange(facts, lines[..|lines| - 1], derived);
    }
  }

  /** After a line that is recorded, one that states the same but for its roles, with the other
      sign, is refused. */
  lemma OtherSignIsRefused(facts: map<Id, Fact>, lines: seq<Line>, derived: bool, m: nat, n: nat)
    requires m < n < |lines| && lines[m].Stated? && lines[n].Stated? && lines[m].fact == lines[n].fact
    requires lines[m].negated != lines[n].negated && |lines[m].args| == |lines[n].args|
    requires lines[m].fact in facts && |lines[m].args| == |facts[lines[m].fact].params|
    requires forall i :: 0 <= i < |lines[m].args| ==>
               lines[m].args[i] == lines[n].args[i] || IsRole(facts[lines[m].fact].params[i])
    requires m !in Parse(facts, lines, derived).refused
    ensures n in Parse(facts, lines, derived).refused
  {
    RefusedExactly(facts, lines, derived, m);
    RefusedExactly(facts, lines, derived, n);
    var e, e' := Recordable(facts, lines[m], derived), Recordable(facts, lines[n], derived);
    if e'.Some? {
      RecordableExactly(facts, lines[m], derived);
      RecordableExactly(facts, lines[n], derived);
      RolesMakeNoDifference(facts, lines[m], lines[n], derived);
      RecordedStays(facts, lines, derived, m, n, e.value);
      KeptContradicts(Parse(facts, lines[..m + 1], derived).store, Parse(facts, lines[..n], derived).store, e.value, e'.value);
    }
  }

  lemma RecordedStays(facts: map<Id, Fact>, lines: seq<Line>, derived: bool, m: nat, n: nat, e: Entry)
    requires m < n <= |lines| && Recordable(facts, lines[m], derived) == Some(e)
    requires !Contradicts(Parse(facts, lines[..m], derived).store, e)
    ensures e in Parse(facts, lines[..m + 1], derived).store
    ensures Includes(Parse(facts, lines[..n], derived).store, Parse(facts, lines[..m + 1], derived).store)
  {
    var upto := lines[..m + 1];
    assert upto[..m] == lines[..m] && upto[m] == lines[m];
    assert lines[..n] == upto + lines[m + 1..n];
    MoreLinesInclude(facts, upto, lines[m + 1..n], derived);
  }

  lemma KeptContradicts(before: Store, store: Store, e: Entry, e': Entry)
    requires IsStore(store) && Includes(store, before) && e in before
    requires e'.fact == e.fact && e'.args == e.args && e'.truth != e.truth
    ensures Contradicts(store, e')
  {
    var i :| 0 <= i < |before| && before[i] == e;
    assert before[i] in store;
    var k :| 0 <= k < |store| && store[k] == e;
    assert IsKey(store[k], e'.fact, e'.args);
  }

  // ------------------------------------------------------------------- several sources

  /** `store.update(more)`: the later source has the last word on every fact it states. */
  function Updated(store: Store, more: Store): (r: Store)
    requires IsStore(store)
    ensures IsStore(r)
  {
    if more == [] then store
    else Put(Updated(store, more[..|more| - 1]), more[|more| - 1])
  }

  /** Some entry of `more` is of the same ground fact as `e`. */
  ghost predicate Restates(more: Store, e: Entry) {
    exists k :: 0 <= k < |more| && IsKey(more[k], e.fact, e.args)
  }

  lemma SameEntry(store: Store, a: Entry, b: Entry)
    requires IsStore(store) && a in store && b in store && IsKey(b, a.fact, a.args)
    ensures a == b
  {
    var i :| 0 <= i < |store| && store[i] == a;
    var j :| 0 <= j < |store| && store[j] == b;
    assert !(i < j) && !(j < i);
  }

  lemma PutHas(store: Store, last: Entry, e: Entry)
    requires IsStore(store)
    ensures e in Put(store, last) <==> e == last || (e in store && !IsKey(last, e.fact, e.args))
  {
    if e in Put(store, last) && IsKey(last, e.fact, e.args) {
      SameEntry(Put(store, last), e, last);
    }
  }

  lemma RestatesSnoc(front: Store, last: Entry, e: Entry)
    ensures Restates(front + [last], e) <==> Restates(front, e) || IsKey(last, e.fact, e.args)
  {
    var more := front + [last];
    assert more[|front|] == last;
    if k :| 0 <= k < |front| && IsKey(front[k], e.fact, e.args) {
      assert more[k] == front[k];
    }
  }

  /** What one source over another holds: the later source's facts, and those of the earlier
      that the later says nothing of. */
  lemma {:induction false} UpdatedHas(store: Store, more: Store, e: Entry)
    requires IsStore(store) && IsStore(more)
    ensures e in Updated(store, more) <==> e in more || (e in store && !Restates(more, e))
  {
    if more != [] {
      var front, last := more[..|more| - 1], more[|more| - 1];
      assert more == front + [last];
      UpdatedHas(store, front, e);
      PutHas(Updated(store, front), last, e);
      RestatesSnoc(front, last, e);
      if i :| 0 <= i < |front| && front[i] == e {
        assert more[i] == e;
      }
    }
  }

  /** No fact of `more` denies one of `store`. */
  ghost predicate Agree(store: Store, more: Store) {
    forall a, b :: a in store && b in more && IsKey(b, a.fact, a.args) ==> a.truth == b.truth
  }

  /** A later source keeps what was established exactly when it denies none of it. */
  lemma UpdateKeepsExactly(store: Store, more: Store)
    requires IsStore(store) && IsStore(more)
    ensures Includes(Updated(store, more), store) <==> Agree(store, more)
  {
    var r := Updated(store, more);
    if Agree(store, more) {
      forall i | 0 <= i < |store|
        ensures store[i] in r
      {
        UpdatedHas(store, more, store[i]);
        if k :| 0 <= k < |more| && IsKey(more[k], store[i].fact, store[i].args) {
          assert store[i] in store && more[k] in more;
          assert store[i] == more[k];
        }
      }
    }
    if Includes(r, store) {
      forall a, b | a in store && b in more && IsKey(b, a.fact, a.args)
        ensures a.truth == b.truth
      {
        UpdatedHas(store, more, b);
        SameEntry(r, a, b);
      }
    }
  }
}
