/**
 When a condition is true, false or unknown, told from the recorded facts alone: an entry,
 its truth, the comparisons, and another value of a functional fact.
 */
module Readings {
  import opened Base
  import opened Knowledge
  import opened Search
  import opened Stability
  import opened Meaning
  import opened Picks

  // ------------------------------------------------------------------------- comparisons

  /** The comparison's variable has a value, and that is as it asks. */
  predicate Met(t: Comparison, b: Binding) {
    && t.variable in b
    && ((t.op == "==" && b[t.variable] == t.literal) || (t.op == "!=" && b[t.variable] != t.literal))
  }

  predicate AllMet(compare: seq<Comparison>, b: Binding) {
    forall k :: 0 <= k < |compare| ==> Met(compare[k], b)
  }

  /** The last comparison not met is one whose variable has a value. */
  predicate LastFails(compare: seq<Comparison>, b: Binding) {
    exists k :: 0 <= k < |compare| && !Met(compare[k], b) && compare[k].variable in b
                && forall l :: k < l < |compare| ==> Met(compare[l], b)
  }

  /** What is recorded is so, and is as every comparison asks. */
  predicate Affirms(compare: seq<Comparison>, b: Binding, truth: bool) {
    truth && AllMet(compare, b)
  }

  /** It is recorded not to be so, with nothing against it; or it is so with another value. */
  predicate Refutes(compare: seq<Comparison>, b: Binding, truth: bool) {
    if truth then LastFails(compare, b) else AllMet(compare, b)
  }

  lemma {:induction false} ComparedExactly(compare: seq<Comparison>, b: Binding, truth: bool, v: Kleene)
    ensures AllMet(compare, b) ==> Compared(compare, b, truth, v) == v
    ensures LastFails(compare, b) ==> Compared(compare, b, truth, v) == if truth then F else U
    ensures !AllMet(compare, b) && !LastFails(compare, b) ==> Compared(compare, b, truth, v) == U
  {
    if compare != [] {
      var t, rest := compare[0], compare[1..];
      var v' := if t.variable !in b then U else if Passes(t.op, b[t.variable], t.literal) then v else if truth then F else U;
      ComparedExactly(rest, b, truth, v');
      FirstAndRest(compare, b);
    }
  }

  lemma FirstAndRest(compare: seq<Comparison>, b: Binding)
    requires compare != []
    ensures AllMet(compare, b) <==> Met(compare[0], b) && AllMet(compare[1..], b)
    ensures LastFails(compare, b)
            <==> LastFails(compare[1..], b)
                 || (AllMet(compare[1..], b) && !Met(compare[0], b) && compare[0].variable in b)
  {
    var rest := compare[1..];
    assert forall k :: 0 < k < |compare| ==> compare[k] == rest[k - 1];
    if LastFails(compare, b) {
      var k :| 0 <= k < |compare| && !Met(compare[k], b) && compare[k].variable in b
               && forall l :: k < l < |compare| ==> Met(compare[l], b);
      if k > 0 {
        forall l | k - 1 < l < |rest|
          ensures Met(rest[l], b)
        {
          assert rest[l] == compare[l + 1];
        }
        assert !Met(rest[k - 1], b);
      }
    }
    if LastFails(rest, b) {
      var k :| 0 <= k < |rest| && !Met(rest[k], b) && rest[k].variable in b
               && forall l :: k < l < |rest| ==> Met(rest[l], b);
      forall l | k + 1 < l < |compare|
        ensures Met(compare[l], b)
      {
        assert compare[l] == rest[l - 1];
      }
      assert !Met(compare[k + 1], b);
    }
  }

  // ----------------------------------------------------------------------------- one entry

  /** Still to be bound: it starts with a capital, and is no role letter and no literal. */
  predicate IsFree(c: Condition, a: string)
    requires c.Test?
  {
    && a != "" && 'A' <= a[0] <= 'Z'
    && a != "C" && a != "W" && a != "P" && a != "N" && a != "S" && a !in c.literals
  }

  /** The condition's arguments with what is bound of them in its place. */
  ghost predicate StandAs(c: Condition, bind: Binding, args: seq<string>)
    requires c.Test?
  {
    && |args| == |c.args|
    && forall n :: 0 <= n < |args| ==> args[n] == if c.args[n] in bind then bind[c.args[n]] else c.args[n]
  }

  /** `b` is `bind` with those free arguments bound that are not recorded as themselves, each
      to what is recorded in its place; the other arguments are as recorded. */
  ghost predicate Binds(c: Condition, args: seq<string>, fargs: seq<string>, bind: Binding, b: Binding)
    requires c.Test?
  {
    && |fargs| == |args|
    && (forall v :: v in bind ==> v in b && b[v] == bind[v])
    && (forall n :: 0 <= n < |args| && args[n] != fargs[n] ==> IsFree(c, args[n]) && args[n] in b && b[args[n]] == fargs[n])
    && (forall v :: v in b && v !in bind ==> exists n :: 0 <= n < |args| && args[n] == v && fargs[n] != v)
  }

  lemma {:induction false} UnifiedBinds(c: Condition, args: seq<string>, fargs: seq<string>, bind: Binding)
    requires c.Test? && |args| == |fargs| && Unified(c, args, fargs, bind).Some?
    ensures Binds(c, args, fargs, bind, Unified(c, args, fargs, bind).value)
  {
    if args != [] {
      var b1 := if args[0] == fargs[0] || args[0] in bind then bind else bind[args[0] := fargs[0]];
      var b := Unified(c, args, fargs, bind).value;
      UnifiedBinds(c, args[1..], fargs[1..], b1);
      assert forall n :: 0 < n < |args| ==> args[n] == args[1..][n - 1] && fargs[n] == fargs[1..][n - 1];
      forall v | v in b && v !in bind
        ensures exists n :: 0 <= n < |args| && args[n] == v && fargs[n] != v
      {
        if v in b1 {
          assert args[0] == v && fargs[0] != v;
        } else {
          var n :| 0 <= n < |args| - 1 && args[1..][n] == v && fargs[1..][n] != v;
          assert args[n + 1] == v && fargs[n + 1] != v;
        }
      }
    }
  }

  lemma {:induction false} BindsUnified(c: Condition, args: seq<string>, fargs: seq<string>, bind: Binding, b: Binding)
    requires c.Test? && |args| == |fargs| && Binds(c, args, fargs, bind, b)
    ensures Unified(c, args, fargs, bind) == Some(b)
  {
    if args == [] {
      assert b == bind;
    } else {
      var b1 := if args[0] == fargs[0] || args[0] in bind then bind else bind[args[0] := fargs[0]];
      BindsRest(c, args, fargs, bind, b);
      BindsUnified(c, args[1..], fargs[1..], b1, b);
    }
  }

  lemma BindsRest(c: Condition, args: seq<string>, fargs: seq<string>, bind: Binding, b: Binding)
    requires c.Test? && |args| == |fargs| > 0 && Binds(c, args, fargs, bind, b)
    ensures var b1 := if args[0] == fargs[0] || args[0] in bind then bind else bind[args[0] := fargs[0]];
            Binds(c, args[1..], fargs[1..], b1, b)
  {
    var b1 := if args[0] == fargs[0] || args[0] in bind then bind else bind[args[0] := fargs[0]];
    forall n | 0 <= n < |args| - 1
      ensures args[1..][n] == args[n + 1] && fargs[1..][n] == fargs[n + 1]
    {
    }
    forall v | v in b && v !in b1
      ensures exists n :: 0 <= n < |args| - 1 && args[1..][n] == v && fargs[1..][n] != v
    {
      var n :| 0 <= n < |args| && args[n] == v && fargs[n] != v;
      assert n > 0 && args[1..][n - 1] == v;
    }
  }

  // ------------------------------------------------------------------------- one condition

  /** True when the entry affirms the condition, false when it refutes it, the other way round
      when the condition denies, and unknown otherwise. */
  predicate IsValue(c: Condition, b: Binding, truth: bool, v: Kleene)
    requires c.Test?
  {
    var yes, no := Affirms(c.compare, b, truth), Refutes(c.compare, b, truth);
    && (v == T <==> if c.negated then no else yes)
    && (v == F <==> if c.negated then yes else no)
  }

  lemma EntryValue(c: Condition, b: Binding, truth: bool)
    requires c.Test?
    ensures IsValue(c, b, truth, Signed(c, Compared(c.compare, b, truth, if truth then T else F)))
    ensures forall v, v' :: IsValue(c, b, truth, v) && IsValue(c, b, truth, v') ==> v == v'
  {
    ComparedExactly(c.compare, b, truth, if truth then T else F);
    AllOrLast(c.compare, b);
  }

  lemma AllOrLast(compare: seq<Comparison>, b: Binding)
    ensures !(AllMet(compare, b) && LastFails(compare, b))
  {
  }

  /** A recorded entry of the condition's fact reads as `r`. */
  ghost predicate ByEntry(store: Store, c: Condition, bind: Binding, r: Reading)
    requires c.Test?
  {
    exists e, args :: EntrySays(store, c, bind, r, e, args)
  }

  ghost predicate EntrySays(store: Store, c: Condition, bind: Binding, r: Reading, e: Entry, args: seq<string>)
    requires c.Test?
  {
    && e in store && e.fact == c.fact
    && StandAs(c, bind, args) && Binds(c, args, e.args, bind, r.bind) && IsValue(c, r.bind, e.truth, r.value)
  }

  /** True of the same subject, with another value. */
  predicate IsAnother(e: Entry, fact: Id, args: seq<string>) {
    && e.fact == fact && e.truth && |e.args| == |args| > 0
    && (forall n :: 0 <= n < |args| - 1 ==> e.args[n] == args[n]) && e.args[|args| - 1] != args[|args| - 1]
  }

  /** A functional fact, with nothing left to bind and nothing recorded of it but another value. */
  ghost predicate ByAnother(facts: map<Id, Fact>, store: Store, c: Condition, bind: Binding)
    requires c.Test? && Resolves(facts, c)
  {
    exists args :: AnotherSays(facts, store, c, bind, args)
  }

  ghost predicate AnotherSays(facts: map<Id, Fact>, store: Store, c: Condition, bind: Binding, args: seq<string>)
    requires c.Test? && Resolves(facts, c)
  {
    && StandAs(c, bind, args) && facts[c.fact].functional && (forall n :: 0 <= n < |args| ==> !IsFree(c, args[n]))
    && (exists e :: e in store && IsAnother(e, c.fact, args))
    && (forall e :: e in store ==> e.fact != c.fact || e.args != args)
  }

  /** What a condition can be read as: by an entry; false by another value, or true if it
      denies; and unknown when there is neither, or it is prose. */
  ghost predicate ReadsAs(facts: map<Id, Fact>, store: Store, c: Condition, bind: Binding, r: Reading)
    requires Resolves(facts, c)
  {
    if c.Prose? then r == Reading(U, bind)
    else
      || ByEntry(store, c, bind, r)
      || (ByAnother(facts, store, c, bind) && r == Reading(if c.negated then T else F, bind))
      || (r == Reading(U, bind) && !ByAnother(facts, store, c, bind) && !exists s :: ByEntry(store, c, bind, s))
  }

  lemma StandIsSubstituted(c: Condition, bind: Binding, args: seq<string>)
    requires c.Test?
    ensures StandAs(c, bind, args) <==> args == Substituted(c.args, bind)
  {
  }

  lemma HitsAreEntries(store: Store, c: Condition, bind: Binding, r: Reading)
    requires c.Test?
    ensures r in Hits(store, c, Substituted(c.args, bind), bind) <==> ByEntry(store, c, bind, r)
  {
    var args := Substituted(c.args, bind);
    HitsMembers(store, c, args, bind, r);
    if e :| e in store && r in Reads(c, args, bind, e) {
      EntryReads(store, c, bind, r, e);
    }
    if e, args' :| EntrySays(store, c, bind, r, e, args') {
      StandIsSubstituted(c, bind, args');
      EntryReads(store, c, bind, r, e);
    }
  }

  lemma EntryReads(store: Store, c: Condition, bind: Binding, r: Reading, e: Entry)
    requires c.Test? && e in store
    ensures r in Reads(c, Substituted(c.args, bind), bind, e)
            <==> EntrySays(store, c, bind, r, e, Substituted(c.args, bind))
  {
    var args := Substituted(c.args, bind);
    EntryValue(c, r.bind, e.truth);
    if e.fact == c.fact && |e.args| == |args| {
      if Unified(c, args, e.args, bind).Some? {
        UnifiedBinds(c, args, e.args, bind);
      }
      if Binds(c, args, e.args, bind, r.bind) {
        BindsUnified(c, args, e.args, bind, r.bind);
      }
    }
  }

  lemma AnotherIsOther(facts: map<Id, Fact>, store: Store, c: Condition, bind: Binding)
    requires c.Test? && Resolves(facts, c)
    ensures var args := Substituted(c.args, bind);
            ByAnother(facts, store, c, bind)
            <==> facts[c.fact].functional && !AnyOpen(c, args) && AnyOtherValue(store, c, args)
                 && !SaysSame(Hits(store, c, args, bind), bind)
  {
    var args := Substituted(c.args, bind);
    StandIsSubstituted(c, bind, args);
    AnotherSaysIs(facts, store, c, bind, args);
    if args' :| AnotherSays(facts, store, c, bind, args') {
      StandIsSubstituted(c, bind, args');
    }
  }

  lemma AnotherSaysIs(facts: map<Id, Fact>, store: Store, c: Condition, bind: Binding, args: seq<string>)
    requires c.Test? && Resolves(facts, c) && args == Substituted(c.args, bind) && StandAs(c, bind, args)
    ensures AnotherSays(facts, store, c, bind, args)
            <==> facts[c.fact].functional && !AnyOpen(c, args) && AnyOtherValue(store, c, args)
                 && !SaysSame(Hits(store, c, args, bind), bind)
  {
    OthersAreAnother(store, c, args);
    FreeIsOpen(c, args);
    if !AnyOpen(c, args) {
      ClosedSaysSame(store, c, args, bind);
      NothingRecorded(store, c.fact, args);
    }
  }

  lemma FreeIsOpen(c: Condition, args: seq<string>)
    requires c.Test?
    ensures AnyOpen(c, args) <==> exists n :: 0 <= n < |args| && IsFree(c, args[n])
  {
  }

  lemma NothingRecorded(store: Store, fact: Id, args: seq<string>)
    ensures IsRecordedOf(store, fact, args) <==> exists e :: e in store && e.fact == fact && e.args == args
  {
    if e :| e in store && e.fact == fact && e.args == args {
      var k :| 0 <= k < |store| && store[k] == e;
    }
  }

  lemma OthersAreAnother(store: Store, c: Condition, args: seq<string>)
    requires c.Test?
    ensures AnyOtherValue(store, c, args) <==> exists e :: e in store && IsAnother(e, c.fact, args)
  {
    forall e
      ensures OtherValue(c, args, e) <==> IsAnother(e, c.fact, args)
    {
      if e.fact == c.fact && e.truth && |e.args| == |args| > 0 {
        var n := |args| - 1;
        assert e.args[..n] == args[..n] <==> forall k :: 0 <= k < n ==> e.args[k] == args[k];
      }
    }
    if i :| 0 <= i < |store| && OtherValue(c, args, store[i]) {
      assert store[i] in store;
    }
    if e :| e in store && IsAnother(e, c.fact, args) {
      var i :| 0 <= i < |store| && store[i] == e;
    }
  }

  /** The readings are just those. */
  lemma ReadingsExactly(facts: map<Id, Fact>, store: Store, c: Condition, bind: Binding, r: Reading)
    requires Resolves(facts, c)
    ensures r in Options(facts, store, c, bind) <==> ReadsAs(facts, store, c, bind, r)
  {
    if c.Test? {
      var hits := Hits(store, c, Substituted(c.args, bind), bind);
      HitsAreEntries(store, c, bind, r);
      AnotherIsOther(facts, store, c, bind);
      if hits == [] {
        if s :| ByEntry(store, c, bind, s) {
          HitsAreEntries(store, c, bind, s);
        }
      } else {
        HitsAreEntries(store, c, bind, hits[0]);
      }
    }
  }

  /** With nothing left to bind, an entry is about the condition if it is of those arguments. */
  lemma ClosedBinds(c: Condition, args: seq<string>, fargs: seq<string>, bind: Binding, b: Binding)
    requires c.Test? && (forall n :: 0 <= n < |args| ==> !IsFree(c, args[n])) && |args| == |fargs|
    ensures Binds(c, args, fargs, bind, b) <==> args == fargs && b == bind
  {
    if Binds(c, args, fargs, bind, b) {
      assert forall n :: 0 <= n < |args| ==> args[n] == fargs[n];
      assert forall v :: v in b ==> v in bind;
    }
  }

  lemma StandOnce(c: Condition, bind: Binding, args: seq<string>, args': seq<string>)
    requires c.Test? && StandAs(c, bind, args) && StandAs(c, bind, args')
    ensures args == args'
  {
  }

  lemma RecordedSays(store: Store, c: Condition, bind: Binding, e: Entry, r: Reading)
    requires c.Test? && c.compare == [] && IsStore(store)
    requires StandAs(c, bind, e.args) && (forall n :: 0 <= n < |e.args| ==> !IsFree(c, e.args[n]))
    requires e in store && e.fact == c.fact
    ensures ByEntry(store, c, bind, r) <==> r == Reading(if e.truth != c.negated then T else F, bind)
  {
    var said := Reading(if e.truth != c.negated then T else F, bind);
    ClosedBinds(c, e.args, e.args, bind, bind);
    assert EntrySays(store, c, bind, said, e, e.args);
    if e', args :| EntrySays(store, c, bind, r, e', args) {
      StandOnce(c, bind, e.args, args);
      ClosedBinds(c, args, e'.args, bind, r.bind);
      SameEntry(store, e, e');
    }
  }

  lemma SameEntry(store: Store, e: Entry, e': Entry)
    requires IsStore(store) && e in store && e' in store && e.fact == e'.fact && e.args == e'.args
    ensures e == e'
  {
    var i :| 0 <= i < |store| && store[i] == e;
    var j :| 0 <= j < |store| && store[j] == e';
  }

  /** With nothing left to bind and nothing to compare, what is recorded is what is read: true
      exactly when the entry's truth is what the condition asks, and false otherwise. */
  lemma RecordedReads(facts: map<Id, Fact>, store: Store, c: Condition, bind: Binding, e: Entry, r: Reading)
    requires c.Test? && Resolves(facts, c) && c.compare == [] && IsStore(store)
    requires StandAs(c, bind, e.args) && (forall n :: 0 <= n < |e.args| ==> !IsFree(c, e.args[n]))
    requires e in store && e.fact == c.fact
    ensures r in Options(facts, store, c, bind) <==> r == Reading(if e.truth != c.negated then T else F, bind)
  {
    ReadingsExactly(facts, store, c, bind, r);
    RecordedSays(store, c, bind, e, r);
    RecordedSays(store, c, bind, e, Reading(if e.truth != c.negated then T else F, bind));
    NotByAnother(facts, store, c, bind, e);
  }

  lemma NotByAnother(facts: map<Id, Fact>, store: Store, c: Condition, bind: Binding, e: Entry)
    requires c.Test? && Resolves(facts, c) && StandAs(c, bind, e.args) && e in store && e.fact == c.fact
    ensures !ByAnother(facts, store, c, bind)
  {
    if args :| AnotherSays(facts, store, c, bind, args) {
      StandOnce(c, bind, e.args, args);
    }
  }

  /** A functional fact known with another value only is false, and its denial true. */
  lemma AnotherReads(facts: map<Id, Fact>, store: Store, c: Condition, bind: Binding, r: Reading)
    requires c.Test? && Resolves(facts, c) && ByAnother(facts, store, c, bind)
    ensures r in Options(facts, store, c, bind) <==> r == Reading(if c.negated then T else F, bind)
  {
    ReadingsExactly(facts, store, c, bind, r);
    NoEntrySays(facts, store, c, bind, r);
  }

  lemma NoEntrySays(facts: map<Id, Fact>, store: Store, c: Condition, bind: Binding, r: Reading)
    requires c.Test? && Resolves(facts, c) && ByAnother(facts, store, c, bind)
    ensures !ByEntry(store, c, bind, r)
  {
    var args :| AnotherSays(facts, store, c, bind, args);
    if e, args' :| EntrySays(store, c, bind, r, e, args') {
      StandOnce(c, bind, args, args');
      ClosedBinds(c, args, e.args, bind, r.bind);
    }
  }

  // --------------------------------------------------------------------- whole alternatives

  /** The conditions from `i` on read one after another, each under the binding left before. */
  ghost predicate ReadAs(facts: map<Id, Fact>, store: Store, alt: Alternative, i: nat, bind: Binding, chain: seq<Reading>)
    requires AllResolve(facts, alt) && i <= |alt|
    decreases |alt| - i
  {
    && |chain| == |alt| - i
    && (i < |alt| ==>
          && ReadsAs(facts, store, alt[i], bind, chain[0])
          && ReadAs(facts, store, alt, i + 1, chain[0].bind, chain[1..]))
  }

  lemma {:induction false} ChainsAreReadings(facts: map<Id, Fact>, store: Store, alt: Alternative, i: nat, bind: Binding,
                                             chain: seq<Reading>)
    requires AllResolve(facts, alt) && i <= |alt|
    ensures IsChain(facts, store, alt, i, bind, chain) <==> ReadAs(facts, store, alt, i, bind, chain)
    decreases |alt| - i
  {
    if i < |alt| && |chain| == |alt| - i {
      ReadingsExactly(facts, store, alt[i], bind, chain[0]);
      ChainsAreReadings(facts, store, alt, i + 1, chain[0].bind, chain[1..]);
    }
  }

  predicate SomeFalse(chain: seq<Reading>) {
    exists k :: 0 <= k < |chain| && chain[k].value == F
  }

  predicate AllTrue(chain: seq<Reading>) {
    forall k :: 0 <= k < |chain| ==> chain[k].value == T
  }

  lemma {:induction false} LeastIs(chain: seq<Reading>)
    ensures Least(chain) == F <==> SomeFalse(chain)
    ensures Least(chain) == T <==> AllTrue(chain)
  {
    if chain != [] {
      LeastIs(chain[1..]);
      assert forall k :: 0 < k < |chain| ==> chain[k] == chain[1..][k - 1];
      if SomeFalse(chain[1..]) {
        var k :| 0 <= k < |chain| - 1 && chain[1..][k].value == F;
        assert chain[k + 1].value == F;
      }
      if AllTrue(chain) {
        assert forall k :: 0 <= k < |chain| - 1 ==> chain[1..][k] == chain[k + 1];
      }
    }
  }

  /** The conditions of these that read unknown, each where it stands, in order. */
  ghost predicate UnknownAt(alt: Alternative, i: nat, chain: seq<Reading>, unknown: seq<Condition>, at: seq<nat>)
    requires i + |chain| == |alt|
  {
    && Rising(at) && |at| == |unknown|
    && (forall j :: 0 <= j < |at| ==> i <= at[j] < |alt| && unknown[j] == alt[at[j]] && chain[at[j] - i].value == U)
    && (forall k: nat :: i <= k < |alt| && chain[k - i].value == U ==> k in at)
  }

  lemma {:induction false} UnknownsListed(alt: Alternative, i: nat, chain: seq<Reading>) returns (at: seq<nat>)
    requires i + |chain| == |alt|
    ensures UnknownAt(alt, i, chain, Unknowns(alt, i, chain), at)
    decreases |chain|
  {
    if chain == [] {
      at := [];
    } else {
      var rest := UnknownsListed(alt, i + 1, chain[1..]);
      at := if chain[0].value == U then [i] + rest else rest;
      UnknownCons(alt, i, chain, Unknowns(alt, i + 1, chain[1..]), rest);
      assert [] + Unknowns(alt, i + 1, chain[1..]) == Unknowns(alt, i + 1, chain[1..]);
    }
  }

  lemma UnknownCons(alt: Alternative, i: nat, chain: seq<Reading>, unknown: seq<Condition>, at: seq<nat>)
    requires i + |chain| == |alt| && chain != [] && UnknownAt(alt, i + 1, chain[1..], unknown, at)
    ensures if chain[0].value == U then UnknownAt(alt, i, chain, [alt[i]] + unknown, [i] + at)
            else UnknownAt(alt, i, chain, unknown, at)
  {
    var more: seq<nat> := [i] + at;
    assert more[0] == i;
    forall k: nat | i <= k < |alt| && chain[k - i].value == U
      ensures k in more && (k > i ==> k in at)
    {
      if k > i {
        assert chain[1..][k - (i + 1)] == chain[k - i];
        assert k in at;
        var j :| 0 <= j < |at| && at[j] == k;
        assert more[j + 1] == k;
      }
    }
  }

  /** An alternative is false exactly when some condition is in every way of reading it, true
      when all are in some way, and otherwise unknown; and then what it lists is what is unknown
      in some way of reading it in which nothing is false. */
  lemma AlternativeMeans(facts: map<Id, Fact>, store: Store, alt: Alternative)
    requires AllResolve(facts, alt)
    ensures var r := AlternativeValue(facts, store, alt);
            && (r.value == F <==> forall chain :: ReadAs(facts, store, alt, 0, map[], chain) ==> SomeFalse(chain))
            && (r.value == T <==> exists chain :: ReadAs(facts, store, alt, 0, map[], chain) && AllTrue(chain))
            && (r.value == U ==> exists chain, at ::
                  ReadAs(facts, store, alt, 0, map[], chain) && !SomeFalse(chain) && UnknownAt(alt, 0, chain, r.unknown, at))
  {
    var r := AlternativeValue(facts, store, alt);
    AlternativeExact(facts, store, alt);
    forall chain
      ensures IsReading(facts, store, alt, chain) <==> ReadAs(facts, store, alt, 0, map[], chain)
      ensures Least(chain) == F <==> SomeFalse(chain)
      ensures Least(chain) == T <==> AllTrue(chain)
    {
      ChainsAreReadings(facts, store, alt, 0, map[], chain);
      LeastIs(chain);
    }
    if r.value == U {
      var chain :| IsReading(facts, store, alt, chain) && Least(chain) == r.value && r.unknown == Unknowns(alt, 0, chain);
      var at := UnknownsListed(alt, 0, chain);
      assert ReadAs(facts, store, alt, 0, map[], chain);
    }
  }
}
