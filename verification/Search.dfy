/**
 Matching conditions against recorded facts (`_value`), and the backtracking search for
 the best reading of a conjunction (`_alternative`).

 A store holds the facts recorded true or false, in the order they were recorded; a fact
 it does not hold is unknown. A value is 2 when true, 1 when unknown, 0 when false.
 */
module Search {
  import opened Base
  import opened Knowledge

  type Kleene = v: nat | v <= 2

  const F: Kleene := 0
  const U: Kleene := 1
  const T: Kleene := 2

  datatype Entry = Entry(fact: Id, args: seq<string>, truth: bool)

  type Store = seq<Entry>

  /** At most one polarity per ground fact, as in a dictionary. */
  ghost predicate IsStore(store: Store) {
    forall i, j :: 0 <= i < j < |store| ==> store[i].fact != store[j].fact || store[i].args != store[j].args
  }

  /** Every entry is of a known fact, with as many arguments as it takes. */
  predicate Typed(facts: map<Id, Fact>, store: Store) {
    forall i :: 0 <= i < |store| ==>
      store[i].fact in facts && |store[i].args| == |facts[store[i].fact].params|
  }

  type Binding = map<string, string>

  predicate Capitalised(a: string) {
    a != "" && 'A' <= a[0] <= 'Z'
  }

  function Substituted(args: seq<string>, bind: Binding): (r: seq<string>)
    ensures |r| == |args|
  {
    seq(|args|, i requires 0 <= i < |args| => if args[i] in bind then bind[args[i]] else args[i])
  }

  /** Whether an argument is still to be bound: capitalised, no role letter, no literal.
      A variable bound to a capitalised value is open again. */
  predicate IsOpen(c: Condition, a: string)
    requires c.Test?
  {
    Capitalised(a) && a !in ROLES && a !in c.literals
  }

  predicate AnyOpen(c: Condition, args: seq<string>)
    requires c.Test?
  {
    exists i :: 0 <= i < |args| && IsOpen(c, args[i])
  }

  /** The binding under which `args` are the recorded `fargs`, extending `b`. */
  function Unified(c: Condition, args: seq<string>, fargs: seq<string>, b: Binding): Option<Binding>
    requires c.Test? && |args| == |fargs|
  {
    if args == [] then Some(b)
    else if args[0] == fargs[0] then Unified(c, args[1..], fargs[1..], b)
    else if !IsOpen(c, args[0]) then None
    else if args[0] in b then
      if b[args[0]] == fargs[0] then Unified(c, args[1..], fargs[1..], b) else None
    else Unified(c, args[1..], fargs[1..], b[args[0] := fargs[0]])
  }

  /** Only the two equalities are evaluated; any other operator never passes. */
  predicate Passes(op: string, x: string, literal: string) {
    (op == "==" && x == literal) || (op == "!=" && x != literal)
  }

  /** A matched fact's value once the comparisons have had their say, left to right. */
  function Compared(compare: seq<Comparison>, b: Binding, truth: bool, v: Kleene): Kleene {
    if compare == [] then v
    else
      var t := compare[0];
      var v' := if t.variable !in b then U
                else if Passes(t.op, b[t.variable], t.literal) then v
                else if truth then F else U;
      Compared(compare[1..], b, truth, v')
  }

  function Negated(v: Kleene): Kleene {
    2 - v
  }

  /** One way a condition can be read: its value, and the binding that goes with it. */
  datatype Reading = Reading(value: Kleene, bind: Binding)

  function Signed(c: Condition, v: Kleene): Kleene
    requires c.Test?
  {
    if c.negated then Negated(v) else v
  }

  /** What one entry says of the condition, if it is about it at all. */
  function Reads(c: Condition, args: seq<string>, bind: Binding, e: Entry): (r: seq<Reading>)
    requires c.Test?
    ensures |r| <= 1
  {
    if e.fact != c.fact || |e.args| != |args| then []
    else match Unified(c, args, e.args, bind)
      case None => []
      case Some(b) =>
        [Reading(Signed(c, Compared(c.compare, b, e.truth, if e.truth then T else F)), b)]
  }

  function Hits(store: Store, c: Condition, args: seq<string>, bind: Binding): seq<Reading>
    requires c.Test?
  {
    if store == [] then []
    else Hits(store[..|store| - 1], c, args, bind) + Reads(c, args, bind, store[|store| - 1])
  }

  /** `e` records a functional fact true of the same subject with another value. */
  predicate OtherValue(c: Condition, args: seq<string>, e: Entry)
    requires c.Test?
  {
    && e.fact == c.fact && e.truth
    && |e.args| == |args| > 0
    && e.args[..|args| - 1] == args[..|args| - 1]
    && e.args[|args| - 1] != args[|args| - 1]
  }

  predicate AnyOtherValue(store: Store, c: Condition, args: seq<string>)
    requires c.Test?
  {
    exists i :: 0 <= i < |store| && OtherValue(c, args, store[i])
  }

  predicate SaysSame(out: seq<Reading>, bind: Binding) {
    exists i :: 0 <= i < |out| && out[i].bind == bind
  }

  /** A test of a functional fact that takes no arguments, and so has no value to be a
      function of. */
  predicate IsNullary(facts: map<Id, Fact>, c: Condition)
    requires Resolves(facts, c)
  {
    c.Test? && facts[c.fact].functional && c.args == []
  }

  /** Reading the condition raises: the last argument of a recorded fact is taken, and the
      fact has none. */
  predicate RaisesOn(facts: map<Id, Fact>, store: Store, c: Condition)
    requires Resolves(facts, c)
  {
    IsNullary(facts, c) && exists i :: 0 <= i < |store| && store[i].fact == c.fact
  }

  /** A condition's value under each way of binding its open variables, where reading it
      does not raise. */
  function Value(facts: map<Id, Fact>, store: Store, c: Condition, bind: Binding): (out: seq<Reading>)
    requires c.Test? && Resolves(facts, c)
    ensures out != []
  {
    var args := Substituted(c.args, bind);
    var out := Hits(store, c, args, bind);
    var out := if facts[c.fact].functional && !AnyOpen(c, args) && AnyOtherValue(store, c, args)
                  && !SaysSame(out, bind)
               then out + [Reading(Signed(c, F), bind)] else out;
    if out == [] then [Reading(U, bind)] else out
  }

  /** `any(...)` over the store: none when an entry for the fact is met and there is no last
      argument to compare. */
  method FindOtherValue(store: Store, c: Condition, args: seq<string>) returns (found: Option<bool>)
    requires c.Test?
    ensures found.None? <==> args == [] && exists i :: 0 <= i < |store| && store[i].fact == c.fact
    ensures found.Some? ==> found.value == AnyOtherValue(store, c, args)
  {
    for i := 0 to |store|
      invariant args == [] ==> forall k :: 0 <= k < i ==> store[k].fact != c.fact
      invariant forall k :: 0 <= k < i ==> !OtherValue(c, args, store[k])
    {
      if store[i].fact == c.fact && args == [] {
        return None;
      }
      if OtherValue(c, args, store[i]) {
        return Some(true);
      }
    }
    return Some(false);
  }

  /** `_value` as it runs, one entry after another; none when it raises. */
  method ValueOf(facts: map<Id, Fact>, store: Store, c: Condition, bind: Binding) returns (out: Option<seq<Reading>>)
    requires c.Test? && Resolves(facts, c)
    ensures out.None? <==> RaisesOn(facts, store, c)
    ensures out.Some? ==> out.value == Value(facts, store, c, bind)
  {
    var args := Substituted(c.args, bind);
    var read: seq<Reading> := [];
    for i := 0 to |store|
      invariant read == Hits(store[..i], c, args, bind)
    {
      assert store[..i + 1][..i] == store[..i];
      read := read + Reads(c, args, bind, store[i]);
    }
    assert store[..|store|] == store;
    if facts[c.fact].functional && !AnyOpen(c, args) {
      var other := FindOtherValue(store, c, args);
      if other.None? {
        return None;
      }
      if other.value && !SaysSame(read, bind) {
        read := read + [Reading(Signed(c, F), bind)];
      }
    }
    return Some(if read == [] then [Reading(U, bind)] else read);
  }

  // -------------------------------------------------------------------- the search

  predicate AllResolve(facts: map<Id, Fact>, alt: Alternative) {
    forall i :: 0 <= i < |alt| ==> Resolves(facts, alt[i])
  }

  /** A conjunction's value, and the conditions still unknown at the best reading. */
  datatype Best = Best(value: Kleene, unknown: seq<Condition>)

  predicate Beats(value: Kleene, unknown: seq<Condition>, best: Best) {
    value > best.value || (value == best.value && |unknown| < |best.unknown|)
  }

  function Options(facts: map<Id, Fact>, store: Store, c: Condition, bind: Binding): (out: seq<Reading>)
    requires Resolves(facts, c)
    ensures out != []
  {
    if c.Prose? then [Reading(U, bind)] else Value(facts, store, c, bind)
  }

  function Unsure(c: Condition, v: Kleene): seq<Condition> {
    if v == U then [c] else []
  }

  /** The best reading found from condition `i` on, given the best found before. */
  function Walked(facts: map<Id, Fact>, store: Store, alt: Alternative, i: nat, bind: Binding,
                  value: Kleene, unknown: seq<Condition>, best: Best): Best
    requires AllResolve(facts, alt) && i <= |alt|
    decreases |alt| - i, 0
  {
    if value == F then best
    else if i == |alt| then if Beats(value, unknown, best) then Best(value, unknown) else best
    else WalkedAll(facts, store, alt, i, Options(facts, store, alt[i], bind), value, unknown, best)
  }

  function WalkedAll(facts: map<Id, Fact>, store: Store, alt: Alternative, i: nat, options: seq<Reading>,
                     value: Kleene, unknown: seq<Condition>, best: Best): Best
    requires AllResolve(facts, alt) && i < |alt|
    decreases |alt| - i - 1, |options| + 1
  {
    if options == [] then best
    else
      var last := |options| - 1;
      var best' := WalkedAll(facts, store, alt, i, options[..last], value, unknown, best);
      var o := options[last];
      Walked(facts, store, alt, i + 1, o.bind, Min(value, o.value), unknown + Unsure(alt[i], o.value), best')
  }

  function AlternativeValue(facts: map<Id, Fact>, store: Store, alt: Alternative): Best
    requires AllResolve(facts, alt)
  {
    Walked(facts, store, alt, 0, map[], T, [], Best(F, alt))
  }

  /** The walk from condition `i` on comes to a condition that raises. */
  predicate Stops(facts: map<Id, Fact>, store: Store, alt: Alternative, i: nat, bind: Binding, value: Kleene)
    requires AllResolve(facts, alt) && i <= |alt|
    decreases |alt| - i, 0
  {
    && value != F && i < |alt|
    && (RaisesOn(facts, store, alt[i]) || StopsAfter(facts, store, alt, i, Options(facts, store, alt[i], bind), value))
  }

  /** ... or comes to one after reading condition `i` in one of these ways. */
  predicate StopsAfter(facts: map<Id, Fact>, store: Store, alt: Alternative, i: nat, options: seq<Reading>, value: Kleene)
    requires AllResolve(facts, alt) && i < |alt|
    decreases |alt| - i - 1, |options| + 1
  {
    && options != []
    && var last := |options| - 1;
       || StopsAfter(facts, store, alt, i, options[..last], value)
       || Stops(facts, store, alt, i + 1, options[last].bind, Min(value, options[last].value))
  }

  /** `_alternative` raises. */
  predicate AlternativeRaises(facts: map<Id, Fact>, store: Store, alt: Alternative)
    requires AllResolve(facts, alt)
  {
    Stops(facts, store, alt, 0, map[], T)
  }

  lemma {:induction false} StopsInPart(facts: map<Id, Fact>, store: Store, alt: Alternative, i: nat,
                                       options: seq<Reading>, n: nat, value: Kleene)
    requires AllResolve(facts, alt) && i < |alt| && n <= |options|
    requires StopsAfter(facts, store, alt, i, options[..n], value)
    ensures StopsAfter(facts, store, alt, i, options, value)
  {
    if n < |options| {
      var last := |options| - 1;
      assert options[..last][..n] == options[..n];
      StopsInPart(facts, store, alt, i, options[..last], n, value);
    } else {
      assert options[..n] == options;
    }
  }

  /** A lone option is walked with no best to compare before it. */
  lemma OneOption(facts: map<Id, Fact>, store: Store, alt: Alternative, i: nat, o: Reading,
                  value: Kleene, unknown: seq<Condition>, best: Best)
    requires AllResolve(facts, alt) && i < |alt|
    ensures WalkedAll(facts, store, alt, i, [o], value, unknown, best)
            == Walked(facts, store, alt, i + 1, o.bind, Min(value, o.value), unknown + Unsure(alt[i], o.value), best)
    ensures StopsAfter(facts, store, alt, i, [o], value)
            <==> Stops(facts, store, alt, i + 1, o.bind, Min(value, o.value))
  {
    assert [o][..0] == [] && [o][0] == o;
    assert WalkedAll(facts, store, alt, i, [], value, unknown, best) == best;
  }

  /** `_alternative` as it runs: a recursive walk that updates the best found so far, or
      ends early because reading a condition raised. */
  class Search {
    const facts: map<Id, Fact>
    const store: Store
    const alt: Alternative
    var best: Best

    constructor (facts: map<Id, Fact>, store: Store, alt: Alternative)
      ensures this.facts == facts && this.store == store && this.alt == alt && best == Best(F, alt)
    {
      this.facts, this.store, this.alt := facts, store, alt;
      best := Best(F, alt);
    }

    method Walk(i: nat, bind: Binding, value: Kleene, unknown: seq<Condition>) returns (raised: bool)
      requires AllResolve(facts, alt) && i <= |alt|
      modifies this
      ensures raised == Stops(facts, store, alt, i, bind, value)
      ensures !raised ==> best == Walked(facts, store, alt, i, bind, value, unknown, old(best))
      decreases |alt| - i, 0
    {
      if value == F || (!Beats(value, unknown, best) && value < T && i == |alt|) {
        return false;
      }
      if i == |alt| {
        if Beats(value, unknown, best) {
          best := Best(value, unknown);
        }
        return false;
      }
      var c := alt[i];
      if c.Prose? {
        OneOption(facts, store, alt, i, Reading(U, bind), value, unknown, best);
        raised := Walk(i + 1, bind, Min(value, U), unknown + [c]);
      } else {
        var options := ValueOf(facts, store, c, bind);
        if options.None? {
          return true;
        }
        raised := WalkEach(i, options.value, value, unknown);
      }
    }

    /** The loop over the ways condition `i` can be read. */
    method WalkEach(i: nat, options: seq<Reading>, value: Kleene, unknown: seq<Condition>) returns (raised: bool)
      requires AllResolve(facts, alt) && i < |alt|
      modifies this
      ensures raised == StopsAfter(facts, store, alt, i, options, value)
      ensures !raised ==> best == WalkedAll(facts, store, alt, i, options, value, unknown, old(best))
      decreases |alt| - i - 1, 1
    {
      for k := 0 to |options|
        invariant !StopsAfter(facts, store, alt, i, options[..k], value)
        invariant best == WalkedAll(facts, store, alt, i, options[..k], value, unknown, old(best))
      {
        assert options[..k + 1][..k] == options[..k];
        var o := options[k];
        var stopped := Walk(i + 1, o.bind, Min(value, o.value), unknown + Unsure(alt[i], o.value));
        if stopped {
          StopsInPart(facts, store, alt, i, options, k + 1, value);
          return true;
        }
      }
      assert options[..|options|] == options;
      raised := false;
    }
  }

  /** The whole search; none when it raises. */
  method FindAlternative(facts: map<Id, Fact>, store: Store, alt: Alternative) returns (best: Option<Best>)
    requires AllResolve(facts, alt)
    ensures best.None? <==> AlternativeRaises(facts, store, alt)
    ensures best.Some? ==> best.value == AlternativeValue(facts, store, alt)
  {
    var s := new Search(facts, store, alt);
    var raised := s.Walk(0, map[], T, []);
    best := if raised then None else Some(s.best);
  }

  // --------------------------------------------------------------- when the search raises

  predicate TestsNullary(facts: map<Id, Fact>, alt: Alternative)
    requires AllResolve(facts, alt)
  {
    exists i :: 0 <= i < |alt| && IsNullary(facts, alt[i])
  }

  lemma {:induction false} StopsAtNullary(facts: map<Id, Fact>, store: Store, alt: Alternative, i: nat, bind: Binding,
                                          value: Kleene)
    requires AllResolve(facts, alt) && i <= |alt| && Stops(facts, store, alt, i, bind, value)
    ensures TestsNullary(facts, alt)
    decreases |alt| - i, 0
  {
    if !IsNullary(facts, alt[i]) {
      StopsAfterAtNullary(facts, store, alt, i, Options(facts, store, alt[i], bind), value);
    }
  }

  lemma {:induction false} StopsAfterAtNullary(facts: map<Id, Fact>, store: Store, alt: Alternative, i: nat,
                                               options: seq<Reading>, value: Kleene)
    requires AllResolve(facts, alt) && i < |alt| && StopsAfter(facts, store, alt, i, options, value)
    ensures TestsNullary(facts, alt)
    decreases |alt| - i - 1, |options| + 1
  {
    var last := |options| - 1;
    if StopsAfter(facts, store, alt, i, options[..last], value) {
      StopsAfterAtNullary(facts, store, alt, i, options[..last], value);
    } else {
      StopsAtNullary(facts, store, alt, i + 1, options[last].bind, Min(value, options[last].value));
    }
  }

  /** The one entry of a store on which reading a nullary condition raises. */
  function Bare(fact: Id): Entry {
    Entry(fact, [], true)
  }

  /** On a lone entry of another fact a condition is unknown. */
  lemma OthersUnknown(facts: map<Id, Fact>, e: Entry, c: Condition, bind: Binding)
    requires Resolves(facts, c) && (c.Test? ==> c.fact != e.fact)
    ensures Options(facts, [e], c, bind) == [Reading(U, bind)] && !RaisesOn(facts, [e], c)
  {
    assert [e][..0] == [] && [e][0] == e;
    if c.Test? {
      assert Hits([], c, Substituted(c.args, bind), bind) == [];
    }
  }

  lemma {:induction false} FirstNullaryStops(facts: map<Id, Fact>, alt: Alternative, i: nat, n: nat, bind: Binding,
                                             value: Kleene)
    requires AllResolve(facts, alt) && i <= n < |alt| && IsNullary(facts, alt[n]) && value != F
    requires forall j :: 0 <= j < n ==> !IsNullary(facts, alt[j])
    ensures Stops(facts, [Bare(alt[n].fact)], alt, i, bind, value)
    decreases n - i
  {
    var store := [Bare(alt[n].fact)];
    assert store[0].fact == alt[n].fact;
    if i < n {
      assert alt[i].Test? ==> alt[i].fact != alt[n].fact;
      OthersUnknown(facts, store[0], alt[i], bind);
      FirstNullaryStops(facts, alt, i + 1, n, bind, Min(value, U));
      OneOption(facts, store, alt, i, Reading(U, bind), value, [], Best(F, alt));
    }
  }

  lemma {:induction false} FirstNullary(facts: map<Id, Fact>, alt: Alternative, k: nat) returns (n: nat)
    requires AllResolve(facts, alt) && k < |alt| && IsNullary(facts, alt[k])
    ensures n < |alt| && IsNullary(facts, alt[n]) && forall j :: 0 <= j < n ==> !IsNullary(facts, alt[j])
  {
    n := k;
    if j :| 0 <= j < k && IsNullary(facts, alt[j]) {
      n := FirstNullary(facts, alt, j);
    }
  }

  lemma NullaryRaises(facts: map<Id, Fact>, alt: Alternative) returns (e: Entry)
    requires AllResolve(facts, alt) && TestsNullary(facts, alt)
    ensures e == Bare(e.fact) && IsStore([e]) && Typed(facts, [e]) && e.fact in facts && facts[e.fact].functional
    ensures AlternativeRaises(facts, [e], alt)
  {
    var k :| 0 <= k < |alt| && IsNullary(facts, alt[k]);
    var n := FirstNullary(facts, alt, k);
    e := Bare(alt[n].fact);
    FirstNullaryStops(facts, alt, 0, n, map[], T);
  }

  /** The search raises on no store that can be recorded exactly when the alternative tests
      no functional fact without parameters. */
  lemma AlternativeSafeExactly(facts: map<Id, Fact>, alt: Alternative)
    requires AllResolve(facts, alt)
    ensures (forall store :: IsStore(store) && Typed(facts, store) ==> !AlternativeRaises(facts, store, alt))
            <==> !TestsNullary(facts, alt)
  {
    if TestsNullary(facts, alt) {
      var e := NullaryRaises(facts, alt);
      assert IsStore([e]) && Typed(facts, [e]) && AlternativeRaises(facts, [e], alt);
    }
    forall store | AlternativeRaises(facts, store, alt)
      ensures TestsNullary(facts, alt)
    {
      StopsAtNullary(facts, store, alt, 0, map[], T);
    }
  }

  // ------------------------------------------------------------ every reading there is

  /** One reading of the conditions from `i` on: an option `_value` allows for each, under
      the binding the one before left. */
  ghost predicate IsChain(facts: map<Id, Fact>, store: Store, alt: Alternative, i: nat, bind: Binding,
                          chain: seq<Reading>)
    requires AllResolve(facts, alt) && i <= |alt|
    decreases |alt| - i
  {
    && |chain| == |alt| - i
    && (chain != [] ==>
          && chain[0] in Options(facts, store, alt[i], bind)
          && IsChain(facts, store, alt, i + 1, chain[0].bind, chain[1..]))
  }

  /** Kleene conjunction: the least of the values. */
  function Least(chain: seq<Reading>): Kleene {
    if chain == [] then T else Min(chain[0].value, Least(chain[1..]))
  }

  function Unknowns(alt: Alternative, i: nat, chain: seq<Reading>): seq<Condition>
    requires i + |chain| == |alt|
    decreases |chain|
  {
    if chain == [] then [] else Unsure(alt[i], chain[0].value) + Unknowns(alt, i + 1, chain[1..])
  }

  /** What a chain makes of the value and the unknowns it started from. */
  ghost function Outcome(alt: Alternative, i: nat, chain: seq<Reading>, value: Kleene, unknown: seq<Condition>): Best
    requires i + |chain| == |alt|
  {
    Best(Min(value, Least(chain)), unknown + Unknowns(alt, i, chain))
  }

  ghost predicate NoBetter(a: Best, b: Best) {
    !Beats(a.value, a.unknown, b)
  }

  lemma {:induction false} WalkedImproves(facts: map<Id, Fact>, store: Store, alt: Alternative, i: nat,
                                          bind: Binding, value: Kleene, unknown: seq<Condition>, best: Best)
    requires AllResolve(facts, alt) && i <= |alt|
    ensures NoBetter(best, Walked(facts, store, alt, i, bind, value, unknown, best))
    decreases |alt| - i, 0
  {
    if value != F && i < |alt| {
      WalkedAllImproves(facts, store, alt, i, Options(facts, store, alt[i], bind), value, unknown, best);
    }
  }

  lemma {:induction false} WalkedAllImproves(facts: map<Id, Fact>, store: Store, alt: Alternative, i: nat,
                                             options: seq<Reading>, value: Kleene, unknown: seq<Condition>, best: Best)
    requires AllResolve(facts, alt) && i < |alt|
    ensures NoBetter(best, WalkedAll(facts, store, alt, i, options, value, unknown, best))
    decreases |alt| - i - 1, |options| + 1
  {
    if options != [] {
      var last := |options| - 1;
      var o := options[last];
      WalkedAllImproves(facts, store, alt, i, options[..last], value, unknown, best);
      WalkedImproves(facts, store, alt, i + 1, o.bind, Min(value, o.value), unknown + Unsure(alt[i], o.value),
                     WalkedAll(facts, store, alt, i, options[..last], value, unknown, best));
    }
  }

  /** No reading does better than the one the walk ends with: cutting at false loses none. */
  lemma {:induction false} WalkedBounds(facts: map<Id, Fact>, store: Store, alt: Alternative, i: nat,
                                        bind: Binding, value: Kleene, unknown: seq<Condition>, best: Best,
                                        chain: seq<Reading>)
    requires AllResolve(facts, alt) && i <= |alt| && IsChain(facts, store, alt, i, bind, chain)
    requires Outcome(alt, i, chain, value, unknown).value != F
    ensures NoBetter(Outcome(alt, i, chain, value, unknown),
                     Walked(facts, store, alt, i, bind, value, unknown, best))
    decreases |alt| - i, 0
  {
    if i < |alt| {
      var options := Options(facts, store, alt[i], bind);
      var k :| 0 <= k < |options| && options[k] == chain[0];
      WalkedAllBounds(facts, store, alt, i, options, k, value, unknown, best, chain);
    } else {
      assert unknown + [] == unknown;
    }
  }

  lemma {:induction false} WalkedAllBounds(facts: map<Id, Fact>, store: Store, alt: Alternative, i: nat,
                                           options: seq<Reading>, k: nat, value: Kleene, unknown: seq<Condition>,
                                           best: Best, chain: seq<Reading>)
    requires AllResolve(facts, alt) && i < |alt| && |chain| == |alt| - i
    requires k < |options| && options[k] == chain[0]
    requires IsChain(facts, store, alt, i + 1, chain[0].bind, chain[1..])
    requires Outcome(alt, i, chain, value, unknown).value != F
    ensures NoBetter(Outcome(alt, i, chain, value, unknown),
                     WalkedAll(facts, store, alt, i, options, value, unknown, best))
    decreases |alt| - i - 1, |options| + 1
  {
    var last := |options| - 1;
    var o := options[last];
    var best' := WalkedAll(facts, store, alt, i, options[..last], value, unknown, best);
    var value', unknown' := Min(value, o.value), unknown + Unsure(alt[i], o.value);
    if k == last {
      OutcomeStep(alt, i, chain, value, unknown);
      WalkedBounds(facts, store, alt, i + 1, o.bind, value', unknown', best', chain[1..]);
    } else {
      WalkedAllBounds(facts, store, alt, i, options[..last], k, value, unknown, best, chain);
      WalkedImproves(facts, store, alt, i + 1, o.bind, value', unknown', best');
    }
  }

  lemma OutcomeStep(alt: Alternative, i: nat, chain: seq<Reading>, value: Kleene, unknown: seq<Condition>)
    requires i + |chain| == |alt| && chain != []
    ensures Outcome(alt, i, chain, value, unknown)
            == Outcome(alt, i + 1, chain[1..], Min(value, chain[0].value), unknown + Unsure(alt[i], chain[0].value))
  {
    var more := Unknowns(alt, i + 1, chain[1..]);
    assert unknown + (Unsure(alt[i], chain[0].value) + more) == unknown + Unsure(alt[i], chain[0].value) + more;
  }

  /** Whatever the walk ends with is what it started with, or a reading's. */
  lemma {:induction false} WalkedReached(facts: map<Id, Fact>, store: Store, alt: Alternative, i: nat,
                                         bind: Binding, value: Kleene, unknown: seq<Condition>, best: Best)
    returns (chain: seq<Reading>)
    requires AllResolve(facts, alt) && i <= |alt|
    requires Walked(facts, store, alt, i, bind, value, unknown, best) != best
    ensures IsChain(facts, store, alt, i, bind, chain)
    ensures Walked(facts, store, alt, i, bind, value, unknown, best) == Outcome(alt, i, chain, value, unknown)
    ensures Outcome(alt, i, chain, value, unknown).value != F
    decreases |alt| - i, 0
  {
    if i == |alt| {
      chain := [];
      assert unknown + [] == unknown;
    } else {
      var options := Options(facts, store, alt[i], bind);
      chain := WalkedAllReached(facts, store, alt, i, options, value, unknown, best);
    }
  }

  lemma {:induction false} WalkedAllReached(facts: map<Id, Fact>, store: Store, alt: Alternative, i: nat,
                                            options: seq<Reading>, value: Kleene, unknown: seq<Condition>, best: Best)
    returns (chain: seq<Reading>)
    requires AllResolve(facts, alt) && i < |alt|
    requires WalkedAll(facts, store, alt, i, options, value, unknown, best) != best
    ensures |chain| == |alt| - i && chain[0] in options
    ensures IsChain(facts, store, alt, i + 1, chain[0].bind, chain[1..])
    ensures WalkedAll(facts, store, alt, i, options, value, unknown, best) == Outcome(alt, i, chain, value, unknown)
    ensures Outcome(alt, i, chain, value, unknown).value != F
    decreases |alt| - i - 1, |options| + 1
  {
    var last := |options| - 1;
    var o := options[last];
    var best' := WalkedAll(facts, store, alt, i, options[..last], value, unknown, best);
    var value', unknown' := Min(value, o.value), unknown + Unsure(alt[i], o.value);
    if Walked(facts, store, alt, i + 1, o.bind, value', unknown', best') == best' {
      chain := WalkedAllReached(facts, store, alt, i, options[..last], value, unknown, best);
    } else {
      var rest := WalkedReached(facts, store, alt, i + 1, o.bind, value', unknown', best');
      chain := [o] + rest;
      assert chain[1..] == rest;
      OutcomeStep(alt, i, chain, value, unknown);
    }
  }

  lemma {:induction false} TrueKnowsAll(alt: Alternative, i: nat, chain: seq<Reading>)
    requires i + |chain| == |alt|
    ensures Least(chain) == T ==> Unknowns(alt, i, chain) == []
    decreases |chain|
  {
    if chain != [] {
      TrueKnowsAll(alt, i + 1, chain[1..]);
    }
  }

  /** A chain of readings of the whole alternative. */
  ghost predicate IsReading(facts: map<Id, Fact>, store: Store, alt: Alternative, chain: seq<Reading>)
    requires AllResolve(facts, alt)
  {
    IsChain(facts, store, alt, 0, map[], chain)
  }

  /** The search is exact. Its value is the greatest, over all readings, of the least of
      their values; false lists the whole alternative, true lists nothing, and unknown
      lists the unknowns of a reading that has the fewest of them. */
  lemma AlternativeExact(facts: map<Id, Fact>, store: Store, alt: Alternative)
    requires AllResolve(facts, alt)
    ensures var r := AlternativeValue(facts, store, alt);
            && (forall chain :: IsReading(facts, store, alt, chain) ==>
                  && Least(chain) <= r.value
                  && (Least(chain) == r.value == U ==> |r.unknown| <= |Unknowns(alt, 0, chain)|))
            && (r.value != F ==> exists chain ::
                  IsReading(facts, store, alt, chain) && Least(chain) == r.value
                  && r.unknown == Unknowns(alt, 0, chain))
            && (r.value == F ==> r.unknown == alt)
            && (r.value == T ==> r.unknown == [])
  {
    var start := Best(F, alt);
    var r := AlternativeValue(facts, store, alt);
    forall chain | IsReading(facts, store, alt, chain)
      ensures Least(chain) <= r.value
      ensures Least(chain) == r.value == U ==> |r.unknown| <= |Unknowns(alt, 0, chain)|
    {
      assert [] + Unknowns(alt, 0, chain) == Unknowns(alt, 0, chain);
      if Least(chain) != F {
        WalkedBounds(facts, store, alt, 0, map[], T, [], start, chain);
      }
    }
    if r != start {
      var chain := WalkedReached(facts, store, alt, 0, map[], T, [], start);
      assert [] + Unknowns(alt, 0, chain) == Unknowns(alt, 0, chain);
      TrueKnowsAll(alt, 0, chain);
    }
  }

  /** An alternative that holds: some reading makes every condition true. */
  ghost predicate Holds(facts: map<Id, Fact>, store: Store, alt: Alternative)
    requires AllResolve(facts, alt)
  {
    exists chain :: IsReading(facts, store, alt, chain) && Least(chain) == T
  }

  lemma TrueWhenHolds(facts: map<Id, Fact>, store: Store, alt: Alternative)
    requires AllResolve(facts, alt)
    ensures AlternativeValue(facts, store, alt).value == T <==> Holds(facts, store, alt)
  {
    AlternativeExact(facts, store, alt);
  }
}
