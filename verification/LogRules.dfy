/**
 What the two writers of the fact log append, said of the lines there are and the facts given:
 which facts are new, the numbers they get, and what of them is changed.
 */
module LogRules {
  import opened Base
  import opened Picks
  import opened FactLog

  /** The two say the same of the same: all that counts in telling a fact known. */
  predicate Agrees(a: Fact, b: Fact) {
    a.subject == b.subject && a.key == b.key && a.value == b.value && a.statement == b.statement
  }

  // ----------------------------------------------------------------------- reading the lines

  /** A line that is a fact, whose id counts as none when it is no text. */
  function FactOn(): Line -> Option<Fact> {
    (l: Line) => if l.Entry? then Some(l.fact) else if l.BadId? then Some(l.fact.(id := NoId)) else None
  }

  lemma {:induction false} ReadPicked(lines: seq<Line>)
    ensures Picked(lines, FactOn(), Read(lines))
  {
    if lines == [] {
      PickedNone(FactOn());
    } else {
      var last := lines[|lines| - 1];
      ReadPicked(lines[..|lines| - 1]);
      PickedLast(lines, FactOn(), Read(lines[..|lines| - 1]));
      assert Row(last) == if FactOn()(last).Some? then [FactOn()(last).value] else [];
    }
  }

  /** The least number above all that the facts' ids have. */
  ghost predicate IsAboveAll(facts: seq<Fact>, next: nat) {
    && next > 0
    && (forall i :: 0 <= i < |facts| && !facts[i].id.NoId? ==> facts[i].id.number < next)
    && (next > 1 ==> exists i :: 0 <= i < |facts| && !facts[i].id.NoId? && facts[i].id.number == next - 1)
  }

  lemma {:induction false} NextIsAbove(facts: seq<Fact>)
    ensures IsAboveAll(facts, NextId(facts))
  {
    if facts != [] {
      var front, last := facts[..|facts| - 1], facts[|facts| - 1];
      NextIsAbove(front);
      assert forall i :: 0 <= i < |front| ==> facts[i] == front[i];
    }
  }

  /** The agent looks at the ids `F<n>` of facts and of other JSON objects. */
  predicate Bears(l: Line, number: nat) {
    (l.Entry? && l.fact.id == Exact(number)) || (l.Stray? && l.id == Some(number))
  }

  ghost predicate IsNextOnLines(lines: seq<Line>, next: nat) {
    && next > 0
    && (forall i: nat, n: nat :: i < |lines| && Bears(lines[i], n) ==> n < next)
    && (next > 1 ==> exists i :: 0 <= i < |lines| && Bears(lines[i], next - 1))
  }

  lemma {:induction false} NextOnLines(lines: seq<Line>)
    ensures IsNextOnLines(lines, NextFactId(lines))
  {
    if lines != [] {
      var front, last := lines[..|lines| - 1], lines[|lines| - 1];
      NextOnLines(front);
      assert forall i :: 0 <= i < |front| ==> lines[i] == front[i];
      assert LineId(last) > 0 ==> Bears(last, LineId(last));
      forall n: nat | Bears(last, n)
        ensures n <= LineId(last)
      {
      }
    }
  }

  // ---------------------------------------------------------------------------- the sandbox

  /** The value as JSON gives it back. */
  predicate ReadsBackAs(v: Value, w: Value) {
    if v.Json? then w == v else w == Json(v.back)
  }

  /** The agent's append: one line at the end, with the fact as it is given, but numbered past
      every id on the lines, marked as the agent's, and with its value as it reads back. */
  lemma AgentAppends(lines: seq<Line>, f: Fact)
    ensures var r := Recorded(lines, f);
            && |r| == |lines| + 1 && r[..|lines|] == lines && r[|lines|].Entry?
            && var g := r[|lines|].fact;
               && g.subject == f.subject && g.key == f.key && g.statement == f.statement && g.scope == f.scope
               && g.kb == f.kb && g.source == f.source && g.byAgent && ReadsBackAs(f.value, g.value)
               && g.id.Exact? && IsNextOnLines(lines, g.id.number)
  {
    NextOnLines(lines);
  }

  // ------------------------------------------------------------------------------- the host

  /** No fact held says the same, nor an earlier one of those given. */
  ghost predicate IsNew(held: seq<Fact>, facts: seq<Fact>, i: nat)
    requires i < |facts|
  {
    && (forall k :: 0 <= k < |held| ==> !Agrees(held[k], facts[i]))
    && (forall k :: 0 <= k < i ==> !Agrees(facts[k], facts[i]))
  }

  /** As given, but for the number and, when it has no source, the one given for all. */
  predicate IsNumbered(f: Fact, number: nat, source: string, g: Fact) {
    && Agrees(g, f) && g.scope == f.scope && g.kb == f.kb && g.byAgent == f.byAgent
    && g.id == Exact(number) && g.source == (if f.source == "" then source else f.source)
  }

  /** The new facts are those at `at`, numbered on from `next`. */
  ghost predicate FreshAt(held: seq<Fact>, facts: seq<Fact>, source: string, next: nat, fresh_: seq<Fact>, at: seq<nat>) {
    && Rising(at) && |fresh_| == |at|
    && (forall j :: 0 <= j < |at| ==>
          at[j] < |facts| && IsNew(held, facts, at[j]) && IsNumbered(facts[at[j]], next + j, source, fresh_[j]))
    && (forall i: nat :: i < |facts| && IsNew(held, facts, i) ==> i in at)
  }

  lemma FreshNone(held: seq<Fact>, source: string, next: nat)
    ensures FreshAt(held, [], source, next, [], [])
  {
  }

  lemma NewIsPrefix(held: seq<Fact>, front: seq<Fact>, f: Fact, i: nat)
    requires i < |front|
    ensures IsNew(held, front + [f], i) <==> IsNew(held, front, i)
  {
    var facts := front + [f];
    assert forall k :: 0 <= k < |front| ==> facts[k] == front[k];
  }

  lemma FreshKeeps(held: seq<Fact>, front: seq<Fact>, f: Fact, source: string, next: nat, fresh_: seq<Fact>, at: seq<nat>)
    requires FreshAt(held, front, source, next, fresh_, at) && !IsNew(held, front + [f], |front|)
    ensures FreshAt(held, front + [f], source, next, fresh_, at)
  {
    var facts := front + [f];
    forall i: nat | i < |front|
      ensures IsNew(held, facts, i) <==> IsNew(held, front, i)
      ensures facts[i] == front[i]
    {
      NewIsPrefix(held, front, f, i);
    }
    assert forall i: nat :: i < |facts| && IsNew(held, facts, i) ==> i < |front|;
  }

  lemma FreshOneMore(held: seq<Fact>, front: seq<Fact>, f: Fact, source: string, next: nat, fresh_: seq<Fact>, at: seq<nat>, g: Fact)
    requires FreshAt(held, front, source, next, fresh_, at) && IsNew(held, front + [f], |front|)
    requires IsNumbered(f, next + |fresh_|, source, g)
    ensures FreshAt(held, front + [f], source, next, fresh_ + [g], at + [|front|])
  {
    var facts := front + [f];
    var more: seq<nat> := at + [|front|];
    forall i: nat | i < |front|
      ensures IsNew(held, facts, i) <==> IsNew(held, front, i)
      ensures facts[i] == front[i]
    {
      NewIsPrefix(held, front, f, i);
    }
    assert more[|at|] == |front|;
    forall i: nat | i < |facts| && IsNew(held, facts, i)
      ensures i in more
    {
      if i < |front| {
        var j :| 0 <= j < |at| && at[j] == i;
        assert more[j] == i;
      }
    }
  }

  /** A fact is known, to what is held and what was new before it, unless it is new. */
  lemma KnownOrNew(held: seq<Fact>, front: seq<Fact>, f: Fact, source: string)
    ensures Known(Numbered(held, front, source).held, f).None? <==> IsNew(held, front + [f], |front|)
  {
    var k := Known(Numbered(held, front, source).held, f);
    if k.None? {
      UnknownIsNew(held, front, f, source);
    } else {
      KnownIsNotNew(held, front, f, source, k.value);
    }
  }

  lemma KnownIsNotNew(held: seq<Fact>, front: seq<Fact>, f: Fact, source: string, p: nat)
    requires var n := Numbered(held, front, source); p < |n.held| && Same(n.held[p], f)
    ensures !IsNew(held, front + [f], |front|)
  {
    HeldComesFrom(held, front, source, p);
    if p >= |held| {
      var k :| 0 <= k < |front| && Agrees(Numbered(held, front, source).held[p], front[k]);
      assert (front + [f])[k] == front[k];
    }
  }

  lemma UnknownIsNew(held: seq<Fact>, front: seq<Fact>, f: Fact, source: string)
    requires Known(Numbered(held, front, source).held, f).None?
    ensures IsNew(held, front + [f], |front|)
  {
    var all := Numbered(held, front, source).held;
    FreshIds(held, front, source);
    forall k | 0 <= k < |held|
      ensures !Agrees(held[k], f)
    {
      assert all[k] == held[k] && !Same(all[k], f);
    }
    forall k | 0 <= k < |front|
      ensures !Agrees((front + [f])[k], f)
    {
      OutIsKnown(held, front, source, k);
      var p := Known(all, front[k]).value;
      assert Same(all[p], front[k]) && !Same(all[p], f);
    }
  }

  /** What is held in the end was held before or says the same as one given. */
  lemma {:induction false} HeldComesFrom(held: seq<Fact>, facts: seq<Fact>, source: string, p: nat)
    requires p < |Numbered(held, facts, source).held|
    ensures |held| <= |Numbered(held, facts, source).held|
    ensures if p < |held| then Numbered(held, facts, source).held[p] == held[p]
            else exists k :: 0 <= k < |facts| && Agrees(Numbered(held, facts, source).held[p], facts[k])
  {
    if facts != [] {
      var front, f := facts[..|facts| - 1], facts[|facts| - 1];
      var n := Numbered(held, front, source);
      FreshIds(held, front, source);
      if p < |n.held| {
        HeldComesFrom(held, front, source, p);
        if k :| p >= |held| && 0 <= k < |front| && Agrees(n.held[p], front[k]) {
          assert facts[k] == front[k];
        }
      }
    }
  }

  lemma NumberedIsNumbered(f: Fact, id: nat, source: string)
    ensures IsNumbered(f, id, source, WithId(f, id, source))
  {
  }

  lemma NextNumber(held: seq<Fact>, facts: seq<Fact>, source: string)
    ensures var n := Numbered(held, facts, source); NextId(n.held) == NextId(held) + |n.fresh_|
  {
    FreshIds(held, facts, source);
  }

  lemma {:induction false} FreshSnoc(held: seq<Fact>, front: seq<Fact>, f: Fact, source: string)
    ensures var n, more := Numbered(held, front, source), Numbered(held, front + [f], source).fresh_;
            if IsNew(held, front + [f], |front|)
            then more == n.fresh_ + [WithId(f, NextId(held) + |n.fresh_|, source)] else more == n.fresh_
  {
    NumberedSnoc(held, front, f, source);
    NextNumber(held, front, source);
    KnownOrNew(held, front, f, source);
  }

  lemma FreshOnward(held: seq<Fact>, front: seq<Fact>, f: Fact, source: string, next: nat, fresh_: seq<Fact>, more: seq<Fact>,
                    at: seq<nat>) returns (at': seq<nat>)
    requires FreshAt(held, front, source, next, fresh_, at)
    requires if IsNew(held, front + [f], |front|) then more == fresh_ + [WithId(f, next + |fresh_|, source)] else more == fresh_
    ensures FreshAt(held, front + [f], source, next, more, at')
  {
    if IsNew(held, front + [f], |front|) {
      at' := at + [|front|];
      NumberedIsNumbered(f, next + |fresh_|, source);
      FreshOneMore(held, front, f, source, next, fresh_, at, WithId(f, next + |fresh_|, source));
    } else {
      at' := at;
      FreshKeeps(held, front, f, source, next, fresh_, at);
    }
  }

  lemma {:induction false} FreshAre(held: seq<Fact>, facts: seq<Fact>, source: string, next: nat, fresh_: seq<Fact>) returns (at: seq<nat>)
    requires next == NextId(held) && fresh_ == Numbered(held, facts, source).fresh_
    ensures FreshAt(held, facts, source, next, fresh_, at)
  {
    if facts == [] {
      at := [];
    } else {
      var front, f := facts[..|facts| - 1], facts[|facts| - 1];
      var before := Numbered(held, front, source).fresh_;
      assert facts == front + [f];
      FreshSnoc(held, front, f, source);
      at := FreshAre(held, front, source, next, before);
      at := FreshOnward(held, front, f, source, next, before, fresh_, at);
    }
  }

  /** The host's append: of the facts given, those are new that say what no fact held and none
      given before them says. They get the numbers after the highest held, in order, and are
      otherwise kept as given, with a source if they had none. What comes back for each is the
      first fact held by then that says the same. */
  lemma HostAppends(held: seq<Fact>, facts: seq<Fact>, source: string)
    ensures var n, next := Numbered(held, facts, source), NextId(held);
            && IsAboveAll(held, next)
            && (exists at :: FreshAt(held, facts, source, next, n.fresh_, at))
            && n.held == held + n.fresh_ && |n.out| == |facts|
            && forall i :: 0 <= i < |facts| ==> IsFirstLike(n.held, facts[i], n.out[i])
  {
    var n := Numbered(held, facts, source);
    NextIsAbove(held);
    var at := FreshAre(held, facts, source, NextId(held), Numbered(held, facts, source).fresh_);
    FreshIds(held, facts, source);
    OutLength(held, facts, source);
    forall i | 0 <= i < |facts|
      ensures IsFirstLike(n.held, facts[i], n.out[i])
    {
      OutIsKnown(held, facts, source, i);
      FirstLike(n.held, facts[i]);
    }
  }

  /** It is the first of those held that says the same as the fact. */
  ghost predicate IsFirstLike(held: seq<Fact>, f: Fact, g: Fact) {
    exists p :: 0 <= p < |held| && g == held[p] && Agrees(g, f) && forall q :: 0 <= q < p ==> !Agrees(held[q], f)
  }

  lemma FirstLike(held: seq<Fact>, f: Fact)
    requires Known(held, f).Some?
    ensures IsFirstLike(held, f, held[Known(held, f).value])
  {
    var p := Known(held, f).value;
    assert Agrees(held[p], f) && forall q :: 0 <= q < p ==> !Agrees(held[q], f);
  }

  lemma NoneNew(held: seq<Fact>, facts: seq<Fact>, source: string)
    ensures Numbered(held, facts, source).fresh_ == [] <==> forall i :: 0 <= i < |facts| ==> !IsNew(held, facts, i)
  {
    var at := FreshAre(held, facts, source, NextId(held), Numbered(held, facts, source).fresh_);
    if i :| 0 <= i < |facts| && IsNew(held, facts, i) {
      assert i in at;
    }
    if at != [] {
      assert IsNew(held, facts, at[0]);
    }
  }

  /** It writes the new facts at the end, each with its value as it reads back; unless a line of
      the file is JSON but no object, or a new fact needs a number and some line's id is neither
      text nor false: then it raises and writes nothing. */
  lemma HostWrites(lines: seq<Line>, facts: seq<Fact>, source: string)
    ensures var held, after := Read(lines), Applied(lines, HostAdd(facts, source));
            && Picked(lines, FactOn(), held)
            && (AddRaises(lines, facts, source) <==>
                || (exists i :: 0 <= i < |lines| && lines[i].NoObject?)
                || (exists i, k :: 0 <= i < |lines| && lines[i].BadId? && 0 <= k < |facts| && IsNew(held, facts, k)))
            && (AddRaises(lines, facts, source) ==> after == lines)
            && (!AddRaises(lines, facts, source) ==> IsWritten(lines, Numbered(held, facts, source).fresh_, after))
  {
    ReadPicked(lines);
    NoneNew(Read(lines), facts, source);
  }

  /** The lines are followed by these facts, as they will read back. */
  ghost predicate IsWritten(lines: seq<Line>, fresh_: seq<Fact>, after: seq<Line>) {
    && |after| == |lines| + |fresh_| && after[..|lines|] == lines
    && forall j :: 0 <= j < |fresh_| ==>
         && after[|lines| + j].Entry? && ReadsBackAs(fresh_[j].value, after[|lines| + j].fact.value)
         && after[|lines| + j].fact == fresh_[j].(value := after[|lines| + j].fact.value)
  }
}
