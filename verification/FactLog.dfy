/**
 A session's facts, appended to one file by two writers: the host's `FactLog.add` and the
 sandbox's `cmd_fact`. Each locks the file, reads it, numbers past the highest id in it,
 and appends; so a run of both is a sequence of whole appends.
 */
module FactLog {
  import opened Base

  /** A value that reads back from JSON as it was written, or as another one. */
  datatype Value = Json(text: string) | Lossy(text: string, back: string)

  function ReadBack(v: Value): Value {
    match v case Json(_) => v case Lossy(_, back) => Json(back)
  }

  /** An id `F<n>`, or `F<n>` with a line end after it, which the host's pattern takes for one
      and the agent's does not; or no id of either form. */
  datatype FactId = NoId | Exact(number: nat) | Ended(number: nat)

  datatype Fact = Fact(
    subject: string, key: string, value: Value, statement: string, scope: string,
    kb: seq<string>, byAgent: bool, source: string, id: FactId)

  /** A line of the file: a fact; a fact whose id is neither text nor false (7, say, where 0,
      `false` and `[]` are as good as none); another JSON object; JSON that is no object; or no
      JSON at all. */
  datatype Line = Entry(fact: Fact) | BadId(fact: Fact) | Stray(id: Option<nat>) | NoObject | Junk

  predicate Same(a: Fact, b: Fact) {
    a.subject == b.subject && a.key == b.key && a.value == b.value && a.statement == b.statement
  }

  /** What the host takes an id's number to be. */
  function IdOf(id: FactId): nat {
    match id case NoId => 0 case Exact(n) => n case Ended(n) => n
  }

  // --------------------------------------------------------------------------- the host

  /** Reading the file raises on JSON that is no object, and skips what else is no fact. */
  predicate Readable(lines: seq<Line>) {
    forall i :: 0 <= i < |lines| ==> !lines[i].NoObject?
  }

  /** Finding the highest id raises on one that is neither text nor false. */
  predicate HasBadId(lines: seq<Line>) {
    exists i :: 0 <= i < |lines| && lines[i].BadId?
  }

  /** The facts of one line: an id that is no text is no `F<n>`. */
  function Row(l: Line): seq<Fact> {
    match l
    case Entry(f) => [f]
    case BadId(f) => [f.(id := NoId)]
    case _ => []
  }

  /** The facts in the file, skipping what is not one. */
  function Read(lines: seq<Line>): seq<Fact> {
    if lines == [] then [] else Read(lines[..|lines| - 1]) + Row(lines[|lines| - 1])
  }

  /** The highest id, 0 when there is none. */
  function Top(facts: seq<Fact>): nat {
    if facts == [] then 0 else Max(Top(facts[..|facts| - 1]), IdOf(facts[|facts| - 1].id))
  }

  /** One past the highest id. */
  function NextId(facts: seq<Fact>): nat {
    Top(facts) + 1
  }

  /** The first fact recorded that is the same. */
  function Known(facts: seq<Fact>, f: Fact): (i: Option<nat>)
    ensures i.Some? ==> i.value < |facts| && Same(facts[i.value], f)
    ensures i.Some? ==> forall k :: 0 <= k < i.value ==> !Same(facts[k], f)
    ensures i.None? ==> forall k :: 0 <= k < |facts| ==> !Same(facts[k], f)
  {
    if facts == [] then None
    else
      var last := |facts| - 1;
      var i := Known(facts[..last], f);
      if i.Some? then i else if Same(facts[last], f) then Some(last) else None
  }

  function WithId(f: Fact, id: nat, source: string): Fact {
    f.(id := Exact(id), source := if f.source != "" then f.source else source)
  }

  /** The facts held, what is returned for each fact given, and what is new. */
  datatype Numbering = Numbering(held: seq<Fact>, out: seq<Fact>, fresh_: seq<Fact>)

  function Numbered(held: seq<Fact>, facts: seq<Fact>, source: string): Numbering {
    if facts == [] then Numbering(held, [], [])
    else
      var f := facts[|facts| - 1];
      var n := Numbered(held, facts[..|facts| - 1], source);
      var i := Known(n.held, f);
      if i.Some? then n.(out := n.out + [n.held[i.value]])
      else
        var f' := WithId(f, NextId(n.held), source);
        Numbering(n.held + [f'], n.out + [f'], n.fresh_ + [f'])
  }

  /** The lines written for these facts, as they will read back. */
  function Written(facts: seq<Fact>): (r: seq<Line>)
    ensures |r| == |facts|
  {
    seq(|facts|, i requires 0 <= i < |facts| => Entry(facts[i].(value := ReadBack(facts[i].value))))
  }

  class FactsFile {
    var lines: seq<Line>
    constructor ()
      ensures lines == []
    {
      lines := [];
    }
  }

  /** Adding raises: the file cannot be read, or a new fact needs an id and none is found. */
  predicate AddRaises(lines: seq<Line>, facts: seq<Fact>, source: string) {
    !Readable(lines) || (HasBadId(lines) && Numbered(Read(lines), facts, source).fresh_ != [])
  }

  class HostLog {
    const file: FactsFile
    var facts: seq<Fact>

    constructor (file: FactsFile)
      requires Readable(file.lines)
      ensures this.file == file && facts == Read(file.lines)
    {
      this.file := file;
      facts := Read(file.lines);
    }

    /** Number and save facts, returning each as recorded: one whole append, under the lock.
        None when it raises, and then nothing is written. */
    method Add(facts: seq<Fact>, source: string) returns (out: Option<seq<Fact>>)
      modifies this, file
      ensures out.None? <==> AddRaises(old(file.lines), facts, source)
      ensures out.None? ==> file.lines == old(file.lines)
      ensures out.Some? ==> var n := Numbered(Read(old(file.lines)), facts, source);
                out.value == n.out && this.facts == n.held && file.lines == old(file.lines) + Written(n.fresh_)
    {
      if !Readable(file.lines) {
        return None;
      }
      this.facts := Read(file.lines);
      ghost var held := this.facts;
      var recorded: seq<Fact>, new_: seq<Fact> := [], [];
      for i := 0 to |facts|
        invariant Numbering(this.facts, recorded, new_) == Numbered(held, facts[..i], source)
        invariant file.lines == old(file.lines) && (HasBadId(file.lines) ==> new_ == [])
      {
        assert facts[..i + 1][..i] == facts[..i];
        var known := Known(this.facts, facts[i]);
        if known.Some? {
          recorded := recorded + [this.facts[known.value]];
        } else {
          if HasBadId(file.lines) {
            FreshStays(held, facts, i + 1, source);
            return None;
          }
          var f := WithId(facts[i], NextId(this.facts), source);
          this.facts := this.facts + [f];
          new_ := new_ + [f];
          recorded := recorded + [f];
        }
      }
      assert facts[..|facts|] == facts;
      file.lines := file.lines + Written(new_);
      return Some(recorded);
    }
  }

  /** Opening the log: none when it raises. */
  method OpenLog(file: FactsFile) returns (log: HostLog?)
    ensures log == null <==> !Readable(file.lines)
    ensures log != null ==> fresh(log) && log.file == file && log.facts == Read(file.lines)
  {
    if !Readable(file.lines) {
      return null;
    }
    log := new HostLog(file);
  }

  lemma {:induction false} FreshStays(held: seq<Fact>, facts: seq<Fact>, n: nat, source: string)
    requires n <= |facts| && Numbered(held, facts[..n], source).fresh_ != []
    ensures Numbered(held, facts, source).fresh_ != []
  {
    if n < |facts| {
      assert facts[..|facts| - 1][..n] == facts[..n];
      FreshStays(held, facts[..|facts| - 1], n, source);
    } else {
      assert facts[..n] == facts;
    }
  }

  // ------------------------------------------------------------------------ the sandbox

  /** The number the agent finds on a line. */
  function LineId(l: Line): nat {
    Max(ExactId(l), StrayId(l))
  }

  function ExactId(l: Line): nat {
    if l.Entry? && l.fact.id.Exact? then l.fact.id.number else 0
  }

  function EndedId(l: Line): nat {
    if l.Entry? && l.fact.id.Ended? then l.fact.id.number else 0
  }

  /** The id of a JSON object that is no fact. */
  function StrayId(l: Line): nat {
    if l.Stray? && l.id.Some? then l.id.value else 0
  }

  /** One past the highest id of any JSON object in the file. */
  function NextFactId(lines: seq<Line>): nat {
    if lines == [] then 1 else Max(NextFactId(lines[..|lines| - 1]), LineId(lines[|lines| - 1]) + 1)
  }

  function Recorded(lines: seq<Line>, f: Fact): seq<Line> {
    lines + [Entry(f.(id := Exact(NextFactId(lines)), byAgent := true, value := ReadBack(f.value)))]
  }

  method RecordFact(file: FactsFile, f: Fact) returns (id: nat)
    modifies file
    ensures file.lines == Recorded(old(file.lines), f) && id == NextFactId(old(file.lines))
  {
    id := NextFactId(file.lines);
    file.lines := file.lines + [Entry(f.(id := Exact(id), byAgent := true, value := ReadBack(f.value)))];
  }

  // ----------------------------------------------------------------------- any interleaving

  /** One locked append by either writer. */
  datatype Op = HostAdd(facts: seq<Fact>, source: string) | SandboxFact(fact: Fact)

  function Applied(lines: seq<Line>, op: Op): seq<Line> {
    match op
    case HostAdd(facts, source) =>
      if AddRaises(lines, facts, source) then lines else lines + Written(Numbered(Read(lines), facts, source).fresh_)
    case SandboxFact(f) => Recorded(lines, f)
  }

  function After(lines: seq<Line>, ops: seq<Op>): seq<Line> {
    if ops == [] then lines else Applied(After(lines, ops[..|ops| - 1]), ops[|ops| - 1])
  }

  /** Every line is a numbered fact that reads back as itself, and ids strictly increase. */
  ghost predicate Tidy(lines: seq<Line>) {
    && (forall i :: 0 <= i < |lines| ==>
          lines[i].Entry? && lines[i].fact.id.Exact? && lines[i].fact.id.number > 0 && lines[i].fact.value.Json?)
    && (forall i, j :: 0 <= i < j < |lines| ==> IdOf(lines[i].fact.id) < IdOf(lines[j].fact.id))
  }

  lemma {:induction false} ReadTidy(lines: seq<Line>)
    requires forall i :: 0 <= i < |lines| ==> lines[i].Entry?
    ensures |Read(lines)| == |lines| && forall i :: 0 <= i < |lines| ==> Read(lines)[i] == lines[i].fact
  {
    if lines != [] {
      ReadTidy(lines[..|lines| - 1]);
    }
  }

  lemma ReadSnoc(lines: seq<Line>, l: Line)
    ensures Read(lines + [l]) == Read(lines) + Row(l)
  {
    assert (lines + [l])[..|lines|] == lines;
  }

  lemma {:induction false} ReadMore(lines: seq<Line>, more: seq<Line>)
    ensures Read(lines + more) == Read(lines) + Read(more)
  {
    if more == [] {
      assert lines + more == lines && Read(lines) + [] == Read(lines);
    } else {
      var front, last := more[..|more| - 1], more[|more| - 1];
      ReadMore(lines, front);
      ReadSnoc(lines + front, last);
      FrontAndLast(more);
      Associative(lines, front, [last]);
      Associative(Read(lines), Read(front), Row(last));
    }
  }

  lemma TopAppend(facts: seq<Fact>, f: Fact)
    ensures Top(facts + [f]) == Max(Top(facts), IdOf(f.id))
  {
    assert (facts + [f])[..|facts|] == facts;
  }

  lemma NumberedSnoc(held: seq<Fact>, facts: seq<Fact>, f: Fact, source: string)
    ensures var n := Numbered(held, facts, source);
            var f' := WithId(f, NextId(n.held), source);
            Numbered(held, facts + [f], source) ==
              if Known(n.held, f).Some? then n.(out := n.out + [n.held[Known(n.held, f).value]])
              else Numbering(n.held + [f'], n.out + [f'], n.fresh_ + [f'])
  {
    assert (facts + [f])[..|facts|] == facts;
  }

  /** The facts are numbered on from `top`, one by one. */
  ghost predicate RunsOn(fresh_: seq<Fact>, top: nat) {
    forall i :: 0 <= i < |fresh_| ==> fresh_[i].id == Exact(top + 1 + i)
  }

  ghost predicate NumbersOn(held: seq<Fact>, n: Numbering) {
    n.held == held + n.fresh_ && Top(n.held) == Top(held) + |n.fresh_| && RunsOn(n.fresh_, Top(held))
  }

  lemma RunsOnStep(fresh_: seq<Fact>, top: nat, f: Fact)
    requires RunsOn(fresh_, top) && f.id == Exact(top + 1 + |fresh_|)
    ensures RunsOn(fresh_ + [f], top)
  {
  }

  lemma {:induction false} NumbersOnStep(held: seq<Fact>, n: Numbering, f: Fact, out: seq<Fact>)
    requires NumbersOn(held, n) && f.id == Exact(NextId(n.held))
    ensures NumbersOn(held, Numbering(n.held + [f], out, n.fresh_ + [f]))
  {
    NextIsTop(n.held, f);
    RunsOnStep(n.fresh_, Top(held), f);
    Associative(held, n.fresh_, [f]);
  }

  lemma NextIsTop(facts: seq<Fact>, f: Fact)
    requires f.id == Exact(NextId(facts))
    ensures Top(facts + [f]) == Top(facts) + 1
  {
    TopAppend(facts, f);
  }

  /** New ids run on from the highest held, one by one. */
  lemma {:induction false} FreshIds(held: seq<Fact>, facts: seq<Fact>, source: string)
    ensures NumbersOn(held, Numbered(held, facts, source))
  {
    if facts == [] {
      assert held + [] == held;
    } else {
      var front, f := facts[..|facts| - 1], facts[|facts| - 1];
      FreshIds(held, front, source);
      var n := Numbered(held, front, source);
      if Known(n.held, f).None? {
        var f' := WithId(f, NextId(n.held), source);
        NumbersOnStep(held, n, f', n.out + [f']);
      }
    }
  }

  /** The id of the last line, which in a tidy file is the highest. */
  function LastId(lines: seq<Line>): nat {
    if lines != [] && lines[|lines| - 1].Entry? then IdOf(lines[|lines| - 1].fact.id) else 0
  }

  lemma TidyFront(lines: seq<Line>)
    requires Tidy(lines) && lines != []
    ensures Tidy(lines[..|lines| - 1]) && LastId(lines[..|lines| - 1]) < LastId(lines)
  {
    var front := lines[..|lines| - 1];
    assert front != [] ==> front[|front| - 1] == lines[|lines| - 2];
  }

  lemma {:induction false} TopOfTidy(lines: seq<Line>)
    requires Tidy(lines)
    ensures Top(Read(lines)) == LastId(lines)
  {
    if lines != [] {
      TidyFront(lines);
      TopOfTidy(lines[..|lines| - 1]);
      TopAppend(Read(lines[..|lines| - 1]), lines[|lines| - 1].fact);
    }
  }

  lemma TidySnoc(lines: seq<Line>, f: Fact)
    requires Tidy(lines) && f.value.Json? && f.id.Exact? && f.id.number > LastId(lines)
    ensures Tidy(lines + [Entry(f)]) && LastId(lines + [Entry(f)]) == f.id.number
  {
    var all := lines + [Entry(f)];
    forall i | 0 <= i < |lines|
      ensures all[i] == lines[i] && IdOf(lines[i].fact.id) < f.id.number
    {
    }
  }

  lemma WrittenSnoc(front: seq<Fact>, f: Fact)
    ensures Written(front + [f]) == Written(front) + [Entry(f.(value := ReadBack(f.value)))]
  {
  }

  lemma {:induction false} TidyMore(lines: seq<Line>, more: seq<Fact>)
    requires Tidy(lines) && RunsOn(more, LastId(lines))
    ensures Tidy(lines + Written(more)) && LastId(lines + Written(more)) == LastId(lines) + |more|
  {
    if more == [] {
      assert lines + Written(more) == lines;
    } else {
      var front, last := more[..|more| - 1], more[|more| - 1];
      var f := last.(value := ReadBack(last.value));
      TidyMore(lines, front);
      TidySnoc(lines + Written(front), f);
      FrontAndLast(more);
      WrittenSnoc(front, last);
      Associative(lines, Written(front), [Entry(f)]);
    }
  }

  lemma HostAddTidy(lines: seq<Line>, facts: seq<Fact>, source: string)
    requires Tidy(lines)
    ensures Tidy(Applied(lines, HostAdd(facts, source)))
  {
    TidyNeverRaises(lines, facts, source);
    FreshIds(Read(lines), facts, source);
    TopOfTidy(lines);
    TidyMore(lines, Numbered(Read(lines), facts, source).fresh_);
  }

  lemma SandboxTidy(lines: seq<Line>, f: Fact)
    requires Tidy(lines)
    ensures Tidy(Recorded(lines, f))
  {
    TidyAgrees(lines);
    TopOfTidy(lines);
    TidySnoc(lines, f.(id := Exact(NextFactId(lines)), byAgent := true, value := ReadBack(f.value)));
  }

  lemma AppliedTidy(lines: seq<Line>, op: Op)
    requires Tidy(lines)
    ensures Tidy(Applied(lines, op)) && lines <= Applied(lines, op)
  {
    match op
    case HostAdd(facts, source) => HostAddTidy(lines, facts, source);
    case SandboxFact(f) => SandboxTidy(lines, f);
  }

  lemma TidyNeverRaises(lines: seq<Line>, facts: seq<Fact>, source: string)
    requires Tidy(lines)
    ensures Readable(lines) && !HasBadId(lines) && !AddRaises(lines, facts, source)
  {
    forall i | 0 <= i < |lines|
      ensures lines[i].Entry?
    {
    }
  }

  lemma {:induction false} OnlyExact(lines: seq<Line>)
    requires forall i :: 0 <= i < |lines| ==> lines[i].Entry? && lines[i].fact.id.Exact?
    ensures Highest(lines, StrayId) == 0 && Highest(lines, EndedId) == 0
  {
    if lines != [] {
      OnlyExact(lines[..|lines| - 1]);
    }
  }

  /** However the two writers interleave: nothing written is ever changed, ids strictly
      increase down the file, and the two ways of finding the next id agree. */
  lemma {:induction false} EveryInterleaving(lines: seq<Line>, ops: seq<Op>)
    requires Tidy(lines)
    ensures Tidy(After(lines, ops)) && lines <= After(lines, ops)
    ensures HostNextId(After(lines, ops)) == Some(NextFactId(After(lines, ops)))
  {
    if ops != [] {
      var before := After(lines, ops[..|ops| - 1]);
      EveryInterleaving(lines, ops[..|ops| - 1]);
      AppliedTidy(before, ops[|ops| - 1]);
      PrefixTransitive(lines, before, After(lines, ops));
    }
    TidyAgrees(After(lines, ops));
  }

  lemma PrefixTransitive<T>(a: seq<T>, b: seq<T>, c: seq<T>)
    requires a <= b <= c
    ensures a <= c
  {
  }

  lemma TidyAgrees(lines: seq<Line>)
    requires Tidy(lines)
    ensures HostNextId(lines) == Some(NextFactId(lines))
  {
    TidyNeverRaises(lines, [], "");
    OnlyExact(lines);
    NextIdsAgreeExactly(lines);
  }

  lemma IdsUnique(lines: seq<Line>, i: nat, j: nat)
    requires Tidy(lines) && i < |lines| && j < |lines| && lines[i].fact.id == lines[j].fact.id
    ensures i == j
  {
  }

  /** The highest of the numbers found on the lines. */
  function Highest(lines: seq<Line>, number: Line -> nat): nat {
    if lines == [] then 0 else Max(Highest(lines[..|lines| - 1], number), number(lines[|lines| - 1]))
  }

  /** What the host finds for the next id, if it finds any. */
  function HostNextId(lines: seq<Line>): Option<nat> {
    if Readable(lines) && !HasBadId(lines) then Some(NextId(Read(lines))) else None
  }

  lemma {:induction false} NextIsAboveAll(lines: seq<Line>)
    ensures NextFactId(lines) == Max(Highest(lines, ExactId), Highest(lines, StrayId)) + 1
  {
    if lines != [] {
      NextIsAboveAll(lines[..|lines| - 1]);
    }
  }

  lemma {:induction false} TopIsAboveAll(lines: seq<Line>)
    ensures Top(Read(lines)) == Max(Highest(lines, ExactId), Highest(lines, EndedId))
  {
    if lines != [] {
      TopIsAboveAll(lines[..|lines| - 1]);
      TopOfRow(Read(lines[..|lines| - 1]), lines[|lines| - 1]);
    }
  }

  lemma TopOfRow(front: seq<Fact>, l: Line)
    ensures Top(front + Row(l)) == Max(Top(front), Max(ExactId(l), EndedId(l)))
  {
    if Row(l) == [] {
      assert front + Row(l) == front;
    } else {
      TopAppend(front, Row(l)[0]);
      assert front + Row(l) == front + [Row(l)[0]];
    }
  }

  /** The two agree exactly when the host can read the file and its ids, and no fact's id
      with a line end and no other JSON object's id is above those of all other facts, unless
      the highest of both is the same. Otherwise the host stops, or one of the two would hand
      out a lower id than the other. */
  lemma {:induction false} NextIdsAgreeExactly(lines: seq<Line>)
    ensures var exact, ended, stray := Highest(lines, ExactId), Highest(lines, EndedId), Highest(lines, StrayId);
            HostNextId(lines) == Some(NextFactId(lines))
            <==> Readable(lines) && !HasBadId(lines) && ((ended <= exact && stray <= exact) || ended == stray)
  {
    NextIsAboveAll(lines);
    TopIsAboveAll(lines);
    SameNext(Readable(lines) && !HasBadId(lines), Highest(lines, ExactId), Highest(lines, EndedId), Highest(lines, StrayId));
  }

  /** A fact with the id `F<n>` and a line end: the host goes on from it, the agent from 1. */
  lemma EndedIdDisagrees(f: Fact)
    requires f.id.Ended? && f.id.number > 0
    ensures HostNextId([Entry(f)]) == Some(f.id.number + 1) && NextFactId([Entry(f)]) == 1
  {
    var lines := [Entry(f)];
    assert lines[..0] == [] && Read(lines) == [] + [f];
    TopAppend([], f);
  }

  lemma SameNext(readable: bool, exact: nat, ended: nat, stray: nat)
    ensures (if readable then Some(Max(exact, ended) + 1) else None) == Some(Max(exact, stray) + 1)
            <==> readable && ((ended <= exact && stray <= exact) || ended == stray)
  {
  }

  /** A file the host cannot read stays so, whatever is appended; one the writers kept never
      gets so. */
  lemma {:induction false} OpensExactly(lines: seq<Line>, ops: seq<Op>)
    ensures !Readable(lines) ==> !Readable(After(lines, ops))
    ensures Tidy(lines) ==> Readable(After(lines, ops))
  {
    if Tidy(lines) {
      EveryInterleaving(lines, ops);
      TidyNeverRaises(After(lines, ops), [], "");
    }
    if ops != [] {
      OpensExactly(lines, ops[..|ops| - 1]);
      var before := After(lines, ops[..|ops| - 1]);
      if i :| 0 <= i < |before| && before[i].NoObject? {
        assert After(lines, ops)[i] == before[i];
      }
    }
  }

  // -------------------------------------------------------------------- adding facts again

  lemma KnownStays(facts: seq<Fact>, more: seq<Fact>, f: Fact)
    requires Known(facts, f).Some?
    ensures Known(facts + more, f) == Known(facts, f)
  {
    var i, j := Known(facts, f).value, Known(facts + more, f);
    assert (facts + more)[i] == facts[i];
    assert j.Some?;
    assert forall k :: 0 <= k < |facts| ==> (facts + more)[k] == facts[k];
  }

  /** What comes back for a fact is the first one held that is the same. */
  lemma {:induction false} OutIsKnown(held: seq<Fact>, facts: seq<Fact>, source: string, i: nat)
    requires i < |facts|
    ensures var n := Numbered(held, facts, source);
            |n.out| == |facts| && Known(n.held, facts[i]).Some? && n.out[i] == n.held[Known(n.held, facts[i]).value]
  {
    var front, f := facts[..|facts| - 1], facts[|facts| - 1];
    var n := Numbered(held, front, source);
    var f' := WithId(f, NextId(n.held), source);
    OutLength(held, front, source);
    NumberedSnoc(held, front, f, source);
    assert facts == front + [f];
    if i < |front| {
      OutIsKnown(held, front, source, i);
      KnownStays(n.held, [f'], facts[i]);
    } else if Known(n.held, f).None? {
      KnownNew(n.held, f, f');
    }
  }

  lemma KnownNew(facts: seq<Fact>, f: Fact, f': Fact)
    requires Known(facts, f).None? && Same(f', f)
    ensures Known(facts + [f'], f) == Some(|facts|)
  {
    assert (facts + [f'])[..|facts|] == facts;
  }

  lemma {:induction false} OutLength(held: seq<Fact>, facts: seq<Fact>, source: string)
    ensures |Numbered(held, facts, source).out| == |facts|
  {
    if facts != [] {
      OutLength(held, facts[..|facts| - 1], source);
    }
  }

  lemma {:induction false} AllKnown(held: seq<Fact>, facts: seq<Fact>, source: string)
    requires forall i :: 0 <= i < |facts| ==> Known(held, facts[i]).Some?
    ensures var n := Numbered(held, facts, source);
            n.fresh_ == [] && n.held == held && |n.out| == |facts|
            && forall i :: 0 <= i < |facts| ==> n.out[i] == held[Known(held, facts[i]).value]
  {
    if facts != [] {
      AllKnown(held, facts[..|facts| - 1], source);
    }
  }

  ghost predicate RoundTrip(facts: seq<Fact>) {
    forall i :: 0 <= i < |facts| ==> facts[i].value.Json?
  }

  lemma {:induction false} FreshRoundTrip(held: seq<Fact>, facts: seq<Fact>, source: string)
    requires RoundTrip(facts)
    ensures RoundTrip(Numbered(held, facts, source).fresh_)
  {
    if facts != [] {
      FreshRoundTrip(held, facts[..|facts| - 1], source);
    }
  }

  lemma ReadApplied(lines: seq<Line>, facts: seq<Fact>, source: string)
    requires RoundTrip(facts) && !AddRaises(lines, facts, source)
    ensures Read(Applied(lines, HostAdd(facts, source))) == Numbered(Read(lines), facts, source).held
  {
    var n := Numbered(Read(lines), facts, source);
    FreshRoundTrip(Read(lines), facts, source);
    FreshIds(Read(lines), facts, source);
    ReadMore(lines, Written(n.fresh_));
    ReadTidy(Written(n.fresh_));
    assert Read(Written(n.fresh_)) == n.fresh_;
  }

  lemma ReadAppliedMore(lines: seq<Line>, op: Op) returns (more: seq<Fact>)
    ensures Read(Applied(lines, op)) == Read(lines) + more
  {
    var added := Applied(lines, op)[|lines|..];
    assert Applied(lines, op) == lines + added;
    ReadMore(lines, added);
    more := Read(added);
  }

  lemma {:induction false} ReadAfter(lines: seq<Line>, ops: seq<Op>) returns (more: seq<Fact>)
    ensures Read(After(lines, ops)) == Read(lines) + more
  {
    if ops == [] {
      more := [];
    } else {
      var some := ReadAfter(lines, ops[..|ops| - 1]);
      more := ReadAppliedMore(After(lines, ops[..|ops| - 1]), ops[|ops| - 1]);
      more := some + more;
    }
  }

  lemma {:induction false} KeptAll(lines: seq<Line>, ops: seq<Op>, i: nat)
    requires i < |lines|
    ensures i < |After(lines, ops)| && After(lines, ops)[i] == lines[i]
  {
    if ops != [] {
      KeptAll(lines, ops[..|ops| - 1], i);
    }
  }

  lemma {:induction false} RaisingGoesOn(lines: seq<Line>, ops: seq<Op>)
    ensures !Readable(lines) ==> !Readable(After(lines, ops))
    ensures HasBadId(lines) ==> HasBadId(After(lines, ops))
  {
    if i :| 0 <= i < |lines| && lines[i].NoObject? {
      KeptAll(lines, ops, i);
    }
    if i :| 0 <= i < |lines| && lines[i].BadId? {
      KeptAll(lines, ops, i);
    }
  }

  /** Facts that survive JSON, once added and added again at any later time by a host that
      has seen nothing but the file, come back with the ids they had; and nothing is written. */
  lemma AddedAgainIsKnown(lines: seq<Line>, facts: seq<Fact>, source: string, ops: seq<Op>, source': string)
    requires RoundTrip(facts)
    ensures var later := After(Applied(lines, HostAdd(facts, source)), ops);
            && Applied(later, HostAdd(facts, source')) == later
            && (!AddRaises(lines, facts, source)
                ==> Numbered(Read(later), facts, source').out == Numbered(Read(lines), facts, source).out)
  {
    var first := Applied(lines, HostAdd(facts, source));
    if AddRaises(lines, facts, source) {
      RaisingGoesOn(lines, ops);
    } else {
      KnownAgain(lines, facts, source, ops, source');
    }
    var later := After(first, ops);
    assert later + [] == later && Written([]) == [];
  }

  lemma KnownAgain(lines: seq<Line>, facts: seq<Fact>, source: string, ops: seq<Op>, source': string)
    requires RoundTrip(facts) && !AddRaises(lines, facts, source)
    ensures var later := After(Applied(lines, HostAdd(facts, source)), ops);
            var n := Numbered(Read(later), facts, source');
            n.fresh_ == [] && n.out == Numbered(Read(lines), facts, source).out
  {
    var n := Numbered(Read(lines), facts, source);
    var first := Applied(lines, HostAdd(facts, source));
    ReadApplied(lines, facts, source);
    var more := ReadAfter(first, ops);
    var held := Read(After(first, ops));
    OutLength(Read(lines), facts, source);
    forall i | 0 <= i < |facts|
      ensures Known(held, facts[i]).Some? && held[Known(held, facts[i]).value] == n.out[i]
    {
      OutIsKnown(Read(lines), facts, source, i);
      KnownStays(n.held, more, facts[i]);
    }
    AllKnown(held, facts, source');
    assert Numbered(held, facts, source').out == n.out;
  }

  lemma {:induction false} NothingFresh(held: seq<Fact>, facts: seq<Fact>, source: string)
    requires RoundTrip(held) && Numbered(held, facts, source).fresh_ == []
    ensures RoundTrip(facts) && Numbered(held, facts, source).held == held
  {
    if facts != [] {
      NothingFresh(held, facts[..|facts| - 1], source);
      assert Known(held, facts[|facts| - 1]).Some?;
    }
  }

  lemma {:induction false} ReadRoundTrip(lines: seq<Line>)
    requires Tidy(lines)
    ensures RoundTrip(Read(lines))
  {
    ReadTidy(lines);
  }

  /** On a log the writers kept, adding a batch again writes nothing exactly when every
      value in it survives JSON: one that does not is written anew each time. */
  lemma AddedAgainExactly(lines: seq<Line>, facts: seq<Fact>, source: string, ops: seq<Op>, source': string)
    requires Tidy(lines)
    ensures var later := After(Applied(lines, HostAdd(facts, source)), ops);
            Applied(later, HostAdd(facts, source')) == later <==> RoundTrip(facts)
  {
    var later := After(Applied(lines, HostAdd(facts, source)), ops);
    if RoundTrip(facts) {
      AddedAgainIsKnown(lines, facts, source, ops, source');
    } else {
      AppliedTidy(lines, HostAdd(facts, source));
      EveryInterleaving(Applied(lines, HostAdd(facts, source)), ops);
      ReadRoundTrip(later);
      TidyNeverRaises(later, facts, source');
      var n := Numbered(Read(later), facts, source');
      if n.fresh_ == [] {
        NothingFresh(Read(later), facts, source');
        assert false;
      }
      assert |Written(n.fresh_)| > 0;
    }
  }
}
