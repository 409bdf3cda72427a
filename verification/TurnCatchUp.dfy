/**
 A reader that has not given up, and has a retry left if its stream has dropped, can always
 get level with the server, and has then handed out the whole turn.
 */
module TurnCatchUp {
  import opened Base
  import opened Events
  import opened TurnStream
  import opened TurnLimits
  import opened Consume

  /** Moves of the reader alone, one after another from `s`. */
  ghost predicate Moves(cfg: Config, s: System, steps: seq<System>)
    decreases |steps|
  {
    steps != [] ==> ClientStep(cfg, s, steps[0]) && Moves(cfg, steps[0], steps[1..])
  }

  /** Where these moves end. */
  ghost function End(s: System, steps: seq<System>): System {
    if steps == [] then s else Last(steps)
  }

  ghost predicate IsLevel(s: System) {
    s.reader.control == Reading && s.reader.replay == [] && s.tail == |s.history|
  }

  /** It has not given up, nor run out of retries with its stream gone. */
  ghost predicate CanGoOn(s: System) {
    s.reader.control != Finished && (s.reader.control == Broken ==> s.reader.left > 0)
  }

  /** How far it is from taking events again. */
  ghost function Away(c: Control): nat {
    match c case Reading => 0 case Listing => 1 case Opening => 2 case Broken => 3 case Finished => 4
  }

  /** The move to make: what is next to be taken, or the next step of a reopening. */
  lemma NextMove(cfg: Config, start: nat, s: System) returns (s': System)
    requires Sound(s) && Served(cfg, start, s.history) && CanGoOn(s) && !IsLevel(s)
    ensures ClientStep(cfg, s, s') && s'.history == s.history && CanGoOn(s')
    ensures || Away(s'.reader.control) < Away(s.reader.control)
            || (s'.reader.control == s.reader.control == Reading && ToDeliver(s') < ToDeliver(s))
  {
    var r := s.reader;
    match r.control
    case Reading =>
      s' := Delivered(cfg, s);
    case Broken =>
      s' := s.(reader := Attempted(r), closed := Closing(s), waits := s.waits + [r.delay], attempts := s.attempts + 1);
      assert Attempt(s, s');
    case Opening =>
      s' := s.(reader := r.(control := Listing, owned := Some(s.streams)), streams := s.streams + 1, tail := |s.history|);
      assert Open(s, s');
    case Listing =>
      var n := |s.history|;
      s' := s.(reader := Replaying(cfg, r, s.history[..n]), next := MissedFrom(cfg, s.history[..n]));
      assert List(cfg, n, s, s');
  }

  lemma Delivered(cfg: Config, s: System) returns (s': System)
    requires s.reader.control == Reading && !IsLevel(s) && s.tail <= |s.history|
    ensures Deliver(cfg, s, s') && s'.history == s.history && s'.reader.control == Reading && ToDeliver(s') < ToDeliver(s)
  {
    var r := s.reader;
    if r.replay != [] {
      s' := s.(reader := Received(cfg, r, r.replay[0]), next := s.next + 1,
               handed := if IsNew(r, r.replay[0]) then s.handed + [s.next] else s.handed,
               waits := if IsNew(r, r.replay[0]) then [] else s.waits);
    } else {
      var e := s.history[s.tail];
      s' := s.(reader := Received(cfg, r, e), tail := s.tail + 1,
               handed := if IsNew(r, e) then s.handed + [s.tail] else s.handed,
               waits := if IsNew(r, e) then [] else s.waits);
    }
  }

  lemma {:induction false} CatchUp(cfg: Config, start: nat, s: System) returns (steps: seq<System>)
    requires Sound(s) && Served(cfg, start, s.history) && CanGoOn(s)
    ensures Moves(cfg, s, steps) && IsLevel(End(s, steps)) && End(s, steps).history == s.history
    decreases Away(s.reader.control), ToDeliver(s)
  {
    if IsLevel(s) {
      steps := [];
    } else {
      var s' := NextMove(cfg, start, s);
      ClientKeeps(cfg, start, start + 1, s, s');
      var rest := CatchUp(cfg, start, s');
      steps := [s'] + rest;
      assert steps[1..] == rest;
    }
  }

  lemma {:induction false} StuckStays(cfg: Config, s: System, steps: seq<System>)
    requires !CanGoOn(s) && Moves(cfg, s, steps)
    ensures !CanGoOn(End(s, steps))
    decreases |steps|
  {
    if steps != [] {
      StuckStays(cfg, steps[0], steps[1..]);
    }
  }

  /** Some moves of the reader bring it level exactly when it has not given up and, if its
      stream is gone, has a retry left. */
  lemma CatchesUpExactly(cfg: Config, start: nat, s: System)
    requires Sound(s) && Served(cfg, start, s.history)
    ensures (exists steps :: Moves(cfg, s, steps) && IsLevel(End(s, steps))) <==> CanGoOn(s)
  {
    if CanGoOn(s) {
      var steps := CatchUp(cfg, start, s);
    }
    if steps :| Moves(cfg, s, steps) && IsLevel(End(s, steps)) && !CanGoOn(s) {
      StuckStays(cfg, s, steps);
    }
  }

  /** A run goes on with moves of the reader. */
  lemma {:induction false} RunGoesOn(cfg: Config, start: nat, first: nat, run: seq<System>, steps: seq<System>)
    requires IsRun(cfg, first, run) && AllServed(cfg, start, run) && Moves(cfg, Last(run), steps)
    ensures IsRun(cfg, first, run + steps) && AllServed(cfg, start, run + steps)
    ensures Last(run + steps) == End(Last(run), steps)
    decreases |steps|
  {
    if steps == [] {
      assert run + steps == run;
    } else {
      var longer := run + [steps[0]];
      OneMore(cfg, start, first, run, steps[0]);
      RunGoesOn(cfg, start, first, longer, steps[1..]);
      assert run + steps == longer + steps[1..];
    }
  }

  lemma OneMore(cfg: Config, start: nat, first: nat, run: seq<System>, s: System)
    requires IsRun(cfg, first, run) && AllServed(cfg, start, run) && ClientStep(cfg, Last(run), s)
    ensures IsRun(cfg, first, run + [s]) && AllServed(cfg, start, run + [s])
  {
    var longer := run + [s];
    forall i | 0 <= i < |longer| - 1
      ensures Next(cfg, longer[i], longer[i + 1])
    {
      assert i < |run| - 1 ==> longer[i] == run[i] && longer[i + 1] == run[i + 1] && Next(cfg, run[i], run[i + 1]);
    }
    assert s.history == Last(run).history;
  }

  /** However a run has gone so far, as long as the reader has not given up there are moves of
      its own after which it is level with the server and has handed out the whole turn, each
      event once and in order; so the retry budget is all that stands in the way. */
  lemma CanAlwaysCatchUp(cfg: Config, start: nat, first: nat, run: seq<System>) returns (steps: seq<System>)
    requires IsRun(cfg, first, run) && AllServed(cfg, start, run) && CanGoOn(Last(run))
    ensures IsRun(cfg, first, run + steps) && Moves(cfg, Last(run), steps) && IsLevel(Last(run + steps))
    ensures Last(run + steps).history == Last(run).history
    ensures first <= start <= |Last(run).history| ==>
              TurnPart(Last(run + steps).handed, start) == Range(start, |Last(run).history|)
  {
    RunKeeps(cfg, start, first, run);
    steps := CatchUp(cfg, start, Last(run));
    RunGoesOn(cfg, start, first, run, steps);
    if first <= start <= |Last(run).history| {
      CaughtUpHasAll(cfg, start, first, run + steps);
    }
  }

  /** Once the turn is over, what it then has handed out is over as well, and is that turn. */
  lemma CanAlwaysFinish(cfg: Config, start: nat, first: nat, run: seq<System>) returns (steps: seq<System>, events: seq<Event>)
    requires IsRun(cfg, first, run) && AllServed(cfg, start, run) && CanGoOn(Last(run))
    requires first <= start <= |Last(run).history| && Done(Last(run).history[start..])
    requires QuietLeadIn(first, start, Last(run).history)
    ensures IsRun(cfg, first, run + steps) && Moves(cfg, Last(run), steps) && HandsOut(Last(run + steps), events)
    ensures Done(events) && TurnOf(Upto(events)) == TurnOf(Upto(Last(run).history[start..]))
  {
    steps := CanAlwaysCatchUp(cfg, start, first, run);
    var s := Last(run + steps);
    RunGoesOn(cfg, start, first, run, steps);
    RunKeeps(cfg, start, first, run + steps);
    assert forall i :: 0 <= i < |s.handed| ==> s.handed[i] in s.handed;
    events := EventsAt(s.history, s.handed);
    CaughtUpIsDone(cfg, start, first, run + steps, events);
  }
}
