/**
 What bounds the reader of one turn: its retries, the streams it opens, and how long it
 can go on without a new event.
 */
module TurnLimits {
  import opened Base
  import opened TurnStream

  // ------------------------------------------------------------------ the retry budget

  function Pow2(k: nat): nat {
    if k == 0 then 1 else 2 * Pow2(k - 1)
  }

  /** The k-th wait of a streak, in seconds. */
  function Wait(k: nat): nat {
    Min(Pow2(k), 16)
  }

  /** A streak of attempts without a new event never exceeds the budget, waits twice as
      long each time up to the cap, and over a whole turn the attempts are bounded by the
      number of events it handed out. */
  ghost predicate Thrifty(cfg: Config, s: System) {
    && |s.waits| <= cfg.reconnects
    && s.reader.left == cfg.reconnects - |s.waits|
    && s.reader.delay == Wait(|s.waits|)
    && (forall k :: 0 <= k < |s.waits| ==> s.waits[k] == Wait(k))
    && s.attempts <= cfg.reconnects * |s.handed| + |s.waits|
  }

  lemma ThriftyStep(cfg: Config, s: System, s': System)
    requires Thrifty(cfg, s) && Next(cfg, s, s')
    ensures Thrifty(cfg, s')
  {
    assert Wait(|s.waits| + 1) == Min(2 * Wait(|s.waits|), 16);
    assert cfg.reconnects * (|s.handed| + 1) == cfg.reconnects * |s.handed| + cfg.reconnects;
  }

  lemma {:induction false} RetriesBounded(cfg: Config, first: nat, run: seq<System>)
    requires IsRun(cfg, first, run)
    ensures Thrifty(cfg, Last(run))
    ensures Last(run).attempts <= cfg.reconnects * (|Last(run).handed| + 1)
  {
    if |run| > 1 {
      RetriesBounded(cfg, first, run[..|run| - 1]);
      ThriftyStep(cfg, run[|run| - 2], run[|run| - 1]);
    }
    var events := |Last(run).handed|;
    assert cfg.reconnects * (events + 1) == cfg.reconnects * events + cfg.reconnects;
  }

  /** A repeated event, replayed or not, restores nothing. */
  lemma RepeatRestoresNothing(cfg: Config, s: System, s': System)
    requires Sound(s) && Deliver(cfg, s, s') && Head(s) in s.handed
    ensures s'.reader.left == s.reader.left && s'.reader.delay == s.reader.delay
    ensures s'.waits == s.waits && s'.handed == s.handed
  {
    DeliverSound(cfg, s, s');
  }

  // --------------------------------------------------------------- streams are closed once

  /** Every stream reopened so far was closed exactly once, except the one still held. */
  ghost predicate StreamsAccounted(s: System) {
    && NoDup(s.closed)
    && (forall i :: i in s.closed ==> i < s.streams && s.reader.owned != Some(i))
    && (forall i :: 0 <= i < s.streams ==> i in s.closed || s.reader.owned == Some(i))
    && (s.reader.owned.Some? ==> s.reader.owned.value < s.streams)
    && (s.reader.control in {Opening, Finished} ==> s.reader.owned.None?)
  }

  lemma {:induction false} StreamsClosedOnce(cfg: Config, first: nat, run: seq<System>)
    requires IsRun(cfg, first, run)
    ensures StreamsAccounted(Last(run))
    ensures var s := Last(run);
            s.reader.control == Finished ==> NoDup(s.closed) && Elements(s.closed) == Elements(Range(0, s.streams))
  {
    if |run| > 1 {
      StreamsClosedOnce(cfg, first, run[..|run| - 1]);
      StreamsStep(cfg, run[|run| - 2], run[|run| - 1]);
    }
    var s := Last(run);
    forall i | 0 <= i < s.streams
      ensures i in Range(0, s.streams)
    {
      assert Range(0, s.streams)[i] == i;
    }
  }

  lemma StreamsStep(cfg: Config, s: System, s': System)
    requires StreamsAccounted(s) && Next(cfg, s, s')
    ensures StreamsAccounted(s')
  {
  }

  // ------------------------------------------------------------------------- termination

  /** The ids the history holds that were not handed out yet. */
  ghost function Unseen(s: System): set<string> {
    (set p | 0 <= p < |s.history| && s.history[p].id.Some? :: s.history[p].id.value) - s.reader.seen
  }

  ghost function Stage(c: Control): nat {
    match c
    case Opening => 4
    case Listing => 3
    case Reading => 2
    case Broken => 1
    case Finished => 0
  }

  ghost function ToDeliver(s: System): nat {
    |s.reader.replay| + if s.tail <= |s.history| then |s.history| - s.tail else 0
  }

  ghost predicate Smaller(s': System, s: System) {
    || Unseen(s') < Unseen(s)
    || (Unseen(s') == Unseen(s) &&
        (|| s'.reader.left < s.reader.left
         || (s'.reader.left == s.reader.left &&
             (|| Stage(s'.reader.control) < Stage(s.reader.control)
              || (s'.reader.control == s.reader.control && ToDeliver(s') < ToDeliver(s))))))
  }

  /** While the server adds nothing, every move of the reader makes the system smaller. */
  lemma ClientStepShrinks(cfg: Config, s: System, s': System)
    requires Sound(s) && ClientStep(cfg, s, s')
    ensures Smaller(s', s)
  {
    if Deliver(cfg, s, s') {
      DeliverShrinks(cfg, s, s');
    }
  }

  lemma DeliverShrinks(cfg: Config, s: System, s': System)
    requires Sound(s) && Deliver(cfg, s, s')
    ensures Smaller(s', s)
  {
    DeliverSound(cfg, s, s');
    var p := Head(s);
    if p !in s.handed {
      var x := s.history[p].id.value;
      assert x in Unseen(s) && x !in Unseen(s');
    }
  }

  /** No reader runs for ever on a history that has stopped growing. */
  lemma {:induction false} NoEndlessRun(cfg: Config, start: nat, run: nat -> System, n: nat)
    requires forall i: nat :: ClientStep(cfg, run(i), run(i + 1))
    requires Sound(run(n)) && Served(cfg, start, run(n).history)
    ensures false
    decreases Unseen(run(n)), run(n).reader.left, Stage(run(n).reader.control), ToDeliver(run(n))
  {
    var s, s' := run(n), run(n + 1);
    assert ClientStep(cfg, run(n), run(n + 1));
    ClientStepShrinks(cfg, s, s');
    ClientKeeps(cfg, start, start + 1, s, s');
    NoEndlessRun(cfg, start, run, n + 1);
  }
}
