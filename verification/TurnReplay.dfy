/**
 What a replay brings back, wherever the first stream was opened; and that order depends
 on where that was, and on nothing else.
 */
module TurnReplay {
  import opened Base
  import opened Events
  import opened TurnStream

  /** A replay of the positions `lo .. n` has got as far as `next`. */
  ghost predicate ReplayedSoFar(lo: nat, n: nat, s: System) {
    && s.reader.control == Reading
    && lo <= s.next
    && s.next + |s.reader.replay| == n
    && forall p :: lo <= p < s.next ==> p in s.handed
  }

  ghost predicate UnbrokenRun(cfg: Config, run: seq<System>) {
    && run != []
    && forall i :: 0 <= i < |run| - 1 ==> Append(run[i], run[i + 1]) || Deliver(cfg, run[i], run[i + 1])
  }

  lemma ReplayStep(cfg: Config, lo: nat, n: nat, s: System, s': System)
    requires Sound(s) && ReplayedSoFar(lo, n, s)
    requires Append(s, s') || Deliver(cfg, s, s')
    ensures ReplayedSoFar(lo, n, s')
  {
    if Deliver(cfg, s, s') {
      DeliverSound(cfg, s, s');
    }
  }

  /** Wherever the first stream was opened: once a replay is consumed, every event of the
      turn that the history read held has been handed out, and only once. */
  lemma {:induction false} ReplayMissesNothing(cfg: Config, start: nat, n: nat, before: System, run: seq<System>)
    requires Sound(before) && Served(cfg, start, before.history) && AllServed(cfg, start, run)
    requires UnbrokenRun(cfg, run) && List(cfg, n, before, run[0])
    ensures Sound(Last(run)) && NoDup(Last(run).handed)
    ensures ReplayedSoFar(Min(start, n), n, Last(run))
    ensures Last(run).reader.replay == [] ==> forall p :: start <= p < n ==> p in Last(run).handed
  {
    if |run| == 1 {
      assert TurnStartsAt(cfg, start, before.history[..n]);
      MissedStart(cfg, start, before.history[..n]);
      ListKeeps(cfg, start, start + 1, n, before, run[0]);
    } else {
      var shorter := run[..|run| - 1];
      ReplayMissesNothing(cfg, start, n, before, shorter);
      ReplayStep(cfg, Min(start, n), n, Last(shorter), Last(run));
      StepKeeps(cfg, start, start + 1, Last(shorter), Last(run));
    }
  }

  // ------------------------------------------------------------ a first stream opened late

  /** A length no id of the history reaches. */
  lemma {:induction false} LongestId(history: seq<Event>) returns (n: nat)
    ensures forall i :: 0 <= i < |history| && history[i].id.Some? ==> |history[i].id.value| < n
  {
    n := 0;
    if history != [] {
      var last := history[|history| - 1];
      n := LongestId(history[..|history| - 1]);
      if last.id.Some? && |last.id.value| >= n {
        n := |last.id.value| + 1;
      }
    }
  }

  /** Whatever the history, the server may yet append an event to it. */
  lemma OneMoreServed(cfg: Config, start: nat, history: seq<Event>) returns (e: Event)
    requires Served(cfg, start, history) && start <= |history|
    ensures Served(cfg, start, history + [e])
  {
    var n := LongestId(history);
    e := Event(Some(seq(n, _ => 'x')), Other);
    assert forall i :: 0 <= i < |history| ==> history[i].id != e.id;
    if !cfg.fromStart {
      assert history[start - 1].id == cfg.after;
    }
  }

  lemma LateEventFirst(cfg: Config, start: nat, first: nat, s: System) returns (s': System)
    requires Served(cfg, start, s.history) && start < first < |s.history| && Init(cfg, first, s)
    ensures Deliver(cfg, s, s') && s'.history == s.history && !InOrder(start, s')
  {
    s' := s.(reader := Received(cfg, s.reader, s.history[first]), tail := first + 1, handed := [first]);
    assert IsNew(s.reader, s.history[first]);
    assert s.handed + [s.tail] == [first];
    LoneLateEvent(start, first, s');
  }

  /** Opened later than the turn's start, the first stream hands out a later event first. */
  lemma LateFirstStreamBreaksOrder(cfg: Config, start: nat, first: nat, history: seq<Event>)
    returns (run: seq<System>)
    requires Served(cfg, start, history) && start < first <= |history|
    ensures IsRun(cfg, first, run) && AllServed(cfg, start, run) && run[0].history == history
    ensures !InOrder(start, Last(run))
  {
    var s := System(history, Start(cfg), first, 0, [], 0, [], [], 0);
    if first < |history| {
      var s' := LateEventFirst(cfg, start, first, s);
      run := [s, s'];
    } else {
      var e := OneMoreServed(cfg, start, history);
      var grown := s.(history := history + [e]);
      assert Append(s, grown);
      var s' := LateEventFirst(cfg, start, first, grown);
      run := [s, grown, s'];
    }
  }

  lemma LoneLateEvent(start: nat, first: nat, s: System)
    requires Addressed(s.history) && s.handed == [first] && start < first < |s.history|
    ensures !InOrder(start, s)
  {
    assert [first][..0] == [];
    assert TurnPart([first], start) == [first];
    assert EventsAt(s.history, [first])[0] != s.history[start..start + 1][0];
  }

  /** Order holds in every run from a history exactly when the first stream was opened no
      later than the turn's first event. */
  lemma OrderExactlyWhenOpenedInTime(cfg: Config, start: nat, first: nat, history: seq<Event>)
    requires Served(cfg, start, history) && first <= |history|
    ensures (forall run: seq<System> :: IsRun(cfg, first, run) && AllServed(cfg, start, run) && run[0].history == history
                           ==> InOrder(start, Last(run)))
            <==> first <= start
  {
    if first <= start {
      forall run | IsRun(cfg, first, run) && AllServed(cfg, start, run)
        ensures InOrder(start, Last(run))
      {
        NothingLostOrRepeated(cfg, start, first, run);
      }
    } else {
      var run := LateFirstStreamBreaksOrder(cfg, start, first, history);
    }
  }
}
