/**
 The reconnecting reader of one turn (`turn_events`). A server appends events to a
 history; a stream opened when the history had `p` events delivers event `p`, `p + 1`,
 and so on, and may break at any moment. On a break the reader opens another stream,
 reads the history, replays what belongs to the turn, and goes on with the new stream,
 skipping every id it has already handed out.

 `Reader` is what the reader holds between two of its calls out; each of its moves is a
 function of it. `System` adds the server and the bookkeeping the properties speak of,
 and `Next` is every move either side can make.
 */
module TurnStream {
  import opened Base
  import opened Events

  datatype Config = Config(fromStart: bool, after: Option<string>, reconnects: nat)

  /** Where the reader is: taking events; in the retry loop; waiting for a stream to
      open; waiting for the history; done (raised, or closed by its consumer). */
  datatype Control = Reading | Broken | Opening | Listing | Finished

  datatype Reader = Reader(
    control: Control,
    seen: set<string>,
    replay: seq<Event>,
    owned: Option<nat>,
    left: nat,
    delay: nat)

  function Start(cfg: Config): Reader {
    Reader(Reading, {}, [], None, cfg.reconnects, 1)
  }

  predicate IsNew(r: Reader, e: Event) {
    e.id.None? || e.id.value !in r.seen
  }

  /** One event taken from the source: a repeated id is dropped; anything else is
      yielded, and restores the retry budget. */
  function Received(cfg: Config, r: Reader, e: Event): Reader {
    var r := if r.replay == [] then r else r.(replay := r.replay[1..]);
    if !IsNew(r, e) then r
    else r.(seen := if e.id.Some? then r.seen + {e.id.value} else r.seen,
            left := cfg.reconnects, delay := 1)
  }

  /** One reopen attempt begins: it costs one from the budget, and lets go of the
      stream the last attempt opened. */
  function Attempted(r: Reader): Reader
    requires r.left > 0
  {
    r.(control := Opening, left := r.left - 1, delay := Min(r.delay * 2, 16), owned := None)
  }

  /** The position of the event with this id, if the history holds it. */
  function IndexOf(history: seq<Event>, id: Option<string>): (i: Option<nat>)
    ensures i.Some? ==> i.value < |history| && history[i.value].id == id
    ensures i.None? ==> forall k :: 0 <= k < |history| ==> history[k].id != id
    ensures i.Some? ==> forall k :: 0 <= k < i.value ==> history[k].id != id
  {
    if history == [] then None
    else if history[0].id == id then Some(0)
    else match IndexOf(history[1..], id)
         case None => None
         case Some(k) => Some(k + 1)
  }

  /** Where this turn's part of a history starts; its length when it has none yet. */
  function MissedFrom(cfg: Config, history: seq<Event>): (q: nat)
    ensures q <= |history|
  {
    if cfg.fromStart then 0
    else if cfg.after.None? then |history|
    else match IndexOf(history, cfg.after)
         case None => |history|
         case Some(k) => k + 1
  }

  /** The part of a session's history that belongs to the current turn. */
  function Missed(cfg: Config, history: seq<Event>): seq<Event> {
    history[MissedFrom(cfg, history)..]
  }

  function Replaying(cfg: Config, r: Reader, snapshot: seq<Event>): Reader {
    r.(control := Reading, replay := Missed(cfg, snapshot))
  }

  /** The reader as the object it is: one method per stretch between two calls out. */
  class TurnReader {
    const cfg: Config
    var control: Control
    var seen: set<string>
    var replay: seq<Event>
    var owned: Option<nat>
    var left: nat
    var delay: nat

    ghost function State(): Reader
      reads this
    {
      Reader(control, seen, replay, owned, left, delay)
    }

    constructor (cfg: Config)
      ensures this.cfg == cfg && State() == Start(cfg)
    {
      this.cfg := cfg;
      control, seen, replay, owned, left, delay := Reading, {}, [], None, cfg.reconnects, 1;
    }

    method Receive(e: Event) returns (handed: bool)
      requires control == Reading && (replay != [] ==> e == replay[0])
      modifies this
      ensures State() == Received(cfg, old(State()), e)
      ensures handed == IsNew(old(State()), e)
    {
      if replay != [] {
        replay := replay[1..];
      }
      if e.id.Some? {
        if e.id.value in seen {
          return false;
        }
        seen := seen + {e.id.value};
      }
      left, delay := cfg.reconnects, 1;
      return true;
    }

    /** A drop, or an end without a terminal event; or a reopen or a history read failing. */
    method Interrupt()
      requires control in {Reading, Opening, Listing}
      modifies this
      ensures old(control) == Reading ==> State() == old(State()).(control := Broken, replay := [])
      ensures old(control) != Reading ==> State() == old(State()).(control := Broken)
    {
      if control == Reading {
        replay := [];
      }
      control := Broken;
    }

    /** The head of the retry loop: give up, or wait and try again. */
    method Retry(abort: bool) returns (wait: Option<nat>, closes: Option<nat>)
      requires control == Broken
      modifies this
      ensures wait.None? <==> old(left) == 0 || abort
      ensures closes == old(owned)
      ensures wait.None? ==> State() == old(State()).(control := Finished, owned := None)
      ensures wait.Some? ==> wait.value == old(delay) && State() == Attempted(old(State()))
    {
      closes := owned;
      owned := None;
      if left == 0 || abort {
        control := Finished;
        return None, closes;
      }
      left := left - 1;
      wait := Some(delay);
      delay := Min(delay * 2, 16);
      control := Opening;
    }

    method Opened(stream: nat)
      requires control == Opening
      modifies this
      ensures State() == old(State()).(control := Listing, owned := Some(stream))
    {
      owned, control := Some(stream), Listing;
    }

    method Listed(snapshot: seq<Event>)
      requires control == Listing
      modifies this
      ensures State() == Replaying(cfg, old(State()), snapshot)
    {
      replay := Missed(cfg, snapshot);
      control := Reading;
    }
  }

  // ---------------------------------------------------------------- the whole system

  /** `tail` is where the current stream stands in the history and `next` where the
      first event still to replay does; `handed` are the positions of the events yielded
      out. `streams` counts those reopened and `closed` lists the ones closed, in order.
      `waits` are the waits since the last new event and `attempts` counts them all. */
  datatype System = System(
    history: seq<Event>,
    reader: Reader,
    tail: nat,
    next: nat,
    handed: seq<nat>,
    streams: nat,
    closed: seq<nat>,
    waits: seq<nat>,
    attempts: nat)

  ghost predicate Init(cfg: Config, first: nat, s: System) {
    && first <= |s.history|
    && s == System(s.history, Start(cfg), first, 0, [], 0, [], [], 0)
  }

  ghost predicate Append(s: System, s': System) {
    && |s'.history| == |s.history| + 1
    && s'.history[..|s.history|] == s.history
    && s' == s.(history := s'.history)
  }

  ghost predicate Deliver(cfg: Config, s: System, s': System) {
    && s.reader.control == Reading
    && var r := s.reader;
       if r.replay != [] then
         && s' == s.(reader := Received(cfg, r, r.replay[0]), next := s.next + 1,
                     handed := if IsNew(r, r.replay[0]) then s.handed + [s.next] else s.handed,
                     waits := if IsNew(r, r.replay[0]) then [] else s.waits)
       else
         && s.tail < |s.history|
         && var e := s.history[s.tail];
            s' == s.(reader := Received(cfg, r, e), tail := s.tail + 1,
                     handed := if IsNew(r, e) then s.handed + [s.tail] else s.handed,
                     waits := if IsNew(r, e) then [] else s.waits)
  }

  /** The stream dropped, or ended without the consumer having stopped reading. */
  ghost predicate Break(s: System, s': System) {
    && s.reader.control == Reading
    && s' == s.(reader := s.reader.(control := Broken, replay := []))
  }

  function Closing(s: System): seq<nat> {
    if s.reader.owned.Some? then s.closed + [s.reader.owned.value] else s.closed
  }

  ghost predicate Attempt(s: System, s': System) {
    && s.reader.control == Broken
    && s.reader.left > 0
    && s' == s.(reader := Attempted(s.reader), closed := Closing(s),
                waits := s.waits + [s.reader.delay], attempts := s.attempts + 1)
  }

  ghost predicate Open(s: System, s': System) {
    && s.reader.control == Opening
    && s' == s.(reader := s.reader.(control := Listing, owned := Some(s.streams)),
                streams := s.streams + 1, tail := |s.history|)
  }

  /** The history read holds `n` events: no fewer than when the stream opened. */
  ghost predicate List(cfg: Config, n: nat, s: System, s': System) {
    && s.reader.control == Listing
    && s.tail <= n <= |s.history|
    && s' == s.(reader := Replaying(cfg, s.reader, s.history[..n]),
                next := MissedFrom(cfg, s.history[..n]))
  }

  /** Reopening, or reading the history, failed as a drop does. */
  ghost predicate Fail(s: System, s': System) {
    && s.reader.control in {Opening, Listing}
    && s' == s.(reader := s.reader.(control := Broken))
  }

  /** The reader is done: the budget is spent, the caller aborted, the API refused, or
      the consumer stopped reading. Whatever it still owns is closed. */
  ghost predicate Finish(s: System, s': System) {
    && s.reader.control != Finished
    && s' == s.(reader := s.reader.(control := Finished, owned := None), closed := Closing(s))
  }

  ghost predicate ClientStep(cfg: Config, s: System, s': System) {
    || Deliver(cfg, s, s')
    || Break(s, s')
    || Attempt(s, s')
    || Open(s, s')
    || (exists n :: List(cfg, n, s, s'))
    || Fail(s, s')
    || Finish(s, s')
  }

  ghost predicate Next(cfg: Config, s: System, s': System) {
    Append(s, s') || ClientStep(cfg, s, s')
  }

  /** `start` is the position of the turn's first event: 0 for a turn that opens its
      session, and otherwise one past the message the turn sent. */
  ghost predicate TurnStartsAt(cfg: Config, start: nat, history: seq<Event>) {
    if cfg.fromStart then start == 0
    else
      && cfg.after.Some?
      && start > 0
      && forall i :: 0 <= i < |history| ==> (history[i].id == cfg.after <==> i == start - 1)
  }

  /** What the server guarantees of every history it shows. */
  ghost predicate Served(cfg: Config, start: nat, history: seq<Event>) {
    Addressed(history) && TurnStartsAt(cfg, start, history)
  }

  ghost predicate IsRun(cfg: Config, first: nat, run: seq<System>) {
    && run != []
    && Init(cfg, first, run[0])
    && forall i :: 0 <= i < |run| - 1 ==> Next(cfg, run[i], run[i + 1])
  }

  ghost predicate AllServed(cfg: Config, start: nat, run: seq<System>) {
    forall i :: 0 <= i < |run| ==> Served(cfg, start, run[i].history)
  }

  function Last<T>(s: seq<T>): T
    requires s != []
  {
    s[|s| - 1]
  }

  // ------------------------------------------------------------ nothing lost or repeated

  /** The handed that belong to the turn. */
  function TurnPart(handed: seq<nat>, start: nat): seq<nat> {
    if handed == [] then []
    else
      var rest := TurnPart(handed[..|handed| - 1], start);
      if handed[|handed| - 1] >= start then rest + [handed[|handed| - 1]] else rest
  }

  ghost predicate ReplayMatches(s: System) {
    && s.next + |s.reader.replay| <= |s.history|
    && s.reader.replay == s.history[s.next..s.next + |s.reader.replay|]
  }

  /** The ids seen so far are exactly those of the events handed out. */
  ghost predicate SeenMatches(s: System)
    requires Addressed(s.history)
  {
    && (forall p :: p in s.handed ==> p < |s.history|)
    && (forall p :: 0 <= p < |s.history| ==>
          (s.history[p].id.value in s.reader.seen <==> p in s.handed))
  }

  /** ... and no other id was ever seen. */
  ghost predicate SeenKnown(s: System) {
    forall x :: x in s.reader.seen ==> exists p :: 0 <= p < |s.history| && s.history[p].id == Some(x)
  }

  /** Holds in every state, wherever the first stream was opened. */
  ghost predicate Sound(s: System) {
    && Addressed(s.history)
    && s.tail <= |s.history|
    && ReplayMatches(s)
    && SeenMatches(s)
    && SeenKnown(s)
    && NoDup(s.handed)
  }

  /** The turn's events so far are `start .. start + k`, and what is still to come (a
      replay of `queued` events from `next`, then the stream from `tail`) reaches back at
      least to the next of them. */
  ghost predicate Due(start: nat, handed: seq<nat>, queued: nat, next: nat, tail: nat) {
    var upto := start + |TurnPart(handed, start)|;
    && TurnPart(handed, start) == Range(start, upto)
    && if queued > 0 then start <= next <= upto && tail <= next + queued else tail <= upto
  }

  ghost predicate Ordered(start: nat, first: nat, s: System) {
    && (forall p :: p in s.handed ==> p >= first)
    && first <= s.tail
    && TurnPart(s.handed, start) == Range(start, start + |TurnPart(s.handed, start)|)
    && (s.reader.control == Reading ==>
          Due(start, s.handed, |s.reader.replay|, s.next, s.tail))
  }

  // ------------------------------------------------------------------ every step keeps it

  lemma InitSound(cfg: Config, start: nat, first: nat, s: System)
    requires Init(cfg, first, s) && Served(cfg, start, s.history)
    ensures Sound(s)
    ensures first <= start ==> Ordered(start, first, s)
  {
  }

  lemma AppendKeeps(start: nat, first: nat, s: System, s': System)
    requires Sound(s) && Append(s, s') && Addressed(s'.history)
    ensures Sound(s')
    ensures Ordered(start, first, s) ==> Ordered(start, first, s')
  {
    assert forall i :: 0 <= i < |s.history| ==> s'.history[i] == s.history[i];
    assert SeenKnown(s') by {
      forall x | x in s.reader.seen
        ensures exists p :: 0 <= p < |s'.history| && s'.history[p].id == Some(x)
      {
        var p :| 0 <= p < |s.history| && s.history[p].id == Some(x);
        assert s'.history[p].id == Some(x);
      }
    }
  }

  lemma {:induction false} TurnPartMembers(handed: seq<nat>, start: nat)
    ensures forall p :: p in TurnPart(handed, start) <==> p in handed && p >= start
  {
    if handed != [] {
      var last := |handed| - 1;
      TurnPartMembers(handed[..last], start);
      assert handed == handed[..last] + [handed[last]];
    }
  }

  /** Where a history's part of the turn starts, whatever its length. */
  lemma MissedStart(cfg: Config, start: nat, history: seq<Event>)
    requires TurnStartsAt(cfg, start, history)
    ensures MissedFrom(cfg, history) == Min(start, |history|)
  {
    if !cfg.fromStart && |history| >= start {
      assert history[start - 1].id == cfg.after;
    }
  }

  /** With an event to go on after, it starts past the first that has that id; with none, or when
      that event is not there, it is empty; and from the start it is all. */
  lemma {:induction false} MissedExactly(cfg: Config, history: seq<Event>)
    ensures var q := MissedFrom(cfg, history);
            && (cfg.fromStart ==> q == 0)
            && (!cfg.fromStart && cfg.after.Some? && (exists k :: 0 <= k < |history| && history[k].id == cfg.after) ==>
                  q > 0 && history[q - 1].id == cfg.after && forall k :: 0 <= k < q - 1 ==> history[k].id != cfg.after)
            && (!cfg.fromStart && (cfg.after.None? || forall k :: 0 <= k < |history| ==> history[k].id != cfg.after) ==>
                  q == |history|)
  {
  }

  /** The position the next delivery takes, and the event found there. */
  ghost function Head(s: System): nat {
    if s.reader.replay != [] then s.next else s.tail
  }

  lemma DeliverSound(cfg: Config, s: System, s': System)
    requires Sound(s) && Deliver(cfg, s, s')
    ensures Sound(s')
    ensures Head(s) < |s.history|
    ensures s'.handed == if Head(s) in s.handed then s.handed else s.handed + [Head(s)]
  {
    var p := Head(s);
    assert p < |s.history| && (s.reader.replay != [] ==> s.reader.replay[0] == s.history[p]);
    assert IsNew(s.reader, s.history[p]) <==> p !in s.handed;
    DeliverSeenKnown(cfg, s, s');
  }

  lemma DeliverSeenKnown(cfg: Config, s: System, s': System)
    requires Sound(s) && Deliver(cfg, s, s')
    ensures SeenKnown(s')
  {
    var p := Head(s);
    assert p < |s.history| && (s.reader.replay != [] ==> s.reader.replay[0] == s.history[p]);
    forall x | x in s'.reader.seen
      ensures exists q :: 0 <= q < |s'.history| && s'.history[q].id == Some(x)
    {
      if x !in s.reader.seen {
        assert s'.history[p].id == Some(x);
      }
    }
  }

  /** Taking the next delivery, whichever of the two it comes from, keeps the order. */
  lemma DueAdvances(start: nat, handed: seq<nat>, handed': seq<nat>, queued: nat, next: nat, tail: nat)
    requires Due(start, handed, queued, next, tail)
    requires var p := if queued > 0 then next else tail;
             handed' == if p in handed then handed else handed + [p]
    ensures if queued > 0 then Due(start, handed', queued - 1, next + 1, tail)
            else Due(start, handed', 0, next, tail + 1)
  {
    TurnPartMembers(handed, start);
    var p := if queued > 0 then next else tail;
    var upto := start + |TurnPart(handed, start)|;
    if start <= p < upto {
      assert Range(start, upto)[p - start] == p;
    }
    if p !in handed {
      assert (handed + [p])[..|handed|] == handed;
      if p >= start {
        assert TurnPart(handed', start) == Range(start, upto + 1);
      }
    }
  }

  lemma DeliverOrdered(cfg: Config, start: nat, first: nat, s: System, s': System)
    requires s.reader.control == Reading && Deliver(cfg, s, s') && first <= start
    requires Ordered(start, first, s)
    requires s'.handed == if Head(s) in s.handed then s.handed else s.handed + [Head(s)]
    ensures Ordered(start, first, s')
  {
    DueAdvances(start, s.handed, s'.handed, |s.reader.replay|, s.next, s.tail);
  }

  lemma ListKeeps(cfg: Config, start: nat, first: nat, n: nat, s: System, s': System)
    requires Sound(s) && List(cfg, n, s, s') && Served(cfg, start, s.history)
    ensures Sound(s')
    ensures Ordered(start, first, s) ==> Ordered(start, first, s')
  {
    var snapshot := s.history[..n];
    assert TurnStartsAt(cfg, start, snapshot);
    MissedStart(cfg, start, snapshot);
    assert s'.reader.replay == s'.history[s'.next..n];
  }

  /** Every move of the reader keeps both, once the first stream was open in time. */
  lemma ClientKeeps(cfg: Config, start: nat, first: nat, s: System, s': System)
    requires Sound(s) && ClientStep(cfg, s, s') && Served(cfg, start, s.history)
    ensures Sound(s')
    ensures first <= start && Ordered(start, first, s) ==> Ordered(start, first, s')
  {
    if Deliver(cfg, s, s') {
      DeliverSound(cfg, s, s');
      if first <= start && Ordered(start, first, s) {
        DeliverOrdered(cfg, start, first, s, s');
      }
    } else if n :| List(cfg, n, s, s') {
      ListKeeps(cfg, start, first, n, s, s');
    }
  }

  // ------------------------------------------------------------------ over whole runs

  lemma {:induction false} RunKeeps(cfg: Config, start: nat, first: nat, run: seq<System>)
    requires IsRun(cfg, first, run) && AllServed(cfg, start, run)
    ensures Sound(Last(run))
    ensures first <= start ==> Ordered(start, first, Last(run))
  {
    if |run| == 1 {
      InitSound(cfg, start, first, run[0]);
    } else {
      var before := run[..|run| - 1];
      RunKeeps(cfg, start, first, before);
      StepKeeps(cfg, start, first, Last(before), Last(run));
    }
  }

  lemma StepKeeps(cfg: Config, start: nat, first: nat, s: System, s': System)
    requires Next(cfg, s, s') && Served(cfg, start, s.history) && Served(cfg, start, s'.history)
    requires Sound(s) && (first <= start ==> Ordered(start, first, s))
    ensures Sound(s') && (first <= start ==> Ordered(start, first, s'))
  {
    if Append(s, s') {
      AppendKeeps(start, first, s, s');
    } else {
      ClientKeeps(cfg, start, first, s, s');
    }
  }

  /** The events at these positions. */
  function EventsAt(history: seq<Event>, positions: seq<nat>): (events: seq<Event>)
    requires forall i :: 0 <= i < |positions| ==> positions[i] < |history|
    ensures |events| == |positions|
  {
    seq(|positions|, i requires 0 <= i < |positions| => history[positions[i]])
  }

  /** The turn's events handed out so far are the next so many of the history, in order. */
  ghost predicate InOrder(start: nat, s: System) {
    && (forall i :: 0 <= i < |TurnPart(s.handed, start)| ==> TurnPart(s.handed, start)[i] < |s.history|)
    && var k := |TurnPart(s.handed, start)|;
       && (k > 0 ==> start + k <= |s.history|)
       && (k > 0 ==> EventsAt(s.history, TurnPart(s.handed, start)) == s.history[start..start + k])
  }

  /** For every schedule of drops: no turn event is lost, repeated or out of order, and no
      event at all is handed out twice. */
  lemma NothingLostOrRepeated(cfg: Config, start: nat, first: nat, run: seq<System>)
    requires IsRun(cfg, first, run) && AllServed(cfg, start, run) && first <= start
    ensures InOrder(start, Last(run))
    ensures NoDup(Last(run).handed)
  {
    RunKeeps(cfg, start, first, run);
    OrderedInOrder(start, first, Last(run));
  }

  lemma OrderedInOrder(start: nat, first: nat, s: System)
    requires Ordered(start, first, s) && forall p :: p in s.handed ==> p < |s.history|
    ensures InOrder(start, s)
  {
    TurnPartMembers(s.handed, start);
    var k := |TurnPart(s.handed, start)|;
    forall i | 0 <= i < k
      ensures TurnPart(s.handed, start)[i] < |s.history|
    {
      assert TurnPart(s.handed, start)[i] in TurnPart(s.handed, start);
    }
    if k > 0 {
      assert Range(start, start + k)[k - 1] == start + k - 1;
    }
  }

  /** A reader that has caught up with the server has handed out the whole turn. */
  lemma CaughtUpHasAll(cfg: Config, start: nat, first: nat, run: seq<System>)
    requires IsRun(cfg, first, run) && AllServed(cfg, start, run) && first <= start
    requires var s := Last(run);
             s.reader.control == Reading && s.reader.replay == [] && s.tail == |s.history| >= start
    ensures var s := Last(run);
            TurnPart(s.handed, start) == Range(start, |s.history|)
  {
    NothingLostOrRepeated(cfg, start, first, run);
    RunKeeps(cfg, start, first, run);
  }
}
