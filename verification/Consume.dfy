/**
 What is made of a turn's events: `session.consume`, which fills a `Turn`, and the Slack
 relay's `consume`, which fills a `TurnRender`. Both stop at the same event.
 */
module Consume {
  import opened Base
  import opened Events
  import opened TurnStream

  datatype Turn = Turn(
    messages: seq<string>,
    toolCalls: seq<string>,
    threads: set<string>,
    errors: seq<string>,
    stopReason: Option<string>,
    terminated: bool)

  datatype TurnRender = TurnRender(
    messages: seq<string>,
    tools: seq<string>,
    delegations: nat,
    errors: seq<string>,
    stopReason: Option<string>,
    terminated: bool)

  const FINISHED_REASONS := {"end_turn", "retries_exhausted", "budget_reached"}

  predicate Complete(terminated: bool, stopReason: Option<string>) {
    terminated || (stopReason.Some? && stopReason.value in FINISHED_REASONS)
  }

  /** The event that ends a turn: terminated, or idle unless it waits on the client. */
  predicate Ends(e: Event) {
    e.kind.Terminated? || (e.kind.Idle? && e.kind.reason != Some("requires_action"))
  }

  /** The events up to and with the first that ends the turn. */
  function Upto(es: seq<Event>): (r: seq<Event>)
    ensures |r| <= |es| && r == es[..|r|]
    ensures forall i :: 0 <= i < |r| - 1 ==> !Ends(r[i])
    ensures |r| < |es| ==> r != [] && Ends(r[|r| - 1])
  {
    if es == [] then []
    else if Ends(es[0]) then [es[0]]
    else [es[0]] + Upto(es[1..])
  }

  predicate Done(es: seq<Event>) {
    var r := Upto(es);
    r != [] && Ends(r[|r| - 1])
  }

  // ---------------------------------------------------- what each field says of the events

  function Texts(es: seq<Event>): seq<string> {
    if es == [] then []
    else
      var k := es[|es| - 1].kind;
      Texts(es[..|es| - 1]) + if k.AgentMessage? && k.text != "" then [k.text] else []
  }

  function Tools(es: seq<Event>): seq<string> {
    if es == [] then []
    else
      var k := es[|es| - 1].kind;
      Tools(es[..|es| - 1]) + if k.ToolUse? then [k.name] else []
  }

  function Errors(es: seq<Event>): seq<string> {
    if es == [] then []
    else
      var k := es[|es| - 1].kind;
      Errors(es[..|es| - 1]) + if k.SessionError? then [k.detail] else []
  }

  function Created(es: seq<Event>): seq<string> {
    if es == [] then []
    else
      var k := es[|es| - 1].kind;
      Created(es[..|es| - 1]) + if k.ThreadCreated? then [k.thread] else []
  }

  function LastReason(es: seq<Event>): Option<string> {
    if es == [] then None
    else
      var k := es[|es| - 1].kind;
      if k.Idle? then k.reason else LastReason(es[..|es| - 1])
  }

  predicate HasTerminated(es: seq<Event>) {
    exists i :: 0 <= i < |es| && es[i].kind.Terminated?
  }

  function NonBlank(texts: seq<string>): seq<string> {
    if texts == [] then []
    else
      var last := texts[|texts| - 1];
      NonBlank(texts[..|texts| - 1]) + if IsBlank(last) then [] else [last]
  }

  function TurnOf(es: seq<Event>): Turn {
    Turn(Texts(es), Tools(es), Elements(Created(es)), Errors(es), LastReason(es), HasTerminated(es))
  }

  function RenderOf(es: seq<Event>): TurnRender {
    TurnRender(NonBlank(Texts(es)), Tools(es), |Created(es)|, Errors(es), LastReason(es), HasTerminated(es))
  }

  /** `session.consume` over the events it is given. `done` is false when they ran out
      first, where the generator it reads from raises instead. */
  method ConsumeTurn(events: seq<Event>) returns (turn: Turn, done: bool)
    ensures turn == TurnOf(Upto(events)) && done == Done(events)
  {
    turn := Turn([], [], {}, [], None, false);
    var i := 0;
    while i < |events|
      invariant 0 <= i <= |events|
      invariant turn == TurnOf(events[..i])
      invariant forall k :: 0 <= k < i ==> !Ends(events[k])
    {
      assert events[..i + 1][..i] == events[..i];
      match events[i].kind {
        case AgentMessage(text) =>
          if text != "" {
            turn := turn.(messages := turn.messages + [text]);
          }
        case ToolUse(name) =>
          turn := turn.(toolCalls := turn.toolCalls + [name]);
        case ThreadCreated(thread) =>
          turn := turn.(threads := turn.threads + {thread});
        case SessionError(detail) =>
          turn := turn.(errors := turn.errors + [detail]);
        case Terminated =>
          turn := turn.(terminated := true);
          assert events[..i + 1][i].kind.Terminated?;
          UptoIs(events, i);
          return turn, true;
        case Idle(reason) =>
          turn := turn.(stopReason := reason);
          if reason != Some("requires_action") {
            UptoIs(events, i);
            return turn, true;
          }
        case Other =>
      }
      i := i + 1;
    }
    UptoAll(events);
    assert events[..i] == events;
    done := false;
  }

  lemma NonBlankSnoc(texts: seq<string>, text: string)
    ensures NonBlank(texts + [text]) == NonBlank(texts) + if IsBlank(text) then [] else [text]
  {
    assert (texts + [text])[..|texts|] == texts;
  }

  /** What one more event adds to the relay's account of a turn. */
  function Adding(r: TurnRender, k: Kind): TurnRender {
    match k
    case AgentMessage(text) => if IsBlank(text) then r else r.(messages := r.messages + [text])
    case ToolUse(name) => r.(tools := r.tools + [name])
    case ThreadCreated(thread) => r.(delegations := r.delegations + 1)
    case SessionError(detail) => r.(errors := r.errors + [detail])
    case Terminated => r.(terminated := true)
    case Idle(reason) => r.(stopReason := reason)
    case Other => r
  }

  lemma RenderSnoc(front: seq<Event>, e: Event)
    ensures RenderOf(front + [e]) == Adding(RenderOf(front), e.kind)
  {
    assert (front + [e])[..|front|] == front;
    SnocTerminated(front, e);
    assert Texts(front) + [] == Texts(front) && Tools(front) + [] == Tools(front);
    assert Errors(front) + [] == Errors(front) && Created(front) + [] == Created(front);
    if e.kind.AgentMessage? && e.kind.text != "" {
      NonBlankSnoc(Texts(front), e.kind.text);
      assert NonBlank(Texts(front)) + [] == NonBlank(Texts(front));
    }
  }

  lemma RenderNext(es: seq<Event>, i: nat)
    requires i < |es|
    ensures RenderOf(es[..i + 1]) == Adding(RenderOf(es[..i]), es[i].kind)
  {
    RenderSnoc(es[..i], es[i]);
    assert es[..i] + [es[i]] == es[..i + 1];
  }

  /** One event noticed: the loop's body. */
  method Notice(was: TurnRender, e: Event) returns (render: TurnRender, over: bool)
    ensures render == Adding(was, e.kind) && over == Ends(e)
  {
    render, over := was, false;
    match e.kind {
      case AgentMessage(text) =>
        if !IsBlank(text) {
          render := render.(messages := render.messages + [text]);
        }
      case ToolUse(name) =>
        render := render.(tools := render.tools + [name]);
      case ThreadCreated(thread) =>
        render := render.(delegations := render.delegations + 1);
      case SessionError(detail) =>
        render := render.(errors := render.errors + [detail]);
      case Terminated =>
        render, over := render.(terminated := true), true;
      case Idle(reason) =>
        render, over := render.(stopReason := reason), reason != Some("requires_action");
      case Other =>
    }
  }

  /** The relay's `consume`: blank messages are no message, and threads are only counted. */
  method ConsumeSlack(events: seq<Event>) returns (render: TurnRender, done: bool)
    ensures render == RenderOf(Upto(events)) && done == Done(events)
  {
    render := TurnRender([], [], 0, [], None, false);
    var i := 0;
    while i < |events|
      invariant 0 <= i <= |events|
      invariant render == RenderOf(events[..i])
      invariant forall k :: 0 <= k < i ==> !Ends(events[k])
    {
      var over;
      render, over := Notice(render, events[i]);
      RenderNext(events, i);
      if over {
        UptoIs(events, i);
        return render, true;
      }
      i := i + 1;
    }
    UptoAll(events);
    assert events[..i] == events;
    done := false;
  }

  lemma {:induction false} UptoIs(es: seq<Event>, i: nat)
    requires i < |es| && Ends(es[i]) && forall k :: 0 <= k < i ==> !Ends(es[k])
    ensures Upto(es) == es[..i + 1] && Done(es)
  {
    if i > 0 {
      UptoIs(es[1..], i - 1);
      assert es[..i + 1] == [es[0]] + es[1..][..i];
    }
  }

  lemma {:induction false} UptoAll(es: seq<Event>)
    requires forall k :: 0 <= k < |es| ==> !Ends(es[k])
    ensures Upto(es) == es && !Done(es)
  {
    if es != [] {
      UptoAll(es[1..]);
    }
  }

  // ----------------------------------------------------------------- when a turn is over

  lemma DoneWhenAnEventEnds(es: seq<Event>)
    ensures Done(es) <==> exists i :: 0 <= i < |es| && Ends(es[i])
  {
    var r := Upto(es);
    assert r != [] ==> r[|r| - 1] == es[|r| - 1];
    if i :| 0 <= i < |es| && Ends(es[i]) {
      assert i < |r| ==> r[i] == es[i];
    }
  }

  /** The idle that ends the turn is the last word on its reason. */
  lemma CompleteMeansDone(es: seq<Event>)
    ensures var t := TurnOf(Upto(es));
            Complete(t.terminated, t.stopReason) ==> Done(es)
    ensures Done(es) ==>
              var t, last := TurnOf(Upto(es)), Upto(es)[|Upto(es)| - 1];
              Complete(t.terminated, t.stopReason) <==>
              (last.kind.Terminated? || (last.kind.reason.Some? && last.kind.reason.value in FINISHED_REASONS))
  {
    var r := Upto(es);
    if r != [] {
      ReasonOfUnfinished(r[..|r| - 1]);
      if Ends(r[|r| - 1]) {
        UnterminatedBefore(r);
      } else {
        ReasonOfUnfinished(r);
        assert !HasTerminated(r);
      }
    }
  }

  lemma {:induction false} ReasonOfUnfinished(es: seq<Event>)
    requires forall i :: 0 <= i < |es| ==> !Ends(es[i])
    ensures LastReason(es) in {None, Some("requires_action")}
  {
    if es != [] {
      ReasonOfUnfinished(es[..|es| - 1]);
    }
  }

  lemma UnterminatedBefore(r: seq<Event>)
    requires r != [] && forall i :: 0 <= i < |r| - 1 ==> !Ends(r[i])
    ensures HasTerminated(r) <==> r[|r| - 1].kind.Terminated?
  {
  }

  /** The relay stops where the session reader does, for the same reason, and keeps its
      messages but the blank ones. */
  lemma RelayAgrees(es: seq<Event>)
    ensures var t, r := TurnOf(Upto(es)), RenderOf(Upto(es));
            && r.stopReason == t.stopReason && r.terminated == t.terminated
            && r.messages == NonBlank(t.messages) && r.tools == t.toolCalls && r.errors == t.errors
            && |t.threads| <= r.delegations
  {
    var created := Created(Upto(es));
    ElementsBound(created);
  }

  lemma {:induction false} ElementsBound<T>(s: seq<T>)
    ensures |Elements(s)| <= |s|
  {
    if s != [] {
      ElementsBound(s[1..]);
      assert Elements(s) == {s[0]} + Elements(s[1..]);
    }
  }

  // ---------------------------------------------------------------- drops are transparent

  /** The events `consume` takes any notice of. */
  function Heard(es: seq<Event>): seq<Event> {
    if es == [] then []
    else if es[0].kind.Other? then Heard(es[1..])
    else [es[0]] + Heard(es[1..])
  }

  lemma {:induction false} HeardSnoc(es: seq<Event>, e: Event)
    ensures Heard(es + [e]) == Heard(es) + if e.kind.Other? then [] else [e]
  {
    if es == [] {
      assert [e][1..] == [];
    } else {
      HeardSnoc(es[1..], e);
      assert (es + [e])[1..] == es[1..] + [e];
    }
  }

  /** A turn is made of the events heard, and of nothing else. */
  lemma {:induction false} TurnOfHeard(es: seq<Event>)
    ensures TurnOf(es) == TurnOf(Heard(es))
  {
    if es != [] {
      var front, last := es[..|es| - 1], es[|es| - 1];
      TurnOfHeard(front);
      HeardSnoc(front, last);
      assert es == front + [last];
      if last.kind.Other? {
        assert Heard(front) + [] == Heard(front);
        SnocOther(front, last);
      } else {
        SnocSame(front, Heard(front), last);
      }
    }
  }

  lemma SnocOther(front: seq<Event>, last: Event)
    requires last.kind.Other?
    ensures TurnOf(front + [last]) == TurnOf(front)
  {
    assert (front + [last])[..|front|] == front;
    assert Texts(front) + [] == Texts(front);
    assert Tools(front) + [] == Tools(front);
    assert Errors(front) + [] == Errors(front);
    assert Created(front) + [] == Created(front);
    SnocTerminated(front, last);
  }

  lemma SnocTerminated(front: seq<Event>, last: Event)
    ensures HasTerminated(front + [last]) <==> HasTerminated(front) || last.kind.Terminated?
  {
    var es := front + [last];
    assert es[|front|] == last;
    if HasTerminated(front) {
      var i :| 0 <= i < |front| && front[i].kind.Terminated?;
      assert es[i] == front[i];
    }
  }

  lemma SnocSame(a: seq<Event>, b: seq<Event>, last: Event)
    requires TurnOf(a) == TurnOf(b)
    ensures TurnOf(a + [last]) == TurnOf(b + [last])
  {
    assert (a + [last])[..|a|] == a && (b + [last])[..|b|] == b;
    SnocTerminated(a, last);
    SnocTerminated(b, last);
    CreatedElements(a, last);
    CreatedElements(b, last);
  }

  lemma CreatedElements(front: seq<Event>, last: Event)
    ensures Elements(Created(front + [last]))
            == Elements(Created(front)) + if last.kind.ThreadCreated? then {last.kind.thread} else {}
  {
    assert (front + [last])[..|front|] == front;
  }

  lemma {:induction false} UptoCons(e: Event, rest: seq<Event>)
    ensures Upto([e] + rest) == if Ends(e) then [e] else [e] + Upto(rest)
    ensures Done([e] + rest) == (Ends(e) || Done(rest))
  {
    assert ([e] + rest)[1..] == rest;
  }

  lemma {:induction false} HeardCons(e: Event, rest: seq<Event>)
    ensures Heard([e] + rest) == (if e.kind.Other? then [] else [e]) + Heard(rest)
  {
    assert ([e] + rest)[1..] == rest;
  }

  /** What is heard up to the end is what is heard, up to its end. */
  lemma {:induction false} HeardUpto(es: seq<Event>)
    ensures Heard(Upto(es)) == Upto(Heard(es))
    ensures Done(es) == Done(Heard(es))
  {
    if es != [] {
      var e, rest := es[0], es[1..];
      HeardUpto(rest);
      assert es == [e] + rest;
      UptoCons(e, rest);
      HeardCons(e, rest);
      if !Ends(e) {
        HeardCons(e, Upto(rest));
      }
      if !e.kind.Other? {
        UptoCons(e, Heard(rest));
      }
    }
  }

  /** Once the turn is over, later events change nothing. */
  lemma {:induction false} DoneIgnoresTheRest(a: seq<Event>, b: seq<Event>)
    requires Done(a)
    ensures Upto(a + b) == Upto(a)
  {
    if !Ends(a[0]) {
      DoneIgnoresTheRest(a[1..], b);
      assert (a + b)[1..] == a[1..] + b;
    }
  }

  /** Nothing `consume` notices lies between the first stream's opening and the turn's own
      events: the session was idle when the message was sent. */
  ghost predicate QuietLeadIn(first: nat, start: nat, history: seq<Event>) {
    forall p :: first <= p < start && p < |history| ==> history[p].kind.Other?
  }

  lemma {:induction false} HeardOfTurnPart(history: seq<Event>, handed: seq<nat>, start: nat)
    requires forall i :: 0 <= i < |handed| ==> handed[i] < |history|
    requires forall i :: 0 <= i < |handed| && handed[i] < start ==> history[handed[i]].kind.Other?
    requires forall i :: 0 <= i < |TurnPart(handed, start)| ==> TurnPart(handed, start)[i] < |history|
    ensures Heard(EventsAt(history, handed)) == Heard(EventsAt(history, TurnPart(handed, start)))
  {
    if handed != [] {
      var front, last := handed[..|handed| - 1], handed[|handed| - 1];
      var part := TurnPart(front, start);
      assert forall i :: 0 <= i < |part| ==> part[i] == TurnPart(handed, start)[i];
      HeardOfTurnPart(history, front, start);
      assert EventsAt(history, handed) == EventsAt(history, front) + [history[last]];
      HeardSnoc(EventsAt(history, front), history[last]);
      if last >= start {
        assert EventsAt(history, part + [last]) == EventsAt(history, part) + [history[last]];
        HeardSnoc(EventsAt(history, part), history[last]);
      }
    }
  }

  /** These are the events the reader has handed to its consumer. */
  ghost predicate HandsOut(s: System, events: seq<Event>) {
    && |events| == |s.handed|
    && forall i :: 0 <= i < |events| ==> s.handed[i] < |s.history| && events[i] == s.history[s.handed[i]]
  }

  /** A turn read across any number of drops is the turn an unbroken reader would have
      read, however the breaks fell, once what was handed out ends it. */
  lemma DropsAreTransparent(cfg: Config, start: nat, first: nat, run: seq<System>, events: seq<Event>)
    requires IsRun(cfg, first, run) && AllServed(cfg, start, run) && first <= start
    requires QuietLeadIn(first, start, Last(run).history)
    requires HandsOut(Last(run), events) && Done(events)
    ensures start <= |Last(run).history| && Done(Last(run).history[start..])
    ensures TurnOf(Upto(events)) == TurnOf(Upto(Last(run).history[start..]))
  {
    RunKeeps(cfg, start, first, run);
    NothingLostOrRepeated(cfg, start, first, run);
    TransparentState(start, first, Last(run), events);
  }

  /** And once the reader has caught up, that is as soon as the turn is over: what was handed
      out ends it just when the turn's own events do. */
  lemma CaughtUpIsDone(cfg: Config, start: nat, first: nat, run: seq<System>, events: seq<Event>)
    requires IsRun(cfg, first, run) && AllServed(cfg, start, run) && first <= start
    requires QuietLeadIn(first, start, Last(run).history) && HandsOut(Last(run), events)
    requires var s := Last(run);
             s.reader.control == Reading && s.reader.replay == [] && s.tail == |s.history| >= start
    ensures Done(events) <==> Done(Last(run).history[start..])
    ensures TurnOf(Upto(events)) == TurnOf(Upto(Last(run).history[start..]))
  {
    var s := Last(run);
    RunKeeps(cfg, start, first, run);
    CaughtUpHasAll(cfg, start, first, run);
    var part := Range(start, |s.history|);
    HandedHeard(s.history, s.handed, part, start, first, events);
    assert EventsAt(s.history, part) == s.history[start..];
    SameHeardSameTurn(events, s.history[start..]);
  }

  lemma TransparentState(start: nat, first: nat, s: System, events: seq<Event>)
    requires InOrder(start, s) && QuietLeadIn(first, start, s.history)
    requires forall p :: p in s.handed ==> p >= first
    requires HandsOut(s, events) && Done(events)
    ensures start <= |s.history| && Done(s.history[start..])
    ensures TurnOf(Upto(events)) == TurnOf(Upto(s.history[start..]))
  {
    var part := TurnPart(s.handed, start);
    var events' := EventsAt(s.history, part);
    HandedHeard(s.history, s.handed, part, start, first, events);
    SameHeardSameTurn(events, events');
    PrefixDecides(s.history, start, start + |part|, events');
  }

  lemma HandedHeard(history: seq<Event>, handed: seq<nat>, part: seq<nat>, start: nat, first: nat,
                    events: seq<Event>)
    requires part == TurnPart(handed, start) && QuietLeadIn(first, start, history)
    requires forall p :: p in handed ==> p >= first
    requires |events| == |handed|
    requires forall i :: 0 <= i < |events| ==> handed[i] < |history| && events[i] == history[handed[i]]
    requires forall i :: 0 <= i < |part| ==> part[i] < |history|
    ensures Heard(events) == Heard(EventsAt(history, part))
  {
    assert forall i :: 0 <= i < |events| ==> handed[i] in handed;
    assert events == EventsAt(history, handed);
    HeardOfTurnPart(history, handed, start);
  }

  lemma PrefixDecides(history: seq<Event>, start: nat, end: nat, part: seq<Event>)
    requires Done(part)
    requires part != [] ==> start <= end <= |history| && part == history[start..end]
    ensures start <= |history| && Done(history[start..])
    ensures Upto(history[start..]) == Upto(part)
  {
    assert history[start..] == part + history[end..];
    DoneIgnoresTheRest(part, history[end..]);
  }

  lemma SameHeardSameTurn(a: seq<Event>, b: seq<Event>)
    requires Heard(a) == Heard(b)
    ensures Done(a) == Done(b) && TurnOf(Upto(a)) == TurnOf(Upto(b))
  {
    HeardUpto(a);
    HeardUpto(b);
    TurnOfHeard(Upto(a));
    TurnOfHeard(Upto(b));
  }
}
