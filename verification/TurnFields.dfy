/**
 What each field of a turn lists, told by the positions of the events it comes from.
 */
module TurnFields {
  import opened Base
  import opened Events
  import opened Picks
  import opened Consume

  /** A text the session said; an empty one is none. */
  function MessageOf(e: Event): Option<string> {
    if e.kind.AgentMessage? && |e.kind.text| > 0 then Some(e.kind.text) else None
  }

  /** A text the relay shows: one with a character that is no white space. */
  function ShownOf(e: Event): Option<string> {
    if e.kind.AgentMessage? && exists i :: 0 <= i < |e.kind.text| && !IsSpace(e.kind.text[i]) then Some(e.kind.text)
    else None
  }

  function ToolOf(e: Event): Option<string> {
    if e.kind.ToolUse? then Some(e.kind.name) else None
  }

  function ErrorOf(e: Event): Option<string> {
    if e.kind.SessionError? then Some(e.kind.detail) else None
  }

  function ThreadOf(e: Event): Option<string> {
    if e.kind.ThreadCreated? then Some(e.kind.thread) else None
  }

  lemma {:induction false} TextsPicked(es: seq<Event>)
    ensures Picked(es, MessageOf, Texts(es))
  {
    if es == [] {
      PickedNone(MessageOf);
    } else {
      TextsPicked(es[..|es| - 1]);
      PickedLast(es, MessageOf, Texts(es[..|es| - 1]));
    }
  }

  lemma {:induction false} ToolsPicked(es: seq<Event>)
    ensures Picked(es, ToolOf, Tools(es))
  {
    if es == [] {
      PickedNone(ToolOf);
    } else {
      ToolsPicked(es[..|es| - 1]);
      PickedLast(es, ToolOf, Tools(es[..|es| - 1]));
    }
  }

  lemma {:induction false} ErrorsPicked(es: seq<Event>)
    ensures Picked(es, ErrorOf, Errors(es))
  {
    if es == [] {
      PickedNone(ErrorOf);
    } else {
      ErrorsPicked(es[..|es| - 1]);
      PickedLast(es, ErrorOf, Errors(es[..|es| - 1]));
    }
  }

  lemma {:induction false} CreatedPicked(es: seq<Event>)
    ensures Picked(es, ThreadOf, Created(es))
  {
    if es == [] {
      PickedNone(ThreadOf);
    } else {
      CreatedPicked(es[..|es| - 1]);
      PickedLast(es, ThreadOf, Created(es[..|es| - 1]));
    }
  }

  lemma {:induction false} ShownPicked(es: seq<Event>)
    ensures Picked(es, ShownOf, NonBlank(Texts(es)))
  {
    if es == [] {
      PickedNone(ShownOf);
    } else {
      var front, e := es[..|es| - 1], es[|es| - 1];
      ShownPicked(front);
      PickedLast(es, ShownOf, NonBlank(Texts(front)));
      if MessageOf(e).Some? {
        NonBlankSnoc(Texts(front), e.kind.text);
      } else {
        assert Texts(front) + [] == Texts(front);
      }
      assert NonBlank(Texts(front)) + [] == NonBlank(Texts(front));
    }
  }

  /** The reason the last idle gave; none when there was no idle. */
  ghost predicate LastIdleSays(es: seq<Event>, reason: Option<string>) {
    exists k: int :: LastIdleAt(es, k, reason)
  }

  ghost predicate LastIdleAt(es: seq<Event>, k: int, reason: Option<string>) {
    && -1 <= k < |es| && (forall j :: k < j < |es| ==> !es[j].kind.Idle?)
    && if k == -1 then reason == None else es[k].kind.Idle? && reason == es[k].kind.reason
  }

  lemma {:induction false} ReasonIsLast(es: seq<Event>) returns (k: int)
    ensures LastIdleAt(es, k, LastReason(es))
  {
    k := -1;
    if es != [] {
      var n := |es| - 1;
      k := ReasonIsLast(es[..n]);
      if es[n].kind.Idle? {
        k := n;
      }
    }
  }

  /** The positions of the threads created. */
  ghost function CreatedAt(es: seq<Event>): set<nat> {
    set k: nat | k < |es| && es[k].kind.ThreadCreated?
  }

  lemma {:induction false} CreatedCount(es: seq<Event>)
    ensures |Created(es)| == |CreatedAt(es)|
  {
    if es != [] {
      var front, n := es[..|es| - 1], |es| - 1;
      CreatedCount(front);
      assert CreatedAt(es) == CreatedAt(front) + if es[n].kind.ThreadCreated? then {n} else {};
    }
  }

  /** A turn lists the texts that are not empty, the tools used and the errors, each in the
      order of its events and as often; the threads created; the last idle's reason; and
      whether one ended it. */
  lemma TurnFieldsAre(es: seq<Event>)
    ensures var t := TurnOf(es);
            && Picked(es, MessageOf, t.messages) && Picked(es, ToolOf, t.toolCalls) && Picked(es, ErrorOf, t.errors)
            && (forall x :: x in t.threads <==> exists k :: 0 <= k < |es| && ThreadOf(es[k]) == Some(x))
            && LastIdleSays(es, t.stopReason)
            && (t.terminated <==> exists k :: 0 <= k < |es| && es[k].kind.Terminated?)
  {
    TextsPicked(es);
    ToolsPicked(es);
    ErrorsPicked(es);
    CreatedPicked(es);
    var k := ReasonIsLast(es);
    forall x
      ensures x in Elements(Created(es)) <==> exists k :: 0 <= k < |es| && ThreadOf(es[k]) == Some(x)
    {
      PickedMembers(es, ThreadOf, Created(es), x);
    }
  }

  /** The relay's account lists the texts with something to see, counts the threads, and is
      otherwise the same. */
  lemma RenderFieldsAre(es: seq<Event>)
    ensures var r := RenderOf(es);
            && Picked(es, ShownOf, r.messages) && Picked(es, ToolOf, r.tools) && Picked(es, ErrorOf, r.errors)
            && r.delegations == |CreatedAt(es)|
            && LastIdleSays(es, r.stopReason)
            && (r.terminated <==> exists k :: 0 <= k < |es| && es[k].kind.Terminated?)
  {
    ShownPicked(es);
    ToolsPicked(es);
    ErrorsPicked(es);
    CreatedCount(es);
    var k := ReasonIsLast(es);
  }

  /** What is heard of some events is those that are of a type a turn takes notice of. */
  function NoticedOf(e: Event): Option<Event> {
    match e.kind
    case Other => None
    case _ => Some(e)
  }

  lemma {:induction false} HeardPicked(es: seq<Event>)
    ensures Picked(es, NoticedOf, Heard(es))
  {
    if es == [] {
      PickedNone(NoticedOf);
    } else {
      var front, e := es[..|es| - 1], es[|es| - 1];
      HeardPicked(front);
      PickedLast(es, NoticedOf, Heard(front));
      FrontAndLast(es);
      HeardSnoc(front, e);
      assert Heard(front) + [] == Heard(front);
    }
  }

  /** The turn is over at the first event that terminates the session, or is idle for a reason
      other than waiting on the client: it is made of the events up to and with that one, and
      of all events when there is none. */
  lemma {:induction false} UptoEnds(es: seq<Event>)
    ensures var n := |Upto(es)|;
            && Upto(es) == es[..n]
            && (forall k :: 0 <= k < n - 1 ==> !EndsTurn(es[k]))
            && (Done(es) <==> n > 0 && EndsTurn(es[n - 1]))
            && (!Done(es) ==> n == |es|)
  {
    var r := Upto(es);
    assert forall k :: 0 <= k < |r| ==> r[k] == es[k];
  }

  predicate EndsTurn(e: Event) {
    match e.kind
    case Terminated => true
    case Idle(reason) => reason.None? || reason.value != "requires_action"
    case _ => false
  }

  /** The first event that ends the turn. */
  ghost predicate IsTheEnd(es: seq<Event>, k: nat) {
    k < |es| && EndsTurn(es[k]) && forall j :: 0 <= j < k ==> !EndsTurn(es[j])
  }

  /** It is terminated, or idle because it has ended, has run out of retries or has reached its
      budget. */
  predicate Finishes(e: Event) {
    match e.kind
    case Terminated => true
    case Idle(reason) =>
      reason.Some? && (reason.value == "end_turn" || reason.value == "retries_exhausted" || reason.value == "budget_reached")
    case _ => false
  }

  /** A turn is complete when it is over and the event that ends it finishes it. */
  lemma CompleteExactly(es: seq<Event>)
    ensures var t := TurnOf(Upto(es));
            Complete(t.terminated, t.stopReason) <==> exists k: nat :: IsTheEnd(es, k) && Finishes(es[k])
  {
    var t, n := TurnOf(Upto(es)), |Upto(es)|;
    CompleteMeansDone(es);
    UptoEnds(es);
    if Done(es) {
      assert IsTheEnd(es, n - 1) && Upto(es)[n - 1] == es[n - 1];
    }
  }
}
