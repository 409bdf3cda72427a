/**
 The host poller: one loop claims work items, and a pool of workers runs a container for
 each. An item's id is in flight from when it is accepted until its container is done,
 so that an item handed out again meanwhile is not run twice.
 */
module Poller {
  import opened Base

  type Id = string

  /** A claimed item; only those of kind `session` are run. */
  datatype Work = Work(id: Id, session: Id, isSession: bool)

  /** `pending` is an item accepted and not yet handed to the pool. A worker is busy from
      when it starts an item until its dispatch returns, which is after the item's id was
      released; `leaving` counts those in between. `accepted` and `released` record
      history, and `claimed` and `begun` the order in which items were accepted and started. */
  datatype State = State(
    inflight: set<Id>,
    pending: seq<Work>,
    queue: seq<Work>,
    running: seq<Work>,
    leaving: nat,
    accepted: multiset<Id>,
    released: multiset<Id>,
    claimed: seq<Work>,
    begun: seq<Work>)

  function Init(): State {
    State({}, [], [], [], 0, multiset{}, multiset{}, [], [])
  }

  function IdsOf(works: seq<Work>): multiset<Id> {
    if works == [] then multiset{} else IdsOf(works[..|works| - 1]) + multiset{works[|works| - 1].id}
  }

  /** Every item the poller has in hand. */
  function InHand(s: State): multiset<Id> {
    IdsOf(s.pending) + IdsOf(s.queue) + IdsOf(s.running)
  }

  /** The claim loop as an object: what it and the workers update under the lock. */
  class Inflight {
    var ids: set<Id>

    constructor ()
      ensures ids == {}
    {
      ids := {};
    }

    /** Under the lock: refuse an item already in flight, or note it. */
    method Accept(id: Id) returns (accepted: bool)
      modifies this
      ensures accepted <==> id !in old(ids)
      ensures ids == old(ids) + {id}
    {
      if id in ids {
        return false;
      }
      ids := ids + {id};
      return true;
    }

    method Discard(id: Id)
      modifies this
      ensures ids == old(ids) - {id}
    {
      ids := ids - {id};
    }
  }

  // ------------------------------------------------------------------------------- moves

  /** The loop takes the next item the service hands out. */
  ghost predicate Claim(s: State, s': State, w: Work) {
    && s.pending == []
    && s' == if !w.isSession || w.id in s.inflight then s
             else s.(inflight := s.inflight + {w.id}, pending := [w], accepted := s.accepted + multiset{w.id},
                     claimed := s.claimed + [w])
  }

  ghost predicate Submit(s: State, s': State) {
    s.pending != [] && s' == s.(pending := [], queue := s.queue + s.pending)
  }

  /** A free worker takes the oldest item queued. */
  ghost predicate Begin(max: nat, s: State, s': State) {
    && s.queue != [] && |s.running| + s.leaving < max
    && s' == s.(queue := s.queue[1..], running := s.running + [s.queue[0]], begun := s.begun + [s.queue[0]])
  }

  /** A container is done, or could not be run; either way the id is released. */
  ghost predicate Release(s: State, s': State, i: nat) {
    && i < |s.running|
    && s' == s.(inflight := s.inflight - {s.running[i].id},
                running := s.running[..i] + s.running[i + 1..], leaving := s.leaving + 1,
                released := s.released + multiset{s.running[i].id})
  }

  ghost predicate Return(s: State, s': State) {
    s.leaving > 0 && s' == s.(leaving := s.leaving - 1)
  }

  ghost predicate Next(max: nat, s: State, s': State) {
    || (exists w :: Claim(s, s', w))
    || Submit(s, s')
    || Begin(max, s, s')
    || (exists i :: Release(s, s', i))
    || Return(s, s')
  }

  // -------------------------------------------------------------------------- what is kept

  /** An id is in flight exactly when one item with it is in hand, and never two; no more
      workers than the pool has are busy; and every acceptance is released or in flight. */
  ghost predicate Safe(max: nat, s: State) {
    && InHand(s) == multiset(s.inflight)
    && |s.pending| <= 1
    && |s.running| + s.leaving <= max
    && s.accepted == s.released + multiset(s.inflight)
  }

  lemma Regroup(a: multiset<Id>, b: multiset<Id>, c: multiset<Id>)
    ensures a + (b + c) == a + b + c && a + b + c == a + c + b
  {
  }

  lemma IdsOfSnoc(works: seq<Work>, w: Work)
    ensures IdsOf(works + [w]) == IdsOf(works) + multiset{w.id}
  {
    assert (works + [w])[..|works|] == works;
  }

  lemma {:induction false} IdsOfConcat(a: seq<Work>, b: seq<Work>)
    ensures IdsOf(a + b) == IdsOf(a) + IdsOf(b)
  {
    if b == [] {
      assert a + b == a;
    } else {
      var front, last := b[..|b| - 1], b[|b| - 1];
      IdsOfConcat(a, front);
      Regroup(IdsOf(a), IdsOf(front), multiset{last.id});
      IdsOfSnoc(a + front, last);
      FrontAndLast(b);
      Associative(a, front, [last]);
    }
  }

  lemma IdsOfOne(w: Work)
    ensures IdsOf([w]) == multiset{w.id}
  {
    assert [w][..0] == [];
  }

  lemma IdsOfMiddle(left: seq<Work>, w: Work, right: seq<Work>)
    ensures IdsOf(left + [w] + right) == IdsOf(left + right) + multiset{w.id}
  {
    IdsOfOne(w);
    IdsOfConcat(left, [w]);
    IdsOfConcat(left + [w], right);
    IdsOfConcat(left, right);
    Regroup(IdsOf(left), multiset{w.id}, IdsOf(right));
  }

  lemma SplitAt<T>(s: seq<T>, i: nat)
    requires i < |s|
    ensures s[..i] + [s[i]] + s[i + 1..] == s
  {
  }

  lemma IdsOfWithout(works: seq<Work>, i: nat)
    requires i < |works|
    ensures IdsOf(works) == IdsOf(works[..i] + works[i + 1..]) + multiset{works[i].id}
  {
    SplitAt(works, i);
    IdsOfMiddle(works[..i], works[i], works[i + 1..]);
  }

  lemma ClaimSafe(max: nat, s: State, s': State, w: Work)
    requires Safe(max, s) && Claim(s, s', w)
    ensures Safe(max, s')
  {
    if s' != s {
      IdsOfOne(w);
      Regroup(s.released, multiset(s.inflight), multiset{w.id});
      assert multiset(s'.inflight) == multiset(s.inflight) + multiset{w.id};
    }
  }

  lemma SubmitSafe(max: nat, s: State, s': State)
    requires Safe(max, s) && Submit(s, s')
    ensures Safe(max, s')
  {
    IdsOfConcat(s.queue, s.pending);
    assert IdsOf([]) == multiset{};
    assert InHand(s') == InHand(s);
  }

  lemma HandedOver(pending: multiset<Id>, queue: multiset<Id>, running: multiset<Id>, one: multiset<Id>)
    ensures pending + (one + queue) + running == pending + queue + (running + one)
  {
  }

  lemma BeginSafe(max: nat, s: State, s': State)
    requires Safe(max, s) && Begin(max, s, s')
    ensures Safe(max, s')
  {
    var w := s.queue[0];
    IdsOfOne(w);
    IdsOfConcat([w], s.queue[1..]);
    assert [w] + s.queue[1..] == s.queue;
    IdsOfSnoc(s.running, w);
    HandedOver(IdsOf(s.pending), IdsOf(s'.queue), IdsOf(s.running), multiset{w.id});
  }

  lemma ReleaseSafe(max: nat, s: State, s': State, i: nat)
    requires Safe(max, s) && Release(s, s', i)
    ensures Safe(max, s')
  {
    var id := s.running[i].id;
    IdsOfWithout(s.running, i);
    assert IdsOf(s.running) == IdsOf(s'.running) + multiset{id};
    assert InHand(s) == InHand(s') + multiset{id};
    OneFewer(s.inflight, InHand(s'), id);
    Regroup(s.released, multiset{id}, multiset(s'.inflight));
    Regroup(s.released, multiset(s'.inflight), multiset{id});
  }

  lemma OneFewer(ids: set<Id>, rest: multiset<Id>, id: Id)
    requires multiset(ids) == rest + multiset{id}
    ensures id in ids && rest == multiset(ids - {id})
  {
    assert multiset(ids)[id] == rest[id] + 1;
    forall x
      ensures rest[x] == multiset(ids - {id})[x]
    {
      assert multiset(ids)[x] == rest[x] + multiset{id}[x];
    }
  }

  lemma NextSafe(max: nat, s: State, s': State)
    requires Safe(max, s) && Next(max, s, s')
    ensures Safe(max, s')
  {
    if w :| Claim(s, s', w) {
      ClaimSafe(max, s, s', w);
    } else if i :| Release(s, s', i) {
      ReleaseSafe(max, s, s', i);
    } else if Submit(s, s') {
      SubmitSafe(max, s, s');
    } else if Begin(max, s, s') {
      BeginSafe(max, s, s');
    }
  }

  /** However claims, reclaims, starts and finishes interleave. */
  lemma {:induction false} AlwaysSafe(max: nat, run: seq<State>)
    requires run != [] && run[0] == Init()
    requires forall i :: 0 <= i < |run| - 1 ==> Next(max, run[i], run[i + 1])
    ensures Safe(max, run[|run| - 1])
  {
    if |run| > 1 {
      AlwaysSafe(max, run[..|run| - 1]);
      assert Next(max, run[|run| - 2], run[|run| - 2 + 1]);
      NextSafe(max, run[|run| - 2], run[|run| - 1]);
    } else {
      assert multiset(Init().inflight) == multiset{};
    }
  }

  /** In a safe state no id is being handled twice over, in whatever places. */
  lemma NeverTwice(max: nat, s: State, id: Id)
    requires Safe(max, s)
    ensures IdsOf(s.pending)[id] + IdsOf(s.queue)[id] + IdsOf(s.running)[id] == if id in s.inflight then 1 else 0
  {
    assert InHand(s)[id] == multiset(s.inflight)[id];
  }

  /** Once nothing is in hand, every acceptance has been released, each just once. */
  lemma IdleHasReleasedAll(max: nat, s: State)
    requires Safe(max, s) && s.pending == [] && s.queue == [] && s.running == []
    ensures s.inflight == {} && s.released == s.accepted
  {
    forall id
      ensures id !in s.inflight
    {
      NeverTwice(max, s, id);
    }
  }

  /** A claimed item is accepted just when it is of kind `session` and nothing in hand has its
      id; otherwise nothing changes. */
  lemma ClaimedExactly(max: nat, s: State, s': State, w: Work)
    requires Safe(max, s) && Claim(s, s', w)
    ensures w.isSession && InHand(s)[w.id] == 0 ==>
              s'.pending == [w] && InHand(s') == InHand(s) + multiset{w.id} && s'.claimed == s.claimed + [w]
    ensures !(w.isSession && InHand(s)[w.id] == 0) ==> s' == s
  {
    assert InHand(s)[w.id] == multiset(s.inflight)[w.id];
    ClaimSafe(max, s, s', w);
    IdsOfOne(w);
    assert IdsOf([]) == multiset{};
  }

  lemma {:induction false} RunIsInOrder(max: nat, run: seq<State>)
    requires run != [] && run[0] == Init()
    requires forall i :: 0 <= i < |run| - 1 ==> Next(max, run[i], run[i + 1])
    ensures var s := run[|run| - 1]; s.claimed == s.begun + s.queue + s.pending
  {
    if |run| > 1 {
      RunIsInOrder(max, run[..|run| - 1]);
      assert Next(max, run[|run| - 2], run[|run| - 2 + 1]);
      StepIsInOrder(max, run[|run| - 2], run[|run| - 1]);
    }
  }

  lemma StepIsInOrder(max: nat, s: State, s': State)
    requires s.claimed == s.begun + s.queue + s.pending && Next(max, s, s')
    ensures s'.claimed == s'.begun + s'.queue + s'.pending
  {
    if s.queue != [] {
      assert s.begun + s.queue == s.begun + [s.queue[0]] + s.queue[1..];
    }
  }

  /** However the moves interleave, items start in the order they were accepted. */
  lemma FirstInFirstOut(max: nat, run: seq<State>)
    requires run != [] && run[0] == Init()
    requires forall i :: 0 <= i < |run| - 1 ==> Next(max, run[i], run[i + 1])
    ensures run[|run| - 1].begun <= run[|run| - 1].claimed
  {
    RunIsInOrder(max, run);
  }

  // ----------------------------------------------------------------------- one image each

  /** `r` is `s` without the white space at either end. */
  ghost predicate IsTrimmed(s: string, r: string) {
    exists lo, hi :: TrimmedAt(s, r, lo, hi)
  }

  ghost predicate TrimmedAt(s: string, r: string, lo: nat, hi: nat) {
    && lo <= hi <= |s| && r == s[lo..hi]
    && (forall i :: 0 <= i < lo ==> IsSpace(s[i])) && (forall i :: hi <= i < |s| ==> IsSpace(s[i]))
    && (r == "" || (!IsSpace(r[0]) && !IsSpace(r[|r| - 1])))
  }

  function LStripped(s: string): string {
    if s == "" || !IsSpace(s[0]) then s else LStripped(s[1..])
  }

  function Stripped(s: string): string {
    LStripped(RStripped(s))
  }

  lemma {:induction false} LStrippedIs(s: string)
    ensures var r := LStripped(s);
            && |r| <= |s| && r == s[|s| - |r|..] && (forall i :: 0 <= i < |s| - |r| ==> IsSpace(s[i]))
            && (r == "" || !IsSpace(r[0]))
  {
    if s != "" && IsSpace(s[0]) {
      LStrippedIs(s[1..]);
      var n := |s| - |LStripped(s)|;
      assert s[1..][n - 1..] == s[n..];
      assert forall i :: 0 < i < n ==> s[i] == s[1..][i - 1];
    }
  }

  lemma StrippedIs(s: string)
    ensures IsTrimmed(s, Stripped(s))
  {
    var right := RStripped(s);
    RStrippedIs(s);
    LStrippedIs(right);
    var r := LStripped(right);
    var lo := |right| - |r|;
    assert r == right[lo..] == s[lo..|right|];
    if r != "" {
      assert r[|r| - 1] == right[|right| - 1];
    }
    assert forall i :: 0 <= i < lo ==> s[i] == right[i];
    assert TrimmedAt(s, r, lo, |right|);
  }

  /** There is one such text ... */
  lemma TrimmedOnce(s: string, r: string, r': string)
    requires IsTrimmed(s, r) && IsTrimmed(s, r')
    ensures r == r'
  {
    var lo: nat, hi: nat :| TrimmedAt(s, r, lo, hi);
    var lo': nat, hi': nat :| TrimmedAt(s, r', lo', hi');
    if r != "" {
      assert r[0] == s[lo] && r[|r| - 1] == s[hi - 1];
    }
    if r' != "" {
      assert r'[0] == s[lo'] && r'[|r'| - 1] == s[hi' - 1];
    }
  }

  /** ... and it is `s` itself just when `s` has no white space at either end. */
  lemma TrimmedSame(s: string, r: string)
    requires IsTrimmed(s, r)
    ensures r == s <==> s == "" || (!IsSpace(s[0]) && !IsSpace(s[|s| - 1]))
  {
    var lo: nat, hi: nat :| TrimmedAt(s, r, lo, hi);
    if s != "" && !IsSpace(s[0]) && !IsSpace(s[|s| - 1]) {
      assert lo == 0 || lo == hi;
      assert hi == |s| || lo == hi;
      assert lo == 0 && hi == |s|;
    }
  }

  /** The image a spawn uses, and the markers after it. */
  function Pinned(image: string, markers: map<Id, string>, session: Id): (string, map<Id, string>) {
    if session in markers then (Stripped(markers[session]), markers) else (image, markers[session := image])
  }

  /** One spawn: the image its poller is configured with, and the session it is for. */
  datatype Spawn = Spawn(image: string, session: Id)

  /** The markers after these spawns, of one poller after another. */
  function MarkersAfter(spawns: seq<Spawn>): map<Id, string> {
    if spawns == [] then map[]
    else
      var last := spawns[|spawns| - 1];
      Pinned(last.image, MarkersAfter(spawns[..|spawns| - 1]), last.session).1
  }

  function ImageUsed(spawns: seq<Spawn>, i: nat): string
    requires i < |spawns|
  {
    Pinned(spawns[i].image, MarkersAfter(spawns[..i]), spawns[i].session).0
  }

  ghost predicate FirstOf(spawns: seq<Spawn>, i: nat) {
    i < |spawns| && forall k :: 0 <= k < i ==> spawns[k].session != spawns[i].session
  }

  lemma {:induction false} MarkerIsFirst(spawns: seq<Spawn>, i: nat)
    requires FirstOf(spawns, i)
    ensures spawns[i].session in MarkersAfter(spawns) && MarkersAfter(spawns)[spawns[i].session] == spawns[i].image
  {
    var n := |spawns| - 1;
    if i < n {
      assert FirstOf(spawns[..n], i);
      MarkerIsFirst(spawns[..n], i);
    } else {
      NoMarkerBefore(spawns[..n], spawns[i].session);
    }
  }

  lemma {:induction false} NoMarkerBefore(spawns: seq<Spawn>, session: Id)
    requires forall k :: 0 <= k < |spawns| ==> spawns[k].session != session
    ensures session !in MarkersAfter(spawns)
  {
    if spawns != [] {
      NoMarkerBefore(spawns[..|spawns| - 1], session);
    }
  }

  /** Every later spawn of a session uses the image its first one recorded, without the
      white space around it, whatever its own poller is configured with; so all of them
      use one image exactly when the first has no such white space, or is the only one. */
  lemma SessionKeepsItsImage(spawns: seq<Spawn>, i: nat, j: nat)
    requires FirstOf(spawns, i) && i < j < |spawns| && spawns[j].session == spawns[i].session
    ensures ImageUsed(spawns, i) == spawns[i].image && IsTrimmed(spawns[i].image, ImageUsed(spawns, j))
    ensures ImageUsed(spawns, j) == ImageUsed(spawns, i)
            <==> spawns[i].image == "" || (!IsSpace(spawns[i].image[0]) && !IsSpace(spawns[i].image[|spawns[i].image| - 1]))
  {
    NoMarkerBefore(spawns[..i], spawns[i].session);
    assert FirstOf(spawns[..j], i);
    MarkerIsFirst(spawns[..j], i);
    StrippedIs(spawns[i].image);
    TrimmedSame(spawns[i].image, Stripped(spawns[i].image));
  }

  /** The marker files of all sessions, and what has been spawned. */
  class Workspaces {
    var markers: map<Id, string>
    ghost var past: seq<Spawn>

    ghost predicate Valid()
      reads this
    {
      markers == MarkersAfter(past)
    }

    constructor ()
      ensures Valid() && past == []
    {
      markers, past := map[], [];
    }

    /** `session_image`: the image the session's first spawn recorded, or this poller's, now
        recorded. */
    method SessionImage(image: string, session: Id) returns (used: string)
      requires Valid()
      modifies this
      ensures Valid() && past == old(past) + [Spawn(image, session)]
      ensures forall i: nat :: FirstOf(past, i) && past[i].session == session ==>
                if i == |past| - 1 then used == image else IsTrimmed(past[i].image, used)
    {
      used := image;
      ghost var spawns := past + [Spawn(image, session)];
      assert spawns[..|past|] == past;
      forall i: nat | FirstOf(spawns, i) && spawns[i].session == session
        ensures i < |past| ==> session in markers && markers[session] == spawns[i].image
        ensures i == |past| ==> session !in markers
      {
        if i < |past| {
          assert FirstOf(past, i);
          MarkerIsFirst(past, i);
        } else {
          NoMarkerBefore(past, session);
        }
      }
      if session in markers {
        StrippedIs(markers[session]);
        used := Stripped(markers[session]);
      } else {
        markers := markers[session := image];
      }
      past := spawns;
    }
  }
}
