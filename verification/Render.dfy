/**
 Turning an answer's fact markers into numbered notes, and appending the facts they name
 (`render`). An answer is text between markers, and a marker names one or more ids.
 */
module Render {
  import opened Base
  import opened FactLog

  datatype Token = Text(text: string) | Marker(ids: seq<nat>)

  /** What is printed: the text as it was, and note numbers in place of a marker. */
  datatype Printed = Plain(text: string) | Notes(numbers: seq<nat>)

  datatype Rendered = Rendered(prose: seq<Printed>, cited: seq<Fact>, unresolved: seq<nat>)

  /** `{f.id: f for f in facts}`: the last fact with an id is the one it names. */
  function ById(facts: seq<Fact>): (r: map<nat, Fact>)
    ensures forall id :: id in r ==> r[id].id == Exact(id) && r[id] in facts
    ensures forall i :: 0 <= i < |facts| && facts[i].id.Exact? ==> facts[i].id.number in r
  {
    if facts == [] then map[]
    else
      var last := facts[|facts| - 1];
      assert forall x :: x in facts <==> x in facts[..|facts| - 1] || x == last;
      var r := ById(facts[..|facts| - 1]);
      if last.id.Exact? then r[last.id.number := last] else r
  }

  /** The first position of `x`, or the length. */
  function Position(xs: seq<nat>, x: nat): (p: nat)
    ensures p <= |xs| && (p < |xs| ==> xs[p] == x)
  {
    if xs == [] then 0 else if xs[0] == x then 0 else 1 + Position(xs[1..], x)
  }

  lemma {:induction false} PositionIn(xs: seq<nat>, x: nat)
    ensures Position(xs, x) < |xs| <==> x in xs
  {
    if xs != [] && xs[0] != x {
      PositionIn(xs[1..], x);
    }
  }

  /** `xs` with `x` at the end, unless it is there already. */
  function Adding(xs: seq<nat>, x: nat): seq<nat> {
    if x in xs then xs else xs + [x]
  }

  /** Each element once, where it first occurs. */
  function FirstUses(xs: seq<nat>): seq<nat> {
    if xs == [] then [] else Adding(FirstUses(xs[..|xs| - 1]), xs[|xs| - 1])
  }

  lemma {:induction false} FirstUsesMembers(xs: seq<nat>, x: nat)
    ensures x in FirstUses(xs) <==> x in xs
  {
    if xs != [] {
      FirstUsesMembers(xs[..|xs| - 1], x);
      assert xs == xs[..|xs| - 1] + [xs[|xs| - 1]];
    }
  }

  lemma {:induction false} FirstUsesNoDup(xs: seq<nat>)
    ensures NoDup(FirstUses(xs))
  {
    if xs != [] {
      FirstUsesNoDup(xs[..|xs| - 1]);
    }
  }

  lemma FirstUsesSnoc(xs: seq<nat>, x: nat)
    ensures FirstUses(xs + [x]) == Adding(FirstUses(xs), x)
  {
    assert (xs + [x])[..|xs|] == xs;
  }

  /** The ids of the markers, in the order they are read. */
  function Ids(answer: seq<Token>): seq<nat> {
    if answer == [] then []
    else
      var last := answer[|answer| - 1];
      Ids(answer[..|answer| - 1]) + if last.Marker? then last.ids else []
  }

  /** The ids among these that name a fact, or that name none. */
  function Naming(ids: seq<nat>, known: set<nat>, naming: bool): seq<nat> {
    if ids == [] then []
    else
      var n := |ids| - 1;
      Naming(ids[..n], known, naming) + if (ids[n] in known) == naming then [ids[n]] else []
  }

  lemma {:induction false} NamingMembers(ids: seq<nat>, known: set<nat>, naming: bool, x: nat)
    ensures x in Naming(ids, known, naming) <==> x in ids && (x in known) == naming
  {
    if ids != [] {
      NamingMembers(ids[..|ids| - 1], known, naming, x);
      assert ids == ids[..|ids| - 1] + [ids[|ids| - 1]];
    }
  }

  lemma NamingSnoc(ids: seq<nat>, id: nat, known: set<nat>, naming: bool)
    ensures Naming(ids + [id], known, naming) == Naming(ids, known, naming) + if (id in known) == naming then [id] else []
  {
    assert (ids + [id])[..|ids|] == ids;
  }

  /** Every one of these has its number. */
  ghost predicate AllIn(named: seq<nat>, order: seq<nat>) {
    forall i :: 0 <= i < |named| ==> Position(order, named[i]) < |order|
  }

  /** A marker's notes: one above the place each id it resolves has in the final order. */
  function Numbers(ids: seq<nat>, order: seq<nat>): (r: seq<nat>)
    ensures |r| == |ids|
  {
    if ids == [] then []
    else Numbers(ids[..|ids| - 1], order) + [Position(order, ids[|ids| - 1]) + 1]
  }

  lemma {:induction false} NumbersAt(ids: seq<nat>, order: seq<nat>, j: nat)
    requires j < |ids|
    ensures Numbers(ids, order)[j] == Position(order, ids[j]) + 1
  {
    if j < |ids| - 1 {
      NumbersAt(ids[..|ids| - 1], order, j);
    }
  }

  function PrintedAs(t: Token, known: set<nat>, order: seq<nat>): Printed {
    match t
    case Text(text) => Plain(text)
    case Marker(ids) => Notes(Numbers(Naming(ids, known, true), order))
  }

  /** What rendering comes to, said all at once: number by first use over the whole answer,
      then print each marker by those numbers. */
  function Spec(answer: seq<Token>, facts: seq<Fact>): Rendered {
    var byId := ById(facts);
    OrderKnown(answer, byId.Keys);
    var order := FirstUses(Naming(Ids(answer), byId.Keys, true));
    Rendered(seq(|answer|, i requires 0 <= i < |answer| => PrintedAs(answer[i], byId.Keys, order)),
             seq(|order|, i requires 0 <= i < |order| && order[i] in byId => byId[order[i]]),
             FirstUses(Naming(Ids(answer), byId.Keys, false)))
  }

  // ------------------------------------------------------------ numbering as the scan goes

  lemma {:induction false} PositionStays(order: seq<nat>, more: seq<nat>, x: nat)
    requires Position(order, x) < |order|
    ensures Position(order + more, x) == Position(order, x)
  {
    if order[0] != x {
      assert (order + more)[1..] == order[1..] + more;
      PositionStays(order[1..], more, x);
    }
  }

  lemma {:induction false} NamingMore(a: seq<nat>, b: seq<nat>, known: set<nat>, naming: bool)
    ensures Naming(a + b, known, naming) == Naming(a, known, naming) + Naming(b, known, naming)
  {
    if b == [] {
      assert a + b == a;
    } else {
      var front, last := b[..|b| - 1], b[|b| - 1];
      NamingMore(a, front, known, naming);
      NamingSnoc(a + front, last, known, naming);
      assert a + b == a + front + [last];
    }
  }

  lemma {:induction false} FirstUsesMore(a: seq<nat>, b: seq<nat>)
    ensures FirstUses(a) <= FirstUses(a + b)
  {
    if b == [] {
      assert a + b == a;
    } else {
      FirstUsesMore(a, b[..|b| - 1]);
      assert (a + b)[..|a + b| - 1] == a + b[..|b| - 1];
    }
  }

  /** The numbers a marker got when it was read are those of the final order. */
  lemma {:induction false} NumbersStay(ids: seq<nat>, order: seq<nat>, order': seq<nat>)
    requires order <= order' && AllIn(ids, order)
    ensures Numbers(ids, order) == Numbers(ids, order')
  {
    if ids != [] {
      NumbersStay(ids[..|ids| - 1], order, order');
      assert order' == order + order'[|order|..];
      PositionStays(order, order'[|order|..], ids[|ids| - 1]);
    }
  }

  /** What the scan keeps: the ids numbered, and those that named nothing, in the order of
      their first use among the ids read. */
  ghost predicate ScanOk(read: seq<nat>, known: set<nat>, order: seq<nat>, unresolved: seq<nat>) {
    order == FirstUses(Naming(read, known, true)) && unresolved == FirstUses(Naming(read, known, false))
  }

  /** One id of a marker. */
  method NumberId(id: nat, known: set<nat>, ghost read: seq<nat>, order: seq<nat>, unresolved: seq<nat>)
    returns (order': seq<nat>, unresolved': seq<nat>)
    requires ScanOk(read, known, order, unresolved)
    ensures ScanOk(read + [id], known, order', unresolved')
    ensures order <= order'
  {
    order', unresolved' := order, unresolved;
    NamingSnoc(read, id, known, true);
    NamingSnoc(read, id, known, false);
    FirstUsesSnoc(Naming(read, known, true), id);
    FirstUsesSnoc(Naming(read, known, false), id);
    if id !in known {
      if id !in unresolved {
        unresolved' := unresolved + [id];
      }
    } else if id !in order {
      order' := order + [id];
    }
    assert Naming(read, known, true) + [] == Naming(read, known, true);
    assert Naming(read, known, false) + [] == Naming(read, known, false);
  }

  /** What a marker read since `read` names has been numbered. */
  lemma NamedAreIn(read: seq<nat>, ids: seq<nat>, known: set<nat>)
    ensures AllIn(Naming(ids, known, true), FirstUses(Naming(read + ids, known, true)))
  {
    var named := Naming(ids, known, true);
    NamingMore(read, ids, known, true);
    var all := Naming(read + ids, known, true);
    forall i | 0 <= i < |named|
      ensures Position(FirstUses(all), named[i]) < |FirstUses(all)|
    {
      assert all[|Naming(read, known, true)| + i] == named[i];
      FirstUsesMembers(all, named[i]);
      PositionIn(FirstUses(all), named[i]);
    }
  }

  /** What one id of a marker is printed as: its note, or nothing. */
  function Note(id: nat, known: set<nat>, order: seq<nat>): seq<nat> {
    if id in known then [Position(order, id) + 1] else []
  }

  lemma NumbersSnoc(ids: seq<nat>, id: nat, known: set<nat>, order: seq<nat>, order': seq<nat>)
    requires order <= order' && AllIn(Naming(ids, known, true), order)
    ensures Numbers(Naming(ids + [id], known, true), order')
            == Numbers(Naming(ids, known, true), order) + Note(id, known, order')
  {
    var named := Naming(ids, known, true);
    NamingSnoc(ids, id, known, true);
    NumbersStay(named, order, order');
    var numbers := Numbers(named, order);
    if id in known {
      NumbersAppend(named, id, order');
    } else {
      assert named + [] == named && numbers + [] == numbers;
    }
  }

  lemma NumbersAppend(ids: seq<nat>, id: nat, order: seq<nat>)
    ensures Numbers(ids + [id], order) == Numbers(ids, order) + [Position(order, id) + 1]
  {
    assert (ids + [id])[..|ids|] == ids;
  }

  lemma NoteSnoc(read: seq<nat>, ids: seq<nat>, id: nat, known: set<nat>, notes: seq<nat>, order: seq<nat>,
                 order': seq<nat>, unresolved': seq<nat>)
    requires order == FirstUses(Naming(read + ids, known, true)) && order <= order'
    requires ScanOk(read + ids + [id], known, order', unresolved')
    requires notes == Numbers(Naming(ids, known, true), order)
    ensures ScanOk(read + (ids + [id]), known, order', unresolved')
    ensures notes + Note(id, known, order') == Numbers(Naming(ids + [id], known, true), order')
  {
    Associative(read, ids, [id]);
    NamedAreIn(read, ids, known);
    NumbersSnoc(ids, id, known, order, order');
  }

  /** One more id of a marker that began after `read`. */
  method NoteId(id: nat, known: set<nat>, ghost read: seq<nat>, ghost ids: seq<nat>, notes: seq<nat>,
                order: seq<nat>, unresolved: seq<nat>)
    returns (notes': seq<nat>, order': seq<nat>, unresolved': seq<nat>)
    requires ScanOk(read + ids, known, order, unresolved)
    requires notes == Numbers(Naming(ids, known, true), order)
    ensures ScanOk(read + (ids + [id]), known, order', unresolved')
    ensures notes' == Numbers(Naming(ids + [id], known, true), order')
    ensures order <= order'
  {
    order', unresolved' := NumberId(id, known, read + ids, order, unresolved);
    NoteSnoc(read, ids, id, known, notes, order, order', unresolved');
    notes' := notes + Note(id, known, order');
  }

  /** One marker: a note for each of its ids that names a fact. */
  method NumberMarker(ids: seq<nat>, known: set<nat>, ghost read: seq<nat>, order: seq<nat>, unresolved: seq<nat>)
    returns (notes: seq<nat>, order': seq<nat>, unresolved': seq<nat>)
    requires ScanOk(read, known, order, unresolved)
    ensures ScanOk(read + ids, known, order', unresolved')
    ensures notes == Numbers(Naming(ids, known, true), order')
    ensures order <= order'
  {
    notes, order', unresolved' := [], order, unresolved;
    ghost var upto: seq<nat> := [];
    assert read + upto == read;
    for i := 0 to |ids|
      invariant upto == ids[..i]
      invariant ScanOk(read + upto, known, order', unresolved')
      invariant notes == Numbers(Naming(upto, known, true), order')
      invariant order <= order'
    {
      notes, order', unresolved' := NoteId(ids[i], known, read, upto, notes, order', unresolved');
      upto := upto + [ids[i]];
    }
    assert upto == ids;
  }

  /** One token: its ids are numbered, and it is printed by those numbers. */
  method PrintToken(t: Token, known: set<nat>, ghost read: seq<nat>, order: seq<nat>, unresolved: seq<nat>)
    returns (p: Printed, order': seq<nat>, unresolved': seq<nat>)
    requires ScanOk(read, known, order, unresolved)
    ensures ScanOk(read + if t.Marker? then t.ids else [], known, order', unresolved')
    ensures p == PrintedAs(t, known, order') && order <= order'
  {
    match t
    case Text(text) =>
      assert read + [] == read;
      p, order', unresolved' := Plain(text), order, unresolved;
    case Marker(ids) =>
      var notes;
      notes, order', unresolved' := NumberMarker(ids, known, read, order, unresolved);
      p := Notes(notes);
  }

  /** What is printed so far is each token as the numbering so far prints it. */
  ghost predicate AllPrinted(read: seq<Token>, known: set<nat>, order: seq<nat>, prose: seq<Printed>) {
    |prose| == |read| && forall k :: 0 <= k < |read| ==> prose[k] == PrintedAs(read[k], known, order)
  }

  /** `render`: one scan, numbering markers as they are met. */
  method Render(answer: seq<Token>, facts: seq<Fact>) returns (r: Rendered)
    ensures r == Spec(answer, facts)
  {
    var byId := ById(facts);
    var order: seq<nat>, unresolved: seq<nat>, prose: seq<Printed> := [], [], [];
    ghost var read: seq<Token> := [];
    for i := 0 to |answer|
      invariant read == answer[..i]
      invariant ScanOk(Ids(read), byId.Keys, order, unresolved)
      invariant AllPrinted(read, byId.Keys, order, prose)
    {
      ghost var was := order;
      var p;
      p, order, unresolved := PrintToken(answer[i], byId.Keys, Ids(read), order, unresolved);
      PrintedMore(read, answer[i], byId.Keys, was, order, prose, p);
      IdsSnoc(read, answer[i]);
      prose := prose + [p];
      read := read + [answer[i]];
    }
    assert read == answer;
    OrderKnown(answer, byId.Keys);
    r := Rendered(prose, seq(|order|, i requires 0 <= i < |order| && order[i] in byId => byId[order[i]]), unresolved);
    ScanIsSpec(answer, facts, order, r);
  }

  lemma ScanIsSpec(answer: seq<Token>, facts: seq<Fact>, order: seq<nat>, r: Rendered)
    requires ScanOk(Ids(answer), ById(facts).Keys, order, r.unresolved)
    requires AllPrinted(answer, ById(facts).Keys, order, r.prose)
    requires |r.cited| == |order|
    requires forall n :: 0 <= n < |order| ==> order[n] in ById(facts) && r.cited[n] == ById(facts)[order[n]]
    ensures r == Spec(answer, facts)
  {
    var spec := Spec(answer, facts);
    assert r.prose == spec.prose && r.cited == spec.cited;
  }

  lemma PrintedMore(read: seq<Token>, t: Token, known: set<nat>, order: seq<nat>, order': seq<nat>,
                    prose: seq<Printed>, p: Printed)
    requires AllPrinted(read, known, order, prose) && p == PrintedAs(t, known, order')
    requires order == FirstUses(Naming(Ids(read), known, true)) && order <= order'
    ensures AllPrinted(read + [t], known, order', prose + [p])
  {
    PrintedStays(read, known, order, order');
  }

  lemma PrintedStays(read: seq<Token>, known: set<nat>, order: seq<nat>, order': seq<nat>)
    requires order == FirstUses(Naming(Ids(read), known, true)) && order <= order'
    ensures forall k :: 0 <= k < |read| ==> PrintedAs(read[k], known, order) == PrintedAs(read[k], known, order')
  {
    forall k | 0 <= k < |read|
      ensures PrintedAs(read[k], known, order) == PrintedAs(read[k], known, order')
    {
      if read[k].Marker? {
        var named := Naming(read[k].ids, known, true);
        forall j | 0 <= j < |named|
          ensures Position(order, named[j]) < |order|
        {
          NamedIsNumbered(read, known, k, named[j]);
          PositionIn(order, named[j]);
        }
        NumbersStay(named, order, order');
      }
    }
  }

  lemma IdsSnoc(answer: seq<Token>, t: Token)
    ensures Ids(answer + [t]) == Ids(answer) + if t.Marker? then t.ids else []
  {
    assert (answer + [t])[..|answer|] == answer;
  }

  lemma OrderKnown(answer: seq<Token>, known: set<nat>)
    ensures forall x :: x in FirstUses(Naming(Ids(answer), known, true)) <==> x in Ids(answer) && x in known
    ensures forall x :: x in FirstUses(Naming(Ids(answer), known, false)) <==> x in Ids(answer) && x !in known
  {
    forall x
      ensures x in FirstUses(Naming(Ids(answer), known, true)) <==> x in Ids(answer) && x in known
      ensures x in FirstUses(Naming(Ids(answer), known, false)) <==> x in Ids(answer) && x !in known
    {
      FirstUsesMembers(Naming(Ids(answer), known, true), x);
      NamingMembers(Ids(answer), known, true, x);
      FirstUsesMembers(Naming(Ids(answer), known, false), x);
      NamingMembers(Ids(answer), known, false, x);
    }
  }

  // -------------------------------------------------------------------- what a reader gets

  /** Every marker's ids are cited or unresolved, and never both; notes and unresolved ids
      are in order of first use, without repeats. */
  lemma MarkersSplit(answer: seq<Token>, facts: seq<Fact>, id: nat)
    ensures var r := Spec(answer, facts);
            && (id in Ids(answer) <==> id in r.unresolved || exists n :: 0 <= n < |r.cited| && r.cited[n].id == Exact(id))
            && !(id in r.unresolved && exists n :: 0 <= n < |r.cited| && r.cited[n].id == Exact(id))
            && NoDup(r.unresolved)
            && forall m, n :: 0 <= m < n < |r.cited| ==> r.cited[m].id != r.cited[n].id
  {
    var r, byId := Spec(answer, facts), ById(facts);
    OrderKnown(answer, byId.Keys);
    FirstUsesNoDup(Naming(Ids(answer), byId.Keys, true));
    FirstUsesNoDup(Naming(Ids(answer), byId.Keys, false));
    var order := FirstUses(Naming(Ids(answer), byId.Keys, true));
    forall n | 0 <= n < |order|
      ensures r.cited[n].id == Exact(order[n])
    {
      assert order[n] in order;
    }
    if id in Ids(answer) && id in byId {
      assert id in order;
      var n :| 0 <= n < |order| && order[n] == id;
      assert r.cited[n].id == Exact(id);
    }
    if n :| 0 <= n < |r.cited| && r.cited[n].id == Exact(id) {
      assert order[n] in order;
    }
  }

  /** Read back through the notes, a marker names the facts it named: each number stands
      for a note, and that note is the fact of the id it replaced. */
  lemma NotesAreFaithful(answer: seq<Token>, facts: seq<Fact>, i: nat)
    requires i < |answer| && answer[i].Marker?
    ensures var r := Spec(answer, facts);
            r.prose[i].Notes?
            && StandFor(r.prose[i].numbers, r.cited, Naming(answer[i].ids, ById(facts).Keys, true), ById(facts))
  {
    var byId := ById(facts);
    CitedInOrder(answer, facts);
    AllNumbered(answer, byId.Keys, i);
    var named, order := Naming(answer[i].ids, byId.Keys, true), FirstUses(Naming(Ids(answer), byId.Keys, true));
    NumbersName(named, order, byId, Spec(answer, facts).cited);
  }

  /** One number for each id named, standing for the note that is that id's fact. */
  ghost predicate StandFor(numbers: seq<nat>, cited: seq<Fact>, named: seq<nat>, byId: map<nat, Fact>) {
    && |numbers| == |named|
    && forall j :: 0 <= j < |named| ==>
         named[j] in byId && 1 <= numbers[j] <= |cited| && cited[numbers[j] - 1] == byId[named[j]]
  }

  ghost predicate AllAmong(named: seq<nat>, order: seq<nat>, known: set<nat>) {
    forall j :: 0 <= j < |named| ==> named[j] in order && named[j] in known
  }

  lemma AllNumbered(answer: seq<Token>, known: set<nat>, i: nat)
    requires i < |answer| && answer[i].Marker?
    ensures AllAmong(Naming(answer[i].ids, known, true), FirstUses(Naming(Ids(answer), known, true)), known)
  {
    var named := Naming(answer[i].ids, known, true);
    forall j | 0 <= j < |named|
      ensures named[j] in FirstUses(Naming(Ids(answer), known, true)) && named[j] in known
    {
      NamedIsNumbered(answer, known, i, named[j]);
    }
  }

  lemma CitedInOrder(answer: seq<Token>, facts: seq<Fact>)
    ensures var order, cited := FirstUses(Naming(Ids(answer), ById(facts).Keys, true)), Spec(answer, facts).cited;
            |cited| == |order| && forall n :: 0 <= n < |order| ==> order[n] in ById(facts) && cited[n] == ById(facts)[order[n]]
  {
    var byId := ById(facts);
    var order := FirstUses(Naming(Ids(answer), byId.Keys, true));
    OrderKnown(answer, byId.Keys);
    forall n | 0 <= n < |order|
      ensures order[n] in byId
    {
      assert order[n] in order;
    }
  }

  /** Numbers by position in an order stand for what is cited in that order. */
  lemma NumbersName(named: seq<nat>, order: seq<nat>, byId: map<nat, Fact>, cited: seq<Fact>)
    requires AllAmong(named, order, byId.Keys)
    requires |cited| == |order| && forall n :: 0 <= n < |order| ==> order[n] in byId && cited[n] == byId[order[n]]
    ensures StandFor(Numbers(named, order), cited, named, byId)
  {
    forall j | 0 <= j < |named|
      ensures 1 <= Numbers(named, order)[j] <= |cited| && cited[Numbers(named, order)[j] - 1] == byId[named[j]]
    {
      NumbersAt(named, order, j);
      PositionIn(order, named[j]);
    }
  }

  lemma NamedIsNumbered(answer: seq<Token>, known: set<nat>, i: nat, id: nat)
    requires i < |answer| && answer[i].Marker? && id in Naming(answer[i].ids, known, true)
    ensures id in FirstUses(Naming(Ids(answer), known, true)) && id in known
  {
    OrderKnown(answer, known);
    NamingMembers(answer[i].ids, known, true, id);
    IdsHaveMarker(answer, i, id);
  }

  lemma {:induction false} IdsHaveMarker(answer: seq<Token>, i: nat, id: nat)
    requires i < |answer| && answer[i].Marker? && id in answer[i].ids
    ensures id in Ids(answer)
  {
    if i < |answer| - 1 {
      IdsHaveMarker(answer[..|answer| - 1], i, id);
    }
  }

  /** The notes are numbered in the order they are first read: a number not read before is
      one more than all that were. */
  lemma {:induction false} NumberedByFirstUse(ids: seq<nat>, n: nat)
    requires n < |ids| && ids[n] !in ids[..n]
    ensures Position(FirstUses(ids), ids[n]) == |FirstUses(ids[..n])|
  {
    var before, upto := FirstUses(ids[..n]), ids[..n + 1];
    assert upto[..n] == ids[..n];
    FirstUsesMembers(ids[..n], ids[n]);
    assert FirstUses(upto) == before + [ids[n]];
    NotInPosition(before, ids[n]);
    PositionIn(FirstUses(upto), ids[n]);
    FirstUsesMore(upto, ids[n + 1..]);
    assert upto + ids[n + 1..] == ids;
    var order := FirstUses(ids);
    PositionStays(FirstUses(upto), order[|before| + 1..], ids[n]);
    assert order == FirstUses(upto) + order[|before| + 1..];
  }

  lemma {:induction false} NotInPosition(xs: seq<nat>, x: nat)
    requires x !in xs
    ensures Position(xs + [x], x) == |xs|
  {
    if xs != [] {
      assert (xs + [x])[1..] == xs[1..] + [x];
      NotInPosition(xs[1..], x);
    }
  }

  /** On a log the two writers kept, the fact a note prints is the only one recorded under
      the id. */
  lemma {:induction false} NoteIsTheFactShown(lines: seq<Line>, i: nat)
    requires Tidy(lines) && i < |lines|
    ensures var byId, id := ById(Read(lines)), lines[i].fact.id.number;
            id in byId && byId[id] == lines[i].fact
  {
    ReadTidy(lines);
    var facts := Read(lines);
    var id := lines[i].fact.id.number;
    assert facts[i].id == Exact(id);
    var f := ById(facts)[id];
    var k :| 0 <= k < |facts| && facts[k] == f;
    IdsUnique(lines, i, k);
  }

  /** Adding facts shows each one's statement and scope under the id it comes back with. */
  predicate Shows(byId: map<nat, Fact>, shown: Fact) {
    && shown.id.Exact? && shown.id.number in byId
    && byId[shown.id.number].statement == shown.statement && byId[shown.id.number].scope == shown.scope
  }

  /** The file's lines are the facts held, but for what JSON made of their values. */
  lemma LineOfHeld(lines: seq<Line>, fresh_: seq<Fact>, k: nat)
    requires Tidy(lines) && k < |Read(lines) + fresh_|
    ensures var after, f := lines + Written(fresh_), (Read(lines) + fresh_)[k];
            k < |after| && after[k].Entry? && after[k].fact == f.(value := after[k].fact.value)
  {
    ReadTidy(lines);
    if k >= |lines| {
      assert (lines + Written(fresh_))[k] == Written(fresh_)[k - |lines|];
    }
  }

  /** The line of a fact that came back from adding it. */
  lemma ShownIsWritten(lines: seq<Line>, facts: seq<Fact>, source: string, i: nat) returns (k: nat)
    requires Tidy(lines) && i < |facts|
    ensures |Numbered(Read(lines), facts, source).out| == |facts|
    ensures var after, f := Applied(lines, HostAdd(facts, source)), Numbered(Read(lines), facts, source).out[i];
            && k < |after| && after[k].Entry? && after[k].fact == f.(value := after[k].fact.value)
  {
    var n := Numbered(Read(lines), facts, source);
    OutIsKnown(Read(lines), facts, source, i);
    TidyNeverRaises(lines, facts, source);
    FreshIds(Read(lines), facts, source);
    k := Known(n.held, facts[i]).value;
    LineOfHeld(lines, n.fresh_, k);
  }

  /** What a note prints is what was shown: whatever either writer adds after, the id a fact
      came back with names, in any later reading of the log, its statement and scope. */
  lemma NoteIsWhatWasShown(lines: seq<Line>, facts: seq<Fact>, source: string, ops: seq<Op>, i: nat)
    requires Tidy(lines) && i < |facts|
    ensures |Numbered(Read(lines), facts, source).out| == |facts|
    ensures Shows(ById(Read(After(Applied(lines, HostAdd(facts, source)), ops))),
                  Numbered(Read(lines), facts, source).out[i])
  {
    var k := ShownIsWritten(lines, facts, source, i);
    var after := Applied(lines, HostAdd(facts, source));
    HostAddTidy(lines, facts, source);
    EveryInterleaving(after, ops);
    KeptAll(after, ops, k);
    NoteIsTheFactShown(After(after, ops), k);
  }
}
