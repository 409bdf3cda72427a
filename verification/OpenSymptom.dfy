/** A symptom opened on knowledge the build has checked. */
module OpenSymptom {
  import opened Base
  import opened Knowledge
  import opened Search
  import opened Standings
  import opened Layers
  import opened Refinement
  import opened OpenWalk
  import OpenTheorems
  import opened Ranking
  import OpenRun
  import Check

  function KnowledgeOf(k: Layer): KnowledgeBase {
    KnowledgeBase(k.symptoms, k.alerts, k.facts, k.actions, k.claims, k.changes)
  }

  ghost predicate Checked(k: Layer) {
    Check.DefinitionsOk(k) && Check.ClaimsOk(k) && Check.Acyclic(k)
  }

  predicate AllResolved(k: Layer) {
    && (forall c :: c in k.claims ==> ClaimResolves(k.facts, k.claims[c]))
    && (forall c :: c in k.claims ==> Check.AllIn(k.claims[c].refinedBy, k.claims.Keys))
  }

  lemma CheckedResolves(k: Layer)
    requires Checked(k)
    ensures AllResolved(k)
  {
    forall c | c in k.claims
      ensures ClaimResolves(k.facts, k.claims[c])
    {
      assert Check.ClaimOk(k, c, k.claims[c]);
      ClaimOkResolves(k, c, k.claims[c]);
    }
  }

  lemma ClaimOkResolves(k: Layer, name: Id, c: Claim)
    requires Check.ClaimOk(k, name, c)
    ensures ClaimResolves(k.facts, c)
  {
    assert forall i :: 0 <= i < |c.for_| ==> Check.AlternativeOk(k, c.for_[i].when);
    assert forall i :: 0 <= i < |c.against| ==> Check.AlternativeOk(k, c.against[i].when);
    assert forall i :: 0 <= i < |c.rulesOut| ==> Check.AlternativeOk(k, c.rulesOut[i]);
  }

  function Uncommon(claims: map<Id, Claim>, subs: seq<Id>): (r: seq<Id>)
    requires forall i :: 0 <= i < |subs| ==> subs[i] in claims
  {
    if subs == [] then []
    else
      var last := subs[|subs| - 1];
      Uncommon(claims, subs[..|subs| - 1]) + if claims[last].uncommon then [last] else []
  }

  /** A claim's common sub-causes: those not held back as uncommon. */
  function Common(claims: map<Id, Claim>, subs: seq<Id>): (r: seq<Id>)
    requires forall i :: 0 <= i < |subs| ==> subs[i] in claims
    ensures forall i :: 0 <= i < |r| ==> r[i] in subs
  {
    var r := Without(subs, Uncommon(claims, subs));
    assert forall i :: 0 <= i < |r| ==> r[i] in r;
    r
  }

  /** Every claim's own standing from the facts recorded. */
  function OwnStandings(k: Layer, store: Store, have: set<string>): (own: map<Id, Standing>)
    requires AllResolved(k)
    ensures own.Keys == k.claims.Keys
  {
    map c | c in k.claims :: Status(KnowledgeOf(k), store, c, have)
  }

  /** The claims whose `status` raises on what is recorded. */
  function Raising(k: Layer, store: Store): (r: set<Id>)
    requires AllResolved(k)
  {
    set c | c in k.claims && StatusRaises(k.facts, store, k.claims[c])
  }

  ghost predicate AreStandings(k: Layer, own: map<Id, Standing>) {
    && own.Keys == k.claims.Keys
    && forall c :: c in own ==> own[c].grade <= 3 && (IsDead(own[c]) ==> own[c].grade == 0)
  }

  lemma OwnAreStandings(k: Layer, store: Store, have: set<string>)
    requires AllResolved(k)
    ensures AreStandings(k, OwnStandings(k, store, have))
  {
    forall c | c in k.claims
      ensures var s := OwnStandings(k, store, have)[c]; s.grade <= 3 && (IsDead(s) ==> s.grade == 0)
    {
      StandingGraded(KnowledgeOf(k), store, c, have);
    }
  }

  lemma StandingGraded(K: KnowledgeBase, store: Store, c: Id, have: set<string>)
    requires c in K.claims && ClaimResolves(K.facts, K.claims[c])
    ensures var s := Status(K, store, c, have); s.grade <= 3 && (IsDead(s) ==> s.grade == 0)
  {
  }

  /** The graph the walk reads, for given standings. */
  function GraphOf(k: Layer, own: map<Id, Standing>): Graph
    requires AllResolved(k)
  {
    Graph(own,
          map c | c in k.claims :: Common(k.claims, k.claims[c].refinedBy),
          map c | c in k.claims :: Uncommon(k.claims, k.claims[c].refinedBy))
  }

  lemma CommonKnown(claims: map<Id, Claim>, subs: seq<Id>, i: nat)
    requires forall k :: 0 <= k < |subs| ==> subs[k] in claims
    requires i < |Common(claims, subs)|
    ensures Common(claims, subs)[i] in claims
  {
    var k :| 0 <= k < |subs| && subs[k] == Common(claims, subs)[i];
  }

  lemma GraphOfIsGraph(k: Layer, own: map<Id, Standing>)
    requires AllResolved(k) && AreStandings(k, own)
    ensures IsGraph(GraphOf(k, own))
  {
    var g := GraphOf(k, own);
    forall c, i | c in g.common && 0 <= i < |g.common[c]|
      ensures g.common[c][i] in g.own
    {
      CommonKnown(k.claims, k.claims[c].refinedBy, i);
    }
  }

  lemma GraphOfRanked(k: Layer, own: map<Id, Standing>, rank: map<Id, nat>)
    requires AllResolved(k) && AreStandings(k, own) && IsRank(Check.SubsOf(k.claims), rank)
    ensures IsGraph(GraphOf(k, own)) && OpenTheorems.Ranked(GraphOf(k, own), rank)
  {
    GraphOfIsGraph(k, own);
    var g, subs := GraphOf(k, own), Check.SubsOf(k.claims);
    forall c, i | c in g.common && 0 <= i < |g.common[c]|
      ensures rank[g.common[c][i]] < rank[c]
    {
      assert Refines(subs, c, g.common[c][i]);
    }
  }

  lemma GroupsStand(g: Graph, cands: seq<Id>, w: Walk)
    requires IsGraph(g) && Coherent(g, cands, w)
    ensures forall k :: 0 <= k < |w.groups| ==> AllStand(w.st, w.groups[k].members)
  {
    forall k, j | 0 <= k < |w.groups| && 0 <= j < |w.groups[k].members|
      ensures w.groups[k].members[j] in w.st
    {
      var x := w.groups[k].members[j];
      assert x in w.groups[k].members;
      assert GroupOk(g, cands, w.parent, w.groups[k]);
      if w.groups[k].of_.Some? {
        var c := w.groups[k].of_.value;
        UnderMembers(g.common[c], w.parent, c, x);
      }
    }
  }

  /** What `open` leaves: the walk, hanging together; the ranking's leaders; and the chain
      of leaders from the first row at the top that leads, to its end. */
  ghost predicate OpensTo(g: Graph, cands: seq<Id>, w: Walk, leads: set<Id>, chain: seq<Id>) {
    && IsGraph(g) && AllKnown(g, cands)
    && w == Opened(g, cands) && Coherent(g, cands, w)
    && (forall x :: x in leads <==> IsLead(w.st, w.groups, x))
    && IsLeaderChain(leads, w.parent, chain)
    && (chain == [] <==> HeadRow(w.rows, leads, |w.rows|).None?)
    && (chain != [] ==> Some(chain[0]) == HeadRow(w.rows, leads, |w.rows|) && Ends(leads, w.parent, chain))
  }

  datatype Opening = Raised | Shown(w: Walk, leads: set<Id>, chain: seq<Id>)

  /** The walk, the ranking and the chain, for given standings and claims that raise. */
  method OpenStandings(k: Layer, own: map<Id, Standing>, raising: set<Id>, cands: seq<Id>) returns (o: Opening)
    requires AllResolved(k) && AreStandings(k, own) && Check.AllIn(cands, k.claims.Keys)
    requires exists rank :: IsRank(Check.SubsOf(k.claims), rank)
    ensures IsGraph(GraphOf(k, own)) && AllKnown(GraphOf(k, own), cands)
    ensures o.Raised? <==> OpenRun.MeetsRaising({}, Opened(GraphOf(k, own), cands).seen, raising)
    ensures o.Shown? ==> OpensTo(GraphOf(k, own), cands, o.w, o.leads, o.chain)
  {
    ghost var rank :| IsRank(Check.SubsOf(k.claims), rank);
    GraphOfRanked(k, own, rank);
    var g := GraphOf(k, own);
    assert OpenTheorems.Acyclic(g);
    var w := OpenRun.Open(g, raising, cands);
    if w.None? {
      return Raised;
    }
    GroupsStand(g, cands, w.value);
    var leads := RankGroups(w.value.groups, w.value.st);
    ParentsRankHigher(g, rank, w.value);
    var chain := LeaderChain(w.value.rows, leads, w.value.parent, rank);
    return Shown(w.value, leads, chain);
  }

  /** The symptom a name stands for: its own, or the one an alert maps to. */
  function SymptomNamed(k: Layer, name: Id): Option<Id> {
    var sid := if name in k.alerts then k.alerts[name] else name;
    if sid in k.symptoms then Some(sid) else None
  }

  /** Every candidate of `sid` is a sub-cause of one claim, which is itself a candidate of
      `other`. */
  predicate Widens(k: Layer, sid: Id, other: Id) {
    && sid in k.symptoms && other in k.symptoms && other != sid && k.symptoms[sid] != []
    && exists c :: c in k.claims && c in k.symptoms[other] && SubCausesAll(k.symptoms[sid], k.claims[c])
  }

  predicate SubCausesAll(cands: seq<Id>, c: Claim) {
    forall i :: 0 <= i < |cands| ==> cands[i] in c.refinedBy
  }

  /** The symptom opened for one asked: another it widens to, if there is one. */
  ghost predicate OpensFor(k: Layer, asked: Id, sid: Id) {
    if exists other :: Widens(k, asked, other) then Widens(k, asked, sid) else sid == asked
  }

  /** A widened symptom leads, by refinement, to every claim the asked one would have: a set
      that holds what the wider leads to holds what the asked leads to. */
  lemma WideningLosesNothing(k: Layer, asked: Id, sid: Id, s: set<Id>)
    requires asked in k.symptoms && OpensFor(k, asked, sid)
    requires IsClosed(Check.SubsOf(k.claims), s) && Covers(Check.SubsOf(k.claims), k.symptoms[sid], s)
    ensures Covers(Check.SubsOf(k.claims), k.symptoms[asked], s)
  {
    var subs, cands := Check.SubsOf(k.claims), k.symptoms[asked];
    if Widens(k, asked, sid) {
      var c :| c in k.claims && c in k.symptoms[sid] && SubCausesAll(cands, k.claims[c]);
      forall x | x in cands && x in subs
        ensures x in s
      {
        var i :| 0 <= i < |cands| && cands[i] == x;
        assert Refines(subs, c, x);
      }
    }
  }

  lemma {:induction false} UncommonMembers(claims: map<Id, Claim>, subs: seq<Id>, x: Id)
    requires forall i :: 0 <= i < |subs| ==> subs[i] in claims
    requires x in Uncommon(claims, subs)
    ensures x in claims && claims[x].uncommon
  {
    var last := |subs| - 1;
    if x in Uncommon(claims, subs[..last]) {
      UncommonMembers(claims, subs[..last], x);
    }
  }

  lemma CommonHas(claims: map<Id, Claim>, subs: seq<Id>, x: Id)
    requires forall k :: 0 <= k < |subs| ==> subs[k] in claims
    requires x in subs && x in claims && !claims[x].uncommon
    ensures x in Common(claims, subs)
  {
    if x in Uncommon(claims, subs) {
      UncommonMembers(claims, subs, x);
      assert false;
    }
  }

  lemma MetThroughLive(g: Graph, cands: seq<Id>, c: Id, x: Id)
    requires OpenTheorems.IsOpenable(g, cands) && c in cands && c in g.own && !IsDead(g.own[c]) && x in g.common[c]
    ensures x in Opened(g, cands).seen
  {
    var path := [c, x];
    assert OpenTheorems.LivePath(g, cands, path) && path[|path| - 1] == x;
    assert OpenTheorems.Reached(g, cands, x);
    OpenTheorems.OpenedReached(g, cands, x);
  }

  lemma GraphOfOpenable(k: Layer, own: map<Id, Standing>, cands: seq<Id>)
    requires AllResolved(k) && AreStandings(k, own) && Check.AllIn(cands, k.claims.Keys)
    requires exists rank :: IsRank(Check.SubsOf(k.claims), rank)
    ensures OpenTheorems.IsOpenable(GraphOf(k, own), cands)
  {
    var rank :| IsRank(Check.SubsOf(k.claims), rank);
    GraphOfRanked(k, own, rank);
  }

  /** At run time too: opened as the wider symptom, a candidate of the asked one is met,
      unless it is uncommon or the claim it is a kind of is ruled out or in conflict. */
  lemma WidenedIsMet(k: Layer, own: map<Id, Standing>, asked: Id, sid: Id, c: Id, x: Id)
    requires AllResolved(k) && AreStandings(k, own) && exists rank :: IsRank(Check.SubsOf(k.claims), rank)
    requires asked in k.symptoms && sid in k.symptoms && Check.AllIn(k.symptoms[sid], k.claims.Keys)
    requires c in k.claims && c in k.symptoms[sid] && SubCausesAll(k.symptoms[asked], k.claims[c])
    requires x in k.symptoms[asked] && x in k.claims && !k.claims[x].uncommon && !IsDead(own[c])
    ensures OpenTheorems.IsOpenable(GraphOf(k, own), k.symptoms[sid])
    ensures x in Opened(GraphOf(k, own), k.symptoms[sid]).seen
  {
    GraphOfOpenable(k, own, k.symptoms[sid]);
    CommonHas(k.claims, k.claims[c].refinedBy, x);
    MetThroughLive(GraphOf(k, own), k.symptoms[sid], c, x);
  }

  datatype Answer = NoSymptom | Answer(sid: Id, opening: Opening)

  /** `open` meets a claim whose `status` raises. */
  ghost predicate OpenRaises(k: Layer, store: Store, have: set<string>, cands: seq<Id>)
    requires AllResolved(k) && Check.AllIn(cands, k.claims.Keys)
  {
    OwnAreStandings(k, store, have);
    GraphOfIsGraph(k, OwnStandings(k, store, have));
    OpenRun.MeetsRaising({}, Opened(GraphOf(k, OwnStandings(k, store, have)), cands).seen, Raising(k, store))
  }

  /** `open` on checked knowledge, for whatever is asked, whatever facts are recorded and
      whatever can be observed: every lookup resolves, the rows hang together, the leaders
      are the ranking's, and the chain of leaders comes to an end; unless it meets a claim
      whose `status` raises. No name the knowledge has, of a symptom or an alert, goes
      unanswered. */
  method OpenSymptom(k: Layer, store: Store, have: set<string>, name: Id) returns (r: Answer)
    requires Checked(k)
    ensures AllResolved(k)
    ensures r.Answer? <==> name in k.symptoms || name in k.alerts
    ensures r.Answer? ==>
              && SymptomNamed(k, name).Some? && OpensFor(k, SymptomNamed(k, name).value, r.sid)
              && r.sid in k.symptoms && Check.AllIn(k.symptoms[r.sid], k.claims.Keys)
              && (r.opening.Raised? <==> OpenRaises(k, store, have, k.symptoms[r.sid]))
              && (r.opening.Shown? ==> OpensTo(GraphOf(k, OwnStandings(k, store, have)), k.symptoms[r.sid],
                                               r.opening.w, r.opening.leads, r.opening.chain))
  {
    CheckedResolves(k);
    OwnAreStandings(k, store, have);
    RankedExactly(Check.SubsOf(k.claims));
    var asked := SymptomNamed(k, name);
    if asked.None? {
      return NoSymptom;
    }
    var sid := asked.value;
    if other :| other in k.symptoms && Widens(k, asked.value, other) {
      sid := other;
    }
    var opening := OpenStandings(k, OwnStandings(k, store, have), Raising(k, store), k.symptoms[sid]);
    return Answer(sid, opening);
  }

  /** Nothing `open` meets lies outside what the build calls reachable. */
  lemma {:induction false} MetIsReachable(k: Layer, own: map<Id, Standing>, cands: seq<Id>, s: set<Id>, path: seq<Id>)
    requires AllResolved(k) && IsGraph(GraphOf(k, own)) && Check.AllIn(cands, k.claims.Keys)
    requires IsClosed(Check.SubsOf(k.claims), s) && Covers(Check.SubsOf(k.claims), cands, s)
    requires OpenTheorems.LivePath(GraphOf(k, own), cands, path)
    ensures path[|path| - 1] in s
  {
    if |path| == 1 {
      var i :| 0 <= i < |cands| && cands[i] == path[0];
    } else {
      var front := path[..|path| - 1];
      LivePathFront(GraphOf(k, own), cands, path);
      MetIsReachable(k, own, cands, s, front);
      CommonRefines(k, own, front[|front| - 1], path[|path| - 1]);
    }
  }

  lemma LivePathFront(g: Graph, cands: seq<Id>, path: seq<Id>)
    requires IsGraph(g) && OpenTheorems.LivePath(g, cands, path) && |path| > 1
    ensures var front := path[..|path| - 1];
            OpenTheorems.LivePath(g, cands, front) && front[|front| - 1] in g.own
            && path[|path| - 1] in g.common[front[|front| - 1]]
  {
  }

  lemma CommonRefines(k: Layer, own: map<Id, Standing>, c: Id, x: Id)
    requires AllResolved(k) && IsGraph(GraphOf(k, own)) && c in k.claims && x in GraphOf(k, own).common[c]
    ensures Refines(Check.SubsOf(k.claims), c, x) && x in k.claims
  {
    var common := GraphOf(k, own).common[c];
    var i :| 0 <= i < |common| && common[i] == x;
  }
}
