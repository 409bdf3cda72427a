# k8s-rca in Dafny

A Dafny model of the parts of k8s-rca that decide something: the engine that holds recorded
facts against authored knowledge and says which cause is most likely, the reader that
follows a turn's events across dropped connections, and the smaller pieces that number
facts, cite them, print durations, split messages and run work items. `dafny verify
dfyconfig.toml` checks all of it.

## How it is laid out

Diagnosis, at run time (`skills/k8s-rca/kb_query.py`):

- `Knowledge`, `FactLines`, `StoreRules`: the knowledge as data; fact lines read into a store.
- `Search`: a condition's value under each binding, the backtracking search over an
  alternative, and when reading raises.
- `Stability`, `Lasting`, `Lapsing`: what stays true as evidence grows, of a condition and
  of an alternative, and what does not.
- `Meaning`, `Readings`: what it means that an alternative holds, apart from the search; and
  what every condition reads as, entry by entry.
- `Availability`, `Standings`, `StatusRule`: what can be observed here, and at what cost; a
  claim's standing, and the rule for it in terms of what is recorded.
- `OpenWalk`, `OpenTheorems`, `OpenRows`, `OpenRun`: the walk of `open` as functions, what
  it leaves behind, and the walk as it runs on an object. `WalkRules`, `HeldRows` and
  `Uncommons`: what lifts a claim, who is in which group, and what is held back.
- `Ranking`, `Overtaking`, `HeadOfChain`, `Beaten`, `LeaderCycle`: sibling leaders, the chain
  printed as the most likely cause, and where it starts.

Diagnosis, at build time (`src/k8srca/kb/knowledge.py`): `Layers`, `LayerRules`, `Refinement`,
`Check` and `Passing`. `OpenSymptom` and `Answers` join the two halves, and `OpenSafety` says
when opening raises.

The rest: `Events`, `TurnStream`, `TurnReplay`, `TurnLimits`, `TurnCatchUp`, `Consume` and
`TurnFields` (one turn's events), `FactLog`, `LogRules`, `Render` and `RenderRules` (facts
recorded and cited), `Duration` and `TextRules`, `Chunk`, `Poller`. `Picks` says what it is to
take some of a sequence in its order.

Code that changes things step by step is a method, with a loop where the source has one
and an object where state is shared; its contract ties it to a function or states the
property outright, and the lemmas are about that function. What a small function comes
to is said again without it, by positions, members and counts, in modules of their own.
A reader, a server and a network are one transition system in `TurnStream`; claims,
reclaims and workers are one in `Poller`; the two writers of the fact log are operations
in any order in `FactLog`.

## What the code does that its own words do not say

Each is a lemma below, with the exact condition where there is one.

- A condition that denies a functional fact, has a comparison, and has nothing left to bind
  is true by another value of the fact, and stops being true when the fact itself is denied
  (`BrittleBreaks`). Every other true condition stays true. An alternative with such a
  condition that nothing before it can bind lapses, and so does a claim it rules out
  (`LastsExactly`, `StaysDeadExactly`).
- A candidate can head the chain of leaders in place of the candidates' own leader. On some
  standings it does, just when it is below a candidate listed later, on a trail of common
  sub-causes past every candidate listed before, on which each claim lists the next before it
  and the last lists it once (`HeadAlwaysLeadsExactly`); recorded facts bring it about on
  knowledge that passes the check (`BeatenOnFacts`).
- Nothing checks that a functional fact has a parameter. A line records one without, and
  reading a condition on it then raises (`CheckAllowsNullaryFunctional`, `OpenSafeExactly`).
- A line of the fact log that is JSON and no object stops the host from opening it, and an
  id that is neither text nor false (7, say) stops it from numbering; the agent's writer
  passes over both. An id `F<n>` with a line end counts for the host alone
  (`NextIdsAgreeExactly`, `EndedIdDisagrees`).
- A change kind with an empty name counts at build time and not at run time
  (`AlternativeAgreesExactly`, `EmptyKindDisagrees`).
- `human` prints the two largest units that are not zero, which need not be neighbours:
  a day and five seconds is `1d5s`. Nought seconds print as `0s`, which reads back as no
  duration (`ZeroIsLost`).
- A fact whose value does not survive JSON is written anew every time it is added
  (`AddedAgainExactly`).
- The first spawn of a session uses the image name as configured, and later ones use it
  without surrounding white space (`SessionKeepsItsImage`).
- A turn read from the start of a session, on a stream opened after its first event, begins
  with a later event, and a drop then brings the earlier ones late
  (`OrderExactlyWhenOpenedInTime`, `ReplayMissesNothing`).

## What is taken for granted

- Every event of a session has an id, and no two the same one (`Addressed`). An event
  without one would be handed out again by a replay. A turn in the middle of a session is
  known by the id of the message it answers; with no such id the reader replays nothing.
- For the turn's result: nothing the consumer takes notice of lies between the opening of
  the first stream and the turn's own events (`QuietLeadIn`). A stale idle there would end
  the turn, and later events would change nothing (`DoneIgnoresTheRest`).
- A stream may drop before any move of the reader, which covers every schedule of drops. A
  history is read as it was at one moment.
- A condition's variable bound to a value that starts with a capital is open again in a later
  condition that has it, as in the code, unless the value is a role letter or one that
  condition marks as a literal. Only `HoldsBySubstitution`, which gives each variable one
  value, asks that no entry bind one so; the search then can make true what no choice of values
  does (`OpenAgainHolds`).
- The fact log is written whole lines at a time under its lock, and no write fails.
- A session's marker is written whole, and pollers do not overlap.

## Model

| member | source | states |
|---|---|---|
| TurnStream.MissedStart | src/k8srca/session.py:101-112 | in either mode, whatever a history holds of the turn is found, and nothing before it: an empty part when the turn's own message is not there yet |
| TurnStream.MissedExactly | src/k8srca/session.py:101-112 | the part of any history: all of it from the start; else past the first event with the id to go on after; none with no such id or no such event |
| TurnStream.TurnReader.constructor | src/k8srca/session.py:145-148 | nothing seen, nothing to replay, no stream owned, the whole retry budget, a first wait of one second |
| TurnStream.TurnReader.Receive | src/k8srca/session.py:152-159 | an event is handed out only the first time its id is met, and only then is the budget restored and the wait reset |
| TurnStream.TurnReader.Interrupt | src/k8srca/session.py:160-186 | a drop, an end without a terminal event, or a failed reopen or history read leaves what was seen alone, and drops what was left to replay |
| TurnStream.TurnReader.Retry | src/k8srca/session.py:164-191 | gives up exactly when the budget is spent or the caller has; either way the owned stream is closed; otherwise one attempt is spent and the wait doubles up to 16 seconds |
| TurnStream.TurnReader.Opened | src/k8srca/session.py:175-180 | the new stream is owned before the history is read |
| TurnStream.TurnReader.Listed | src/k8srca/session.py:181-188 | what the history holds of the turn is replayed before the new stream is followed |
| TurnStream.DeliverSound | src/k8srca/session.py:152-159 | each delivery is an event of the history and is handed out exactly when it had not been |
| TurnStream.ClientKeeps | src/k8srca/session.py:145-191 | every move of the reader, failures included, keeps what makes the order come out right |
| TurnStream.NothingLostOrRepeated | src/k8srca/session.py:115-191 | for every schedule of drops, when the first stream was open no later than the turn's first event: the turn's events handed out are a contiguous prefix of the turn, in order, and no event is handed out twice |
| TurnStream.CaughtUpHasAll | src/k8srca/session.py:115-191 | a reader level with the server has handed out the whole turn |
| TurnReplay.OrderExactlyWhenOpenedInTime | src/k8srca/session.py:140-188 | from any given history, order holds in every run if and only if the first stream was opened no later than the turn's first event |
| TurnReplay.LateFirstStreamBreaksOrder | src/k8srca/session.py:140-188 | a run that hands a later event out before an earlier one, for every late first stream |
| TurnReplay.ReplayMissesNothing | src/k8srca/session.py:175-188 | wherever the first stream was opened: once a replay is consumed, every event of the turn that the history read held has been handed out, and none twice |
| TurnLimits.RetriesBounded | src/k8srca/session.py:148-186 | between two new events at most `reconnects` attempts, the k-th after min(2^k, 16) seconds; over a turn, at most `reconnects` for each event handed out and as many again |
| TurnLimits.RepeatRestoresNothing | src/k8srca/session.py:153-159 | an event already handed out, replayed or not, restores neither budget nor wait |
| TurnLimits.StreamsClosedOnce | src/k8srca/session.py:145-191 | at most one stream is owned at a time, none is closed twice, and when the reader is finished all are closed |
| TurnLimits.ClientStepShrinks | src/k8srca/session.py:150-188 | while no event is added, every move of the reader brings its end nearer |
| TurnLimits.NoEndlessRun | src/k8srca/session.py:150-188 | no reader goes on for ever on a history that has stopped growing |
| TurnCatchUp.CatchesUpExactly | src/k8srca/session.py:150-191 | some moves of the reader bring it level with the server if and only if it has not given up and, if its stream is gone, has a retry left |
| TurnCatchUp.CanAlwaysCatchUp | src/k8srca/session.py:115-191 | however a run has gone, such a reader can go on by its own moves until it has handed out the whole turn |
| TurnCatchUp.CanAlwaysFinish | src/k8srca/session.py:115-239 | once the turn is over, what it then has handed out is over as well, and gives the turn an unbroken reader would have given |
| Consume.ConsumeTurn | src/k8srca/session.py:194-239 | the turn is made of the events up to and with the first that ends it, field by field |
| Consume.ConsumeSlack | src/k8srca/slack/relay.py:175-215 | so is the relay's account, whose messages are those not blank and whose delegations are counted |
| Consume.DoneWhenAnEventEnds | src/k8srca/session.py:227-239 | consuming stops by itself if and only if some event is `terminated`, or idle for a reason other than `requires_action` |
| Consume.CompleteMeansDone | src/k8srca/session.py:78-84 | a complete turn was ended by its events; one so ended is complete exactly when its last event is `terminated` or idle for a finished reason |
| Consume.RelayAgrees | src/k8srca/slack/relay.py:175-215 | the relay stops at the same event with the same stop reason, and its messages are the reader's that are not blank |
| TurnFields.TurnFieldsAre | src/k8srca/session.py:207-239 | of any events, the turn lists the texts that are not empty, the tools used and the errors, each list in the events' order and as often; has as threads just those created; the last idle's reason; and whether one terminated it |
| TurnFields.RenderFieldsAre | src/k8srca/slack/relay.py:175-215 | the relay lists the texts with something to see, and tools and errors likewise, and counts the threads created |
| TurnFields.UptoEnds | src/k8srca/session.py:227-239 | the events consumed are those as far as the first that is terminated, or idle but for `requires_action`, and all of them when there is none |
| TurnFields.CompleteExactly | src/k8srca/session.py:78-84 | a turn is complete if and only if that first event is terminated, or idle for `end_turn`, `retries_exhausted` or `budget_reached` |
| TurnFields.HeardPicked | src/k8srca/session.py:207-239 | what is heard of some events is those of the types consumed, in order, none left out |
| Consume.TurnOfHeard | src/k8srca/session.py:207-239 | events of other types change nothing in a turn, wherever they fall |
| Consume.HeardUpto | src/k8srca/session.py:207-239 | nor do they change where it stops |
| Consume.DoneIgnoresTheRest | src/k8srca/session.py:227-239 | once a turn is over, later events change nothing |
| Consume.DropsAreTransparent | src/k8srca/session.py:115-239 | consuming what a reader handed out across any drops gives the turn an unbroken reader would have given |
| Consume.CaughtUpIsDone | src/k8srca/session.py:115-239 | when the reader is level with the server, what it handed out is over if and only if the turn is, and gives the same turn |
| FactLines.Parse | skills/k8s-rca/kb_query.py:535-571 | a store holds at most one truth for a ground fact, and only known facts with their number of arguments; what each line puts there is `StoreExactly` |
| FactLines.ParseFacts | skills/k8s-rca/kb_query.py:540-571 | the loop over lines builds that store and lists the lines refused, which `RecordableExactly` and `RefusedExactly` pin |
| FactLines.RefusedExactly | skills/k8s-rca/kb_query.py:547-570 | a line is refused if and only if it cannot be recorded or contradicts the lines before it |
| FactLines.RecordableExactly | skills/k8s-rca/kb_query.py:542-563 | a line may be recorded if and only if it states a known fact with as many arguments as it takes, and no fact of timing unless derived; recorded is that fact, true unless denied, with the letter C, W, P, N or S where the parameter is that role by either name, and otherwise the argument as written |
| FactLines.RolesMakeNoDifference | skills/k8s-rca/kb_query.py:560-563 | two lines of one fact record the same ground fact if and only if they differ at most where a role stands |
| FactLines.OtherSignIsRefused | skills/k8s-rca/kb_query.py:560-570 | after a line accepted, one that says the opposite of it, but for what is written for a role, is refused |
| StoreRules.StoreExactly | skills/k8s-rca/kb_query.py:540-571 | the store has an entry for each line that is the first accepted to state its ground fact, with the truth that line gives it, in the order of those lines, and no other |
| StoreRules.RefusedRise | skills/k8s-rca/kb_query.py:540-571 | the lines refused are listed in their order, each once |
| FactLines.MoreLinesInclude | skills/k8s-rca/kb_query.py:566-570 | more lines never change or remove what earlier ones recorded |
| FactLines.UpdatedHas | skills/k8s-rca/kb_query.py:784-791 | one source over another holds exactly the later's facts and those of the earlier it says nothing of |
| FactLines.UpdateKeepsExactly | skills/k8s-rca/kb_query.py:784-791 | the earlier source is kept whole if and only if the later denies none of it |
| StoreRules.UpdatedKeepsPlaces | skills/k8s-rca/kb_query.py:784-791 | laying one source over another moves no fact there already, and adds new ones after it in their order |
| Search.ValueOf | skills/k8s-rca/kb_query.py:574-601 | the loops over the store and over comparisons, and the inference from a functional fact, yield the readings in order, or raise: just when a functional fact without arguments is read and an entry for it is recorded; what they are is `ReadingsExactly` |
| Search.FindOtherValue | skills/k8s-rca/kb_query.py:598-599 | the scan for another value of a functional fact finds one if there is one, and raises just when there is an entry for the fact and no last argument to compare |
| Search.Value | skills/k8s-rca/kb_query.py:595-601 | a condition always has some reading |
| Search.Search.Walk | skills/k8s-rca/kb_query.py:608-621 | the recursive search that updates one best result as it goes, and raises just when it comes to a condition that does |
| Search.Search.WalkEach | skills/k8s-rca/kb_query.py:620-621 | the loop over the readings of one condition |
| Search.FindAlternative | skills/k8s-rca/kb_query.py:604-623 | the whole search, from a false best result; none when it raises; when that is false, true or unknown is `AlternativeMeans` |
| Search.WalkedImproves | skills/k8s-rca/kb_query.py:607-615 | the best result never gets worse |
| Search.WalkedBounds | skills/k8s-rca/kb_query.py:608-621 | no reading of the alternative beats the result: cutting at false loses none |
| Search.WalkedReached | skills/k8s-rca/kb_query.py:612-615 | the result is some reading's, unless nothing beat what the walk began with |
| Search.AlternativeExact | skills/k8s-rca/kb_query.py:604-623 | the value is the maximum, over every chain of bindings, of the least of the conditions' values; unknown comes with a shortest list of unknowns, true with an empty one, false with the alternative itself |
| Search.TrueWhenHolds | skills/k8s-rca/kb_query.py:604-623 | true if and only if some chain of bindings makes every condition true |
| Readings.ReadingsExactly | skills/k8s-rca/kb_query.py:574-601 | just what a condition can be read as: by an entry of its fact that gives each free argument a value, true where the entry is as asked and its comparisons are met, false where it says otherwise, and unknown else; by another value of a functional fact; and unknown when there is neither. A denial turns true and false round |
| Readings.RecordedReads | skills/k8s-rca/kb_query.py:586-594 | with nothing left to bind and nothing to compare, a recorded entry is the only reading: true if and only if its truth is what is asked, and otherwise false |
| Readings.AnotherReads | skills/k8s-rca/kb_query.py:595-600 | a functional fact known only with another value is false, and its denial true, and nothing else |
| Readings.ComparedExactly | skills/k8s-rca/kb_query.py:587-592 | comparisons leave a value as it is if and only if all are met; the last one not met makes it false or unknown |
| Readings.AlternativeMeans | skills/k8s-rca/kb_query.py:604-623 | an alternative is false if and only if in every way of reading it through some condition is false, true if and only if in some way all are true; otherwise unknown, and what it lists is what reads unknown in some way in which nothing is false |
| Search.AlternativeSafeExactly | skills/k8s-rca/kb_query.py:595-623 | the search raises on no store that can be recorded if and only if the alternative tests no functional fact without parameters |
| Meaning.HoldsBySubstitution | skills/k8s-rca/kb_query.py:574-623 | on any store where no variable used again later can be bound to a value that is open there, nor to its own name, an alternative holds if and only if one choice of values for its variables makes each condition true by itself: by an entry with those arguments, or, for a denial with no variable of its own, by another value of a fact nothing else is recorded of |
| Meaning.RolesNeverReopen | skills/k8s-rca/kb_query.py:576-580 | so it is for every alternative on a store of role letters and values without a capital |
| Meaning.OpenAgainHolds | skills/k8s-rca/kb_query.py:577-592 | `f[X]` and `g[X]` on `f[Y]` and `g[z]`: the search binds `X` to `Y` and `Y` to `z`, and finds true what no choice of values makes so |
| Stability.TruePersists | skills/k8s-rca/kb_query.py:574-601 | a true reading survives more evidence that gives each functional fact one true value, unless it is brittle |
| Stability.BrittleBreaks | skills/k8s-rca/kb_query.py:586-600 | a brittle reading is lost when its own fact is recorded false |
| Stability.TruePersistsExactly | skills/k8s-rca/kb_query.py:574-601 | a true reading survives all such evidence if and only if it is not brittle |
| Stability.SinglePersistsExactly | skills/k8s-rca/kb_query.py:574-623 | a one-condition alternative goes on holding on all evidence if and only if the condition is not a denial of a functional fact with a comparison and nothing open |
| Lasting.AlternativePersists | skills/k8s-rca/kb_query.py:574-623 | an alternative made true by some reading none of whose steps is brittle holds, open variables and all, on every growth of the evidence, and by such a reading still |
| Lasting.SteadyIsFirm | skills/k8s-rca/kb_query.py:574-623 | an alternative each of whose denying comparisons keeps an argument open that nothing before it can bind never holds but by such a reading |
| Lasting.SteadyAlone | skills/k8s-rca/kb_query.py:574-623 | for one condition that is exactly what it takes to last |
| Lasting.LastingIsNotFirm | skills/k8s-rca/kb_query.py:574-623 | the converse fails step by step: an alternative whose one true reading has a brittle step, and which holds on every growth all the same |
| Lapsing.LastsExactly | skills/k8s-rca/kb_query.py:574-623 | of any length: where each denying comparison keeps an argument open the alternative lasts on all growth; where one has nothing open, nothing that can be bound before it and no variable compared that can be (a sealed one), it lasts if and only if no evidence makes it hold |
| Lapsing.EvidenceAgainstAll | skills/k8s-rca/kb_query.py:595-600 | on any evidence, denials bring all alternatives of the second kind to an end at once |
| Availability.CheapestOf | skills/k8s-rca/kb_query.py:146-180 | the least cost among the condition's producers available here, or none when there is none |
| Availability.CostOf | skills/k8s-rca/kb_query.py:168-180 | a cost exists if and only if every condition can be observed here, and is the least bound on the conditions' cheapest checks |
| Availability.NeedsMeanAvailable | src/k8srca/kb/knowledge.py:615-627 | a condition is observable, at build and at run, when a capability here is among those its producers require |
| Availability.ConditionAgreesExactly | src/k8srca/kb/knowledge.py:620-627 | build and run agree on a condition for all capabilities if and only if they look to the same requirements, which they do unless it names an empty change kind |
| Availability.DecidableMeansCosted | src/k8srca/kb/knowledge.py:630-633 | where build and run look at the same requirements for each condition, as they do unless it names an empty kind, what the build calls decidable has a cost at run time, and the reverse |
| Availability.AlternativeAgreesExactly | src/k8srca/kb/knowledge.py:630-633 | given what there always is (at run time `k8stools`; nothing, for any set whatever), build and run agree on an alternative for all capabilities if and only if each condition's needs at run that this does not meet have some condition's needs at build within them, and the reverse |
| Availability.EmptyKindDisagrees | skills/k8s-rca/kb_query.py:146-153 | knowledge with a change kind named by nothing, where they do not |
| Availability.MissingExactly | skills/k8s-rca/kb_query.py:156-165 | nothing is reported missing if and only if every condition not observable here has no producer at all; with a producer for each, if and only if the alternative can be decided |
| Availability.MissingWouldHelp | skills/k8s-rca/kb_query.py:156-165 | a capability is reported missing if and only if with it as well some condition that is not observable here would be |
| Standings.Status | skills/k8s-rca/kb_query.py:644-678 | a standing's grade is 0 to 3, is its verdict's, and is 0 exactly without support; what it is on any store is `StatusExactly` |
| Standings.TopForIs | skills/k8s-rca/kb_query.py:651-655 | the `for` that counts holds, and none that holds outweighs it |
| Standings.StatusMeans | skills/k8s-rca/kb_query.py:644-678 | conflicting, ruled out and the grade in terms of what holds, both ways: the grade is the best weight of a `for` that holds, less two for each strong `against` that holds and one for each moderate, and not below 0; without support, open if and only if something that would move it could be found out here |
| Standings.LoweringCounts | skills/k8s-rca/kb_query.py:662-664 | an `against` that holds lowers the grade by two if strong, by one if moderate, and by nothing if weak, once for each place it is listed |
| StatusRule.StatusExactly | skills/k8s-rca/kb_query.py:644-678 | the whole standing by what is recorded: verdict, grade, the alternatives that decided it and the `against` listed, each in the claim's order and as often |
| StatusRule.MovedMeansLeft | skills/k8s-rca/kb_query.py:665-677 | something would still move the claim if and only if some rules_out, or some `for` heavier than all that hold, is unknown, and each condition unknown in it is prose or one no fact of timing and seen by an action available here |
| Standings.StandingShowsWhy | skills/k8s-rca/kb_query.py:655-678 | every alternative a standing lists holds, a ruled out or conflicting one lists all that rule it out, and the `against` listed are exactly those that hold |
| Standings.VerdictPersists | skills/k8s-rca/kb_query.py:655-660 | as evidence grows conflicting stays conflicting, and ruled out stays so or becomes conflicting, when what makes the claim so holds by a reading without a brittle step |
| Standings.SteadyClaimIsFirm | skills/k8s-rca/kb_query.py:655-660 | on whatever is recorded, when each denying comparison of the claim keeps an argument open that nothing before it can bind |
| Standings.MoreLinesKeepVerdict | skills/k8s-rca/kb_query.py:655-660 | so adding lines to a facts file never takes such a verdict back |
| Standings.RuledOutCanLapse | skills/k8s-rca/kb_query.py:655-660 | a claim each of whose rules_out has a sealed denying comparison, whatever its `for`: on any evidence at all, more can be recorded on which it is neither ruled out nor in conflict |
| Standings.StaysDeadExactly | skills/k8s-rca/kb_query.py:655-660 | where each rules_out is steady (each denying comparison keeps an argument open) or has a sealed denying comparison of a fact no steady one tests, the claim stays ruled out or in conflict on all growth if and only if no evidence rules it out by unsteady ones alone |
| Standings.StaysDeadOfOneKind | skills/k8s-rca/kb_query.py:655-660 | so it does when all are steady; and when each has a sealed denying comparison, if and only if none can ever hold |
| Standings.StatusSafeExactly | skills/k8s-rca/kb_query.py:644-654 | `status` of a claim raises on no store that can be recorded if and only if none of its alternatives tests a functional fact without parameters |
| OpenWalk.Lifted | skills/k8s-rca/kb_query.py:814-820 | lifting never lowers a claim's grade nor takes it past strong |
| WalkRules.LiftedExactly | skills/k8s-rca/kb_query.py:814-820 | a claim is lifted if and only if some sub-cause met has a higher grade: then to the highest, by the last by name of those that have it, keeping what counts against it and no alternative of its own |
| WalkRules.PrecedesExactly | skills/k8s-rca/kb_query.py:816 | one name is before another if and only if at the first place they differ it ends or has the smaller character |
| OpenWalk.Visited | skills/k8s-rca/kb_query.py:799-820 | a visit ends, meets its claim, forgets none met before, and gives each just one standing |
| OpenWalk.VisitExtends | skills/k8s-rca/kb_query.py:799-820 | a visit changes no standing and no parent given before it |
| OpenRun.Walker.constructor | skills/k8s-rca/kb_query.py:796-797 | nothing met, and the candidates as the one group |
| OpenRun.Walker.Visit | skills/k8s-rca/kb_query.py:799-820 | the recursive visit, updating what is seen, the rows, standings, parents and groups in place, is the function `Visited`, and stops just when it newly meets a claim whose `status` raises |
| OpenRun.Walker.VisitSubCauses | skills/k8s-rca/kb_query.py:807-809 | its loop over the common sub-causes |
| OpenRun.Walker.Close | skills/k8s-rca/kb_query.py:810-820 | its group, the uncommon sub-causes held back, and the lift written over its row |
| OpenRun.Open | skills/k8s-rca/kb_query.py:821-823 | the whole walk, left as the functions say and hanging together; none when it meets a claim whose `status` raises |
| OpenTheorems.BestOfIsGreatest | skills/k8s-rca/kb_query.py:816 | the sub-cause a claim is lifted by is above every other by grade and then by name, in whatever order they are listed |
| OpenTheorems.OpenedSettled | skills/k8s-rca/kb_query.py:796-822 | on an acyclic graph every claim met has the standing its own and its sub-causes' final standings give it |
| WalkRules.OpenedStandsAs | skills/k8s-rca/kb_query.py:796-822 | on an acyclic graph every claim met keeps its own standing if it is ruled out or in conflict or no common sub-cause has a higher final grade, and otherwise has its best sub-cause's |
| OpenTheorems.OpenedGrades | skills/k8s-rca/kb_query.py:814-822 | a claim's grade is the well-founded recursion's: 0 when ruled out or conflicting, else the greatest of its own and its common sub-causes' final grades |
| OpenTheorems.SettledUnique | skills/k8s-rca/kb_query.py:814-822 | only one assignment of standings settles, down to the sub-cause each claim was lifted by |
| OpenTheorems.OpenedReached | skills/k8s-rca/kb_query.py:799-822 | the claims met are exactly those that live common edges lead to from a candidate |
| OpenTheorems.OrderOfCandidatesIsNoMatter | skills/k8s-rca/kb_query.py:796-822 | neither what is met nor any standing depends on the order, or repetition, of the candidates |
| OpenTheorems.OrderOfSubCausesIsNoMatter | skills/k8s-rca/kb_query.py:806-822 | nor on the order in which the sub-causes of any claim are listed and visited, down to which of them a claim is lifted by |
| OpenRows.OpenParents | skills/k8s-rca/kb_query.py:807-809 | every parent is a live claim met, with the child among its common sub-causes |
| OpenRows.VisitKeepsRows | skills/k8s-rca/kb_query.py:804-820 | a visit rewrites no row but its own claims', and rows are only added after |
| OpenRows.OpenRowsFirst | skills/k8s-rca/kb_query.py:796-822 | each claim met has exactly one row, with its final standing; a row at depth 0 is a candidate's; a deeper one has its parent's row earlier, one level up |
| Ranking.OpenedCoherent | skills/k8s-rca/kb_query.py:796-823 | all of this holds together after `open`, with a group for the candidates and one for every live claim with common sub-causes |
| WalkRules.GroupsAre | skills/k8s-rca/kb_query.py:796-811 | the groups are the candidates' and one for each live claim met with common sub-causes: those first met under it, in the order and as often as it lists them |
| HeldRows.HeldExactly | skills/k8s-rca/kb_query.py:806-813 | each live claim met with uncommon sub-causes has one row that holds them back, right after all rows below it and one deeper; and there is no other such row |
| Uncommons.SubCausesSplit | skills/k8s-rca/kb_query.py:224-232 | the common sub-causes are those not uncommon and the rest are the uncommon, each in the order and as often as listed |
| Uncommons.UncommonOnlyAsCandidate | skills/k8s-rca/kb_query.py:806-823 | an uncommon claim is met only if it is a candidate |
| Uncommons.UncommonHeldBack | skills/k8s-rca/kb_query.py:806-813 | on any knowledge, each live claim met that has uncommon sub-causes has one row holding back just those, in its order, and no row holds back anything else |
| Ranking.LoneTopLeads | skills/k8s-rca/kb_query.py:693-699 | a lone member at the top grade is one strictly above every sibling |
| Ranking.RankGroups | skills/k8s-rca/kb_query.py:688-709 | the leaders are exactly the members with support strictly above every sibling's |
| Ranking.OneLeaderPerGroup | skills/k8s-rca/kb_query.py:698-699 | no group has two leaders |
| Ranking.SupportRises | skills/k8s-rca/kb_query.py:814-820 | along a path of live claims nothing is better supported than where the path began |
| Ranking.AboveIsACandidate | skills/k8s-rca/kb_query.py:814-822 | every claim met is no better supported than some candidate |
| Ranking.CandidateLeaderOnTop | skills/k8s-rca/kb_query.py:799-822 | the candidates' leader is as well supported as anything met, and its row is at depth 0 |
| Ranking.LeadKinds | skills/k8s-rca/kb_query.py:688-709 | a leader leads the candidates or the siblings under its own parent |
| Ranking.OneLeaderBelow | skills/k8s-rca/kb_query.py:886-890 | a claim has at most one leader below it, so scanning a set for it is no choice |
| Ranking.LeaderChain | skills/k8s-rca/kb_query.py:882-890 | the loop ends, and leaves the chain from the first row at the top that leads down to a leader with none below |
| Ranking.ParentsRankHigher | skills/k8s-rca/kb_query.py:799-811 | each parent ranks above its child, which is what ends the loop |
| Ranking.LeaderChainUnique | skills/k8s-rca/kb_query.py:886-890 | there is only one finished chain from a head |
| Ranking.NoEndOnACycle | skills/k8s-rca/kb_query.py:886-890 | on a cycle of leaders no chain would end |
| LeaderCycle.CycleNeverEnds | skills/k8s-rca/kb_query.py:886-890 | two claims that refine each other, one of them supported and opened: each leads under the other, and no chain from the top ends |
| Ranking.HeadExactly | skills/k8s-rca/kb_query.py:882-885 | after a walk: the chain's head is the candidates' leader, and there is a chain just when they have one, if and only if no candidate leads as a sub-cause from a row at the top with no leader of the candidates above it |
| HeadOfChain.HeadAlwaysLeadsExactly | skills/k8s-rca/kb_query.py:796-823 | before any: that is so for all standings of the claims if and only if no trail of common sub-causes goes down to a candidate from one listed after it, past all listed before, each claim of it listing the next before the end and the last listing the end once |
| HeadOfChain.HeadAlwaysLeadsWithoutRepeats | skills/k8s-rca/kb_query.py:796-823 | where no claim lists a sub-cause twice: if and only if no trail at all goes down there past the candidates listed before |
| Overtaking.OvertakingNeedsTrail | skills/k8s-rca/kb_query.py:799-809 | a candidate that overtakes got its parent from a walk begun at a candidate listed later, and the way that walk took shows such a trail |
| HeadOfChain.RiggedIsOvertaken | skills/k8s-rca/kb_query.py:799-820 | for a shortest such trail: its end weak, the rest of it undecided and all else ruled out, the walk goes straight down it and the end overtakes |
| Ranking.HeadLeadsCandidates | skills/k8s-rca/kb_query.py:882-885 | so it is, whatever the facts, when no candidate is a common sub-cause |
| Ranking.HeadCanBeBeaten | skills/k8s-rca/kb_query.py:877-892 | three candidates of which a weaker one heads the chain although another leads |
| Beaten.BeatenOnFacts | skills/k8s-rca/kb_query.py:796-892 | those three on knowledge that passes the check and two recorded facts, whatever else there is to observe with |
| Refinement.CycleFinder.Visit | src/k8srca/kb/knowledge.py:597-605 | the depth-first visit that carries its path reports only cycles, and finishes sub-causes before claims but for the steps its cycles end in |
| Refinement.CycleFinder.VisitSubs | src/k8srca/kb/knowledge.py:603-604 | its loop over a claim's sub-causes |
| Refinement.CycleFinder.Report | src/k8srca/kb/knowledge.py:598-600 | a cycle found is the path from the claim on, and the claim again |
| Refinement.RefinementCycles | src/k8srca/kb/knowledge.py:594-609 | problems are reported if and only if the refinement graph has a cycle; each reported is one that goes through no claim twice, and every cycle there is has the last step of one reported |
| Refinement.RankedExactly | src/k8srca/kb/knowledge.py:594-609 | the claims can be ranked, every sub-cause below what it refines, if and only if there is no cycle |
| Refinement.Reachable | src/k8srca/kb/knowledge.py:538-549 | the least set that has the candidates and is closed under refinement |
| Layers.Combine | src/k8srca/kb/knowledge.py:348-378 | the loop over layers is the fold of the merge, refinements folded in at the end |
| Layers.NoCandidateTakenAway | src/k8srca/kb/knowledge.py:354-361 | a combined symptom lists a claim if and only if some layer lists it there |
| Layers.HigherCandidatesFirst | src/k8srca/kb/knowledge.py:354-361 | higher layers' candidates come first, and none is added twice |
| Layers.HighestDefinitionWins | src/k8srca/kb/knowledge.py:363-371 | a fact or claim is the highest layer's that defines it, and a claim keeps the sub-causes it was defined with first |
| Layers.HighestOfTheRestWins | src/k8srca/kb/knowledge.py:363-371 | so are alerts, actions and kinds of change |
| Layers.RefinementSurvives | src/k8srca/kb/knowledge.py:373-393 | a sub-cause any layer adds to a claim any layer defines is among that claim's |
| Layers.FoldedTwice | src/k8srca/kb/knowledge.py:381-393 | folding refinements in twice is folding them in once |
| LayerRules.MergedExactly | src/k8srca/kb/knowledge.py:348-378 | one layer over others, list by list: its candidates and then theirs that it has not; what they add to a claim and exclude and then what it has that they have not; and its definitions in place of theirs |
| LayerRules.FoldedExactly | src/k8srca/kb/knowledge.py:381-393 | folding changes no claim but by what is added to it, after its own sub-causes, and nothing else |
| LayerRules.ClaimsExactly | src/k8srca/kb/knowledge.py:363-371 | a claim is there if and only if some layer defines it |
| LayerRules.SubCausesExactly | src/k8srca/kb/knowledge.py:373-393 | its sub-causes are those the highest layer that defines it gives it and those any layer adds, and no others |
| LayerRules.ExclusiveExactly | src/k8srca/kb/knowledge.py:372-376 | two claims exclude each other if and only if some layer says so |
| Check.CheckDefinitions | src/k8srca/kb/knowledge.py:418-455 | symptoms, alerts, actions, changes and facts: reported are just those at fault, each as what it is; silent if and only if every name resolves and every fact has a producer |
| Check.CheckActions | src/k8srca/kb/knowledge.py:426-455 | its loops over actions, change kinds and facts report just those at fault |
| Check.CheckClaims | src/k8srca/kb/knowledge.py:465-535 | claims, added refinements and exclusions: reported are just those at fault; silent if and only if each is well formed |
| Check.CheckKnowledge | src/k8srca/kb/knowledge.py:408-516 | the check is silent if and only if all that holds and refinement has no cycle; it reports nothing that is not so, and leaves out nothing but cycles that have the last step of one reported |
| Passing.PassesExactly | src/k8srca/kb/knowledge.py:408-535 | the same, said of the names in the knowledge: knowledge passes if and only if every name stands for something there is, facts are seen by some action, alternatives test facts with their number of arguments, a change stands with an observed onset and a known kind, claims can be supported and ruled out, an uncommon claim is some claim's sub-cause, pairs are siblings, and no claim comes back to itself |
| OpenSymptom.CheckedResolves | src/k8srca/kb/knowledge.py:473-490 | on any checked knowledge every fact a claim names, with its arguments, and every sub-cause resolves |
| OpenSymptom.GraphOfRanked | src/k8srca/kb/knowledge.py:594-609 | a rank of the refinement graph is one of what `open` walks |
| OpenSymptom.GroupsStand | skills/k8s-rca/kb_query.py:692-697 | every member of every group has a standing when it is ranked |
| OpenSymptom.WideningLosesNothing | skills/k8s-rca/kb_query.py:390-409 | a symptom opened in place of another leads by refinement to every claim the other would have |
| OpenSymptom.WidenedIsMet | skills/k8s-rca/kb_query.py:390-409 | and `open` meets each candidate of the other, unless it is uncommon or the claim it is a kind of is ruled out or in conflict |
| OpenSymptom.OpenStandings | skills/k8s-rca/kb_query.py:796-823 | for any standings, walk, ranking and chain all end, with every lookup made, unless a claim is met whose `status` raises |
| OpenSymptom.OpenSymptom | skills/k8s-rca/kb_query.py:767-825 | on checked knowledge, for every name, store and set of capabilities, `open` answers if and only if the name is a symptom's or an alert's; it raises just when it meets a claim whose `status` does, and otherwise every claim, fact, action and parent it looks up is there |
| Answers.NamedExactly | skills/k8s-rca/kb_query.py:767-774 | the symptom of a name is the one its alert maps to, or the name itself, if there is such a symptom |
| Answers.OpensForExactly | skills/k8s-rca/kb_query.py:390-409 | another symptom is opened if and only if a candidate of it has all of the asked one's, of which there are some, among its sub-causes |
| Answers.OwnStandingsAre | skills/k8s-rca/kb_query.py:799-804 | the standing a claim is met with is the rule's on the knowledge's own facts, actions, kinds of change and claims |
| Answers.OpenRaisesExactly | skills/k8s-rca/kb_query.py:799-823 | opening raises if and only if it meets a claim one of whose rules_out, `for` or `against` raises |
| OpenSymptom.MetIsReachable | src/k8srca/kb/knowledge.py:538-549 | every claim `open` meets is one the build calls reachable |
| OpenSafety.OpenSafeExactly | skills/k8s-rca/kb_query.py:796-823 | a symptom opens without raising on every store that can be recorded if and only if no trail of common sub-causes leads from its candidates, through claims nothing rules out for free, to one that tests a functional fact without parameters |
| OpenSafety.CheckAllowsNullaryFunctional | skills/k8s-rca/kb_query.py:595-598 | knowledge that passes the check, a line of facts that is accepted, and the opening that then raises |
| FactLog.OpenLog | src/k8srca/facts/log.py:30-34 | a log opens holding what its file reads as, unless a line is JSON that is no object, and then it raises |
| FactLog.HostLog.Add | src/k8srca/facts/log.py:36-68 | adding re-reads the file, numbers what is new and appends just that, in one step under the lock; it raises, and writes nothing, just when the file cannot be read or a new fact needs an id and one in the file is not text |
| FactLog.RecordFact | skills/k8s-rca/kb_query.py:504-519 | the agent's writer appends one line, numbered past the highest id in the text |
| FactLog.FreshIds | src/k8srca/facts/log.py:56-88 | new facts are numbered one by one past the highest id held |
| LogRules.HostAppends | src/k8srca/facts/log.py:56-68 | of the facts given those are new that agree in subject, key, value and statement with none held and none given before; they take the numbers after the highest held, in order, and a source if they have none, and are otherwise as given; each fact given comes back as the first held that agrees with it |
| LogRules.HostWrites | src/k8srca/facts/log.py:36-54 | what is held is what the lines' facts are, in order; adding raises if and only if a line is JSON and no object, or some fact is new and an id is neither text nor false; otherwise the new facts follow the lines, each with its value as it reads back |
| LogRules.AgentAppends | skills/k8s-rca/kb_query.py:504-532 | the agent's fact follows the lines as given, numbered one past the highest `F<n>` of any fact or other JSON object, marked as the agent's, its value as it reads back |
| FactLog.AppliedTidy | src/k8srca/facts/log.py:44-54 | either writer only appends, and keeps ids strictly increasing down the file |
| FactLog.EveryInterleaving | src/k8srca/facts/log.py:22-68 | so does every interleaving of the two, after which the two ways to find the next id agree |
| FactLog.IdsUnique | src/k8srca/facts/log.py:22-28 | no two lines share an id |
| FactLog.NextIdsAgreeExactly | skills/k8s-rca/kb_query.py:522-532 | the two find the same next id if and only if the host can read the file and its ids, and neither another JSON object nor a fact whose id ends in a line end has an id above all other facts', unless the highest of both is the same |
| FactLog.EndedIdDisagrees | src/k8srca/facts/log.py:82-88 | a file of one fact with the id `F<n>` and a line end: the host goes on from n, the agent from 1 |
| FactLog.OpensExactly | src/k8srca/facts/log.py:91-98 | a file the host cannot read stays so whatever is appended, and one the writers kept never becomes so |
| FactLog.AddedAgainIsKnown | src/k8srca/facts/log.py:57-62 | a batch that survives JSON, once added and added again at any later time, gets the same facts back, and writes nothing |
| FactLog.AddedAgainExactly | src/k8srca/facts/log.py:57-62 | adding a batch again writes nothing if and only if its values survive JSON |
| Render.NumberId | src/k8srca/facts/render.py:68-74 | each id is numbered, or noted as naming nothing, once, where it is first read |
| Render.NoteId | src/k8srca/facts/render.py:68-75 | a marker's notes so far are those of the final numbering of what it names |
| Render.NumberMarker | src/k8srca/facts/render.py:66-76 | its loop over one marker's ids |
| Render.PrintToken | src/k8srca/facts/render.py:66-78 | a marker prints as its notes, and text as itself |
| Render.Render | src/k8srca/facts/render.py:60-83 | one scan that numbers as it goes prints what numbering the whole answer first would |
| Render.NumberedByFirstUse | src/k8srca/facts/render.py:73-75 | an id read for the first time gets one more than all numbered before it |
| Render.MarkersSplit | src/k8srca/facts/render.py:68-79 | each marker id is cited or unresolved and never both, and neither list repeats |
| Render.NotesAreFaithful | src/k8srca/facts/render.py:75-82 | each number in the prose stands for a note, which is the fact of the id it replaced |
| RenderRules.PrintedExactly | src/k8srca/facts/render.py:60-83 | text prints as it is; a marker prints a number for each of its ids that names a fact, in order, and the note of that number is the last fact with that id |
| RenderRules.ByIdIsLast | src/k8srca/facts/render.py:62 | an id names the last fact that has it, and nothing if none has |
| Render.NoteIsTheFactShown | src/k8srca/facts/render.py:62 | on a log the two writers kept, an id names the one line that has it |
| Render.NoteIsWhatWasShown | src/k8srca/facts/log.py:101-106 | what a fact came back with when it was added, and was shown with, is the statement and scope its id names in every later reading of the log |
| Duration.HumanText | src/k8srca/facts/model.py:62-74 | the printing loop, whole seconds in |
| Duration.NumberOfDigits | src/k8srca/facts/derive.py:731-733 | a count's numeral reads as the count |
| Duration.PartsReadBack | src/k8srca/facts/derive.py:731-733 | one or two printed parts are found again in the text, in order |
| TextRules.FindsAll | src/k8srca/facts/derive.py:731-733 | of any text: what is read is each run of digits before a unit, as far back as digits go, left to right, none left out |
| Duration.ClockReadsBack | src/k8srca/facts/model.py:66-74 | what is read of a printed duration is its two first counts that are not zero |
| Duration.ReadIsGreatest | src/k8srca/facts/model.py:62-74 | for every positive duration that is the greatest of at most two units not above it, less than one of the last unit printed below |
| Duration.ReadIsMonotone | src/k8srca/facts/derive.py:731-733 | a longer duration never reads shorter |
| Duration.PrintedAgain | src/k8srca/facts/derive.py:731-733 | printing what was read gives the same text |
| Duration.ZeroIsLost | src/k8srca/facts/derive.py:733 | nought seconds print, and read as none |
| TextRules.NegativePrints | src/k8srca/facts/model.py:62-74 | a negative duration prints as its seconds with a sign, in no larger unit |
| Chunk.CutOf | src/k8srca/slack/relay.py:70-75 | the last blank line in the second half of the window, else the last line end there, else the whole window |
| Chunk.CutPart | src/k8srca/slack/relay.py:70-77 | a part within the limit, and strictly less left: the window cut in the one place it is to be, the part without the white space it ends in, the rest without the line ends it begins with |
| Chunk.CutLosesNothing | src/k8srca/slack/relay.py:76-77 | nothing but white space goes between a part and the rest |
| Base.SpacesAre | src/k8srca/slack/relay.py:76 | white space is just those 29 characters; of printing ASCII only the space is |
| Base.RStrippedIs | src/k8srca/slack/relay.py:76 | stripping the end takes white space only, and all there is |
| Chunk.LStrippedIs | src/k8srca/slack/relay.py:77 | stripping the start takes line ends only, and all there are |
| Chunk.CutParts | src/k8srca/slack/relay.py:69-77 | the loop ends with at least one part and no more than the limit left, each part cut so off what remained before it |
| Chunk.ChunkText | src/k8srca/slack/relay.py:63-80 | for every text and positive limit: at least one part, each within the limit, every other character than white space kept in order, each cut where it is to be; a text within the limit is left alone |
| Chunk.ChunkedOneWay | src/k8srca/slack/relay.py:63-80 | there is one way for a text to come apart so |
| Chunk.ZeroLimitStands | src/k8srca/slack/relay.py:69-77 | with a limit of 0 the loop makes no progress |
| Poller.Inflight.Accept | src/k8srca/worker/poller.py:123-128 | an id is accepted if and only if it is not in flight, and is in flight after |
| Poller.Inflight.Discard | src/k8srca/worker/poller.py:111-113 | a finished id is no longer in flight |
| Poller.AlwaysSafe | src/k8srca/worker/poller.py:91-129 | in every interleaving the ids in flight are those in hand, once each; no more workers than allowed are busy; every acceptance is released or in flight |
| Poller.NeverTwice | src/k8srca/worker/poller.py:123-128 | no id is queued and running, or either twice, at one time |
| Poller.IdleHasReleasedAll | src/k8srca/worker/poller.py:111-113 | with nothing in hand, every acceptance has been released exactly once |
| Poller.ClaimedExactly | src/k8srca/worker/poller.py:117-129 | an item claimed is accepted if and only if it is of kind `session` and nothing in hand has its id; otherwise nothing changes |
| Poller.FirstInFirstOut | src/k8srca/worker/poller.py:108-129 | in every interleaving, items start in the order they were accepted |
| Poller.Workspaces.SessionImage | src/k8srca/worker/poller.py:43-56 | the first spawn of a session uses its poller's image, and any later one the slice of the first's that begins and ends with no white space, where all before and after it is white space |
| Poller.MarkerIsFirst | src/k8srca/worker/poller.py:43-56 | a session's marker is for ever what its first spawn recorded |
| Poller.SessionKeepsItsImage | src/k8srca/worker/poller.py:43-56 | a later spawn uses that slice of the first one's image whatever its poller is configured with; the two are one image if and only if it has no white space at either end |
| Poller.StrippedIs | src/k8srca/worker/poller.py:51-52 | stripping an image leaves such a slice |
| Poller.TrimmedOnce | src/k8srca/worker/poller.py:51-52 | there is only one |

## Left out

- Standings.Status: does not model `missing`, the two cheapest alternatives still unknown; only whether there is one.
- Standings.VerdictPersists: one direction, firm readings only. `StaysDeadExactly` is exact unless a sealed denying comparison is of a fact that a steady rules_out tests, or an unsteady rules_out has none that is sealed, but only denying comparisons of variables that may have been bound before, of which `LastingIsNotFirm` is one that lasts.
- Lapsing.LastsExactly: leaves out alternatives with a denying comparison that neither keeps an argument open nor is sealed, unless another one is sealed; that an alternative can hold at all is not decided from its text.
- HeadOfChain.HeadAlwaysLeadsExactly: is over all standings of the claims; which of them the facts can bring about together depends on what the claims test, and `BeatenOnFacts` is one case.
- Ranking.RankGroups: does not model the tie's cheapest separating check, nor the lines printed about each group.
- Check.CheckKnowledge: does not model tool names and `call`, the wording checks on a fact's sentence and name, alert hypotheses and their conversion, `refines_alert`, and the reports of prose, undecidable claims and literals. A bad definition is one problem however many faults it has.
- OpenSymptom.OpenSymptom: picks any symptom to widen to, where the code takes the first in the file's order; the early return when nothing is recorded of the workload asked about comes before it, and the store is what was read.
- Layers.Combine: does not model titles, sources, provenance or the list of hidden definitions; `converts` tables are not part of this model.
- Search.ValueOf: takes a capital to be `A` to `Z`, and the store as a sequence of entries in the order they were added.
- FactLines.ParseFacts: starts from lines already split into fact and arguments.
- Search.Value: is what is read where reading does not raise; a store holds entries with as many arguments as their fact takes, as the one reader of fact lines makes it.
- FactLog.HostLog.Add: does not model a file that cannot be opened or written, where ids would be handed out and not kept; facts are values here, while the code fills in the id of the object it was given.
- FactLog.RecordFact: does not model the refusal of a line that does not parse, nor the fields printed.
- FactLog.NextIdsAgreeExactly: does not model JSON nested too deep to be read, nor a number of more digits than Python converts, on which both writers stop.
- Render.Render: ids are numbers, so that `F07` and `F7`, which no writer here both writes, are one id; an answer is text and markers already told apart; trailing white space and the layout of the Evidence block are not modelled.
- Duration.HumanText: `unknown` for no duration and the rounding of fractions come before it; digits are `0` to `9`.
- Poller.SessionKeepsItsImage: does not model a marker half written, nor two pollers at once.
- Consume.ConsumeSlack: does not model the edits to the placeholder message, nor progress callbacks.
- TurnLimits.NoEndlessRun: states that no endless run exists, as a contradiction; time and the clock are not modelled beyond the waits asked for.
- The text `open` prints, the claims an answer owes and the saved standings: wording and bookkeeping around the walk.
- `lookup`, `search`, `related`, `refine`, `promql` and `list`: lookups that would add easy members.
- Derivation of facts from results, text heuristics, mining, evaluation, scenarios, and all Docker, SSH, Slack, MCP and Anthropic calls: outside the model, or present only as the environment's moves.
