/** The composed money path: claim, fence, record the intent, broadcast, link or abandon, then
    release or hand off. Many workers run it for one execution id, with renewals, store outages and
    crashes between any two steps. The fence and the broadcast are separate steps. */
module Broadcasts {
  import opened Common
  import opened Claims
  import Store = ClaimRuns

  /** What an attempt returned to the journal, if it did not fail, and whether its caller reads the outcome as
      ambiguous. */
  datatype Receipt = Receipt(signature: Option<string>)
  datatype Report = Report(out: Result<Receipt>, ambiguous: bool)

  function Signature(r: Receipt): Option<string> { r.signature }

  /** The signature that proves the attempt left the process: none after an error, nor for an empty one. */
  function ProvenSignature<T>(out: Result<T>, signatureOf: T -> Option<string>): (sig: Option<string>) {
    match out
    case Err(_) => None
    case Ok(v) => if signatureOf(v) == Some("") then None else signatureOf(v)
  }

  datatype IntentState = Open | Linked | Abandoned
  datatype Intent = Intent(recordedAt: int, state: IntentState, report: Option<Report>)

  /** The journal's verdict on a report. */
  function Settled(r: Report): IntentState {
    if ProvenSignature(r.out, Signature).Some? then Linked else Abandoned
  }

  /** An intent is linked exactly by an attempt that succeeded with a signature that is not empty. */
  lemma LinkedIff(r: Report)
    ensures Settled(r) == Linked
            <==> r.out.Ok? && r.out.value.signature.Some? && |r.out.value.signature.value| > 0
  {
  }

  /** One broadcast: the intent it was journaled under, when its fence passed, when it was sent, and whether its
      outcome was then unproven. This is what happened, whatever the attempt reported. */
  datatype Broadcast = Broadcast(intent: nat, fencedAt: int, sentAt: int, unproven: bool)

  datatype Phase =
    | Ready | Fenced(at: int) | Recorded(at: int) | Settling(report: Report) | Closing(ambiguous: bool) | Gone
  datatype Ending = Ending(handedOff: bool, at: int)

  /** The life of one issued guard and its worker. `leaseUntil` is the lease end the store granted, `ending` the
      terminal transition it applied. */
  datatype Episode = Episode(guard: Guard, grace: nat, leaseUntil: int, phase: Phase, intents: seq<Intent>,
                             broadcasts: seq<Broadcast>, ending: Option<Ending>)

  datatype State = State(ledger: Store.Ledger, episodes: map<string, seq<Episode>>) {
    function Of(id: string): seq<Episode> {
      if id in episodes then episodes[id] else []
    }
  }

  const INIT := State(Store.EMPTY, map[])

  function Issued(c: ExecutionClaim, ctx: StoreContext): Episode {
    Episode(Guard(c, ctx.lease, 0, false), ctx.handoffGrace, c.leaseUntil, Ready, [], [], None)
  }

  datatype Outcome = NotSent | Sent(unproven: bool)

  /** `Send` is what became of the attempt and what it reported; the two need not agree. */
  datatype Act =
    | Fence(reachable: bool)
    | Record
    | Send(outcome: Outcome, report: Report)
    | Settle
    | Renew(stampedAt: int, reachable: bool)
    | Finish(reachable: bool)
    | Crash

  datatype Op = Acquire(req: ClaimRequest, ctx: StoreContext) | Work(id: string, k: nat, act: Act)
  datatype Event = Event(now: int, op: Op)

  /** A worker finishes as ambiguous when its last attempt reported so, and not after an error, a failed fence or a
      step that failed before the broadcast. */
  function FinishMode(p: Phase): ClaimStatus {
    if p == Closing(true) then HandedOff else Released
  }

  /** One step of the worker of episode `ep`; a step its phase does not allow changes nothing. */
  function ActOn(rows: Rows, ep: Episode, act: Act, now: int): (r: (Rows, Episode)) {
    match act
    case Fence(reachable) =>
      if !ep.phase.Ready? then (rows, ep)
      else if FenceResult(rows, ep.guard, now, reachable).Ok? then (rows, ep.(phase := Fenced(now)))
      else (rows, ep.(phase := Closing(false)))
    case Record =>
      if !ep.phase.Fenced? then (rows, ep)
      else (rows, ep.(phase := Recorded(ep.phase.at), intents := ep.intents + [Intent(now, Open, None)]))
    case Send(outcome, report) =>
      if !ep.phase.Recorded? || ep.intents == [] then (rows, ep)
      else
        var last := |ep.intents| - 1;
        var sent := if outcome.NotSent? then [] else [Broadcast(last, ep.phase.at, now, outcome.unproven)];
        (rows, ep.(phase := Settling(report), intents := ep.intents[last := ep.intents[last].(report := Some(report))],
                   broadcasts := ep.broadcasts + sent))
    case Settle =>
      if !ep.phase.Settling? || ep.intents == [] then (rows, ep)
      else
        var last := |ep.intents| - 1;
        (rows, ep.(phase := if ep.phase.report.ambiguous then Closing(true) else Ready,
                   intents := ep.intents[last := ep.intents[last].(state := Settled(ep.phase.report))]))
    case Renew(stampedAt, reachable) =>
      if ep.phase.Gone? then (rows, ep)
      else
        var (rows', g, ok) := GuardRenew(rows, ep.guard, now, stampedAt, reachable);
        (rows', ep.(guard := g, leaseUntil := if ok == Ok(true) then now + LeaseOffset(g.lease) else ep.leaseUntil))
    case Finish(reachable) =>
      if !ep.phase.Ready? && !ep.phase.Fenced? && !ep.phase.Closing? then (rows, ep)
      else
        var mode := FinishMode(ep.phase);
        var (rows', g, applied) := GuardTransition(rows, ep.guard, mode, now, reachable);
        (rows', ep.(guard := g, phase := Gone,
                    ending := if applied then Some(Ending(mode == HandedOff, now)) else ep.ending))
    case Crash => (rows, ep.(phase := Gone))
  }

  /** A fenced worker journals exactly one intent, now and open, and one that has journaled makes exactly one attempt
      under it: a broadcast sent now, if it was sent at all, with whatever it reported. */
  lemma JournalThenAttempt(rows: Rows, ep: Episode, outcome: Outcome, report: Report, now: int)
    ensures ep.phase.Fenced? ==>
              var ep' := ActOn(rows, ep, Record, now).1;
              && ep'.intents == ep.intents + [Intent(now, Open, None)] && ep'.phase == Recorded(ep.phase.at)
              && ep'.broadcasts == ep.broadcasts
    ensures ep.phase.Recorded? && ep.intents != [] ==>
              var ep' := ActOn(rows, ep, Send(outcome, report), now).1;
              && |ep'.intents| == |ep.intents| && ep'.intents[|ep.intents| - 1].report == Some(report)
              && ep'.phase == Settling(report)
              && (outcome.NotSent? ==> ep'.broadcasts == ep.broadcasts)
              && (outcome.Sent? ==>
                    ep'.broadcasts
                    == ep.broadcasts + [Broadcast(|ep.intents| - 1, ep.phase.at, now, outcome.unproven)])
  {
  }

  /** A worker may finish before an attempt, between attempts, after a failed fence and after an ambiguous report, and
      not in the middle of one. The store then records the ending exactly for a holder it can be reached by. */
  lemma FinishEndsIff(rows: Rows, ep: Episode, reachable: bool, now: int)
    requires ep.ending.None?
    ensures var ep' := ActOn(rows, ep, Finish(reachable), now).1; var c := ep.guard.claim;
            && (ep'.ending.Some?
                <==> && (ep.phase.Ready? || ep.phase.Fenced? || ep.phase.Closing?)
                     && reachable && !ep.guard.done && Holds(rows, ep.guard.Id(), c.ownerId, c.epoch))
            && (ep'.ending.Some? ==> ep'.ending == Some(Ending(ep.phase == Closing(true), now)))
            && (ep.phase.Ready? || ep.phase.Fenced? || ep.phase.Closing? ==> ep'.phase == Gone)
  {
  }

  /** A renewal by the unexpired holder within its budget moves both lease ends to a full lease from now, in any phase
      of the worker that is not gone. */
  lemma RenewalExtends(rows: Rows, ep: Episode, now: int, stampedAt: int, reachable: bool)
    requires !ep.phase.Gone? && !ep.guard.done && ep.guard.renewals < 40
    requires FenceResult(rows, ep.guard, now, reachable).Ok?
    ensures var (rows', ep') := ActOn(rows, ep, Renew(stampedAt, reachable), now); var id := ep.guard.Id();
            && rows'[id].claim.leaseUntil == now + LeaseOffset(rows[id].leaseSpan)
            && ep'.leaseUntil == now + LeaseOffset(ep.guard.lease)
            && ep'.guard.renewals == ep.guard.renewals + 1 && ep'.phase == ep.phase
  {
    RenewsIff(rows, ep.guard, now, stampedAt, reachable);
  }

  /** A worker may crash at any point, and does nothing ever after. */
  lemma CrashIsFinal(rows: Rows, ep: Episode, now: int, rows': Rows, act: Act, later: int)
    ensures var (same, ep') := ActOn(rows, ep, Crash, now);
            && same == rows && ep' == ep.(phase := Gone) && ActOn(rows', ep', act, later) == (rows', ep')
  {
  }

  function Step(s: State, e: Event): (r: State) {
    match e.op
    case Acquire(req, ctx) =>
      var id := req.executionId;
      var decision := ClaimStep(s.ledger.rows, req, ctx, e.now).1;
      State(Store.Step(s.ledger, Store.Event(e.now, Store.ClaimOp(req, ctx))),
            if decision.Acquired? then
              s.episodes[id := s.Of(id) + [Issued(decision.claim, ctx)]]
            else s.episodes)
    case Work(id, k, act) =>
      var eps := s.Of(id);
      if k >= |eps| then s
      else
        var (rows, ep) := ActOn(s.ledger.rows, eps[k], act, e.now);
        State(s.ledger.(rows := rows), s.episodes[id := eps[k := ep]])
  }

  function Run(s: State, es: seq<Event>): (r: State)
    decreases |es|
  {
    if es == [] then s else Run(Step(s, es[0]), es[1..])
  }

  predicate Monotone(from: int, es: seq<Event>)
    decreases |es|
  {
    es == [] || (from <= es[0].now && Monotone(es[0].now, es[1..]))
  }

  function EndTime(from: int, es: seq<Event>): int {
    if es == [] then from else es[|es| - 1].now
  }

  /** Every protocol step is at most one claim-store operation, so all that holds of store runs holds here. */
  lemma StepRefinesStore(s: State, e: Event)
    ensures Step(s, e).ledger == s.ledger
            || exists op :: Step(s, e).ledger == Store.Step(s.ledger, Store.Event(e.now, op))
  {
    if e.op.Acquire? {
      assert Step(s, e).ledger == Store.Step(s.ledger, Store.Event(e.now, Store.ClaimOp(e.op.req, e.op.ctx)));
    } else if e.op.k < |s.Of(e.op.id)| {
      var ep := s.Of(e.op.id)[e.op.k];
      var c := ep.guard.claim;
      var gid := ep.guard.Id();
      var mode := FinishMode(ep.phase);
      var renewed := Store.Step(s.ledger, Store.Event(e.now, Store.RenewOp(gid, c.ownerId, c.epoch)));
      var ended := Store.Step(s.ledger, Store.Event(e.now, Store.ReleaseOp(gid, c.ownerId, c.epoch, mode)));
      assert Step(s, e).ledger in {s.ledger, renewed, ended};
    }
  }

  // The invariant -----------------------------------------------------------

  /** What holds of one broadcast of an episode. */
  ghost predicate BroadcastOk(b: Broadcast, c: ExecutionClaim, ep: Episode, t: int) {
    && b.intent < |ep.intents|
    && c.acquiredAt <= b.fencedAt < ep.leaseUntil
    && b.fencedAt <= ep.intents[b.intent].recordedAt <= b.sentAt <= t
    && ep.intents[b.intent].report.Some?
  }

  /** An intent is settled by its own report, and until the worker finishes only the last one can be ambiguous. */
  ghost predicate IntentOk(ep: Episode, i: nat)
    requires i < |ep.intents|
  {
    var n := ep.intents[i];
    && (n.state != Open ==> n.report.Some? && n.state == Settled(n.report.value))
    && (i < |ep.intents| - 1 ==> n.report.Some? && n.state != Open && !n.report.value.ambiguous)
  }

  /** The last intent follows the worker's phase. */
  ghost predicate LastIntentOk(ep: Episode) {
    match ep.phase
    case Recorded(_) => ep.intents != [] && ep.intents[|ep.intents| - 1].report.None?
    case Settling(report) => ep.intents != [] && ep.intents[|ep.intents| - 1].report == Some(report)
    case Closing(true) => AnyAmbiguous(ep)
    case Gone => true
    case _ =>
      ep.intents != [] ==>
        var n := ep.intents[|ep.intents| - 1];
        n.report.Some? && n.state != Open && !n.report.value.ambiguous
  }

  /** Some attempt of the worker reported an ambiguous outcome. */
  predicate AnyAmbiguous(ep: Episode) {
    exists i :: 0 <= i < |ep.intents| && ep.intents[i].report.Some? && ep.intents[i].report.value.ambiguous
  }

  ghost predicate EpisodeOk(c: ExecutionClaim, ep: Episode, t: int) {
    var g := ep.guard;
    && g.claim == c.(leaseUntil := g.claim.leaseUntil, status := g.claim.status)
    && c.acquiredAt <= t
    && g.renewals <= MAX_RENEWALS
    && ep.leaseUntil <= c.acquiredAt + (g.renewals + 1) * LeaseOffset(g.lease)
    && ep.leaseUntil <= t + LeaseOffset(g.lease)
    && (g.done ==> ep.phase.Gone?)
    && (ep.ending.Some? ==> g.done && ep.ending.value.at <= t && ep.ending.value.handedOff == AnyAmbiguous(ep))
    && (ep.phase.Fenced? || ep.phase.Recorded? ==> c.acquiredAt <= ep.phase.at < ep.leaseUntil && ep.phase.at <= t)
    && (ep.phase.Recorded? ==>
          ep.intents != [] && ep.phase.at <= ep.intents[|ep.intents| - 1].recordedAt <= t)
    && LastIntentOk(ep)
    && (forall i {:trigger IntentOk(ep, i)} :: 0 <= i < |ep.intents| ==> IntentOk(ep, i))
    && (forall i {:trigger BroadcastOk(ep.broadcasts[i], c, ep, t)} :: 0 <= i < |ep.broadcasts| ==>
          BroadcastOk(ep.broadcasts[i], c, ep, t))
    && (forall i :: 0 <= i < |ep.broadcasts| && ep.ending.Some? ==> ep.broadcasts[i].sentAt <= ep.ending.value.at)
    && (forall i, j :: 0 <= i < j < |ep.broadcasts| ==> ep.broadcasts[i].intent < ep.broadcasts[j].intent)
  }

  /** The row is the latest episode's: its lease, its status. */
  ghost predicate CurrentOk(row: Row, ep: Episode, t: int) {
    && row.leaseSpan == ep.guard.lease
    && row.claim.leaseUntil == ep.leaseUntil
    && row.updatedAt <= t
    && match ep.ending
       case None => row.claim.status == Claimed
       case Some(end) => row.claim.status == (if end.handedOff then HandedOff else Released) && row.updatedAt == end.at
  }

  /** How an episode made way for the next one. */
  ghost predicate MadeWay(c: ExecutionClaim, ep: Episode, next: ExecutionClaim, grace: nat) {
    && c.acquiredAt <= next.acquiredAt
    && match ep.ending
       case None => ep.leaseUntil <= next.acquiredAt
       case Some(end) =>
         if end.handedOff then end.at + GraceOffset(grace) <= next.acquiredAt else end.at <= next.acquiredAt
  }

  ghost predicate IdOk(log: seq<ExecutionClaim>, eps: seq<Episode>, row: Row, t: int) {
    && |log| == |eps| > 0
    && (forall k {:trigger EpisodeOk(log[k], eps[k], t)} :: 0 <= k < |eps| ==> EpisodeOk(log[k], eps[k], t))
    && (forall k {:trigger MadeWay(log[k], eps[k], log[k + 1], eps[k + 1].grace)} :: 0 <= k < |eps| - 1 ==>
          MadeWay(log[k], eps[k], log[k + 1], eps[k + 1].grace))
    && CurrentOk(row, eps[|eps| - 1], t)
  }

  ghost predicate Inv(s: State, t: int) {
    && Store.Inv(s.ledger)
    && s.episodes.Keys == s.ledger.rows.Keys
    && forall id {:trigger IdOk(s.ledger.issued[id], s.episodes[id], s.ledger.rows[id], t)} ::
         id in s.episodes ==> IdOk(s.ledger.issued[id], s.episodes[id], s.ledger.rows[id], t)
  }

  // Each act keeps it -------------------------------------------------------

  /** If the guard still holds the row, the row carries the lease the store granted it. */
  ghost predicate Agrees(rows: Rows, ep: Episode) {
    var g := ep.guard;
    Holds(rows, g.Id(), g.claim.ownerId, g.claim.epoch) ==>
      rows[g.Id()].claim.leaseUntil == ep.leaseUntil && rows[g.Id()].leaseSpan == g.lease
  }

  lemma EpisodeAges(c: ExecutionClaim, ep: Episode, t: int, now: int)
    requires EpisodeOk(c, ep, t) && t <= now
    ensures EpisodeOk(c, ep, now)
  {
    forall i | 0 <= i < |ep.broadcasts|
      ensures BroadcastOk(ep.broadcasts[i], c, ep, now)
    {
      assert BroadcastOk(ep.broadcasts[i], c, ep, t);
    }
  }

  /** Intents are only added, reported or settled. */
  ghost predicate Extends(a: seq<Intent>, b: seq<Intent>) {
    && |a| <= |b|
    && forall i :: 0 <= i < |a| ==>
         b[i].recordedAt == a[i].recordedAt && (a[i].report.Some? ==> b[i].report == a[i].report)
  }

  /** Broadcast facts survive as long as the intents extend and the lease only grows. */
  lemma BroadcastsSurvive(c: ExecutionClaim, ep: Episode, ep': Episode, t: int)
    requires forall i {:trigger BroadcastOk(ep.broadcasts[i], c, ep, t)} :: 0 <= i < |ep.broadcasts| ==>
               BroadcastOk(ep.broadcasts[i], c, ep, t)
    requires ep.broadcasts <= ep'.broadcasts && Extends(ep.intents, ep'.intents) && ep.leaseUntil <= ep'.leaseUntil
    ensures forall i {:trigger BroadcastOk(ep'.broadcasts[i], c, ep', t)} :: 0 <= i < |ep.broadcasts| ==>
              BroadcastOk(ep'.broadcasts[i], c, ep', t)
  {
    forall i | 0 <= i < |ep.broadcasts|
      ensures BroadcastOk(ep'.broadcasts[i], c, ep', t)
    {
      assert BroadcastOk(ep.broadcasts[i], c, ep, t);
    }
  }

  /** Acts that leave intents and broadcasts alone keep what is said of them. */
  lemma JournalSurvives(c: ExecutionClaim, ep: Episode, ep': Episode, t: int)
    requires EpisodeOk(c, ep, t) && ep'.broadcasts == ep.broadcasts && ep'.intents == ep.intents
    requires ep.leaseUntil <= ep'.leaseUntil
    ensures forall i {:trigger IntentOk(ep', i)} :: 0 <= i < |ep'.intents| ==> IntentOk(ep', i)
    ensures forall i {:trigger BroadcastOk(ep'.broadcasts[i], c, ep', t)} :: 0 <= i < |ep'.broadcasts| ==>
              BroadcastOk(ep'.broadcasts[i], c, ep', t)
  {
    forall i | 0 <= i < |ep'.intents|
      ensures IntentOk(ep', i)
    {
      assert IntentOk(ep, i);
    }
    BroadcastsSurvive(c, ep, ep', t);
  }

  lemma FenceKeeps(rows: Rows, c: ExecutionClaim, ep: Episode, reachable: bool, now: int)
    requires EpisodeOk(c, ep, now) && Agrees(rows, ep)
    ensures EpisodeOk(c, ActOn(rows, ep, Fence(reachable), now).1, now)
  {
    JournalSurvives(c, ep, ActOn(rows, ep, Fence(reachable), now).1, now);
  }

  lemma RecordKeeps(rows: Rows, c: ExecutionClaim, ep: Episode, now: int)
    requires EpisodeOk(c, ep, now)
    ensures EpisodeOk(c, ActOn(rows, ep, Record, now).1, now)
  {
    var ep' := ActOn(rows, ep, Record, now).1;
    BroadcastsSurvive(c, ep, ep', now);
    forall i | 0 <= i < |ep'.intents|
      ensures IntentOk(ep', i)
    {
      if i < |ep.intents| {
        assert IntentOk(ep, i);
      }
    }
  }

  lemma SendKeeps(rows: Rows, c: ExecutionClaim, ep: Episode, outcome: Outcome, report: Report, now: int)
    requires EpisodeOk(c, ep, now)
    ensures EpisodeOk(c, ActOn(rows, ep, Send(outcome, report), now).1, now)
  {
    if ep.phase.Recorded? {
      var ep' := ActOn(rows, ep, Send(outcome, report), now).1;
      BroadcastsSurvive(c, ep, ep', now);
      EarlierIntents(c, ep, now);
      forall i | 0 <= i < |ep'.intents|
        ensures IntentOk(ep', i)
      {
        assert IntentOk(ep, i);
      }
    }
  }

  /** Before the attempt under the last intent no broadcast carries it. */
  lemma EarlierIntents(c: ExecutionClaim, ep: Episode, t: int)
    requires EpisodeOk(c, ep, t) && ep.phase.Recorded?
    ensures forall i :: 0 <= i < |ep.broadcasts| ==> ep.broadcasts[i].intent < |ep.intents| - 1
  {
    forall i | 0 <= i < |ep.broadcasts|
      ensures ep.broadcasts[i].intent < |ep.intents| - 1
    {
      assert BroadcastOk(ep.broadcasts[i], c, ep, t);
    }
  }

  lemma SettleKeeps(rows: Rows, c: ExecutionClaim, ep: Episode, now: int)
    requires EpisodeOk(c, ep, now)
    ensures EpisodeOk(c, ActOn(rows, ep, Settle, now).1, now)
  {
    if ep.phase.Settling? {
      var ep' := ActOn(rows, ep, Settle, now).1;
      BroadcastsSurvive(c, ep, ep', now);
      var last := |ep.intents| - 1;
      assert ep'.intents[last].report == Some(ep.phase.report);
      forall i | 0 <= i < |ep'.intents|
        ensures IntentOk(ep', i)
      {
        assert IntentOk(ep, i);
      }
    }
  }

  lemma RenewKeeps(rows: Rows, c: ExecutionClaim, ep: Episode, stampedAt: int, reachable: bool, now: int)
    requires EpisodeOk(c, ep, now) && Agrees(rows, ep)
    ensures EpisodeOk(c, ActOn(rows, ep, Renew(stampedAt, reachable), now).1, now)
  {
    var ep' := ActOn(rows, ep, Renew(stampedAt, reachable), now).1;
    var span := LeaseOffset(ep.guard.lease);
    assert (ep.guard.renewals + 2) * span == (ep.guard.renewals + 1) * span + span;
    assert ep.leaseUntil <= ep'.leaseUntil;
    JournalSurvives(c, ep, ep', now);
  }

  lemma FinishKeeps(rows: Rows, c: ExecutionClaim, ep: Episode, reachable: bool, now: int)
    requires EpisodeOk(c, ep, now)
    ensures EpisodeOk(c, ActOn(rows, ep, Finish(reachable), now).1, now)
  {
    var ep' := ActOn(rows, ep, Finish(reachable), now).1;
    JournalSurvives(c, ep, ep', now);
    if ep.phase.Ready? || ep.phase.Fenced? || ep.phase.Closing? {
      FinishFollowsReports(c, ep, now);
    }
    forall i | 0 <= i < |ep.broadcasts|
      ensures ep.broadcasts[i].sentAt <= now
    {
      assert BroadcastOk(ep.broadcasts[i], c, ep, now);
    }
  }

  /** The mode a worker finishes with is the ambiguity its attempts reported. */
  lemma FinishFollowsReports(c: ExecutionClaim, ep: Episode, t: int)
    requires EpisodeOk(c, ep, t) && (ep.phase.Ready? || ep.phase.Fenced? || ep.phase.Closing?)
    ensures FinishMode(ep.phase) == HandedOff <==> AnyAmbiguous(ep)
  {
    forall i | 0 <= i < |ep.intents| && ep.phase != Closing(true)
      ensures ep.intents[i].report.Some? && !ep.intents[i].report.value.ambiguous
    {
      assert IntentOk(ep, i);
    }
  }

  lemma ActKeepsEpisode(rows: Rows, c: ExecutionClaim, ep: Episode, act: Act, now: int)
    requires EpisodeOk(c, ep, now) && Agrees(rows, ep)
    ensures EpisodeOk(c, ActOn(rows, ep, act, now).1, now)
  {
    match act
    case Fence(reachable) => FenceKeeps(rows, c, ep, reachable, now);
    case Record => RecordKeeps(rows, c, ep, now);
    case Send(outcome, report) => SendKeeps(rows, c, ep, outcome, report, now);
    case Settle => SettleKeeps(rows, c, ep, now);
    case Renew(stampedAt, reachable) => RenewKeeps(rows, c, ep, stampedAt, reachable, now);
    case Finish(reachable) => FinishKeeps(rows, c, ep, reachable, now);
    case Crash => JournalSurvives(c, ep, ep.(phase := Gone), now);
  }

  /** A guard that no longer holds the row cannot move it, nor the lease granted to it or its ending. */
  lemma StaleActIsHarmless(rows: Rows, ep: Episode, act: Act, now: int)
    requires !Holds(rows, ep.guard.Id(), ep.guard.claim.ownerId, ep.guard.claim.epoch)
    ensures var (rows', ep') := ActOn(rows, ep, act, now);
            && rows' == rows && ep'.ending == ep.ending && ep'.grace == ep.grace && ep'.leaseUntil == ep.leaseUntil
  {
  }

  lemma ActKeepsCurrent(rows: Rows, ep: Episode, act: Act, now: int)
    requires ep.guard.Id() in rows && CurrentOk(rows[ep.guard.Id()], ep, now)
    requires ep.ending.None? ==> Holds(rows, ep.guard.Id(), ep.guard.claim.ownerId, ep.guard.claim.epoch)
    requires ep.ending.Some? ==> ep.phase.Gone?
    ensures var (rows', ep') := ActOn(rows, ep, act, now);
            && rows'.Keys == rows.Keys
            && (forall id :: id in rows && id != ep.guard.Id() ==> rows'[id] == rows[id])
            && CurrentOk(rows'[ep.guard.Id()], ep', now)
            && ep'.grace == ep.grace
  {
  }

  // Each step keeps it ------------------------------------------------------

  lemma IdAges(log: seq<ExecutionClaim>, eps: seq<Episode>, row: Row, t: int, now: int)
    requires IdOk(log, eps, row, t) && t <= now
    ensures IdOk(log, eps, row, now)
  {
    forall k | 0 <= k < |eps|
      ensures EpisodeOk(log[k], eps[k], now)
    {
      EpisodeAges(log[k], eps[k], t, now);
    }
  }

  lemma InvAges(s: State, t: int, now: int)
    requires Inv(s, t) && t <= now
    ensures Inv(s, now)
  {
    forall id | id in s.episodes
      ensures IdOk(s.ledger.issued[id], s.episodes[id], s.ledger.rows[id], now)
    {
      IdAges(s.ledger.issued[id], s.episodes[id], s.ledger.rows[id], t, now);
    }
  }

  lemma AcquireKeepsId(log: seq<ExecutionClaim>, eps: seq<Episode>, row: Row, ctx: StoreContext, c: ExecutionClaim,
                       now: int)
    requires (log == [] && eps == []) || (IdOk(log, eps, row, now) && Reacquirable(row, now, ctx.handoffGrace))
    requires c.status == Claimed && c.acquiredAt == now && c.leaseUntil == now + LeaseOffset(ctx.lease)
    ensures IdOk(log + [c], eps + [Issued(c, ctx)], Row(c, now, ctx.lease), now)
  {
    var ep := Issued(c, ctx);
    assert EpisodeOk(c, ep, now);
    forall k | 0 <= k < |eps|
      ensures EpisodeOk((log + [c])[k], (eps + [ep])[k], now)
      ensures MadeWay((log + [c])[k], (eps + [ep])[k], (log + [c])[k + 1], (eps + [ep])[k + 1].grace)
    {
      assert EpisodeOk(log[k], eps[k], now);
      if k < |eps| - 1 {
        assert MadeWay(log[k], eps[k], log[k + 1], eps[k + 1].grace);
      }
    }
  }

  /** A step that only touches one id keeps the invariant if it does so at that id. */
  lemma LocalStepKeepsInv(s: State, s': State, id: string, t: int)
    requires Inv(s, t) && Store.Inv(s'.ledger)
    requires id in s'.ledger.rows && id in s'.episodes
    requires s'.episodes.Keys == s'.ledger.rows.Keys == s.episodes.Keys + {id}
    requires forall x :: x in s.episodes && x != id ==>
               && s'.episodes[x] == s.episodes[x] && s'.ledger.rows[x] == s.ledger.rows[x]
               && s'.ledger.issued[x] == s.ledger.issued[x]
    requires IdOk(s'.ledger.issued[id], s'.episodes[id], s'.ledger.rows[id], t)
    ensures Inv(s', t)
  {
  }

  lemma AcquireKeepsInv(s: State, req: ClaimRequest, ctx: StoreContext, now: int)
    requires Inv(s, now)
    ensures Inv(Step(s, Event(now, Acquire(req, ctx))), now)
  {
    var id := req.executionId;
    Store.ClaimKeepsInv(s.ledger, req, ctx, now);
    var decision := ClaimStep(s.ledger.rows, req, ctx, now).1;
    if decision.Acquired? {
      var s' := Step(s, Event(now, Acquire(req, ctx)));
      AcquiredIdOk(s, req, ctx, now);
      AcquiredFrame(s, req, ctx, now);
      LocalStepKeepsInv(s, s', id, now);
    } else {
      assert Step(s, Event(now, Acquire(req, ctx))) == s;
    }
  }

  lemma AcquiredFrame(s: State, req: ClaimRequest, ctx: StoreContext, now: int)
    requires s.episodes.Keys == s.ledger.rows.Keys == s.ledger.issued.Keys
    requires ClaimStep(s.ledger.rows, req, ctx, now).1.Acquired?
    ensures var s' := Step(s, Event(now, Acquire(req, ctx))); var id := req.executionId;
            && s'.episodes.Keys == s'.ledger.rows.Keys == s'.ledger.issued.Keys == s.episodes.Keys + {id}
            && forall x :: x in s.episodes && x != id ==>
                 && s'.episodes[x] == s.episodes[x] && s'.ledger.rows[x] == s.ledger.rows[x]
                 && s'.ledger.issued[x] == s.ledger.issued[x]
  {
  }

  lemma AcquiredIdOk(s: State, req: ClaimRequest, ctx: StoreContext, now: int)
    requires Inv(s, now) && ClaimStep(s.ledger.rows, req, ctx, now).1.Acquired?
    ensures var s' := Step(s, Event(now, Acquire(req, ctx))); var id := req.executionId;
            id in s'.ledger.rows && id in s'.ledger.issued && id in s'.episodes
            && IdOk(s'.ledger.issued[id], s'.episodes[id], s'.ledger.rows[id], now)
  {
    var id := req.executionId;
    var c := ClaimStep(s.ledger.rows, req, ctx, now).1.claim;
    var row := if id in s.ledger.rows then s.ledger.rows[id] else Row(c, now, ctx.lease);
    if id in s.episodes {
      assert IdOk(s.ledger.issued[id], s.episodes[id], s.ledger.rows[id], now);
    }
    AcquireKeepsId(s.ledger.Log(id), s.Of(id), row, ctx, c, now);
  }

  /** Replacing episode k by its successor state keeps the whole chain of episodes in order. */
  lemma WorkKeepsId(rows: Rows, id: string, log: seq<ExecutionClaim>, eps: seq<Episode>, k: nat, act: Act, now: int)
    requires id in rows && IdOk(log, eps, rows[id], now) && k < |eps|
    requires Store.LogOk(id, log) && Store.RowIsLatest(rows[id], log)
    ensures var (rows', ep') := ActOn(rows, eps[k], act, now);
            && rows'.Keys == rows.Keys
            && (forall id' :: id' in rows && id' != id ==> rows'[id'] == rows[id'])
            && IdOk(log, eps[k := ep'], rows'[id], now)
  {
    var ep := eps[k];
    var (rows', ep') := ActOn(rows, ep, act, now);
    assert EpisodeOk(log[k], ep, now);
    assert Store.EntryOk(id, log, k) && Store.EntryOk(id, log, |log| - 1);
    if k < |eps| - 1 {
      StaleActIsHarmless(rows, ep, act, now);
    } else {
      ActKeepsCurrent(rows, ep, act, now);
    }
    ActKeepsEpisode(rows, log[k], ep, act, now);
    var eps' := eps[k := ep'];
    forall j | 0 <= j < |eps'| - 1
      ensures MadeWay(log[j], eps'[j], log[j + 1], eps'[j + 1].grace)
    {
      assert MadeWay(log[j], eps[j], log[j + 1], eps[j + 1].grace);
    }
  }

  /** A row held by a guard carries the lease granted to that guard. */
  lemma EpisodeAgrees(rows: Rows, id: string, log: seq<ExecutionClaim>, eps: seq<Episode>, k: nat, t: int)
    requires id in rows && IdOk(log, eps, rows[id], t) && k < |eps|
    requires Store.LogOk(id, log) && Store.RowIsLatest(rows[id], log)
    ensures EpisodeOk(log[k], eps[k], t) && Agrees(rows, eps[k])
  {
    assert EpisodeOk(log[k], eps[k], t);
    assert Store.EntryOk(id, log, k) && Store.EntryOk(id, log, |log| - 1);
  }

  lemma StepKeepsStoreInv(s: State, e: Event)
    requires Store.Inv(s.ledger)
    ensures Store.Inv(Step(s, e).ledger)
  {
    StepRefinesStore(s, e);
    if Step(s, e).ledger != s.ledger {
      var op :| Step(s, e).ledger == Store.Step(s.ledger, Store.Event(e.now, op));
      Store.StepKeepsInv(s.ledger, Store.Event(e.now, op));
    }
  }

  lemma WorkKeepsInv(s: State, id: string, k: nat, act: Act, now: int)
    requires Inv(s, now)
    ensures Inv(Step(s, Event(now, Work(id, k, act))), now)
  {
    if k < |s.Of(id)| {
      var s' := Step(s, Event(now, Work(id, k, act)));
      StepKeepsStoreInv(s, Event(now, Work(id, k, act)));
      WorkIsLocal(s, id, k, act, now);
      LocalStepKeepsInv(s, s', id, now);
    }
  }

  lemma WorkIsLocal(s: State, id: string, k: nat, act: Act, now: int)
    requires Inv(s, now) && k < |s.Of(id)|
    ensures var s' := Step(s, Event(now, Work(id, k, act)));
            && id in s'.ledger.rows && id in s'.episodes && s'.ledger.issued == s.ledger.issued
            && s'.episodes.Keys == s'.ledger.rows.Keys == s.episodes.Keys
            && (forall x :: x in s.episodes && x != id ==>
                  s'.episodes[x] == s.episodes[x] && s'.ledger.rows[x] == s.ledger.rows[x])
            && IdOk(s'.ledger.issued[id], s'.episodes[id], s'.ledger.rows[id], now)
  {
    assert IdOk(s.ledger.issued[id], s.episodes[id], s.ledger.rows[id], now);
    WorkKeepsId(s.ledger.rows, id, s.ledger.issued[id], s.episodes[id], k, act, now);
  }

  lemma StepKeepsInv(s: State, t: int, e: Event)
    requires Inv(s, t) && t <= e.now
    ensures Inv(Step(s, e), e.now)
  {
    InvAges(s, t, e.now);
    match e.op
    case Acquire(req, ctx) => AcquireKeepsInv(s, req, ctx, e.now);
    case Work(id, k, act) => WorkKeepsInv(s, id, k, act, e.now);
  }

  lemma {:induction false} RunKeepsInv(s: State, t: int, es: seq<Event>)
    requires Inv(s, t) && Monotone(t, es)
    ensures Inv(Run(s, es), EndTime(t, es))
    decreases |es|
  {
    if es != [] {
      StepKeepsInv(s, t, es[0]);
      RunKeepsInv(Step(s, es[0]), es[0].now, es[1..]);
    }
  }

  // Safety over whole runs --------------------------------------------------

  function ReportOf(ep: Episode, b: Broadcast): Option<Report> {
    if b.intent < |ep.intents| then ep.intents[b.intent].report else None
  }

  /** What lies between a broadcast of one guard and any broadcast of a later guard. */
  ghost predicate Separated(ep: Episode, b: Broadcast, next: ExecutionClaim, nextGrace: nat) {
    match ep.ending
    case None =>
      // The lease ran out before the next guard was issued. The fence passed inside the lease, and
      // so did the broadcast unless it was sent after the lease had already ended.
      && b.fencedAt < ep.leaseUntil <= next.acquiredAt
    case Some(end) =>
      if end.handedOff then
        b.sentAt <= end.at && end.at + GraceOffset(nextGrace) <= next.acquiredAt
      else
        && ReportOf(ep, b).Some? && !ReportOf(ep, b).value.ambiguous
        && b.sentAt <= end.at <= next.acquiredAt
  }

  /** In every run under a monotone clock, two broadcasts for one execution id under different guards
      are separated by a release on a determinate report, an expired lease or a fully elapsed hand-off grace; the
      later one is fenced and sent only after the guard following the earlier one was issued. */
  lemma BroadcastsAreSeparated(t: int, es: seq<Event>, id: string, j: nat, k: nat, x: nat, y: nat)
    requires Monotone(t, es) && j < k < |Run(INIT, es).Of(id)|
    requires x < |Run(INIT, es).Of(id)[j].broadcasts| && y < |Run(INIT, es).Of(id)[k].broadcasts|
    ensures var s := Run(INIT, es); var log := s.ledger.Log(id); var eps := s.Of(id);
            && |log| == |eps|
            && Separated(eps[j], eps[j].broadcasts[x], log[j + 1], eps[j + 1].grace)
            && log[j + 1].acquiredAt <= eps[k].broadcasts[y].fencedAt <= eps[k].broadcasts[y].sentAt
  {
    RunKeepsInv(INIT, t, es);
    var s := Run(INIT, es);
    ChainSeparates(s.ledger.issued[id], s.episodes[id], s.ledger.rows[id], EndTime(t, es), j, k, x, y);
  }

  lemma ChainSeparates(log: seq<ExecutionClaim>, eps: seq<Episode>, row: Row, t: int, j: nat, k: nat, x: nat, y: nat)
    requires IdOk(log, eps, row, t) && j < k < |eps| && x < |eps[j].broadcasts| && y < |eps[k].broadcasts|
    ensures Separated(eps[j], eps[j].broadcasts[x], log[j + 1], eps[j + 1].grace)
    ensures log[j + 1].acquiredAt <= eps[k].broadcasts[y].fencedAt <= eps[k].broadcasts[y].sentAt
  {
    AcquisitionsAreOrdered(log, eps, row, t, j + 1, k);
    assert MadeWay(log[j], eps[j], log[j + 1], eps[j + 1].grace);
    BroadcastTimes(log[j], eps[j], t, x);
    BroadcastTimes(log[k], eps[k], t, y);
  }

  lemma BroadcastTimes(c: ExecutionClaim, ep: Episode, t: int, x: nat)
    requires EpisodeOk(c, ep, t) && x < |ep.broadcasts|
    ensures c.acquiredAt <= ep.broadcasts[x].fencedAt < ep.leaseUntil
    ensures ep.broadcasts[x].fencedAt <= ep.broadcasts[x].sentAt
    ensures ep.ending.Some? ==> ep.broadcasts[x].sentAt <= ep.ending.value.at
    ensures ReportOf(ep, ep.broadcasts[x]).Some?
    ensures ep.ending.Some? && !ep.ending.value.handedOff ==> !ReportOf(ep, ep.broadcasts[x]).value.ambiguous
  {
    assert BroadcastOk(ep.broadcasts[x], c, ep, t);
  }

  lemma {:induction false} AcquisitionsAreOrdered(log: seq<ExecutionClaim>, eps: seq<Episode>, row: Row, t: int,
                                                  i: nat, k: nat)
    requires IdOk(log, eps, row, t) && i <= k < |eps|
    ensures log[i].acquiredAt <= log[k].acquiredAt
    decreases k
  {
    if i < k {
      var p := k - 1;
      AcquisitionsAreOrdered(log, eps, row, t, i, p);
      assert MadeWay(log[p], eps[p], log[p + 1], eps[p + 1].grace);
    }
  }

  /** Hence a broadcast sent by the end of its own lease is stamped no later than any broadcast of a later guard. */
  lemma InLeaseBroadcastsAreOrdered(t: int, es: seq<Event>, id: string, j: nat, k: nat, x: nat, y: nat)
    requires Monotone(t, es) && j < k < |Run(INIT, es).Of(id)|
    requires x < |Run(INIT, es).Of(id)[j].broadcasts| && y < |Run(INIT, es).Of(id)[k].broadcasts|
    requires var ep := Run(INIT, es).Of(id)[j];
             ep.ending.None? ==> ep.broadcasts[x].sentAt <= ep.leaseUntil
    ensures var eps := Run(INIT, es).Of(id); eps[j].broadcasts[x].sentAt <= eps[k].broadcasts[y].sentAt
  {
    BroadcastsAreSeparated(t, es, id, j, k, x, y);
  }

  /** In every run each broadcast has its own intent, journaled after its fence and before it was sent. Once that
      intent is settled it is abandoned exactly when the attempt reported no signature: an error, none, or an empty
      one. So an abandoned intent was never broadcast exactly where attempts that send report a signature. */
  lemma IntentBeforeBroadcast(t: int, es: seq<Event>, id: string, k: nat, x: nat)
    requires Monotone(t, es) && k < |Run(INIT, es).Of(id)| && x < |Run(INIT, es).Of(id)[k].broadcasts|
    ensures var ep := Run(INIT, es).Of(id)[k]; var b := ep.broadcasts[x];
            && b.intent < |ep.intents|
            && b.fencedAt <= ep.intents[b.intent].recordedAt <= b.sentAt
            && ReportOf(ep, b).Some?
            && (ep.intents[b.intent].state == Abandoned <==>
                  ep.intents[b.intent].state != Open && ProvenSignature(ReportOf(ep, b).value.out, Signature).None?)
            && forall y :: 0 <= y < |ep.broadcasts| && y != x ==> ep.broadcasts[y].intent != b.intent
  {
    EveryEpisodeIsOk(t, es, id, k);
    var ep := Run(INIT, es).Of(id)[k];
    assert BroadcastOk(ep.broadcasts[x], Run(INIT, es).ledger.Log(id)[k], ep, EndTime(t, es));
    assert IntentOk(ep, ep.broadcasts[x].intent);
  }

  /** An unproven broadcast whose attempt did not say so. */
  predicate Misreported(ep: Episode) {
    exists x :: 0 <= x < |ep.broadcasts| && ep.broadcasts[x].unproven && !Ambiguous(ReportOf(ep, ep.broadcasts[x]))
  }

  predicate LeftUnproven(ep: Episode) {
    exists x :: 0 <= x < |ep.broadcasts| && ep.broadcasts[x].unproven
  }

  predicate Ambiguous(r: Option<Report>) { r.Some? && r.value.ambiguous }

  /** A guard that ended handed its execution off exactly when an attempt reported ambiguity. Read for releases: one
      left an unproven broadcast behind exactly when it was misreported and no other attempt reported ambiguity. */
  lemma ReleaseFollowsReports(t: int, es: seq<Event>, id: string, k: nat)
    requires Monotone(t, es) && k < |Run(INIT, es).Of(id)| && Run(INIT, es).Of(id)[k].ending.Some?
    ensures var ep := Run(INIT, es).Of(id)[k];
            && (ep.ending.value.handedOff <==> AnyAmbiguous(ep))
            && (!ep.ending.value.handedOff && LeftUnproven(ep) <==> Misreported(ep) && !AnyAmbiguous(ep))
  {
    EveryEpisodeIsOk(t, es, id, k);
    var ep := Run(INIT, es).Of(id)[k];
    forall x | 0 <= x < |ep.broadcasts| && !AnyAmbiguous(ep)
      ensures !Ambiguous(ReportOf(ep, ep.broadcasts[x]))
    {
      BroadcastTimes(Run(INIT, es).ledger.Log(id)[k], ep, EndTime(t, es), x);
    }
  }

  lemma EveryEpisodeIsOk(t: int, es: seq<Event>, id: string, k: nat)
    requires Monotone(t, es) && k < |Run(INIT, es).Of(id)|
    ensures var s := Run(INIT, es);
            && |s.ledger.Log(id)| == |s.Of(id)| && id in s.ledger.rows
            && EpisodeOk(s.ledger.Log(id)[k], s.Of(id)[k], EndTime(t, es))
            && CurrentOk(s.ledger.rows[id], s.Of(id)[|s.Of(id)| - 1], EndTime(t, es))
  {
    RunKeepsInv(INIT, t, es);
    var s := Run(INIT, es);
    assert IdOk(s.ledger.issued[id], s.episodes[id], s.ledger.rows[id], EndTime(t, es));
  }

  /** A hung worker cannot keep a claim: in every run, 41 leases after its acquisition anyone acquires a
      claim that has had no terminal transition, as the next epoch and a counted takeover. */
  lemma HungWorkerLosesTheClaim(t: int, es: seq<Event>, req: ClaimRequest, ctx: StoreContext, now: int)
    requires Monotone(t, es) && req.executionId in Run(INIT, es).ledger.rows
    requires var c := Run(INIT, es).ledger.rows[req.executionId].claim;
             var eps := Run(INIT, es).Of(req.executionId);
             c.status == Claimed && |eps| > 0
             && c.acquiredAt + (MAX_RENEWALS + 1) * LeaseOffset(eps[|eps| - 1].guard.lease) <= now
    ensures var rows := Run(INIT, es).ledger.rows; var c := rows[req.executionId].claim;
            var d := ClaimStep(rows, req, ctx, now).1;
            && d.Acquired? && d.claim.ownerId == ctx.ownerId && d.claim.epoch == c.epoch + 1
            && d.claim.takeoverCount == c.takeoverCount + 1 && d.claim.previousOwner == Some(c.ownerId)
  {
    var s, id := Run(INIT, es), req.executionId;
    RowLeaseIsBounded(t, es, id);
    var c := s.ledger.rows[id].claim;
    assert c.leaseUntil <= now;
    ExpiredIsTakenOver(s.ledger.rows, req, ctx, now);
  }

  lemma ExpiredIsTakenOver(rows: Rows, req: ClaimRequest, ctx: StoreContext, now: int)
    requires req.executionId in rows
    requires rows[req.executionId].claim.status == Claimed && rows[req.executionId].claim.leaseUntil <= now
    ensures var c := rows[req.executionId].claim; var d := ClaimStep(rows, req, ctx, now).1;
            && d.Acquired? && d.claim.ownerId == ctx.ownerId && d.claim.epoch == c.epoch + 1
            && d.claim.takeoverCount == c.takeoverCount + 1 && d.claim.previousOwner == Some(c.ownerId)
  {
  }

  /** The lease of a row is that of the latest guard, and within the renewal budget. */
  lemma RowLeaseIsBounded(t: int, es: seq<Event>, id: string)
    requires Monotone(t, es) && Run(INIT, es).Of(id) != []
    ensures var s := Run(INIT, es); var g := s.Of(id)[|s.Of(id)| - 1].guard;
            && id in s.ledger.rows
            && s.ledger.rows[id].claim.leaseUntil
               <= s.ledger.rows[id].claim.acquiredAt + (MAX_RENEWALS + 1) * LeaseOffset(g.lease)
  {
    RunKeepsInv(INIT, t, es);
    var s := Run(INIT, es);
    RowFollowsGuard(s.ledger.issued[id], s.episodes[id], s.ledger.rows[id], EndTime(t, es));
  }

  lemma RowFollowsGuard(log: seq<ExecutionClaim>, eps: seq<Episode>, row: Row, t: int)
    requires IdOk(log, eps, row, t) && Store.RowIsLatest(row, log)
    ensures row.claim.leaseUntil <= row.claim.acquiredAt + (MAX_RENEWALS + 1) * LeaseOffset(eps[|eps| - 1].guard.lease)
  {
    var k := |eps| - 1;
    var g := eps[k].guard;
    assert EpisodeOk(log[k], eps[k], t);
    Scale(g.renewals + 1, MAX_RENEWALS + 1, LeaseOffset(g.lease));
  }

  /** For every guard ever issued the lease the store granted is bounded by its renewals, and those by the budget. */
  lemma LeaseIsBounded(t: int, es: seq<Event>, id: string, k: nat)
    requires Monotone(t, es) && k < |Run(INIT, es).Of(id)|
    ensures var g := Run(INIT, es).Of(id)[k].guard;
            && g.renewals <= MAX_RENEWALS
            && Run(INIT, es).Of(id)[k].leaseUntil <= g.claim.acquiredAt + (g.renewals + 1) * LeaseOffset(g.lease)
  {
    EveryEpisodeIsOk(t, es, id, k);
  }

  lemma Scale(a: nat, b: nat, c: nat)
    requires a <= b
    ensures a * c <= b * c
  {
  }

  // The intent journal around one broadcast ---------------------------------

  datatype JournalEvent =
    | IntentRecorded(intentId: string)
    | Ran
    | IntentLinked(intentId: string, signature: string)
    | IntentAbandoned(intentId: string)

  class Journal {
    var trace: seq<JournalEvent>

    constructor ()
      ensures trace == []
    {
      trace := [];
    }
  }

  /** The attempt `out` inside the optional journal: recorded strictly before it runs, linked or
      abandoned after, its result unchanged. `journal` also receives the run itself, to keep the order. */
  method WithIntent<T>(sink: bool, journal: Journal, intentId: string, out: Result<T>, signatureOf: T -> Option<string>)
    returns (r: Result<T>)
    modifies journal
    ensures r == out
    ensures !sink ==> journal.trace == old(journal.trace) + [Ran]
    ensures sink ==> journal.trace == old(journal.trace) + [IntentRecorded(intentId), Ran,
                       match ProvenSignature(out, signatureOf)
                       case Some(sig) => IntentLinked(intentId, sig)
                       case None => IntentAbandoned(intentId)]
  {
    if sink {
      journal.trace := journal.trace + [IntentRecorded(intentId)];
    }
    journal.trace := journal.trace + [Ran];
    r := out;
    if sink {
      match r {
        case Ok(v) =>
          match signatureOf(v) {
            case Some(sig) =>
              if sig != "" {
                journal.trace := journal.trace + [IntentLinked(intentId, sig)];
              } else {
                journal.trace := journal.trace + [IntentAbandoned(intentId)];
              }
            case None => journal.trace := journal.trace + [IntentAbandoned(intentId)];
          }
        case Err(_) => journal.trace := journal.trace + [IntentAbandoned(intentId)];
      }
    }
  }

  // Witness runs ------------------------------------------------------------

  lemma Cons(s: State, t: int, e: Event, es: seq<Event>)
    ensures Run(s, [e] + es) == Run(Step(s, e), es)
    ensures Monotone(t, [e] + es) <==> t <= e.now && Monotone(e.now, es)
  {
  }

  /** The first guard of an id, up to its journaled intent. */
  lemma FirstIntent(req: ClaimRequest, ctx: StoreContext) returns (s: State, es: seq<Event>)
    requires 0 < LeaseOffset(ctx.lease)
    ensures Monotone(0, es) && EndTime(0, es) == 0 && Run(INIT, es) == s
    ensures var id := req.executionId;
            && |s.Of(id)| == 1 && id in s.ledger.rows && s.Of(id)[0].guard.Id() == id && !s.Of(id)[0].guard.done
            && s.Of(id)[0].phase == Recorded(0) && |s.Of(id)[0].intents| == 1 && s.Of(id)[0].broadcasts == []
            && Holds(s.ledger.rows, id, s.Of(id)[0].guard.claim.ownerId, s.Of(id)[0].guard.claim.epoch)
  {
    var id := req.executionId;
    var e1, e2, e3 := Event(0, Acquire(req, ctx)), Event(0, Work(id, 0, Fence(true))), Event(0, Work(id, 0, Record));
    var s1 := Step(INIT, e1);
    var s2 := Step(s1, e2);
    assert s2.Of(id)[0].phase == Fenced(0);
    s := Step(s2, e3);
    Cons(s2, 0, e3, []);
    Cons(s1, 0, e2, [e3] + []);
    Cons(INIT, 0, e1, [e2] + ([e3] + []));
    es := [e1] + ([e2] + ([e3] + []));
  }

  /** Reports decide, not what happened: an attempt that sends and then fails has its intent abandoned and its guard
      released, with the outcome of its broadcast unproven. */
  lemma FailureAfterSendIsReleased(req: ClaimRequest, ctx: StoreContext) returns (es: seq<Event>)
    requires 0 < LeaseOffset(ctx.lease)
    ensures Monotone(0, es)
    ensures var eps := Run(INIT, es).Of(req.executionId);
            && |eps| == 1 && |eps[0].intents| == |eps[0].broadcasts| == 1
            && eps[0].broadcasts[0].intent == 0 && eps[0].broadcasts[0].unproven
            && eps[0].intents[0].state == Abandoned && eps[0].ending == Some(Ending(false, 0))
  {
    var id := req.executionId;
    var s, past := FirstIntent(req, ctx);
    var e1 := Event(0, Work(id, 0, Send(Sent(true), Report(Err(ClaimRejected), false))));
    var e2, e3 := Event(0, Work(id, 0, Settle)), Event(0, Work(id, 0, Finish(true)));
    var s1 := Step(s, e1);
    var s2 := Step(s1, e2);
    assert s2.Of(id)[0].phase == Ready && s2.ledger == s.ledger;
    Cons(s2, 0, e3, []);
    Cons(s1, 0, e2, [e3] + []);
    Cons(s, 0, e1, [e2] + ([e3] + []));
    es := past + ([e1] + ([e2] + ([e3] + [])));
    RunConcat(INIT, 0, past, [e1] + ([e2] + ([e3] + [])));
  }

  // The fence is only as good as the lease -----------------------------------

  lemma {:induction false} RunConcat(s: State, t: int, a: seq<Event>, b: seq<Event>)
    ensures Run(s, a + b) == Run(Run(s, a), b)
    ensures Monotone(t, a + b) <==> Monotone(t, a) && Monotone(EndTime(t, a), b)
    decreases |a|
  {
    if a == [] {
      assert a + b == b;
    } else {
      assert (a + b)[0] == a[0] && (a + b)[1..] == a[1..] + b;
      RunConcat(Step(s, a[0]), a[0].now, a[1..], b);
    }
  }

  lemma ActGrowsLease(rows: Rows, c: ExecutionClaim, ep: Episode, act: Act, now: int)
    requires EpisodeOk(c, ep, now) && Agrees(rows, ep)
    ensures ep.leaseUntil <= ActOn(rows, ep, act, now).1.leaseUntil
  {
  }

  /** A step keeps every episode and its granted lease; an episode it adds is acquired now. */
  ghost predicate Grows(a: seq<Episode>, b: seq<Episode>, t: int) {
    && |a| <= |b|
    && (forall k :: 0 <= k < |a| ==>
          a[k].leaseUntil <= b[k].leaseUntil && b[k].guard.claim.acquiredAt == a[k].guard.claim.acquiredAt)
    && (forall k :: |a| <= k < |b| ==> t <= b[k].guard.claim.acquiredAt)
  }

  lemma WorkGrows(rows: Rows, id: string, log: seq<ExecutionClaim>, eps: seq<Episode>, k: nat, act: Act, now: int)
    requires id in rows && IdOk(log, eps, rows[id], now) && k < |eps|
    requires Store.LogOk(id, log) && Store.RowIsLatest(rows[id], log)
    ensures Grows(eps, eps[k := ActOn(rows, eps[k], act, now).1], now)
  {
    EpisodeAgrees(rows, id, log, eps, k, now);
    ActGrowsLease(rows, log[k], eps[k], act, now);
  }

  lemma StepGrows(s: State, t: int, e: Event, id: string)
    requires Inv(s, t) && t <= e.now
    ensures Grows(s.Of(id), Step(s, e).Of(id), e.now)
  {
    match e.op
    case Acquire(req, ctx) => AcquireGrows(s, req, ctx, e.now, id);
    case Work(wid, k, act) =>
      if wid == id && k < |s.Of(id)| {
        assert Step(s, e).Of(id) == s.episodes[id][k := ActOn(s.ledger.rows, s.episodes[id][k], act, e.now).1];
        assert IdOk(s.ledger.issued[id], s.episodes[id], s.ledger.rows[id], t);
        IdAges(s.ledger.issued[id], s.episodes[id], s.ledger.rows[id], t, e.now);
        WorkGrows(s.ledger.rows, id, s.ledger.issued[id], s.episodes[id], k, act, e.now);
      } else {
        assert Step(s, e).Of(id) == s.Of(id);
      }
  }

  lemma AcquireGrows(s: State, req: ClaimRequest, ctx: StoreContext, now: int, id: string)
    ensures Grows(s.Of(id), Step(s, Event(now, Acquire(req, ctx))).Of(id), now)
  {
  }

  lemma {:induction false} RunGrows(s: State, t: int, es: seq<Event>, id: string)
    requires Inv(s, t) && Monotone(t, es)
    ensures Grows(s.Of(id), Run(s, es).Of(id), t)
    decreases |es|
  {
    if es != [] {
      StepGrows(s, t, es[0], id);
      StepKeepsInv(s, t, es[0]);
      RunGrows(Step(s, es[0]), es[0].now, es[1..], id);
    }
  }

  /** In the continuation `rest` of `s`, all by time `u`, guard `k` was issued after the latest guard of `id` in `s` and
      has already broadcast, while that one still has its own broadcast ahead of it. */
  ghost predicate Overtaken(s: State, t: int, id: string, u: int, rest: seq<Event>, k: nat)
    requires s.Of(id) != []
  {
    var n := |s.Of(id)|;
    var eps := Run(s, rest).Of(id);
    && Monotone(t, rest) && EndTime(t, rest) <= u
    && n <= k < |eps| && eps[n - 1].phase.Recorded? && eps[k].broadcasts != []
  }

  /** A guard that still has its broadcast ahead of it before its lease ends is the latest one. */
  lemma SendBeforeLeaseEndIsFirst(t: int, es: seq<Event>, id: string, k: nat)
    requires Monotone(t, es) && k < |Run(INIT, es).Of(id)| && Run(INIT, es).Of(id)[k].phase.Recorded?
    requires EndTime(t, es) < Run(INIT, es).Of(id)[k].leaseUntil
    ensures |Run(INIT, es).Of(id)| == k + 1
  {
    var s, now := Run(INIT, es), EndTime(t, es);
    RunKeepsInv(INIT, t, es);
    if k + 1 < |s.Of(id)| {
      FollowedAfterLease(s.ledger.issued[id], s.episodes[id], s.ledger.rows[id], now, k);
    }
  }

  lemma FollowedAfterLease(log: seq<ExecutionClaim>, eps: seq<Episode>, row: Row, t: int, k: nat)
    requires IdOk(log, eps, row, t) && k + 1 < |eps| && eps[k].phase.Recorded?
    ensures eps[k].leaseUntil <= t
  {
    assert EpisodeOk(log[k], eps[k], t) && EpisodeOk(log[k + 1], eps[k + 1], t);
    assert MadeWay(log[k], eps[k], log[k + 1], eps[k + 1].grace);
  }

  lemma NeverOvertaken(t: int, es: seq<Event>, id: string, u: int, rest: seq<Event>, k: nat)
    requires Monotone(t, es) && Run(INIT, es).Of(id) != []
    requires var eps := Run(INIT, es).Of(id); u < eps[|eps| - 1].leaseUntil
    ensures !Overtaken(Run(INIT, es), EndTime(t, es), id, u, rest, k)
  {
    var s, now := Run(INIT, es), EndTime(t, es);
    var n, later := |s.Of(id)|, Run(s, rest);
    if Monotone(now, rest) && EndTime(now, rest) <= u && n <= |later.Of(id)| && later.Of(id)[n - 1].phase.Recorded? {
      Continued(t, es, id, rest);
      SendBeforeLeaseEndIsFirst(t, es + rest, id, n - 1);
    }
  }

  /** A continuation is a run, and its granted leases have only grown. */
  lemma Continued(t: int, es: seq<Event>, id: string, rest: seq<Event>)
    requires Monotone(t, es) && Monotone(EndTime(t, es), rest)
    ensures Monotone(t, es + rest) && Run(INIT, es + rest) == Run(Run(INIT, es), rest)
    ensures EndTime(t, es + rest) == EndTime(EndTime(t, es), rest)
    ensures Grows(Run(INIT, es).Of(id), Run(INIT, es + rest).Of(id), EndTime(t, es))
  {
    RunConcat(INIT, t, es, rest);
    RunKeepsInv(INIT, t, es);
    RunGrows(Run(INIT, es), EndTime(t, es), rest, id);
  }

  /** While the latest guard has a journaled intent in hand, the row is claimed under its lease. */
  lemma LatestGuard(t: int, es: seq<Event>, id: string)
    requires Monotone(t, es) && Run(INIT, es).Of(id) != []
    requires var eps := Run(INIT, es).Of(id); eps[|eps| - 1].phase.Recorded?
    ensures var s := Run(INIT, es); var ep := s.Of(id)[|s.Of(id)| - 1];
            && id in s.ledger.rows && id in s.episodes && ep.intents != []
            && s.ledger.rows[id].claim.status == Claimed && s.ledger.rows[id].claim.leaseUntil == ep.leaseUntil
  {
    EveryEpisodeIsOk(t, es, id, |Run(INIT, es).Of(id)| - 1);
  }

  /** A claimed row whose lease has run out is taken over, and the new guard broadcasts at once. */
  lemma TakeoverBroadcasts(s: State, req: ClaimRequest, ctx: StoreContext, end: int) returns (s': State, es: seq<Event>)
    requires req.executionId in s.ledger.rows && req.executionId in s.episodes && 0 < LeaseOffset(ctx.lease)
    requires var c := s.ledger.rows[req.executionId].claim; c.status == Claimed && c.leaseUntil <= end
    ensures es != [] && Monotone(end, es) && EndTime(end, es) == end && Run(s, es) == s'
    ensures var id := req.executionId; var n := |s.Of(id)|;
            && |s'.Of(id)| == n + 1 && s'.Of(id)[..n] == s.Of(id)
            && |s'.Of(id)[n].broadcasts| == 1 && s'.Of(id)[n].broadcasts[0].sentAt == end
  {
    var id, n := req.executionId, |s.Of(req.executionId)|;
    var e1, e2, e3 := Event(end, Acquire(req, ctx)), Event(end, Work(id, n, Fence(true))),
        Event(end, Work(id, n, Record));
    var e4 := Event(end, Work(id, n, Send(Sent(true), Report(Ok(Receipt(None)), true))));
    var s1 := Step(s, e1);
    assert s1.Of(id) == s.Of(id) + [Issued(ClaimStep(s.ledger.rows, req, ctx, end).1.claim, ctx)];
    var s2 := Step(s1, e2);
    assert s2.Of(id)[n].phase == Fenced(end) && s2.Of(id)[..n] == s.Of(id);
    var s3 := Step(s2, e3);
    assert s3.Of(id)[n].phase == Recorded(end) && s3.Of(id)[..n] == s.Of(id);
    s' := Step(s3, e4);
    Cons(s3, end, e4, []);
    Cons(s2, end, e3, [e4] + []);
    Cons(s1, end, e2, [e3] + ([e4] + []));
    Cons(s, end, e1, [e2] + ([e3] + ([e4] + [])));
    es := [e1] + ([e2] + ([e3] + ([e4] + [])));
  }

  /** A worker that stalls between fence and broadcast until its lease has ended is overtaken, from every reachable
      state: the claim is taken over and the new guard broadcasts first. */
  lemma StalledBroadcastFollowsTakeover(t: int, es: seq<Event>, req: ClaimRequest, ctx: StoreContext, u: int)
    returns (rest: seq<Event>)
    requires Monotone(t, es) && Run(INIT, es).Of(req.executionId) != [] && 0 < LeaseOffset(ctx.lease)
    requires var eps := Run(INIT, es).Of(req.executionId);
             eps[|eps| - 1].phase.Recorded? && eps[|eps| - 1].leaseUntil <= u && EndTime(t, es) <= u
    ensures var s := Run(INIT, es); Overtaken(s, EndTime(t, es), req.executionId, u, rest, |s.Of(req.executionId)|)
  {
    var s, now, id := Run(INIT, es), EndTime(t, es), req.executionId;
    var n := |s.Of(id)|;
    LatestGuard(t, es, id);
    var lease := s.Of(id)[n - 1].leaseUntil;
    var end := if now < lease then lease else now;
    var s', taken := TakeoverBroadcasts(s, req, ctx, end);
    rest := taken;
    assert s'.Of(id)[n - 1] == s'.Of(id)[..n][n - 1] == s.Of(id)[n - 1];
  }

  /** From every reachable state whose latest guard has fenced and journaled its intent: its broadcast at `u` comes
      before every broadcast of later guards, whatever happens until then, exactly when `u` is before the lease end. */
  lemma SendPrecedesLaterGuardsIff(t: int, es: seq<Event>, id: string, u: int)
    requires Monotone(t, es) && Run(INIT, es).Of(id) != [] && EndTime(t, es) <= u
    requires var eps := Run(INIT, es).Of(id); eps[|eps| - 1].phase.Recorded?
    ensures var s := Run(INIT, es); var eps := s.Of(id);
            (forall rest, k :: !Overtaken(s, EndTime(t, es), id, u, rest, k)) <==> u < eps[|eps| - 1].leaseUntil
  {
    var s, now := Run(INIT, es), EndTime(t, es);
    var eps := s.Of(id);
    if u < eps[|eps| - 1].leaseUntil {
      forall rest, k
        ensures !Overtaken(s, now, id, u, rest, k)
      {
        NeverOvertaken(t, es, id, u, rest, k);
      }
    } else {
      var req := ClaimRequest(id, "", "", "", "");
      var rest := StalledBroadcastFollowsTakeover(t, es, req, StoreContext("", 10, 1000), u);
      assert Overtaken(s, now, id, u, rest, |eps|);
    }
  }

  // The guard's own copy of its lease -----------------------------------------

  /** Every renewal stamps the guard's own copy at most `delay` after the store answered. */
  predicate Prompt(delay: nat, es: seq<Event>) {
    forall i :: 0 <= i < |es| ==> PromptEvent(delay, es[i])
  }

  predicate PromptEvent(delay: nat, e: Event) {
    e.op.Work? && e.op.act.Renew? ==> e.op.act.stampedAt <= e.now + delay
  }

  ghost predicate CopiesOk(delay: nat, eps: seq<Episode>) {
    forall k :: 0 <= k < |eps| ==> eps[k].guard.claim.leaseUntil <= eps[k].leaseUntil + delay
  }

  lemma StepKeepsCopies(s: State, e: Event, id: string, delay: nat)
    requires PromptEvent(delay, e) && CopiesOk(delay, s.Of(id))
    ensures CopiesOk(delay, Step(s, e).Of(id))
  {
  }

  lemma {:induction false} RunKeepsCopies(s: State, es: seq<Event>, id: string, delay: nat)
    requires Prompt(delay, es) && CopiesOk(delay, s.Of(id))
    ensures CopiesOk(delay, Run(s, es).Of(id))
    decreases |es|
  {
    if es != [] {
      assert PromptEvent(delay, es[0]);
      StepKeepsCopies(s, es[0], id, delay);
      assert Prompt(delay, es[1..]) by {
        forall i | 0 <= i < |es| - 1
          ensures PromptEvent(delay, es[1..][i])
        {
          assert PromptEvent(delay, es[i + 1]);
        }
      }
      RunKeepsCopies(Step(s, es[0]), es[1..], id, delay);
    }
  }

  /** A guard's own copy of its lease end runs ahead of the store's by at most the delay of its second clock reading. */
  lemma OwnLeaseIsBounded(t: int, es: seq<Event>, id: string, k: nat, delay: nat)
    requires Monotone(t, es) && Prompt(delay, es) && k < |Run(INIT, es).Of(id)|
    ensures var ep := Run(INIT, es).Of(id)[k]; var g := ep.guard;
            && g.claim.leaseUntil <= ep.leaseUntil + delay
            && g.claim.leaseUntil <= g.claim.acquiredAt + (g.renewals + 1) * LeaseOffset(g.lease) + delay
  {
    RunKeepsCopies(INIT, es, id, delay);
    LeaseIsBounded(t, es, id, k);
  }
}
