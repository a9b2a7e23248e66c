/** Runs of the claim store: any replicas, any interleaving of claim, renew and release. A log keeps
    every claim ever issued, per execution id and in the order of issue. */
module ClaimRuns {
  import opened Common
  import opened Claims

  datatype Op =
    | ClaimOp(req: ClaimRequest, ctx: StoreContext)
    | RenewOp(id: string, owner: string, epoch: int)
    | ReleaseOp(id: string, owner: string, epoch: int, mode: ClaimStatus)

  datatype Event = Event(now: int, op: Op)

  datatype Ledger = Ledger(rows: Rows, issued: map<string, seq<ExecutionClaim>>) {
    function Log(id: string): seq<ExecutionClaim> {
      if id in issued then issued[id] else []
    }
  }

  const EMPTY := Ledger(map[], map[])

  function Step(s: Ledger, e: Event): (r: Ledger) {
    match e.op
    case ClaimOp(req, ctx) =>
      var (rows, decision) := ClaimStep(s.rows, req, ctx, e.now);
      var id := req.executionId;
      Ledger(rows, if decision.Acquired? then s.issued[id := s.Log(id) + [decision.claim]] else s.issued)
    case RenewOp(id, owner, epoch) => s.(rows := RenewStep(s.rows, id, owner, epoch, e.now).0)
    case ReleaseOp(id, owner, epoch, mode) => s.(rows := ReleaseStep(s.rows, id, owner, epoch, mode, e.now).0)
  }

  function Run(s: Ledger, es: seq<Event>): (r: Ledger)
    decreases |es|
  {
    if es == [] then s else Run(Step(s, es[0]), es[1..])
  }

  // What every step keeps ---------------------------------------------------

  /** The k-th claim issued for an id carries epoch k+1 and names the owner of the one before it. */
  ghost predicate LogOk(id: string, log: seq<ExecutionClaim>) {
    forall k :: 0 <= k < |log| ==> EntryOk(id, log, k)
  }

  ghost predicate EntryOk(id: string, log: seq<ExecutionClaim>, k: nat)
    requires k < |log|
  {
    && log[k].request.executionId == id
    && log[k].epoch == k + 1
    && 0 <= log[k].takeoverCount <= k
    && log[k].previousOwner == (if k == 0 then None else Some(log[k - 1].ownerId))
  }

  /** A row is the latest issued claim, up to its status and lease. */
  ghost predicate RowIsLatest(row: Row, log: seq<ExecutionClaim>) {
    && |log| > 0
    && row.claim == log[|log| - 1].(status := row.claim.status, leaseUntil := row.claim.leaseUntil)
  }

  ghost predicate Inv(s: Ledger) {
    && s.rows.Keys == s.issued.Keys
    && forall id :: id in s.rows ==> LogOk(id, s.issued[id]) && RowIsLatest(s.rows[id], s.issued[id])
  }

  lemma ClaimKeepsInv(s: Ledger, req: ClaimRequest, ctx: StoreContext, now: int)
    requires Inv(s)
    ensures Inv(Step(s, Event(now, ClaimOp(req, ctx))))
  {
    var id := req.executionId;
    var decision := ClaimStep(s.rows, req, ctx, now).1;
    if decision.Acquired? {
      assert LogOk(id, s.Log(id));
      if id in s.rows {
        assert EntryOk(id, s.Log(id), |s.Log(id)| - 1);
      }
      AppendKeepsLogOk(id, s.Log(id), decision.claim);
    }
  }

  lemma AppendKeepsLogOk(id: string, log: seq<ExecutionClaim>, c: ExecutionClaim)
    requires LogOk(id, log)
    requires c.request.executionId == id && c.epoch == |log| + 1 && 0 <= c.takeoverCount <= |log|
    requires c.previousOwner == (if log == [] then None else Some(log[|log| - 1].ownerId))
    ensures LogOk(id, log + [c])
  {
    forall k | 0 <= k < |log| + 1
      ensures EntryOk(id, log + [c], k)
    {
      if k < |log| {
        assert EntryOk(id, log, k);
      }
    }
  }

  lemma StepKeepsInv(s: Ledger, e: Event)
    requires Inv(s)
    ensures Inv(Step(s, e))
  {
    match e.op
    case ClaimOp(req, ctx) => ClaimKeepsInv(s, req, ctx, e.now);
    case RenewOp(id, owner, epoch) =>
    case ReleaseOp(id, owner, epoch, mode) =>
  }

  lemma {:induction false} RunKeepsInv(s: Ledger, es: seq<Event>)
    requires Inv(s)
    ensures Inv(Run(s, es))
    decreases |es|
  {
    if es != [] {
      StepKeepsInv(s, es[0]);
      RunKeepsInv(Step(s, es[0]), es[1..]);
    }
  }

  // Epochs are fencing tokens -----------------------------------------------

  predicate Verifies(s: Ledger, c: ExecutionClaim, now: int) {
    Verified(s.rows, c.request.executionId, c.ownerId, c.epoch, now)
  }

  /** In every run from the empty store: no two claims issued for one id share an epoch, at most one of
      them verifies at any instant (only the latest can), the takeover count stays below the epoch and
      `previousOwner` is the owner of the preceding epoch. The clock may do anything. */
  lemma EpochsFence(es: seq<Event>, id: string, i: nat, j: nat, now: int)
    requires i < j < |Run(EMPTY, es).Log(id)|
    ensures var s := Run(EMPTY, es); var log := s.Log(id);
            && log[i].epoch < log[j].epoch
            && !Verifies(s, log[i], now)
            && log[j].takeoverCount < log[j].epoch
            && log[j].previousOwner == Some(log[j - 1].ownerId)
            && log[j - 1].epoch == log[j].epoch - 1
  {
    RunKeepsInv(EMPTY, es);
    var s := Run(EMPTY, es);
    var log := s.Log(id);
    assert EntryOk(id, log, i) && EntryOk(id, log, j) && EntryOk(id, log, j - 1) && EntryOk(id, log, |log| - 1);
  }

  // What each operation means for the next claim -----------------------------

  predicate AcquiresAt(rows: Rows, req: ClaimRequest, ctx: StoreContext, t: int) {
    ClaimStep(rows, req, ctx, t).1.Acquired?
  }

  /** The first claim on an id is acquired, as epoch 1 with nobody before it. */
  lemma FirstClaimIsAcquired(rows: Rows, req: ClaimRequest, ctx: StoreContext, now: int)
    requires req.executionId !in rows
    ensures var d := ClaimStep(rows, req, ctx, now).1;
            d.Acquired? && d.claim.epoch == 1 && d.claim.takeoverCount == 0 && d.claim.previousOwner == None
  {
  }

  /** A claim on a held id that is not acquired names its holder and changes nothing; one that is acquired takes the
      next epoch, names the holder it follows, and counts as a takeover exactly when that one had not ended. */
  lemma LaterClaimFollows(rows: Rows, req: ClaimRequest, ctx: StoreContext, now: int)
    requires req.executionId in rows
    ensures var c := rows[req.executionId].claim; var (rows', d) := ClaimStep(rows, req, ctx, now);
            match d
            case Rejected(ownerId, epoch, status, leaseUntil) =>
              && rows' == rows && ownerId == c.ownerId && epoch == c.epoch && status == c.status
              && leaseUntil == c.leaseUntil
            case Acquired(next) =>
              && next.epoch == c.epoch + 1 && next.previousOwner == Some(c.ownerId)
              && next.takeoverCount == c.takeoverCount + if c.status == Claimed then 1 else 0
  {
  }

  /** Durations up to the clock's range count as they are; beyond it a lease counts as 45 s and a grace as 900 s. */
  lemma DurationsCount(d: nat)
    ensures d <= 0x7FFF_FFFF_FFFF_FFFF ==> LeaseOffset(d) == GraceOffset(d) == d
    ensures d > 0x7FFF_FFFF_FFFF_FFFF ==> LeaseOffset(d) == 45_000 && GraceOffset(d) == 900_000
  {
  }

  /** An acquired claim is the requester's, verifies until its lease ends and exactly until then, and exactly
      until then shuts out every other claim on the id. */
  lemma AcquiredClaimHolds(rows: Rows, req: ClaimRequest, ctx: StoreContext, now: int, req': ClaimRequest,
                           ctx': StoreContext, t: int)
    requires AcquiresAt(rows, req, ctx, now) && req'.executionId == req.executionId
    ensures var (rows', d) := ClaimStep(rows, req, ctx, now); var end := now + LeaseOffset(ctx.lease);
            && d.claim.request == req && d.claim.ownerId == ctx.ownerId
            && d.claim.acquiredAt == now && d.claim.leaseUntil == end
            && (Verified(rows', req.executionId, ctx.ownerId, d.claim.epoch, t) <==> t < end)
            && (AcquiresAt(rows', req', ctx', t) <==> end <= t)
            && forall id :: id != req.executionId ==>
                 (id in rows' <==> id in rows) && (id in rows ==> rows'[id] == rows[id])
  {
  }

  /** A renewal moves that end to a full lease span from now; it succeeds exactly for an unexpired holder. */
  lemma RenewedClaimHolds(rows: Rows, id: string, owner: string, epoch: int, now: int, req: ClaimRequest,
                          ctx: StoreContext, t: int)
    requires req.executionId == id
    ensures var (rows', ok) := RenewStep(rows, id, owner, epoch, now);
            && (ok <==> Verified(rows, id, owner, epoch, now))
            && (ok ==> var end := now + LeaseOffset(rows[id].leaseSpan);
                  && (Verified(rows', id, owner, epoch, t) <==> t < end)
                  && (AcquiresAt(rows', req, ctx, t) <==> end <= t))
            && (!ok ==> rows' == rows)
  {
  }

  /** After a terminal transition the claim never verifies; a released one can be acquired at once, a handed-off
      one exactly when the claimer's grace has elapsed since. */
  lemma EndedClaimReopens(rows: Rows, id: string, owner: string, epoch: int, mode: ClaimStatus, now: int,
                          req: ClaimRequest, ctx: StoreContext, t: int)
    requires req.executionId == id && mode != Claimed && Holds(rows, id, owner, epoch)
    ensures var (rows', ok) := ReleaseStep(rows, id, owner, epoch, mode, now);
            && ok && !Verified(rows', id, owner, epoch, t)
            && (AcquiresAt(rows', req, ctx, t) <==> mode == Released || now + GraceOffset(ctx.handoffGrace) <= t)
  {
  }

  // Under a monotone clock losing a claim is final ---------------------------

  predicate Monotone(from: int, es: seq<Event>)
    decreases |es|
  {
    es == [] || (from <= es[0].now && Monotone(es[0].now, es[1..]))
  }

  function EndTime(from: int, es: seq<Event>): int {
    if es == [] then from else es[|es| - 1].now
  }

  /** The k-th issued claim verifies exactly when it is the latest one, claimed and unexpired. */
  lemma VerifiesIff(s: Ledger, id: string, k: nat, t: int)
    requires Inv(s) && k < |s.Log(id)|
    ensures Verifies(s, s.Log(id)[k], t)
            <==> k == |s.Log(id)| - 1 && s.rows[id].claim.status == Claimed && t < s.rows[id].claim.leaseUntil
  {
    assert EntryOk(id, s.issued[id], k) && EntryOk(id, s.issued[id], |s.issued[id]| - 1);
  }

  lemma StaleAfterStep(s: Ledger, id: string, k: nat, t: int, e: Event)
    requires Inv(s) && k < |s.Log(id)| && t <= e.now
    requires !Verifies(s, s.Log(id)[k], t)
    ensures k < |Step(s, e).Log(id)| && Step(s, e).Log(id)[k] == s.Log(id)[k]
    ensures !Verifies(Step(s, e), s.Log(id)[k], e.now)
  {
    var s' := Step(s, e);
    StepKeepsInv(s, e);
    VerifiesIff(s, id, k, t);
    VerifiesIff(s', id, k, e.now);
    if |s'.Log(id)| == |s.Log(id)| {
      RowMoves(s, id, e);
    }
  }

  /** While no new claim is issued, an unverifiable row stays so: renewals need a live lease. */
  lemma RowMoves(s: Ledger, id: string, e: Event)
    requires Inv(s) && id in s.rows && |Step(s, e).Log(id)| == |s.Log(id)|
    ensures var c := s.rows[id].claim; var c' := Step(s, e).rows[id].claim;
            || c' == c
            || c'.leaseUntil == c.leaseUntil
            || (e.now < c.leaseUntil && c.status == Claimed)
    ensures Step(s, e).rows[id].claim.status == Claimed ==> s.rows[id].claim.status == Claimed
  {
  }

  lemma {:induction false} StaleAfterRun(s: Ledger, id: string, k: nat, t: int, es: seq<Event>)
    requires Inv(s) && k < |s.Log(id)| && Monotone(t, es)
    requires !Verifies(s, s.Log(id)[k], t)
    ensures !Verifies(Run(s, es), s.Log(id)[k], EndTime(t, es))
    decreases |es|
  {
    if es != [] {
      StaleAfterStep(s, id, k, t, es[0]);
      StepKeepsInv(s, es[0]);
      StaleAfterRun(Step(s, es[0]), id, k, es[0].now, es[1..]);
    }
  }

  /** A claim that has failed `verify` once fails every later `verify` and `renew`, whatever any
      replica does in between, as long as the clock does not run backwards. */
  lemma OnceFencedAlwaysFenced(past: seq<Event>, id: string, k: nat, t: int, es: seq<Event>, later: int)
    requires k < |Run(EMPTY, past).Log(id)| && !Verifies(Run(EMPTY, past), Run(EMPTY, past).Log(id)[k], t)
    requires Monotone(t, es) && EndTime(t, es) <= later
    ensures var s := Run(EMPTY, past); var r := Run(s, es); var c := s.Log(id)[k];
            && !Verifies(r, c, later)
            && RenewStep(r.rows, id, c.ownerId, c.epoch, later) == (r.rows, false)
  {
    var s := Run(EMPTY, past);
    RunKeepsInv(EMPTY, past);
    StaleAfterRun(s, id, k, t, es);
    assert EntryOk(id, s.issued[id], k);
  }

  /** The clock assumption is needed: a clock that steps back below the lease end revives the claim. */
  lemma BackwardClockRevives(req: ClaimRequest, ctx: StoreContext, now: int)
    ensures var s := Step(EMPTY, Event(now, ClaimOp(req, ctx)));
            && |s.Log(req.executionId)| == 1
            && !Verifies(s, s.Log(req.executionId)[0], now + LeaseOffset(ctx.lease))
            && Verifies(s, s.Log(req.executionId)[0], now + LeaseOffset(ctx.lease) - 1)
  {
  }

  /** No reading of the clock is more than `back` behind the highest one before it; `top` is the highest so far. */
  predicate Behind(top: int, back: int, es: seq<Event>)
    decreases |es|
  {
    es == [] || (top - back <= es[0].now && Behind(Later(top, es[0].now), back, es[1..]))
  }

  function Later(a: int, b: int): int { if a < b then b else a }

  function Top(top: int, es: seq<Event>): int
    decreases |es|
  {
    if es == [] then top else Top(Later(top, es[0].now), es[1..])
  }

  /** A claim that has failed `verify` never verifies again, on clocks that step back by at most `back`. */
  ghost predicate AlwaysStaysDead(back: int) {
    forall past, id, k: nat, t: int, es, later: int
      {:trigger Behind(t, back, es), Revived(past, id, k, t, es, later)} ::
      Behind(t, back, es) && Top(t, es) - back <= later ==> !Revived(past, id, k, t, es, later)
  }

  ghost predicate Revived(past: seq<Event>, id: string, k: nat, t: int, es: seq<Event>, later: int) {
    var s := Run(EMPTY, past);
    k < |s.Log(id)| && !Verifies(s, s.Log(id)[k], t) && Verifies(Run(s, es), s.Log(id)[k], later)
  }

  lemma {:induction false} NotBehindIsMonotone(top: int, back: int, es: seq<Event>)
    requires back <= 0 && Behind(top, back, es)
    ensures Monotone(top, es) && EndTime(top, es) <= Top(top, es)
    decreases |es|
  {
    if es != [] {
      NotBehindIsMonotone(Later(top, es[0].now), back, es[1..]);
    }
  }

  /** So losing a claim is final exactly on clocks that do not step back at all. */
  lemma AlwaysStaysDeadIff(back: int)
    ensures AlwaysStaysDead(back) <==> back <= 0
  {
    if back <= 0 {
      forall past, id, k: nat, t: int, es, later: int | Behind(t, back, es) && Top(t, es) - back <= later
        ensures !Revived(past, id, k, t, es, later)
      {
        NotBehindIsMonotone(t, back, es);
        if Revived(past, id, k, t, es, later) {
          OnceFencedAlwaysFenced(past, id, k, t, es, later);
        }
      }
    } else {
      var req, ctx := ClaimRequest("", "", "", "", ""), StoreContext("", 10, 1000);
      var past, none: seq<Event>, end, k: nat := [Event(0, ClaimOp(req, ctx))], [], LeaseOffset(ctx.lease), 0;
      BackwardClockRevives(req, ctx, 0);
      assert Run(EMPTY, past) == Step(EMPTY, past[0]);
      assert Behind(end, back, none) && Revived(past, req.executionId, k, end, none, end - 1);
    }
  }
}
