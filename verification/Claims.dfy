/** Execution ownership: the claim store operations, each one atomic step on the map of rows,
    and the guard a successful claim hands out. Times and durations are integer milliseconds. */
module Claims {
  import opened Common

  datatype Error = ClaimRejected | OwnershipUnavailable
  datatype Result<+T> = Ok(value: T) | Err(error: Error)

  /** Upper bound on lease renewals of one claim. */
  const MAX_RENEWALS: nat := 40

  datatype ClaimStatus = Claimed | Released | HandedOff

  datatype ClaimRequest = ClaimRequest(executionId: string, kind: string, moduleName: string,
                                       strategy: string, symbol: string)

  datatype StoreContext = StoreContext(ownerId: string, lease: nat, handoffGrace: nat)

  datatype ExecutionClaim = ExecutionClaim(request: ClaimRequest, ownerId: string, epoch: int,
                                           status: ClaimStatus, acquiredAt: int, leaseUntil: int,
                                           takeoverCount: int, previousOwner: Option<string>)

  datatype ClaimDecision =
    | Acquired(claim: ExecutionClaim)
    | Rejected(ownerId: string, epoch: int, status: ClaimStatus, leaseUntil: int)

  datatype Row = Row(claim: ExecutionClaim, updatedAt: int, leaseSpan: nat)

  type Rows = map<string, Row>

  /** A standard duration as a clock offset; one beyond the offset range falls back to a default. */
  function Offset(d: nat, fallback: nat): (r: nat) {
    if d <= 0x7FFF_FFFF_FFFF_FFFF then d else fallback
  }

  function LeaseOffset(d: nat): (r: nat) { Offset(d, 45_000) }

  function GraceOffset(d: nat): (r: nat) { Offset(d, 900_000) }

  // Store semantics on values -----------------------------------------------

  predicate Reacquirable(row: Row, now: int, grace: nat) {
    match row.claim.status
    case Claimed => row.claim.leaseUntil <= now
    case Released => true
    case HandedOff => row.updatedAt + GraceOffset(grace) <= now
  }

  function ClaimStep(rows: Rows, req: ClaimRequest, ctx: StoreContext, now: int): (r: (Rows, ClaimDecision)) {
    var leaseUntil := now + LeaseOffset(ctx.lease);
    if req.executionId !in rows then
      var c := ExecutionClaim(req, ctx.ownerId, 1, Claimed, now, leaseUntil, 0, None);
      (rows[req.executionId := Row(c, now, ctx.lease)], Acquired(c))
    else
      var row := rows[req.executionId];
      if !Reacquirable(row, now, ctx.handoffGrace) then
        (rows, Rejected(row.claim.ownerId, row.claim.epoch, row.claim.status, row.claim.leaseUntil))
      else
        var takeovers := row.claim.takeoverCount + (if row.claim.status == Claimed then 1 else 0);
        var c := ExecutionClaim(req, ctx.ownerId, row.claim.epoch + 1, Claimed, now, leaseUntil,
                                takeovers, Some(row.claim.ownerId));
        (rows[req.executionId := Row(c, now, ctx.lease)], Acquired(c))
  }

  /** The compare half of every compare-and-set: (owner, epoch) is the row's claimed holder. */
  predicate Holds(rows: Rows, id: string, owner: string, epoch: int) {
    && id in rows
    && rows[id].claim.ownerId == owner
    && rows[id].claim.epoch == epoch
    && rows[id].claim.status == Claimed
  }

  predicate Verified(rows: Rows, id: string, owner: string, epoch: int, now: int) {
    Holds(rows, id, owner, epoch) && rows[id].claim.leaseUntil > now
  }

  function RenewStep(rows: Rows, id: string, owner: string, epoch: int, now: int): (r: (Rows, bool)) {
    if Verified(rows, id, owner, epoch, now) then
      var row := rows[id];
      (rows[id := row.(claim := row.claim.(leaseUntil := now + LeaseOffset(row.leaseSpan)), updatedAt := now)], true)
    else (rows, false)
  }

  function ReleaseStep(rows: Rows, id: string, owner: string, epoch: int, mode: ClaimStatus, now: int)
    : (r: (Rows, bool))
  {
    if Holds(rows, id, owner, epoch) then
      var row := rows[id];
      (rows[id := row.(claim := row.claim.(status := mode), updatedAt := now)], true)
    else (rows, false)
  }

  // The in-memory store -----------------------------------------------------

  class MemoryClaimStore {
    var rows: Rows

    constructor ()
      ensures rows == map[]
    {
      rows := map[];
    }

    method Claim(req: ClaimRequest, ctx: StoreContext, now: int) returns (decision: ClaimDecision)
      modifies this
      ensures (rows, decision) == ClaimStep(old(rows), req, ctx, now)
    {
      var leaseUntil := now + LeaseOffset(ctx.lease);
      if req.executionId !in rows {
        var claim := ExecutionClaim(req, ctx.ownerId, 1, Claimed, now, leaseUntil, 0, None);
        rows := rows[req.executionId := Row(claim, now, ctx.lease)];
        return Acquired(claim);
      }
      var row := rows[req.executionId];
      var c := row.claim;
      var reacquirable;
      match c.status {
        case Claimed => reacquirable := c.leaseUntil <= now;
        case Released => reacquirable := true;
        case HandedOff => reacquirable := row.updatedAt + GraceOffset(ctx.handoffGrace) <= now;
      }
      if !reacquirable {
        return Rejected(c.ownerId, c.epoch, c.status, c.leaseUntil);
      }
      var takeover := c.status == Claimed;
      var claim := ExecutionClaim(req, ctx.ownerId, c.epoch + 1, Claimed, now, leaseUntil,
                                  c.takeoverCount + (if takeover then 1 else 0), Some(c.ownerId));
      rows := rows[req.executionId := Row(claim, now, ctx.lease)];
      return Acquired(claim);
    }

    method Renew(id: string, owner: string, epoch: int, now: int) returns (ok: bool)
      modifies this
      ensures (rows, ok) == RenewStep(old(rows), id, owner, epoch, now)
    {
      if id !in rows {
        return false;
      }
      var row := rows[id];
      var c := row.claim;
      if c.ownerId != owner || c.epoch != epoch || c.status != Claimed {
        return false;
      }
      if c.leaseUntil <= now {
        return false;
      }
      rows := rows[id := row.(claim := c.(leaseUntil := now + LeaseOffset(row.leaseSpan)), updatedAt := now)];
      return true;
    }

    method Verify(id: string, owner: string, epoch: int, now: int) returns (ok: bool)
      ensures ok == Verified(rows, id, owner, epoch, now)
    {
      if id !in rows {
        return false;
      }
      var c := rows[id].claim;
      return c.ownerId == owner && c.epoch == epoch && c.status == Claimed && c.leaseUntil > now;
    }

    method Release(id: string, owner: string, epoch: int, mode: ClaimStatus, now: int) returns (ok: bool)
      modifies this
      ensures (rows, ok) == ReleaseStep(old(rows), id, owner, epoch, mode, now)
    {
      if id !in rows {
        return false;
      }
      var row := rows[id];
      var c := row.claim;
      if c.ownerId != owner || c.epoch != epoch || c.status != Claimed {
        return false;
      }
      rows := rows[id := row.(claim := c.(status := mode), updatedAt := now)];
      return true;
    }
  }

  // The guard ---------------------------------------------------------------

  /** A guard's own state. `reachable` below says whether the store answered. */
  datatype Guard = Guard(claim: ExecutionClaim, lease: nat, renewals: nat, done: bool) {
    function Id(): string { claim.request.executionId }
  }

  /** The registry's clamps on what it passes to the store: values at or above their floor pass unchanged. */
  function RegistryContext(replica: string, lease: nat, grace: nat): (ctx: StoreContext)
    ensures ctx.ownerId == replica
    ensures ctx.lease >= 10 && (lease >= 10 ==> ctx.lease == lease) && (lease < 10 ==> ctx.lease == 10)
    ensures ctx.handoffGrace >= 1000
    ensures (grace >= 1000 ==> ctx.handoffGrace == grace) && (grace < 1000 ==> ctx.handoffGrace == 1000)
  {
    StoreContext(replica, if lease < 10 then 10 else lease, if grace < 1000 then 1000 else grace)
  }

  function FenceResult(rows: Rows, g: Guard, now: int, reachable: bool): (r: Result<()>) {
    if !reachable then Err(OwnershipUnavailable)
    else if Verified(rows, g.Id(), g.claim.ownerId, g.claim.epoch, now) then Ok(())
    else Err(ClaimRejected)
  }

  /** The guard stamps its own copy of the lease end from a second clock reading, after the store has answered. */
  function GuardRenew(rows: Rows, g: Guard, now: int, stampedAt: int, reachable: bool)
    : (r: (Rows, Guard, Result<bool>))
  {
    if g.done || g.renewals >= MAX_RENEWALS then (rows, g, Ok(false))
    else
      var g' := g.(renewals := g.renewals + 1);
      if !reachable then (rows, g', Err(OwnershipUnavailable))
      else
        var (rows', ok) := RenewStep(rows, g.Id(), g.claim.ownerId, g.claim.epoch, now);
        (rows', if ok then g'.(claim := g.claim.(leaseUntil := stampedAt + LeaseOffset(g.lease))) else g', Ok(ok))
  }

  function GuardTransition(rows: Rows, g: Guard, mode: ClaimStatus, now: int, reachable: bool)
    : (r: (Rows, Guard, bool))
  {
    if g.done then (rows, g, false)
    else
      var g' := g.(done := true);
      if !reachable then (rows, g', false)
      else
        var (rows', ok) := ReleaseStep(rows, g.Id(), g.claim.ownerId, g.claim.epoch, mode, now);
        (rows', g'.(claim := g.claim.(status := mode)), ok)
  }

  /** A fence passes exactly for the unexpired holder of a store that answered; otherwise it says which failed. */
  lemma FencePassesIff(rows: Rows, g: Guard, now: int, reachable: bool)
    ensures var r := FenceResult(rows, g, now, reachable); var c := g.claim;
            && (r.Ok? <==> && reachable && g.Id() in rows && rows[g.Id()].claim.status == Claimed
                           && rows[g.Id()].claim.ownerId == c.ownerId && rows[g.Id()].claim.epoch == c.epoch
                           && now < rows[g.Id()].claim.leaseUntil)
            && (r.Err? ==> r.error == if reachable then ClaimRejected else OwnershipUnavailable)
  {
  }

  /** A guard renews exactly while it is not done, has renewed fewer than 40 times and would pass the fence. An
      attempt spends one of the 40 whether or not it succeeds. */
  lemma RenewsIff(rows: Rows, g: Guard, now: int, stampedAt: int, reachable: bool)
    ensures var (rows', g', r) := GuardRenew(rows, g, now, stampedAt, reachable);
            && (r == Ok(true) <==> !g.done && g.renewals < 40 && FenceResult(rows, g, now, reachable).Ok?)
            && g'.renewals == (if g.done || g.renewals >= 40 then g.renewals else g.renewals + 1)
            && (r.Err? <==> !g.done && g.renewals < 40 && !reachable)
            && g'.done == g.done && g'.lease == g.lease && (r != Ok(true) ==> rows' == rows && g'.claim == g.claim)
            && (r == Ok(true) ==>
                  && g'.claim == g.claim.(leaseUntil := stampedAt + LeaseOffset(g.lease))
                  && rows'[g.Id()].claim.leaseUntil == now + LeaseOffset(rows[g.Id()].leaseSpan))
  {
  }

  /** A terminal transition is applied exactly once, and only for the holder of a store that answers. */
  lemma TransitionAppliesIff(rows: Rows, g: Guard, mode: ClaimStatus, now: int, reachable: bool)
    ensures var (rows', g', applied) := GuardTransition(rows, g, mode, now, reachable);
            && (applied <==> !g.done && reachable && Holds(rows, g.Id(), g.claim.ownerId, g.claim.epoch))
            && g'.done && g'.renewals == g.renewals
            && (!applied ==> rows' == rows)
            && (applied ==> rows'[g.Id()].claim.status == mode && rows'[g.Id()].updatedAt == now)
            && !GuardTransition(rows', g', mode, now, reachable).2
  {
  }

  class ClaimGuard {
    const store: MemoryClaimStore
    const lease: nat
    var claim: ExecutionClaim
    var renewals: nat
    var done: bool

    function Value(): Guard
      reads this
    {
      Guard(claim, lease, renewals, done)
    }

    constructor (store: MemoryClaimStore, claim: ExecutionClaim, lease: nat)
      ensures this.store == store
      ensures Value() == Guard(claim, lease, 0, false)
    {
      this.store, this.claim, this.lease := store, claim, lease;
      renewals, done := 0, false;
    }

    method Fence(now: int, reachable: bool) returns (r: Result<()>)
      ensures r == FenceResult(store.rows, Value(), now, reachable)
    {
      if !reachable {
        return Err(OwnershipUnavailable);
      }
      var ok := store.Verify(claim.request.executionId, claim.ownerId, claim.epoch, now);
      return if ok then Ok(()) else Err(ClaimRejected);
    }

    method Renew(now: int, stampedAt: int, reachable: bool) returns (r: Result<bool>)
      modifies this, store
      ensures (store.rows, Value(), r) == old(GuardRenew(store.rows, Value(), now, stampedAt, reachable))
    {
      if done {
        return Ok(false);
      }
      if renewals >= MAX_RENEWALS {
        return Ok(false);
      }
      renewals := renewals + 1;
      if !reachable {
        return Err(OwnershipUnavailable);
      }
      var ok := store.Renew(claim.request.executionId, claim.ownerId, claim.epoch, now);
      if ok {
        claim := claim.(leaseUntil := stampedAt + LeaseOffset(lease));
      }
      return Ok(ok);
    }

    method Transition(mode: ClaimStatus, now: int, reachable: bool) returns (applied: bool)
      modifies this, store
      ensures (store.rows, Value(), applied) == old(GuardTransition(store.rows, Value(), mode, now, reachable))
    {
      if done {
        return false;
      }
      done := true;
      if !reachable {
        return false;
      }
      applied := store.Release(claim.request.executionId, claim.ownerId, claim.epoch, mode, now);
      claim := claim.(status := mode);
    }

    method Complete(ambiguous: bool, now: int, reachable: bool) returns (applied: bool)
      modifies this, store
      ensures (store.rows, Value(), applied)
              == old(GuardTransition(store.rows, Value(), if ambiguous then HandedOff else Released, now, reachable))
    {
      applied := Transition(if ambiguous then HandedOff else Released, now, reachable);
    }
  }
}
