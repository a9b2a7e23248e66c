/** The claim store as four atomic Lua scripts over one hash per execution id with a key expiry.
    The scripts compute times and durations in `Ms`, the integers a Lua number holds exactly: that their
    bodies verify is the proof that every one they form is exact. They are specified over unbounded
    integers, and so are the epoch and takeover counters. */
module RedisClaims {
  import opened Common
  import opened Claims

  const LUA_MAX: int := 9007199254740991

  /** Integers below 2^53 in magnitude. */
  newtype Ms = x: int | -9007199254740991 <= x <= 9007199254740991

  const MAX_CLAIM_DURATION_MS: int := 0x8_0000_0000_0000 - 1
  const TERMINAL_TTL_MS: int := 7 * 24 * 3600 * 1000

  /** A hash. Rows of the older layout have no recorded lease or grace span. */
  datatype Hash = Hash(request: ClaimRequest, owner: string, epoch: int, status: ClaimStatus, claimedAt: int,
                       leaseUntil: int, leaseSpan: Option<int>, graceSpan: Option<int>, updatedAt: int,
                       takeovers: int, prevOwner: string)

  /** A key with its absolute expiry, if any. */
  datatype Key = Key(hash: Hash, expiry: Option<int>)

  type Db = map<string, Key>

  datatype Reply = Reply(acquired: bool, epoch: int, status: ClaimStatus, leaseUntil: int, takeovers: int,
                         otherOwner: string, stamp: int, reacquired: int)

  datatype Script<+T> = Returned(value: T) | Errored

  function Max(a: int, b: int): int { if a < b then b else a }

  /** The caller's clamp and range check on a lease or grace. */
  function ClaimDurationMs(ms: nat): (r: Script<int>)
    ensures r.Returned? <==> ms <= MAX_CLAIM_DURATION_MS
    ensures r.Returned? ==> r.value == if ms >= 1000 then ms else 1000
  {
    var ms' := Max(ms, 1000);
    if ms' > 0x7FFF_FFFF_FFFF_FFFF || ms' > MAX_CLAIM_DURATION_MS then Errored else Returned(ms')
  }

  // What the scripts do, over unbounded integers ----------------------------

  predicate Alive(db: Db, id: string, now: int) {
    id in db && (db[id].expiry.None? || now <= db[id].expiry.value)
  }

  /** 0 when the row blocks acquisition, 1 for a re-acquisition, 2 for a takeover. */
  function Reacquisition(h: Hash, graceMs: int, now: int): int {
    match h.status
    case Released => 1
    case Claimed => if h.leaseUntil <= now then 2 else 0
    case HandedOff => if h.updatedAt + graceMs <= now then 1 else 0
  }

  function ClaimScript(db: Db, req: ClaimRequest, owner: string, leaseMs: int, graceMs: int, now: int)
    : (r: (Db, Script<Reply>))
  {
    var id := req.executionId;
    var retention := leaseMs * 2 + graceMs;
    if retention > LUA_MAX - now then (db, Errored)
    else if !Alive(db, id, now) then
      (db[id := Key(Stamped(req, owner, leaseMs, graceMs, now, 1, 0, ""), Some(now + retention))],
       Returned(Reply(true, 1, Claimed, now + leaseMs, 0, "", now, 0)))
    else
      var h := db[id].hash;
      var reacq := Reacquisition(h, graceMs, now);
      if reacq == 0 then
        (db, Returned(Reply(false, h.epoch, h.status, h.leaseUntil, 0, h.owner, h.updatedAt, 0)))
      else
        var takeovers := if reacq == 2 then h.takeovers + 1 else h.takeovers;
        (db[id := Key(Stamped(req, owner, leaseMs, graceMs, now, h.epoch + 1, takeovers, h.owner),
                      Some(now + retention))],
         Returned(Reply(true, h.epoch + 1, Claimed, now + leaseMs, takeovers, h.owner, now, reacq)))
  }

  function Stamped(req: ClaimRequest, owner: string, leaseMs: int, graceMs: int, now: int,
                   epoch: int, takeovers: int, prev: string): Hash
  {
    Hash(req, owner, epoch, Claimed, now, now + leaseMs, Some(leaseMs), Some(graceMs), now, takeovers, prev)
  }

  predicate HeldBy(db: Db, id: string, owner: string, epoch: int, now: int) {
    && Alive(db, id, now)
    && db[id].hash.owner == owner && db[id].hash.epoch == epoch && db[id].hash.status == Claimed
  }

  predicate VerifyScript(db: Db, id: string, owner: string, epoch: int, now: int) {
    HeldBy(db, id, owner, epoch, now) && db[id].hash.leaseUntil > now
  }

  /** Remaining lifetime, -1 for a key without expiry. */
  function Pttl(k: Key, now: int): int {
    if k.expiry.None? then -1 else k.expiry.value - now
  }

  function Or(o: Option<int>, default: int): int {
    if o.Some? then o.value else default
  }

  function RenewScript(db: Db, id: string, owner: string, epoch: int, now: int): (r: (Db, Script<bool>)) {
    if !VerifyScript(db, id, owner, epoch, now) then (db, Returned(false))
    else
      var k := db[id];
      var span := Or(k.hash.leaseSpan, 45_000);
      var grace := Or(k.hash.graceSpan, 0);
      var retention := Max(span * 2 + grace, Pttl(k, now));
      if span <= 0 || grace < 0 || retention > LUA_MAX - now then (db, Errored)
      else (db[id := Key(k.hash.(leaseUntil := now + span, updatedAt := now), Some(now + retention))], Returned(true))
  }

  /** How long a terminal row is kept: 7 days, and for a hand-off at least the recorded grace plus a lease. */
  function Retention(h: Hash, handedOff: bool): int {
    if handedOff && h.graceSpan.Some? then Max(TERMINAL_TTL_MS, h.graceSpan.value + Or(h.leaseSpan, 1000))
    else TERMINAL_TTL_MS
  }

  function ReleaseScript(db: Db, id: string, owner: string, epoch: int, handedOff: bool, now: int)
    : (r: (Db, Script<bool>))
  {
    if !HeldBy(db, id, owner, epoch, now) then (db, Returned(false))
    else
      var h := db[id].hash;
      var retention := Retention(h, handedOff);
      if retention <= 0 || retention > LUA_MAX - now then (db, Errored)
      else
        (db[id := Key(h.(status := if handedOff then HandedOff else Released, updatedAt := now),
                      if handedOff && h.graceSpan.None? then None else Some(now + retention))],
         Returned(true))
  }

  // Reachable states --------------------------------------------------------

  ghost predicate KeyOk(k: Key, t: int) {
    && 0 <= k.hash.updatedAt <= t
    && 0 <= k.hash.leaseUntil <= LUA_MAX
    && (k.hash.leaseSpan.Some? ==> 0 < k.hash.leaseSpan.value <= MAX_CLAIM_DURATION_MS)
    && (k.hash.graceSpan.Some? ==> 0 <= k.hash.graceSpan.value <= MAX_CLAIM_DURATION_MS)
    && (k.expiry.Some? ==> 0 <= k.expiry.value <= LUA_MAX)
    && match k.hash.status
       case Claimed => k.expiry.Some? ==> k.hash.leaseUntil <= k.expiry.value
       case HandedOff =>
         k.expiry == if k.hash.graceSpan.None? then None else Some(k.hash.updatedAt + Retention(k.hash, true))
       case Released => true
  }

  ghost predicate Inv(db: Db, t: int) {
    0 <= t <= LUA_MAX && forall id :: id in db ==> KeyOk(db[id], t)
  }

  // The scripts -------------------------------------------------------------

  class RedisClaimStore {
    var db: Db

    constructor ()
      ensures db == map[]
    {
      db := map[];
    }

    /** `TIME` as milliseconds. */
    static function NowMs(sec: Ms, usec: Ms): int {
      sec as int * 1000 + usec as int / 1000
    }

    static predicate TimeOk(sec: Ms, usec: Ms) {
      0 <= sec && 0 <= usec < 1_000_000 && sec as int * 1000 + 999 <= LUA_MAX
    }

    method Claim(req: ClaimRequest, owner: string, leaseArg: Ms, graceArg: Ms, sec: Ms, usec: Ms)
      returns (r: Script<Reply>)
      requires TimeOk(sec, usec) && Inv(db, NowMs(sec, usec))
      requires 1000 <= leaseArg as int <= MAX_CLAIM_DURATION_MS && 1000 <= graceArg as int <= MAX_CLAIM_DURATION_MS
      modifies this
      ensures (db, r) == ClaimScript(old(db), req, owner, leaseArg as int, graceArg as int, NowMs(sec, usec))
    {
      var now: Ms := sec * 1000 + usec / 1000;
      var lease: Ms := leaseArg;
      var grace: Ms := graceArg;
      var id := req.executionId;
      var retention: Ms := lease * 2 + grace;
      if retention > 9007199254740991 - now {
        return Errored;
      }
      var until: Ms := now + lease;
      var expiry: Ms := now + retention;
      if !Alive(db, id, now as int) {
        db := db[id := Key(Stamped(req, owner, lease as int, grace as int, now as int, 1, 0, ""), Some(expiry as int))];
        return Returned(Reply(true, 1, Claimed, until as int, 0, "", now as int, 0));
      }
      var h := db[id].hash;
      var leaseUntil: Ms := h.leaseUntil as Ms;
      var updated: Ms := h.updatedAt as Ms;
      var reacq := 0;
      if h.status == Released {
        reacq := 1;
      } else if h.status == Claimed && leaseUntil <= now {
        reacq := 2;
      } else if h.status == HandedOff && updated + grace <= now {
        reacq := 1;
      }
      if reacq == 0 {
        return Returned(Reply(false, h.epoch, h.status, leaseUntil as int, 0, h.owner, updated as int, 0));
      }
      var epoch := h.epoch + 1;
      var takeovers := h.takeovers;
      if reacq == 2 {
        takeovers := takeovers + 1;
      }
      db := db[id := Key(Stamped(req, owner, lease as int, grace as int, now as int, epoch, takeovers, h.owner),
          Some(expiry as int))];
      return Returned(Reply(true, epoch, Claimed, until as int, takeovers, h.owner, now as int, reacq));
    }

    method Renew(id: string, owner: string, epoch: int, sec: Ms, usec: Ms) returns (r: Script<bool>)
      requires TimeOk(sec, usec) && Inv(db, NowMs(sec, usec))
      modifies this
      ensures (db, r) == RenewScript(old(db), id, owner, epoch, NowMs(sec, usec))
    {
      var now: Ms := sec * 1000 + usec / 1000;
      if !Alive(db, id, now as int) || db[id].hash.owner != owner {
        return Returned(false);
      }
      var k := db[id];
      if k.hash.epoch != epoch || k.hash.status != Claimed {
        return Returned(false);
      }
      if k.hash.leaseUntil as Ms <= now {
        return Returned(false);
      }
      var span: Ms := Or(k.hash.leaseSpan, 45_000) as Ms;
      var grace: Ms := Or(k.hash.graceSpan, 0) as Ms;
      var retention: Ms := span * 2 + grace;
      var pttl: Ms := Pttl(k, now as int) as Ms;
      if retention < pttl {
        retention := pttl;
      }
      if span <= 0 || grace < 0 || retention > 9007199254740991 - now {
        return Errored;
      }
      var until: Ms := now + span;
      var expiry: Ms := now + retention;
      db := db[id := Key(k.hash.(leaseUntil := until as int, updatedAt := now as int), Some(expiry as int))];
      return Returned(true);
    }

    method Verify(id: string, owner: string, epoch: int, sec: Ms, usec: Ms) returns (ok: bool)
      requires TimeOk(sec, usec) && Inv(db, NowMs(sec, usec))
      ensures ok == VerifyScript(db, id, owner, epoch, NowMs(sec, usec))
    {
      var now: Ms := sec * 1000 + usec / 1000;
      if !Alive(db, id, now as int) || db[id].hash.owner != owner {
        return false;
      }
      var h := db[id].hash;
      return h.epoch == epoch && h.status == Claimed && h.leaseUntil as Ms > now;
    }

    method Release(id: string, owner: string, epoch: int, handedOff: bool, sec: Ms, usec: Ms) returns (r: Script<bool>)
      requires TimeOk(sec, usec) && Inv(db, NowMs(sec, usec))
      modifies this
      ensures (db, r) == ReleaseScript(old(db), id, owner, epoch, handedOff, NowMs(sec, usec))
    {
      var now: Ms := sec * 1000 + usec / 1000;
      if !Alive(db, id, now as int) || db[id].hash.owner != owner {
        return Returned(false);
      }
      var h := db[id].hash;
      if h.epoch != epoch || h.status != Claimed {
        return Returned(false);
      }
      var retention: Ms := TERMINAL_TTL_MS as Ms;
      if handedOff && h.graceSpan.Some? {
        var span: Ms := Or(h.leaseSpan, 1000) as Ms;
        var grace: Ms := h.graceSpan.value as Ms;
        if retention < grace + span {
          retention := grace + span;
        }
      }
      if retention <= 0 || retention > 9007199254740991 - now {
        return Errored;
      }
      var h' := h.(status := if handedOff then HandedOff else Released, updatedAt := now as int);
      if handedOff && h.graceSpan.None? {
        db := db[id := Key(h', None)];
      } else {
        var expiry: Ms := now + retention;
        db := db[id := Key(h', Some(expiry as int))];
      }
      return Returned(true);
    }
  }

  // Runs --------------------------------------------------------------------

  datatype Op =
    | ClaimOp(req: ClaimRequest, owner: string, leaseMs: int, graceMs: int)
    | RenewOp(id: string, owner: string, epoch: int)
    | ReleaseOp(id: string, owner: string, epoch: int, handedOff: bool)

  datatype Event = Event(now: int, op: Op)

  function Step(db: Db, e: Event): Db {
    match e.op
    case ClaimOp(req, owner, leaseMs, graceMs) => ClaimScript(db, req, owner, leaseMs, graceMs, e.now).0
    case RenewOp(id, owner, epoch) => RenewScript(db, id, owner, epoch, e.now).0
    case ReleaseOp(id, owner, epoch, handedOff) => ReleaseScript(db, id, owner, epoch, handedOff, e.now).0
  }

  function Run(db: Db, es: seq<Event>): Db
    decreases |es|
  {
    if es == [] then db else Run(Step(db, es[0]), es[1..])
  }

  /** The durations of a claim passed the caller's check. */
  predicate DurationsOk(op: Op) {
    op.ClaimOp? ==>
      1000 <= op.leaseMs <= MAX_CLAIM_DURATION_MS && 1000 <= op.graceMs <= MAX_CLAIM_DURATION_MS
  }

  /** The server clock never runs back nor past the exact range, and durations passed the caller's check. */
  predicate Admissible(from: int, es: seq<Event>)
    decreases |es|
  {
    es == [] ||
    (&& from <= es[0].now <= LUA_MAX
     && DurationsOk(es[0].op)
     && Admissible(es[0].now, es[1..]))
  }

  function EndTime(from: int, es: seq<Event>): int {
    if es == [] then from else es[|es| - 1].now
  }

  lemma StepKeepsInv(db: Db, t: int, e: Event)
    requires Inv(db, t) && t <= e.now <= LUA_MAX
    requires DurationsOk(e.op)
    ensures Inv(Step(db, e), e.now)
  {
    forall id | id in db
      ensures KeyOk(db[id], e.now)
    {
    }
    match e.op
    case ClaimOp(req, owner, leaseMs, graceMs) =>
    case RenewOp(id, owner, epoch) =>
    case ReleaseOp(id, owner, epoch, handedOff) =>
  }

  lemma {:induction false} RunKeepsInv(db: Db, t: int, es: seq<Event>)
    requires Inv(db, t) && Admissible(t, es)
    ensures Inv(Run(db, es), EndTime(t, es))
    decreases |es|
  {
    if es != [] {
      StepKeepsInv(db, t, es[0]);
      RunKeepsInv(Step(db, es[0]), es[0].now, es[1..]);
    }
  }

  ghost predicate CountersWithin(db: Db, bound: int) {
    forall id :: id in db ==> 0 <= db[id].hash.epoch <= bound && 0 <= db[id].hash.takeovers <= bound
  }

  /** Epoch and takeover counters grow by at most one per script, so they too stay exact in every run of fewer than
      2^53 scripts from an empty database. */
  lemma {:induction false} CountersStayExact(db: Db, es: seq<Event>, bound: nat)
    requires CountersWithin(db, bound)
    ensures CountersWithin(Run(db, es), bound + |es|)
    decreases |es|
  {
    if es != [] {
      assert CountersWithin(Step(db, es[0]), bound + 1);
      CountersStayExact(Step(db, es[0]), es[1..], bound + 1);
    }
  }

  predicate Blocks(h: Hash, graceMs: int, now: int) {
    Reacquisition(h, graceMs, now) == 0
  }

  /** In every run a key that has outlived its expiry no longer blocked acquisition: not as a claim, nor as
      a hand-off for any claimer whose grace the row's retention covers. A hand-off whose grace was never
      recorded has no expiry at all. */
  lemma TtlNeverRemovesABlockingRow(db: Db, t: int, es: seq<Event>, id: string, graceMs: int, now: int)
    requires Inv(db, t) && Admissible(t, es) && EndTime(t, es) <= now
    requires id in Run(db, es) && !Alive(Run(db, es), id, now)
    ensures var h := Run(db, es)[id].hash;
            h.status != HandedOff || graceMs <= Retention(h, true) ==> !Blocks(h, graceMs, now)
    ensures var h := Run(db, es)[id].hash;
            h.status == HandedOff ==> h.graceSpan.Some? && h.graceSpan.value <= Retention(h, true)
  {
    RunKeepsInv(db, t, es);
    assert KeyOk(Run(db, es)[id], EndTime(t, es));
  }

  /** The blocking window uses the claimer's grace while retention covers the recorded one: the row
      outlives the window of a claimer exactly when its grace is within the retention (plus the
      millisecond in which the key is still readable). */
  lemma HandOffOutlivesWindowIff(db: Db, t: int, es: seq<Event>, id: string, graceMs: int)
    requires Inv(db, t) && Admissible(t, es)
    requires id in Run(db, es) && Run(db, es)[id].hash.status == HandedOff && Run(db, es)[id].hash.graceSpan.Some?
    ensures var h := Run(db, es)[id].hash;
            (forall now :: !Alive(Run(db, es), id, now) ==> !Blocks(h, graceMs, now))
            <==> graceMs <= Retention(h, true) + 1
  {
    RunKeepsInv(db, t, es);
    var db' := Run(db, es);
    assert KeyOk(db'[id], EndTime(t, es));
    var h := db'[id].hash;
    var first := h.updatedAt + Retention(h, true) + 1;
    assert !Alive(db', id, first);
    if graceMs > Retention(h, true) + 1 {
      assert Blocks(h, graceMs, first);
    }
  }

  /** A run in which the window is cut short: handed off under the shortest grace, the key expires after seven days,
      while a claimer with a grace of seven days and two milliseconds should still be kept out. That claimer acquires
      the id, as epoch 1 again. */
  lemma LongGraceOutlivesTheRow(req: ClaimRequest)
    ensures var es := [Event(0, ClaimOp(req, "a", 1000, 1000)), Event(0, ReleaseOp(req.executionId, "a", 1, true))];
            var db := Run(map[], es); var now := TERMINAL_TTL_MS + 1; var grace := TERMINAL_TTL_MS + 2;
            && Inv(map[], 0) && Admissible(0, es)
            && req.executionId in db && Blocks(db[req.executionId].hash, grace, now)
            && !Alive(db, req.executionId, now)
            && var r := ClaimScript(db, req, "b", 1000, grace, now).1;
               r.Returned? && r.value.acquired && r.value.epoch == 1
  {
    var e1, e2 := Event(0, ClaimOp(req, "a", 1000, 1000)), Event(0, ReleaseOp(req.executionId, "a", 1, true));
    var db1 := Step(map[], e1);
    assert HeldBy(db1, req.executionId, "a", 1, 0);
    var db2 := Step(db1, e2);
    assert [e1, e2][1..] == [e2] && [e2][1..] == [];
    assert Run(db1, [e2]) == db2;
    assert Run(map[], [e1, e2]) == db2;
    var k := db2[req.executionId];
    assert k.hash.status == HandedOff && k.hash.updatedAt == 0 && k.expiry == Some(TERMINAL_TTL_MS);
  }

  // How long a row answers --------------------------------------------------

  const SEVEN_DAYS_MS: int := 604_800_000

  /** The claim script fails only when the row's lifetime would leave the exact range. */
  lemma ClaimErrorsIff(db: Db, req: ClaimRequest, owner: string, leaseMs: int, graceMs: int, now: int)
    ensures ClaimScript(db, req, owner, leaseMs, graceMs, now).1.Errored? <==> now + 2 * leaseMs + graceMs > LUA_MAX
    ensures now + 2 * leaseMs + graceMs > LUA_MAX ==> ClaimScript(db, req, owner, leaseMs, graceMs, now).0 == db
  {
  }

  /** A claimed row with recorded spans outlives its lease by another lease and the grace. */
  ghost predicate Outlives(k: Key) {
    k.hash.status == Claimed && k.hash.leaseSpan.Some? && k.hash.graceSpan.Some? && k.expiry.Some? ==>
      k.hash.leaseUntil + k.hash.leaseSpan.value + k.hash.graceSpan.value <= k.expiry.value
  }

  ghost predicate AllOutlive(db: Db) {
    forall id :: id in db ==> Outlives(db[id])
  }

  lemma StepKeepsOutlive(db: Db, t: int, e: Event)
    requires Inv(db, t) && t <= e.now && DurationsOk(e.op) && AllOutlive(db)
    ensures AllOutlive(Step(db, e))
  {
    var db' := Step(db, e);
    forall id | id in db'
      ensures Outlives(db'[id])
    {
      if id in db {
        assert KeyOk(db[id], t) && Outlives(db[id]);
      }
    }
  }

  lemma {:induction false} RunKeepsOutlive(db: Db, t: int, es: seq<Event>)
    requires Inv(db, t) && Admissible(t, es) && AllOutlive(db)
    ensures AllOutlive(Run(db, es))
    decreases |es|
  {
    if es != [] {
      StepKeepsOutlive(db, t, es[0]);
      StepKeepsInv(db, t, es[0]);
      RunKeepsOutlive(Step(db, es[0]), es[0].now, es[1..]);
    }
  }

  /** The claim took over from `holder`: next epoch, one more takeover, the former owner named. */
  predicate TookOver(r: Reply, holder: Hash) {
    r.acquired && r.epoch == holder.epoch + 1 && r.takeovers == holder.takeovers + 1 && r.otherOwner == holder.owner
    && r.reacquired == 2
  }

  /** In every run from an empty database, a claim that returns within another lease and the grace after a lease has
      run out takes over from its holder; the fencing epoch never restarts there. */
  lemma ExpiredLeaseIsTakenOver(es: seq<Event>, t: int, req: ClaimRequest, owner: string, leaseMs: int, graceMs: int,
                                now: int)
    requires 0 <= t <= LUA_MAX && Admissible(t, es) && req.executionId in Run(map[], es)
    requires var h := Run(map[], es)[req.executionId].hash;
             && h.status == Claimed && h.leaseSpan.Some? && h.graceSpan.Some?
             && h.leaseUntil <= now <= h.leaseUntil + h.leaseSpan.value + h.graceSpan.value
    requires ClaimScript(Run(map[], es), req, owner, leaseMs, graceMs, now).1.Returned?
    ensures TookOver(ClaimScript(Run(map[], es), req, owner, leaseMs, graceMs, now).1.value,
                     Run(map[], es)[req.executionId].hash)
  {
    RunKeepsOutlive(map[], t, es);
    assert Outlives(Run(map[], es)[req.executionId]);
  }

  /** After an acquisition the next claim on the id is refused until the lease ends, takes over for another lease and
      the grace, and starts afresh after that. */
  lemma AfterAcquisition(db: Db, req: ClaimRequest, owner: string, leaseMs: nat, graceMs: nat, now: int,
                         req': ClaimRequest, owner': string, leaseMs': int, graceMs': int, t: int)
    requires req'.executionId == req.executionId && now <= t
    requires ClaimScript(db, req, owner, leaseMs, graceMs, now).1.Returned?
    requires ClaimScript(db, req, owner, leaseMs, graceMs, now).1.value.acquired
    requires var db' := ClaimScript(db, req, owner, leaseMs, graceMs, now).0;
             ClaimScript(db', req', owner', leaseMs', graceMs', t).1.Returned?
    ensures var (db', first) := ClaimScript(db, req, owner, leaseMs, graceMs, now);
            var a, r := first.value, ClaimScript(db', req', owner', leaseMs', graceMs', t).1.value;
            if t < now + leaseMs then !r.acquired && r.epoch == a.epoch && r.otherOwner == owner
            else if t <= now + 2 * leaseMs + graceMs then
              && r.acquired && r.epoch == a.epoch + 1 && r.takeovers == a.takeovers + 1 && r.otherOwner == owner
              && r.reacquired == 2
            else r.acquired && r.epoch == 1 && r.takeovers == 0 && r.otherOwner == "" && r.reacquired == 0
  {
  }

  /** The same after a renewal, by the recorded spans (45 s and no grace for rows of the older layout); a renewal also
      never shortens the life of the key. */
  lemma AfterRenewal(db: Db, id: string, owner: string, epoch: int, now: int, req: ClaimRequest, owner': string,
                     leaseMs: int, graceMs: int, t: int)
    requires Inv(db, now) && req.executionId == id && now <= t
    requires RenewScript(db, id, owner, epoch, now).1 == Returned(true)
    requires ClaimScript(RenewScript(db, id, owner, epoch, now).0, req, owner', leaseMs, graceMs, t).1.Returned?
    ensures var db' := RenewScript(db, id, owner, epoch, now).0;
            var span := if db[id].hash.leaseSpan.Some? then db[id].hash.leaseSpan.value else 45_000;
            var grace := if db[id].hash.graceSpan.Some? then db[id].hash.graceSpan.value else 0;
            var r := ClaimScript(db', req, owner', leaseMs, graceMs, t).1.value;
            && (t < now + span ==> !r.acquired && r.epoch == epoch && r.otherOwner == owner)
            && (now + span <= t <= now + 2 * span + grace ==> TookOver(r, db[id].hash))
            && (db[id].expiry.Some? ==>
                  (Alive(db', id, t) <==> t <= now + 2 * span + grace || Alive(db, id, t)))
  {
    assert KeyOk(db[id], now);
  }

  lemma RenewErrorsIff(db: Db, id: string, owner: string, epoch: int, now: int)
    requires Inv(db, now) && VerifyScript(db, id, owner, epoch, now)
    ensures var h := db[id].hash;
            var span := if h.leaseSpan.Some? then h.leaseSpan.value else 45_000;
            var grace := if h.graceSpan.Some? then h.graceSpan.value else 0;
            RenewScript(db, id, owner, epoch, now).1
            == if now + 2 * span + grace > LUA_MAX then Errored else Returned(true)
  {
    assert KeyOk(db[id], now);
  }

  /** How long the release and the hand-off of a row are remembered: seven days, a hand-off also for the recorded
      grace and lease, and without end where no grace was recorded. */
  function RememberedUntil(h: Hash, handedOff: bool, now: int): Option<int> {
    if !handedOff then Some(now + SEVEN_DAYS_MS)
    else if h.graceSpan.None? then None
    else
      var lease := if h.leaseSpan.Some? then h.leaseSpan.value else 1000;
      Some(now + if SEVEN_DAYS_MS < h.graceSpan.value + lease then h.graceSpan.value + lease else SEVEN_DAYS_MS)
  }

  lemma ReleaseErrorsIff(db: Db, id: string, owner: string, epoch: int, handedOff: bool, now: int)
    requires Inv(db, now) && HeldBy(db, id, owner, epoch, now)
    ensures ReleaseScript(db, id, owner, epoch, handedOff, now).1.Errored?
            <==> if handedOff && db[id].hash.graceSpan.None? then now + SEVEN_DAYS_MS > LUA_MAX
                 else RememberedUntil(db[id].hash, handedOff, now).value > LUA_MAX
  {
    assert KeyOk(db[id], now);
  }

  /** After a release the next claim re-acquires under the next epoch, after a hand-off once its own grace has elapsed,
      for as long as the row is remembered; then it starts afresh. */
  lemma AfterEnding(db: Db, id: string, owner: string, epoch: int, handedOff: bool, now: int, req: ClaimRequest,
                    owner': string, leaseMs: int, graceMs: int, t: int)
    requires req.executionId == id && now <= t
    requires ReleaseScript(db, id, owner, epoch, handedOff, now).1 == Returned(true)
    requires var db' := ReleaseScript(db, id, owner, epoch, handedOff, now).0;
             ClaimScript(db', req, owner', leaseMs, graceMs, t).1.Returned?
    ensures var db' := ReleaseScript(db, id, owner, epoch, handedOff, now).0;
            var end := RememberedUntil(db[id].hash, handedOff, now);
            var r := ClaimScript(db', req, owner', leaseMs, graceMs, t).1.value;
            if end.Some? && end.value < t then r.acquired && r.epoch == 1 && r.takeovers == 0 && r.otherOwner == ""
            else if handedOff && t < now + graceMs then !r.acquired && r.epoch == epoch && r.otherOwner == owner
            else
              && r.acquired && r.epoch == epoch + 1 && r.takeovers == db[id].hash.takeovers && r.otherOwner == owner
              && r.reacquired == 1
  {
  }

  // The scripts implement the in-memory store -------------------------------

  function AbstractRow(h: Hash): Row {
    Row(ExecutionClaim(h.request, h.owner, h.epoch, h.status, h.claimedAt, h.leaseUntil, h.takeovers,
                       if h.prevOwner == "" then None else Some(h.prevOwner)),
        h.updatedAt, if h.leaseSpan.Some? && h.leaseSpan.value >= 0 then h.leaseSpan.value else 45_000)
  }

  /** The rows a script can still see at `now`. */
  function Abstract(db: Db, now: int): Rows {
    map id | id in db && Alive(db, id, now) :: AbstractRow(db[id].hash)
  }

  function Decision(req: ClaimRequest, owner: string, r: Reply): ClaimDecision {
    if r.acquired then
      Acquired(ExecutionClaim(req, owner, r.epoch, Claimed, r.stamp, r.leaseUntil, r.takeovers,
                              if r.otherOwner == "" then None else Some(r.otherOwner)))
    else Rejected(r.otherOwner, r.epoch, r.status, r.leaseUntil)
  }

  ghost predicate OwnersNamed(db: Db) {
    forall id :: id in db ==> db[id].hash.owner != ""
  }

  predicate NamedClaimers(es: seq<Event>) {
    forall i :: 0 <= i < |es| && es[i].op.ClaimOp? ==> es[i].op.owner != ""
  }

  /** Rows keep named owners in every run whose claimers have names. */
  lemma {:induction false} RunKeepsOwnersNamed(db: Db, es: seq<Event>)
    requires OwnersNamed(db) && NamedClaimers(es)
    ensures OwnersNamed(Run(db, es))
    decreases |es|
  {
    if es != [] {
      RunKeepsOwnersNamed(Step(db, es[0]), es[1..]);
    }
  }

  /** Rewriting one key with an unexpired one rewrites that row and no other. */
  lemma AbstractUpdate(db: Db, id: string, k: Key, now: int)
    requires k.expiry.Some? ==> now <= k.expiry.value
    ensures Abstract(db[id := k], now) == Abstract(db, now)[id := AbstractRow(k.hash)]
  {
  }

  /** On the rows it can see, the claim script decides and stamps exactly as the in-memory store does. */
  lemma ClaimScriptRefines(db: Db, req: ClaimRequest, owner: string, leaseMs: nat, graceMs: nat, now: int)
    requires OwnersNamed(db) && leaseMs <= MAX_CLAIM_DURATION_MS && graceMs <= MAX_CLAIM_DURATION_MS
    requires ClaimScript(db, req, owner, leaseMs, graceMs, now).1.Returned?
    ensures var (db', r) := ClaimScript(db, req, owner, leaseMs, graceMs, now);
            ClaimStep(Abstract(db, now), req, StoreContext(owner, leaseMs, graceMs), now)
            == (Abstract(db', now), Decision(req, owner, r.value))
  {
    var id := req.executionId;
    var (db', r) := ClaimScript(db, req, owner, leaseMs, graceMs, now);
    if r.value.acquired {
      assert db' == db[id := db'[id]];
      AbstractUpdate(db, id, db'[id], now);
    }
    if Alive(db, id, now) {
      assert Abstract(db, now)[id] == AbstractRow(db[id].hash);
    }
  }

  lemma RenewScriptRefines(db: Db, id: string, owner: string, epoch: int, now: int)
    requires Inv(db, now) && RenewScript(db, id, owner, epoch, now).1.Returned?
    ensures var (db', r) := RenewScript(db, id, owner, epoch, now);
            RenewStep(Abstract(db, now), id, owner, epoch, now) == (Abstract(db', now), r.value)
    ensures VerifyScript(db, id, owner, epoch, now) == Verified(Abstract(db, now), id, owner, epoch, now)
  {
    var (db', r) := RenewScript(db, id, owner, epoch, now);
    if r.value {
      assert KeyOk(db[id], now);
      AbstractUpdate(db, id, db'[id], now);
    }
  }

  lemma ReleaseScriptRefines(db: Db, id: string, owner: string, epoch: int, handedOff: bool, now: int)
    requires Inv(db, now) && ReleaseScript(db, id, owner, epoch, handedOff, now).1.Returned?
    ensures var (db', r) := ReleaseScript(db, id, owner, epoch, handedOff, now);
            ReleaseStep(Abstract(db, now), id, owner, epoch, if handedOff then HandedOff else Released, now)
            == (Abstract(db', now), r.value)
  {
    var (db', r) := ReleaseScript(db, id, owner, epoch, handedOff, now);
    if r.value {
      AbstractUpdate(db, id, db'[id], now);
    }
  }
}
