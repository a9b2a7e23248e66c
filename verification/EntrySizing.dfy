/** The entry check of the risk engine: every gate before sizing, the sizing itself, and the venue
    checks after it. Configuration values are reals; measured inputs may be any float. */
module EntrySizing {
  import opened Common
  import Positions

  /** A float: the reals, the infinities, and not-a-number. */
  datatype Num = NaN | NegInf | Fin(v: real) | PosInf

  // Float minimum and maximum ignore a not-a-number operand.
  function MinNum(a: real, b: Num): Num {
    match b
    case NaN => Fin(a)
    case PosInf => Fin(a)
    case NegInf => NegInf
    case Fin(v) => Fin(Min(a, v))
  }

  function MaxNum(a: real, b: Num): Num {
    match b
    case NaN => Fin(a)
    case NegInf => Fin(a)
    case PosInf => PosInf
    case Fin(v) => Fin(Max(a, v))
  }

  predicate AtMost(a: Num, b: real) { a.NegInf? || (a.Fin? && a.v <= b) }

  datatype Module = Sniper | Copy | Polymarket | OtherModule

  /** A module's own limits; zero inherits the generic limit or disables the check. */
  datatype ModuleLimits = ModuleLimits(positionQuote: real, totalExposure: real, concurrent: nat,
                                       dailyLoss: real, emergencyDisable: bool)

  const NO_LIMITS := ModuleLimits(0.0, 0.0, 0, 0.0, false)

  /** The generic bound on total exposure. */
  function Envelope(quote: real, positions: nat): real { Max(Product(quote, positions as real), quote) }

  datatype RiskConfig = RiskConfig(maxOpenPositions: nat, maxPositionFraction: real, maxPositionQuote: real,
                                   dailyLossLimit: real, maxSlippageBps: nat, minSolReserve: real,
                                   priceFloor: real, priceCeiling: real, minLiquidity: real, minEdge: real,
                                   sniper: ModuleLimits, copy: ModuleLimits, poly: ModuleLimits)
  {
    function Own(m: Module): ModuleLimits {
      match m
      case Sniper => sniper
      case Copy => copy
      case Polymarket => poly
      case OtherModule => NO_LIMITS
    }

    function PositionCap(m: Module): real {
      var own := Own(m).positionQuote;
      Min(if own > 0.0 then own else maxPositionQuote, maxPositionQuote)
    }

    function PositionLimit(m: Module): nat {
      var own := Own(m).concurrent;
      if 0 < own < maxOpenPositions then own else maxOpenPositions
    }

    function ExposureCap(m: Module): real {
      var envelope := Envelope(maxPositionQuote, maxOpenPositions);
      var own := Own(m).totalExposure;
      if own > 0.0 then Min(envelope, own) else envelope
    }

    /** The same configuration with every module limit switched off. */
    function Generic(): (r: RiskConfig)
      ensures forall m: Module :: r.Own(m) == ModuleLimits(0.0, 0.0, 0, 0.0, false)
    {
      this.(sniper := NO_LIMITS, copy := NO_LIMITS, poly := NO_LIMITS)
    }
  }

  datatype Request = Request(m: Module, clob: bool, requested: Num, available: Num, slippageBps: nat,
                             price: Option<Num>, fair: Option<Num>, liquidity: Option<Num>)

  /** What the process itself knows. `globalAccepts` is the portfolio gate's answer, `duplicate` includes
      symbols reserved by it, `throttled` the module's own cooldowns and pending caps. */
  datatype Local = Local(killSwitch: bool, enabled: bool, lossTripped: bool, realized: real, moduleRealized: real,
                         globalAccepts: bool, openCount: nat, reservedCount: nat, duplicate: bool,
                         reentryAllowed: bool, throttled: bool, exposure: real, reservedExposure: real)

  datatype PnlRead = Known(pnl: Num) | Unavailable | Incomplete

  /** The durable view across replicas; None where a read has no answer. */
  datatype Oracle = Oracle(realized: PnlRead, moduleRealized: PnlRead, openCount: Option<nat>,
                           hasSymbol: Option<bool>, exposure: Option<Num>)

  datatype Code =
    | KillSwitch | ModuleDisabled | DailyLossLimit | GlobalUnavailable | EmergencyDisabled | ModuleDailyLoss
    | InvalidSize | InsufficientBalance | GlobalRejected | SlippageCap | MaxOpenPositions | DuplicateSymbol
    | ReentryCooldown | Throttled | ExposureCapReached | VenueCheck

  datatype Decision = Reject(code: Code) | Admit(size: real, reduced: bool)

  // Local view combined with the oracle -------------------------------------

  function EffectivePnl(local: real, read: PnlRead, tenant: bool): (r: Option<Num>) {
    match read
    case Known(v) => Some(MinNum(local, v))
    case Unavailable => if tenant then None else Some(Fin(local))
    case Incomplete => None
  }

  function EffectiveRealized(local: real, oracle: Option<Oracle>, tenant: bool): Option<Num> {
    EffectivePnl(local, if oracle.Some? then oracle.value.realized else Unavailable, tenant)
  }

  function EffectiveModuleRealized(local: real, oracle: Option<Oracle>, tenant: bool): Option<Num> {
    EffectivePnl(local, if oracle.Some? then oracle.value.moduleRealized else Unavailable, tenant)
  }

  function EffectiveOpenCount(local: nat, oracle: Option<Oracle>, tenant: bool): Option<nat> {
    if oracle.Some? && oracle.value.openCount.Some? then
      Some(if local < oracle.value.openCount.value then oracle.value.openCount.value else local)
    else if tenant then None else Some(local)
  }

  function EffectiveHasSymbol(local: bool, oracle: Option<Oracle>, tenant: bool): Option<bool> {
    if !tenant then Some(local)
    else if oracle.Some? && oracle.value.hasSymbol.Some? then Some(local || oracle.value.hasSymbol.value)
    else None
  }

  function EffectiveExposure(local: real, oracle: Option<Oracle>, tenant: bool): Option<Num> {
    if !tenant then Some(Fin(local))
    else if oracle.Some? && oracle.value.exposure.Some? then Some(MaxNum(local, oracle.value.exposure.value))
    else None
  }

  // The gates, in order -----------------------------------------------------

  /** Is trading permitted at all: the first preflight refusal, if any. */
  function Preflight(cfg: RiskConfig, m: Module, loc: Local, oracle: Option<Oracle>, tenant: bool): (r: Option<Code>) {
    if loc.killSwitch then Some(KillSwitch)
    else if !loc.enabled then Some(ModuleDisabled)
    else if !tenant && loc.lossTripped then Some(DailyLossLimit)
    else if cfg.dailyLossLimit > 0.0
        && EffectiveRealized(loc.realized, oracle, tenant).None? then Some(GlobalUnavailable)
    else if cfg.dailyLossLimit > 0.0
        && AtMost(EffectiveRealized(loc.realized, oracle, tenant).value, -cfg.dailyLossLimit) then
      Some(DailyLossLimit)
    else if m == OtherModule then None
    else if cfg.Own(m).emergencyDisable then Some(EmergencyDisabled)
    else if cfg.Own(m).dailyLoss <= 0.0 then None
    else
      match EffectiveModuleRealized(loc.moduleRealized, oracle, tenant)
      case None => Some(GlobalUnavailable)
      case Some(pnl) => if AtMost(pnl, -cfg.Own(m).dailyLoss) then Some(ModuleDailyLoss) else None
  }

  function Spendable(cfg: RiskConfig, req: Request): real
    requires req.available.Fin?
  {
    req.available.v - if req.clob then 0.0 else cfg.minSolReserve
  }

  /** The first gate before sizing that refuses, if any. */
  function Refusal(cfg: RiskConfig, req: Request, loc: Local, oracle: Option<Oracle>, tenant: bool): (r: Option<Code>)
    ensures r.None? ==> req.requested.Fin? && req.requested.v > 0.0 && req.available.Fin? && Spendable(cfg, req) > 0.0
  {
    var preflight := Preflight(cfg, req.m, loc, oracle, tenant);
    if preflight.Some? then preflight
    else if !req.requested.Fin? || req.requested.v <= 0.0 then Some(InvalidSize)
    else if !req.available.Fin? || req.available.v < 0.0 then Some(InsufficientBalance)
    else if !loc.globalAccepts then Some(GlobalRejected)
    else if req.slippageBps > cfg.maxSlippageBps then Some(SlippageCap)
    else
      var count := EffectiveOpenCount(loc.openCount, oracle, tenant);
      if count.None? then Some(GlobalUnavailable)
      else if count.value + loc.reservedCount >= cfg.PositionLimit(req.m) then Some(MaxOpenPositions)
      else
        var duplicate := EffectiveHasSymbol(loc.duplicate, oracle, tenant);
        if duplicate.None? then Some(GlobalUnavailable)
        else if duplicate.value then Some(DuplicateSymbol)
        else if !loc.reentryAllowed then Some(ReentryCooldown)
        else if loc.throttled then Some(Throttled)
        else if Spendable(cfg, req) <= 0.0 then Some(InsufficientBalance)
        else None
  }

  /** Exposure the entry would add to, if it is known, finite and not negative. */
  function Exposure(loc: Local, oracle: Option<Oracle>, tenant: bool): (r: Option<real>) {
    match EffectiveExposure(loc.exposure, oracle, tenant)
    case Some(Fin(v)) => if v + loc.reservedExposure >= 0.0 then Some(v + loc.reservedExposure) else None
    case _ => None
  }

  function Clamp01(x: real): real { Max(0.0, Min(x, 1.0)) }

  /** The least of the five bounds on a size. */
  function LeastOf(request: real, position: real, fraction: real, spendable: real, exposure: real): real {
    Min(Min(request, position), Min(Min(fraction, spendable), exposure))
  }

  /** The room left under all five caps. */
  function Room(cfg: RiskConfig, req: Request, exposure: real): (r: real)
    requires req.requested.Fin? && req.available.Fin?
  {
    LeastOf(req.requested.v, cfg.PositionCap(req.m), FractionCap(cfg, req), Spendable(cfg, req),
            cfg.ExposureCap(req.m) - exposure)
  }

  function FractionCap(cfg: RiskConfig, req: Request): real
    requires req.available.Fin?
  {
    Product(Spendable(cfg, req), Clamp01(cfg.maxPositionFraction))
  }

  predicate VenueOk(cfg: RiskConfig, req: Request) {
    req.clob ==>
      && (req.price.Some? ==>
            && req.price.value.Fin? && 0.0 < req.price.value.v < 1.0
            && cfg.priceFloor <= req.price.value.v <= cfg.priceCeiling)
      && (req.liquidity.Some? ==>
            req.liquidity.value.Fin? && req.liquidity.value.v >= 0.0 && req.liquidity.value.v >= cfg.minLiquidity)
      && (req.fair.Some? ==> req.fair.value.Fin? && 0.0 <= req.fair.value.v <= 1.0)
      && (req.price.Some? && req.fair.Some? ==> req.fair.value.v - req.price.value.v >= cfg.minEdge)
  }

  function Decide(cfg: RiskConfig, req: Request, loc: Local, oracle: Option<Oracle>, tenant: bool): (d: Decision) {
    var refusal := Refusal(cfg, req, loc, oracle, tenant);
    if refusal.Some? then Reject(refusal.value)
    else
      var exposure := Exposure(loc, oracle, tenant);
      if exposure.None? then Reject(GlobalUnavailable)
      else
        var size := Room(cfg, req, exposure.value);
        if size <= 0.0 then Reject(ExposureCapReached)
        else if !VenueOk(cfg, req) then Reject(VenueCheck)
        else Admit(size, req.requested.v - size >= 0.000000000001)
  }

  // The check itself --------------------------------------------------------

  /** Sizing narrows one running amount; its outcome is the room under all caps. */
  method SizeEntry(cfg: RiskConfig, req: Request, exposure: real) returns (sized: real)
    requires req.requested.Fin? && req.available.Fin?
    requires req.requested.v > 0.0 && Spendable(cfg, req) > 0.0 && exposure >= 0.0
    ensures if Room(cfg, req, exposure) > 0.0 then sized == Room(cfg, req, exposure) else sized <= 0.0
  {
    var spendable := Spendable(cfg, req);
    var fractionCap := FractionCap(cfg, req);
    var positionCap := cfg.PositionCap(req.m);
    sized := Min(Min(req.requested.v, positionCap), fractionCap);
    var exposureCap := Envelope(cfg.maxPositionQuote, cfg.maxOpenPositions);
    if req.m == Sniper && cfg.sniper.totalExposure > 0.0 {
      exposureCap := Min(exposureCap, cfg.sniper.totalExposure);
    }
    if req.m == Copy && cfg.copy.totalExposure > 0.0 {
      exposureCap := Min(exposureCap, cfg.copy.totalExposure);
    }
    if req.m == Polymarket && cfg.poly.totalExposure > 0.0 {
      exposureCap := Min(exposureCap, cfg.poly.totalExposure);
    }
    assert exposureCap == cfg.ExposureCap(req.m);
    if exposure + sized > exposureCap {
      sized := Max(exposureCap - exposure, 0.0);
    }
    if sized > spendable {
      sized := spendable;
    }
  }

  method CheckEntry(cfg: RiskConfig, req: Request, loc: Local, oracle: Option<Oracle>, tenant: bool)
    returns (d: Decision)
    ensures d == Decide(cfg, req, loc, oracle, tenant)
  {
    var refusal := Refusal(cfg, req, loc, oracle, tenant);
    if refusal.Some? {
      return Reject(refusal.value);
    }
    var exposure := Exposure(loc, oracle, tenant);
    if exposure.None? {
      return Reject(GlobalUnavailable);
    }
    var sized := SizeEntry(cfg, req, exposure.value);
    if sized <= 0.0 {
      return Reject(ExposureCapReached);
    }
    var gap := sized - req.requested.v;
    var reduced := !((if gap < 0.0 then -gap else gap) < 0.000000000001);
    if !VenueOk(cfg, req) {
      return Reject(VenueCheck);
    }
    return Admit(sized, reduced);
  }

  // What an admission guarantees --------------------------------------------

  predicate Within(cfg: RiskConfig, req: Request, exposure: real, z: real)
    requires req.requested.Fin? && req.available.Fin?
  {
    && z <= req.requested.v && z <= cfg.PositionCap(req.m) && z <= FractionCap(cfg, req) && z <= Spendable(cfg, req)
    && exposure + z <= cfg.ExposureCap(req.m)
  }

  /** An admitted size is positive, within the request, the position cap, the balance fraction, the spendable
      balance and the remaining exposure, and the largest such size. */
  lemma AdmittedSizeIsTheRoom(cfg: RiskConfig, req: Request, loc: Local, oracle: Option<Oracle>, tenant: bool, z: real)
    requires Decide(cfg, req, loc, oracle, tenant).Admit?
    ensures var size := Decide(cfg, req, loc, oracle, tenant).size;
            var exposure := Exposure(loc, oracle, tenant);
            && 0.0 < size <= req.requested.v
            && size <= cfg.PositionCap(req.m) <= cfg.maxPositionQuote
            && size <= FractionCap(cfg, req) && size <= Spendable(cfg, req)
            && exposure.Some? && exposure.value + size <= cfg.ExposureCap(req.m)
            && (Within(cfg, req, exposure.value, z) ==> z <= size)
  {
  }

  // The gates in terms of the inputs ----------------------------------------

  /** The limits a module has of its own. */
  predicate OwnLimits(cfg: RiskConfig, m: Module, own: ModuleLimits) {
    || (m == Sniper && own == cfg.sniper) || (m == Copy && own == cfg.copy) || (m == Polymarket && own == cfg.poly)
    || (m == OtherModule && own == ModuleLimits(0.0, 0.0, 0, 0.0, false))
  }

  function Reading(oracle: Option<Oracle>, module_: bool): PnlRead {
    if oracle.None? then Unavailable else if module_ then oracle.value.moduleRealized else oracle.value.realized
  }

  /** An incomplete answer is refused to everyone, a missing one to tenants. */
  predicate Readable(read: PnlRead, tenant: bool) { !read.Incomplete? && (read.Unavailable? ==> !tenant) }

  /** The local or the durable profit is at or below `x`. */
  predicate AtOrBelow(local: real, read: PnlRead, x: real) {
    local <= x || (read.Known? && (read.pnl.NegInf? || (read.pnl.Fin? && read.pnl.v <= x)))
  }

  predicate CountBelow(count: nat, cfg: RiskConfig, own: ModuleLimits) {
    count < cfg.maxOpenPositions && (own.concurrent > 0 ==> count < own.concurrent)
  }

  /** Balance the entry may use: venues other than the order book keep the SOL reserve back. */
  function Free(cfg: RiskConfig, req: Request): real {
    if !req.available.Fin? then 0.0 else if req.clob then req.available.v else req.available.v - cfg.minSolReserve
  }

  /** A tenant has a durable exposure, and it is a number. */
  predicate HasDurable(oracle: Option<Oracle>, tenant: bool) {
    tenant && oracle.Some? && oracle.value.exposure.Some? && oracle.value.exposure.value.Fin?
  }

  function Durable(oracle: Option<Oracle>): real
    requires HasDurable(oracle, true)
  {
    oracle.value.exposure.value.v
  }

  predicate ExposureUsable(loc: Local, oracle: Option<Oracle>, tenant: bool) {
    && (tenant ==> oracle.Some? && oracle.value.exposure.Some? && !oracle.value.exposure.value.PosInf?)
    && (|| loc.exposure + loc.reservedExposure >= 0.0
        || (HasDurable(oracle, tenant) && Durable(oracle) + loc.reservedExposure >= 0.0))
  }

  /** An exposure stays within the generic envelope and the module's own cap. */
  predicate ExposureFits(cfg: RiskConfig, own: ModuleLimits, e: real) {
    && (e <= Product(cfg.maxPositionQuote, cfg.maxOpenPositions as real) || e <= cfg.maxPositionQuote)
    && (own.totalExposure > 0.0 ==> e <= own.totalExposure)
  }

  /** Every bound on a size `z`, read off the inputs. */
  predicate SizeFits(cfg: RiskConfig, own: ModuleLimits, req: Request, loc: Local, oracle: Option<Oracle>,
                     tenant: bool, z: real)
  {
    && req.requested.Fin? && z <= req.requested.v
    && z <= cfg.maxPositionQuote && (own.positionQuote > 0.0 ==> z <= own.positionQuote)
    && z <= Free(cfg, req)
    && (cfg.maxPositionFraction < 1.0 ==> z <= Product(Free(cfg, req), Max(cfg.maxPositionFraction, 0.0)))
    && ExposureFits(cfg, own, loc.exposure + loc.reservedExposure + z)
    && (HasDurable(oracle, tenant) ==> ExposureFits(cfg, own, Durable(oracle) + loc.reservedExposure + z))
  }

  /** There is room for a positive size. */
  predicate HasRoom(cfg: RiskConfig, own: ModuleLimits, loc: Local, oracle: Option<Oracle>, tenant: bool) {
    && cfg.maxPositionQuote > 0.0 && cfg.maxPositionFraction > 0.0
    && RoomAbove(cfg, own, loc.exposure + loc.reservedExposure)
    && (HasDurable(oracle, tenant) ==> RoomAbove(cfg, own, Durable(oracle) + loc.reservedExposure))
  }

  predicate RoomAbove(cfg: RiskConfig, own: ModuleLimits, e: real) {
    && (e < Product(cfg.maxPositionQuote, cfg.maxOpenPositions as real) || e < cfg.maxPositionQuote)
    && (own.totalExposure > 0.0 ==> e < own.totalExposure)
  }

  const CODES: seq<Code> := [
    KillSwitch, ModuleDisabled, DailyLossLimit, GlobalUnavailable, DailyLossLimit, EmergencyDisabled, GlobalUnavailable,
    ModuleDailyLoss, InvalidSize, InsufficientBalance, GlobalRejected, SlippageCap, GlobalUnavailable, MaxOpenPositions,
    GlobalUnavailable, DuplicateSymbol, ReentryCooldown, Throttled, InsufficientBalance, GlobalUnavailable,
    ExposureCapReached, VenueCheck]

  /** The first `n` gates pass before any money is looked at: is trading permitted at all. */
  predicate Permitted(n: nat, cfg: RiskConfig, own: ModuleLimits, loc: Local, oracle: Option<Oracle>, tenant: bool) {
    && (n > 0 ==> !loc.killSwitch)
    && (n > 1 ==> loc.enabled)
    && (n > 2 ==> tenant || !loc.lossTripped)
    && (n > 3 && cfg.dailyLossLimit > 0.0 ==> Readable(Reading(oracle, false), tenant))
    && (n > 4 && cfg.dailyLossLimit > 0.0 ==> !AtOrBelow(loc.realized, Reading(oracle, false), -cfg.dailyLossLimit))
    && (n > 5 ==> !own.emergencyDisable)
    && (n > 6 && own.dailyLoss > 0.0 ==> Readable(Reading(oracle, true), tenant))
    && (n > 7 && own.dailyLoss > 0.0 ==> !AtOrBelow(loc.moduleRealized, Reading(oracle, true), -own.dailyLoss))
  }

  /** Of the gates from the request check on, those among the first `n` pass. */
  predicate Checked(n: nat, cfg: RiskConfig, own: ModuleLimits, req: Request, loc: Local, oracle: Option<Oracle>,
                    tenant: bool)
  {
    && (n > 8 ==> req.requested.Fin? && req.requested.v > 0.0)
    && (n > 9 ==> req.available.Fin? && req.available.v >= 0.0)
    && (n > 10 ==> loc.globalAccepts)
    && (n > 11 ==> req.slippageBps <= cfg.maxSlippageBps)
    && (n > 12 && tenant ==> oracle.Some? && oracle.value.openCount.Some?)
    && (n > 13 ==> CountBelow(loc.openCount + loc.reservedCount, cfg, own))
    && (n > 13 && oracle.Some? && oracle.value.openCount.Some? ==>
          CountBelow(oracle.value.openCount.value + loc.reservedCount, cfg, own))
    && (n > 14 && tenant ==> oracle.Some? && oracle.value.hasSymbol.Some?)
    && (n > 15 ==> !loc.duplicate && (tenant ==> oracle.value.hasSymbol == Some(false)))
    && (n > 16 ==> loc.reentryAllowed)
    && (n > 17 ==> !loc.throttled)
    && (n > 18 ==> Free(cfg, req) > 0.0)
  }

  /** The first `n` gates pass. */
  predicate Passes(n: nat, cfg: RiskConfig, own: ModuleLimits, req: Request, loc: Local, oracle: Option<Oracle>,
                   tenant: bool)
  {
    && Permitted(n, cfg, own, loc, oracle, tenant)
    && Checked(n, cfg, own, req, loc, oracle, tenant)
    && (n > 19 ==> ExposureUsable(loc, oracle, tenant))
    && (n > 20 ==> HasRoom(cfg, own, loc, oracle, tenant))
    && (n > 21 ==> !VenueRefuses(cfg, req))
  }

  /** Only the order book is checked, and only what the request states. */
  predicate VenueRefuses(cfg: RiskConfig, req: Request) {
    req.clob &&
    (|| (req.price.Some? && (!req.price.value.Fin? || req.price.value.v <= 0.0 || req.price.value.v >= 1.0))
     || (req.price.Some? && req.price.value.Fin? && req.price.value.v < cfg.priceFloor)
     || (req.price.Some? && req.price.value.Fin? && req.price.value.v > cfg.priceCeiling)
     || (req.liquidity.Some? && (!req.liquidity.value.Fin? || req.liquidity.value.v < 0.0))
     || (req.liquidity.Some? && req.liquidity.value.Fin? && req.liquidity.value.v < cfg.minLiquidity)
     || (req.fair.Some? && (!req.fair.value.Fin? || req.fair.value.v < 0.0 || req.fair.value.v > 1.0))
     || (&& req.price.Some? && req.fair.Some? && req.price.value.Fin? && req.fair.value.Fin?
         && req.fair.value.v - req.price.value.v < cfg.minEdge))
  }

  lemma PreflightIsFirstFailure(n: nat, cfg: RiskConfig, own: ModuleLimits, m: Module, loc: Local,
                                oracle: Option<Oracle>, tenant: bool)
    requires OwnLimits(cfg, m, own)
    ensures Preflight(cfg, m, loc, oracle, tenant).None? <==> Permitted(8, cfg, own, loc, oracle, tenant)
    ensures n < 8 && Permitted(n, cfg, own, loc, oracle, tenant) && !Permitted(n + 1, cfg, own, loc, oracle, tenant) ==>
              Preflight(cfg, m, loc, oracle, tenant) == Some(CODES[n])
  {
  }

  /** Past the preflight the refusal is settled by the remaining gates before sizing. */
  lemma CheckIsFirstFailure(n: nat, cfg: RiskConfig, own: ModuleLimits, req: Request, loc: Local,
                            oracle: Option<Oracle>, tenant: bool)
    requires OwnLimits(cfg, req.m, own) && Preflight(cfg, req.m, loc, oracle, tenant).None?
    ensures Refusal(cfg, req, loc, oracle, tenant).None? <==> Checked(19, cfg, own, req, loc, oracle, tenant)
    ensures n < 19 && Checked(n, cfg, own, req, loc, oracle, tenant)
            && !Checked(n + 1, cfg, own, req, loc, oracle, tenant) ==>
              Refusal(cfg, req, loc, oracle, tenant) == Some(CODES[n])
  {
    CountIff(cfg, own, req.m, loc, oracle, tenant);
  }

  lemma CountIff(cfg: RiskConfig, own: ModuleLimits, m: Module, loc: Local, oracle: Option<Oracle>, tenant: bool)
    requires OwnLimits(cfg, m, own)
    ensures var count := EffectiveOpenCount(loc.openCount, oracle, tenant);
            && (count.None? <==> tenant && (oracle.None? || oracle.value.openCount.None?))
            && (count.Some? ==>
                  (count.value + loc.reservedCount < cfg.PositionLimit(m)
                   <==> && CountBelow(loc.openCount + loc.reservedCount, cfg, own)
                        && (oracle.Some? && oracle.value.openCount.Some? ==>
                              CountBelow(oracle.value.openCount.value + loc.reservedCount, cfg, own))))
  {
  }

  lemma RefusalIsFirstFailure(n: nat, cfg: RiskConfig, own: ModuleLimits, req: Request, loc: Local,
                              oracle: Option<Oracle>, tenant: bool)
    requires OwnLimits(cfg, req.m, own)
    ensures Refusal(cfg, req, loc, oracle, tenant).None? <==> Passes(19, cfg, own, req, loc, oracle, tenant)
    ensures n < 19 && Passes(n, cfg, own, req, loc, oracle, tenant)
            && !Passes(n + 1, cfg, own, req, loc, oracle, tenant) ==>
              Refusal(cfg, req, loc, oracle, tenant) == Some(CODES[n])
  {
    PreflightIsFirstFailure(n, cfg, own, req.m, loc, oracle, tenant);
    PermittedByEight(n, cfg, own, loc, oracle, tenant);
    PermittedByEight(n + 1, cfg, own, loc, oracle, tenant);
    if Preflight(cfg, req.m, loc, oracle, tenant).None? {
      CheckIsFirstFailure(n, cfg, own, req, loc, oracle, tenant);
    } else {
      assert Refusal(cfg, req, loc, oracle, tenant) == Preflight(cfg, req.m, loc, oracle, tenant);
    }
  }

  lemma PermittedByEight(n: nat, cfg: RiskConfig, own: ModuleLimits, loc: Local, oracle: Option<Oracle>, tenant: bool)
    ensures n >= 8 ==> (Permitted(n, cfg, own, loc, oracle, tenant) <==> Permitted(8, cfg, own, loc, oracle, tenant))
    ensures Permitted(8, cfg, own, loc, oracle, tenant) ==> Permitted(n, cfg, own, loc, oracle, tenant)
  {
  }

  lemma PassesByNineteen(n: nat, cfg: RiskConfig, own: ModuleLimits, req: Request, loc: Local, oracle: Option<Oracle>,
                         tenant: bool)
    ensures n >= 19 ==>
              (Passes(n, cfg, own, req, loc, oracle, tenant)
               <==> && Passes(19, cfg, own, req, loc, oracle, tenant)
                    && (n > 19 ==> ExposureUsable(loc, oracle, tenant))
                    && (n > 20 ==> HasRoom(cfg, own, loc, oracle, tenant))
                    && (n > 21 ==> !VenueRefuses(cfg, req)))
    ensures n < 19 && Passes(19, cfg, own, req, loc, oracle, tenant) ==> Passes(n, cfg, own, req, loc, oracle, tenant)
  {
  }

  /** For every input the decision is settled by the first gate that fails, and is an admission exactly when none
      does. A kill switch comes before everything else. */
  lemma DecisionIsFirstFailure(n: nat, cfg: RiskConfig, own: ModuleLimits, req: Request, loc: Local,
                               oracle: Option<Oracle>, tenant: bool)
    requires OwnLimits(cfg, req.m, own)
    ensures Decide(cfg, req, loc, oracle, tenant).Admit? <==> Passes(22, cfg, own, req, loc, oracle, tenant)
    ensures n < 22 && Passes(n, cfg, own, req, loc, oracle, tenant)
            && !Passes(n + 1, cfg, own, req, loc, oracle, tenant) ==>
              Decide(cfg, req, loc, oracle, tenant) == Reject(CODES[n])
    ensures loc.killSwitch ==> Decide(cfg, req, loc, oracle, tenant) == Reject(KillSwitch)
  {
    RefusalIsFirstFailure(n, cfg, own, req, loc, oracle, tenant);
    PassesByNineteen(n, cfg, own, req, loc, oracle, tenant);
    PassesByNineteen(n + 1, cfg, own, req, loc, oracle, tenant);
    PassesByNineteen(22, cfg, own, req, loc, oracle, tenant);
    if Refusal(cfg, req, loc, oracle, tenant).None? {
      PastTheGates(cfg, own, req, loc, oracle, tenant);
    }
  }

  lemma PastTheGates(cfg: RiskConfig, own: ModuleLimits, req: Request, loc: Local, oracle: Option<Oracle>, tenant: bool)
    requires OwnLimits(cfg, req.m, own) && Refusal(cfg, req, loc, oracle, tenant).None?
    ensures var d := Decide(cfg, req, loc, oracle, tenant);
            if !ExposureUsable(loc, oracle, tenant) then d == Reject(GlobalUnavailable)
            else if !HasRoom(cfg, own, loc, oracle, tenant) then d == Reject(ExposureCapReached)
            else if VenueRefuses(cfg, req) then d == Reject(VenueCheck)
            else d.Admit?
  {
    UsableIff(loc, oracle, tenant);
    VenueIff(cfg, req);
    if Exposure(loc, oracle, tenant).Some? {
      RoomIff(cfg, own, req, loc, oracle, tenant);
    }
  }

  lemma VenueIff(cfg: RiskConfig, req: Request)
    ensures VenueOk(cfg, req) <==> !VenueRefuses(cfg, req)
  {
  }

  lemma UsableIff(loc: Local, oracle: Option<Oracle>, tenant: bool)
    ensures Exposure(loc, oracle, tenant).Some? <==> ExposureUsable(loc, oracle, tenant)
  {
  }

  /** The exposure used is the larger of the two known ones. */
  lemma ExposureIsLarger(loc: Local, oracle: Option<Oracle>, tenant: bool)
    requires Exposure(loc, oracle, tenant).Some?
    ensures var local := loc.exposure + loc.reservedExposure;
            Exposure(loc, oracle, tenant).value
            == if HasDurable(oracle, tenant) then Max(local, Durable(oracle) + loc.reservedExposure) else local
  {
  }

  lemma RoomIff(cfg: RiskConfig, own: ModuleLimits, req: Request, loc: Local, oracle: Option<Oracle>, tenant: bool)
    requires OwnLimits(cfg, req.m, own) && Refusal(cfg, req, loc, oracle, tenant).None?
    requires Exposure(loc, oracle, tenant).Some?
    ensures Room(cfg, req, Exposure(loc, oracle, tenant).value) > 0.0 <==> HasRoom(cfg, own, loc, oracle, tenant)
  {
    FractionIsPositiveIff(cfg, req);
    ExposureIsLarger(loc, oracle, tenant);
    AboveIff(cfg, own, req.m, Exposure(loc, oracle, tenant).value);
  }

  lemma AboveIff(cfg: RiskConfig, own: ModuleLimits, m: Module, e: real)
    requires OwnLimits(cfg, m, own)
    ensures RoomAbove(cfg, own, e) <==> e < cfg.ExposureCap(m)
    ensures cfg.PositionCap(m) > 0.0 <==> cfg.maxPositionQuote > 0.0
  {
  }

  lemma FractionIsPositiveIff(cfg: RiskConfig, req: Request)
    requires req.available.Fin? && Spendable(cfg, req) > 0.0
    ensures FractionCap(cfg, req) > 0.0 <==> cfg.maxPositionFraction > 0.0
  {
    var part := Clamp01(cfg.maxPositionFraction);
    assert part > 0.0 ==> Spendable(cfg, req) * part > 0.0;
  }

  /** An admitted size fits every bound, no larger one does, and it is reported as reduced exactly when it falls short
      of the request by a trillionth or more. */
  lemma AdmittedSizeIsLargest(cfg: RiskConfig, own: ModuleLimits, req: Request, loc: Local, oracle: Option<Oracle>,
                              tenant: bool, z: real)
    requires OwnLimits(cfg, req.m, own) && Decide(cfg, req, loc, oracle, tenant).Admit?
    ensures var d := Decide(cfg, req, loc, oracle, tenant);
            && 0.0 < d.size && SizeFits(cfg, own, req, loc, oracle, tenant, d.size)
            && (SizeFits(cfg, own, req, loc, oracle, tenant, z) ==> z <= d.size)
            && (d.reduced <==> req.requested.v - d.size >= 0.000000000001)
  {
    FitsIff(cfg, own, req, loc, oracle, tenant, Decide(cfg, req, loc, oracle, tenant).size);
    FitsIff(cfg, own, req, loc, oracle, tenant, z);
  }

  lemma FitsIff(cfg: RiskConfig, own: ModuleLimits, req: Request, loc: Local, oracle: Option<Oracle>, tenant: bool,
                z: real)
    requires OwnLimits(cfg, req.m, own) && req.requested.Fin? && req.available.Fin? && Spendable(cfg, req) > 0.0
    requires Exposure(loc, oracle, tenant).Some?
    ensures SizeFits(cfg, own, req, loc, oracle, tenant, z)
            <==> z <= Room(cfg, req, Exposure(loc, oracle, tenant).value)
  {
    FractionIff(cfg, req, z);
    PositionIff(cfg, own, req.m, z);
    ExposureIff(cfg, own, req.m, loc, oracle, tenant, z);
    LeastOfIff(req.requested.v, cfg.PositionCap(req.m), FractionCap(cfg, req), Spendable(cfg, req),
               cfg.ExposureCap(req.m) - Exposure(loc, oracle, tenant).value, z);
  }

  lemma LeastOfIff(a: real, b: real, c: real, d: real, e: real, z: real)
    ensures z <= LeastOf(a, b, c, d, e) <==> z <= a && z <= b && z <= c && z <= d && z <= e
  {
  }

  lemma PositionIff(cfg: RiskConfig, own: ModuleLimits, m: Module, z: real)
    requires OwnLimits(cfg, m, own)
    ensures z <= cfg.PositionCap(m)
            <==> z <= cfg.maxPositionQuote && (own.positionQuote > 0.0 ==> z <= own.positionQuote)
  {
  }

  lemma FractionIff(cfg: RiskConfig, req: Request, z: real)
    requires req.available.Fin? && Spendable(cfg, req) > 0.0
    ensures z <= FractionCap(cfg, req) && z <= Spendable(cfg, req)
            <==> && z <= Free(cfg, req)
                 && (cfg.maxPositionFraction < 1.0 ==>
                       z <= Product(Free(cfg, req), Max(cfg.maxPositionFraction, 0.0)))
  {
    if cfg.maxPositionFraction >= 1.0 {
      assert FractionCap(cfg, req) == Spendable(cfg, req) * 1.0;
    } else {
      assert Clamp01(cfg.maxPositionFraction) == Max(cfg.maxPositionFraction, 0.0);
    }
  }

  lemma ExposureIff(cfg: RiskConfig, own: ModuleLimits, m: Module, loc: Local, oracle: Option<Oracle>, tenant: bool,
                    z: real)
    requires OwnLimits(cfg, m, own) && Exposure(loc, oracle, tenant).Some?
    ensures z <= cfg.ExposureCap(m) - Exposure(loc, oracle, tenant).value
            <==> && ExposureFits(cfg, own, loc.exposure + loc.reservedExposure + z)
                 && (HasDurable(oracle, tenant) ==> ExposureFits(cfg, own, Durable(oracle) + loc.reservedExposure + z))
  {
    ExposureIsLarger(loc, oracle, tenant);
    FitsCap(cfg, own, m, loc.exposure + loc.reservedExposure + z);
    if HasDurable(oracle, tenant) {
      FitsCap(cfg, own, m, Durable(oracle) + loc.reservedExposure + z);
    }
  }

  lemma FitsCap(cfg: RiskConfig, own: ModuleLimits, m: Module, e: real)
    requires OwnLimits(cfg, m, own)
    ensures ExposureFits(cfg, own, e) <==> e <= cfg.ExposureCap(m)
  {
  }

  // Monotonicity ------------------------------------------------------------

  /** A profit figure no better than another; not-a-number is ignored, hence as good as none. */
  predicate PnlNoBetter(a: Num, b: Num) {
    b.NaN? || b.PosInf? || a.NegInf? || (a.Fin? && b.Fin? && a.v <= b.v)
  }

  predicate ReadNoBetter(a: PnlRead, b: PnlRead) {
    a == b || a.Incomplete? || (a.Known? && b.Known? && PnlNoBetter(a.pnl, b.pnl))
  }

  predicate ExposureNoLess(a: Num, b: Num) {
    b.NaN? || b.NegInf? || a.PosInf? || (a.Fin? && b.Fin? && a.v >= b.v)
  }

  /** `worse` answers every question no more favourably: lower profit, higher count, held symbol, higher exposure. */
  predicate NoBetter(worse: Oracle, o: Oracle) {
    && ReadNoBetter(worse.realized, o.realized) && ReadNoBetter(worse.moduleRealized, o.moduleRealized)
    && (worse.openCount == o.openCount
        || (worse.openCount.Some? && o.openCount.Some? && worse.openCount.value >= o.openCount.value))
    && (worse.hasSymbol == o.hasSymbol || worse.hasSymbol == Some(true) || worse.hasSymbol.None?)
    && (worse.exposure == o.exposure || worse.exposure.None?
        || (o.exposure.Some? && ExposureNoLess(worse.exposure.value, o.exposure.value)))
  }

  /** `a` admits nothing `b` would not, and never a larger size. */
  predicate NoLooser(a: Decision, b: Decision) {
    a.Admit? ==> b.Admit? && a.size <= b.size
  }

  lemma PreflightMonotone(cfg: RiskConfig, m: Module, loc: Local, worse: Oracle, o: Oracle, tenant: bool)
    requires NoBetter(worse, o) && Preflight(cfg, m, loc, Some(worse), tenant).None?
    ensures Preflight(cfg, m, loc, Some(o), tenant).None?
  {
  }

  lemma ExposureMonotone(loc: Local, worse: Oracle, o: Oracle, tenant: bool)
    requires NoBetter(worse, o) && Exposure(loc, Some(worse), tenant).Some?
    ensures Exposure(loc, Some(o), tenant).Some? ==>
              Exposure(loc, Some(o), tenant).value <= Exposure(loc, Some(worse), tenant).value
    ensures !tenant || loc.exposure + loc.reservedExposure >= 0.0 ==> Exposure(loc, Some(o), tenant).Some?
  {
  }

  lemma RoomShrinks(cfg: RiskConfig, req: Request, low: real, high: real)
    requires req.requested.Fin? && req.available.Fin? && low <= high
    ensures Room(cfg, req, high) <= Room(cfg, req, low)
  {
  }

  /** Less favourable answers of the oracle admit no entry and no size that more favourable ones would not, and
      when they admit one, exactly if the more favourable exposure is itself usable: not negative. */
  lemma MonotoneInTheOracle(cfg: RiskConfig, req: Request, loc: Local, worse: Oracle, o: Oracle, tenant: bool)
    requires NoBetter(worse, o)
    ensures var low, high := Decide(cfg, req, loc, Some(worse), tenant), Decide(cfg, req, loc, Some(o), tenant);
            && (Exposure(loc, Some(o), tenant).Some? ==> NoLooser(low, high))
            && (low.Admit? ==> (NoLooser(low, high) <==> Exposure(loc, Some(o), tenant).Some?))
  {
    if Decide(cfg, req, loc, Some(worse), tenant).Admit? && Exposure(loc, Some(o), tenant).Some? {
      PreflightMonotone(cfg, req.m, loc, worse, o, tenant);
      ExposureMonotone(loc, worse, o, tenant);
      RoomShrinks(cfg, req, Exposure(loc, Some(o), tenant).value, Exposure(loc, Some(worse), tenant).value);
    }
  }

  lemma MonotoneForNonNegativeExposure(cfg: RiskConfig, req: Request, loc: Local, worse: Oracle, o: Oracle,
                                       tenant: bool)
    requires NoBetter(worse, o) && (!tenant || loc.exposure + loc.reservedExposure >= 0.0)
    ensures NoLooser(Decide(cfg, req, loc, Some(worse), tenant), Decide(cfg, req, loc, Some(o), tenant))
  {
    if Decide(cfg, req, loc, Some(worse), tenant).Admit? {
      ExposureMonotone(loc, worse, o, tenant);
      MonotoneInTheOracle(cfg, req, loc, worse, o, tenant);
    }
  }

  function Larger(b: Positions.Book): (x: real)
    ensures x >= b.costBasis && x >= b.qty * b.lastMark && (x == b.costBasis || x == b.qty * b.lastMark)
  {
    Max(b.costBasis, b.qty * b.lastMark)
  }

  /** What the process reports as its own exposure: the larger of cost basis and notional, over its open positions. */
  function OpenExposure(books: seq<Positions.Book>): (x: real) {
    if books == [] then 0.0
    else
      var b := books[|books| - 1];
      OpenExposure(books[..|books| - 1]) + Larger(b)
  }

  /** The open positions, each from its own fills. */
  function BooksOf(histories: seq<seq<Positions.Fill>>, eps: real): (books: seq<Positions.Book>)
    ensures |books| == |histories|
  {
    seq(|histories|, i requires 0 <= i < |histories| => Positions.BookOf(histories[i], eps))
  }

  /** Quote held by entries admitted and not yet booked. */
  function ReservedExposure(requested: seq<real>): (x: real) {
    if requested == [] then 0.0 else ReservedExposure(requested[..|requested| - 1]) + requested[|requested| - 1]
  }

  /** The exposure of several positions is that of each: what it cost or what it is worth, whichever is more. */
  lemma {:induction false} ExposureAdds(a: seq<Positions.Book>, b: seq<Positions.Book>)
    ensures OpenExposure(a + b) == OpenExposure(a) + OpenExposure(b)
    ensures |b| == 1 ==> OpenExposure(b) == Larger(b[0])
    decreases |b|
  {
    if b == [] {
      assert a + b == a;
    } else {
      ExposureAdds(a, b[..|b| - 1]);
      assert (a + b)[..|a + b| - 1] == a + b[..|b| - 1];
    }
  }

  lemma {:induction false} ReservationsAdd(a: seq<real>, b: seq<real>)
    ensures ReservedExposure(a + b) == ReservedExposure(a) + ReservedExposure(b)
    ensures |b| == 1 ==> ReservedExposure(b) == b[0]
    decreases |b|
  {
    if b == [] {
      assert a + b == a;
    } else {
      ReservationsAdd(a, b[..|b| - 1]);
      assert (a + b)[..|a + b| - 1] == a + b[..|b| - 1];
    }
  }

  lemma {:induction false} OpenExposureIsNonNegative(books: seq<Positions.Book>)
    requires forall i :: 0 <= i < |books| ==> Positions.BookOk(books[i])
    ensures OpenExposure(books) >= 0.0
  {
    if books != [] {
      OpenExposureIsNonNegative(books[..|books| - 1]);
      assert Positions.BookOk(books[|books| - 1]);
    }
  }

  lemma {:induction false} ReservedIsNonNegative(requested: seq<real>)
    requires forall i :: 0 <= i < |requested| ==> requested[i] > 0.0
    ensures ReservedExposure(requested) >= 0.0
  {
    if requested != [] {
      ReservedIsNonNegative(requested[..|requested| - 1]);
    }
  }

  /** The decision is monotone in the oracle for every process whose positions come from fills and whose reservations
      are of positive size: less favourable answers admit no entry and no size that more favourable ones would not. */
  lemma MonotoneForSoundBooks(cfg: RiskConfig, req: Request, loc: Local, worse: Oracle, o: Oracle, tenant: bool,
                              histories: seq<seq<Positions.Fill>>, eps: real, requested: seq<real>)
    requires NoBetter(worse, o) && eps >= 0.0 && forall i :: 0 <= i < |requested| ==> requested[i] > 0.0
    requires loc.exposure == OpenExposure(BooksOf(histories, eps))
    requires loc.reservedExposure == ReservedExposure(requested)
    ensures NoLooser(Decide(cfg, req, loc, Some(worse), tenant), Decide(cfg, req, loc, Some(o), tenant))
  {
    var books := BooksOf(histories, eps);
    forall i | 0 <= i < |books|
      ensures Positions.BookOk(books[i])
    {
      Positions.BookConservesCash(histories[i], eps);
    }
    OpenExposureIsNonNegative(books);
    ReservedIsNonNegative(requested);
    MonotoneForNonNegativeExposure(cfg, req, loc, worse, o, tenant);
  }

  const ANY := RiskConfig(1, 1.0, 1.0, 0.0, 0, 0.0, 0.0, 1.0, 0.0, 0.0, NO_LIMITS, NO_LIMITS, NO_LIMITS)
  const ONE_SOL := Request(Sniper, false, Fin(1.0), Fin(1.0), 0, None, None, None)
  const OWING_ONE := Local(false, true, false, 0.0, 0.0, true, 0, 0, false, true, false, -1.0, 0.0)
  const MINUS_ONE := Oracle(Unavailable, Unavailable, Some(0), Some(false), Some(Fin(-1.0)))

  lemma MinusOneIsRefused()
    ensures Decide(ANY, ONE_SOL, OWING_ONE, Some(MINUS_ONE), true) == Reject(GlobalUnavailable)
  {
    DecisionIsFirstFailure(19, ANY, NO_LIMITS, ONE_SOL, OWING_ONE, Some(MINUS_ONE), true);
  }

  lemma ZeroPasses(zero: Oracle)
    requires zero == MINUS_ONE.(exposure := Some(Fin(0.0)))
    ensures Passes(22, ANY, NO_LIMITS, ONE_SOL, OWING_ONE, Some(zero), true)
  {
  }

  lemma ZeroIsAdmitted(zero: Oracle)
    requires zero == MINUS_ONE.(exposure := Some(Fin(0.0)))
    ensures Decide(ANY, ONE_SOL, OWING_ONE, Some(zero), true).Admit?
  {
    ZeroPasses(zero);
    DecisionIsFirstFailure(22, ANY, NO_LIMITS, ONE_SOL, OWING_ONE, Some(zero), true);
  }

  /** Only a malformed stored position can make the local exposure negative. Against one a tenant is refused at a
      durable exposure of -1 and admitted at a durable exposure of 0. */
  lemma NegativeExposureAdmitsLess()
    ensures var zero := MINUS_ONE.(exposure := Some(Fin(0.0)));
            && NoBetter(zero, MINUS_ONE)
            && Decide(ANY, ONE_SOL, OWING_ONE, Some(zero), true).Admit?
            && Decide(ANY, ONE_SOL, OWING_ONE, Some(MINUS_ONE), true) == Reject(GlobalUnavailable)
  {
    MinusOneIsRefused();
    ZeroIsAdmitted(MINUS_ONE.(exposure := Some(Fin(0.0))));
  }

  /** In operator mode attaching any oracle only tightens: whatever it answers, an admitted entry would be
      admitted by the local view alone, at the same size. */
  lemma OperatorOracleOnlyTightens(cfg: RiskConfig, req: Request, loc: Local, o: Oracle)
    ensures var attached, alone := Decide(cfg, req, loc, Some(o), false), Decide(cfg, req, loc, None, false);
            attached.Admit? ==> alone == attached
  {
  }

  /** A tenant's entry is never admitted on local state alone, nor on an oracle that leaves a question open. */
  lemma TenantFailsClosed(cfg: RiskConfig, req: Request, loc: Local, oracle: Option<Oracle>)
    requires Decide(cfg, req, loc, oracle, true).Admit?
    ensures oracle.Some? && oracle.value.openCount.Some? && oracle.value.hasSymbol == Some(false)
            && oracle.value.exposure.Some?
    ensures cfg.dailyLossLimit > 0.0 ==> oracle.value.realized.Known?
  {
  }

  lemma CapsTighten(cfg: RiskConfig, m: Module)
    ensures cfg.PositionCap(m) <= cfg.Generic().PositionCap(m)
    ensures cfg.PositionLimit(m) <= cfg.Generic().PositionLimit(m)
    ensures cfg.ExposureCap(m) <= cfg.Generic().ExposureCap(m)
  {
  }

  lemma GatesTighten(cfg: RiskConfig, req: Request, loc: Local, oracle: Option<Oracle>, tenant: bool)
    requires Refusal(cfg, req, loc, oracle, tenant).None?
    ensures Refusal(cfg.Generic(), req, loc, oracle, tenant).None?
  {
  }

  lemma LeastOfIsMonotone(a: real, b: real, b': real, c: real, d: real, e: real, e': real)
    requires b <= b' && e <= e'
    ensures LeastOf(a, b, c, d, e) <= LeastOf(a, b', c, d, e')
  {
  }

  lemma RoomTightens(cfg: RiskConfig, req: Request, exposure: real)
    requires req.requested.Fin? && req.available.Fin?
    ensures Room(cfg, req, exposure) <= Room(cfg.Generic(), req, exposure)
  {
    var generic := cfg.Generic();
    CapsTighten(cfg, req.m);
    SameBalance(cfg, req);
    LeastOfIsMonotone(req.requested.v, cfg.PositionCap(req.m), generic.PositionCap(req.m), FractionCap(cfg, req),
                      Spendable(cfg, req), cfg.ExposureCap(req.m) - exposure, generic.ExposureCap(req.m) - exposure);
  }

  lemma SameBalance(cfg: RiskConfig, req: Request)
    requires req.available.Fin?
    ensures FractionCap(cfg, req) == FractionCap(cfg.Generic(), req)
            && Spendable(cfg, req) == Spendable(cfg.Generic(), req)
  {
  }

  /** Module limits only tighten: whatever they are, an admitted entry is admitted under the generic limits alone,
      at least as large. */
  lemma ModuleLimitsOnlyTighten(cfg: RiskConfig, req: Request, loc: Local, oracle: Option<Oracle>, tenant: bool)
    ensures NoLooser(Decide(cfg, req, loc, oracle, tenant), Decide(cfg.Generic(), req, loc, oracle, tenant))
  {
    if Decide(cfg, req, loc, oracle, tenant).Admit? {
      GatesTighten(cfg, req, loc, oracle, tenant);
      RoomTightens(cfg, req, Exposure(loc, oracle, tenant).value);
    }
  }
}
