/** Runtime flags shared by replicas: local decisions are published to one store, every replica
    periodically applies what the store holds. A module decision that changes nothing locally is not
    published. */
module Flags {

  datatype BotModule = Sniper | Copy | Polymarket | Contract | Telegram

  /** `Other` is a stored flag no replica acts on: an unknown name or an unparsable module. */
  datatype Flag = KillSwitch | Halted | Enabled(m: BotModule) | Other(name: string)

  datatype RuntimeFlag = RuntimeFlag(flag: Flag, enabled: bool, updatedAt: int)

  datatype Replica = Replica(kill: bool, halted: bool, modules: map<BotModule, bool>, touched: map<Flag, int>) {
    function Get(f: Flag): bool {
      match f
      case KillSwitch => kill
      case Halted => halted
      case Enabled(m) => m in modules && modules[m]
      case Other(_) => false
    }

    function Set(f: Flag, on: bool): (r: Replica)
      ensures f.Other? || r.Get(f) == on
      ensures forall g :: g != f ==> r.Get(g) == Get(g)
      ensures r.touched == touched
    {
      match f
      case KillSwitch => this.(kill := on)
      case Halted => this.(halted := on)
      case Enabled(m) => this.(modules := modules[m := on])
      case Other(_) => this
    }
  }

  /** The stored row is newer than this replica's last local decision, or there was none. */
  predicate Current(r: Replica, row: RuntimeFlag) {
    row.flag in r.touched ==> row.updatedAt > r.touched[row.flag]
  }

  /** Kill and halt ON always apply; everything else only when current. */
  predicate Applies(r: Replica, row: RuntimeFlag) {
    ((row.flag.KillSwitch? || row.flag.Halted?) && row.enabled) || Current(r, row)
  }

  function SyncRow(r: Replica, row: RuntimeFlag): (r': Replica) {
    if Applies(r, row) && r.Get(row.flag) != row.enabled then r.Set(row.flag, row.enabled) else r
  }

  function SyncAll(r: Replica, rows: seq<RuntimeFlag>): (r': Replica) {
    if rows == [] then r else SyncRow(SyncAll(r, rows[..|rows| - 1]), rows[|rows| - 1])
  }

  datatype Report = Report(killChanged: bool, modulesChanged: nat, skippedStale: nat)

  function ReportRow(rep: Report, r: Replica, row: RuntimeFlag): Report {
    match row.flag
    case Other(_) => rep
    case Enabled(_) =>
      if Applies(r, row) && r.Get(row.flag) != row.enabled then rep.(modulesChanged := rep.modulesChanged + 1)
      else rep.(skippedStale := rep.skippedStale + 1)
    case _ =>
      if !Applies(r, row) then rep.(skippedStale := rep.skippedStale + 1)
      else if r.Get(row.flag) != row.enabled then rep.(killChanged := true)
      else rep
  }

  function ReportAll(r: Replica, rows: seq<RuntimeFlag>): Report {
    if rows == [] then Report(false, 0, 0)
    else ReportRow(ReportAll(r, rows[..|rows| - 1]), SyncAll(r, rows[..|rows| - 1]), rows[|rows| - 1])
  }

  datatype Row = Row(enabled: bool, at: int)

  /** The shared store. */
  class FlagStore {
    var rows: map<Flag, Row>

    constructor ()
      ensures rows == map[]
    {
      rows := map[];
    }
  }

  /** The replica after a decision it publishes, stamped at `touchedAt`. */
  function Decided(r: Replica, f: Flag, on: bool, touchedAt: int): (r': Replica) {
    r.Set(f, on).(touched := r.touched[f := touchedAt])
  }

  class AppFlags {
    const writer: FlagStore?
    var kill: bool
    var halted: bool
    var modules: map<BotModule, bool>
    var touched: map<Flag, int>

    function Value(): Replica
      reads this
    {
      Replica(kill, halted, modules, touched)
    }

    constructor (writer: FlagStore?)
      ensures Value() == Replica(false, false, map[], map[]) && this.writer == writer
    {
      this.writer := writer;
      kill, halted, modules, touched := false, false, map[], map[];
    }

    /** Stamps the local decision, then writes the row, if there is a store to write to. */
    method PublishFlag(f: Flag, on: bool, touchedAt: int, rowAt: int)
      modifies this`touched, writer
      ensures touched == old(touched)[f := touchedAt]
      ensures writer != null ==> writer.rows == old(writer.rows)[f := Row(on, rowAt)]
    {
      touched := touched[f := touchedAt];
      if writer != null {
        writer.rows := writer.rows[f := Row(on, rowAt)];
      }
    }

    method SetKillSwitch(on: bool, touchedAt: int, rowAt: int)
      modifies this, writer
      ensures Value() == Decided(old(Value()), KillSwitch, on, touchedAt)
      ensures writer != null ==> writer.rows == old(writer.rows)[KillSwitch := Row(on, rowAt)]
    {
      kill := on;
      PublishFlag(KillSwitch, on, touchedAt, rowAt);
    }

    method ClearHalt(touchedAt: int, rowAt: int)
      modifies this, writer
      ensures Value() == Decided(old(Value()), Halted, false, touchedAt)
      ensures writer != null ==> writer.rows == old(writer.rows)[Halted := Row(false, rowAt)]
    {
      halted := false;
      PublishFlag(Halted, false, touchedAt, rowAt);
    }

    /** A module decision is stamped and published only if it changed the local value. */
    method SetEnabled(m: BotModule, on: bool, touchedAt: int, rowAt: int) returns (previous: bool)
      modifies this, writer
      ensures previous == old(Value()).Get(Enabled(m))
      ensures Value() == if previous != on then Decided(old(Value()), Enabled(m), on, touchedAt)
                         else old(Value()).Set(Enabled(m), on)
      ensures writer != null ==>
                writer.rows == if previous != on then old(writer.rows)[Enabled(m) := Row(on, rowAt)]
                    else old(writer.rows)
    {
      previous := SetEnabledLocal(m, on);
      if previous != on {
        PublishFlag(Enabled(m), on, touchedAt, rowAt);
      }
    }

    method ApplyRemoteKill(on: bool) returns (changed: bool)
      modifies this`kill
      ensures Value() == old(Value()).Set(KillSwitch, on) && changed == (old(kill) != on)
    {
      if kill == on {
        return false;
      }
      kill := on;
      return true;
    }

    method ApplyRemoteHalted(on: bool) returns (changed: bool)
      modifies this`halted
      ensures Value() == old(Value()).Set(Halted, on) && changed == (old(halted) != on)
    {
      if halted == on {
        return false;
      }
      halted := on;
      return true;
    }

    method SetEnabledLocal(m: BotModule, on: bool) returns (previous: bool)
      modifies this`modules
      ensures Value() == old(Value()).Set(Enabled(m), on) && previous == old(Value()).Get(Enabled(m))
    {
      previous := m in modules && modules[m];
      modules := modules[m := on];
    }

    /** A stored kill or halt row. */
    method ApplySafetyRow(f: RuntimeFlag, report: Report) returns (r: Report)
      requires f.flag.KillSwitch? || f.flag.Halted?
      modifies this`kill, this`halted
      ensures Same(Value(), SyncRow(old(Value()), f)) && r == ReportRow(report, old(Value()), f)
    {
      r := report;
      var changed := false;
      if f.enabled || Current(Value(), f) {
        if f.flag.KillSwitch? {
          changed := ApplyRemoteKill(f.enabled);
        } else {
          changed := ApplyRemoteHalted(f.enabled);
        }
      } else {
        r := r.(skippedStale := r.skippedStale + 1);
      }
      if changed {
        r := r.(killChanged := true);
      }
    }

    /** A stored module row. */
    method ApplyModuleRow(f: RuntimeFlag, report: Report) returns (r: Report)
      requires f.flag.Enabled?
      modifies this`modules
      ensures Same(Value(), SyncRow(old(Value()), f)) && r == ReportRow(report, old(Value()), f)
    {
      var applied := false;
      if Current(Value(), f) {
        var previous := SetEnabledLocal(f.flag.m, f.enabled);
        applied := previous != f.enabled;
      }
      r := if applied then report.(modulesChanged := report.modulesChanged + 1)
           else report.(skippedStale := report.skippedStale + 1);
    }

    /** One round of rows observed from the store, in whatever order it lists them. */
    method ApplyFlagSync(rows: seq<RuntimeFlag>) returns (report: Report)
      modifies this`kill, this`halted, this`modules
      ensures Same(Value(), SyncAll(old(Value()), rows))
      ensures report == ReportAll(old(Value()), rows)
    {
      report := Report(false, 0, 0);
      for i := 0 to |rows|
        invariant Same(Value(), SyncAll(old(Value()), rows[..i]))
        invariant report == ReportAll(old(Value()), rows[..i])
      {
        var f := rows[i];
        assert rows[..i + 1][..i] == rows[..i];
        SameSync(Value(), SyncAll(old(Value()), rows[..i]), f, report);
        if f.flag.KillSwitch? || f.flag.Halted? {
          report := ApplySafetyRow(f, report);
        } else if f.flag.Enabled? {
          report := ApplyModuleRow(f, report);
        }
      }
      assert rows[..|rows|] == rows;
    }
  }

  /** Replicas nobody can tell apart take a row alike. */
  lemma SameSync(a: Replica, b: Replica, row: RuntimeFlag, rep: Report)
    requires Same(a, b)
    ensures Same(SyncRow(a, row), SyncRow(b, row)) && ReportRow(rep, a, row) == ReportRow(rep, b, row)
  {
    assert a.Get(row.flag) == b.Get(row.flag);
    forall f
      ensures SyncRow(a, row).Get(f) == SyncRow(b, row).Get(f)
    {
      assert a.Get(f) == b.Get(f);
    }
  }

  /** Equal as far as anyone can observe: an absent module reads as disabled. */
  ghost predicate Same(a: Replica, b: Replica) {
    a.touched == b.touched && forall f :: a.Get(f) == b.Get(f)
  }

  // One sync round ----------------------------------------------------------

  predicate Distinct(rows: seq<RuntimeFlag>) {
    forall i, j :: 0 <= i < j < |rows| ==> rows[i].flag != rows[j].flag
  }

  lemma {:induction false} SyncFrame(r: Replica, rows: seq<RuntimeFlag>, f: Flag)
    requires forall i :: 0 <= i < |rows| ==> rows[i].flag != f
    ensures SyncAll(r, rows).Get(f) == r.Get(f) && SyncAll(r, rows).touched == r.touched
  {
    if rows != [] {
      SyncFrame(r, rows[..|rows| - 1], f);
    }
  }

  lemma {:induction false} SyncKeepsTouched(r: Replica, rows: seq<RuntimeFlag>)
    ensures SyncAll(r, rows).touched == r.touched
  {
    if rows != [] {
      SyncKeepsTouched(r, rows[..|rows| - 1]);
    }
  }

  /** Whatever the order of the rows, each decides its own flag, from the replica's state before the round. */
  lemma {:induction false} SyncEffect(r: Replica, rows: seq<RuntimeFlag>, k: nat)
    requires Distinct(rows) && k < |rows| && !rows[k].flag.Other?
    ensures SyncAll(r, rows).Get(rows[k].flag) == if Applies(r, rows[k]) then rows[k].enabled else r.Get(rows[k].flag)
  {
    var n := |rows| - 1;
    var past := rows[..n];
    SyncKeepsTouched(r, past);
    if k < n {
      SyncEffect(r, past, k);
    } else {
      SyncFrame(r, past, rows[k].flag);
    }
  }

  /** A stored kill or halt ON takes effect whatever the stamps; an OFF or module row no newer than the replica's
      last published decision on that flag never overrides it. */
  lemma SafeDirectionWins(r: Replica, rows: seq<RuntimeFlag>, k: nat)
    requires Distinct(rows) && k < |rows| && !rows[k].flag.Other?
    ensures var row := rows[k];
            if (row.flag.KillSwitch? || row.flag.Halted?) && row.enabled then SyncAll(r, rows).Get(row.flag)
            else row.flag in r.touched && row.updatedAt <= r.touched[row.flag] ==>
              SyncAll(r, rows).Get(row.flag) == r.Get(row.flag)
  {
    SyncEffect(r, rows, k);
  }

  /** The row postdates every decision the replica has published on its flag. */
  predicate Newer(r: Replica, row: RuntimeFlag) {
    row.flag !in r.touched || r.touched[row.flag] < row.updatedAt
  }

  predicate Safety(row: RuntimeFlag) { row.flag == KillSwitch || row.flag == Halted }

  /** A newer row of a module that says something else. */
  predicate Flips(r: Replica, row: RuntimeFlag) {
    row.flag.Enabled? && Newer(r, row) && r.Get(row.flag) != row.enabled
  }

  function Changed(r: Replica, rows: seq<RuntimeFlag>): (n: nat) {
    if rows == [] then 0
    else
      var row := rows[|rows| - 1];
      Changed(r, rows[..|rows| - 1]) + if Flips(r, row) then 1 else 0
  }

  /** Rows passed over: module rows that changed nothing, and OFF rows of the kill switch or halt that are not newer. */
  function PassedOver(r: Replica, rows: seq<RuntimeFlag>): (n: nat) {
    if rows == [] then 0
    else
      var row := rows[|rows| - 1];
      PassedOver(r, rows[..|rows| - 1])
      + if (row.flag.Enabled? && !Flips(r, row))
           || (Safety(row) && !row.enabled && !Newer(r, row)) then 1 else 0
  }

  /** The report of a round says what the round did, each row judged by the state before it: whether the kill switch
      or the halt changed, how many modules did, and how many rows were passed over. */
  lemma {:induction false} ReportSays(r: Replica, rows: seq<RuntimeFlag>)
    requires Distinct(rows)
    ensures var rep, r' := ReportAll(r, rows), SyncAll(r, rows);
            && (rep.killChanged <==> r'.kill != r.kill || r'.halted != r.halted)
            && rep.modulesChanged == Changed(r, rows) && rep.skippedStale == PassedOver(r, rows)
  {
    if rows != [] {
      var past, row := rows[..|rows| - 1], rows[|rows| - 1];
      ReportSays(r, past);
      SyncFrame(r, past, row.flag);
      SyncKeepsTouched(r, past);
      LastRowReport(ReportAll(r, past), r, SyncAll(r, past), row);
    }
  }

  lemma LastRowReport(rep: Report, r: Replica, before: Replica, row: RuntimeFlag)
    requires before.Get(row.flag) == r.Get(row.flag) && before.touched == r.touched
    requires rep.killChanged <==> before.kill != r.kill || before.halted != r.halted
    ensures var rep', after := ReportRow(rep, before, row), SyncRow(before, row);
            && (rep'.killChanged <==> after.kill != r.kill || after.halted != r.halted)
            && rep'.modulesChanged == rep.modulesChanged + (if Flips(r, row) then 1 else 0)
            && rep'.skippedStale
               == rep.skippedStale
                  + if (row.flag.Enabled? && !Flips(r, row))
                       || (Safety(row) && !row.enabled && !Newer(r, row)) then 1 else 0
  {
  }

  // Many replicas, one store ------------------------------------------------

  datatype System = System(store: map<Flag, Row>, replicas: seq<Replica>, clock: int)

  /** `Publish` is a decision that is always published: the kill switch, the halt, and the module rows of an
      emergency stop. `SetEnabled` is a module decision. The replica stamps its own decision at `touchedAt`, the
      store stamps the row at `rowAt`. `Sync` reads the whole store, listed in any order. */
  datatype Op =
    | Publish(i: nat, flag: Flag, on: bool, touchedAt: int, rowAt: int)
    | SetEnabled(i: nat, m: BotModule, on: bool, touchedAt: int, rowAt: int)
    | Sync(i: nat, rows: seq<RuntimeFlag>)

  ghost predicate Lists(rows: seq<RuntimeFlag>, store: map<Flag, Row>) {
    && Distinct(rows)
    && (forall k :: 0 <= k < |rows| ==>
          rows[k].flag in store && store[rows[k].flag] == Row(rows[k].enabled, rows[k].updatedAt))
    && (forall f :: f in store ==> exists k :: 0 <= k < |rows| && rows[k].flag == f)
  }

  /** Stamps strictly increase from one decision to the next. */
  ghost predicate Enabling(s: System, op: Op) {
    && op.i < |s.replicas|
    && (op.Publish? ==> !op.flag.Other? && (op.flag.Enabled? ==> !op.on))
    && (!op.Sync? ==> s.clock < op.touchedAt <= op.rowAt)
    && (op.Sync? ==> Lists(op.rows, s.store))
  }

  function Step(s: System, op: Op): (s': System)
    requires op.i < |s.replicas|
  {
    var r := s.replicas[op.i];
    match op
    case Publish(i, f, on, touchedAt, rowAt) =>
      System(s.store[f := Row(on, rowAt)], s.replicas[i := Decided(r, f, on, touchedAt)], rowAt)
    case SetEnabled(i, m, on, touchedAt, rowAt) =>
      if r.Get(Enabled(m)) != on then
        System(s.store[Enabled(m) := Row(on, rowAt)], s.replicas[i := Decided(r, Enabled(m), on, touchedAt)], rowAt)
      else System(s.store, s.replicas[i := r.Set(Enabled(m), on)], rowAt)
    case Sync(i, rows) => s.(replicas := s.replicas[i := SyncAll(r, rows)])
  }

  function DecidedFlag(op: Op): Flag
    requires !op.Sync?
  {
    if op.Publish? then op.flag else Enabled(op.m)
  }

  /** A replica's own stamp never passes the stored row's, and where they are equal it holds the stored value. */
  ghost predicate ReplicaOk(s: System, r: Replica) {
    forall f :: f in r.touched ==>
      && f in s.store && r.touched[f] <= s.store[f].at <= s.clock
      && (r.touched[f] == s.store[f].at ==> r.Get(f) == s.store[f].enabled)
  }

  ghost predicate Inv(s: System) {
    forall i :: 0 <= i < |s.replicas| ==> ReplicaOk(s, s.replicas[i])
  }

  /** The replica equals the store on every stored flag it can act on. */
  ghost predicate Converged(s: System, r: Replica) {
    forall f :: f in s.store && !f.Other? ==> r.Get(f) == s.store[f].enabled
  }

  lemma SyncConverges(s: System, r: Replica, rows: seq<RuntimeFlag>)
    requires ReplicaOk(s, r) && Lists(rows, s.store)
    ensures Converged(s, SyncAll(r, rows))
  {
    forall f | f in s.store && !f.Other?
      ensures SyncAll(r, rows).Get(f) == s.store[f].enabled
    {
      var k :| 0 <= k < |rows| && rows[k].flag == f;
      SyncEffect(r, rows, k);
    }
  }

  lemma SyncKeepsReplicaOk(s: System, r: Replica, rows: seq<RuntimeFlag>)
    requires ReplicaOk(s, r) && Lists(rows, s.store)
    ensures ReplicaOk(s, SyncAll(r, rows))
  {
    SyncKeepsTouched(r, rows);
    SyncConverges(s, r, rows);
    forall f | f in r.touched && f.Other?
      ensures SyncAll(r, rows).Get(f) == r.Get(f)
    {
    }
  }

  /** A newer row leaves every other replica behind it. */
  lemma NewRowKeepsReplicaOk(s: System, s': System, r: Replica, f: Flag, on: bool)
    requires ReplicaOk(s, r) && s.clock < s'.clock && s'.store == s.store[f := Row(on, s'.clock)]
    ensures ReplicaOk(s', r)
  {
  }

  lemma PublishedIsReplicaOk(s: System, s': System, r: Replica, f: Flag, on: bool, touchedAt: int)
    requires ReplicaOk(s, r) && s.clock < touchedAt <= s'.clock && s'.store == s.store[f := Row(on, s'.clock)]
             && !f.Other?
    ensures ReplicaOk(s', Decided(r, f, on, touchedAt))
  {
  }

  lemma DecisionKeepsReplicaOk(s: System, op: Op, j: nat)
    requires Enabling(s, op) && !op.Sync? && j < |s.replicas| && ReplicaOk(s, s.replicas[j])
    ensures ReplicaOk(Step(s, op), Step(s, op).replicas[j])
  {
    var f := DecidedFlag(op);
    if !op.Publish? && s.replicas[op.i].Get(f) == op.on {
      assert Step(s, op).store == s.store;
    } else if j == op.i {
      PublishedIsReplicaOk(s, Step(s, op), s.replicas[j], f, op.on, op.touchedAt);
    } else {
      NewRowKeepsReplicaOk(s, Step(s, op), s.replicas[j], f, op.on);
    }
  }

  lemma StepKeepsInv(s: System, op: Op)
    requires Inv(s) && Enabling(s, op)
    ensures Inv(Step(s, op))
  {
    var s' := Step(s, op);
    forall j | 0 <= j < |s'.replicas|
      ensures ReplicaOk(s', s'.replicas[j])
    {
      assert ReplicaOk(s, s.replicas[j]);
      if !op.Sync? {
        DecisionKeepsReplicaOk(s, op, j);
      } else if j == op.i {
        SyncKeepsReplicaOk(s, s.replicas[j], op.rows);
      }
    }
  }

  function Run(s: System, ops: seq<Op>): (s': System)
    requires forall k :: 0 <= k < |ops| ==> ops[k].i < |s.replicas|
    ensures |s'.replicas| == |s.replicas|
    decreases |ops|
  {
    if ops == [] then s else Run(Step(s, ops[0]), ops[1..])
  }

  /** Every operation of the run is enabled when it happens. */
  ghost predicate Legal(s: System, ops: seq<Op>)
    decreases |ops|
  {
    ops == [] || (Enabling(s, ops[0]) && Legal(Step(s, ops[0]), ops[1..]))
  }

  lemma {:induction false} RunKeepsInv(s: System, ops: seq<Op>)
    requires Inv(s) && Legal(s, ops) && forall k :: 0 <= k < |ops| ==> ops[k].i < |s.replicas|
    ensures Inv(Run(s, ops))
    decreases |ops|
  {
    if ops != [] {
      StepKeepsInv(s, ops[0]);
      RunKeepsInv(Step(s, ops[0]), ops[1..]);
    }
  }

  // Which decisions survive -------------------------------------------------

  /** A decision survives the replica's next sync exactly when it was published (every kill, halt and emergency
      decision is, a module decision only if it changed the local value), or no stored row contradicts it, or the
      contradicting row is no newer than the last decision the replica published on that flag. */
  lemma DecisionSurvivesIff(s: System, op: Op, rows: seq<RuntimeFlag>)
    requires Enabling(s, op) && !op.Sync? && Lists(rows, Step(s, op).store)
    ensures var r, f := s.replicas[op.i], DecidedFlag(op);
            SyncAll(Step(s, op).replicas[op.i], rows).Get(f) == op.on
            <==> || op.Publish? || r.Get(f) != op.on
                 || f !in s.store || s.store[f].enabled == op.on
                 || (f in r.touched && s.store[f].at <= r.touched[f])
  {
    var s', f := Step(s, op), DecidedFlag(op);
    if f in s'.store {
      var k :| 0 <= k < |rows| && rows[k].flag == f;
      SyncEffect(s'.replicas[op.i], rows, k);
    } else {
      SyncFrame(s'.replicas[op.i], rows, f);
    }
  }

  const BOOTED := Replica(false, false, map[], map[])
  const PAIR := System(map[], [BOOTED, BOOTED], 0)
  const MODULE := Enabled(Copy)
  const ROW_ON := RuntimeFlag(MODULE, true, 1)
  const ROW_OFF := RuntimeFlag(MODULE, false, 2)

  lemma SyncOne(r: Replica, row: RuntimeFlag)
    ensures SyncAll(r, [row]) == SyncRow(r, row)
  {
    assert [row][..0] == [];
  }

  lemma ListsOne(row: RuntimeFlag)
    ensures Lists([row], map[row.flag := Row(row.enabled, row.updatedAt)])
  {
    assert [row][0].flag == row.flag;
  }

  lemma RunFirst(s: System, op: Op, ops: seq<Op>)
    requires op.i < |s.replicas| && forall k :: 0 <= k < |ops| ==> ops[k].i < |s.replicas|
    ensures Run(s, [op] + ops) == Run(Step(s, op), ops)
    ensures Legal(s, [op] + ops) <==> Enabling(s, op) && Legal(Step(s, op), ops)
  {
    assert ([op] + ops)[1..] == ops;
  }

  lemma RunTwo(s: System, a: Op, b: Op, ops: seq<Op>)
    requires a.i < |s.replicas| && b.i < |s.replicas| && forall k :: 0 <= k < |ops| ==> ops[k].i < |s.replicas|
    ensures Run(s, [a, b] + ops) == Run(Step(Step(s, a), b), ops)
    ensures Enabling(s, a) && Enabling(Step(s, a), b) && Legal(Step(Step(s, a), b), ops) ==> Legal(s, [a, b] + ops)
  {
    RunFirst(Step(s, a), b, ops);
    RunFirst(s, a, [b] + ops);
    assert [a] + ([b] + ops) == [a, b] + ops;
  }

  const ON_FIRST := SetEnabled(0, Copy, true, 1, 1)
  const OBSERVE := Sync(1, [ROW_ON])
  const OFF_SECOND := SetEnabled(1, Copy, false, 2, 2)
  const ON_AGAIN := SetEnabled(0, Copy, true, 3, 3)

  /** Replica 0 has enabled the module and replica 1 has seen it. */
  const SHARED := System(map[MODULE := Row(true, 1)], [Replica(false, false, map[Copy := true], map[MODULE := 1]),
                                                       Replica(false, false, map[Copy := true], map[])], 1)

  lemma ModuleIsShared()
    ensures Enabling(PAIR, ON_FIRST) && Enabling(Step(PAIR, ON_FIRST), OBSERVE)
    ensures Step(Step(PAIR, ON_FIRST), OBSERVE) == SHARED
  {
    var s1 := Step(PAIR, ON_FIRST);
    assert s1.store == map[MODULE := Row(true, 1)];
    ListsOne(ROW_ON);
    SyncOne(BOOTED, ROW_ON);
    assert s1.replicas == [SHARED.replicas[0], BOOTED];
  }

  lemma DecisionsCross() returns (end: System)
    ensures Enabling(SHARED, OFF_SECOND) && Enabling(Step(SHARED, OFF_SECOND), ON_AGAIN)
    ensures end == Step(Step(SHARED, OFF_SECOND), ON_AGAIN) && end.store == map[MODULE := Row(false, 2)]
    ensures end.replicas[0].Get(MODULE) && end.replicas[0].touched == map[MODULE := 1]
  {
    end := Step(Step(SHARED, OFF_SECOND), ON_AGAIN);
    assert Step(SHARED, OFF_SECOND).store == map[MODULE := Row(false, 2)];
  }

  /** Not every decision survives. Replica 0 enables a module, replica 1 syncs and disables it, replica 0 enables it
      again while it still reads as enabled there, and its next sync undoes that by a row older than the decision. */
  lemma UnchangedDecisionIsOverridden()
    ensures var ops := [ON_FIRST, OBSERVE] + ([OFF_SECOND, ON_AGAIN] + []);
            && Legal(PAIR, ops) && Lists([ROW_OFF], Run(PAIR, ops).store)
            && var r := Run(PAIR, ops).replicas[0]; r.Get(MODULE) && !SyncAll(r, [ROW_OFF]).Get(MODULE)
  {
    ModuleIsShared();
    var end := DecisionsCross();
    RunTwo(SHARED, OFF_SECOND, ON_AGAIN, []);
    RunTwo(PAIR, ON_FIRST, OBSERVE, [OFF_SECOND, ON_AGAIN] + []);
    ListsOne(ROW_OFF);
    SyncOne(end.replicas[0], ROW_OFF);
  }

  // Convergence -------------------------------------------------------------

  /** A sync of any replica keeps the store and the convergence of every replica. */
  lemma {:induction false} SyncRound(s: System, ops: seq<Op>, j: nat)
    requires Inv(s) && Legal(s, ops) && j < |s.replicas|
    requires forall k :: 0 <= k < |ops| ==> ops[k].Sync? && ops[k].i < |s.replicas|
    requires Converged(s, s.replicas[j]) || exists k :: 0 <= k < |ops| && ops[k].i == j
    ensures Run(s, ops).store == s.store && Converged(s, Run(s, ops).replicas[j])
    decreases |ops|
  {
    if ops != [] {
      var s' := Step(s, ops[0]);
      StepKeepsInv(s, ops[0]);
      assert ReplicaOk(s, s.replicas[j]);
      if ops[0].i == j {
        SyncConverges(s, s.replicas[j], ops[0].rows);
      } else if !Converged(s, s.replicas[j]) {
        var k :| 0 <= k < |ops| && ops[k].i == j;
        assert ops[1..][k - 1].i == j;
      }
      assert Converged(s, s'.replicas[j]) <==> Converged(s', s'.replicas[j]);
      SyncRound(s', ops[1..], j);
    }
  }

  /** In every run of local decisions and syncs from fresh replicas: once the last decision is made, a round of
      syncs that reaches every replica leaves each equal to the store on every flag stored. */
  lemma FlagsConverge(s: System, ops: seq<Op>, round: seq<Op>, j: nat)
    requires forall i :: 0 <= i < |s.replicas| ==> s.replicas[i].touched == map[]
    requires Legal(s, ops) && (forall k :: 0 <= k < |ops| ==> ops[k].i < |s.replicas|)
    requires Legal(Run(s, ops), round) && (forall k :: 0 <= k < |round| ==> round[k].Sync? && round[k].i < |s.replicas|)
    requires j < |s.replicas| && exists k :: 0 <= k < |round| && round[k].i == j
    ensures var end := Run(Run(s, ops), round);
            end.store == Run(s, ops).store && Converged(end, end.replicas[j])
  {
    forall i | 0 <= i < |s.replicas|
      ensures ReplicaOk(s, s.replicas[i])
    {
    }
    RunKeepsInv(s, ops);
    SyncRound(Run(s, ops), round, j);
  }
}
