/** The order ledger: the lifecycle of one order, and the bounded mirror made of an id map, an
    idempotency index and a FIFO. */
module Orders {
  import opened Common

  // Lifecycle ---------------------------------------------------------------

  datatype Status =
    | Created | Validated | Queued | Submitted | Accepted | PartiallyFilled
    | Filled | Failed | Cancelled | Expired | Unknown | Reconciled

  predicate IsTerminal(s: Status) {
    s.Filled? || s.Failed? || s.Cancelled? || s.Expired? || s.Reconciled?
  }

  predicate Aborted(s: Status) { s.Failed? || s.Cancelled? || s.Expired? }

  predicate CanTransition(from: Status, to: Status) {
    if IsTerminal(from) then false
    else if from.Unknown? then IsTerminal(to)
    else if to.Unknown? then true
    else
      match from
      case Created => to.Validated? || to.Queued? || to.Submitted? || Aborted(to) || to.Reconciled?
      case Validated => to.Queued? || to.Submitted? || Aborted(to) || to.Reconciled?
      case Queued => to.Submitted? || Aborted(to) || to.Reconciled?
      case Submitted => to.Accepted? || to.PartiallyFilled? || to.Filled? || Aborted(to) || to.Reconciled?
      case Accepted => to.PartiallyFilled? || to.Filled? || Aborted(to) || to.Reconciled?
      case PartiallyFilled => to.PartiallyFilled? || to.Filled? || Aborted(to) || to.Reconciled?
      case _ => false
  }

  /** Stable ids: creation millisecond and process counter. */
  datatype OrderId = OrderId(millis: int, n: nat)

  datatype Order = Order(id: OrderId, key: string, status: Status, error: Option<string>, createdAt: int,
                         updatedAt: int, submittedAt: Option<int>, finishedAt: Option<int>)

  /** The effect of a legal transition on the order. */
  function Moved(o: Order, to: Status, reason: Option<string>, now: int): (r: Order) {
    o.(status := to, updatedAt := now,
       submittedAt := if to.Submitted? && o.submittedAt.None? then Some(now) else o.submittedAt,
       finishedAt := if IsTerminal(to) then Some(now) else o.finishedAt,
       error := if reason.Some? && to.Failed? then reason else o.error)
  }

  function NewOrder(id: OrderId, key: string, now: int): Order {
    Order(id, key, Created, None, now, now, None, None)
  }

  datatype Move = Move(to: Status, reason: Option<string>, now: int)

  /** An illegal move is refused and leaves the order as it is. */
  function Next(o: Order, m: Move): Order {
    if CanTransition(o.status, m.to) then Moved(o, m.to, m.reason, m.now) else o
  }

  /** The states an order passes through. */
  function History(o: Order, moves: seq<Move>): (h: seq<Order>)
    ensures |h| > 0 && h[0] == o
    decreases |moves|
  {
    if moves == [] then [o]
    else [o] + History(Next(o, moves[0]), moves[1..])
  }

  function Rank(s: Status): nat {
    match s
    case Created => 0
    case Validated => 1
    case Queued => 2
    case Submitted => 3
    case Accepted => 4
    case PartiallyFilled => 5
    case Unknown => 6
    case _ => 7
  }

  /** A legal move climbs the rank, except for one more partial fill. */
  lemma LegalMovesClimb(from: Status, to: Status)
    requires CanTransition(from, to)
    ensures Rank(from) < Rank(to) || from == to == PartiallyFilled
  {
  }

  /** What holds of an order at every point of its life. */
  predicate OrderOk(o: Order) {
    && (o.finishedAt.Some? <==> IsTerminal(o.status))
    && (o.status.Submitted? || o.status.Accepted? || o.status.PartiallyFilled? ==> o.submittedAt.Some?)
    && (Rank(o.status) < 3 ==> o.submittedAt.None?)
  }

  lemma MoveKeepsOk(o: Order, m: Move)
    requires OrderOk(o) && CanTransition(o.status, m.to)
    ensures OrderOk(Moved(o, m.to, m.reason, m.now))
  {
  }

  /** One step of a history. */
  ghost predicate Advances(a: Order, b: Order) {
    || a == b
    || (&& !IsTerminal(a.status)
        && (Rank(a.status) < Rank(b.status) || a.status == b.status == PartiallyFilled)
        && (a.submittedAt.Some? ==> b.submittedAt == a.submittedAt)
        && b.id == a.id && b.key == a.key && b.createdAt == a.createdAt)
  }

  lemma {:induction false} HistoryAdvances(o: Order, moves: seq<Move>, i: nat)
    requires OrderOk(o) && i < |History(o, moves)|
    ensures OrderOk(History(o, moves)[i])
    ensures i + 1 < |History(o, moves)| ==> Advances(History(o, moves)[i], History(o, moves)[i + 1])
    decreases |moves|
  {
    if moves != [] {
      var m := moves[0];
      var next := Next(o, m);
      if CanTransition(o.status, m.to) {
        LegalMovesClimb(o.status, m.to);
        MoveKeepsOk(o, m);
      }
      assert History(o, moves) == [o] + History(next, moves[1..]);
      if i > 0 {
        HistoryAdvances(next, moves[1..], i - 1);
      }
    }
  }

  /** In every history an order never goes back: ranks do not fall, a terminal order never changes again, and a
      submission stamp once set stays. */
  lemma {:induction false} HistoryIsForward(o: Order, moves: seq<Move>, i: nat, j: nat)
    requires OrderOk(o) && i <= j < |History(o, moves)|
    ensures var h := History(o, moves);
            && Rank(h[i].status) <= Rank(h[j].status)
            && (IsTerminal(h[i].status) ==> h[j] == h[i])
            && (h[i].submittedAt.Some? ==> h[j].submittedAt == h[i].submittedAt)
            && h[j].id == h[i].id && h[j].key == h[i].key
    decreases j
  {
    if i < j {
      HistoryIsForward(o, moves, i, j - 1);
      HistoryAdvances(o, moves, j - 1);
    }
  }

  /** An order that is Filled has been Submitted or Unknown before. */
  lemma {:induction false} FilledWasSubmittedOrUnknown(key: string, id: OrderId, now: int, moves: seq<Move>, j: nat)
    returns (i: nat)
    requires j < |History(NewOrder(id, key, now), moves)| && History(NewOrder(id, key, now), moves)[j].status.Filled?
    ensures i < j && var s := History(NewOrder(id, key, now), moves)[i].status; s.Submitted? || s.Unknown?
  {
    i := FirstAtOrAbove(NewOrder(id, key, now), moves, j);
  }

  lemma EarlyMove(from: Status, to: Status)
    requires Rank(from) < 3 && (from == to || CanTransition(from, to))
    ensures to.Submitted? || to.Unknown? || IsTerminal(to) || Rank(to) < 3
    ensures !IsTerminal(from) && !from.Submitted? && !from.Unknown?
  {
  }

  lemma HistoryTail(o: Order, moves: seq<Move>)
    requires moves != []
    ensures History(o, moves) == [o] + History(Next(o, moves[0]), moves[1..])
    ensures Next(o, moves[0]).status == o.status || CanTransition(o.status, Next(o, moves[0]).status)
  {
  }

  /** The first state past Queued that is not an abort or a reconciliation is Submitted or Unknown. */
  lemma {:induction false} FirstAtOrAbove(o: Order, moves: seq<Move>, j: nat) returns (i: nat)
    requires Rank(o.status) < 3 && j < |History(o, moves)|
    requires var s := History(o, moves)[j].status; s.Accepted? || s.PartiallyFilled? || s.Filled?
    ensures i < j && (History(o, moves)[i].status.Submitted? || History(o, moves)[i].status.Unknown?)
    decreases |moves|
  {
    assert moves != [] && j > 0;
    var next, rest := Next(o, moves[0]), moves[1..];
    HistoryTail(o, moves);
    EarlyMove(o.status, next.status);
    if IsTerminal(next.status) {
      TerminalStays(next, rest, j - 1);
    }
    if next.status.Submitted? || next.status.Unknown? {
      i := 1;
    } else {
      i := FirstAtOrAbove(next, rest, j - 1);
      i := i + 1;
    }
  }

  lemma {:induction false} TerminalStays(o: Order, moves: seq<Move>, j: nat)
    requires IsTerminal(o.status) && j < |History(o, moves)|
    ensures History(o, moves)[j] == o
    decreases |moves|
  {
    if moves != [] && j > 0 {
      TerminalStays(o, moves[1..], j - 1);
    }
  }

  // Eviction ----------------------------------------------------------------

  /** The FIFO after evicting up to `excess` terminal entries, oldest first. */
  function Kept(fifo: seq<OrderId>, terminal: set<OrderId>, excess: int): (r: seq<OrderId>) {
    if excess <= 0 || fifo == [] then fifo
    else if fifo[0] in terminal then Kept(fifo[1..], terminal, excess - 1)
    else [fifo[0]] + Kept(fifo[1..], terminal, excess)
  }

  function Live(fifo: seq<OrderId>, terminal: set<OrderId>): (r: seq<OrderId>) {
    if fifo == [] then []
    else (if fifo[0] in terminal then [] else [fifo[0]]) + Live(fifo[1..], terminal)
  }

  /** What eviction leaves: a prefix of the FIFO loses its terminal entries, the rest is untouched. So live
      entries stay and terminal ones leave oldest first. */
  lemma {:induction false} KeptShape(fifo: seq<OrderId>, terminal: set<OrderId>, excess: int) returns (n: nat)
    ensures n <= |fifo| && Kept(fifo, terminal, excess) == Live(fifo[..n], terminal) + fifo[n..]
  {
    if excess <= 0 || fifo == [] {
      n := 0;
    } else {
      var rest := fifo[1..];
      var k := KeptShape(rest, terminal, if fifo[0] in terminal then excess - 1 else excess);
      n := k + 1;
      assert fifo[..n][0] == fifo[0] && fifo[..n][1..] == rest[..k];
      assert fifo[n..] == rest[k..];
    }
  }

  /** No more entries leave than asked, and fewer only if every entry left is live. */
  lemma {:induction false} KeptSize(fifo: seq<OrderId>, terminal: set<OrderId>, excess: int)
    ensures |Kept(fifo, terminal, excess)| <= |fifo|
    ensures excess >= 0 ==> |Kept(fifo, terminal, excess)| >= |fifo| - excess
    ensures |Kept(fifo, terminal, excess)| <= |fifo| - excess
            || (forall x :: x in Kept(fifo, terminal, excess) ==> x !in terminal)
  {
    if !(excess <= 0 || fifo == []) {
      KeptSize(fifo[1..], terminal, if fifo[0] in terminal then excess - 1 else excess);
    }
  }

  lemma {:induction false} KeptMembers(fifo: seq<OrderId>, terminal: set<OrderId>, excess: int)
    requires NoDuplicates(fifo)
    ensures NoDuplicates(Kept(fifo, terminal, excess))
    ensures forall x :: x in Kept(fifo, terminal, excess) ==> x in fifo
    ensures forall x :: x in fifo && x !in terminal ==> x in Kept(fifo, terminal, excess)
  {
    if !(excess <= 0 || fifo == []) {
      KeptMembers(fifo[1..], terminal, if fifo[0] in terminal then excess - 1 else excess);
    }
  }

  /** Evicting the oldest terminal entry is one step of `Kept`. */
  lemma {:induction false} KeptStep(fifo: seq<OrderId>, terminal: set<OrderId>, excess: int, pos: nat)
    requires excess > 0 && pos < |fifo| && fifo[pos] in terminal
    requires forall i :: 0 <= i < pos ==> fifo[i] !in terminal
    ensures Kept(fifo, terminal, excess) == Kept(fifo[..pos] + fifo[pos + 1..], terminal, excess - 1)
  {
    var next := fifo[..pos] + fifo[pos + 1..];
    if pos == 0 {
      assert next == fifo[1..];
    } else {
      KeptStep(fifo[1..], terminal, excess, pos - 1);
      var rest := fifo[1..];
      assert next[1..] == rest[..pos - 1] + rest[pos..];
      KeptPrefix(next, terminal, excess - 1);
    }
  }

  lemma KeptPrefix(fifo: seq<OrderId>, terminal: set<OrderId>, excess: int)
    requires fifo != [] && fifo[0] !in terminal
    ensures Kept(fifo, terminal, excess) == [fifo[0]] + Kept(fifo[1..], terminal, excess)
  {
  }

  lemma {:induction false} KeptNone(fifo: seq<OrderId>, terminal: set<OrderId>, excess: int)
    requires forall i :: 0 <= i < |fifo| ==> fifo[i] !in terminal
    ensures Kept(fifo, terminal, excess) == fifo
  {
    if !(excess <= 0 || fifo == []) {
      KeptNone(fifo[1..], terminal, excess);
    }
  }

  // The mirror --------------------------------------------------------------

  datatype Mirror = Mirror(orders: map<OrderId, Order>, byIdem: map<string, OrderId>, fifo: seq<OrderId>)

  ghost predicate Indexed(m: Mirror, id: OrderId)
    requires id in m.orders
  {
    m.orders[id].id == id && m.orders[id].key in m.byIdem && m.byIdem[m.orders[id].key] == id
  }

  /** The three structures describe exactly the same orders, each once, each found by its key. */
  ghost predicate Consistent(m: Mirror) {
    && NoDuplicates(m.fifo)
    && (forall id :: id in m.fifo <==> id in m.orders)
    && (forall id :: id in m.orders ==> Indexed(m, id))
    && (forall k :: k in m.byIdem ==> m.byIdem[k] in m.orders && m.orders[m.byIdem[k]].key == k)
  }

  /** An order the mirror can take: its key is its own. This is what a unique key column guarantees. */
  ghost predicate Fits(m: Mirror, o: Order) {
    forall id :: id in m.orders ==> (m.orders[id].key == o.key <==> id == o.id)
  }

  function TerminalIds(orders: map<OrderId, Order>): set<OrderId> {
    set id | id in orders && IsTerminal(orders[id].status)
  }

  function Restrict(orders: map<OrderId, Order>, keep: seq<OrderId>): map<OrderId, Order> {
    map id | id in orders && id in keep :: orders[id]
  }

  function RestrictIndex(byIdem: map<string, OrderId>, keep: seq<OrderId>): map<string, OrderId> {
    map k | k in byIdem && byIdem[k] in keep :: byIdem[k]
  }

  /** Before any eviction. */
  function Added(m: Mirror, o: Order): (r: Mirror) {
    Mirror(m.orders[o.id := o], m.byIdem[o.key := o.id], if o.id in m.orders then m.fifo else m.fifo + [o.id])
  }

  function Bounded(m: Mirror, cap: nat): (r: Mirror) {
    var keep := Kept(m.fifo, TerminalIds(m.orders), |m.fifo| - cap);
    Mirror(Restrict(m.orders, keep), RestrictIndex(m.byIdem, keep), keep)
  }

  lemma AddKeepsConsistent(m: Mirror, o: Order)
    requires Consistent(m) && Fits(m, o)
    ensures Consistent(Added(m, o))
  {
  }

  /** The condition is exact: inserting an order whose key another one holds, or an order under a new key, leaves
      the index at odds with the orders. */
  lemma AddKeepsConsistentIff(m: Mirror, o: Order)
    requires Consistent(m)
    ensures Consistent(Added(m, o)) <==> Fits(m, o)
  {
    if Fits(m, o) {
      AddKeepsConsistent(m, o);
    } else {
      var id :| id in m.orders && !(m.orders[id].key == o.key <==> id == o.id);
      var a := Added(m, o);
      assert Indexed(m, id);
      if id == o.id {
        assert m.orders[id].key in a.byIdem;
      } else {
        assert id in a.orders && !Indexed(a, id);
      }
    }
  }

  lemma RestrictKeepsConsistent(m: Mirror, keep: seq<OrderId>)
    requires Consistent(m) && NoDuplicates(keep) && forall x :: x in keep ==> x in m.fifo
    ensures Consistent(Mirror(Restrict(m.orders, keep), RestrictIndex(m.byIdem, keep), keep))
  {
  }

  lemma BoundKeepsConsistent(a: Mirror, cap: nat)
    requires Consistent(a)
    ensures Consistent(Bounded(a, cap))
    ensures forall id :: id in Bounded(a, cap).fifo ==> id in a.fifo
    ensures forall id :: id in a.fifo && id !in TerminalIds(a.orders) ==> id in Bounded(a, cap).fifo
  {
    KeptMembers(a.fifo, TerminalIds(a.orders), |a.fifo| - cap);
    RestrictKeepsConsistent(a, Kept(a.fifo, TerminalIds(a.orders), |a.fifo| - cap));
  }

  lemma BoundedSize(a: Mirror, cap: nat)
    requires Consistent(a)
    ensures var r := Bounded(a, cap);
            |r.fifo| <= cap || forall id :: id in r.orders ==> !IsTerminal(r.orders[id].status)
  {
    KeptSize(a.fifo, TerminalIds(a.orders), |a.fifo| - cap);
  }

  /** After every insertion the three structures agree, every live order is still there, and the size is within
      the cap unless every order left is live. Nothing kept is altered. */
  lemma InsertionIsSound(m: Mirror, o: Order, cap: nat)
    requires Consistent(m) && Fits(m, o)
    ensures var a := Added(m, o); var r := Bounded(a, cap);
            && Consistent(r) && |r.orders| == |r.fifo|
            && (forall id :: id in a.orders && !IsTerminal(a.orders[id].status) ==> id in r.orders)
            && (forall id :: id in r.orders ==> id in a.orders && r.orders[id] == a.orders[id])
            && (|r.fifo| <= cap || forall id :: id in r.orders ==> !IsTerminal(r.orders[id].status))
  {
    AddKeepsConsistent(m, o);
    BoundKeepsConsistent(Added(m, o), cap);
    BoundedSize(Added(m, o), cap);
    SizeOfMap(Bounded(Added(m, o), cap));
  }

  /** Eviction goes no further than the cap, and a finished order stays where an older finished one does. */
  lemma EvictionIsLeast(a: Mirror, cap: nat, i: nat, j: nat)
    requires Consistent(a) && i < j < |a.fifo|
    ensures var r := Bounded(a, cap);
            && (|a.fifo| <= cap ==> r == a) && (|a.fifo| > cap ==> |r.fifo| >= cap)
            && (a.fifo[i] in r.orders && a.fifo[i] in TerminalIds(a.orders) ==> a.fifo[j] in r.orders)
  {
    var terminal, excess := TerminalIds(a.orders), |a.fifo| - cap;
    KeptSize(a.fifo, terminal, excess);
    if excess <= 0 {
      RestrictAll(a);
    } else {
      var n := KeptShape(a.fifo, terminal, excess);
      if a.fifo[i] in terminal && a.fifo[i] in Bounded(a, cap).orders {
        OlderStays(a.fifo, terminal, n, i, j);
      }
    }
  }

  lemma OlderStays(fifo: seq<OrderId>, terminal: set<OrderId>, n: nat, i: nat, j: nat)
    requires NoDuplicates(fifo) && n <= |fifo| && i < j < |fifo| && fifo[i] in terminal
    requires fifo[i] in Live(fifo[..n], terminal) + fifo[n..]
    ensures fifo[j] in Live(fifo[..n], terminal) + fifo[n..]
  {
    LiveMembers(fifo[..n], terminal);
    assert fifo[i] in fifo[n..];
    var k :| 0 <= k < |fifo| - n && fifo[n..][k] == fifo[i];
    assert fifo[n + k] == fifo[i];
    assert fifo[n..][j - n] == fifo[j];
  }

  lemma {:induction false} LiveMembers(fifo: seq<OrderId>, terminal: set<OrderId>)
    ensures forall x :: x in Live(fifo, terminal) <==> x in fifo && x !in terminal
  {
    if fifo != [] {
      LiveMembers(fifo[1..], terminal);
    }
  }

  lemma SizeOfMap(m: Mirror)
    requires Consistent(m)
    ensures |m.orders| == |m.fifo|
  {
    DistinctSize(m.fifo);
    assert m.orders.Keys == set x | x in m.fifo;
  }

  lemma {:induction false} DistinctSize(s: seq<OrderId>)
    requires NoDuplicates(s)
    ensures |set x | x in s| == |s|
  {
    if s != [] {
      DistinctSize(s[1..]);
      assert (set x | x in s) == {s[0]} + (set x | x in s[1..]);
    }
  }

  // Operations on the mirror ------------------------------------------------

  datatype Error = InvalidArgument | NotFound
  datatype Result = Ok(order: Order) | Err(error: Error)

  predicate Blank(key: string) {
    forall i :: 0 <= i < |key| ==> IsSpace(key[i])
  }

  function ByKey(m: Mirror, key: string): Option<Order> {
    if key in m.byIdem && m.byIdem[key] in m.orders then Some(m.orders[m.byIdem[key]]) else None
  }

  function CreateStep(m: Mirror, counter: nat, key: string, now: int, cap: nat): (r: (Mirror, nat, Result)) {
    if Blank(key) then (m, counter, Err(InvalidArgument))
    else if ByKey(m, key).Some? then (m, counter, Ok(ByKey(m, key).value))
    else
      var o := NewOrder(OrderId(now, counter), key, now);
      (Bounded(Added(m, o), cap), counter + 1, Ok(o))
  }

  function TransitionStep(m: Mirror, id: OrderId, to: Status, reason: Option<string>, now: int): (r: (Mirror, Result)) {
    if id !in m.orders then (m, Err(NotFound))
    else if !CanTransition(m.orders[id].status, to) then (m, Err(InvalidArgument))
    else
      var o := Moved(m.orders[id], to, reason, now);
      (m.(orders := m.orders[id := o]), Ok(o))
  }

  /** The moves of a history are the transitions of the manager. */
  lemma NextIsTransition(m: Mirror, id: OrderId, move: Move)
    requires id in m.orders
    ensures TransitionStep(m, id, move.to, move.reason, move.now).0.orders[id] == Next(m.orders[id], move)
  {
  }

  // What the answers say ----------------------------------------------------

  /** A transition of a tracked order is granted exactly in these cases: from a live status, to an end by failure,
      cancellation, expiry or reconciliation; to Unknown from anything else; to Filled once it may have reached the
      venue; to a partial fill from the venue's states; to Accepted from Submitted; forward on the way out. */
  lemma TransitionGrantedIff(m: Mirror, id: OrderId, to: Status, reason: Option<string>, now: int)
    requires id in m.orders
    ensures var from := m.orders[id].status;
            TransitionStep(m, id, to, reason, now).1.Ok?
            <==> && from !in {Filled, Failed, Cancelled, Expired, Reconciled}
                 && (|| to in {Failed, Cancelled, Expired, Reconciled}
                     || (to == Unknown && from != Unknown)
                     || (to == Filled && from in {Submitted, Accepted, PartiallyFilled, Unknown})
                     || (to == PartiallyFilled && from in {Submitted, Accepted, PartiallyFilled})
                     || (to == Accepted && from == Submitted)
                     || (to == Submitted && from in {Created, Validated, Queued})
                     || (to == Queued && from in {Created, Validated})
                     || (to == Validated && from == Created))
  {
  }

  /** A granted transition moves this order and no other: it takes the status and the time, keeps a submission time it
      has and gains one on submission, gains a finishing time at an end, and takes the reason when it fails. A refused
      one says why and changes nothing. */
  lemma TransitionEffect(m: Mirror, id: OrderId, to: Status, reason: Option<string>, now: int)
    ensures var (m', r) := TransitionStep(m, id, to, reason, now);
            match r
            case Err(e) => m' == m && (e == NotFound <==> id !in m.orders)
            case Ok(o') =>
              var o := m.orders[id];
              && m'.orders.Keys == m.orders.Keys && m'.byIdem == m.byIdem && m'.fifo == m.fifo && m'.orders[id] == o'
              && (forall x :: x in m.orders && x != id ==> m'.orders[x] == m.orders[x])
              && o'.status == to && o'.updatedAt == now
              && o'.id == o.id && o'.key == o.key && o'.createdAt == o.createdAt
              && (o.submittedAt.Some? || to != Submitted ==> o'.submittedAt == o.submittedAt)
              && (o.submittedAt.None? && to == Submitted ==> o'.submittedAt == Some(now))
              && (to in {Filled, Failed, Cancelled, Expired, Reconciled} ==> o'.finishedAt == Some(now))
              && (to !in {Filled, Failed, Cancelled, Expired, Reconciled} ==> o'.finishedAt == o.finishedAt)
              && o'.error == if to == Failed && reason.Some? then reason else o.error
  {
  }

  /** A creation is refused exactly for a key of white space, answers a known key with its order, and gives any other
      a fresh live order under an id never used before. */
  lemma CreateAnswers(l: Ledger, key: string, now: int, cap: nat)
    requires Inv(l)
    ensures var (m, n, r) := CreateStep(l.m, l.counter, key, now, cap);
            if forall i :: 0 <= i < |key| ==> IsSpace(key[i]) then
              m == l.m && n == l.counter && r == Err(InvalidArgument)
            else if key in l.m.byIdem then m == l.m && r == Ok(l.m.orders[l.m.byIdem[key]])
            else
              && r.Ok? && n == l.counter + 1 && r.order.id !in l.archive && m == Bounded(Added(l.m, r.order), cap)
              && r.order == Order(r.order.id, key, Created, None, now, now, None, None)
  {
    if key in l.m.byIdem {
      assert l.m.byIdem[key] in l.m.orders;
    }
  }

  class OrderManager {
    const cap: nat
    var orders: map<OrderId, Order>
    var byIdem: map<string, OrderId>
    var fifo: seq<OrderId>
    var counter: nat

    function Value(): Mirror
      reads this
    {
      Mirror(orders, byIdem, fifo)
    }

    constructor (cap: nat)
      ensures Value() == Mirror(map[], map[], []) && counter == 0 && this.cap == if cap < 64 then 64 else cap
    {
      this.cap := if cap < 64 then 64 else cap;
      orders, byIdem, fifo, counter := map[], map[], [], 0;
    }

    method GetByKey(key: string) returns (found: Option<Order>)
      requires Consistent(Value())
      ensures found == ByKey(Value(), key)
    {
      if key !in byIdem {
        return None;
      }
      var id := byIdem[key];
      return if id in orders then Some(orders[id]) else None;
    }

    /** Creates an order, or returns the mirrored one for the same key. */
    method Create(key: string, now: int) returns (r: Result)
      requires Consistent(Value()) && forall id :: id in orders ==> id.n < counter
      modifies this
      ensures (Value(), counter, r) == CreateStep(old(Value()), old(counter), key, now, cap)
      ensures Consistent(Value())
    {
      if Blank(key) {
        return Err(InvalidArgument);
      }
      var existing := GetByKey(key);
      if existing.Some? {
        return Ok(existing.value);
      }
      var order := NewOrder(OrderId(now, counter), key, now);
      counter := counter + 1;
      InsertMirror(order);
      return Ok(order);
    }

    method Transition(id: OrderId, to: Status, reason: Option<string>, now: int) returns (r: Result)
      modifies this`orders
      ensures (Value(), r) == TransitionStep(old(Value()), id, to, reason, now)
    {
      if id !in orders {
        return Err(NotFound);
      }
      var order := orders[id];
      if !CanTransition(order.status, to) {
        return Err(InvalidArgument);
      }
      order := order.(status := to, updatedAt := now);
      if to == Submitted && order.submittedAt.None? {
        order := order.(submittedAt := Some(now));
      }
      if IsTerminal(to) {
        order := order.(finishedAt := Some(now));
      }
      if reason.Some? {
        order := order.(error := if to == Failed then reason else order.error);
      }
      orders := orders[id := order];
      return Ok(order);
    }

    method InsertMirror(order: Order)
      requires Consistent(Value()) && Fits(Value(), order)
      modifies this`orders, this`byIdem, this`fifo
      ensures Value() == Bounded(Added(old(Value()), order), cap)
      ensures Consistent(Value())
    {
      var isNew := order.id !in orders;
      byIdem := byIdem[order.key := order.id];
      orders := orders[order.id := order];
      if isNew {
        fifo := fifo + [order.id];
      }
      AddKeepsConsistent(old(Value()), order);
      assert Value() == Added(old(Value()), order);
      EvictOverflow();
    }

    /** Evicts the oldest terminal orders until within the cap or only live orders are left. */
    method EvictOverflow()
      requires Consistent(Value())
      modifies this`orders, this`byIdem, this`fifo
      ensures Value() == Bounded(old(Value()), cap) && Consistent(Value())
    {
      ghost var added := Value();
      RestrictAll(added);
      var done := false;
      while |fifo| > cap && !done
        invariant Evicting(added, Value(), cap)
        invariant done ==> forall i :: 0 <= i < |fifo| ==> fifo[i] !in TerminalIds(added.orders)
        decreases |fifo|, !done
      {
        var pos := FirstTerminal(added);
        if pos == |fifo| {
          done := true;
        } else {
          EvictAt(added, pos);
        }
      }
      EvictionEnds(added, Value(), cap);
      BoundKeepsConsistent(added, cap);
    }

    /** Drops the oldest terminal entry from all three structures. */
    method EvictAt(ghost added: Mirror, pos: nat)
      requires Consistent(added) && Evicting(added, Value(), cap) && |fifo| > cap && pos < |fifo|
      requires fifo[pos] in TerminalIds(added.orders)
      requires forall i :: 0 <= i < pos ==> fifo[i] !in TerminalIds(added.orders)
      modifies this`orders, this`byIdem, this`fifo
      ensures Evicting(added, Value(), cap) && fifo == old(fifo[..pos] + fifo[pos + 1..])
    {
      EvictOne(added, Value(), pos, cap);
      var evicted := fifo[pos];
      fifo := fifo[..pos] + fifo[pos + 1..];
      if evicted in orders {
        var removed := orders[evicted];
        orders := orders - {evicted};
        byIdem := byIdem - {removed.key};
      }
    }

    /** Position of the oldest terminal entry, or the length if there is none. */
    method FirstTerminal(ghost added: Mirror) returns (pos: nat)
      requires Consistent(added) && orders == Restrict(added.orders, fifo) && forall x :: x in fifo ==> x in added.fifo
      ensures pos <= |fifo| && (forall i :: 0 <= i < pos ==> fifo[i] !in TerminalIds(added.orders))
      ensures pos < |fifo| ==> fifo[pos] in TerminalIds(added.orders)
    {
      pos := 0;
      while pos < |fifo| && !(fifo[pos] !in orders || IsTerminal(orders[fifo[pos]].status))
        invariant 0 <= pos <= |fifo|
        invariant forall i :: 0 <= i < pos ==> fifo[i] !in TerminalIds(added.orders)
      {
        pos := pos + 1;
      }
      if pos < |fifo| {
        assert fifo[pos] in added.fifo;
      }
    }
  }

  lemma RestrictAll(m: Mirror)
    requires Consistent(m)
    ensures Restrict(m.orders, m.fifo) == m.orders && RestrictIndex(m.byIdem, m.fifo) == m.byIdem
  {
  }

  /** A state of the eviction loop: some entries gone, and the same end in sight. */
  ghost predicate Evicting(added: Mirror, m: Mirror, cap: nat) {
    && NoDuplicates(m.fifo) && (forall x :: x in m.fifo ==> x in added.fifo)
    && m.orders == Restrict(added.orders, m.fifo) && m.byIdem == RestrictIndex(added.byIdem, m.fifo)
    && Kept(m.fifo, TerminalIds(added.orders), |m.fifo| - cap)
       == Kept(added.fifo, TerminalIds(added.orders), |added.fifo| - cap)
  }

  lemma EvictionEnds(added: Mirror, m: Mirror, cap: nat)
    requires Evicting(added, m, cap)
    requires |m.fifo| <= cap || forall i :: 0 <= i < |m.fifo| ==> m.fifo[i] !in TerminalIds(added.orders)
    ensures m == Bounded(added, cap)
  {
    if |m.fifo| > cap {
      KeptNone(m.fifo, TerminalIds(added.orders), |m.fifo| - cap);
    }
    assert m.fifo == Kept(added.fifo, TerminalIds(added.orders), |added.fifo| - cap);
  }

  lemma EvictOne(added: Mirror, m: Mirror, pos: nat, cap: nat)
    requires Consistent(added) && Evicting(added, m, cap) && |m.fifo| > cap && pos < |m.fifo|
    requires m.fifo[pos] in TerminalIds(added.orders)
    requires forall i :: 0 <= i < pos ==> m.fifo[i] !in TerminalIds(added.orders)
    ensures m.fifo[pos] in m.orders
    ensures Evicting(added, Mirror(m.orders - {m.fifo[pos]}, m.byIdem - {m.orders[m.fifo[pos]].key},
                                   m.fifo[..pos] + m.fifo[pos + 1..]), cap)
  {
    var next, id := m.fifo[..pos] + m.fifo[pos + 1..], m.fifo[pos];
    KeptStep(m.fifo, TerminalIds(added.orders), |m.fifo| - cap, pos);
    EvictedShape(added, m, pos, next, id);
    StillEvicting(added, m, next, id, cap);
  }

  lemma EvictedShape(added: Mirror, m: Mirror, pos: nat, next: seq<OrderId>, id: OrderId)
    requires Consistent(added) && NoDuplicates(m.fifo) && (forall x :: x in m.fifo ==> x in added.fifo)
    requires m.orders == Restrict(added.orders, m.fifo) && m.byIdem == RestrictIndex(added.byIdem, m.fifo)
    requires pos < |m.fifo| && next == m.fifo[..pos] + m.fifo[pos + 1..] && id == m.fifo[pos]
    ensures id in m.orders && NoDuplicates(next) && |next| == |m.fifo| - 1 && (forall x :: x in next ==> x in m.fifo)
    ensures m.orders - {id} == Restrict(added.orders, next)
    ensures m.byIdem - {m.orders[id].key} == RestrictIndex(added.byIdem, next)
  {
    RemoveAt(m.fifo, pos);
    DropOne(added, m.fifo, next, id);
  }

  lemma StillEvicting(added: Mirror, m: Mirror, next: seq<OrderId>, id: OrderId, cap: nat)
    requires Evicting(added, m, cap) && id in m.orders && NoDuplicates(next) && |next| == |m.fifo| - 1
    requires forall x :: x in next ==> x in m.fifo
    requires m.orders - {id} == Restrict(added.orders, next)
    requires m.byIdem - {m.orders[id].key} == RestrictIndex(added.byIdem, next)
    requires Kept(m.fifo, TerminalIds(added.orders), |m.fifo| - cap)
             == Kept(next, TerminalIds(added.orders), |next| - cap)
    ensures Evicting(added, Mirror(m.orders - {id}, m.byIdem - {m.orders[id].key}, next), cap)
  {
  }

  /** Dropping one entry of the FIFO drops one order and one index entry. */
  lemma DropOne(m: Mirror, fifo: seq<OrderId>, next: seq<OrderId>, id: OrderId)
    requires Consistent(m) && id in fifo && (forall x :: x in fifo ==> x in m.fifo)
    requires forall x :: x in next <==> x in fifo && x != id
    ensures id in Restrict(m.orders, fifo)
    ensures Restrict(m.orders, fifo) - {id} == Restrict(m.orders, next)
    ensures RestrictIndex(m.byIdem, fifo) - {m.orders[id].key} == RestrictIndex(m.byIdem, next)
  {
  }

  lemma RemoveAt(s: seq<OrderId>, pos: nat)
    requires NoDuplicates(s) && pos < |s|
    ensures var r := s[..pos] + s[pos + 1..]; NoDuplicates(r) && forall x :: x in r <==> x in s && x != s[pos]
  {
  }

  // Sequential runs ---------------------------------------------------------

  datatype Op =
    | CreateOp(key: string, now: int)
    | TransitionOp(id: OrderId, to: Status, reason: Option<string>, now: int)

  /** The mirror, the id counter, and every order ever created in its latest state. */
  datatype Ledger = Ledger(m: Mirror, counter: nat, archive: map<OrderId, Order>)

  const EMPTY := Ledger(Mirror(map[], map[], []), 0, map[])

  function Step(l: Ledger, op: Op, cap: nat): (r: Ledger) {
    match op
    case CreateOp(key, now) =>
      var (m, counter, r) := CreateStep(l.m, l.counter, key, now, cap);
      Ledger(m, counter, if counter > l.counter && r.Ok? then l.archive[r.order.id := r.order] else l.archive)
    case TransitionOp(id, to, reason, now) =>
      var (m, r) := TransitionStep(l.m, id, to, reason, now);
      Ledger(m, l.counter, if r.Ok? then l.archive[id := r.order] else l.archive)
  }

  function Run(l: Ledger, ops: seq<Op>, cap: nat): (r: Ledger)
    decreases |ops|
  {
    if ops == [] then l else Run(Step(l, ops[0], cap), ops[1..], cap)
  }

  /** Orders the mirror has dropped were finished; the others are in it, in their latest state. */
  ghost predicate Inv(l: Ledger) {
    && Consistent(l.m)
    && (forall id :: id in l.m.orders ==> id in l.archive && l.archive[id] == l.m.orders[id])
    && (forall id :: id in l.archive ==>
          && l.archive[id].id == id && id.n < l.counter && OrderOk(l.archive[id])
          && (id in l.m.orders || IsTerminal(l.archive[id].status)))
  }

  lemma CreateKeepsInv(l: Ledger, key: string, now: int, cap: nat)
    requires Inv(l)
    ensures Inv(Step(l, CreateOp(key, now), cap))
  {
    if !Blank(key) && ByKey(l.m, key).None? {
      var o := NewOrder(OrderId(now, l.counter), key, now);
      assert Fits(l.m, o);
      FreshOrderKeepsInv(l, o, cap);
    }
  }

  lemma FreshOrderKeepsInv(l: Ledger, o: Order, cap: nat)
    requires Inv(l) && Fits(l.m, o) && o.id.n == l.counter && OrderOk(o) && o.status.Created?
    ensures Inv(Ledger(Bounded(Added(l.m, o), cap), l.counter + 1, l.archive[o.id := o]))
  {
    InsertionIsSound(l.m, o, cap);
    assert o.id in Added(l.m, o).orders && Added(l.m, o).orders[o.id] == o;
    ArchiveGrows(l, o, Bounded(Added(l.m, o), cap));
  }

  /** A mirror that gained the fresh order, lost only finished ones and altered none. */
  lemma ArchiveGrows(l: Ledger, o: Order, m: Mirror)
    requires Inv(l) && Consistent(m) && o.id.n == l.counter && OrderOk(o) && o.id in m.orders
    requires m.orders[o.id] == o
    requires forall id :: id in m.orders && id != o.id ==> id in l.m.orders && m.orders[id] == l.m.orders[id]
    requires forall id :: id in l.m.orders && !IsTerminal(l.m.orders[id].status) ==> id in m.orders
    ensures Inv(Ledger(m, l.counter + 1, l.archive[o.id := o]))
  {
  }

  lemma TransitionKeepsInv(l: Ledger, id: OrderId, to: Status, reason: Option<string>, now: int, cap: nat)
    requires Inv(l)
    ensures Inv(Step(l, TransitionOp(id, to, reason, now), cap))
  {
    if id in l.m.orders && CanTransition(l.m.orders[id].status, to) {
      MoveKeepsOk(l.m.orders[id], Move(to, reason, now));
    }
  }

  lemma {:induction false} RunKeepsInv(l: Ledger, ops: seq<Op>, cap: nat)
    requires Inv(l)
    ensures Inv(Run(l, ops, cap))
    decreases |ops|
  {
    if ops != [] {
      match ops[0] {
        case CreateOp(key, now) => CreateKeepsInv(l, key, now, cap);
        case TransitionOp(id, to, reason, now) => TransitionKeepsInv(l, id, to, reason, now, cap);
      }
      RunKeepsInv(Step(l, ops[0], cap), ops[1..], cap);
    }
  }

  /** Ids in the sequence they were created in. */
  ghost predicate ByAge(fifo: seq<OrderId>) {
    forall i, j :: 0 <= i < j < |fifo| ==> fifo[i].n < fifo[j].n
  }

  lemma {:induction false} KeptByAge(fifo: seq<OrderId>, terminal: set<OrderId>, excess: int)
    requires ByAge(fifo)
    ensures ByAge(Kept(fifo, terminal, excess))
    ensures forall x :: x in Kept(fifo, terminal, excess) ==> x in fifo
  {
    if excess > 0 && fifo != [] {
      var rest := Kept(fifo[1..], terminal, if fifo[0] in terminal then excess - 1 else excess);
      KeptByAge(fifo[1..], terminal, if fifo[0] in terminal then excess - 1 else excess);
      forall i | 0 <= i < |rest| ensures fifo[0].n < rest[i].n {
        assert rest[i] in fifo[1..];
      }
    }
  }

  lemma YoungestGoesLast(m: Mirror, o: Order, cap: nat)
    requires Consistent(m) && ByAge(m.fifo) && o.id !in m.orders && forall id :: id in m.orders ==> id.n < o.id.n
    ensures ByAge(Bounded(Added(m, o), cap).fifo)
  {
    var a := Added(m, o);
    forall i | 0 <= i < |m.fifo| ensures a.fifo[i].n < o.id.n {
      assert m.fifo[i] in m.fifo;
    }
    KeptByAge(a.fifo, TerminalIds(a.orders), |a.fifo| - cap);
  }

  lemma CreateKeepsByAge(l: Ledger, key: string, now: int, cap: nat)
    requires Inv(l) && ByAge(l.m.fifo)
    ensures ByAge(Step(l, CreateOp(key, now), cap).m.fifo)
  {
    YoungestGoesLast(l.m, NewOrder(OrderId(now, l.counter), key, now), cap);
  }

  /** In every sequential run the FIFO lists the orders by age, so what eviction drops first is oldest. */
  lemma {:induction false} RunKeepsByAge(l: Ledger, ops: seq<Op>, cap: nat)
    requires Inv(l) && ByAge(l.m.fifo)
    ensures ByAge(Run(l, ops, cap).m.fifo)
    decreases |ops|
  {
    if ops != [] {
      match ops[0] {
        case CreateOp(key, now) =>
          CreateKeepsInv(l, key, now, cap);
          CreateKeepsByAge(l, key, now, cap);
        case TransitionOp(id, to, reason, now) => TransitionKeepsInv(l, id, to, reason, now, cap);
      }
      RunKeepsByAge(Step(l, ops[0], cap), ops[1..], cap);
    }
  }

  /** Creating twice with one key gives one order: the repeat changes nothing and returns the first. */
  lemma CreateIsIdempotent(l: Ledger, key: string, now: int, later: int, cap: nat)
    requires Inv(l)
    ensures var (m, n, r) := CreateStep(l.m, l.counter, key, now, cap);
            r.Ok? ==> CreateStep(m, n, key, later, cap) == (m, n, r) && r.order.key == key
  {
    if !Blank(key) && ByKey(l.m, key).None? {
      var o := NewOrder(OrderId(now, l.counter), key, now);
      assert Fits(l.m, o);
      InsertionIsSound(l.m, o, cap);
      FreshIsFound(Bounded(Added(l.m, o), cap), o);
    }
  }

  lemma FreshIsFound(m: Mirror, o: Order)
    requires Consistent(m)
    ensures o.id in m.orders && m.orders[o.id] == o ==> ByKey(m, o.key) == Some(o)
  {
  }

  /** In every sequential run, among all orders ever created at most one per idempotency key is live, and it is
      the one the ledger returns for that key. */
  lemma OneLiveOrderPerKey(ops: seq<Op>, cap: nat, id: OrderId)
    requires id in Run(EMPTY, ops, cap).archive && !IsTerminal(Run(EMPTY, ops, cap).archive[id].status)
    ensures var l := Run(EMPTY, ops, cap); var o := l.archive[id];
            && ByKey(l.m, o.key) == Some(o)
            && forall other :: other in l.archive && l.archive[other].key == o.key ==>
                 other == id || IsTerminal(l.archive[other].status)
  {
    RunKeepsInv(EMPTY, ops, cap);
  }
}
