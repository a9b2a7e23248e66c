/** Cooldown maps: the last time something happened per key, pruned on every insert. Times are milliseconds. */
module Cooldowns {
  import opened Common

  type Stamps = map<string, int>

  /** How long an entry is kept, in seconds: the cooldown, or ten minutes without one, and at least a minute. */
  function Ttl(cooldown: int): (ttl: int)
    ensures ttl >= 60 && ttl >= cooldown
  {
    var ttl := if cooldown > 0 then cooldown else 600;
    if ttl < 60 then 60 else ttl
  }

  /** The entries young enough to keep. */
  function Recent(m: Stamps, now: int, cooldown: int): (r: Stamps) {
    map k | k in m && m[k] >= now - Ttl(cooldown) * 1000 :: m[k]
  }

  ghost predicate Subset(a: Stamps, b: Stamps) {
    forall k :: k in a ==> k in b && b[k] == a[k]
  }

  /** What pruning may leave. Equal stamps leave a choice; otherwise only the oldest go, and only past the cap. */
  ghost predicate Pruned(m: Stamps, m': Stamps, now: int, cooldown: int, cap: nat) {
    var recent := Recent(m, now, cooldown);
    && Subset(m', recent)
    && (if |recent| <= AtLeastOne(cap) then m' == recent else |m'| == AtLeastOne(cap))
    && forall k, j :: k in recent && k !in m' && j in m' ==> recent[k] <= m'[j]
  }

  datatype Entry = Entry(key: string, at: int)

  ghost predicate Ascending(es: seq<Entry>) {
    forall i, j :: 0 <= i < j < |es| ==> es[i].at <= es[j].at
  }

  ghost predicate DistinctKeys(es: seq<Entry>) {
    forall i, j :: 0 <= i < j < |es| ==> es[i].key != es[j].key
  }

  /** The entries are those of the map. */
  ghost predicate Lists(es: seq<Entry>, m: Stamps) {
    forall e :: e in es <==> e.key in m && m[e.key] == e.at
  }

  /** The position of a new entry in an ascending list. */
  function Slot(es: seq<Entry>, at: int): (p: nat)
    ensures p <= |es| && (forall i :: 0 <= i < p ==> es[i].at <= at) && (p < |es| ==> at < es[p].at)
  {
    if es == [] || at < es[0].at then 0 else 1 + Slot(es[1..], at)
  }

  lemma InsertKeepsAscending(es: seq<Entry>, e: Entry, p: nat)
    requires Ascending(es) && p == Slot(es, e.at)
    ensures Ascending(es[..p] + [e] + es[p..])
  {
  }

  lemma InsertKeepsListing(es: seq<Entry>, m: Stamps, e: Entry, p: nat)
    requires Lists(es, m) && DistinctKeys(es) && e.key !in m && p <= |es|
    ensures Lists(es[..p] + [e] + es[p..], m[e.key := e.at]) && DistinctKeys(es[..p] + [e] + es[p..])
  {
  }

  lemma {:induction false} ListSize(es: seq<Entry>, m: Stamps)
    requires Lists(es, m) && DistinctKeys(es)
    ensures |es| == |m|
  {
    assert forall k :: k in m ==> Entry(k, m[k]) in es;
    if es == [] {
      assert m.Keys == {};
    } else {
      var init, last := es[..|es| - 1], es[|es| - 1];
      assert last in es && es == init + [last];
      var m' := m - {last.key};
      DropLast(init, last, m);
      ListSize(init, m');
      assert m.Keys == m'.Keys + {last.key};
    }
  }

  lemma DropLast(init: seq<Entry>, last: Entry, m: Stamps)
    requires Lists(init + [last], m) && DistinctKeys(init + [last])
    ensures Lists(init, m - {last.key}) && DistinctKeys(init)
  {
    var es := init + [last];
    forall i | 0 <= i < |init|
      ensures init[i].key != last.key
    {
      assert es[i] == init[i] && es[|init|] == last;
    }
    forall i, j | 0 <= i < j < |init|
      ensures init[i].key != init[j].key
    {
      assert es[i] == init[i] && es[j] == init[j];
    }
    forall e | e in init
      ensures e.key in m && m[e.key] == e.at
    {
      assert e in es;
    }
    forall e: Entry | e.key in m - {last.key} && m[e.key] == e.at
      ensures e in init
    {
      assert e in es;
    }
  }

  method SortedEntries(m: Stamps) returns (es: seq<Entry>)
    ensures Lists(es, m) && DistinctKeys(es) && Ascending(es)
  {
    es := [];
    var todo := m.Keys;
    ghost var done: Stamps := map[];
    while todo != {}
      invariant todo <= m.Keys && done == m - todo && Lists(es, done) && DistinctKeys(es) && Ascending(es)
      decreases |todo|
    {
      var k :| k in todo;
      var e := Entry(k, m[k]);
      var p := Slot(es, e.at);
      InsertKeepsAscending(es, e, p);
      InsertKeepsListing(es, done, e, p);
      es := es[..p] + [e] + es[p..];
      done := done[k := m[k]];
      todo := todo - {k};
    }
    assert done == m;
  }

  /** The map of the entries from position `skip` on. */
  method Reinsert(es: seq<Entry>, skip: nat) returns (r: Stamps)
    requires DistinctKeys(es) && skip <= |es|
    ensures Lists(es[skip..], r)
  {
    r := map[];
    for i := skip to |es|
      invariant Lists(es[skip..i], r)
    {
      assert es[skip..i + 1] == es[skip..i] + [es[i]];
      forall e | e in es[skip..i]
        ensures e.key != es[i].key
      {
        var j :| 0 <= j < i - skip && es[skip..i][j] == e;
        assert es[skip + j] == e;
      }
      r := r[es[i].key := es[i].at];
    }
    assert es[skip..|es|] == es[skip..];
  }

  /** Drops expired entries, then the oldest ones past the cap. */
  method PruneTimestamps(m: Stamps, now: int, cooldown: int, capArg: nat) returns (r: Stamps)
    ensures Pruned(m, r, now, cooldown, capArg)
  {
    var ttl := if cooldown > 0 then cooldown else 600;
    ttl := if ttl < 60 then 60 else ttl;
    var cutoff := now - ttl * 1000;
    r := map k | k in m && m[k] >= cutoff :: m[k];
    var cap := if capArg < 1 then 1 else capArg;
    if |r| > cap {
      var entries := SortedEntries(r);
      ListSize(entries, r);
      var skip := |entries| - cap;
      ghost var recent := r;
      r := Reinsert(entries, skip);
      KeptAreNewest(entries, recent, skip, r);
    }
  }

  lemma KeptAreNewest(es: seq<Entry>, m: Stamps, skip: nat, r: Stamps)
    requires Lists(es, m) && DistinctKeys(es) && Ascending(es) && skip <= |es| && Lists(es[skip..], r)
    ensures Subset(r, m) && |r| == |es| - skip
    ensures forall k, j :: k in m && k !in r && j in r ==> m[k] <= r[j]
  {
    ListSize(es[skip..], r);
    forall k | k in r
      ensures k in m && m[k] == r[k]
    {
      assert Entry(k, r[k]) in es[skip..];
      assert Entry(k, r[k]) in es;
    }
    forall k, j | k in m && k !in r && j in r
      ensures m[k] <= r[j]
    {
      assert Entry(k, m[k]) in es && Entry(j, r[j]) in es[skip..];
      var a :| 0 <= a < |es| && es[a] == Entry(k, m[k]);
      var b :| 0 <= b < |es| - skip && es[skip..][b] == Entry(j, r[j]);
      assert a < skip;
      assert es[a].at <= es[skip + b].at;
    }
  }

  // The gate ----------------------------------------------------------------

  /** Whole seconds of a duration, toward zero. */
  function WholeSeconds(ms: int): int {
    if ms >= 0 then ms / 1000 else -((-ms) / 1000)
  }

  predicate Allowed(m: Stamps, key: string, now: int, cooldown: int) {
    cooldown <= 0 || key !in m || WholeSeconds(now - m[key]) >= cooldown
  }

  /** In milliseconds, on any clock: refused exactly under a positive cooldown, with a stamp less than that long ago or
      still ahead. */
  lemma AllowedIff(m: Stamps, key: string, now: int, cooldown: int)
    ensures Allowed(m, key, now, cooldown) <==> cooldown <= 0 || key !in m || now - m[key] >= cooldown * 1000
  {
  }

  class CooldownMap {
    var stamps: Stamps

    constructor ()
      ensures stamps == map[]
    {
      stamps := map[];
    }

    method Note(key: string, now: int, cooldown: int, cap: nat)
      modifies this
      ensures Pruned(old(stamps)[key := now], stamps, now, cooldown, cap)
    {
      stamps := stamps[key := now];
      stamps := PruneTimestamps(stamps, now, cooldown, cap);
    }

    method IsAllowed(key: string, now: int, cooldown: int) returns (ok: bool)
      ensures ok == Allowed(stamps, key, now, cooldown)
    {
      if cooldown <= 0 {
        return true;
      }
      if key !in stamps {
        return true;
      }
      return WholeSeconds(now - stamps[key]) >= cooldown;
    }
  }

  // Runs against the full history -------------------------------------------

  datatype Event = Event(key: string, now: int)

  /** The last stamp of every key, nothing ever dropped. */
  function Full(es: seq<Event>): (m: Stamps) {
    if es == [] then map[] else Full(es[..|es| - 1])[es[|es| - 1].key := es[|es| - 1].now]
  }

  /** `states[i]` is a pruned map after the first i events. */
  ghost predicate IsRun(es: seq<Event>, states: seq<Stamps>, cooldown: int, cap: nat) {
    && |states| == |es| + 1 && states[0] == map[]
    && forall i :: 0 <= i < |es| ==> Pruned(states[i][es[i].key := es[i].now], states[i + 1], es[i].now, cooldown, cap)
  }

  predicate Monotone(es: seq<Event>) {
    forall i, j :: 0 <= i < j < |es| ==> es[i].now <= es[j].now
  }

  /** At every event the entries of the full history still inside the window fit the cap. */
  predicate Fits(es: seq<Event>, cooldown: int, cap: nat) {
    forall i :: 0 < i <= |es| ==> |Recent(Full(es[..i]), es[i - 1].now, cooldown)| <= AtLeastOne(cap)
  }

  lemma {:induction false} PrunedIsSubset(es: seq<Event>, states: seq<Stamps>, cooldown: int, cap: nat, n: nat)
    requires IsRun(es, states, cooldown, cap) && n <= |es|
    ensures Subset(states[n], Full(es[..n]))
  {
    if n > 0 {
      PrunedIsSubset(es, states, cooldown, cap, n - 1);
      assert es[..n][..n - 1] == es[..n - 1];
      assert Pruned(states[n - 1][es[n - 1].key := es[n - 1].now], states[n], es[n - 1].now, cooldown, cap);
    }
  }

  /** Pruning, even past the cap, never refuses what the full history allows. */
  lemma PrunedNeverRefusesMore(es: seq<Event>, states: seq<Stamps>, cooldown: int, cap: nat, key: string, now: int)
    requires IsRun(es, states, cooldown, cap) && Allowed(Full(es), key, now, cooldown)
    ensures Allowed(states[|es|], key, now, cooldown)
  {
    PrunedIsSubset(es, states, cooldown, cap, |es|);
    assert es[..|es|] == es;
  }

  /** Entries missing from the pruned map are past their window. */
  ghost predicate OnlyExpiredDropped(m: Stamps, full: Stamps, t: int, cooldown: int) {
    forall k :: k in full && k !in m ==> full[k] < t - Ttl(cooldown) * 1000
  }

  lemma {:induction false} DropsOnlyExpired(es: seq<Event>, states: seq<Stamps>, cooldown: int, cap: nat, n: nat)
    requires IsRun(es, states, cooldown, cap) && Monotone(es) && Fits(es, cooldown, cap) && 0 < n <= |es|
    ensures OnlyExpiredDropped(states[n], Full(es[..n]), es[n - 1].now, cooldown)
  {
    var p := n - 1;
    KeepsAllRecent(es, states, cooldown, cap, n);
    PrunedIsSubset(es, states, cooldown, cap, p);
    assert es[..n][..p] == es[..p];
    if p > 0 {
      DropsOnlyExpired(es, states, cooldown, cap, p);
    }
  }

  /** While the live entries fit the cap, an event drops only what has expired. */
  lemma KeepsAllRecent(es: seq<Event>, states: seq<Stamps>, cooldown: int, cap: nat, n: nat)
    requires IsRun(es, states, cooldown, cap) && Fits(es, cooldown, cap) && 0 < n <= |es|
    ensures var e := es[n - 1]; states[n] == Recent(states[n - 1][e.key := e.now], e.now, cooldown)
  {
    var p := n - 1;
    var e := es[p];
    assert es[..n][..p] == es[..p];
    var before := states[p][e.key := e.now];
    PrunedIsSubset(es, states, cooldown, cap, p);
    assert Pruned(before, states[n], e.now, cooldown, cap);
    SmallerMap(Recent(before, e.now, cooldown), Recent(Full(es[..n]), e.now, cooldown));
  }

  lemma {:induction false} StampsAreEvents(es: seq<Event>, k: string)
    requires Monotone(es) && k in Full(es)
    ensures es != [] && Full(es)[k] <= es[|es| - 1].now
  {
    var past := es[..|es| - 1];
    if k != es[|es| - 1].key {
      assert k in Full(past);
      StampsAreEvents(past, k);
      assert past[|past| - 1] == es[|es| - 2];
    }
  }

  /** No unexpired stamp that is missing is younger than one that is kept. */
  ghost predicate OldestDropped(m: Stamps, full: Stamps, t: int, cooldown: int) {
    forall k, j :: k in full && k !in m && full[k] >= t - Ttl(cooldown) * 1000 && j in m ==> full[k] <= m[j]
  }

  lemma OldestDroppedStep(before: Stamps, after: Stamps, full: Stamps, t: int, e: Event, cooldown: int, cap: nat)
    requires Subset(before, full) && OldestDropped(before, full, t, cooldown) && t <= e.now
    requires forall k :: k in full ==> full[k] <= e.now
    requires Pruned(before[e.key := e.now], after, e.now, cooldown, cap)
    ensures OldestDropped(after, full[e.key := e.now], e.now, cooldown)
  {
    var noted, full' := before[e.key := e.now], full[e.key := e.now];
    forall k, j | k in full' && k !in after && full'[k] >= e.now - Ttl(cooldown) * 1000 && j in after
      ensures full'[k] <= after[j]
    {
      assert after[j] == noted[j];
      if k in noted {
        assert k in Recent(noted, e.now, cooldown) && Recent(noted, e.now, cooldown)[k] == full'[k];
      }
    }
  }

  /** Past the cap, in every run under a monotone clock, only the oldest stamps go: an unexpired key missing from the
      map has a stamp no later than every one kept. */
  lemma {:induction false} PrunedKeepsNewest(es: seq<Event>, states: seq<Stamps>, cooldown: int, cap: nat, n: nat)
    requires IsRun(es, states, cooldown, cap) && Monotone(es) && 0 < n <= |es|
    ensures OldestDropped(states[n], Full(es[..n]), es[n - 1].now, cooldown)
  {
    var p := n - 1;
    assert es[..n][..p] == es[..p];
    PrunedIsSubset(es, states, cooldown, cap, p);
    forall k | k in Full(es[..p])
      ensures Full(es[..p])[k] <= es[p].now
    {
      StampsAreEvents(es[..p], k);
    }
    assert Pruned(states[p][es[p].key := es[p].now], states[n], es[p].now, cooldown, cap);
    if p > 0 {
      PrunedKeepsNewest(es, states, cooldown, cap, p);
      OldestDroppedStep(states[p], states[n], Full(es[..p]), es[p - 1].now, es[p], cooldown, cap);
    } else {
      OldestDroppedStep(states[p], states[n], Full(es[..p]), es[p].now, es[p], cooldown, cap);
    }
  }

  lemma SmallerMap(a: Stamps, b: Stamps)
    requires Subset(a, b)
    ensures |a| <= |b|
  {
    SubsetSize(a.Keys, b.Keys);
  }

  /** For a fixed cooldown and a monotone clock, in every run whose live entries fit the cap the pruned map answers
      every later question exactly as the full history would. */
  lemma PrunedAnswersLikeFullHistory(es: seq<Event>, states: seq<Stamps>, cooldown: int, cap: nat, key: string,
                                     now: int)
    requires IsRun(es, states, cooldown, cap) && Monotone(es) && Fits(es, cooldown, cap)
    requires es != [] ==> es[|es| - 1].now <= now
    ensures Allowed(states[|es|], key, now, cooldown) == Allowed(Full(es), key, now, cooldown)
  {
    assert es[..|es|] == es;
    PrunedIsSubset(es, states, cooldown, cap, |es|);
    if es != [] {
      DropsOnlyExpired(es, states, cooldown, cap, |es|);
    }
  }

  // In terms of the events ---------------------------------------------------

  /** The last event of a key is `i`. */
  predicate LastEvent(es: seq<Event>, key: string, i: nat) {
    i < |es| && es[i].key == key && forall j :: i < j < |es| ==> es[j].key != key
  }

  lemma {:induction false} FullIsLastEvent(es: seq<Event>, key: string, i: nat)
    requires LastEvent(es, key, i)
    ensures key in Full(es) && Full(es)[key] == es[i].now
  {
    if i < |es| - 1 {
      FullIsLastEvent(es[..|es| - 1], key, i);
    }
  }

  lemma {:induction false} NoEvent(es: seq<Event>, key: string)
    requires forall j :: 0 <= j < |es| ==> es[j].key != key
    ensures key !in Full(es)
  {
    if es != [] {
      NoEvent(es[..|es| - 1], key);
    }
  }

  /** In every run whose live entries fit the cap, a key is refused exactly when the cooldown is positive and fewer
      than that many seconds have passed since its last event. */
  lemma RefusedIff(es: seq<Event>, states: seq<Stamps>, cooldown: int, cap: nat, key: string, now: int, i: nat)
    requires IsRun(es, states, cooldown, cap) && Monotone(es) && Fits(es, cooldown, cap) && LastEvent(es, key, i)
    requires es[|es| - 1].now <= now
    ensures !Allowed(states[|es|], key, now, cooldown) <==> cooldown > 0 && now - es[i].now < cooldown * 1000
  {
    PrunedAnswersLikeFullHistory(es, states, cooldown, cap, key, now);
    FullIsLastEvent(es, key, i);
    assert es[i].now <= now;
  }

  /** A key without events is always allowed. */
  lemma UnseenIsAllowed(es: seq<Event>, states: seq<Stamps>, cooldown: int, cap: nat, key: string, now: int)
    requires IsRun(es, states, cooldown, cap) && forall j :: 0 <= j < |es| ==> es[j].key != key
    ensures Allowed(states[|es|], key, now, cooldown)
  {
    NoEvent(es, key);
    PrunedNeverRefusesMore(es, states, cooldown, cap, key, now);
  }

  /** Pruning keeps, while the cap allows, exactly the stamps no older than the cooldown, at least a minute, and ten
      minutes where there is no cooldown. */
  lemma PruneKeepsExactly(m: Stamps, m': Stamps, now: int, cooldown: int, cap: nat, key: string)
    requires Pruned(m, m', now, cooldown, cap)
    ensures var window := if cooldown <= 0 then 600_000 else if cooldown < 60 then 60_000 else cooldown * 1000;
            && (key in m' ==> key in m && m'[key] == m[key] && now - m[key] <= window)
            && (key in m && now - m[key] <= window && |m| <= cap ==> key in m')
            && |m'| <= if cap == 0 then 1 else cap
  {
    SmallerMap(Recent(m, now, cooldown), m);
  }
}
