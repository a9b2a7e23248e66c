/** First-arrival checks: the bounded FIFO set, its two-layer use across replicas, and the keys. */
module Dedup {
  import opened Common

  // Bounded FIFO set --------------------------------------------------------

  function LastN(s: seq<string>, n: nat): (r: seq<string>) {
    if |s| <= n then s else s[|s| - n..]
  }

  /** The remembered keys, oldest first, after offering `key`. */
  function Inserted(order: seq<string>, key: string, cap: nat): (r: seq<string>) {
    if key in order then order else LastN(order + [key], AtLeastOne(cap))
  }

  function Without(order: seq<string>, key: string): (r: seq<string>) {
    if order == [] then [] else if order[0] == key then order[1..] else [order[0]] + Without(order[1..], key)
  }

  function Elements(s: seq<string>): set<string> {
    set x | x in s
  }

  class BoundedSet {
    var members: set<string>
    var order: seq<string>

    ghost predicate Valid()
      reads this
    {
      members == Elements(order) && NoDuplicates(order)
    }

    constructor ()
      ensures Valid() && order == []
    {
      members, order := {}, [];
    }

    method Contains(key: string) returns (seen: bool)
      requires Valid()
      ensures seen == (key in order)
    {
      seen := key in members;
    }

    method Insert(key: string, capArg: nat) returns (isNew: bool)
      requires Valid()
      modifies this
      ensures Valid()
      ensures order == Inserted(old(order), key, capArg) && isNew == (key !in old(order))
    {
      var cap := if capArg < 1 then 1 else capArg;
      if key in members {
        return false;
      }
      members := members + {key};
      order := order + [key];
      ghost var full := order;
      while |order| > cap
        invariant Valid()
        invariant |full| >= |order| && order == full[|full| - |order|..]
        invariant |order| >= cap || order == full
      {
        var oldest := order[0];
        order := order[1..];
        members := members - {oldest};
        assert full[|full| - |order|..] == order;
      }
      return true;
    }

    method Remove(key: string) returns (was: bool)
      requires Valid()
      modifies this
      ensures Valid()
      ensures was == (key in old(order)) && order == Without(old(order), key) && key !in order
    {
      if key !in members {
        WithoutAbsent(order, key);
        return false;
      }
      members := members - {key};
      var pos := 0;
      while pos < |order| && order[pos] != key
        invariant 0 <= pos <= |order|
        invariant forall i :: 0 <= i < pos ==> order[i] != key
      {
        pos := pos + 1;
      }
      WithoutAt(order, key, pos);
      order := order[..pos] + order[pos + 1..];
      return true;
    }
  }

  lemma {:induction false} WithoutAbsent(order: seq<string>, key: string)
    requires key !in order
    ensures Without(order, key) == order
  {
    if order != [] {
      WithoutAbsent(order[1..], key);
    }
  }

  lemma {:induction false} WithoutAt(order: seq<string>, key: string, pos: nat)
    requires pos < |order| && order[pos] == key && forall i :: 0 <= i < pos ==> order[i] != key
    ensures Without(order, key) == order[..pos] + order[pos + 1..]
  {
    if pos > 0 {
      WithoutAt(order[1..], key, pos - 1);
      assert order[..pos] + order[pos + 1..] == [order[0]] + (order[1..][..pos - 1] + order[1..][pos..]);
    }
  }

  // What the set remembers --------------------------------------------------

  /** Every offer ends with the key remembered. A known key changes nothing; a new one goes last, after the entries
      before it, of which just enough leave from the front to stay within the cap. */
  lemma OfferedKeyIsRemembered(order: seq<string>, key: string, cap: nat)
    requires |order| <= AtLeastOne(cap)
    ensures var r := Inserted(order, key, cap); var limit := if cap == 0 then 1 else cap;
            && key in r && |r| <= limit
            && (key in order ==> r == order)
            && (key !in order ==>
                  && r[|r| - 1] == key
                  && |r| == (if |order| < limit then |order| + 1 else limit)
                  && forall i :: 0 <= i < |r| - 1 ==> r[i] == order[i + |order| + 1 - |r|])
  {
    if key !in order {
      var r := Inserted(order, key, cap);
      assert r[|r| - 1] == key;
    }
  }

  lemma AmongLast(s: seq<string>, n: nat, x: string)
    ensures x in LastN(s, n) <==> exists i :: 0 <= i < |s| && s[i] == x && |s| <= i + n
  {
    if |s| > n {
      var from := |s| - n;
      assert forall j :: 0 <= j < n ==> LastN(s, n)[j] == s[from + j];
      forall i | 0 <= i < |s| && s[i] == x && |s| <= i + n
        ensures x in LastN(s, n)
      {
        assert LastN(s, n)[i - from] == x;
      }
    }
  }

  /** Over every sequence of offers: a key is remembered exactly while fewer than `cap` keys have been new since it was
      last new itself. */
  lemma RememberedIff(keys: seq<string>, cap: nat, key: string)
    ensures var novel := Novel([], keys, cap); var limit := if cap == 0 then 1 else cap;
            key in Offered([], keys, cap)
            <==> exists i :: 0 <= i < |novel| && novel[i] == key && |novel| - 1 - i < limit
  {
    var novel := Novel([], keys, cap);
    RemembersLastNovel([], keys, cap);
    assert [] + novel == novel;
    AmongLast(novel, AtLeastOne(cap), key);
  }

  /** The set after offering a whole sequence of keys to one that remembers `start`. */
  function Offered(start: seq<string>, keys: seq<string>, cap: nat): (order: seq<string>) {
    if keys == [] then start else Inserted(Offered(start, keys[..|keys| - 1], cap), keys[|keys| - 1], cap)
  }

  /** The keys that were answered as new, in order. */
  function Novel(start: seq<string>, keys: seq<string>, cap: nat): (r: seq<string>) {
    if keys == [] then []
    else
      var past, k := keys[..|keys| - 1], keys[|keys| - 1];
      if k in Offered(start, past, cap) then Novel(start, past, cap) else Novel(start, past, cap) + [k]
  }

  /** For every sequence of offers the set holds exactly the last `cap` of the keys it remembered and those it
      answered as new, so a key is a duplicate exactly when it is among them. */
  lemma {:induction false} RemembersLastNovel(start: seq<string>, keys: seq<string>, cap: nat)
    requires |start| <= AtLeastOne(cap)
    ensures Offered(start, keys, cap) == LastN(start + Novel(start, keys, cap), AtLeastOne(cap))
  {
    if keys == [] {
      assert start + [] == start;
    } else {
      var past, k := keys[..|keys| - 1], keys[|keys| - 1];
      RemembersLastNovel(start, past, cap);
      LastOfLast(start + Novel(start, past, cap), k, AtLeastOne(cap));
      assert start + (Novel(start, past, cap) + [k]) == start + Novel(start, past, cap) + [k];
    }
  }

  lemma LastOfLast(s: seq<string>, x: string, n: nat)
    requires n > 0
    ensures LastN(LastN(s, n) + [x], n) == LastN(s + [x], n)
  {
  }

  lemma {:induction false} NovelCovers(start: seq<string>, keys: seq<string>, cap: nat)
    requires |start| <= AtLeastOne(cap)
    ensures Elements(start + Novel(start, keys, cap)) == Elements(start + keys)
  {
    if keys != [] {
      var past, k := keys[..|keys| - 1], keys[|keys| - 1];
      NovelCovers(start, past, cap);
      RemembersLastNovel(start, past, cap);
      assert start + keys == start + past + [k];
      assert k in Offered(start, past, cap) ==> k in start + Novel(start, past, cap);
      assert Elements(start + keys) == Elements(start + past) + {k};
      assert start + (Novel(start, past, cap) + [k]) == start + Novel(start, past, cap) + [k];
    }
  }

  /** While what was remembered and what has been new together fit `cap`, every key offered is still remembered. */
  lemma NothingForgottenWithinCap(start: seq<string>, keys: seq<string>, cap: nat)
    requires |start| + |Novel(start, keys, cap)| <= AtLeastOne(cap)
    ensures Elements(Offered(start, keys, cap)) == Elements(start + keys)
  {
    RemembersLastNovel(start, keys, cap);
    NovelCovers(start, keys, cap);
  }

  lemma {:induction false} NovelCount(keys: seq<string>, cap: nat)
    requires |Elements(keys)| <= AtLeastOne(cap)
    ensures |Novel([], keys, cap)| == |Elements(keys)| && Elements(Offered([], keys, cap)) == Elements(keys)
  {
    if keys != [] {
      var past, k := keys[..|keys| - 1], keys[|keys| - 1];
      assert keys == past + [k];
      assert Elements(keys) == Elements(past) + {k};
      Grows(Elements(past), k);
      NovelCount(past, cap);
      NothingForgottenWithinCap([], keys, cap);
      assert [] + keys == keys;
    }
  }

  lemma Grows(s: set<string>, k: string)
    ensures |s + {k}| == if k in s then |s| else |s| + 1
  {
    if k in s {
      assert s + {k} == s;
    }
  }

  /** Restart recovery: marks the journaled keys and reports how many were new. */
  method Seed(state: BoundedSet, keys: seq<string>, cap: nat) returns (added: nat)
    requires state.Valid()
    modifies state
    ensures state.Valid() && state.order == Offered(old(state.order), keys, cap)
    ensures added == |Novel(old(state.order), keys, cap)|
  {
    added := 0;
    for i := 0 to |keys|
      invariant state.Valid() && state.order == Offered(old(state.order), keys[..i], cap)
      invariant added == |Novel(old(state.order), keys[..i], cap)|
    {
      assert keys[..i + 1][..i] == keys[..i];
      var isNew := state.Insert(keys[i], cap);
      if isNew {
        added := added + 1;
      }
    }
    assert keys[..|keys|] == keys;
  }

  /** Seeding at most `cap` distinct keys into an empty set reports their number, and every later claim of one of
      them is a duplicate until more than `cap` keys in all have been new. */
  lemma SeededKeysAreDuplicates(keys: seq<string>, later: seq<string>, cap: nat, key: string)
    requires |Elements(keys)| <= AtLeastOne(cap) && |Novel([], keys + later, cap)| <= AtLeastOne(cap) && key in keys
    ensures |Novel([], keys, cap)| == |Elements(keys)|
    ensures var order := Offered([], keys + later, cap); key in order && Inserted(order, key, cap) == order
  {
    NovelCount(keys, cap);
    NothingForgottenWithinCap([], keys + later, cap);
    assert [] + (keys + later) == keys + later && key in Elements(keys + later);
  }

  // Keys --------------------------------------------------------------------

  function RedisKey(ns: string, key: string): string {
    "dedup:" + ns + ":" + key
  }

  predicate ColonFree(s: string) { ':' !in s }

  lemma SplitAtColon(a: string, b: string, a': string, b': string)
    requires ColonFree(a) && ColonFree(a') && a + [':'] + b == a' + [':'] + b'
    ensures a == a' && b == b'
  {
    var whole := a + [':'] + b;
    assert whole[|a|] == ':' && whole[|a'|] == ':';
    assert |a| == |a'|;
    assert a == whole[..|a|] && a' == whole[..|a'|];
    assert b == whole[|a| + 1..] && b' == whole[|a'| + 1..];
  }

  /** One namespace, read up to its separator, begins the other. */
  predicate Nested(ns: string, ns': string) {
    ns + ":" <= ns' + ":" || ns' + ":" <= ns + ":"
  }

  lemma SharedKeyNests(ns: string, key: string, ns': string, key': string)
    requires RedisKey(ns, key) == RedisKey(ns', key') && |ns| <= |ns'|
    ensures ns + ":" <= ns' + ":"
  {
    var whole := RedisKey(ns, key)[6..];
    assert whole == ns + ":" + key && RedisKey(ns', key')[6..] == ns' + ":" + key';
    assert ns + ":" == whole[..|ns| + 1] && ns' + ":" == whole[..|ns'| + 1];
    assert whole[..|ns| + 1] == whole[..|ns'| + 1][..|ns| + 1];
  }

  lemma NestedShareAKey(ns: string, ns': string) returns (key: string, key': string)
    requires ns + ":" <= ns' + ":"
    ensures RedisKey(ns, key) == RedisKey(ns', key')
  {
    key, key' := (ns' + ":")[|ns| + 1..], "";
    assert ns' + ":" == ns + ":" + key;
    assert RedisKey(ns, key) == "dedup:" + (ns + ":" + key) == "dedup:" + (ns' + ":") == RedisKey(ns', key');
  }

  /** Two namespaces share a Redis key exactly when one is nested in the other. */
  lemma NamespacesShareAKeyIff(ns: string, ns': string)
    ensures (exists key, key' :: RedisKey(ns, key) == RedisKey(ns', key')) <==> Nested(ns, ns')
  {
    if key, key' :| RedisKey(ns, key) == RedisKey(ns', key') {
      if |ns| <= |ns'| {
        SharedKeyNests(ns, key, ns', key');
      } else {
        SharedKeyNests(ns', key', ns, key);
      }
    }
    if ns + ":" <= ns' + ":" {
      var key, key' := NestedShareAKey(ns, ns');
    } else if ns' + ":" <= ns + ":" {
      var key', key := NestedShareAKey(ns', ns);
    }
  }

  lemma ColonFreeNeverNest(ns: string, ns': string)
    requires ColonFree(ns') && ns + ":" <= ns' + ":"
    ensures ns == ns'
  {
    var whole := ns' + ":";
    assert whole[|ns|] == (ns + ":")[|ns|] == ':';
    assert |ns| == |ns'|;
    assert whole[..|ns|] == (ns + ":")[..|ns|] == ns;
  }

  /** So keys of colon-free namespaces never collide. */
  lemma RedisKeyIsInjective(ns: string, key: string, ns': string, key': string)
    requires ColonFree(ns) && ColonFree(ns')
    ensures RedisKey(ns, key) == RedisKey(ns', key') <==> ns == ns' && key == key'
  {
    if RedisKey(ns, key) == RedisKey(ns', key') {
      NamespacesShareAKeyIff(ns, ns');
      if ns + ":" <= ns' + ":" {
        ColonFreeNeverNest(ns, ns');
      } else {
        ColonFreeNeverNest(ns', ns);
      }
      assert key == RedisKey(ns, key)[|ns| + 7..] && key' == RedisKey(ns', key')[|ns'| + 7..];
    }
  }

  /** A colon in a namespace can let two marks share a key. */
  lemma ColonNamespacesCollide()
    ensures RedisKey("a:b", "c") == RedisKey("a", "b:c")
  {
  }

  function TrimStart(s: string): string {
    if s != [] && IsSpace(s[0]) then TrimStart(s[1..]) else s
  }

  function TrimEnd(s: string): string {
    if s != [] && IsSpace(s[|s| - 1]) then TrimEnd(s[..|s| - 1]) else s
  }

  function Trim(s: string): string { TrimEnd(TrimStart(s)) }

  function KeyFromParts(signature: string, leader: string, mint: string, side: string): string {
    "copy:" + Joined(Trim(signature), Joined(Trim(leader), Joined(Trim(mint), Trim(side))))
  }

  function Joined(a: string, b: string): string { a + ":" + b }

  datatype Parts = Parts(signature: string, leader: string, mint: string, side: string) {
    function Key(): string { KeyFromParts(signature, leader, mint, side) }
    predicate Clean() { ColonFree(Trim(signature)) && ColonFree(Trim(leader)) && ColonFree(Trim(mint)) }
    function Trimmed(): Parts { Parts(Trim(signature), Trim(leader), Trim(mint), Trim(side)) }
  }

  /** Events get the same key exactly when their trimmed parts are the same. */
  lemma CopyKeyIsInjective(p: Parts, q: Parts)
    requires p.Clean() && q.Clean()
    ensures p.Key() == q.Key() <==> p.Trimmed() == q.Trimmed()
  {
    var (a, b) := (p.Trimmed(), q.Trimmed());
    if p.Key() == q.Key() {
      var x, y := Joined(a.leader, Joined(a.mint, a.side)), Joined(b.leader, Joined(b.mint, b.side));
      assert p.Key()[5..] == Joined(a.signature, x) && q.Key()[5..] == Joined(b.signature, y);
      JoinedIsInjective(a.signature, x, b.signature, y);
      JoinedIsInjective(a.leader, Joined(a.mint, a.side), b.leader, Joined(b.mint, b.side));
      JoinedIsInjective(a.mint, a.side, b.mint, b.side);
    }
  }

  // When two events share a key ---------------------------------------------

  predicate Edged(s: string) {
    s == [] || (!IsSpace(s[0]) && !IsSpace(s[|s| - 1]))
  }

  lemma {:induction false} TrimStartKeepsEnd(s: string)
    ensures var r := TrimStart(s); (r != [] ==> !IsSpace(r[0])) && (r == [] || (s != [] && r[|r| - 1] == s[|s| - 1]))
  {
    if s != [] && IsSpace(s[0]) {
      TrimStartKeepsEnd(s[1..]);
    }
  }

  lemma {:induction false} TrimEndKeepsStart(s: string)
    ensures var r := TrimEnd(s); (r != [] ==> !IsSpace(r[|r| - 1])) && (r == [] || (s != [] && r[0] == s[0]))
  {
    if s != [] && IsSpace(s[|s| - 1]) {
      TrimEndKeepsStart(s[..|s| - 1]);
    }
  }

  /** Trimming takes white space off both ends and nothing else. */
  lemma {:induction false} TrimIsMiddle(s: string) returns (a: nat, b: nat)
    ensures a <= b <= |s| && Trim(s) == s[a..b]
    ensures (forall i :: 0 <= i < a ==> IsSpace(s[i])) && (forall i :: b <= i < |s| ==> IsSpace(s[i]))
    decreases |s|
  {
    if s == [] {
      a, b := 0, 0;
    } else if IsSpace(s[0]) {
      a, b := TrimIsMiddle(s[1..]);
      a, b := a + 1, b + 1;
    } else {
      a := 0;
      b := TrimEndIsPrefix(s);
    }
  }

  lemma {:induction false} TrimEndIsPrefix(s: string) returns (b: nat)
    ensures b <= |s| && TrimEnd(s) == s[..b] && forall i :: b <= i < |s| ==> IsSpace(s[i])
  {
    if s != [] && IsSpace(s[|s| - 1]) {
      b := TrimEndIsPrefix(s[..|s| - 1]);
    } else {
      b := |s|;
    }
  }

  lemma TrimIsEdged(s: string)
    ensures Edged(Trim(s)) && (Edged(s) ==> Trim(s) == s)
  {
    TrimStartKeepsEnd(s);
    TrimEndKeepsStart(TrimStart(s));
  }

  function Body(t: Parts): string {
    Joined(t.signature, Joined(t.leader, Joined(t.mint, t.side)))
  }

  /** Where the three separators of a body stand, and the parts between three positions. */
  function Cuts(t: Parts): (nat, nat, nat) {
    (|t.signature|, |t.signature| + |t.leader| + 1, |t.signature| + |t.leader| + |t.mint| + 2)
  }

  function Cut(w: string, a: nat, b: nat, c: nat): Parts
    requires a < b < c < |w|
  {
    Parts(w[..a], w[a + 1..b], w[b + 1..c], w[c + 1..])
  }

  lemma CutsOfBody(t: Parts)
    ensures var w := Body(t); var (a, b, c) := Cuts(t);
            a < b < c < |w| && w[a] == w[b] == w[c] == ':' && Cut(w, a, b, c) == t
  {
  }

  lemma BodyOfCut(w: string, a: nat, b: nat, c: nat)
    requires a < b < c < |w| && w[a] == w[b] == w[c] == ':'
    ensures Body(Cut(w, a, b, c)) == w && Cuts(Cut(w, a, b, c)) == (a, b, c)
  {
    var t := Cut(w, a, b, c);
    assert w[b + 1..] == Joined(t.mint, t.side);
    assert w[a + 1..] == Joined(t.leader, w[b + 1..]);
    assert w == Joined(t.signature, w[a + 1..]);
  }

  predicate EdgedParts(t: Parts) {
    Edged(t.signature) && Edged(t.leader) && Edged(t.mint) && Edged(t.side)
  }

  /** A colon with no white space beside it. */
  predicate Tight(w: string, i: nat) {
    && i < |w| && w[i] == ':'
    && (i > 0 ==> !IsSpace(w[i - 1])) && (i + 1 < |w| ==> !IsSpace(w[i + 1]))
  }

  lemma CutsAreTight(t: Parts)
    requires EdgedParts(t)
    ensures var w := Body(t); var (a, b, c) := Cuts(t); Tight(w, a) && Tight(w, b) && Tight(w, c) && Edged(w)
  {
    CutsOfBody(t);
  }

  lemma TightCutIsEdged(w: string, a: nat, b: nat, c: nat)
    requires a < b < c && Tight(w, a) && Tight(w, b) && Tight(w, c) && Edged(w)
    ensures EdgedParts(Cut(w, a, b, c))
  {
  }

  /** The body has a tight colon besides its separators. */
  ghost predicate SpareColon(t: Parts) {
    var (a, b, c) := Cuts(t);
    exists i: nat :: Tight(Body(t), i) && i != a && i != b && i != c
  }

  ghost predicate SharesKey(p: Parts) {
    exists q: Parts :: q.Key() == p.Key() && q.Trimmed() != p.Trimmed()
  }

  lemma KeyIsBody(p: Parts)
    ensures p.Key() == "copy:" + Body(p.Trimmed()) && p.Key()[5..] == Body(p.Trimmed()) && EdgedParts(p.Trimmed())
  {
    TrimIsEdged(p.signature);
    TrimIsEdged(p.leader);
    TrimIsEdged(p.mint);
    TrimIsEdged(p.side);
  }

  lemma EdgedIsTrimmed(t: Parts)
    requires EdgedParts(t)
    ensures t.Trimmed() == t
  {
    TrimIsEdged(t.signature);
    TrimIsEdged(t.leader);
    TrimIsEdged(t.mint);
    TrimIsEdged(t.side);
  }

  lemma OtherCutIsSpare(t: Parts, t': Parts)
    requires EdgedParts(t) && EdgedParts(t') && Body(t) == Body(t') && t != t'
    ensures SpareColon(t)
  {
    CutsOfBody(t);
    CutsOfBody(t');
    CutsAreTight(t');
    var (a, b, c) := Cuts(t);
    var (a', b', c') := Cuts(t');
    assert (a, b, c) != (a', b', c');
    var i := if a' !in {a, b, c} then a' else if b' !in {a, b, c} then b' else c';
    assert Tight(Body(t), i) && i != a && i != b && i != c;
  }

  lemma SpareCutDiffers(t: Parts, i: nat) returns (t': Parts)
    requires EdgedParts(t) && Tight(Body(t), i) && i != Cuts(t).0 && i != Cuts(t).1 && i != Cuts(t).2
    ensures EdgedParts(t') && Body(t') == Body(t) && t' != t
  {
    var w := Body(t);
    var (a, b, c) := Cuts(t);
    CutsOfBody(t);
    CutsAreTight(t);
    var (x, y, z) := if i < b then (i, b, c) else if i < c then (a, i, c) else (a, b, i);
    t' := Cut(w, x, y, z);
    BodyOfCut(w, x, y, z);
    TightCutIsEdged(w, x, y, z);
  }

  /** For every event: another one, different when trimmed, has the same key exactly when the trimmed parts contain a
      colon with no white space beside it. */
  lemma SharesKeyIff(p: Parts)
    ensures SharesKey(p) <==> SpareColon(p.Trimmed())
  {
    var t := p.Trimmed();
    KeyIsBody(p);
    if q: Parts :| q.Key() == p.Key() && q.Trimmed() != t {
      KeyIsBody(q);
      OtherCutIsSpare(t, q.Trimmed());
    }
    if i: nat :| Tight(Body(t), i) && i != Cuts(t).0 && i != Cuts(t).1 && i != Cuts(t).2 {
      var t' := SpareCutDiffers(t, i);
      EdgedIsTrimmed(t');
      KeyIsBody(t');
      assert t'.Key() == p.Key() && t'.Trimmed() != t;
    }
  }

  predicate SpaceFree(t: Parts) {
    forall i :: 0 <= i < |Body(t)| ==> !IsSpace(Body(t)[i])
  }

  predicate HasColon(t: Parts) {
    ':' in t.signature || ':' in t.leader || ':' in t.mint || ':' in t.side
  }

  lemma PartsAreSlices(t: Parts)
    ensures var w := Body(t); var (a, b, c) := Cuts(t);
            && a < b < c < |w|
            && t.signature == w[..a] && t.leader == w[a + 1..b] && t.mint == w[b + 1..c] && t.side == w[c + 1..]
  {
    CutsOfBody(t);
  }

  lemma ColonOfPart(t: Parts) returns (i: nat)
    requires HasColon(t)
    ensures i < |Body(t)| && Body(t)[i] == ':' && i != Cuts(t).0 && i != Cuts(t).1 && i != Cuts(t).2
  {
    var (a, b, c) := Cuts(t);
    PartsAreSlices(t);
    if ':' in t.signature {
      var j :| 0 <= j < |t.signature| && t.signature[j] == ':';
      i := j;
    } else if ':' in t.leader {
      var j :| 0 <= j < |t.leader| && t.leader[j] == ':';
      i := a + 1 + j;
    } else if ':' in t.mint {
      var j :| 0 <= j < |t.mint| && t.mint[j] == ':';
      i := b + 1 + j;
    } else {
      var j :| 0 <= j < |t.side| && t.side[j] == ':';
      i := c + 1 + j;
    }
  }

  lemma SpareColonIsInPart(t: Parts, i: nat)
    requires i < |Body(t)| && Body(t)[i] == ':' && i != Cuts(t).0 && i != Cuts(t).1 && i != Cuts(t).2
    ensures HasColon(t)
  {
    var (a, b, c) := Cuts(t);
    PartsAreSlices(t);
    if i < a {
      assert t.signature[i] == ':';
    } else if i < b {
      assert t.leader[i - a - 1] == ':';
    } else if i < c {
      assert t.mint[i - b - 1] == ':';
    } else {
      assert t.side[i - c - 1] == ':';
    }
  }

  /** Without white space in them, exactly when some part contains a colon. */
  lemma SpareColonIff(t: Parts)
    requires SpaceFree(t)
    ensures SpareColon(t) <==> HasColon(t)
  {
    if HasColon(t) {
      var i := ColonOfPart(t);
      assert Tight(Body(t), i);
    }
    if i: nat :| Tight(Body(t), i) && i != Cuts(t).0 && i != Cuts(t).1 && i != Cuts(t).2 {
      SpareColonIsInPart(t, i);
    }
  }

  /** A colon inside a part can make two events share a key. */
  lemma ColonPartsCollide()
    ensures Parts("a:b", "c", "m", "buy").Trimmed() == Parts("a:b", "c", "m", "buy")
    ensures Parts("a", "b:c", "m", "buy").Trimmed() == Parts("a", "b:c", "m", "buy")
    ensures Parts("a:b", "c", "m", "buy").Key() == Parts("a", "b:c", "m", "buy").Key()
  {
  }

  lemma JoinedIsInjective(a: string, b: string, a': string, b': string)
    requires ColonFree(a) && ColonFree(a') && Joined(a, b) == Joined(a', b')
    ensures a == a' && b == b'
  {
    SplitAtColon(a, b, a', b');
  }

  // Two layers, many replicas -----------------------------------------------

  /** A replica's first layer: one bounded set per namespace, here by its remembered keys. */
  type L1 = map<string, seq<string>>

  function Seen(l1: L1, ns: string): seq<string> {
    if ns in l1 then l1[ns] else []
  }

  /** The second layer of the store; `None` when the deployment has none. */
  class SharedWindow {
    var keys: set<string>

    constructor ()
      ensures keys == {}
    {
      keys := {};
    }
  }

  class DedupStore {
    const cap: nat
    const shared: SharedWindow?
    var l1: L1

    constructor (cap: nat, shared: SharedWindow?)
      ensures this.cap == (if cap < 64 then 64 else cap) && this.shared == shared && l1 == map[]
    {
      this.cap := if cap < 64 then 64 else cap;
      this.shared := shared;
      l1 := map[];
    }

    /** `reachable` is whether the second layer answers; if not, the first layer's verdict stands. */
    method Mark(ns: string, key: string, reachable: bool) returns (isNew: bool)
      modifies this, shared
      ensures l1 == old(l1)[ns := Inserted(Seen(old(l1), ns), key, cap)]
      ensures isNew == (key !in Seen(old(l1), ns)
              && (shared == null || !reachable || RedisKey(ns, key) !in old(shared.keys)))
      ensures shared != null ==>
                shared.keys == old(shared.keys)
                               + if reachable && key !in Seen(old(l1), ns) then {RedisKey(ns, key)} else {}
    {
      var order := Seen(l1, ns);
      var l1New := key !in order;
      l1 := l1[ns := Inserted(order, key, cap)];
      if !l1New {
        return false;
      }
      if shared == null || !reachable {
        return true;
      }
      var k := RedisKey(ns, key);
      if k in shared.keys {
        return false;
      }
      shared.keys := shared.keys + {k};
      return true;
    }

    method Forget(ns: string, key: string, reachable: bool)
      modifies this, shared
      ensures l1 == if ns in old(l1) then old(l1)[ns := Without(old(l1)[ns], key)] else old(l1)
      ensures shared != null ==> shared.keys == old(shared.keys) - if reachable then {RedisKey(ns, key)} else {}
    {
      if ns in l1 {
        l1 := l1[ns := Without(l1[ns], key)];
      }
      if shared != null && reachable {
        shared.keys := shared.keys - {RedisKey(ns, key)};
      }
    }
  }

  /** A mark that has passed its replica's first layer and not yet asked the second. */
  datatype Pending = Pending(replica: nat, ns: string, key: string)

  /** `wins` lists the (namespace, key) pairs for which a mark returned true. */
  datatype System = System(l1: map<nat, L1>, l2: set<string>, pending: seq<Pending>, wins: seq<(string, string)>)

  const START := System(map[], {}, [], [])

  /** The two layers are locked separately, so a mark is two steps; a restart loses a replica's first layer and
      its unfinished marks. */
  datatype Op =
    | AskL1(replica: nat, ns: string, key: string)
    | AskL2(index: nat)
    | Restart(replica: nat)

  function Memory(s: System, replica: nat): L1 {
    if replica in s.l1 then s.l1[replica] else map[]
  }

  function Survivors(ps: seq<Pending>, replica: nat): (r: seq<Pending>)
    ensures forall p :: p in r <==> p in ps && p.replica != replica
  {
    if ps == [] then []
    else (if ps[0].replica == replica then [] else [ps[0]]) + Survivors(ps[1..], replica)
  }

  function Step(s: System, op: Op, cap: nat): System {
    match op
    case AskL1(r, ns, key) =>
      var seen := Seen(Memory(s, r), ns);
      var l1 := s.l1[r := Memory(s, r)[ns := Inserted(seen, key, cap)]];
      if key in seen then s.(l1 := l1) else s.(l1 := l1, pending := s.pending + [Pending(r, ns, key)])
    case AskL2(i) =>
      if i >= |s.pending| then s
      else
        var p := s.pending[i];
        var k := RedisKey(p.ns, p.key);
        var pending := s.pending[..i] + s.pending[i + 1..];
        if k in s.l2 then s.(pending := pending)
        else s.(pending := pending, l2 := s.l2 + {k}, wins := s.wins + [(p.ns, p.key)])
    case Restart(r) => s.(l1 := s.l1 - {r}, pending := Survivors(s.pending, r))
  }

  function Run(s: System, ops: seq<Op>, cap: nat): System
    decreases |ops|
  {
    if ops == [] then s else Run(Step(s, ops[0], cap), ops[1..], cap)
  }

  /** Asked again for the key it was last asked, a replica's first layer answers alone: nothing is pending and nothing
      changes. */
  lemma RepeatIsAnsweredLocally(s: System, r: nat, ns: string, key: string, cap: nat)
    ensures var t := Step(s, AskL1(r, ns, key), cap);
            && r in t.l1 && ns in t.l1[r] && key in t.l1[r][ns]
            && Step(t, AskL1(r, ns, key), cap) == t
  {
    var t := Step(s, AskL1(r, ns, key), cap);
    var order := t.l1[r][ns];
    if key !in Seen(Memory(s, r), ns) {
      assert order[|order| - 1] == key;
    }
    assert Memory(t, r)[ns := order] == t.l1[r];
    assert t.l1[r := t.l1[r]] == t.l1;
  }

  predicate CleanOps(ops: seq<Op>) {
    forall i :: 0 <= i < |ops| && ops[i].AskL1? ==> ColonFree(ops[i].ns)
  }

  /** The second layer holds exactly the keys of the wins, each once. */
  ghost predicate WinsOk(s: System) {
    && (forall i, j :: 0 <= i < j < |s.wins| ==> s.wins[i] != s.wins[j])
    && (forall w :: w in s.wins ==> ColonFree(w.0) && RedisKey(w.0, w.1) in s.l2)
    && (forall k :: k in s.l2 ==> exists w :: w in s.wins && RedisKey(w.0, w.1) == k)
    && (forall p :: p in s.pending ==> ColonFree(p.ns))
  }

  /** What a first layer remembers is settled in the second, or about to be by the same replica. */
  ghost predicate MemoryOk(s: System) {
    forall r, ns, key :: key in Seen(Memory(s, r), ns) ==>
      RedisKey(ns, key) in s.l2 || Pending(r, ns, key) in s.pending
  }

  lemma StepKeepsWins(s: System, op: Op, cap: nat)
    requires WinsOk(s) && (op.AskL1? ==> ColonFree(op.ns))
    ensures WinsOk(Step(s, op, cap))
  {
  }

  lemma StepKeepsMemory(s: System, op: Op, cap: nat)
    requires MemoryOk(s)
    ensures MemoryOk(Step(s, op, cap))
  {
  }

  lemma {:induction false} RunKeeps(s: System, ops: seq<Op>, cap: nat)
    requires WinsOk(s) && MemoryOk(s) && CleanOps(ops)
    ensures WinsOk(Run(s, ops, cap)) && MemoryOk(Run(s, ops, cap))
    decreases |ops|
  {
    if ops != [] {
      StepKeepsWins(s, ops[0], cap);
      StepKeepsMemory(s, ops[0], cap);
      RunKeeps(Step(s, ops[0], cap), ops[1..], cap);
    }
  }

  /** In every interleaving of marks by any replicas, restarts included, at most one mark per (namespace, key)
      returns true, and one has exactly when the second layer holds the key. */
  lemma AtMostOneWin(ops: seq<Op>, cap: nat, ns: string, key: string, i: nat, j: nat)
    requires CleanOps(ops) && ColonFree(ns)
    ensures var s := Run(START, ops, cap);
            && ((ns, key) in s.wins <==> RedisKey(ns, key) in s.l2)
            && (i < |s.wins| && j < |s.wins| && s.wins[i] == s.wins[j] == (ns, key) ==> i == j)
  {
    RunKeeps(START, ops, cap);
    var s := Run(START, ops, cap);
    if RedisKey(ns, key) in s.l2 {
      var w :| w in s.wins && RedisKey(w.0, w.1) == RedisKey(ns, key);
      RedisKeyIsInjective(w.0, w.1, ns, key);
      assert w == (ns, key);
    }
  }

  /** A mark answered by the second layer leaves exactly one win behind; one answered `duplicate` by a first
      layer means a win already, or a mark of that key still in flight on the same replica. */
  lemma CompletedMarkHasAWinner(ops: seq<Op>, cap: nat, op: Op)
    requires CleanOps(ops)
    ensures var s := Run(START, ops, cap); var s' := Step(s, op, cap);
            && (op.AskL2? && op.index < |s.pending| ==>
                  var p := s.pending[op.index]; (p.ns, p.key) in s'.wins)
            && (op.AskL1? && ColonFree(op.ns) && op.key in Seen(Memory(s, op.replica), op.ns) ==>
                  (op.ns, op.key) in s.wins || Pending(op.replica, op.ns, op.key) in s.pending)
  {
    RunKeeps(START, ops, cap);
    var s := Run(START, ops, cap);
    if op.AskL2? && op.index < |s.pending| {
      var p := s.pending[op.index];
      assert p in s.pending;
      AtMostOneWin(ops, cap, p.ns, p.key, 0, 0);
    } else if op.AskL1? && ColonFree(op.ns) {
      AtMostOneWin(ops, cap, op.ns, op.key, 0, 0);
    }
  }
}
