/**
 * The token cache of the operator exchange (token exchange, section 2.1 of RFC 8693): a JavaScript `Map`
 * in insertion order, read by calls that then wait for the token endpoint and write when it has answered.
 */
module OperatorExchange {
  import opened Common

  const CACHE_TTL_MS := 240000
  const CACHE_MAX_ENTRIES := 256

  datatype Entry = Entry(key: string, token: string, expiresAt: int)

  type Cache = seq<Entry>

  // ----- keys -----

  function KeyOf(audience: string, subject: string): string { audience + "\n" + subject }

  /** `a` begins with `b` and a newline, and what `a` has beyond moves over to the subject. */
  ghost predicate Shifted(a: string, s: string, b: string, t: string) {
    exists x: string :: a == b + "\n" + x && t == x + "\n" + s
  }

  /** Two calls share a key exactly when they ask the same, or a newline in an audience lets them collide. */
  lemma KeysCollideExactly(a: string, s: string, b: string, t: string)
    ensures KeyOf(a, s) == KeyOf(b, t) <==> (a == b && s == t) || Shifted(a, s, b, t) || Shifted(b, t, a, s)
  {
    if KeyOf(a, s) == KeyOf(b, t) {
      if |a| >= |b| { KeysShift(a, s, b, t); } else { KeysShift(b, t, a, s); }
    }
    if Shifted(a, s, b, t) { ShiftedCollide(a, s, b, t); }
    if Shifted(b, t, a, s) { ShiftedCollide(b, t, a, s); }
  }

  lemma ShiftedCollide(a: string, s: string, b: string, t: string)
    requires Shifted(a, s, b, t)
    ensures KeyOf(a, s) == KeyOf(b, t)
  {
    var x: string :| a == b + "\n" + x && t == x + "\n" + s;
    assert (b + "\n" + x) + "\n" + s == b + "\n" + (x + "\n" + s);
  }

  lemma KeysShift(a: string, s: string, b: string, t: string)
    requires KeyOf(a, s) == KeyOf(b, t) && |a| >= |b|
    ensures (a == b && s == t) || Shifted(a, s, b, t)
  {
    var k, l := KeyOf(a, s), KeyOf(b, t);
    assert a == k[..|a|] && b == l[..|b|] && s == k[|a| + 1..] && t == l[|b| + 1..];
    if |a| > |b| {
      var x := a[|b| + 1..];
      assert a[|b|] == l[|b|] == '\n';
      assert a[..|b|] == b;
      assert a == b + "\n" + x;
      assert t == x + "\n" + s;
    }
  }

  lemma PlainAudiencesNeverCollide(a: string, s: string, b: string, t: string)
    requires '\n' !in a && '\n' !in b
    ensures KeyOf(a, s) == KeyOf(b, t) <==> a == b && s == t
  {
    KeysCollideExactly(a, s, b, t);
    NoShift(a, s, b, t);
    NoShift(b, t, a, s);
  }

  lemma NoShift(a: string, s: string, b: string, t: string)
    requires '\n' !in a
    ensures !Shifted(a, s, b, t)
  {
  }

  lemma NewlinesCollide()
    ensures KeyOf("x\ny", "z") == KeyOf("x", "y\nz")
  {
    assert KeyOf("x\ny", "z") == "x\ny\nz" == KeyOf("x", "y\nz");
  }

  // ----- the map -----

  predicate Distinct(c: Cache) {
    forall i, j :: 0 <= i < j < |c| ==> c[i].key != c[j].key
  }

  function Find(c: Cache, key: string): (r: Option<nat>)
    ensures r.Some? ==> r.value < |c| && c[r.value].key == key
    ensures r.None? <==> forall i :: 0 <= i < |c| ==> c[i].key != key
  {
    if c == [] then None
    else if c[|c| - 1].key == key then Some(|c| - 1)
    else Find(c[..|c| - 1], key)
  }

  predicate Expired(e: Entry, now: int) { e.expiresAt <= now }

  function Lookup(c: Cache, key: string, now: int): Option<string> {
    match Find(c, key)
    case None => None
    case Some(i) => if c[i].expiresAt > now then Some(c[i].token) else None
  }

  /** Writing an existing key keeps its place in the order. */
  function Set(c: Cache, e: Entry): Cache {
    match Find(c, e.key)
    case None => c + [e]
    case Some(i) => c[i := e]
  }

  function Unexpired(c: Cache, now: int): Cache {
    if c == [] then []
    else Unexpired(c[..|c| - 1], now) + if Expired(c[|c| - 1], now) then [] else [c[|c| - 1]]
  }

  /** Full: drop what has expired; still full: drop the oldest. */
  function MakeRoom(c: Cache, now: int): Cache {
    if |c| < CACHE_MAX_ENTRIES then c
    else
      var kept := Unexpired(c, now);
      if |kept| >= CACHE_MAX_ENTRIES then kept[1..] else kept
  }

  /** The endpoint has answered: make room at one instant, store at the next. */
  function Store(c: Cache, audience: string, subject: string, token: string, pruneAt: int, storeAt: int): Cache {
    Set(MakeRoom(c, pruneAt), Entry(KeyOf(audience, subject), token, storeAt + CACHE_TTL_MS))
  }

  // ----- what is evicted -----

  lemma {:induction false} UnexpiredKeeps(c: Cache, now: int, e: Entry)
    ensures e in Unexpired(c, now) <==> e in c && !Expired(e, now)
    ensures |Unexpired(c, now)| <= |c|
    ensures (forall i :: 0 <= i < |c| ==> !Expired(c[i], now)) <==> Unexpired(c, now) == c
    ensures (exists i :: 0 <= i < |c| && Expired(c[i], now)) ==> |Unexpired(c, now)| < |c|
  {
    if c != [] {
      var rest, last := c[..|c| - 1], c[|c| - 1];
      UnexpiredKeeps(rest, now, e);
      assert c == rest + [last];
      assert forall i :: 0 <= i < |rest| ==> c[i] == rest[i];
    }
  }

  lemma {:induction false} UnexpiredDistinct(c: Cache, now: int)
    requires Distinct(c)
    ensures Distinct(Unexpired(c, now))
  {
    if c != [] {
      var rest := c[..|c| - 1];
      UnexpiredDistinct(rest, now);
      forall e | e in Unexpired(rest, now) ensures e.key != c[|c| - 1].key {
        UnexpiredKeeps(rest, now, e);
      }
    }
  }

  lemma MakeRoomOk(c: Cache, now: int)
    requires Distinct(c) && |c| <= CACHE_MAX_ENTRIES
    ensures Distinct(MakeRoom(c, now)) && |MakeRoom(c, now)| < CACHE_MAX_ENTRIES
  {
    UnexpiredDistinct(c, now);
    if c != [] { UnexpiredKeeps(c, now, c[0]); }
  }

  predicate AllFresh(c: Cache, now: int) {
    forall i :: 0 <= i < |c| ==> !Expired(c[i], now)
  }

  /** Pushed out by a store: only from a full cache, either expired, or first of a cache with nothing expired. */
  predicate Evicted(c: Cache, now: int, e: Entry) {
    |c| >= CACHE_MAX_ENTRIES && (Expired(e, now) || (AllFresh(c, now) && e == c[0]))
  }

  lemma RoomExactly(c: Cache, now: int, e: Entry)
    requires Distinct(c) && |c| <= CACHE_MAX_ENTRIES && e in c
    ensures e in MakeRoom(c, now) <==> !Evicted(c, now, e)
  {
    UnexpiredKeeps(c, now, e);
    if |c| == CACHE_MAX_ENTRIES && AllFresh(c, now) {
      assert Unexpired(c, now) == c;
      assert e != c[0] ==> e in c[1..];
      assert e == c[0] ==> e !in c[1..];
    }
  }

  lemma SetMembers(c: Cache, e: Entry, d: Entry)
    requires Distinct(c)
    ensures Distinct(Set(c, e)) && |Set(c, e)| <= |c| + 1
    ensures d in Set(c, e) <==> d == e || (d in c && d.key != e.key)
  {
    match Find(c, e.key)
    case None =>
    case Some(i) =>
      var n := c[i := e];
      assert n[i] == e;
      forall j | 0 <= j < |c| && j != i ensures n[j] == c[j] && c[j].key != e.key { }
  }

  /** After a store the cache holds the new entry and, of the others, exactly those not evicted, as they were. */
  lemma StoreExactly(c: Cache, audience: string, subject: string, token: string, pruneAt: int, storeAt: int, d: Entry)
    requires Distinct(c) && |c| <= CACHE_MAX_ENTRIES
    ensures
      var n := Store(c, audience, subject, token, pruneAt, storeAt);
      var e := Entry(KeyOf(audience, subject), token, storeAt + CACHE_TTL_MS);
      && Distinct(n) && |n| <= CACHE_MAX_ENTRIES
      && (d in n <==> d == e || (d in c && d.key != e.key && !Evicted(c, pruneAt, d)))
  {
    var room := MakeRoom(c, pruneAt);
    MakeRoomOk(c, pruneAt);
    SetMembers(room, Entry(KeyOf(audience, subject), token, storeAt + CACHE_TTL_MS), d);
    if d in c {
      RoomExactly(c, pruneAt, d);
    } else {
      RoomAddsNothing(c, pruneAt, d);
    }
  }

  lemma RoomAddsNothing(c: Cache, now: int, d: Entry)
    requires d !in c
    ensures d !in MakeRoom(c, now)
  {
    UnexpiredKeeps(c, now, d);
  }

  // ----- calls in any order -----

  /** One answer of the endpoint that was stored. Lookups and failed exchanges change nothing, so the
      order in which calls start and wait does not matter: only the order of their stores does. */
  datatype Stored = Stored(audience: string, subject: string, token: string, pruneAt: int, storeAt: int)

  function Run(c: Cache, log: seq<Stored>): Cache
    decreases |log|
  {
    if log == [] then c
    else
      var last := log[|log| - 1];
      Store(Run(c, log[..|log| - 1]), last.audience, last.subject, last.token, last.pruneAt, last.storeAt)
  }

  predicate IsLatest(log: seq<Stored>, i: nat, key: string) {
    && i < |log| && KeyOf(log[i].audience, log[i].subject) == key
    && forall j :: i < j < |log| ==> KeyOf(log[j].audience, log[j].subject) != key
  }

  /** The entry holds what was stored last under its key. */
  ghost predicate Backed(log: seq<Stored>, e: Entry) {
    exists i: nat :: IsLatest(log, i, e.key) && e.token == log[i].token && e.expiresAt == log[i].storeAt + CACHE_TTL_MS
  }

  lemma BackedLater(log: seq<Stored>, last: Stored, e: Entry)
    requires Backed(log, e) && e.key != KeyOf(last.audience, last.subject)
    ensures Backed(log + [last], e)
  {
    var i: nat :| IsLatest(log, i, e.key) && e.token == log[i].token && e.expiresAt == log[i].storeAt + CACHE_TTL_MS;
    assert IsLatest(log + [last], i, e.key);
  }

  /** However many calls are in flight and in whatever order they complete: never over the cap, one entry
      a key, and each entry the last one stored under it. */
  lemma {:induction false} CacheStaysSound(log: seq<Stored>)
    ensures Distinct(Run([], log)) && |Run([], log)| <= CACHE_MAX_ENTRIES
    ensures forall e :: e in Run([], log) ==> Backed(log, e)
    decreases |log|
  {
    if log != [] {
      var before, last := log[..|log| - 1], log[|log| - 1];
      CacheStaysSound(before);
      assert log == before + [last];
      var c := Run([], before);
      var added := Entry(KeyOf(last.audience, last.subject), last.token, last.storeAt + CACHE_TTL_MS);
      StoreExactly(c, last.audience, last.subject, last.token, last.pruneAt, last.storeAt, added);
      forall e | e in Run([], log) ensures Backed(log, e) {
        StoreExactly(c, last.audience, last.subject, last.token, last.pruneAt, last.storeAt, e);
        if e == added {
          assert IsLatest(log, |before|, e.key);
        } else {
          BackedLater(before, last, e);
        }
      }
    }
  }

  /** The last token stored for exactly this audience and subject, if that was less than the TTL ago. */
  predicate IsCurrent(log: seq<Stored>, i: nat, audience: string, subject: string, now: int) {
    && i < |log| && log[i].audience == audience && log[i].subject == subject
    && now - log[i].storeAt < CACHE_TTL_MS
    && forall j :: i < j < |log| ==> !(log[j].audience == audience && log[j].subject == subject)
  }

  /** A hit is just that token. */
  lemma {:induction false} HitIsLatest(log: seq<Stored>, audience: string, subject: string, now: int)
    requires '\n' !in audience && forall j :: 0 <= j < |log| ==> '\n' !in log[j].audience
    requires Lookup(Run([], log), KeyOf(audience, subject), now).Some?
    ensures exists i: nat ::
      IsCurrent(log, i, audience, subject, now)
      && Lookup(Run([], log), KeyOf(audience, subject), now) == Some(log[i].token)
  {
    var c, key := Run([], log), KeyOf(audience, subject);
    CacheStaysSound(log);
    var e := c[Find(c, key).value];
    assert e in c && Backed(log, e);
    var i: nat :| IsLatest(log, i, key) && e.token == log[i].token && e.expiresAt == log[i].storeAt + CACHE_TTL_MS;
    PlainAudiencesNeverCollide(log[i].audience, log[i].subject, audience, subject);
    assert IsCurrent(log, i, audience, subject, now);
  }

  // ----- when a token is still there -----

  function EntryOf(s: Stored): Entry { Entry(KeyOf(s.audience, s.subject), s.token, s.storeAt + CACHE_TTL_MS) }

  /** No later store pushed out what the i-th one wrote. */
  predicate NeverEvicted(log: seq<Stored>, i: nat, e: Entry) {
    forall k :: i < k < |log| ==> !Evicted(Run([], log[..k]), log[k].pruneAt, e)
  }

  lemma NeverEvictedOneMore(log: seq<Stored>, last: Stored, i: nat, e: Entry)
    requires i < |log|
    ensures NeverEvicted(log + [last], i, e) <==>
      NeverEvicted(log, i, e) && !Evicted(Run([], log), last.pruneAt, e)
  {
    hide Evicted, Run;
    var more := log + [last];
    assert more[..|log|] == log && more[|log|] == last;
    assert forall k :: 0 <= k < |log| ==> more[..k] == log[..k] && more[k] == log[k];
  }

  lemma StoreOne(log: seq<Stored>, last: Stored, d: Entry)
    ensures Distinct(Run([], log)) && |Run([], log)| <= CACHE_MAX_ENTRIES
    ensures d in Run([], log + [last]) <==>
      d == EntryOf(last) || (d in Run([], log) && d.key != EntryOf(last).key && !Evicted(Run([], log), last.pruneAt, d))
  {
    var more := log + [last];
    assert more[..|more| - 1] == log && more[|more| - 1] == last;
    var c := Run([], log);
    assert Run([], more) == Store(c, last.audience, last.subject, last.token, last.pruneAt, last.storeAt);
    CacheStaysSound(log);
    hide Run, Store, Evicted;
    StoreExactly(c, last.audience, last.subject, last.token, last.pruneAt, last.storeAt, d);
  }

  /** The last entry stored under a key is in the cache exactly as long as no later store has evicted it. */
  lemma {:induction false} LatestHeldExactly(log: seq<Stored>, i: nat)
    requires i < |log| && IsLatest(log, i, KeyOf(log[i].audience, log[i].subject))
    ensures EntryOf(log[i]) in Run([], log) <==> NeverEvicted(log, i, EntryOf(log[i]))
    decreases |log|
  {
    hide Run, Evicted;
    var before, last, e := log[..|log| - 1], log[|log| - 1], EntryOf(log[i]);
    assert log == before + [last];
    StoreOne(before, last, e);
    if i < |before| {
      assert IsLatest(before, i, e.key);
      LatestHeldExactly(before, i);
      NeverEvictedOneMore(before, last, i, e);
      hide NeverEvicted;
    }
  }

  /** A lookup hits exactly when the last token stored for this call is less than the TTL old and was never
      evicted; the hit is that token. */
  lemma HitExactly(log: seq<Stored>, i: nat, now: int)
    requires i < |log| && forall j :: 0 <= j < |log| ==> '\n' !in log[j].audience
    requires forall j :: i < j < |log| ==>
      !(log[j].audience == log[i].audience && log[j].subject == log[i].subject)
    ensures
      var hit := Lookup(Run([], log), KeyOf(log[i].audience, log[i].subject), now);
      && (hit.Some? <==> now - log[i].storeAt < 240_000 && NeverEvicted(log, i, EntryOf(log[i])))
      && (hit.Some? ==> hit.value == log[i].token)
  {
    hide NeverEvicted, Run, Evicted;
    var key, c := KeyOf(log[i].audience, log[i].subject), Run([], log);
    LatestByCall(log, i);
    CacheStaysSound(log);
    LatestHeldExactly(log, i);
    hide Backed;
    if EntryOf(log[i]) in c { HeldIsFound(c, EntryOf(log[i])); }
    if Find(c, key).Some? { LatestIsOne(log, i, c[Find(c, key).value]); }
    hide IsLatest, KeyOf, Find;
  }

  lemma LatestByCall(log: seq<Stored>, i: nat)
    requires i < |log| && forall j :: 0 <= j < |log| ==> '\n' !in log[j].audience
    requires forall j :: i < j < |log| ==>
      !(log[j].audience == log[i].audience && log[j].subject == log[i].subject)
    ensures IsLatest(log, i, KeyOf(log[i].audience, log[i].subject))
  {
    forall j | i < j < |log| ensures KeyOf(log[j].audience, log[j].subject) != KeyOf(log[i].audience, log[i].subject) {
      PlainAudiencesNeverCollide(log[j].audience, log[j].subject, log[i].audience, log[i].subject);
    }
    hide KeyOf;
  }

  lemma LatestIsOne(log: seq<Stored>, i: nat, e: Entry)
    requires Backed(log, e) && IsLatest(log, i, e.key)
    ensures e == EntryOf(log[i])
  {
    hide KeyOf;
    var k: nat :| IsLatest(log, k, e.key) && e.token == log[k].token && e.expiresAt == log[k].storeAt + CACHE_TTL_MS;
    assert k == i;
  }

  lemma HeldIsFound(c: Cache, e: Entry)
    requires Distinct(c) && e in c
    ensures Find(c, e.key).Some? && c[Find(c, e.key).value] == e
  {
    var i :| 0 <= i < |c| && c[i] == e;
  }

  /** Until 256 tokens have been stored nothing is evicted: every call less than four minutes old is a hit. */
  lemma FewCallsAlwaysHit(log: seq<Stored>, i: nat, now: int)
    requires |log| <= 256 && i < |log| && forall j :: 0 <= j < |log| ==> '\n' !in log[j].audience
    requires forall j :: i < j < |log| ==>
      !(log[j].audience == log[i].audience && log[j].subject == log[i].subject)
    requires now - log[i].storeAt < 240_000
    ensures Lookup(Run([], log), KeyOf(log[i].audience, log[i].subject), now) == Some(log[i].token)
  {
    HitExactly(log, i, now);
    forall k | i < k < |log| ensures !Evicted(Run([], log[..k]), log[k].pruneAt, EntryOf(log[i])) {
      CacheNotLarger(log[..k]);
    }
  }

  lemma {:induction false} CacheNotLarger(log: seq<Stored>)
    ensures |Run([], log)| <= |log|
    decreases |log|
  {
    if log != [] {
      var before, last := log[..|log| - 1], log[|log| - 1];
      CacheNotLarger(before);
      CacheStaysSound(before);
      var c := Run([], before);
      assert Run([], log) == Store(c, last.audience, last.subject, last.token, last.pruneAt, last.storeAt);
      hide Run;
      StoreAddsOne(c, last);
    }
  }

  lemma StoreAddsOne(c: Cache, last: Stored)
    requires Distinct(c) && |c| <= CACHE_MAX_ENTRIES
    ensures |Store(c, last.audience, last.subject, last.token, last.pruneAt, last.storeAt)| <= |c| + 1
  {
    MakeRoomOk(c, last.pruneAt);
    SetMembers(MakeRoom(c, last.pruneAt), EntryOf(last), EntryOf(last));
    UnexpiredKeeps(c, last.pruneAt, EntryOf(last));
    hide Set, Unexpired, KeyOf;
  }

  // ----- the service -----

  class TokenCache {
    var entries: Cache

    ghost predicate Valid()
      reads this
    {
      Distinct(entries) && |entries| <= CACHE_MAX_ENTRIES
    }

    constructor ()
      ensures Valid() && entries == []
    {
      entries := [];
    }

    /** The first half of `getToken`, up to the request. */
    method CachedToken(subject: string, audience: string, now: int) returns (token: Option<string>)
      ensures token == Lookup(entries, KeyOf(audience, subject), now)
    {
      var hit := Find(entries, audience + "\n" + subject);
      if hit.Some? && entries[hit.value].expiresAt > now { return Some(entries[hit.value].token); }
      token := None;
    }

    /** The second half, once the endpoint has answered with a token. */
    method Remember(subject: string, audience: string, token: string, pruneAt: int, storeAt: int)
      requires Valid()
      modifies this
      ensures entries == Store(old(entries), audience, subject, token, pruneAt, storeAt)
      ensures Valid()
    {
      var key := audience + "\n" + subject;
      StoreExactly(entries, audience, subject, token, pruneAt, storeAt, Entry(key, token, storeAt + CACHE_TTL_MS));
      if |entries| >= CACHE_MAX_ENTRIES {
        DropExpired(pruneAt);
        if |entries| >= CACHE_MAX_ENTRIES { entries := entries[1..]; }
      }
      var e := Entry(key, token, storeAt + CACHE_TTL_MS);
      var at := Find(entries, key);
      entries := if at.Some? then entries[at.value := e] else entries + [e];
    }

    method DropExpired(now: int)
      modifies this
      ensures entries == Unexpired(old(entries), now)
    {
      ghost var seen: nat := 0;
      var i := 0;
      assert old(entries)[0..] == old(entries);
      while i < |entries|
        invariant 0 <= i <= |entries| && seen <= |old(entries)|
        invariant entries[..i] == Unexpired(old(entries)[..seen], now)
        invariant entries[i..] == old(entries)[seen..]
        decreases |entries| - i
      {
        assert old(entries)[..seen + 1][..seen] == old(entries)[..seen];
        assert entries[i] == entries[i..][0] == old(entries)[seen];
        assert entries[i + 1..] == entries[i..][1..] == old(entries)[seen + 1..];
        if entries[i].expiresAt <= now {
          entries := entries[..i] + entries[i + 1..];
        } else {
          assert entries[..i + 1] == entries[..i] + [entries[i]];
          i := i + 1;
        }
        seen := seen + 1;
      }
      assert entries[..i] == entries && old(entries)[..seen] == old(entries);
    }
  }
}
