/** The resolver's response cache: reference-counted entries with a time to live.

    A look-up that hits raises the entry's count, releases the lock for the application's callback
    and lowers the count afterwards; meanwhile other threads look up, store and expire entries.  The
    steps below are the sections run under the lock.  Times are in milliseconds. */
module ResolverCache {
  import opened Options
  import opened DnsTypes
  import opened DnsCopy

  type Entry = nat   // address of a cached_res and its pool
  type Reader = nat  // a callback in progress that was handed a cached packet

  datatype Cached = Cached(key: Key, pkt: Packet, expiry: nat, refCnt: nat)

  // What a callback was handed: the entry, and the packet as it was then.
  datatype Held = Held(entry: Entry, pkt: Packet)

  // memory holds the entries whose pool has not been released.
  datatype Cache = Cache(table: map<Key, Entry>, memory: map<Entry, Cached>, readers: map<Reader, Held>,
                         nextEntry: Entry, nextReader: Reader)

  const Empty := Cache(map[], map[], map[], 0, 0)

  const INVALID_TTL := 60
  const MAX_UINT32 := 0xFFFFFFFF
  const NEVER := 0x7FFFFFFF * 1000

  // ---------------------------------------------------------------- time to live

  function LeastTtl(ans: seq<RR>): (ttl: nat)
    ensures forall i :: 0 <= i < |ans| ==> ttl <= ans[i].ttl
    ensures ttl == MAX_UINT32 || exists i :: 0 <= i < |ans| && ttl == ans[i].ttl
  {
    if ans == [] then MAX_UINT32
    else
      var t := LeastTtl(ans[..|ans| - 1]);
      assert forall i :: 0 <= i < |ans| - 1 ==> ans[i] == ans[..|ans| - 1][i];
      if ans[|ans| - 1].ttl < t then ans[|ans| - 1].ttl else t
  }

  // The TTL given to a response; 0 means that it is not kept.
  function Ttl(ok: bool, setExpiry: bool, pkt: Packet, maxTtl: nat): nat {
    var ttl := if !setExpiry then MAX_UINT32
               else if pkt.ans == [] || !ok then INVALID_TTL
               else LeastTtl(pkt.ans);
    if ttl > maxTtl then maxTtl else ttl
  }

  function Expiry(setExpiry: bool, ttl: nat, now: nat): nat {
    if setExpiry then now + ttl * 1000 else NEVER
  }

  method ComputeTtl(ok: bool, setExpiry: bool, pkt: Packet, maxTtl: nat) returns (ttl: nat)
    ensures ttl == Ttl(ok, setExpiry, pkt, maxTtl)
  {
    if setExpiry {
      if pkt.ans == [] || !ok {
        ttl := INVALID_TTL;
      } else {
        ttl := MAX_UINT32;
        for i := 0 to |pkt.ans|
          invariant ttl == LeastTtl(pkt.ans[..i])
        {
          assert pkt.ans[..i + 1][..i] == pkt.ans[..i];
          if pkt.ans[i].ttl < ttl {
            ttl := pkt.ans[i].ttl;
          }
        }
        assert pkt.ans[..|pkt.ans|] == pkt.ans;
      }
    } else {
      ttl := MAX_UINT32;
    }
    if ttl > maxTtl {
      ttl := maxTtl;
    }
  }

  // ---------------------------------------------------------------- steps

  // Lower the count and release the pool when nobody is left.
  function Unref(c: Cache, e: Entry): Cache
    requires e in c.memory
  {
    if c.memory[e].refCnt <= 1 then c.(memory := c.memory - {e})
    else c.(memory := c.memory[e := c.memory[e].(refCnt := c.memory[e].refCnt - 1)])
  }

  predicate InMemory(c: Cache) {
    forall k <- c.table :: c.table[k] in c.memory
  }

  // Take the entry for key out of the table.
  function Remove(c: Cache, key: Key): Cache
    requires InMemory(c)
  {
    if key in c.table then Unref(c.(table := c.table - {key}), c.table[key]) else c
  }

  lemma RemoveMissing(c: Cache, key: Key)
    requires InMemory(c) && key !in c.table
    ensures Remove(c, key) == c
  {}

  predicate Fresh(c: Cache, key: Key, now: nat)
    requires InMemory(c)
  {
    key in c.table && c.memory[c.table[key]].expiry > now
  }

  // Hand the packet to a new reader.
  function AddReader(c: Cache, e: Entry): Cache
    requires e in c.memory
  {
    c.(memory := c.memory[e := c.memory[e].(refCnt := c.memory[e].refCnt + 1)],
    readers := c.readers[c.nextReader := Held(e, c.memory[e].pkt)],
    nextReader := c.nextReader + 1)
  }

  // An expired entry is taken out.
  function Lookup(c: Cache, key: Key, now: nat): Cache
    requires InMemory(c)
  {
    if Fresh(c, key, now) then AddReader(c, c.table[key]) else Remove(c, key)
  }

  function EndRead(c: Cache, r: Reader): Cache
    requires r in c.readers && c.readers[r].entry in c.memory
  {
    Unref(c.(readers := c.readers - {r}), c.readers[r].entry)
  }

  // Put a packet under key in a new entry, or in the old one when nobody is reading it.
  function Place(c: Cache, key: Key, pkt: Packet, expiry: nat): Cache
    requires InMemory(c)
  {
    if key in c.table && c.memory[c.table[key]].refCnt <= 1 then
      c.(memory := c.memory[c.table[key] := Cached(key, pkt, expiry, c.memory[c.table[key]].refCnt)])
    else
      var c1 := Remove(c, key);
      c1.(table := c1.table[key := c.nextEntry],
      memory := c1.memory[c.nextEntry := Cached(key, pkt, expiry, 1)],
      nextEntry := c.nextEntry + 1)
  }

  // update_res_cache
  function Store(c: Cache, key: Key, ok: bool, setExpiry: bool, pkt: Packet, now: nat, maxTtl: nat): Cache
    requires InMemory(c) && InMemory(Remove(c, key))
  {
    var c1 := if ok then c else Remove(c, key);
    var ttl := Ttl(ok, setExpiry, pkt, maxTtl);
    if ttl == 0 then Remove(c1, key)
    else Place(c1, key, DupForCache(pkt), Expiry(setExpiry, ttl, now))
  }

  function Forgotten(c: Cache, key: Key, ok: bool): Cache
    requires InMemory(c)
  {
    if ok then c else Remove(c, key)
  }

  function Kept(c: Cache, key: Key, ttl: nat, setExpiry: bool, pkt: Packet, now: nat): Cache
    requires InMemory(c)
  {
    if ttl == 0 then Remove(c, key) else Place(c, key, DupForCache(pkt), Expiry(setExpiry, ttl, now))
  }

  // ---------------------------------------------------------------- reference counts

  function ReadersOf(c: Cache, e: Entry): set<Reader> {
    set r | r in c.readers && c.readers[r].entry == e
  }

  predicate InTable(c: Cache, e: Entry)
    requires e in c.memory
  {
    c.memory[e].key in c.table && c.table[c.memory[e].key] == e
  }

  function Uses(c: Cache, e: Entry): nat
    requires e in c.memory
  {
    (if InTable(c, e) then 1 else 0) + |ReadersOf(c, e)|
  }

  // The table maps each key to an entry of its own.
  ghost predicate Keyed(c: Cache) {
    InMemory(c) && (forall k <- c.table :: c.memory[c.table[k]].key == k) && (forall e <- c.memory :: e < c.nextEntry)
  }

  // Every count is right, except that extra counts one use that just ended.
  ghost predicate Counted(c: Cache, extra: map<Entry, nat>) {
    forall e <- c.memory :: c.memory[e].refCnt == Uses(c, e) + (if e in extra then extra[e] else 0) >= 1
  }

  // What a callback was handed is still there, and unchanged.
  ghost predicate HeldOk(c: Cache) {
    forall r <- c.readers :: r < c.nextReader && c.readers[r].entry in c.memory && c.memory[c.readers[r].entry].pkt == c.readers[r].pkt
  }

  ghost predicate ValidBut(c: Cache, extra: map<Entry, nat>) { Keyed(c) && Counted(c, extra) && HeldOk(c) }

  ghost predicate Valid(c: Cache) { ValidBut(c, map[]) }

  lemma UnrefCounted(c: Cache, e: Entry)
    requires e in c.memory && Counted(c, map[e := 1])
    ensures Counted(Unref(c, e), map[])
    ensures e !in Unref(c, e).memory ==> !InTable(c, e) && ReadersOf(c, e) == {}
  {
    var c' := Unref(c, e);
    forall e1 ensures ReadersOf(c', e1) == ReadersOf(c, e1) {}
  }

  lemma UnrefHeld(c: Cache, e: Entry)
    requires e in c.memory && HeldOk(c) && (e !in Unref(c, e).memory ==> ReadersOf(c, e) == {})
    ensures HeldOk(Unref(c, e))
  {
    forall r <- c.readers ensures c.readers[r].entry in Unref(c, e).memory { assert r in ReadersOf(c, c.readers[r].entry); }
  }

  lemma UnrefKeyed(c: Cache, e: Entry)
    requires e in c.memory && Keyed(c) && (e !in Unref(c, e).memory ==> !InTable(c, e))
    ensures Keyed(Unref(c, e))
  {}

  lemma UnrefValid(c: Cache, e: Entry)
    requires e in c.memory && ValidBut(c, map[e := 1])
    ensures Valid(Unref(c, e))
    ensures Unref(c, e).table == c.table && Unref(c, e).readers == c.readers && Unref(c, e).nextEntry == c.nextEntry
  {
    UnrefCounted(c, e);
    hide Counted, HeldOk, Keyed, ReadersOf;
    UnrefHeld(c, e);
    UnrefKeyed(c, e);
  }

  lemma RemoveValid(c: Cache, key: Key)
    requires Valid(c)
    ensures Valid(Remove(c, key)) && Remove(c, key).readers == c.readers && Remove(c, key).table == c.table - {key}
    ensures Remove(c, key).nextEntry == c.nextEntry
    ensures forall k <- c.table :: k != key ==> Remove(c, key).memory[c.table[k]] == c.memory[c.table[k]]
  {
    if key in c.table {
      var c1, e := c.(table := c.table - {key}), c.table[key];
      forall e1 ensures ReadersOf(c1, e1) == ReadersOf(c, e1) {}
      assert ValidBut(c1, map[e := 1]);
      UnrefValid(c1, e);
    }
  }

  lemma EndReadValid(c: Cache, r: Reader)
    requires Valid(c) && r in c.readers
    ensures Valid(EndRead(c, r)) && EndRead(c, r).table == c.table && EndRead(c, r).readers == c.readers - {r}
  {
    var c1, e := c.(readers := c.readers - {r}), c.readers[r].entry;
    assert ReadersOf(c1, e) == ReadersOf(c, e) - {r};
    forall e1 | e1 != e ensures ReadersOf(c1, e1) == ReadersOf(c, e1) {}
    assert r in ReadersOf(c, e);
    assert ValidBut(c1, map[e := 1]);
    UnrefValid(c1, e);
  }

  lemma HitCounted(c: Cache, key: Key, now: nat)
    requires InMemory(c) && Counted(c, map[]) && Fresh(c, key, now) && c.nextReader !in c.readers
    ensures Counted(Lookup(c, key, now), map[])
  {
    var c', e := Lookup(c, key, now), c.table[key];
    assert ReadersOf(c', e) == ReadersOf(c, e) + {c.nextReader};
    forall e1 | e1 != e ensures ReadersOf(c', e1) == ReadersOf(c, e1) {}
  }

  lemma HitKeyed(c: Cache, key: Key, now: nat)
    requires Keyed(c) && HeldOk(c) && Fresh(c, key, now)
    ensures Keyed(Lookup(c, key, now)) && HeldOk(Lookup(c, key, now)) && c.nextReader !in c.readers
  {}

  lemma HitValid(c: Cache, key: Key, now: nat)
    requires Valid(c) && Fresh(c, key, now)
    ensures Valid(Lookup(c, key, now))
  {
    HitKeyed(c, key, now);
    hide HeldOk;
    HitCounted(c, key, now);
    hide Counted, Keyed;
  }

  lemma ResetValid(c: Cache, key: Key, pkt: Packet, expiry: nat)
    requires Valid(c) && key in c.table && c.memory[c.table[key]].refCnt <= 1
    ensures Valid(Place(c, key, pkt, expiry))
  {
    var c', e := Place(c, key, pkt, expiry), c.table[key];
    assert ReadersOf(c, e) == {};
    forall r <- c.readers ensures c.readers[r].entry != e { assert r in ReadersOf(c, c.readers[r].entry); }
    forall e1 ensures ReadersOf(c', e1) == ReadersOf(c, e1) {}
  }

  lemma NewEntryCounted(c: Cache, key: Key, pkt: Packet, expiry: nat)
    requires Keyed(c) && Counted(c, map[]) && HeldOk(c) && key !in c.table
    ensures Counted(Place(c, key, pkt, expiry), map[])
  {
    var c', e := Place(c, key, pkt, expiry), c.nextEntry;
    forall e1 ensures ReadersOf(c', e1) == ReadersOf(c, e1) {}
    assert ReadersOf(c, e) == {};
  }

  lemma NewEntryHeld(c: Cache, key: Key, pkt: Packet, expiry: nat)
    requires Keyed(c) && HeldOk(c) && key !in c.table
    ensures Keyed(Place(c, key, pkt, expiry)) && HeldOk(Place(c, key, pkt, expiry))
  {}

  lemma NewEntryValid(c: Cache, key: Key, pkt: Packet, expiry: nat)
    requires Valid(c) && key !in c.table
    ensures Valid(Place(c, key, pkt, expiry))
  {
    hide Keyed, Counted, HeldOk, Place;
    NewEntryCounted(c, key, pkt, expiry);
    NewEntryHeld(c, key, pkt, expiry);
  }

  lemma PlaceValid(c: Cache, key: Key, pkt: Packet, expiry: nat)
    requires Valid(c)
    ensures Valid(Place(c, key, pkt, expiry)) && Place(c, key, pkt, expiry).readers == c.readers
  {
    if key in c.table && c.memory[c.table[key]].refCnt <= 1 {
      ResetValid(c, key, pkt, expiry);
    } else {
      RemoveValid(c, key);
      NewEntryValid(Remove(c, key), key, pkt, expiry);
      RemoveThenPlace(c, key, pkt, expiry);
    }
  }

  lemma LookupValid(c: Cache, key: Key, now: nat)
    requires Valid(c)
    ensures Valid(Lookup(c, key, now))
  {
    if Fresh(c, key, now) { HitValid(c, key, now); } else { RemoveValid(c, key); }
  }

  lemma StoreValid(c: Cache, key: Key, ok: bool, setExpiry: bool, pkt: Packet, now: nat, maxTtl: nat)
    requires Valid(c)
    ensures InMemory(Remove(c, key)) && Valid(Store(c, key, ok, setExpiry, pkt, now, maxTtl))
    ensures Store(c, key, ok, setExpiry, pkt, now, maxTtl).readers == c.readers
  {
    RemoveValid(c, key);
    var c1 := if ok then c else Remove(c, key);
    RemoveValid(c1, key);
    PlaceValid(c1, key, DupForCache(pkt), Expiry(setExpiry, Ttl(ok, setExpiry, pkt, maxTtl), now));
  }

  // A store clears a failed entry, and then drops or places the packet.
  lemma StoreSteps(c: Cache, key: Key, ok: bool, setExpiry: bool, pkt: Packet, now: nat, maxTtl: nat)
    requires Valid(c)
    ensures InMemory(c) && InMemory(Remove(c, key)) && Valid(Store(c, key, ok, setExpiry, pkt, now, maxTtl))
    ensures InMemory(Forgotten(c, key, ok))
    ensures Store(c, key, ok, setExpiry, pkt, now, maxTtl) ==
      Kept(Forgotten(c, key, ok), key, Ttl(ok, setExpiry, pkt, maxTtl), setExpiry, pkt, now)
  {
    StoreValid(c, key, ok, setExpiry, pkt, now, maxTtl);
    hide Remove, Place, Ttl, DupForCache;
  }

  // ---------------------------------------------------------------- the cache as a plain map

  datatype Stored = Stored(pkt: Packet, expiry: nat)

  function Contents(c: Cache): map<Key, Stored>
    requires InMemory(c)
  {
    map k | k in c.table :: Stored(c.memory[c.table[k]].pkt, c.memory[c.table[k]].expiry)
  }

  function SimpleStore(m: map<Key, Stored>, key: Key, ok: bool, setExpiry: bool, pkt: Packet, now: nat, maxTtl: nat): map<Key, Stored> {
    var ttl := Ttl(ok, setExpiry, pkt, maxTtl);
    if ttl == 0 then m - {key} else m[key := Stored(DupForCache(pkt), Expiry(setExpiry, ttl, now))]
  }

  lemma RemoveContents(c: Cache, key: Key)
    requires Keyed(c)
    ensures Keyed(Remove(c, key)) && Contents(Remove(c, key)) == Contents(c) - {key}
  {}

  lemma NewEntryContents(c: Cache, key: Key, pkt: Packet, expiry: nat)
    requires Keyed(c) && key !in c.table
    ensures Keyed(Place(c, key, pkt, expiry)) && Contents(Place(c, key, pkt, expiry)) == Contents(c)[key := Stored(pkt, expiry)]
  {}

  lemma ResetContents(c: Cache, key: Key, pkt: Packet, expiry: nat)
    requires Keyed(c) && key in c.table && c.memory[c.table[key]].refCnt <= 1
    ensures Keyed(Place(c, key, pkt, expiry)) && Contents(Place(c, key, pkt, expiry)) == Contents(c)[key := Stored(pkt, expiry)]
  {}

  lemma PlaceContents(c: Cache, key: Key, pkt: Packet, expiry: nat)
    requires Keyed(c)
    ensures Keyed(Place(c, key, pkt, expiry)) && Contents(Place(c, key, pkt, expiry)) == Contents(c)[key := Stored(pkt, expiry)]
  {
    if key in c.table && c.memory[c.table[key]].refCnt <= 1 {
      ResetContents(c, key, pkt, expiry);
    } else {
      RemoveContents(c, key);
      RemoveThenPlace(c, key, pkt, expiry);
      hide Contents, Place, Remove, Keyed;
      NewEntryContents(Remove(c, key), key, pkt, expiry);
      Overwrite(Contents(c), key, Stored(pkt, expiry));
    }
  }

  lemma Overwrite(m: map<Key, Stored>, key: Key, value: Stored)
    ensures (m - {key})[key := value] == m[key := value]
  {}

  lemma RemoveThenPlace(c: Cache, key: Key, pkt: Packet, expiry: nat)
    requires Keyed(c) && !(key in c.table && c.memory[c.table[key]].refCnt <= 1)
    ensures InMemory(Remove(c, key)) && key !in Remove(c, key).table
    ensures Place(c, key, pkt, expiry) == Place(Remove(c, key), key, pkt, expiry)
  {}

  lemma StoreContents(c: Cache, key: Key, ok: bool, setExpiry: bool, pkt: Packet, now: nat, maxTtl: nat)
    requires Keyed(c)
    ensures InMemory(Remove(c, key)) && Keyed(Store(c, key, ok, setExpiry, pkt, now, maxTtl))
    ensures Contents(Store(c, key, ok, setExpiry, pkt, now, maxTtl)) == SimpleStore(Contents(c), key, ok, setExpiry, pkt, now, maxTtl)
  {
    hide Contents, Remove, Place, Ttl, DupForCache;
    RemoveContents(c, key);
    var c1, ttl := if ok then c else Remove(c, key), Ttl(ok, setExpiry, pkt, maxTtl);
    if ttl == 0 {
      RemoveContents(c1, key);
    } else {
      PlaceContents(c1, key, DupForCache(pkt), Expiry(setExpiry, ttl, now));
    }
  }

  lemma EndReadContents(c: Cache, r: Reader)
    requires Valid(c) && r in c.readers
    ensures Keyed(EndRead(c, r)) && Contents(EndRead(c, r)) == Contents(c)
  {
    EndReadValid(c, r);
  }

  // ---------------------------------------------------------------- runs

  datatype Event =
    | DoLookup(key: Key, now: nat)
    | DoEndRead(reader: Reader)
    | DoStore(key: Key, ok: bool, setExpiry: bool, pkt: Packet, now: nat)
    | DoNothing   // a step of the queries alone

  predicate Enabled(c: Cache, e: Event) {
    && InMemory(c)
    && (e.DoEndRead? ==> e.reader in c.readers && c.readers[e.reader].entry in c.memory)
    && (e.DoStore? ==> InMemory(Remove(c, e.key)))
  }

  function Step(c: Cache, e: Event, maxTtl: nat): Cache
    requires Enabled(c, e)
  {
    match e
    case DoLookup(key, now) => Lookup(c, key, now)
    case DoEndRead(r) => EndRead(c, r)
    case DoStore(key, ok, setExpiry, pkt, now) => Store(c, key, ok, setExpiry, pkt, now, maxTtl)
    case DoNothing => c
  }

  ghost predicate StepAt(cs: seq<Cache>, es: seq<Event>, maxTtl: nat, i: nat) {
    i < |es| && i + 1 < |cs| && Enabled(cs[i], es[i]) && cs[i + 1] == Step(cs[i], es[i], maxTtl)
  }

  ghost predicate IsRun(cs: seq<Cache>, es: seq<Event>, maxTtl: nat) {
    |cs| == |es| + 1 && cs[0] == Empty && forall i: nat :: i < |es| ==> StepAt(cs, es, maxTtl, i)
  }

  lemma StepValid(c: Cache, e: Event, maxTtl: nat)
    requires Valid(c) && Enabled(c, e)
    ensures Valid(Step(c, e, maxTtl))
    ensures forall r <- c.readers :: e != DoEndRead(r) ==> r in Step(c, e, maxTtl).readers && Step(c, e, maxTtl).readers[r] == c.readers[r]
  {
    match e
    case DoLookup(key, now) =>
      LookupValid(c, key, now);
      RemoveValid(c, key);
    case DoEndRead(r) => EndReadValid(c, r);
    case DoStore(key, ok, setExpiry, pkt, now) => StoreValid(c, key, ok, setExpiry, pkt, now, maxTtl);
    case DoNothing =>
  }

  lemma {:induction false} RunValid(cs: seq<Cache>, es: seq<Event>, maxTtl: nat, i: nat)
    requires IsRun(cs, es, maxTtl) && i <= |es|
    ensures Valid(cs[i])
  {
    if i > 0 {
      RunValid(cs, es, maxTtl, i - 1);
      assert StepAt(cs, es, maxTtl, i - 1);
      StepValid(cs[i - 1], es[i - 1], maxTtl);
    }
  }

  // In every reachable state an entry's memory is kept exactly while the table or a callback uses it,
  // and its count is the number of those uses.
  lemma MemoryIsReferenceCounted(cs: seq<Cache>, es: seq<Event>, maxTtl: nat, i: nat, e: Entry)
    requires IsRun(cs, es, maxTtl) && i <= |es|
    ensures e in cs[i].memory <==>
      (exists k :: k in cs[i].table && cs[i].table[k] == e) || (exists r :: r in cs[i].readers && cs[i].readers[r].entry == e)
    ensures e in cs[i].memory ==> cs[i].memory[e].refCnt == Uses(cs[i], e)
  {
    RunValid(cs, es, maxTtl, i);
    var c := cs[i];
    if e in c.memory && !InTable(c, e) {
      var r :| r in ReadersOf(c, e);
    }
  }

  // While a callback runs, whatever the other threads do, the packet it was handed stays as it was.
  lemma {:induction false} HeldPacketIsStable(cs: seq<Cache>, es: seq<Event>, maxTtl: nat, i: nat, j: nat, r: Reader)
    requires IsRun(cs, es, maxTtl) && i <= j <= |es| && r in cs[i].readers
    requires forall k :: i <= k < j ==> es[k] != DoEndRead(r)
    ensures r in cs[j].readers && cs[j].readers[r] == cs[i].readers[r]
    ensures cs[i].readers[r].entry in cs[j].memory && cs[j].memory[cs[i].readers[r].entry].pkt == cs[i].readers[r].pkt
    decreases j
  {
    RunValid(cs, es, maxTtl, j);
    if i < j {
      HeldPacketIsStable(cs, es, maxTtl, i, j - 1, r);
      RunValid(cs, es, maxTtl, j - 1);
      assert StepAt(cs, es, maxTtl, j - 1);
      StepValid(cs[j - 1], es[j - 1], maxTtl);
    }
  }

  // The packet of a store, and until when it may be served.
  function StoredBy(e: Event, maxTtl: nat): Stored
    requires e.DoStore?
  {
    Stored(DupForCache(e.pkt), Expiry(e.setExpiry, Ttl(e.ok, e.setExpiry, e.pkt, maxTtl), e.now))
  }

  // es[j] is the last store under key among the first i events.
  ghost predicate LastStore(es: seq<Event>, i: nat, key: Key, j: nat) {
    j < i <= |es| && es[j].DoStore? && es[j].key == key && forall k :: j < k < i && es[k].DoStore? ==> es[k].key != key
  }

  lemma StepContents(c: Cache, e: Event, maxTtl: nat, key: Key)
    requires Valid(c) && Enabled(c, e)
    ensures InMemory(Step(c, e, maxTtl))
    ensures key in Contents(Step(c, e, maxTtl)) ==>
      if e.DoStore? && e.key == key then
        Ttl(e.ok, e.setExpiry, e.pkt, maxTtl) > 0 && Contents(Step(c, e, maxTtl))[key] == StoredBy(e, maxTtl)
      else key in Contents(c) && Contents(Step(c, e, maxTtl))[key] == Contents(c)[key]
  {
    match e
    case DoLookup(k, now) => if !Fresh(c, k, now) { RemoveContents(c, k); }
    case DoEndRead(r) => EndReadContents(c, r);
    case DoStore(k, ok, setExpiry, pkt, now) => StoreContents(c, k, ok, setExpiry, pkt, now, maxTtl);
    case DoNothing =>
  }

  lemma RunContents(cs: seq<Cache>, es: seq<Event>, maxTtl: nat, i: nat, key: Key)
    requires IsRun(cs, es, maxTtl) && i < |es|
    ensures InMemory(cs[i]) && InMemory(cs[i + 1])
    ensures key in Contents(cs[i + 1]) ==>
      if es[i].DoStore? && es[i].key == key then
        Ttl(es[i].ok, es[i].setExpiry, es[i].pkt, maxTtl) > 0 && Contents(cs[i + 1])[key] == StoredBy(es[i], maxTtl)
      else key in Contents(cs[i]) && Contents(cs[i + 1])[key] == Contents(cs[i])[key]
  {
    RunValid(cs, es, maxTtl, i);
    assert StepAt(cs, es, maxTtl, i);
    StepContents(cs[i], es[i], maxTtl, key);
  }

  // What the cache holds under a key is what the last store under that key put there.
  lemma {:induction false} ContentsAreLastStore(cs: seq<Cache>, es: seq<Event>, maxTtl: nat, i: nat, key: Key) returns (j: nat)
    requires IsRun(cs, es, maxTtl) && i <= |es| && InMemory(cs[i]) && key in cs[i].table
    ensures LastStore(es, i, key, j) && Contents(cs[i])[key] == StoredBy(es[j], maxTtl)
    ensures Ttl(es[j].ok, es[j].setExpiry, es[j].pkt, maxTtl) > 0
  {
    RunContents(cs, es, maxTtl, i - 1, key);
    assert key in Contents(cs[i]);
    if es[i - 1].DoStore? && es[i - 1].key == key {
      j := i - 1;
    } else {
      j := ContentsAreLastStore(cs, es, maxTtl, i - 1, key);
    }
  }

  // A hit hands out the packet of the last store under that key, and only before its TTL ran out.
  lemma HitIsLastStore(cs: seq<Cache>, es: seq<Event>, maxTtl: nat, i: nat, key: Key, now: nat) returns (j: nat)
    requires IsRun(cs, es, maxTtl) && i < |es| && es[i] == DoLookup(key, now) && InMemory(cs[i]) && Fresh(cs[i], key, now)
    ensures LastStore(es, i, key, j)
    ensures var r := cs[i].nextReader;
      && r in cs[i + 1].readers && cs[i + 1].readers[r].pkt == DupForCache(es[j].pkt)
      && now < Expiry(es[j].setExpiry, Ttl(es[j].ok, es[j].setExpiry, es[j].pkt, maxTtl), es[j].now)
  {
    j := ContentsAreLastStore(cs, es, maxTtl, i, key);
    assert StepAt(cs, es, maxTtl, i);
  }

  function Min(a: nat, b: nat): nat { if a < b then a else b }

  // In the application's terms: the questions and answers of the last store, names up to case, and only
  // for the least TTL of its answers, or for 60 seconds if it failed or had none, and never longer than
  // the configured maximum.
  lemma HitServesLastAnswer(cs: seq<Cache>, es: seq<Event>, maxTtl: nat, i: nat, key: Key, now: nat) returns (j: nat)
    requires IsRun(cs, es, maxTtl) && i < |es| && es[i] == DoLookup(key, now) && InMemory(cs[i]) && Fresh(cs[i], key, now)
    ensures LastStore(es, i, key, j) && cs[i].nextReader in cs[i + 1].readers
    ensures var pkt, src := cs[i + 1].readers[cs[i].nextReader].pkt, es[j].pkt;
      && |pkt.q| == |src.q| && (forall k :: 0 <= k < |src.q| ==> CopiedQuery(pkt.q[k], src.q[k]))
      && |pkt.ans| == |src.ans| && (forall k :: 0 <= k < |src.ans| ==> CopiedRR(pkt.ans[k], src.ans[k]))
    ensures es[j].setExpiry ==>
      now < es[j].now + 1000 * Min(maxTtl, if es[j].ok && es[j].pkt.ans != [] then LeastTtl(es[j].pkt.ans) else INVALID_TTL)
  {
    hide IsRun, DupForCache, LeastTtl, Fresh, CopiedQuery, CopiedRR;
    j := HitIsLastStore(cs, es, maxTtl, i, key, now);
    DupKeepsPacket(es[j].pkt);
  }

  // ---------------------------------------------------------------- when a look-up hits

  // The clock does not go back.
  ghost predicate InOrder(es: seq<Event>) {
    forall a, b :: 0 <= a < b < |es| && IsTimed(es[a]) && IsTimed(es[b]) ==> es[a].now <= es[b].now
  }

  predicate IsTimed(e: Event) { e.DoLookup? || e.DoStore? }

  // What a key holds stays there until it is stored again or looked up too late.
  lemma StepKeeps(c: Cache, e: Event, maxTtl: nat, key: Key)
    requires Valid(c) && Enabled(c, e) && key in Contents(c) && !(e.DoStore? && e.key == key)
    requires e.DoLookup? && e.key == key ==> e.now < Contents(c)[key].expiry
    ensures InMemory(Step(c, e, maxTtl)) && key in Contents(Step(c, e, maxTtl)) && Contents(Step(c, e, maxTtl))[key] == Contents(c)[key]
  {
    match e
    case DoLookup(k, now) => if !Fresh(c, k, now) { RemoveContents(c, k); }
    case DoEndRead(r) => EndReadContents(c, r);
    case DoStore(k, ok, setExpiry, pkt, now) => StoreContents(c, k, ok, setExpiry, pkt, now, maxTtl);
    case DoNothing =>
  }

  lemma StoreKeeps(c: Cache, e: Event, maxTtl: nat)
    requires Valid(c) && Enabled(c, e) && e.DoStore? && Ttl(e.ok, e.setExpiry, e.pkt, maxTtl) > 0
    ensures InMemory(Step(c, e, maxTtl)) && e.key in Contents(Step(c, e, maxTtl)) && Contents(Step(c, e, maxTtl))[e.key] == StoredBy(e, maxTtl)
  {
    StoreContents(c, e.key, e.ok, e.setExpiry, e.pkt, e.now, maxTtl);
  }

  // The last store under a key was kept and has not been looked up too late.
  ghost predicate KeptUntil(es: seq<Event>, maxTtl: nat, i: nat, key: Key, j: nat) {
    && LastStore(es, i, key, j) && Ttl(es[j].ok, es[j].setExpiry, es[j].pkt, maxTtl) > 0
    && forall k :: j < k < i && es[k].DoLookup? && es[k].key == key ==> es[k].now < StoredBy(es[j], maxTtl).expiry
  }

  lemma {:induction false} KeptIsThere(cs: seq<Cache>, es: seq<Event>, maxTtl: nat, i: nat, key: Key, j: nat)
    requires IsRun(cs, es, maxTtl) && i <= |es| && KeptUntil(es, maxTtl, i, key, j)
    ensures InMemory(cs[i]) && key in Contents(cs[i]) && Contents(cs[i])[key] == StoredBy(es[j], maxTtl)
  {
    RunValid(cs, es, maxTtl, i - 1);
    assert StepAt(cs, es, maxTtl, i - 1);
    hide Valid, Step, Enabled, Contents, StoredBy, IsRun;
    if i == j + 1 {
      StoreKeeps(cs[j], es[j], maxTtl);
    } else {
      KeptIsThere(cs, es, maxTtl, i - 1, key, j);
      StepKeeps(cs[i - 1], es[i - 1], maxTtl, key);
    }
  }

  // The last store under key, at step j, was kept and has not run out.
  ghost predicate IsCurrent(es: seq<Event>, maxTtl: nat, i: nat, key: Key, now: nat, j: nat) {
    LastStore(es, i, key, j) && Ttl(es[j].ok, es[j].setExpiry, es[j].pkt, maxTtl) > 0 && now < StoredBy(es[j], maxTtl).expiry
  }

  // A look-up hits if and only if the last store under the key was kept and its time has not run out.
  lemma HitExactly(cs: seq<Cache>, es: seq<Event>, maxTtl: nat, i: nat, key: Key, now: nat)
    requires IsRun(cs, es, maxTtl) && InOrder(es) && i < |es| && es[i] == DoLookup(key, now)
    ensures InMemory(cs[i])
    ensures Fresh(cs[i], key, now) <==> exists j: nat :: IsCurrent(es, maxTtl, i, key, now, j)
  {
    RunValid(cs, es, maxTtl, i);
    hide IsRun, Step, Enabled, Ttl, DupForCache;
    if Fresh(cs[i], key, now) {
      var j := ContentsAreLastStore(cs, es, maxTtl, i, key);
      assert now < StoredBy(es[j], maxTtl).expiry;
      assert IsCurrent(es, maxTtl, i, key, now, j);
    }
    if j: nat :| IsCurrent(es, maxTtl, i, key, now, j) {
      assert KeptUntil(es, maxTtl, i, key, j);
      KeptIsThere(cs, es, maxTtl, i, key, j);
    }
  }

  // A packet that replaces one that nobody reads takes its entry; only then is no other allocated.
  lemma EntryIsReused(c: Cache, key: Key, pkt: Packet, expiry: nat)
    requires Valid(c) && key in c.table
    ensures (forall r <- c.readers :: c.readers[r].entry != c.table[key]) <==> Place(c, key, pkt, expiry).table == c.table
    ensures Place(c, key, pkt, expiry).nextEntry == c.nextEntry <==> Place(c, key, pkt, expiry).table == c.table
  {
    var e := c.table[key];
    assert InTable(c, e) && c.memory[e].refCnt == 1 + |ReadersOf(c, e)|;
    if |ReadersOf(c, e)| == 0 {
      forall r <- c.readers ensures c.readers[r].entry != e { assert r !in ReadersOf(c, e); }
    } else {
      var r :| r in ReadersOf(c, e);
      assert e < c.nextEntry;
      assert Place(c, key, pkt, expiry).table[key] == c.nextEntry;
    }
  }

  // ---------------------------------------------------------------- for how long a look-up hits

  predicate TtlsFit(pkt: Packet) { forall k :: 0 <= k < |pkt.ans| ==> pkt.ans[k].ttl < 0x1_0000_0000 }

  // Seconds from t, in milliseconds, have not passed.
  predicate Within(now: nat, t: nat, seconds: nat) { now < t + 1000 * seconds }

  // Until when a packet that was given a time to live is served: for the least of its TTLs and the
  // configured maximum if it was good and had answers, else for 60 seconds and at most the maximum.
  predicate InTime(e: Event, maxTtl: nat, now: nat)
    requires e.DoStore?
  {
    && Within(now, e.now, maxTtl)
    && if e.ok && e.pkt.ans != [] then forall k :: 0 <= k < |e.pkt.ans| ==> Within(now, e.now, e.pkt.ans[k].ttl)
       else Within(now, e.now, 60)
  }

  lemma LeastIsWithin(now: nat, t: nat, ans: seq<RR>)
    requires ans != [] && forall k :: 0 <= k < |ans| ==> ans[k].ttl < 0x1_0000_0000
    ensures Within(now, t, LeastTtl(ans)) <==> forall k :: 0 <= k < |ans| ==> Within(now, t, ans[k].ttl)
  {
    assert ans[0].ttl >= LeastTtl(ans);
    hide LeastTtl;
  }

  lemma CurrentInTime(es: seq<Event>, maxTtl: nat, i: nat, key: Key, now: nat, j: nat)
    requires i < |es| && es[i] == DoLookup(key, now) && InOrder(es) && LastStore(es, i, key, j) && TtlsFit(es[j].pkt)
    ensures es[j].setExpiry ==> (IsCurrent(es, maxTtl, i, key, now, j) <==> InTime(es[j], maxTtl, now))
    ensures !es[j].setExpiry ==> (IsCurrent(es, maxTtl, i, key, now, j) <==> maxTtl > 0 && now < 1000 * 0x7FFF_FFFF)
  {
    var e := es[j];
    assert e.now <= now by { assert IsTimed(es[j]) && IsTimed(es[i]); }
    if e.ok && e.pkt.ans != [] { LeastIsWithin(now, e.now, e.pkt.ans); }
    hide LeastTtl, DupForCache, InOrder, LastStore;
  }

  // In the application's terms: a look-up is answered from the cache if and only if the last store under
  // its key is still in time.
  lemma HitWhileInTime(cs: seq<Cache>, es: seq<Event>, maxTtl: nat, i: nat, key: Key, now: nat, j: nat)
    requires IsRun(cs, es, maxTtl) && InOrder(es) && i < |es| && es[i] == DoLookup(key, now)
    requires LastStore(es, i, key, j) && TtlsFit(es[j].pkt)
    ensures InMemory(cs[i])
    ensures es[j].setExpiry ==> (Fresh(cs[i], key, now) <==> InTime(es[j], maxTtl, now))
    ensures !es[j].setExpiry ==> (Fresh(cs[i], key, now) <==> maxTtl > 0 && now < 1000 * 0x7FFF_FFFF)
  {
    hide IsRun, InOrder, Fresh, InTime;
    HitExactly(cs, es, maxTtl, i, key, now);
    CurrentInTime(es, maxTtl, i, key, now, j);
    forall k: nat | IsCurrent(es, maxTtl, i, key, now, k) ensures k == j {}
  }

  // Without a store under its key a look-up never hits.
  lemma NoStoreNoHit(cs: seq<Cache>, es: seq<Event>, maxTtl: nat, i: nat, key: Key, now: nat)
    requires IsRun(cs, es, maxTtl) && InOrder(es) && i < |es| && es[i] == DoLookup(key, now)
    requires forall k :: 0 <= k < i && es[k].DoStore? ==> es[k].key != key
    ensures InMemory(cs[i]) && !Fresh(cs[i], key, now)
  {
    hide IsRun, InOrder, Fresh;
    HitExactly(cs, es, maxTtl, i, key, now);
  }

  // ---------------------------------------------------------------- the cache object

  class ResponseCache {
    const maxTtl: nat
    var table: map<Key, Entry>         // hrescache
    var memory: map<Entry, Cached>
    var readers: map<Reader, Held>
    var nextEntry: Entry
    var nextReader: Reader

    function View(): Cache
      reads this
    {
      Cache(table, memory, readers, nextEntry, nextReader)
    }

    constructor (maxTtl: nat)
      ensures View() == Empty && this.maxTtl == maxTtl
    {
      this.maxTtl := maxTtl;
      table, memory, readers, nextEntry, nextReader := map[], map[], map[], 0, 0;
    }

    method Release(e: Entry)
      requires e in memory
      modifies this
      ensures View() == old(Unref(View(), e))
    {
      var n := memory[e].refCnt - 1;
      if n <= 0 {
        memory := memory - {e};
      } else {
        memory := memory[e := memory[e].(refCnt := n)];
      }
    }

    // A hit: the callback holds the entry while the lock is released.
    method Hold(e: Entry) returns (r: Reader)
      requires e in memory
      modifies this
      ensures View() == old(AddReader(View(), e)) && r == old(nextReader)
    {
      r := nextReader;
      readers := readers[r := Held(e, memory[e].pkt)];
      memory := memory[e := memory[e].(refCnt := memory[e].refCnt + 1)];
      nextReader := nextReader + 1;
    }

    // The first critical section of pj_dns_resolver_start_query.
    method Find(key: Key, now: nat) returns (hit: Option<Reader>)
      requires Valid(View())
      modifies this
      ensures Valid(View()) && View() == old(Lookup(View(), key, now))
      ensures hit == if old(Fresh(View(), key, now)) then Some(old(nextReader)) else None
    {
      LookupValid(View(), key, now);
      assert InMemory(View());
      hide Valid, Remove, AddReader;
      hit := None;
      if key in table {
        if memory[table[key]].expiry > now {
          var r := Hold(table[key]);
          hit := Some(r);
        } else {
          Drop(key);
        }
      } else {
        RemoveMissing(View(), key);
      }
    }

    // After the callback: the second critical section.
    method Done(r: Reader)
      requires Valid(View()) && r in readers
      modifies this
      ensures Valid(View()) && View() == old(EndRead(View(), r))
    {
      EndReadValid(View(), r);
      var e := readers[r].entry;
      readers := readers - {r};
      Release(e);
    }

    method Drop(key: Key)
      requires InMemory(View())
      modifies this
      ensures View() == old(Remove(View(), key))
    {
      if key in table {
        var e := table[key];
        table := table - {key};
        Release(e);
      }
    }

    // The entry for key, reset when nobody is reading it, else a new one.
    method Put(key: Key, pkt: Packet, expiry: nat)
      requires InMemory(View())
      modifies this
      ensures View() == old(Place(View(), key, pkt, expiry))
    {
      if key in table && memory[table[key]].refCnt <= 1 {
        // reset_entry: the pool is emptied and reused, the count stays
        memory := memory[table[key] := Cached(key, pkt, expiry, memory[table[key]].refCnt)];
      } else {
        hide Remove;
        Drop(key);
        memory := memory[nextEntry := Cached(key, pkt, expiry, 1)];
        table := table[key := nextEntry];
        nextEntry := nextEntry + 1;
      }
    }

    // A response that reports a failure clears the entry first.
    method Forget(key: Key, ok: bool)
      requires InMemory(View())
      modifies this
      ensures View() == old(Forgotten(View(), key, ok))
    {
      if !ok {
        Drop(key);
      }
    }

    // The second half: drop the entry, or put a copy of the packet there.
    method Keep(key: Key, ttl: nat, setExpiry: bool, pkt: Packet, now: nat)
      requires InMemory(View())
      modifies this
      ensures View() == old(Kept(View(), key, ttl, setExpiry, pkt, now))
    {
      hide Remove, Place, DupForCache, InMemory;
      if ttl == 0 {
        Drop(key);
      } else {
        var copy := PacketDup(pkt);
        Put(key, copy, if setExpiry then now + ttl * 1000 else NEVER);
      }
    }

    // update_res_cache
    method Update(key: Key, ok: bool, setExpiry: bool, pkt: Packet, now: nat)
      requires Valid(View())
      modifies this
      ensures Valid(View()) && old(InMemory(Remove(View(), key))) && View() == old(Store(View(), key, ok, setExpiry, pkt, now, maxTtl))
    {
      StoreSteps(View(), key, ok, setExpiry, pkt, now, maxTtl);
      hide Valid, InMemory, Remove, Ttl, Store, Forgotten, Kept;
      Forget(key, ok);
      var ttl := ComputeTtl(ok, setExpiry, pkt, maxTtl);
      Keep(key, ttl, setExpiry, pkt, now);
    }
  }
}
