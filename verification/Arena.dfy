/**
 The packed arena: length-prefixed records, and the hash buckets of offsets into it.

 A `Log` is the ghost history of the records in an arena, oldest first. Everything an index must
 hold is a function of that log (`Bucket`), for an arbitrary hash function.
 */
module Arena {
  import opened Bytes

  type StoredName = n: Text | Storable(n) witness [0]

  datatype Slot = Exact | Wild | Dead
  datatype Log = Empty | Push(before: Log, name: StoredName, slot: Slot)

  function Size(n: Text): nat { 2 + |n| }

  function Encode(n: StoredName): seq<byte> {
    [|n| % 256, |n| / 256] + n
  }

  function EncodeAll(log: Log): seq<byte> {
    match log
    case Empty => []
    case Push(before, n, _) => EncodeAll(before) + Encode(n)
  }

  /** The name stored at `offset`; the empty name when the record does not fit in the arena. */
  function DomainAt(arena: seq<byte>, offset: nat): Text {
    if offset + 2 > |arena| then []
    else
      var len := arena[offset] as int + 256 * arena[offset + 1] as int;
      if offset + 2 + len > |arena| then [] else arena[offset + 2..offset + 2 + len]
  }

  type Index = map<u64, seq<u32>>

  /** Hash lookup with collisions resolved by comparing bytes. */
  predicate ContainsIn(arena: seq<byte>, index: Index, domain: Text, hash: u64) {
    hash in index && exists k :: 0 <= k < |index[hash]| && DomainAt(arena, index[hash][k]) == domain
  }

  // ----- what the indexes mean -----

  /** Offsets, in arena order, of the records of `slot` whose name hashes to `h`. */
  function Bucket(hash: Text -> u64, log: Log, slot: Slot, h: u64): seq<nat> {
    match log
    case Empty => []
    case Push(before, n, s) =>
      Bucket(hash, before, slot, h) + if s == slot && hash(n) == h then [|EncodeAll(before)|] else []
  }

  ghost predicate Indexes(hash: Text -> u64, log: Log, slot: Slot, index: Index) {
    forall h: u64 ::
      && (h in index <==> Bucket(hash, log, slot, h) != [])
      && (h in index ==> index[h] == Bucket(hash, log, slot, h))
  }

  function Names(log: Log, slot: Slot): set<Text> {
    match log
    case Empty => {}
    case Push(before, n, s) => Names(before, slot) + if s == slot then {n} else {}
  }

  /** No name is stored twice in `slot`. */
  predicate Distinct(log: Log, slot: Slot) {
    match log
    case Empty => true
    case Push(before, n, s) => Distinct(before, slot) && (s == slot ==> n !in Names(before, slot))
  }

  function Count(log: Log, slot: Slot): nat {
    match log
    case Empty => 0
    case Push(before, _, s) => Count(before, slot) + if s == slot then 1 else 0
  }

  /** Arena bytes taken by the records of `slot`. */
  function SlotBytes(log: Log, slot: Slot): nat {
    match log
    case Empty => 0
    case Push(before, n, s) => SlotBytes(before, slot) + if s == slot then Size(n) else 0
  }

  /** The records of `slot` named `d` become holes. */
  function Kill(log: Log, slot: Slot, d: Text): Log {
    match log
    case Empty => Empty
    case Push(before, n, s) => Push(Kill(before, slot, d), n, if s == slot && n == d then Dead else s)
  }

  /** The names the offsets of one bucket decode to. */
  function NamesAt(arena: seq<byte>, offsets: seq<nat>): set<Text> {
    set k | 0 <= k < |offsets| :: DomainAt(arena, offsets[k])
  }

  // ----- decoding -----

  lemma DecodeAfter(before: seq<byte>, n: StoredName, tail: seq<byte>)
    ensures DomainAt(before + Encode(n) + tail, |before|) == n
  {
  }

  /** The newest record of a prefix of the arena decodes to its name, whatever follows. */
  lemma DecodeLast(log: Log, arena: seq<byte>)
    requires log.Push? && EncodeAll(log) <= arena
    ensures EncodeAll(log.before) <= arena
    ensures DomainAt(arena, |EncodeAll(log.before)|) == log.name
    ensures |EncodeAll(log.before)| + Size(log.name) == |EncodeAll(log)|
  {
    var before, tail := EncodeAll(log.before), arena[|EncodeAll(log)|..];
    assert arena == before + Encode(log.name) + tail;
    DecodeAfter(before, log.name, tail);
  }

  lemma NamesAtSnoc(arena: seq<byte>, offsets: seq<nat>, o: nat)
    ensures NamesAt(arena, offsets + [o]) == NamesAt(arena, offsets) + {DomainAt(arena, o)}
  {
    var all := offsets + [o];
    forall x | x in NamesAt(arena, offsets) + {DomainAt(arena, o)} ensures x in NamesAt(arena, all) {
      if x == DomainAt(arena, o) {
        assert all[|offsets|] == o;
      } else {
        var k :| 0 <= k < |offsets| && DomainAt(arena, offsets[k]) == x;
        assert all[k] == offsets[k];
      }
    }
  }

  lemma BucketNamesStep(hash: Text -> u64, log: Log, slot: Slot, h: u64, arena: seq<byte>)
    requires log.Push? && DomainAt(arena, |EncodeAll(log.before)|) == log.name
    requires NamesAt(arena, Bucket(hash, log.before, slot, h)) == set n | n in Names(log.before, slot) && hash(n) == h
    ensures NamesAt(arena, Bucket(hash, log, slot, h)) == set n | n in Names(log, slot) && hash(n) == h
  {
    var b, o := Bucket(hash, log.before, slot, h), |EncodeAll(log.before)|;
    if log.slot == slot && hash(log.name) == h {
      assert Bucket(hash, log, slot, h) == b + [o];
      NamesAtSnoc(arena, b, o);
    } else {
      assert Bucket(hash, log, slot, h) == b;
    }
  }

  /**
   Reading the offsets of bucket `h` out of the arena gives back exactly the names of `slot` that
   hash to `h`, whatever collides with them and whatever was appended later.
   */
  lemma {:induction false} BucketNames(hash: Text -> u64, log: Log, slot: Slot, h: u64, arena: seq<byte>)
    requires EncodeAll(log) <= arena
    ensures NamesAt(arena, Bucket(hash, log, slot, h)) == set n | n in Names(log, slot) && hash(n) == h
  {
    if log.Empty? {
    } else {
      DecodeLast(log, arena);
      BucketNames(hash, log.before, slot, h, arena);
      BucketNamesStep(hash, log, slot, h, arena);
    }
  }

  /** The hash lookup answers set membership, for every hash function. */
  lemma ContainsIsMembership(hash: Text -> u64, log: Log, slot: Slot, index: Index, d: Text)
    requires Indexes(hash, log, slot, index)
    ensures ContainsIn(EncodeAll(log), index, d, hash(d)) <==> d in Names(log, slot)
  {
    var h := hash(d);
    var b := Bucket(hash, log, slot, h);
    BucketNames(hash, log, slot, h, EncodeAll(log));
    assert d in NamesAt(EncodeAll(log), b) <==> d in Names(log, slot);
    if d in Names(log, slot) {
      var k :| 0 <= k < |b| && DomainAt(EncodeAll(log), b[k]) == d;
      assert index[h][k] == b[k];
    }
  }

  /** The offsets start whole records that do not overlap and end by `end`. */
  ghost predicate Packed(arena: seq<byte>, offsets: seq<nat>, end: nat) {
    && (forall k :: 0 <= k < |offsets| ==> offsets[k] + Size(DomainAt(arena, offsets[k])) <= end)
    && (forall j, k :: 0 <= j < k < |offsets| ==> offsets[j] + Size(DomainAt(arena, offsets[j])) <= offsets[k])
  }

  lemma PackedSnoc(arena: seq<byte>, offsets: seq<nat>, o: nat, end: nat)
    requires Packed(arena, offsets, o) && o + Size(DomainAt(arena, o)) <= end
    ensures Packed(arena, offsets + [o], end)
  {
  }

  /** No two records of a bucket overlap, whatever was appended later. */
  lemma {:induction false} BucketPacked(hash: Text -> u64, log: Log, slot: Slot, h: u64, arena: seq<byte>)
    requires EncodeAll(log) <= arena
    ensures Packed(arena, Bucket(hash, log, slot, h), |EncodeAll(log)|)
  {
    if log.Empty? {
    } else {
      DecodeLast(log, arena);
      BucketPacked(hash, log.before, slot, h, arena);
      PackedSnoc(arena, Bucket(hash, log.before, slot, h), |EncodeAll(log.before)|, |EncodeAll(log)|);
    }
  }

  /** Two records share no byte. */
  predicate Apart(arena: seq<byte>, o: nat, p: nat) {
    o + Size(DomainAt(arena, o)) <= p || p + Size(DomainAt(arena, p)) <= o
  }

  /** The offset at one position: `k`-th in the bucket of a hash, in the index of a slot. */
  datatype Position = Position(slot: Slot, hash: u64, k: nat)

  predicate Holds(hash: Text -> u64, log: Log, p: Position) {
    p.k < |Bucket(hash, log, p.slot, p.hash)|
  }

  function OffsetAt(hash: Text -> u64, log: Log, p: Position): nat
    requires Holds(hash, log, p)
  {
    Bucket(hash, log, p.slot, p.hash)[p.k]
  }

  /** A position either held its offset before the last push, or is where the last record is. */
  lemma PositionBefore(hash: Text -> u64, log: Log, p: Position)
    requires log.Push? && Holds(hash, log, p)
    ensures if Holds(hash, log.before, p) then OffsetAt(hash, log, p) == OffsetAt(hash, log.before, p)
            else && OffsetAt(hash, log, p) == |EncodeAll(log.before)|
                 && p == Position(log.slot, hash(log.name), |Bucket(hash, log.before, p.slot, p.hash)|)
  {
  }

  /** No two offsets of a store, in whichever buckets of whichever indexes, start overlapping records. */
  lemma {:induction false} RecordsApart(hash: Text -> u64, log: Log, p: Position, q: Position, arena: seq<byte>)
    requires EncodeAll(log) <= arena && p != q && Holds(hash, log, p) && Holds(hash, log, q)
    ensures Apart(arena, OffsetAt(hash, log, p), OffsetAt(hash, log, q))
  {
    if log.Empty? {
    } else {
      DecodeLast(log, arena);
      PositionBefore(hash, log, p);
      PositionBefore(hash, log, q);
      if Holds(hash, log.before, p) && Holds(hash, log.before, q) {
        RecordsApart(hash, log.before, p, q, arena);
      } else if Holds(hash, log.before, p) {
        BucketPacked(hash, log.before, p.slot, p.hash, arena);
      } else if Holds(hash, log.before, q) {
        BucketPacked(hash, log.before, q.slot, q.hash, arena);
      }
    }
  }

  // ----- appending -----

  /** Pushing the offset of a fresh record keeps its own index right. */
  lemma IndexesPush(hash: Text -> u64, log: Log, n: StoredName, slot: Slot, index: Index, offset: u32)
    requires Indexes(hash, log, slot, index) && offset == |EncodeAll(log)|
    ensures var h := hash(n);
            Indexes(hash, Push(log, n, slot), slot, index[h := (if h in index then index[h] else []) + [offset]])
  {
  }

  // ----- removing -----

  /** The byte comparison that resolves collisions. */
  predicate DomainEq(arena: seq<byte>, offset: nat, d: Text) {
    DomainAt(arena, offset) == d
  }

  function Hit(arena: seq<byte>, d: Text): nat -> bool {
    (o: nat) => DomainEq(arena, o, d)
  }

  /** Among the first `i` offsets, those that are not hits. */
  function Retain(hit: nat -> bool, offsets: seq<nat>, i: nat): seq<nat>
    requires i <= |offsets|
  {
    if i == 0 then []
    else Retain(hit, offsets, i - 1) + if hit(offsets[i - 1]) then [] else [offsets[i - 1]]
  }

  /** `size` for every hit among the first `i` offsets. */
  function Dropped(hit: nat -> bool, size: nat, offsets: seq<nat>, i: nat): nat
    requires i <= |offsets|
  {
    if i == 0 then 0
    else Dropped(hit, size, offsets, i - 1) + if hit(offsets[i - 1]) then size else 0
  }

  lemma {:induction false} RetainPrefix(hit: nat -> bool, size: nat, offsets: seq<nat>, o: nat, i: nat)
    requires i <= |offsets|
    ensures Retain(hit, offsets + [o], i) == Retain(hit, offsets, i)
    ensures Dropped(hit, size, offsets + [o], i) == Dropped(hit, size, offsets, i)
  {
    if i == 0 {
    } else {
      RetainPrefix(hit, size, offsets, o, i - 1);
    }
  }

  lemma RetainSnoc(hit: nat -> bool, size: nat, offsets: seq<nat>, o: nat)
    ensures Retain(hit, offsets + [o], |offsets| + 1) == Retain(hit, offsets, |offsets|) + if hit(o) then [] else [o]
    ensures Dropped(hit, size, offsets + [o], |offsets| + 1)
         == Dropped(hit, size, offsets, |offsets|) + if hit(o) then size else 0
  {
    RetainPrefix(hit, size, offsets, o, |offsets|);
  }

  /** When nothing is dropped the offsets are what they were. */
  lemma {:induction false} NothingDropped(hit: nat -> bool, size: nat, offsets: seq<nat>, i: nat)
    requires i <= |offsets|
    ensures |Retain(hit, offsets, i)| <= i
    ensures |Retain(hit, offsets, i)| == i ==>
              Retain(hit, offsets, i) == offsets[..i] && Dropped(hit, size, offsets, i) == 0
  {
    if i == 0 {
    } else {
      NothingDropped(hit, size, offsets, i - 1);
      assert offsets[..i] == offsets[..i - 1] + [offsets[i - 1]];
    }
  }

  lemma {:induction false} KillEncoding(log: Log, slot: Slot, d: Text)
    ensures EncodeAll(Kill(log, slot, d)) == EncodeAll(log)
  {
    if log.Empty? {
    } else {
      KillEncoding(log.before, slot, d);
    }
  }

  lemma KillBucketStep(hash: Text -> u64, log: Log, slot: Slot, d: Text, h: u64, hit: nat -> bool)
    requires slot != Dead && log.Push? && hit(|EncodeAll(log.before)|) == (log.name == d)
    requires var b := Bucket(hash, log.before, slot, h);
             Bucket(hash, Kill(log.before, slot, d), slot, h) == Retain(hit, b, |b|)
    ensures var b := Bucket(hash, log, slot, h);
            Bucket(hash, Kill(log, slot, d), slot, h) == Retain(hit, b, |b|)
  {
    var b, o := Bucket(hash, log.before, slot, h), |EncodeAll(log.before)|;
    KillEncoding(log.before, slot, d);
    if log.slot == slot && hash(log.name) == h {
      assert Bucket(hash, log, slot, h) == b + [o];
      RetainSnoc(hit, 0, b, o);
    } else {
      assert Bucket(hash, log, slot, h) == b;
    }
  }

  /** Turning records into holes and dropping their offsets from the bucket are the same thing. */
  lemma {:induction false} KillBucket(hash: Text -> u64, log: Log, slot: Slot, d: Text, h: u64, arena: seq<byte>)
    requires slot != Dead && EncodeAll(log) <= arena
    ensures var b := Bucket(hash, log, slot, h);
            Bucket(hash, Kill(log, slot, d), slot, h) == Retain(Hit(arena, d), b, |b|)
  {
    if log.Empty? {
    } else {
      DecodeLast(log, arena);
      KillBucket(hash, log.before, slot, d, h, arena);
      KillBucketStep(hash, log, slot, d, h, Hit(arena, d));
    }
  }

  lemma KillDroppedStep(hash: Text -> u64, log: Log, slot: Slot, d: Text, hit: nat -> bool)
    requires slot != Dead && log.Push? && hit(|EncodeAll(log.before)|) == (log.name == d)
    ensures var (b, b') := (Bucket(hash, log.before, slot, hash(d)), Bucket(hash, log, slot, hash(d)));
            var killed := log.slot == slot && log.name == d;
            && |b'| - |Retain(hit, b', |b'|)| == |b| - |Retain(hit, b, |b|)| + (if killed then 1 else 0)
            && Dropped(hit, Size(d), b', |b'|) == Dropped(hit, Size(d), b, |b|) + if killed then Size(d) else 0
  {
    var b, o := Bucket(hash, log.before, slot, hash(d)), |EncodeAll(log.before)|;
    if log.slot == slot && hash(log.name) == hash(d) {
      assert Bucket(hash, log, slot, hash(d)) == b + [o];
      RetainSnoc(hit, Size(d), b, o);
    } else {
      assert Bucket(hash, log, slot, hash(d)) == b;
    }
  }

  /** The offsets dropped from the bucket of `d` account for the records turned into holes. */
  lemma {:induction false} KillDropped(hash: Text -> u64, log: Log, slot: Slot, d: Text, arena: seq<byte>)
    requires slot != Dead && EncodeAll(log) <= arena
    ensures var b := Bucket(hash, log, slot, hash(d));
            && |b| - |Retain(Hit(arena, d), b, |b|)| == Count(log, slot) - Count(Kill(log, slot, d), slot)
            && Dropped(Hit(arena, d), Size(d), b, |b|) == SlotBytes(log, slot) - SlotBytes(Kill(log, slot, d), slot)
            && |b| <= |EncodeAll(log)|
  {
    if log.Empty? {
    } else {
      DecodeLast(log, arena);
      KillDropped(hash, log.before, slot, d, arena);
      KillDroppedStep(hash, log, slot, d, Hit(arena, d));
    }
  }

  /** No other bucket, of this slot or of the other live one, changes. */
  lemma {:induction false} KillOtherBucket(hash: Text -> u64, log: Log, slot: Slot, d: Text, other: Slot, h: u64)
    requires slot != Dead && other != Dead && (other != slot || h != hash(d))
    ensures Bucket(hash, Kill(log, slot, d), other, h) == Bucket(hash, log, other, h)
  {
    if log.Empty? {
    } else {
      KillEncoding(log.before, slot, d);
      KillOtherBucket(hash, log.before, slot, d, other, h);
    }
  }

  /** Only `d` leaves `slot`, its bytes become dead bytes, and the other slot is untouched. */
  lemma {:induction false} KillNames(log: Log, slot: Slot, d: Text, other: Slot)
    requires slot != Dead && other != Dead && other != slot
    ensures var k := Kill(log, slot, d);
            && Names(k, slot) == Names(log, slot) - {d}
            && Names(k, other) == Names(log, other)
            && (Distinct(log, slot) ==> Distinct(k, slot))
            && (Distinct(log, other) ==> Distinct(k, other))
  {
    if log.Empty? {
    } else {
      KillNames(log.before, slot, d, other);
    }
  }

  lemma {:induction false} KillCounts(log: Log, slot: Slot, d: Text, other: Slot)
    requires slot != Dead && other != Dead && other != slot
    ensures var k := Kill(log, slot, d);
            && Count(k, other) == Count(log, other)
            && SlotBytes(k, other) == SlotBytes(log, other)
            && SlotBytes(k, slot) + SlotBytes(k, Dead) == SlotBytes(log, slot) + SlotBytes(log, Dead)
  {
    if log.Empty? {
    } else {
      KillCounts(log.before, slot, d, other);
    }
  }

  // ----- counting -----

  /** Total record bytes of a set of names. */
  ghost function SetBytes(s: set<Text>): nat {
    if s == {} then 0 else var n :| n in s; Size(n) + SetBytes(s - {n})
  }

  lemma {:induction false} SetBytesRemove(s: set<Text>, n: Text)
    requires n in s
    ensures SetBytes(s) == Size(n) + SetBytes(s - {n})
    decreases |s|
  {
    var m :| m in s && SetBytes(s) == Size(m) + SetBytes(s - {m});
    if m == n {
    } else {
      SetBytesRemove(s - {m}, n);
      SetBytesRemove(s - {n}, m);
      assert s - {m} - {n} == s - {n} - {m};
    }
  }

  lemma SetBytesAdd(s: set<Text>, n: Text)
    requires n !in s
    ensures SetBytes(s + {n}) == SetBytes(s) + Size(n)
  {
    SetBytesRemove(s + {n}, n);
    assert s + {n} - {n} == s;
  }

  lemma {:induction false} SetBytesMonotone(s: set<Text>, t: set<Text>)
    requires s <= t
    ensures SetBytes(s) <= SetBytes(t)
    decreases |t|
  {
    if s == {} {
    } else {
      var n :| n in s;
      SetBytesRemove(s, n);
      SetBytesRemove(t, n);
      SetBytesMonotone(s - {n}, t - {n});
    }
  }

  lemma {:induction false} SetBytesUnion(s: set<Text>, t: set<Text>)
    ensures SetBytes(s + t) <= SetBytes(s) + SetBytes(t)
    decreases |t|
  {
    if t == {} {
      assert s + t == s;
    } else {
      var n :| n in t;
      SetBytesRemove(t, n);
      SetBytesUnion(s, t - {n});
      if n in s {
        assert s + t == s + (t - {n});
      } else {
        assert s + t == (s + (t - {n})) + {n};
        SetBytesAdd(s + (t - {n}), n);
      }
    }
  }

  /** With no name stored twice, counts are set sizes. */
  lemma {:induction false} DistinctCount(log: Log, slot: Slot)
    requires Distinct(log, slot)
    ensures Count(log, slot) == |Names(log, slot)|
  {
    if log.Empty? {
    } else {
      DistinctCount(log.before, slot);
    }
  }

  /** With no name stored twice, the bytes in use depend on the set of names alone. */
  lemma {:induction false} DistinctBytes(log: Log, slot: Slot)
    requires Distinct(log, slot)
    ensures SlotBytes(log, slot) == SetBytes(Names(log, slot))
  {
    if log.Empty? {
    } else {
      DistinctBytes(log.before, slot);
      if log.slot == slot {
        SetBytesAdd(Names(log.before, slot), log.name);
      } else {
        assert Names(log, slot) == Names(log.before, slot);
      }
    }
  }

  /** Every arena byte belongs to exactly one record. */
  lemma {:induction false} ArenaBytes(log: Log)
    ensures |EncodeAll(log)| == SlotBytes(log, Exact) + SlotBytes(log, Wild) + SlotBytes(log, Dead)
  {
    if log.Empty? {
    } else {
      ArenaBytes(log.before);
    }
  }

  lemma {:induction false} NamesStorable(log: Log, slot: Slot)
    ensures forall n :: n in Names(log, slot) ==> Storable(n)
  {
    if log.Empty? {
    } else {
      NamesStorable(log.before, slot);
    }
  }
}
