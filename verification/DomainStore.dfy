/** The packed domain store, proved to behave as a plain pair of sets. */
module Stores {
  import opened Bytes
  import opened Arena
  import opened Lists
  import opened Lines

  const ARENA_LIMIT := 0x1_0000_0000

  /** The arena, both indexes and all counters are what the log of records says they are. */
  ghost predicate Represents(hash: Text -> u64, log: Log, arena: seq<byte>, exact: Index, wildcards: Index,
                             exactCount: nat, wildcardCount: nat, deadBytes: nat) {
    && arena == EncodeAll(log) && |arena| < ARENA_LIMIT
    && Indexes(hash, log, Exact, exact) && Indexes(hash, log, Wild, wildcards)
    && Distinct(log, Exact) && Distinct(log, Wild)
    && exactCount == Count(log, Exact) && wildcardCount == Count(log, Wild)
    && deadBytes == SlotBytes(log, Dead)
    && forall n :: n in Names(log, Exact) ==> !HasWildcardPrefix(n)
  }

  lemma RepresentsNothing(hash: Text -> u64)
    ensures Represents(hash, Empty, [], map[], map[], 0, 0, 0)
    ensures ContentsOf(Empty) == NO_NAMES
  {
  }

  function ContentsOf(log: Log): Sets { Sets(Names(log, Exact), Names(log, Wild)) }

  function IndexAdd(index: Index, h: u64, offset: u32): Index {
    index[h := (if h in index then index[h] else []) + [offset]]
  }

  /** Counts are set sizes, and arena bytes are the bytes of the listed names plus the holes. */
  lemma RepresentedSizes(hash: Text -> u64, log: Log, arena: seq<byte>, exact: Index, wildcards: Index,
                         exactCount: nat, wildcardCount: nat, deadBytes: nat)
    requires Represents(hash, log, arena, exact, wildcards, exactCount, wildcardCount, deadBytes)
    ensures exactCount == |ContentsOf(log).exact| && wildcardCount == |ContentsOf(log).wild|
    ensures |arena| == SetBytes(ContentsOf(log).exact) + SetBytes(ContentsOf(log).wild) + deadBytes
    ensures WellFormed(ContentsOf(log))
  {
    DistinctCount(log, Exact);
    DistinctCount(log, Wild);
    DistinctBytes(log, Exact);
    DistinctBytes(log, Wild);
    ArenaBytes(log);
    NamesStorable(log, Exact);
    NamesStorable(log, Wild);
  }

  /** The offsets of a bucket start whole records, and name exactly the listed domains of that hash. */
  lemma OffsetsDecode(hash: Text -> u64, log: Log, slot: Slot, index: Index, h: u64)
    requires Indexes(hash, log, slot, index) && h in index
    ensures Packed(EncodeAll(log), index[h], |EncodeAll(log)|)
    ensures NamesAt(EncodeAll(log), index[h]) == set n | n in Names(log, slot) && hash(n) == h
  {
    BucketPacked(hash, log, slot, h, EncodeAll(log));
    BucketNames(hash, log, slot, h, EncodeAll(log));
  }

  lemma RepresentsPush(hash: Text -> u64, log: Log, arena: seq<byte>, exact: Index, wildcards: Index,
                       exactCount: nat, wildcardCount: nat, deadBytes: nat, n: StoredName, wildcard: bool)
    requires Represents(hash, log, arena, exact, wildcards, exactCount, wildcardCount, deadBytes)
    requires n !in Names(log, if wildcard then Wild else Exact) && |arena| + Size(n) < ARENA_LIMIT
    requires !wildcard ==> !HasWildcardPrefix(n)
    ensures var (h, o) := (hash(n), |arena|);
            if wildcard then
              Represents(hash, Push(log, n, Wild), arena + Encode(n), exact, IndexAdd(wildcards, h, o),
                         exactCount, wildcardCount + 1, deadBytes)
            else
              Represents(hash, Push(log, n, Exact), arena + Encode(n), IndexAdd(exact, h, o), wildcards,
                         exactCount + 1, wildcardCount, deadBytes)
  {
    if wildcard {
      IndexesPush(hash, log, n, Wild, wildcards, |arena|);
    } else {
      IndexesPush(hash, log, n, Exact, exact, |arena|);
    }
  }

  /** Hash lookup on a represented store is set membership. */
  lemma LookupIsMembership(hash: Text -> u64, log: Log, arena: seq<byte>, exact: Index, wildcards: Index,
                           exactCount: nat, wildcardCount: nat, deadBytes: nat, d: Text)
    requires Represents(hash, log, arena, exact, wildcards, exactCount, wildcardCount, deadBytes)
    ensures ContainsIn(arena, exact, d, hash(d)) <==> d in ContentsOf(log).exact
    ensures ContainsIn(arena, wildcards, d, hash(d)) <==> d in ContentsOf(log).wild
  {
    ContainsIsMembership(hash, log, Exact, exact, d);
    ContainsIsMembership(hash, log, Wild, wildcards, d);
  }

  lemma {:induction false} DroppedMonotone(hit: nat -> bool, size: nat, offsets: seq<nat>, i: nat, j: nat)
    requires i <= j <= |offsets|
    ensures Dropped(hit, size, offsets, i) <= Dropped(hit, size, offsets, j)
  {
    if i == j {
    } else {
      DroppedMonotone(hit, size, offsets, i, j - 1);
    }
  }

  /** Keep the offsets that are not hits, and add up `size` for each of the others. */
  method RetainOffsets(hit: nat -> bool, size: nat, offsets: seq<u32>) returns (kept: seq<u32>, freed: nat)
    requires Dropped(hit, size, offsets, |offsets|) <= USIZE_MAX
    ensures kept == Retain(hit, offsets, |offsets|) && |kept| <= |offsets|
    ensures freed == Dropped(hit, size, offsets, |offsets|)
  {
    kept, freed := [], 0;
    for i := 0 to |offsets|
      invariant kept == Retain(hit, offsets, i) && |kept| <= i
      invariant freed == Dropped(hit, size, offsets, i)
    {
      DroppedMonotone(hit, size, offsets, i + 1, |offsets|);
      if hit(offsets[i]) {
        freed := SaturatingAdd(freed, size);
      } else {
        kept := kept + [offsets[i]];
      }
    }
  }

  /** Killing the records named `domain` frees one record when it is listed, and nothing otherwise. */
  lemma KillBytes(log: Log, slot: Slot, domain: Text, other: Slot)
    requires Distinct(log, slot) && slot != Dead && other != Dead && other != slot
    ensures SlotBytes(log, slot) - SlotBytes(Kill(log, slot, domain), slot) ==
            if domain in Names(log, slot) then Size(domain) else 0
  {
  }

  lemma KillIndexes(hash: Text -> u64, log: Log, slot: Slot, domain: Text, index: Index, index': Index, kept: seq<u32>)
    requires Indexes(hash, log, slot, index) && slot != Dead
    requires kept == Bucket(hash, Kill(log, slot, domain), slot, hash(domain))
    requires (hash(domain) in index' <==> kept != []) && BucketIn(index', hash(domain)) == kept
    requires forall g :: g != hash(domain) ==> (g in index' <==> g in index) && (g in index ==> index'[g] == index[g])
    ensures Indexes(hash, Kill(log, slot, domain), slot, index')
  {
    forall g: u64 | g != hash(domain) {
      KillOtherBucket(hash, log, slot, domain, slot, g);
    }
  }

  /**
   Drop every offset of `domain` from its bucket, count them off, drop an emptied bucket, and report
   the record bytes freed.
   */
  method RemoveFromIndex(hash: Text -> u64, arena: seq<byte>, index: Index, count: nat, domain: Text,
                         ghost log: Log, ghost slot: Slot, ghost other: Slot)
    returns (index': Index, count': nat, freed: nat)
    requires arena == EncodeAll(log) && Indexes(hash, log, slot, index) && count == Count(log, slot)
    requires Distinct(log, slot) && slot != Dead && other != Dead && other != slot
    requires |arena| < ARENA_LIMIT
    ensures Indexes(hash, Kill(log, slot, domain), slot, index')
    ensures count' == Count(Kill(log, slot, domain), slot)
    ensures freed == SlotBytes(log, slot) - SlotBytes(Kill(log, slot, domain), slot)
    ensures freed == if domain in Names(log, slot) then Size(domain) else 0
  {
    KillFacts(hash, log, slot, domain, other, arena, index);
    index', count', freed := DropHits(index, count, hash(domain), Hit(arena, domain), 2 + |domain|);
    HitsAreKills(hash, log, slot, domain, index, index', BucketIn(index', hash(domain)), count, count');
  }

  /** An index without the hits is the index of the log without the name. */
  lemma HitsAreKills(hash: Text -> u64, log: Log, slot: Slot, domain: Text, index: Index, index': Index,
                     kept: seq<u32>, count: nat, count': nat)
    requires Indexes(hash, log, slot, index) && slot != Dead && count == Count(log, slot)
    requires kept == Bucket(hash, Kill(log, slot, domain), slot, hash(domain))
    requires (hash(domain) in index' <==> kept != []) && BucketIn(index', hash(domain)) == kept
    requires forall g :: g != hash(domain) ==> (g in index' <==> g in index) && (g in index ==> index'[g] == index[g])
    requires Count(Kill(log, slot, domain), slot) <= count
    requires count' == SaturatingSub(count, count - Count(Kill(log, slot, domain), slot))
    ensures Indexes(hash, Kill(log, slot, domain), slot, index') && count' == Count(Kill(log, slot, domain), slot)
  {
    KillIndexes(hash, log, slot, domain, index, index', kept);
  }

  /** What dropping the hits of the bucket of `domain` amounts to. */
  lemma KillFacts(hash: Text -> u64, log: Log, slot: Slot, domain: Text, other: Slot, arena: seq<byte>, index: Index)
    requires arena == EncodeAll(log) && Indexes(hash, log, slot, index) && Distinct(log, slot) && |arena| < ARENA_LIMIT
    requires slot != Dead && other != Dead && other != slot
    ensures hash(domain) in index ==> index[hash(domain)] != []
    ensures var b := BucketIn(index, hash(domain));
            var (hit, killed) := (Hit(arena, domain), Kill(log, slot, domain));
            && Retain(hit, b, |b|) == Bucket(hash, killed, slot, hash(domain))
            && |b| - |Retain(hit, b, |b|)| == Count(log, slot) - Count(killed, slot)
            && Dropped(hit, Size(domain), b, |b|) == SlotBytes(log, slot) - SlotBytes(killed, slot) <= USIZE_MAX
            && Dropped(hit, Size(domain), b, |b|) == if domain in Names(log, slot) then Size(domain) else 0
  {
    assert BucketIn(index, hash(domain)) == Bucket(hash, log, slot, hash(domain));
    KillBytes(log, slot, domain, other);
    ArenaBytes(log);
    KillBucket(hash, log, slot, domain, hash(domain), arena);
    KillDropped(hash, log, slot, domain, arena);
  }

  /** The bucket an index holds for a hash, empty when it holds none. */
  function BucketIn(index: Index, h: u64): seq<u32> {
    if h in index then index[h] else []
  }

  /** Retain the misses of one bucket, and adjust index and count only when something was dropped. */
  method DropHits(index: Index, count: nat, h: u64, hit: nat -> bool, size: nat)
    returns (index': Index, count': nat, freed: nat)
    requires h in index ==> index[h] != []
    requires var b := BucketIn(index, h); Dropped(hit, size, b, |b|) <= USIZE_MAX
    ensures var b := BucketIn(index, h);
            var kept := Retain(hit, b, |b|);
            && (h in index' <==> kept != []) && BucketIn(index', h) == kept
            && |kept| <= |b| && count' == SaturatingSub(count, |b| - |kept|)
            && freed == Dropped(hit, size, b, |b|)
    ensures forall g :: g != h ==> (g in index' <==> g in index) && (g in index ==> index'[g] == index[g])
  {
    if h !in index {
      return index, count, 0;
    }
    var kept, bytes := RetainOffsets(hit, size, index[h]);
    var removed := |index[h]| - |kept|;
    if removed == 0 {
      NothingDropped(hit, size, index[h], |index[h]|);
      return index, count, 0;
    }
    count', freed := SaturatingSub(count, removed), bytes;
    index' := if kept == [] then index - {h} else index[h := kept];
  }

  lemma RepresentsKill(hash: Text -> u64, log: Log, arena: seq<byte>, exact: Index, wildcards: Index,
                       exactCount: nat, wildcardCount: nat, deadBytes: nat,
                       domain: Text, wildcard: bool, index: Index, count: nat, freed: nat)
    requires Represents(hash, log, arena, exact, wildcards, exactCount, wildcardCount, deadBytes)
    requires var slot := if wildcard then Wild else Exact;
             var killed := Kill(log, slot, domain);
             && Indexes(hash, killed, slot, index) && count == Count(killed, slot)
             && freed == SlotBytes(log, slot) - SlotBytes(killed, slot)
    ensures if wildcard then
              Represents(hash, Kill(log, Wild, domain), arena, exact, index, exactCount, count, deadBytes + freed)
            else
              Represents(hash, Kill(log, Exact, domain), arena, index, wildcards, count, wildcardCount,
                         deadBytes + freed)
    ensures wildcard ==>
              ContentsOf(Kill(log, Wild, domain)) == ContentsOf(log).(wild := ContentsOf(log).wild - {domain})
    ensures !wildcard ==>
              ContentsOf(Kill(log, Exact, domain)) == ContentsOf(log).(exact := ContentsOf(log).exact - {domain})
  {
    var slot, other := if wildcard then Wild else Exact, if wildcard then Exact else Wild;
    KillEncoding(log, slot, domain);
    KillNames(log, slot, domain, other);
    KillCounts(log, slot, domain, other);
    forall h: u64 ensures Bucket(hash, Kill(log, slot, domain), other, h) == Bucket(hash, log, other, h) {
      KillOtherBucket(hash, log, slot, domain, other, h);
    }
  }

  /** Bytes an arena needs for these names. */
  ghost function ListBytes(s: Sets): nat {
    SetBytes(s.exact) + SetBytes(s.wild)
  }

  function Plus(s: Sets, names: set<Text>, wildcard: bool): Sets {
    if wildcard then s.(wild := s.wild + names) else s.(exact := s.exact + names)
  }

  lemma NoNamesNoBytes(s: Sets)
    ensures |s.exact| + |s.wild| == 0 ==> s == NO_NAMES && ListBytes(s) == 0
  {
  }

  lemma ListBytesMonotone(s: Sets, t: Sets)
    requires s.exact <= t.exact && s.wild <= t.wild
    ensures ListBytes(s) <= ListBytes(t)
  {
    SetBytesMonotone(s.exact, t.exact);
    SetBytesMonotone(s.wild, t.wild);
  }

  lemma NamesAtPrefix(arena: seq<byte>, offsets: seq<nat>, i: nat)
    requires i < |offsets|
    ensures NamesAt(arena, offsets[..i + 1]) == NamesAt(arena, offsets[..i]) + {DomainAt(arena, offsets[i])}
    ensures NamesAt(arena, offsets[..i + 1]) <= NamesAt(arena, offsets)
  {
  }

  lemma UnionAdd(s: Sets, t: Sets, e: Entry)
    ensures Union(s, Add(t, e)) == Add(Union(s, t), e)
  {
  }

  /** One more entry, on the way to all of them. */
  lemma UnionStep(s: Sets, es: seq<Entry>, i: nat)
    requires i < |es|
    ensures Union(s, Gather(es, i + 1)) == Add(Union(s, Gather(es, i)), es[i])
    ensures ListBytes(Union(s, Gather(es, i + 1))) <= ListBytes(Union(s, Gather(es, |es|)))
  {
    GatherMonotone(es, i + 1, |es|);
    UnionAdd(s, Gather(es, i), es[i]);
    ListBytesMonotone(Union(s, Gather(es, i + 1)), Union(s, Gather(es, |es|)));
  }

  lemma CountOfAdd(s: Sets, e: Entry)
    requires !Has(s, e)
    ensures |Add(s, e).exact| + |Add(s, e).wild| == |s.exact| + |s.wild| + 1
  {
  }

  /** An ascending listing of a set of lines. */
  ghost predicate IsListing(lines: seq<Text>, s: set<Text>) {
    Sorted(lines) && forall x :: x in lines <==> x in s
  }

  function Starred(names: seq<Text>): seq<Text> {
    seq(|names|, i requires 0 <= i < |names| => [STAR, DOT] + names[i])
  }

  lemma CollectedLines(s: Sets, plain: seq<Text>, starred: seq<Text>)
    requires forall x :: x in plain <==> x in s.exact
    requires forall x :: x in starred <==> x in s.wild
    ensures forall x :: x in plain + Starred(starred) <==> x in LinesOf(s)
  {
    var tail := Starred(starred);
    forall w | w in s.wild ensures [STAR, DOT] + w in tail {
      var k :| 0 <= k < |starred| && starred[k] == w;
      assert tail[k] == [STAR, DOT] + w;
    }
  }

  lemma SortedListing(entries: seq<Text>, s: set<Text>)
    requires forall x :: x in entries <==> x in s
    ensures IsListing(Sort(entries), s) && |Sort(entries)| == |entries|
  {
    SortProperties(entries);
    assert forall x :: x in Sort(entries) <==> x in multiset(Sort(entries));
    assert forall x :: x in entries <==> x in multiset(entries);
  }

  /** The text is the ascending lines of the listed entries, joined by newlines and ended by one. */
  ghost predicate IsCompiled(content: Text, s: Sets, count: nat) {
    exists lines :: IsListing(lines, LinesOf(s)) && |lines| == count && content == Join(lines) + [NEWLINE]
  }

  /** Reading a compiled file gives the compiled sets exactly if every line is plain. */
  lemma CompiledRestores(content: Text, s: Sets, count: nat)
    requires IsCompiled(content, s, count) && WellFormed(s)
    ensures EntriesOf(SplitLines(content)) == s <==> forall line :: line in LinesOf(s) ==> PlainLine(line)
  {
    var lines :| IsListing(lines, LinesOf(s)) && |lines| == count && content == Join(lines) + [NEWLINE];
    CompiledFileReadsBackIff(s, lines);
  }

  lemma NameIsIndexed(hash: Text -> u64, log: Log, slot: Slot, index: Index, n: Text)
    requires Indexes(hash, log, slot, index) && n in Names(log, slot)
    ensures hash(n) in index
  {
    BucketNames(hash, log, slot, hash(n), EncodeAll(log));
    assert n in NamesAt(EncodeAll(log), Bucket(hash, log, slot, hash(n)));
  }

  /** The names whose bucket is no longer among `keys`. */
  ghost function Finished(hash: Text -> u64, all: set<Text>, keys: set<u64>): set<Text> {
    set n | n in all && hash(n) !in keys
  }

  /** Nothing is finished while every bucket is pending, and everything is at the end. */
  lemma FinishedEnds(hash: Text -> u64, log: Log, slot: Slot, index: Index)
    requires Indexes(hash, log, slot, index)
    ensures Finished(hash, Names(log, slot), index.Keys) == {}
    ensures Finished(hash, Names(log, slot), {}) == Names(log, slot)
  {
    forall n | n in Names(log, slot) ensures hash(n) in index {
      NameIsIndexed(hash, log, slot, index, n);
    }
  }

  /** Visiting bucket `k` finishes exactly the names that hash to it. */
  lemma BucketDone(hash: Text -> u64, all: set<Text>, keys: set<u64>, k: u64, names: set<Text>)
    requires k in keys && names == set n | n in all && hash(n) == k
    ensures Finished(hash, all, keys - {k}) == Finished(hash, all, keys) + names
    ensures Finished(hash, all, keys) !! names
  {
  }

  /**
   The offsets of a whole index, its buckets visited in any order. Between them they name every
   listed domain once.
   */
  method AllOffsets(index: Index, ghost hash: Text -> u64, ghost log: Log, ghost slot: Slot) returns (offsets: seq<u32>)
    requires Indexes(hash, log, slot, index) && Distinct(log, slot)
    ensures NamesAt(EncodeAll(log), offsets) == Names(log, slot) && |offsets| == |Names(log, slot)|
  {
    offsets := [];
    var keys := index.Keys;
    ghost var arena, all := EncodeAll(log), Names(log, slot);
    FinishedEnds(hash, log, slot, index);
    while keys != {}
      invariant keys <= index.Keys
      invariant NamesAt(arena, offsets) == Finished(hash, all, keys) && |offsets| == |Finished(hash, all, keys)|
      decreases |keys|
    {
      var k :| k in keys;
      BucketNames(hash, log, slot, k, arena);
      BucketDistinct(hash, log, slot, k, arena);
      BucketDone(hash, all, keys, k, NamesAt(arena, index[k]));
      NamesAtConcat(arena, offsets, index[k]);
      offsets := offsets + index[k];
      keys := keys - {k};
    }
  }

  lemma NamesAtConcat(arena: seq<byte>, a: seq<nat>, b: seq<nat>)
    ensures NamesAt(arena, a + b) == NamesAt(arena, a) + NamesAt(arena, b)
  {
    var all := a + b;
    forall x | x in NamesAt(arena, a) ensures x in NamesAt(arena, all) {
      var k :| 0 <= k < |a| && DomainAt(arena, a[k]) == x;
      assert all[k] == a[k];
    }
    forall x | x in NamesAt(arena, b) ensures x in NamesAt(arena, all) {
      var k :| 0 <= k < |b| && DomainAt(arena, b[k]) == x;
      assert all[|a| + k] == b[k];
    }
  }

  /** The names behind the offsets, in order. */
  method DecodeOffsets(arena: seq<byte>, offsets: seq<u32>) returns (names: seq<Text>)
    ensures |names| == |offsets| && forall x :: x in names <==> x in NamesAt(arena, offsets)
  {
    names := [];
    for i := 0 to |offsets|
      invariant |names| == i && forall k :: 0 <= k < i ==> names[k] == DomainAt(arena, offsets[k])
    {
      names := names + [DomainAt(arena, offsets[i])];
    }
    forall x | x in NamesAt(arena, offsets) ensures x in names {
      var k :| 0 <= k < |offsets| && DomainAt(arena, offsets[k]) == x;
      assert names[k] == x;
    }
  }

  /** A bucket names as many domains as it has offsets. */
  lemma {:induction false} BucketDistinct(hash: Text -> u64, log: Log, slot: Slot, h: u64, arena: seq<byte>)
    requires EncodeAll(log) <= arena && Distinct(log, slot)
    ensures |NamesAt(arena, Bucket(hash, log, slot, h))| == |Bucket(hash, log, slot, h)|
  {
    if log.Empty? {
    } else {
      DecodeLast(log, arena);
      BucketDistinct(hash, log.before, slot, h, arena);
      BucketNames(hash, log.before, slot, h, arena);
      var b, o := Bucket(hash, log.before, slot, h), |EncodeAll(log.before)|;
      if log.slot == slot && hash(log.name) == h {
        assert Bucket(hash, log, slot, h) == b + [o];
        NamesAtSnoc(arena, b, o);
      } else {
        assert Bucket(hash, log, slot, h) == b;
      }
    }
  }

  class DomainStore {
    const hash: Text -> u64
    var arena: seq<byte>
    var exact: Index
    var wildcards: Index
    var exactCount: nat
    var wildcardCount: nat
    var deadBytes: nat
    /** The records in the arena, oldest first. */
    ghost var log: Log
    /** Record bytes freed by removes, and copied by compactions, since the store was created. */
    ghost var freed: nat
    ghost var copied: nat

    ghost predicate Rep()
      reads this
    {
      Represents(hash, log, arena, exact, wildcards, exactCount, wildcardCount, deadBytes)
    }

    /** Holes stay within a quarter of the arena, an empty store has an empty arena, copying is paid for. */
    ghost predicate Valid()
      reads this
    {
      var represented := Rep();
      var compactEnough := 4 * deadBytes <= |arena| && (exactCount + wildcardCount == 0 ==> arena == []);
      var paidFor := copied + 3 * deadBytes <= 3 * freed;
      represented && compactEnough && paidFor
    }

    ghost function Contents(): Sets
      reads this
    {
      ContentsOf(log)
    }

    /** An arena holding these names (and the present holes) stays under 4 GiB. */
    ghost predicate Fits(s: Sets)
      reads this
    {
      ListBytes(s) + deadBytes < ARENA_LIMIT
    }

    constructor (hash: Text -> u64)
      ensures Valid() && Contents() == NO_NAMES && this.hash == hash
      ensures freed == copied == deadBytes == 0
    {
      this.hash := hash;
      arena, exact, wildcards := [], map[], map[];
      exactCount, wildcardCount, deadBytes := 0, 0, 0;
      log, freed, copied := Empty, 0, 0;
      RepresentsNothing(hash);
    }

    /** Space: three quarters of the arena or more is live, and counts are set sizes. */
    lemma SpaceBound()
      requires Valid()
      ensures |arena| == ListBytes(Contents()) + deadBytes && 3 * |arena| <= 4 * ListBytes(Contents())
      ensures exactCount == |Contents().exact| && wildcardCount == |Contents().wild|
      ensures Contents() == NO_NAMES <==> exactCount + wildcardCount == 0
      ensures Contents() == NO_NAMES ==> arena == [] && deadBytes == 0
      ensures WellFormed(Contents())
    {
      RepresentedSizes(hash, log, arena, exact, wildcards, exactCount, wildcardCount, deadBytes);
    }

    /** The offset at one position of the exact index or of the wildcard index. */
    ghost predicate IsOffset(wildcard: bool, h: u64, k: nat, o: nat)
      reads this
    {
      var index := if wildcard then wildcards else exact;
      h in index && k < |index[h]| && index[h][k] == o
    }

    /**
     Across both indexes: every offset starts a record that lies whole in the arena, names a domain listed
     there under its own hash, and shares no byte with the record of any other position.
     */
    lemma RecordsDisjoint(wildcard: bool, h: u64, k: nat, o: nat, wildcard': bool, h': u64, k': nat, o': nat)
      requires Rep() && IsOffset(wildcard, h, k, o) && IsOffset(wildcard', h', k', o')
      requires (wildcard, h, k) != (wildcard', h', k')
      ensures o + Size(DomainAt(arena, o)) <= |arena| && hash(DomainAt(arena, o)) == h
      ensures DomainAt(arena, o) in if wildcard then Contents().wild else Contents().exact
      ensures Apart(arena, o, o')
    {
      var slot, slot' := if wildcard then Wild else Exact, if wildcard' then Wild else Exact;
      BucketPacked(hash, log, slot, h, arena);
      BucketNames(hash, log, slot, h, arena);
      assert DomainAt(arena, o) in NamesAt(arena, Bucket(hash, log, slot, h));
      RecordsApart(hash, log, Position(slot, h, k), Position(slot', h', k'), arena);
    }

    function Len(): nat
      reads this
    {
      exactCount + wildcardCount
    }

    method PushDomain(domain: StoredName) returns (offset: u32)
      requires |arena| < ARENA_LIMIT
      modifies this`arena
      ensures arena == old(arena) + Encode(domain) && offset == old(|arena|)
    {
      offset := |arena| % 0x1_0000_0000;
      arena := arena + [|domain| % 256, |domain| / 256];
      arena := arena + domain;
    }

    /** Push a record and index it: the tail of an insert, once the name is known to be new. */
    method AddRecord(domain: StoredName, wildcard: bool)
      requires Rep() && |arena| + Size(domain) < ARENA_LIMIT
      requires if wildcard then domain !in Contents().wild
               else domain !in Contents().exact && !HasWildcardPrefix(domain)
      modifies this
      ensures Rep() && Contents() == Add(old(Contents()), if wildcard then WildSuffix(domain) else ExactName(domain))
      ensures |arena| == old(|arena|) + Size(domain)
      ensures exactCount + wildcardCount > 0
      ensures unchanged(`deadBytes, `freed, `copied)
    {
      RepresentsPush(hash, log, arena, exact, wildcards, exactCount, wildcardCount, deadBytes, domain, wildcard);
      var h := hash(domain);
      var offset := PushDomain(domain);
      if wildcard {
        wildcards := IndexAdd(wildcards, h, offset);
        wildcardCount := wildcardCount + 1;
        log := Push(log, domain, Wild);
      } else {
        exact := IndexAdd(exact, h, offset);
        exactCount := exactCount + 1;
        log := Push(log, domain, Exact);
      }
    }

    /** A name that is not listed yet takes exactly its record's bytes. */
    lemma RoomFor(e: Entry)
      requires Rep() && e != Nothing && !Has(Contents(), e) && Fits(Add(Contents(), e))
      ensures |arena| + Size(e.name) < ARENA_LIMIT
    {
      RepresentedSizes(hash, log, arena, exact, wildcards, exactCount, wildcardCount, deadBytes);
      SetBytesAdd(if e.WildSuffix? then Contents().wild else Contents().exact, e.name);
    }

    method InsertNormalized(domain: Text, wildcard: bool) returns (added: bool)
      requires Valid() && (wildcard || !HasWildcardPrefix(domain))
      requires Storable(domain) ==> Fits(Add(Contents(), if wildcard then WildSuffix(domain) else ExactName(domain)))
      modifies this
      ensures Valid()
      ensures var e := if wildcard then WildSuffix(domain) else ExactName(domain);
              && added == (Storable(domain) && !Has(old(Contents()), e))
              && Contents() == if Storable(domain) then Add(old(Contents()), e) else old(Contents())
      ensures unchanged(`deadBytes, `freed, `copied)
    {
      if domain == [] {
        return false;
      }
      if |domain| > U16_MAX {
        return false;
      }
      LookupIsMembership(hash, log, arena, exact, wildcards, exactCount, wildcardCount, deadBytes, domain);
      var h := hash(domain);
      var found := if wildcard then ContainsIn(arena, wildcards, domain, h) else ContainsIn(arena, exact, domain, h);
      if found {
        AddSameIff(Contents(), if wildcard then WildSuffix(domain) else ExactName(domain));
        return false;
      }
      RoomFor(if wildcard then WildSuffix(domain) else ExactName(domain));
      AddRecord(domain, wildcard);
      return true;
    }

    /** True exactly when the name is new. */
    method Insert(domain: Text) returns (added: bool)
      requires Valid() && Fits(Add(Contents(), EntryOf(Normalize(domain))))
      modifies this
      ensures Valid()
      ensures Contents() == Add(old(Contents()), EntryOf(Normalize(domain)))
      ensures added == !Has(old(Contents()), EntryOf(Normalize(domain)))
      ensures unchanged(`deadBytes, `freed, `copied)
    {
      var normalized := Normalize(domain);
      if normalized == [] {
        return false;
      }
      if HasWildcardPrefix(normalized) {
        var stripped := normalized[2..];
        if stripped == [] {
          return false;
        }
        added := InsertNormalized(stripped, true);
      } else {
        added := InsertNormalized(normalized, false);
      }
    }

    /** Insert every name the offsets decode to in another arena. */
    method InsertAll(source: seq<byte>, offsets: seq<u32>, wildcard: bool)
      requires Valid()
      requires forall n :: n in NamesAt(source, offsets) ==> Storable(n) && (wildcard || !HasWildcardPrefix(n))
      requires Fits(Plus(Contents(), NamesAt(source, offsets), wildcard))
      modifies this
      ensures Valid() && Contents() == Plus(old(Contents()), NamesAt(source, offsets), wildcard)
      ensures unchanged(`deadBytes, `freed, `copied)
    {
      for i := 0 to |offsets|
        invariant Valid() && unchanged(`deadBytes, `freed, `copied)
        invariant Contents() == Plus(old(Contents()), NamesAt(source, offsets[..i]), wildcard)
      {
        var domain := DomainAt(source, offsets[i]);
        NamesAtPrefix(source, offsets, i);
        assert domain in NamesAt(source, offsets);
        ListBytesMonotone(Plus(old(Contents()), NamesAt(source, offsets[..i + 1]), wildcard),
                          Plus(old(Contents()), NamesAt(source, offsets), wildcard));
        assert Add(Contents(), if wildcard then WildSuffix(domain) else ExactName(domain))
            == Plus(old(Contents()), NamesAt(source, offsets[..i + 1]), wildcard);
        var _ := InsertNormalized(domain, wildcard);
      }
      assert offsets[..|offsets|] == offsets;
    }

    /** Insert every entry of another arena, bucket by bucket in any order, exact names first. */
    method CopyFrom(other: DomainStore)
      requires Valid() && other != this && other.Rep()
      requires Fits(Union(Contents(), other.Contents()))
      modifies this
      ensures Valid() && Contents() == Union(old(Contents()), other.Contents())
      ensures unchanged(`deadBytes, `freed, `copied)
    {
      RepresentedSizes(other.hash, other.log, other.arena, other.exact, other.wildcards,
                       other.exactCount, other.wildcardCount, other.deadBytes);
      ListBytesMonotone(Plus(Contents(), other.Contents().exact, false), Union(Contents(), other.Contents()));
      var exactOffsets := AllOffsets(other.exact, other.hash, other.log, Exact);
      InsertAll(other.arena, exactOffsets, false);
      var wildOffsets := AllOffsets(other.wildcards, other.hash, other.log, Wild);
      InsertAll(other.arena, wildOffsets, true);
    }

    /** Merge: the union of both stores, whatever order their buckets are visited in. */
    method Merge(other: DomainStore)
      requires Valid() && other != this && other.Valid()
      requires Fits(Union(Contents(), other.Contents()))
      modifies this
      ensures Valid() && Contents() == Union(old(Contents()), other.Contents())
      ensures unchanged(`deadBytes, `freed, `copied)
    {
      CopyFrom(other);
    }

    /** Take over the other store whole, with what its own removes and compactions cost so far. */
    method ReplaceWith(other: DomainStore)
      requires Valid() && other.Valid() && other.hash == hash && other != this
      modifies this
      ensures Valid() && Contents() == other.Contents()
      ensures arena == other.arena && deadBytes == other.deadBytes
      ensures freed == old(freed) + other.freed && copied == old(copied) + other.copied
    {
      Adopt(other);
      freed, copied := freed + other.freed, copied + other.copied;
    }

    /** Overwrite every field with the other store's. */
    method Adopt(other: DomainStore)
      requires other.Rep() && other.hash == hash
      modifies `arena, `exact, `wildcards, `exactCount, `wildcardCount, `deadBytes, `log
      ensures Rep() && log == old(other.log)
      ensures (arena, deadBytes) == old((other.arena, other.deadBytes))
      ensures (exactCount, wildcardCount) == old((other.exactCount, other.wildcardCount))
    {
      arena, exact, wildcards := other.arena, other.exact, other.wildcards;
      exactCount, wildcardCount, deadBytes := other.exactCount, other.wildcardCount, other.deadBytes;
      log := other.log;
    }

    /** Take the name out of one index; `pending` bytes of earlier holes are not counted in yet. */
    method Unindex(domain: Text, wildcard: bool, ghost pending: nat) returns (bytes: nat)
      requires Represents(hash, log, arena, exact, wildcards, exactCount, wildcardCount, deadBytes + pending)
      modifies this
      ensures Represents(hash, log, arena, exact, wildcards, exactCount, wildcardCount, deadBytes + pending + bytes)
      ensures Contents() == if wildcard then old(Contents()).(wild := old(Contents()).wild - {domain})
                            else old(Contents()).(exact := old(Contents()).exact - {domain})
      ensures arena == old(arena) && unchanged(`deadBytes, `freed, `copied)
    {
      if wildcard {
        var index, count;
        index, count, bytes := RemoveFromIndex(hash, arena, wildcards, wildcardCount, domain, log, Wild, Exact);
        RepresentsKill(hash, log, arena, exact, wildcards, exactCount, wildcardCount, deadBytes + pending,
                       domain, true, index, count, bytes);
        wildcards, wildcardCount := index, count;
        log := Kill(log, Wild, domain);
      } else {
        var index, count;
        index, count, bytes := RemoveFromIndex(hash, arena, exact, exactCount, domain, log, Exact, Wild);
        RepresentsKill(hash, log, arena, exact, wildcards, exactCount, wildcardCount, deadBytes + pending,
                       domain, false, index, count, bytes);
        exact, exactCount := index, count;
        log := Kill(log, Exact, domain);
      }
    }

    /** Drop the name from the indexes at once; its bytes become a hole, reclaimed lazily. */
    method Remove(domain: Text)
      requires Valid()
      modifies this
      ensures Valid() && Contents() == Lists.Remove(old(Contents()), Normalize(domain))
      ensures freed == old(freed) + old(ListBytes(Contents())) - ListBytes(Contents())
    {
      var normalized := Normalize(domain);
      var total := RemoveWildcard(normalized);
      total := RemoveExact(normalized, total);
      NoNamesNoBytes(Contents());
      Bury(total);
    }

    /** Count freed bytes as holes, and compact if there are now too many. */
    method Bury(total: nat)
      requires Represents(hash, log, arena, exact, wildcards, exactCount, wildcardCount, deadBytes + total)
      requires copied + 3 * (deadBytes + total) <= 3 * freed && deadBytes + total <= |arena|
      requires total == 0 ==> 4 * deadBytes <= |arena| && (exactCount + wildcardCount == 0 ==> arena == [])
      modifies this
      ensures Valid() && Contents() == old(Contents()) && freed == old(freed)
    {
      if total > 0 {
        deadBytes := SaturatingAdd(deadBytes, total);
        MaybeCompact();
      }
    }

    /** The wildcard half of a remove. */
    method RemoveWildcard(normalized: Text) returns (total: nat)
      requires Rep()
      modifies this
      ensures Represents(hash, log, arena, exact, wildcards, exactCount, wildcardCount, deadBytes + total)
      ensures Contents().exact == old(Contents()).exact
      ensures Contents().wild == if HasWildcardPrefix(normalized) then old(Contents()).wild - {normalized[2..]}
                                 else old(Contents()).wild
      ensures total == ListBytes(old(Contents())) - ListBytes(Contents())
      ensures arena == old(arena) && deadBytes == old(deadBytes) && copied == old(copied) && freed == old(freed)
    {
      total := 0;
      RepresentedSizes(hash, log, arena, exact, wildcards, exactCount, wildcardCount, deadBytes);
      if HasWildcardPrefix(normalized) {
        var bytes := Unindex(normalized[2..], true, 0);
        RepresentedSizes(hash, log, arena, exact, wildcards, exactCount, wildcardCount, deadBytes + bytes);
        total := SaturatingAdd(total, bytes);
      }
    }

    /** The exact half of a remove; `both` is the bytes freed by the two halves. */
    method RemoveExact(normalized: Text, total: nat) returns (both: nat)
      requires Represents(hash, log, arena, exact, wildcards, exactCount, wildcardCount, deadBytes + total)
      modifies this
      ensures Represents(hash, log, arena, exact, wildcards, exactCount, wildcardCount, deadBytes + both)
      ensures Contents() == old(Contents()).(exact := old(Contents()).exact - {normalized})
      ensures both == total + ListBytes(old(Contents())) - ListBytes(Contents())
      ensures |arena| == ListBytes(Contents()) + deadBytes + both
      ensures exactCount + wildcardCount == |Contents().exact| + |Contents().wild|
      ensures arena == old(arena) && deadBytes == old(deadBytes) && copied == old(copied)
      ensures freed == old(freed) + both
    {
      RepresentedSizes(hash, log, arena, exact, wildcards, exactCount, wildcardCount, deadBytes + total);
      var bytes := Unindex(normalized, false, total);
      RepresentedSizes(hash, log, arena, exact, wildcards, exactCount, wildcardCount, deadBytes + total + bytes);
      both := SaturatingAdd(total, bytes);
      freed := freed + both;
    }

    /** Compact an emptied store, or one whose holes exceed a quarter of the arena. */
    method MaybeCompact()
      requires Rep() && copied + 3 * deadBytes <= 3 * freed
      modifies this
      ensures Valid() && Contents() == old(Contents()) && freed == old(freed)
    {
      RepresentedSizes(hash, log, arena, exact, wildcards, exactCount, wildcardCount, deadBytes);
      if Len() == 0 {
        Compact();
        return;
      }
      if deadBytes > 0 && SaturatingMul(deadBytes, 4) > |arena| {
        Compact();
      }
    }

    /** Rebuild the arena and both indexes from the live entries; the bytes written are the copying cost. */
    method Compact()
      requires Rep()
      modifies this
      ensures Rep() && Contents() == old(Contents()) && deadBytes == 0
      ensures freed == old(freed) && copied == old(copied) + |arena|
      ensures exactCount + wildcardCount == 0 ==> arena == []
      ensures |arena| == old(|arena|) - old(deadBytes)
    {
      RepresentedSizes(hash, log, arena, exact, wildcards, exactCount, wildcardCount, deadBytes);
      if Len() == 0 {
        NoNamesNoBytes(Contents());
        RepresentsNothing(hash);
        arena, exact, wildcards, deadBytes := [], map[], map[], 0;
        log := Empty;
      } else {
        CompactLive();
      }
    }

    method CompactLive()
      requires Rep()
      modifies this
      ensures Rep() && Contents() == old(Contents()) && deadBytes == 0
      ensures freed == old(freed) && copied == old(copied) + |arena|
      ensures exactCount + wildcardCount == 0 ==> arena == []
      ensures |arena| == ListBytes(old(Contents()))
    {
      var packed := Rebuild();
      Adopt(packed);
      copied := copied + |arena|;
    }

    /** A fresh store holding the live entries and no holes. */
    method Rebuild() returns (packed: DomainStore)
      requires Rep()
      ensures fresh(packed) && packed.Rep() && packed.hash == hash
      ensures packed.Contents() == Contents() && packed.deadBytes == 0
      ensures packed.exactCount + packed.wildcardCount == 0 ==> packed.arena == []
      ensures |packed.arena| == ListBytes(Contents())
    {
      RepresentedSizes(hash, log, arena, exact, wildcards, exactCount, wildcardCount, deadBytes);
      packed := new DomainStore(hash);
      assert Union(NO_NAMES, Contents()) == Contents();
      packed.CopyFrom(this);
      packed.SpaceBound();
    }

    /** One line of a list file; true when it held a new name. */
    method InsertLine(raw: Text) returns (added: bool)
      requires Valid() && Fits(Add(Contents(), LineEntry(raw)))
      modifies this
      ensures Valid() && Contents() == Add(old(Contents()), LineEntry(raw))
      ensures Len() == old(Len()) + if added then 1 else 0
      ensures unchanged(`deadBytes, `freed, `copied)
    {
      var line := Trim(raw);
      if line == [] || line[0] == HASH {
        return false;
      }
      var domainPart := Trim(HostsPart(line));
      if domainPart == [] {
        return false;
      }
      SpaceBound();
      ghost var before := Contents();
      added := Insert(domainPart);
      SpaceBound();
      if added {
        CountOfAdd(before, EntryOf(Normalize(domainPart)));
      } else {
        AddSameIff(before, EntryOf(Normalize(domainPart)));
      }
    }

    /** Insert the names of a list file; the count is the number of names that were new. */
    method ParseLines(content: Text) returns (count: nat)
      requires Valid() && Fits(Union(Contents(), EntriesOf(SplitLines(content))))
      modifies this
      ensures Valid() && Contents() == Union(old(Contents()), EntriesOf(SplitLines(content)))
      ensures count == Len() - old(Len())
      ensures unchanged(`deadBytes, `freed, `copied)
    {
      var lines := SplitLines(content);
      ghost var es := LineEntries(lines);
      count := 0;
      for i := 0 to |lines|
        invariant Valid() && unchanged(`deadBytes, `freed, `copied)
        invariant Contents() == Union(old(Contents()), Gather(es, i))
        invariant count == Len() - old(Len())
      {
        UnionStep(old(Contents()), es, i);
        var added := InsertLine(lines[i]);
        if added {
          count := count + 1;
        }
      }
    }

    /** The compiled list file: one line per entry, wildcards spelled `*.`, sorted. */
    method CompileToFile() returns (content: Text, count: nat)
      requires Valid()
      ensures count == Len()
      ensures IsCompiled(content, Contents(), count)
    {
      SpaceBound();
      var exactOffsets := AllOffsets(exact, hash, log, Exact);
      var plain := DecodeOffsets(arena, exactOffsets);
      var wildOffsets := AllOffsets(wildcards, hash, log, Wild);
      var starred := DecodeOffsets(arena, wildOffsets);
      var entries := plain + Starred(starred);
      CollectedLines(Contents(), plain, starred);
      SortedListing(entries, LinesOf(Contents()));
      content := Join(Sort(entries)) + [NEWLINE];
      count := |entries|;
    }

    method Clear()
      requires Valid()
      modifies this
      ensures Valid() && Contents() == NO_NAMES && arena == [] && deadBytes == 0
      ensures freed == old(freed) && copied == old(copied)
    {
      arena, exact, wildcards := [], map[], map[];
      exactCount, wildcardCount, deadBytes := 0, 0, 0;
      log := Empty;
      RepresentsNothing(hash);
    }

    /** Hash lookups on the name and its parent suffixes answer what a scan of every entry would. */
    method Matches(domain: Text) returns (found: bool)
      requires Valid()
      ensures found <==> Lists.Matches(Contents(), domain)
    {
      LookupIsMembership(hash, log, arena, exact, wildcards, exactCount, wildcardCount, deadBytes, domain);
      if ContainsIn(arena, exact, domain, hash(domain)) {
        return true;
      }
      for idx := 0 to |domain|
        invariant forall j :: 0 <= j < idx && domain[j] == DOT ==> domain[j + 1..] !in Contents().wild
      {
        if domain[idx] == DOT {
          var suffix := domain[idx + 1..];
          LookupIsMembership(hash, log, arena, exact, wildcards, exactCount, wildcardCount, deadBytes, suffix);
          if ContainsIn(arena, wildcards, suffix, hash(suffix)) {
            MatchesBySuffix(Contents(), domain);
            return true;
          }
        }
      }
      MatchesBySuffix(Contents(), domain);
      return false;
    }
  }
}
