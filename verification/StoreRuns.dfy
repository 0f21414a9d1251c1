/** Whole runs of a domain store against the pair of sets they are meant to be. */
module StoreRuns {
  import opened Bytes
  import opened Lists
  import opened Lines
  import opened Stores

  datatype Op =
    | InsertName(name: Text)
    | RemoveName(name: Text)
    | Import(content: Text)
    | MergeWith(content: Text)      // merge a store parsed from this text
    | ReplaceBy(content: Text)      // replace by a store parsed from this text
    | ClearAll

  function Parsed(content: Text): Sets {
    EntriesOf(SplitLines(content))
  }

  /** The operation on plain sets. */
  function Apply(s: Sets, op: Op): Sets {
    match op
    case InsertName(d) => Add(s, EntryOf(Normalize(d)))
    case RemoveName(d) => Lists.Remove(s, Normalize(d))
    case Import(t) => Union(s, Parsed(t))
    case MergeWith(t) => Union(s, Parsed(t))
    case ReplaceBy(t) => Parsed(t)
    case ClearAll => NO_NAMES
  }

  /** What an operation leaves, name by name. */
  lemma OpByName(s: Sets, op: Op, x: Text)
    ensures var t := Apply(s, op);
            match op
            case InsertName(d) =>
              && (x in t.exact <==> x in s.exact || EntryOf(Normalize(d)) == ExactName(x))
              && (x in t.wild <==> x in s.wild || EntryOf(Normalize(d)) == WildSuffix(x))
            case RemoveName(d) =>
              && (x in t.exact <==> x in s.exact && x != Normalize(d))
              && (x in t.wild <==> x in s.wild && [42, 46] + x != Normalize(d))
            case Import(c) =>
              && (x in t.exact <==> x in s.exact || x in Parsed(c).exact)
              && (x in t.wild <==> x in s.wild || x in Parsed(c).wild)
            case MergeWith(c) =>
              && (x in t.exact <==> x in s.exact || x in Parsed(c).exact)
              && (x in t.wild <==> x in s.wild || x in Parsed(c).wild)
            case ReplaceBy(c) => (x in t.exact <==> x in Parsed(c).exact) && (x in t.wild <==> x in Parsed(c).wild)
            case ClearAll => x !in t.exact && x !in t.wild
  {
    match op
    case InsertName(d) => ListByName(s, s, EntryOf(Normalize(d)), [], x);
    case RemoveName(d) => ListByName(s, s, Nothing, Normalize(d), x);
    case _ =>
  }

  /** The sets after the first `i` operations. */
  function After(ops: seq<Op>, i: nat): Sets
    requires i <= |ops|
  {
    if i == 0 then NO_NAMES else Apply(After(ops, i - 1), ops[i - 1])
  }

  /** Record bytes the removes among the first `i` operations free. */
  ghost function FreedBy(ops: seq<Op>, i: nat): int
    requires i <= |ops|
  {
    if i == 0 then 0
    else FreedBy(ops, i - 1) +
         if ops[i - 1].RemoveName? then ListBytes(After(ops, i - 1)) - ListBytes(After(ops, i)) else 0
  }

  /** At every point the listed names take under 3 GiB of records. */
  ghost predicate StaysSmall(ops: seq<Op>) {
    forall i :: 0 <= i <= |ops| ==> 4 * ListBytes(After(ops, i)) < 3 * ARENA_LIMIT
  }

  /** A store read from a list file. */
  method Load(hash: Text -> u64, content: Text) returns (store: DomainStore, count: nat)
    requires ListBytes(Parsed(content)) < ARENA_LIMIT
    ensures fresh(store) && store.Valid() && store.hash == hash && store.Contents() == Parsed(content)
    ensures store.freed == store.copied == 0 && count == store.Len()
  {
    store := new DomainStore(hash);
    assert Union(NO_NAMES, Parsed(content)) == Parsed(content);
    count := store.ParseLines(content);
  }

  lemma PartOfUnion(s: Sets, t: Sets)
    ensures ListBytes(t) <= ListBytes(Union(s, t))
  {
    ListBytesMonotone(t, Union(s, t));
  }

  /** Room for these names on top of the holes the store has. */
  lemma SmallFits(store: DomainStore, s: Sets)
    requires store.Valid()
    requires 4 * ListBytes(store.Contents()) < 3 * ARENA_LIMIT && 4 * ListBytes(s) < 3 * ARENA_LIMIT
    ensures store.Fits(s)
  {
  }

  method MergeText(store: DomainStore, content: Text)
    requires store.Valid() && store.Fits(Union(store.Contents(), Parsed(content)))
    modifies store
    ensures store.Valid() && store.Contents() == Union(old(store.Contents()), Parsed(content))
    ensures store.freed == old(store.freed)
  {
    PartOfUnion(store.Contents(), Parsed(content));
    var other, _ := Load(store.hash, content);
    store.Merge(other);
  }

  method ReplaceText(store: DomainStore, content: Text)
    requires store.Valid() && ListBytes(Parsed(content)) < ARENA_LIMIT
    modifies store
    ensures store.Valid() && store.Contents() == Parsed(content)
    ensures store.freed == old(store.freed)
  {
    var other, _ := Load(store.hash, content);
    store.ReplaceWith(other);
  }

  method Perform(store: DomainStore, op: Op)
    requires store.Valid() && store.Fits(Apply(store.Contents(), op))
    modifies store
    ensures store.Valid() && store.Contents() == Apply(old(store.Contents()), op)
    ensures store.freed == old(store.freed) +
                           if op.RemoveName? then ListBytes(old(store.Contents())) - ListBytes(store.Contents()) else 0
  {
    match op
    case InsertName(d) => var _ := store.Insert(d);
    case RemoveName(d) => store.Remove(d);
    case Import(t) => var _ := store.ParseLines(t);
    case MergeWith(t) => MergeText(store, t);
    case ReplaceBy(t) => ReplaceText(store, t);
    case ClearAll => store.Clear();
  }

  /**
   Any run, under any hash function: the packed store ends as the plain sets do, at least three
   quarters of its arena is live, and all compactions together copied at most three times the bytes
   the removes freed.
   */
  method Run(hash: Text -> u64, ops: seq<Op>) returns (store: DomainStore)
    requires StaysSmall(ops)
    ensures store.Valid() && store.Contents() == After(ops, |ops|)
    ensures 3 * |store.arena| <= 4 * ListBytes(After(ops, |ops|))
    ensures store.Len() == |After(ops, |ops|).exact| + |After(ops, |ops|).wild|
    ensures store.copied <= 3 * FreedBy(ops, |ops|)
  {
    store := new DomainStore(hash);
    for i := 0 to |ops|
      invariant fresh(store) && store.Valid() && store.Contents() == After(ops, i)
      invariant store.freed == FreedBy(ops, i)
    {
      assert Apply(store.Contents(), ops[i]) == After(ops, i + 1);
      SmallFits(store, After(ops, i + 1));
      Perform(store, ops[i]);
    }
    store.SpaceBound();
  }

  /**
   Writing a store out and reading the file into an empty store restores it, entry for entry, if and only if
   every line of the file is plain.
   */
  method SaveAndLoad(store: DomainStore) returns (loaded: DomainStore, written: nat, read: nat)
    requires store.Valid()
    requires forall content, n :: IsCompiled(content, store.Contents(), n) ==> ListBytes(Parsed(content)) < ARENA_LIMIT
    ensures fresh(loaded) && loaded.Valid() && written == store.Len() && read == loaded.Len()
    ensures loaded.Contents() == store.Contents() ==> written == read
    ensures loaded.Contents() == store.Contents() <==>
            forall line :: line in LinesOf(store.Contents()) ==> PlainLine(line)
  {
    store.SpaceBound();
    var content;
    content, written := store.CompileToFile();
    CompiledRestores(content, store.Contents(), written);
    loaded, read := Load(store.hash, content);
    loaded.SpaceBound();
  }
}
