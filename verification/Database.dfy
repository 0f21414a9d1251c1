/** The database functions, statement by statement, against the transactions of `Tables`. */
module Databases {
  import opened Bytes
  import opened Lines
  import opened Stores
  import opened Tables

  /** A store holding these rows fits in an arena. */
  ghost predicate Loadable(rows: Rows) {
    ListBytes(Image(rows)) < ARENA_LIMIT
  }

  lemma ImageMonotone(a: Rows, b: Rows)
    requires a <= b
    ensures ListBytes(Image(a)) <= ListBytes(Image(b))
  {
    ListBytesMonotone(Image(a), Image(b));
  }

  lemma PrefixStep(xs: seq<Text>, i: nat)
    requires i < |xs|
    ensures ToSet(xs[..i + 1]) == ToSet(xs[..i]) + {xs[i]} <= ToSet(xs)
  {
  }

  /** Insert one row into a store being built for `done`, on the way to `all`. */
  method InsertRow(store: DomainStore, row: Text, ghost done: Rows, ghost all: Rows)
    requires store.Valid() && store.deadBytes == 0 && store.Contents() == Image(done)
    requires done + {row} <= all && Loadable(all)
    modifies store
    ensures store.Valid() && store.deadBytes == 0 && store.Contents() == Image(done + {row})
  {
    ImageAdd(done, row);
    ImageMonotone(done + {row}, all);
    var _ := store.Insert(row);
  }

  /** A fresh store with these names inserted in turn. */
  method BuildStore(hash: Text -> u64, domains: seq<Text>) returns (store: DomainStore)
    requires Loadable(ToSet(domains))
    ensures fresh(store) && store.Valid() && store.hash == hash && store.Contents() == Image(ToSet(domains))
  {
    store := new DomainStore(hash);
    assert ToSet(domains[..0]) == {};
    for i := 0 to |domains|
      invariant fresh(store) && store.Valid() && store.deadBytes == 0 && store.hash == hash
      invariant store.Contents() == Image(ToSet(domains[..i]))
    {
      PrefixStep(domains, i);
      InsertRow(store, domains[i], ToSet(domains[..i]), ToSet(domains));
    }
    assert domains[..|domains|] == domains;
  }

  class Database {
    const hash: Text -> u64
    var lists: PerList<Rows>
    var manual: PerList<Rows>
    var owned: map<int, Rows>
    var sources: map<int, ListType>

    constructor (hash: Text -> u64)
      ensures this.hash == hash && State() == Relations(PerList({}, {}), PerList({}, {}), map[], map[])
    {
      this.hash := hash;
      lists, manual := PerList({}, {}), PerList({}, {});
      owned, sources := map[], map[];
    }

    function State(): Relations
      reads this
    {
      Relations(lists, manual, owned, sources)
    }

    /** The rows of one table, inserted into a fresh store in whatever order the query returns them. */
    method LoadDomainStore(l: ListType) returns (store: DomainStore)
      requires Loadable(lists.Get(l))
      ensures fresh(store) && store.Valid() && store.hash == hash && store.Contents() == Image(lists.Get(l))
    {
      store := new DomainStore(hash);
      var pending, rows := lists.Get(l), lists.Get(l);
      assert rows - pending == {};
      while pending != {}
        invariant pending <= rows && fresh(store)
        invariant store.Valid() && store.deadBytes == 0 && store.Contents() == Image(rows - pending)
        decreases |pending|
      {
        var row :| row in pending;
        assert rows - (pending - {row}) == (rows - pending) + {row};
        InsertRow(store, row, rows - pending, rows);
        pending := pending - {row};
      }
      assert rows - pending == rows;
    }

    method AddDomain(l: ListType, domain: Text) returns (normalized: Text)
      modifies this
      ensures normalized == Normalize(domain) && State() == AddRow(old(State()), l, normalized)
      ensures Grown(old(State()), State(), l, {Normalize(domain)})
    {
      AddIsGrown(State(), l, {Normalize(domain)});
      normalized := ToLower(domain);
      normalized := if EndsWithDot(normalized) then normalized[..|normalized| - 1] else normalized;
      lists := lists.Set(l, lists.Get(l) + {normalized});
      manual := manual.Set(l, manual.Get(l) + {normalized});
    }

    /** Import the parsable lines; also build a store of just those rows, to be merged into the running one. */
    method InsertDomainsFromContent(l: ListType, content: Text) returns (inserted: nat, store: DomainStore)
      requires Loadable(ToSet(ParsedRows(content)))
      modifies this
      ensures State() == AddRows(old(State()), l, ToSet(ParsedRows(content)))
      ensures Grown(old(State()), State(), l, ToSet(ParsedRows(content)))
      ensures inserted == |lists.Get(l)| - |old(lists.Get(l))|
      ensures fresh(store) && store.Valid() && store.Contents() == Image(ToSet(ParsedRows(content)))
    {
      AddIsGrown(State(), l, ToSet(ParsedRows(content)));
      store := new DomainStore(hash);
      inserted := ImportRows(l, ParsedRows(content), store);
    }

    method ImportRows(l: ListType, rows: seq<Text>, store: DomainStore) returns (inserted: nat)
      requires Loadable(ToSet(rows))
      requires store.Valid() && store.deadBytes == 0 && store.Contents() == Image({})
      modifies this, store
      ensures State() == AddRows(old(State()), l, ToSet(rows))
      ensures inserted == |lists.Get(l)| - |old(lists.Get(l))|
      ensures store.Valid() && store.Contents() == Image(ToSet(rows))
    {
      inserted := 0;
      AddNoRows(State(), l);
      ghost var done: Rows := {};
      assert ToSet(rows[..0]) == {};
      for i := 0 to |rows|
        invariant done == ToSet(rows[..i])
        invariant store.Valid() && store.deadBytes == 0 && store.Contents() == Image(done)
        invariant State() == AddRows(old(State()), l, done)
        invariant inserted == |lists.Get(l)| - |old(lists.Get(l))|
      {
        PrefixStep(rows, i);
        var added := ImportOne(l, rows[i], store, done, old(State()), ToSet(rows));
        inserted := inserted + added;
        done := done + {rows[i]};
      }
      assert rows[..|rows|] == rows;
    }

    /** One parsed line: the row goes to both tables and into the store being built. */
    method ImportOne(l: ListType, row: Text, store: DomainStore,
                     ghost done: Rows, ghost start: Relations, ghost all: Rows)
      returns (added: nat)
      requires State() == AddRows(start, l, done) && done + {row} <= all && Loadable(all)
      requires store.Valid() && store.deadBytes == 0 && store.Contents() == Image(done)
      modifies this, store
      ensures State() == AddRows(start, l, done + {row})
      ensures added == |lists.Get(l)| - |old(lists.Get(l))|
      ensures store.Valid() && store.deadBytes == 0 && store.Contents() == Image(done + {row})
    {
      added := ImportRow(l, row, done, start);
      InsertRow(store, row, done, all);
    }

    /** One imported row: listed unless it is already, and marked manual. */
    method ImportRow(l: ListType, row: Text, ghost done: Rows, ghost start: Relations) returns (added: nat)
      requires State() == AddRows(start, l, done)
      modifies this
      ensures State() == AddRows(start, l, done + {row})
      ensures added == |lists.Get(l)| - |old(lists.Get(l))|
    {
      added := if row in lists.Get(l) then 0 else 1;
      assert row in lists.Get(l) ==> lists.Get(l) + {row} == lists.Get(l);
      AddRowsStep(start, l, done, row);
      lists := lists.Set(l, lists.Get(l) + {row});
      manual := manual.Set(l, manual.Get(l) + {row});
    }

    /** Delete a listed row and its manual mark; source_domains is not touched. */
    method DeleteDomain(l: ListType, row: Text) returns (deleted: bool)
      modifies this
      ensures State() == DeleteRow(old(State()), l, row) && deleted == (row in old(lists.Get(l)))
      ensures Shrunk(old(State()), State(), l, row)
    {
      DeleteIsShrunk(State(), l, row);
      if row !in lists.Get(l) {
        return false;
      }
      lists := lists.Set(l, lists.Get(l) - {row});
      manual := manual.Set(l, manual.Get(l) - {row});
      return true;
    }

    /** Replace one source's rows, prune what nobody holds any more, and rebuild the list's store. */
    method ReplaceSourceDomains(id: int, l: ListType, content: Text) returns (result: Option<(nat, DomainStore)>)
      requires Loadable(Refresh(State(), id, l, ToSet(ParsedRows(content))).lists.Get(l))
      modifies this
      ensures State() == Refresh(old(State()), id, l, ToSet(ParsedRows(content)))
      ensures result.None? <==> Suspicious(|OwnedBy(old(owned), id)|, |ToSet(ParsedRows(content))|)
      ensures result.None? ==> State() == old(State())
      ensures result.Some? ==> Refreshed(old(State()), State(), id, l, ToSet(ParsedRows(content)))
      ensures result.Some? ==>
                var (count, store) := result.value;
                && count == |ToSet(ParsedRows(content))|
                && fresh(store) && store.Valid() && store.hash == hash && store.Contents() == Image(lists.Get(l))
    {
      SourceRows(content);
      RefreshIffTrusted(State(), id, l, ToSet(ParsedRows(content)));
      var parsed := ParseSourceDomains(content);
      if parsed.None? {
        return None;
      }
      var newList := parsed.value;
      var previousCount := |OwnedBy(owned, id)|;
      if previousCount >= 10 && |newList| * 100 < previousCount * MIN_SOURCE_RETAINED_PERCENT {
        return None;
      }
      var store := ReplaceRows(id, l, newList);
      return Some((|newList|, store));
    }

    /** The transaction of an accepted refresh, and the rebuild after it. */
    method ReplaceRows(id: int, l: ListType, newList: seq<Text>) returns (store: DomainStore)
      requires newList != [] && Loadable(Replace(State(), id, l, ToSet(newList)).lists.Get(l))
      modifies this
      ensures State() == Replace(old(State()), id, l, ToSet(newList))
      ensures fresh(store) && store.Valid() && store.hash == hash && store.Contents() == Image(lists.Get(l))
    {
      var oldDomains := OwnedBy(owned, id);
      owned := owned - {id};
      InsertSourceRows(id, l, newList);
      assert owned == old(owned)[id := ToSet(newList)];
      lists := lists.Set(l, lists.Get(l) - Pruned(State(), l, oldDomains, owned));
      store := LoadDomainStore(l);
    }

    /** Own and list every row of a refresh, for a source whose old rows are already cleared. */
    method InsertSourceRows(id: int, l: ListType, newList: seq<Text>)
      requires id !in owned && newList != []
      modifies this
      ensures manual == old(manual) && sources == old(sources)
      ensures owned == old(owned)[id := ToSet(newList)]
      ensures lists == old(lists).Set(l, old(lists).Get(l) + ToSet(newList))
    {
      assert ToSet(newList[..0]) == {};
      assert lists.Get(l) + {} == lists.Get(l);
      for i := 0 to |newList|
        invariant manual == old(manual) && sources == old(sources)
        invariant owned == if i == 0 then old(owned) else old(owned)[id := ToSet(newList[..i])]
        invariant lists == old(lists).Set(l, old(lists).Get(l) + ToSet(newList[..i]))
      {
        PrefixStep(newList, i);
        owned := owned[id := OwnedBy(owned, id) + {newList[i]}];
        lists := lists.Set(l, lists.Get(l) + {newList[i]});
        assert old(lists).Get(l) + ToSet(newList[..i]) + {newList[i]} == old(lists).Get(l) + ToSet(newList[..i + 1]);
      }
      assert newList[..|newList|] == newList;
    }

    /** Delete a source with its rows, prune what nobody holds any more, and rebuild the list's store. */
    method DeleteSourceWithCleanup(id: int) returns (result: Option<(ListType, DomainStore)>)
      requires id in sources ==> Loadable(DeleteSource(State(), id).lists.Get(sources[id]))
      modifies this
      ensures State() == DeleteSource(old(State()), id) && Dropped(old(State()), State(), id)
      ensures result.Some? <==> id in old(sources)
      ensures result.Some? ==>
                var (l, store) := result.value;
                && l == old(sources)[id]
                && fresh(store) && store.Valid() && store.hash == hash && store.Contents() == Image(lists.Get(l))
    {
      DeleteIsDropped(State(), id);
      if id !in sources {
        return None;
      }
      var l := sources[id];
      var ownedRows := OwnedBy(owned, id);
      owned := owned - {id};
      sources := sources - {id};
      lists := lists.Set(l, lists.Get(l) - Pruned(State(), l, ownedRows, owned));
      var store := LoadDomainStore(l);
      return Some((l, store));
    }

    /** A replica's apply: empty the table, insert the fetched rows, then build a store from the payload. */
    method ApplyDomains(l: ListType, domains: seq<Text>) returns (store: DomainStore)
      requires Loadable(ToSet(domains))
      modifies this
      ensures State() == ReplaceTable(old(State()), l, ToSet(domains))
      ensures Overwritten(old(State()), State(), l, ToSet(domains))
      ensures fresh(store) && store.Valid() && store.hash == hash && store.Contents() == Image(ToSet(domains))
    {
      ApplyIsOverwritten(State(), l, ToSet(domains));
      var rows: Rows := {};
      for i := 0 to |domains|
        invariant rows == ToSet(domains[..i]) && State() == old(State())
      {
        PrefixStep(domains, i);
        rows := rows + {domains[i]};
      }
      assert domains[..|domains|] == domains;
      lists := lists.Set(l, rows);
      store := BuildStore(hash, domains);
    }
  }

  lemma AddNoRows(t: Relations, l: ListType)
    ensures AddRows(t, l, {}) == t
  {
    assert t.lists.Get(l) + {} == t.lists.Get(l) && t.manual.Get(l) + {} == t.manual.Get(l);
  }

  lemma AddRowsStep(t: Relations, l: ListType, done: Rows, row: Text)
    ensures AddRow(AddRows(t, l, done), l, row) == AddRows(t, l, done + {row})
  {
    var m := AddRow(AddRows(t, l, done), l, row);
    assert m.lists.Get(l) == t.lists.Get(l) + (done + {row});
    assert m.manual.Get(l) == t.manual.Get(l) + (done + {row});
  }
}
