/**
 The list handlers over real tables and packed stores: each changes the database and then the running
 store while it holds the mutation lock.
 */
module Servers {
  import opened Bytes
  import opened Lists
  import opened Stores
  import opened Tables
  import opened Databases
  import opened Runtime

  /** Merging the image of new rows keeps a store the image of its table, and stable rows stay stable. */
  lemma MergedImage(before: Rows, rows: Rows, contents: Sets)
    requires contents == Image(before) && StableRows(before) && StableRows(rows)
    ensures Union(contents, Image(rows)) == Image(before + rows) && StableRows(before + rows)
  {
    ImageUnion(before, rows);
  }

  class Server {
    const db: Database
    const blocklist: DomainStore
    const allowlist: DomainStore

    constructor (hash: Text -> u64)
      ensures Valid() && Agrees() && fresh(db) && fresh(blocklist) && fresh(allowlist)
      ensures db.State() == Relations(PerList({}, {}), PerList({}, {}), map[], map[])
    {
      db := new Database(hash);
      blocklist := new DomainStore(hash);
      allowlist := new DomainStore(hash);
      new;
      assert Image({}) == NO_NAMES;
    }

    function Store(l: ListType): DomainStore {
      if l.Blocklist? then blocklist else allowlist
    }

    ghost predicate Valid()
      reads this, blocklist, allowlist
    {
      && blocklist != allowlist && blocklist.Valid() && allowlist.Valid()
      && blocklist.hash == db.hash && allowlist.hash == db.hash
    }

    /** This list's packed store holds exactly the image of its table. */
    ghost predicate ListAgrees(l: ListType)
      reads this, db, blocklist, allowlist
    {
      Store(l).Contents() == Image(db.lists.Get(l)) && StableRows(db.lists.Get(l))
    }

    ghost predicate Agrees()
      reads this, db, blocklist, allowlist
    {
      ListAgrees(Blocklist) && ListAgrees(Allowlist)
    }

    /**
     POST a domain: the row, then the running store. The store stays the image of the table exactly if the
     name is safe to add, and the rows stay stable exactly if it does not end in two dots.
     */
    method AddListed(l: ListType, domain: Text)
      requires Valid() && Agrees()
      requires Store(l).Fits(Lists.Add(Store(l).Contents(), EntryOf(Normalize(domain))))
      modifies db, Store(l)
      ensures Valid() && db.State() == AddRow(old(db.State()), l, Normalize(domain))
      ensures Store(l).Contents() == Lists.Add(old(Store(l).Contents()), EntryOf(Normalize(domain)))
      ensures Store(l).Contents() == Image(db.lists.Get(l)) <==> AddIsSafe(old(db.lists.Get(l)), domain)
      ensures Agrees() <==> !EndsWithDot(Normalize(domain))
    {
      AddAgreesIff(db.lists.Get(l), domain);
      AddKeepsStableIff(db.lists.Get(l), domain);
      var _ := db.AddDomain(l, domain);
      var _ := Store(l).Insert(domain);
    }

    /** DELETE a row: the table, then the running store when there was such a row. */
    method DeleteListed(l: ListType, row: Text) returns (found: bool)
      requires Valid() && Agrees()
      modifies db, Store(l)
      ensures Valid() && Agrees()
      ensures db.State() == DeleteRow(old(db.State()), l, row) && found == (row in old(db.lists.Get(l)))
    {
      if row in db.lists.Get(l) {
        ImageRemove(db.lists.Get(l), row);
      }
      found := db.DeleteDomain(l, row);
      if found {
        Store(l).Remove(row);
      }
    }

    /** Bulk import: commit the rows, then merge the store built from them. */
    method BulkImport(l: ListType, content: Text) returns (imported: nat)
      requires Valid() && Agrees() && Loadable(ToSet(ParsedRows(content)))
      requires Store(l).Fits(Union(Store(l).Contents(), Image(ToSet(ParsedRows(content)))))
      modifies db, Store(l)
      ensures Valid() && Agrees()
      ensures db.State() == AddRows(old(db.State()), l, ToSet(ParsedRows(content)))
      ensures imported == |db.lists.Get(l)| - |old(db.lists.Get(l))|
    {
      ghost var before, rows := db.lists.Get(l), ToSet(ParsedRows(content));
      var store;
      imported, store := CommitImport(l, content);
      MergeInto(l, store, before, rows);
    }

    /** The first half of an import: the rows are committed and a store of just them is built. */
    method CommitImport(l: ListType, content: Text) returns (imported: nat, store: DomainStore)
      requires Valid() && Agrees() && Loadable(ToSet(ParsedRows(content)))
      requires Store(l).Fits(Union(Store(l).Contents(), Image(ToSet(ParsedRows(content)))))
      modifies db
      ensures Store(l).Contents() == Image(old(db.lists.Get(l))) && StableRows(old(db.lists.Get(l)))
      ensures Store(l).Fits(Union(Store(l).Contents(), store.Contents())) && store != Store(l)
      ensures Valid() && fresh(store) && store.Valid() && store.Contents() == Image(ToSet(ParsedRows(content)))
      ensures StableRows(ToSet(ParsedRows(content))) && ListAgrees(Other(l))
      ensures db.lists.Get(l) == old(db.lists.Get(l)) + ToSet(ParsedRows(content))
      ensures db.State() == AddRows(old(db.State()), l, ToSet(ParsedRows(content)))
      ensures imported == |db.lists.Get(l)| - |old(db.lists.Get(l))|
    {
      assert StableRows(ToSet(ParsedRows(content))) by {
        ParsedRowsAreStable(content);
      }
      ghost var image := Image(ToSet(ParsedRows(content)));
      imported, store := db.InsertDomainsFromContent(l, content);
      assert store.Contents() == image;
      assert Store(l).Fits(Union(Store(l).Contents(), image));
    }

    function Other(l: ListType): ListType {
      if l.Blocklist? then Allowlist else Blocklist
    }

    /** The second half of an import: the running store takes in the store built from the new rows. */
    method MergeInto(l: ListType, store: DomainStore, ghost before: Rows, ghost rows: Rows)
      requires Valid() && store.Valid() && store != Store(l) && ListAgrees(Other(l))
      requires Store(l).Contents() == Image(before) && store.Contents() == Image(rows)
      requires StableRows(before) && StableRows(rows) && db.lists.Get(l) == before + rows
      requires Store(l).Fits(Union(Store(l).Contents(), store.Contents()))
      modifies Store(l)
      ensures Valid() && Agrees()
    {
      MergedImage(before, rows, Store(l).Contents());
      Store(l).Merge(store);
    }

    /** Refresh a source: replace its rows, then install the store rebuilt from the whole table. */
    method RefreshSource(id: int, l: ListType, content: Text) returns (accepted: bool)
      requires Valid() && Agrees()
      requires Loadable(Refresh(db.State(), id, l, ToSet(ParsedRows(content))).lists.Get(l))
      modifies db, Store(l)
      ensures Valid() && Agrees()
      ensures db.State() == Refresh(old(db.State()), id, l, ToSet(ParsedRows(content)))
      ensures !accepted <==> Suspicious(|OwnedBy(old(db.owned), id)|, |ToSet(ParsedRows(content))|)
      ensures accepted ==> Refreshed(old(db.State()), db.State(), id, l, ToSet(ParsedRows(content)))
      ensures !accepted ==> db.State() == old(db.State()) && Store(l).Contents() == old(Store(l).Contents())
    {
      ParsedRowsAreStable(content);
      var result := db.ReplaceSourceDomains(id, l, content);
      accepted := result.Some?;
      if accepted {
        Store(l).ReplaceWith(result.value.1);
      }
    }

    /** Delete a source: clean up its rows, then install the store rebuilt from the whole table. */
    method DropSource(id: int) returns (found: bool)
      requires Valid() && Agrees()
      requires id in db.sources ==> Loadable(DeleteSource(db.State(), id).lists.Get(db.sources[id]))
      modifies db, blocklist, allowlist
      ensures Valid() && Agrees()
      ensures db.State() == DeleteSource(old(db.State()), id) && found == (id in old(db.sources))
    {
      var result := db.DeleteSourceWithCleanup(id);
      found := result.Some?;
      if found {
        Store(result.value.0).ReplaceWith(result.value.1);
      }
    }

    /** A replica's apply: replace the table by the payload, then install the store built from it. */
    method ApplySnapshot(l: ListType, payload: seq<Text>)
      requires Valid() && Agrees() && Loadable(ToSet(payload)) && StableRows(ToSet(payload))
      modifies db, Store(l)
      ensures Valid() && Agrees()
      ensures db.State() == ReplaceTable(old(db.State()), l, ToSet(payload))
    {
      var store := db.ApplyDomains(l, payload);
      Store(l).ReplaceWith(store);
    }
  }
}
