/**
 The running lists against their tables, under every interleaving of edits, imports, refreshes, source
 deletes and replica applies. Fetches run unlocked; commit and install happen under one mutation lock.
 */
module Runtime {
  import opened Bytes
  import opened Lists
  import opened Lines
  import opened Tables

  type Task = nat

  /** A request or background job, with whatever it fetched before asking for the lock. */
  datatype Job =
    | Add(l: ListType, domain: Text)
    | Delete(l: ListType, row: Text)
    | Import(l: ListType, content: Text)
    | RefreshSource(id: int, l: ListType, content: Text)
    | DropSource(id: int)
    | Apply(l: ListType, payload: seq<Text>)

  /** What a committed job still has to do to a running store. */
  datatype Install =
    | Done
    | InsertOne(l: ListType, domain: Text)
    | RemoveOne(l: ListType, row: Text)
    | MergeIn(l: ListType, rows: Rows)
    | LoadTable(l: ListType)              // a separate query after the commit
    | ReplaceWith(l: ListType, sets: Sets)

  datatype Phase = Waiting(job: Job) | Holding(job: Job) | Committed(todo: Install)

  datatype System = System(db: Relations, stores: PerList<Sets>, lock: Option<Task>, tasks: map<Task, Phase>)

  datatype Event =
    | Start(t: Task, job: Job)            // its unlocked fetch is over
    | Acquire(t: Task)
    | Commit(t: Task)
    | CommitFails(t: Task)
    | Load(t: Task)
    | InstallStore(t: Task)
    | Release(t: Task)
    | CreateSource(id: int, l: ListType)  // never takes the lock

  function CommitDb(db: Relations, job: Job): Relations {
    match job
    case Add(l, d) => AddRow(db, l, Normalize(d))
    case Delete(l, row) => DeleteRow(db, l, row)
    case Import(l, content) => AddRows(db, l, ToSet(ParsedRows(content)))
    case RefreshSource(id, l, content) => Refresh(db, id, l, ToSet(ParsedRows(content)))
    case DropSource(id) => DeleteSource(db, id)
    case Apply(l, payload) => ReplaceTable(db, l, ToSet(payload))
  }

  /** The install a commit leaves behind, judged by the database it ran on. */
  function Todo(db: Relations, job: Job): Install {
    match job
    case Add(l, d) => InsertOne(l, d)
    case Delete(l, row) => if row in db.lists.Get(l) then RemoveOne(l, row) else Done
    case Import(l, content) => MergeIn(l, ToSet(ParsedRows(content)))
    case RefreshSource(id, l, content) =>
      if Accepted(|OwnedBy(db.owned, id)|, |ToSet(ParsedRows(content))|) then LoadTable(l) else Done
    case DropSource(id) => if id in db.sources then LoadTable(db.sources[id]) else Done
    case Apply(l, payload) => ReplaceWith(l, Image(ToSet(payload)))
  }

  function Installed(stores: PerList<Sets>, todo: Install): PerList<Sets> {
    match todo
    case Done => stores
    case InsertOne(l, d) => stores.Set(l, Lists.Add(stores.Get(l), EntryOf(Normalize(d))))
    case RemoveOne(l, row) => stores.Set(l, Lists.Remove(stores.Get(l), Normalize(row)))
    case MergeIn(l, rows) => stores.Set(l, Union(stores.Get(l), Image(rows)))
    case LoadTable(l) => stores
    case ReplaceWith(l, sets) => stores.Set(l, sets)
  }

  predicate At(s: System, t: Task) {
    t in s.tasks && s.lock == Some(t)
  }

  /** One step; an event that is not enabled changes nothing. */
  function Exec(s: System, e: Event): System {
    match e
    case Start(t, job) => if t in s.tasks then s else s.(tasks := s.tasks[t := Waiting(job)])
    case Acquire(t) =>
      if t in s.tasks && s.tasks[t].Waiting? && s.lock == None
      then s.(lock := Some(t), tasks := s.tasks[t := Holding(s.tasks[t].job)]) else s
    case Commit(t) =>
      if At(s, t) && s.tasks[t].Holding?
      then s.(db := CommitDb(s.db, s.tasks[t].job), tasks := s.tasks[t := Committed(Todo(s.db, s.tasks[t].job))]) else s
    case CommitFails(t) =>
      if At(s, t) && s.tasks[t].Holding? then s.(tasks := s.tasks[t := Committed(Done)]) else s
    case Load(t) =>
      if At(s, t) && s.tasks[t].Committed? && s.tasks[t].todo.LoadTable?
      then var l := s.tasks[t].todo.l;
        s.(tasks := s.tasks[t := Committed(ReplaceWith(l, Image(s.db.lists.Get(l))))]) else s
    case InstallStore(t) =>
      if At(s, t) && s.tasks[t].Committed? && !s.tasks[t].todo.LoadTable?
      then s.(stores := Installed(s.stores, s.tasks[t].todo), tasks := s.tasks[t := Committed(Done)]) else s
    case Release(t) =>
      if At(s, t) && s.tasks[t].Committed? && s.tasks[t].todo.Done?
      then s.(lock := None, tasks := s.tasks - {t}) else s
    case CreateSource(id, l) => s.(db := AddSource(s.db, id, l))
  }

  function Run(s: System, events: seq<Event>, i: nat): System
    requires i <= |events|
  {
    if i == 0 then s else Exec(Run(s, events, i - 1), events[i - 1])
  }

  // ----- what holds throughout -----

  /** Every row is one that normalisation leaves alone. */
  ghost predicate StableRows(rows: Rows) {
    forall r :: r in rows ==> Stable(r)
  }

  /** The names requests carry: at most one trailing dot, and replicas fetch rows a master could hold. */
  ghost predicate ProperJob(job: Job) {
    match job
    case Add(_, d) => !EndsWithDot(Normalize(d))
    case Apply(_, payload) => StableRows(ToSet(payload))
    case _ => true
  }

  ghost predicate ProperEvent(e: Event) {
    e.Start? ==> ProperJob(e.job)
  }

  ghost predicate ProperPhase(p: Phase) {
    !p.Committed? ==> ProperJob(p.job)
  }

  /** This list's store is the image of its table once the pending install, if any, is done. */
  ghost predicate AgreesAfter(db: Relations, stores: PerList<Sets>, todo: Install, l: ListType) {
    todo == LoadTable(l) || Installed(stores, todo).Get(l) == Image(db.lists.Get(l))
  }

  function Pending(s: System): Install {
    if s.lock.Some? && s.lock.value in s.tasks && s.tasks[s.lock.value].Committed?
    then s.tasks[s.lock.value].todo else Done
  }

  ghost predicate Inv(s: System) {
    && (forall l: ListType :: StableRows(s.db.lists.Get(l)))
    && (forall t :: t in s.tasks ==> ProperPhase(s.tasks[t]))
    && (forall t :: t in s.tasks && !s.tasks[t].Waiting? ==> s.lock == Some(t))
    && (forall l :: AgreesAfter(s.db, s.stores, Pending(s), l))
  }

  ghost predicate Agrees(s: System) {
    forall l: ListType :: s.stores.Get(l) == Image(s.db.lists.Get(l))
  }

  // ----- images of stable tables -----

  /** In a stable table, names and rows are the same thing spelled out. */
  lemma StableImage(rows: Rows, n: Text)
    requires StableRows(rows)
    ensures n in Image(rows).exact <==> n in rows && Storable(n) && !HasWildcardPrefix(n)
    ensures n in Image(rows).wild <==> [STAR, DOT] + n in rows && Storable(n)
  {
    EntryInverse(n, n);
    EntryInverse([STAR, DOT] + n, n);
    if n in Image(rows).exact {
      var q :| q in rows && EntryOf(Normalize(q)) == ExactName(n);
      StableEntry(rows, q, n);
    }
    if n in Image(rows).wild {
      var q :| q in rows && EntryOf(Normalize(q)) == WildSuffix(n);
      StableEntry(rows, q, n);
    }
    if n in rows { StableEntry(rows, n, n); }
    if [STAR, DOT] + n in rows { StableEntry(rows, [STAR, DOT] + n, n); }
  }

  lemma StableEntry(rows: Rows, q: Text, n: Text)
    requires StableRows(rows) && q in rows
    ensures EntryOf(Normalize(q)) == ExactName(n) <==> q == n && Storable(n) && !HasWildcardPrefix(n)
    ensures EntryOf(Normalize(q)) == WildSuffix(n) <==> q == [STAR, DOT] + n && Storable(n)
  {
    assert Stable(q);
    EntryInverse(q, n);
  }

  /** A list and a table that spell each other out. */
  ghost predicate Spells(rows: Rows, m: Sets) {
    && (forall n :: n in m.exact <==> n in rows && Storable(n) && !HasWildcardPrefix(n))
    && (forall n :: n in m.wild <==> [STAR, DOT] + n in rows && Storable(n))
  }

  lemma StableSpells(rows: Rows)
    requires StableRows(rows)
    ensures Spells(rows, Image(rows))
  {
    var m := Image(rows);
    forall n ensures n in m.exact <==> n in rows && Storable(n) && !HasWildcardPrefix(n) {
      StableImage(rows, n);
    }
    forall n ensures n in m.wild <==> [STAR, DOT] + n in rows && Storable(n) {
      StableImage(rows, n);
    }
  }

  lemma RemoveSpelled(rows: Rows, r: Text, m: Sets, rest: Sets)
    requires Spells(rows, m) && Spells(rows - {r}, rest)
    ensures Lists.Remove(m, r) == rest
  {
    var a := Lists.Remove(m, r);
    forall n ensures n in a.wild <==> n in rest.wild {
      var q := [STAR, DOT] + n;
      assert HasWildcardPrefix(q) && q[2..] == n;
      if HasWildcardPrefix(r) { assert r == [STAR, DOT] + r[2..]; }
    }
    assert a.exact == rest.exact && a.wild == rest.wild;
  }

  /** Removing a row from the running store is removing it from the table. */
  lemma ImageRemove(rows: Rows, r: Text)
    requires StableRows(rows) && r in rows
    ensures Lists.Remove(Image(rows), Normalize(r)) == Image(rows - {r})
  {
    assert Stable(r);
    StableSpells(rows);
    StableSpells(rows - {r});
    RemoveSpelled(rows, r, Image(rows), Image(rows - {r}));
  }

  /** Whether inserting a posted name leaves the store the image of the table its row went into. */
  ghost predicate AddKeepsImage(rows: Rows, d: Text) {
    Image(rows + {Normalize(d)}) == Lists.Add(Image(rows), EntryOf(Normalize(d)))
  }

  /** Exactly the names for which it does: see `AddAgreesIff`. */
  ghost predicate AddIsSafe(rows: Rows, d: Text) {
    var n := Normalize(d);
    !EndsWithDot(n) || (EntryOf(n) == Nothing && Has(Image(rows), EntryOf(Normalize(n))))
  }

  lemma StableRowsHaveNoDot(rows: Rows)
    requires StableRows(rows)
    ensures forall r :: r in rows ==> !EndsWithDot(r)
  {
    forall r | r in rows ensures !EndsWithDot(r) {
      assert Stable(r);
      assert |Normalize(r)| == |r|;
    }
  }

  /** A stable table has no entry that ends in a dot. */
  lemma NoDottedEntries(rows: Rows, n: Text)
    requires StableRows(rows) && EndsWithDot(n) && EntryOf(n) != Nothing
    ensures !Has(Image(rows), EntryOf(n))
  {
    StableRowsHaveNoDot(rows);
    match EntryOf(n)
    case ExactName(m) => StableImage(rows, m);
    case WildSuffix(m) =>
      StableImage(rows, m);
      EntryInverse(n, m);
  }

  lemma DottedRow(d: Text)
    requires EndsWithDot(Normalize(d))
    ensures var n := Normalize(d); EntryOf(n) == Nothing || EntryOf(Normalize(n)) != EntryOf(n)
  {
    var n := Normalize(d);
    RenormalizeDotted(d);
    if EntryOf(n) != Nothing && EntryOf(Normalize(n)) == EntryOf(n) {
      SameEntrySameLine(n, Normalize(n));
    }
  }

  /**
   From any agreeing stable table, a posted name and the row stored for it mean the same exactly when the
   normalised name does not end in another dot, or says nothing while the row, read back, says what is
   listed already. The row `a.` of a posted `a..` would be read back as `a`.
   */
  lemma AddAgreesIff(rows: Rows, d: Text)
    requires StableRows(rows)
    ensures AddKeepsImage(rows, d) <==> AddIsSafe(rows, d)
  {
    var n := Normalize(d);
    NormalizeStableIff(d);
    ImageAdd(rows, n);
    var read, posted := EntryOf(Normalize(n)), EntryOf(n);
    assert Image(rows + {n}) == Lists.Add(Image(rows), read);
    if EndsWithDot(n) {
      DottedRow(d);
      if posted == Nothing {
        AddSameIff(Image(rows), read);
      } else {
        NoDottedEntries(rows, n);
        assert Has(Lists.Add(Image(rows), posted), posted);
        assert !Has(Lists.Add(Image(rows), read), posted);
      }
    }
  }

  /** Posting `a..` to an empty list makes the store hold `a.` and the table a row that means `a`. */
  lemma TwoDotsDisagree()
    ensures var d: Text := [97, DOT, DOT];
            && !AddKeepsImage({}, d)
            && Lists.Add(Image({}), EntryOf(Normalize(d))).exact == {[97, DOT]}
            && [97] in Image({Normalize(d)}).exact
  {
    var d: Text := [97, DOT, DOT];
    assert Normalize(d) == [97, DOT] && Normalize([97, DOT]) == [97];
    AddAgreesIff({}, d);
    assert [97, DOT] in {Normalize(d)};
  }

  /** The table stays stable exactly if the name posted does not end in two dots. */
  lemma AddKeepsStableIff(rows: Rows, d: Text)
    requires StableRows(rows)
    ensures StableRows(rows + {Normalize(d)}) <==> !EndsWithDot(Normalize(d))
  {
    NormalizeStableIff(d);
    assert Normalize(d) in rows + {Normalize(d)};
  }

  lemma RenormalizeDotted(d: Text)
    requires EndsWithDot(Normalize(d))
    ensures Normalize(Normalize(d)) == Normalize(d)[..|Normalize(d)| - 1]
  {
    ToLowerIdempotent(d);
  }

  // ----- one commit -----

  lemma CommitKeepsStable(db: Relations, job: Job)
    requires (forall l: ListType :: StableRows(db.lists.Get(l))) && ProperJob(job)
    ensures forall l: ListType :: StableRows(CommitDb(db, job).lists.Get(l))
  {
    match job
    case Add(l, d) =>
      NormalizeStableIff(d);
      GrowKeepsStable(db, CommitDb(db, job), {Normalize(d)});
    case Import(l, content) =>
      ParsedRowsAreStable(content);
      GrowKeepsStable(db, AddRows(db, l, ToSet(ParsedRows(content))), ToSet(ParsedRows(content)));
    case RefreshSource(id, l, content) =>
      ParsedRowsAreStable(content);
      GrowKeepsStable(db, Refresh(db, id, l, ToSet(ParsedRows(content))), ToSet(ParsedRows(content)));
    case Delete(l, row) => GrowKeepsStable(db, DeleteRow(db, l, row), {});
    case DropSource(id) => GrowKeepsStable(db, DeleteSource(db, id), {});
    case Apply(l, payload) => GrowKeepsStable(db, ReplaceTable(db, l, ToSet(payload)), ToSet(payload));
  }

  lemma GrowKeepsStable(db: Relations, db': Relations, rows: Rows)
    requires StableRows(rows)
    requires forall l: ListType :: StableRows(db.lists.Get(l)) && db'.lists.Get(l) <= db.lists.Get(l) + rows
    ensures forall l: ListType :: StableRows(db'.lists.Get(l))
  {
  }

  /** A commit from an agreeing state leaves exactly the install that restores agreement. */
  lemma CommitAgrees(db: Relations, stores: PerList<Sets>, job: Job, l: ListType)
    requires (forall m: ListType :: StableRows(db.lists.Get(m))) && ProperJob(job)
    requires forall m: ListType :: stores.Get(m) == Image(db.lists.Get(m))
    ensures AgreesAfter(CommitDb(db, job), stores, Todo(db, job), l)
  {
    match job
    case Add(m, d) => AddAgrees(db, stores, m, d, l);
    case Delete(m, row) => if row in db.lists.Get(m) { DeleteAgrees(db, stores, m, row, l); }
    case Import(m, content) => ImportAgrees(db, stores, m, ToSet(ParsedRows(content)), l);
    case RefreshSource(id, m, content) => RefreshAgrees(db, stores, id, m, ToSet(ParsedRows(content)), l);
    case DropSource(id) => assert stores.Get(l) == Image(db.lists.Get(l));
    case Apply(m, payload) => assert stores.Get(l) == Image(db.lists.Get(l));
  }

  lemma AddAgrees(db: Relations, stores: PerList<Sets>, m: ListType, d: Text, l: ListType)
    requires forall k: ListType :: stores.Get(k) == Image(db.lists.Get(k)) && StableRows(db.lists.Get(k))
    ensures AgreesAfter(AddRow(db, m, Normalize(d)), stores, InsertOne(m, d), l) <==>
              l != m || AddIsSafe(db.lists.Get(m), d)
  {
    assert stores.Get(m) == Image(db.lists.Get(m)) && stores.Get(l) == Image(db.lists.Get(l));
    assert StableRows(db.lists.Get(m));
    AddAgreesIff(db.lists.Get(m), d);
  }

  lemma DeleteAgrees(db: Relations, stores: PerList<Sets>, m: ListType, row: Text, l: ListType)
    requires StableRows(db.lists.Get(m)) && row in db.lists.Get(m)
    requires forall k: ListType :: stores.Get(k) == Image(db.lists.Get(k))
    ensures AgreesAfter(DeleteRow(db, m, row), stores, RemoveOne(m, row), l)
  {
    assert stores.Get(m) == Image(db.lists.Get(m)) && stores.Get(l) == Image(db.lists.Get(l));
    ImageRemove(db.lists.Get(m), row);
  }

  lemma ImportAgrees(db: Relations, stores: PerList<Sets>, m: ListType, rows: Rows, l: ListType)
    requires forall k: ListType :: stores.Get(k) == Image(db.lists.Get(k))
    ensures AgreesAfter(AddRows(db, m, rows), stores, MergeIn(m, rows), l)
  {
    assert stores.Get(m) == Image(db.lists.Get(m)) && stores.Get(l) == Image(db.lists.Get(l));
    ImageUnion(db.lists.Get(m), rows);
  }

  lemma RefreshAgrees(db: Relations, stores: PerList<Sets>, id: int, m: ListType, rows: Rows, l: ListType)
    requires forall k: ListType :: stores.Get(k) == Image(db.lists.Get(k))
    ensures AgreesAfter(Refresh(db, id, m, rows), stores,
                        if Accepted(|OwnedBy(db.owned, id)|, |rows|) then LoadTable(m) else Done, l)
  {
  }

  lemma StepInv(s: System, e: Event)
    requires Inv(s) && ProperEvent(e)
    ensures Inv(Exec(s, e))
  {
    match e
    case Commit(t) =>
      if At(s, t) && s.tasks[t].Holding? {
        var job := s.tasks[t].job;
        assert Pending(s) == Done;
        forall l: ListType ensures s.stores.Get(l) == Image(s.db.lists.Get(l)) {
          assert AgreesAfter(s.db, s.stores, Done, l);
        }
        CommitKeepsStable(s.db, job);
        forall l ensures AgreesAfter(CommitDb(s.db, job), s.stores, Todo(s.db, job), l) {
          CommitAgrees(s.db, s.stores, job, l);
        }
        assert Pending(Exec(s, e)) == Todo(s.db, job);
      }
    case Load(t) =>
      if At(s, t) && s.tasks[t].Committed? && s.tasks[t].todo.LoadTable? {
        LoadAgrees(s, t);
      }
    case InstallStore(t) =>
      if At(s, t) && s.tasks[t].Committed? && !s.tasks[t].todo.LoadTable? {
        var s' := Exec(s, e);
        forall l ensures AgreesAfter(s'.db, s'.stores, Pending(s'), l) {
          assert AgreesAfter(s.db, s.stores, Pending(s), l);
        }
      }
    case _ => QuietStep(s, e);
  }

  lemma LoadAgrees(s: System, t: Task)
    requires Inv(s) && At(s, t) && s.tasks[t].Committed? && s.tasks[t].todo.LoadTable?
    ensures Inv(Exec(s, Load(t)))
  {
    var s' := Exec(s, Load(t));
    forall l ensures AgreesAfter(s'.db, s'.stores, Pending(s'), l) {
      assert AgreesAfter(s.db, s.stores, Pending(s), l);
    }
  }

  /** Steps that touch neither a list table nor a store. */
  lemma QuietStep(s: System, e: Event)
    requires Inv(s) && ProperEvent(e) && !e.Commit? && !e.Load? && !e.InstallStore?
    ensures Inv(Exec(s, e))
  {
    var s' := Exec(s, e);
    assert s'.stores == s.stores && s'.db.lists == s.db.lists;
    assert Pending(s') == Pending(s);
    forall l ensures AgreesAfter(s'.db, s'.stores, Pending(s'), l) {
      assert AgreesAfter(s.db, s.stores, Pending(s), l);
    }
  }

  /** Whatever the interleaving, the invariant holds at every point of the run. */
  lemma {:induction false} RunInv(s: System, events: seq<Event>, i: nat)
    requires i <= |events| && Inv(s) && forall k :: 0 <= k < |events| ==> ProperEvent(events[k])
    ensures Inv(Run(s, events, i))
  {
    if i == 0 {
    } else {
      RunInv(s, events, i - 1);
      StepInv(Run(s, events, i - 1), events[i - 1]);
    }
  }

  /** Freshly started: stores loaded from the tables, nothing running. */
  ghost predicate Initial(s: System) {
    Agrees(s) && (forall l: ListType :: StableRows(s.db.lists.Get(l))) && s.lock == None && s.tasks == map[]
  }

  lemma InitialInv(s: System)
    requires Initial(s)
    ensures Inv(s)
  {
  }

  lemma LockFreeAgrees(s: System)
    requires Inv(s) && s.lock == None
    ensures Agrees(s)
  {
    forall l: ListType ensures s.stores.Get(l) == Image(s.db.lists.Get(l)) {
      assert AgreesAfter(s.db, s.stores, Pending(s), l);
    }
  }

  /** The invariant leaves room for one task past the lock. */
  lemma LockExcludes(s: System, t: Task, u: Task)
    requires Inv(s) && t in s.tasks && u in s.tasks && !s.tasks[t].Waiting? && !s.tasks[u].Waiting?
    ensures t == u
  {
    assert s.lock == Some(t) && s.lock == Some(u);
  }

  /**
   Whenever the mutation lock is free, each running store is exactly the image of its table, however
   fetches, commits and installs of all jobs interleaved before.
   */
  lemma FreeLockMeansAgreement(s: System, events: seq<Event>)
    requires Initial(s) && forall k :: 0 <= k < |events| ==> ProperEvent(events[k])
    ensures var now := Run(s, events, |events|); now.lock == None ==> Agrees(now)
  {
    InitialInv(s);
    RunInv(s, events, |events|);
    if Run(s, events, |events|).lock == None {
      LockFreeAgrees(Run(s, events, |events|));
    }
  }

  /** Jobs exclude each other: at most one task is ever past the lock. */
  lemma MutualExclusion(s: System, events: seq<Event>, t: Task, u: Task)
    requires Initial(s) && forall k :: 0 <= k < |events| ==> ProperEvent(events[k])
    requires var now := Run(s, events, |events|);
             && t in now.tasks && u in now.tasks && !now.tasks[t].Waiting? && !now.tasks[u].Waiting?
    ensures t == u
  {
    InitialInv(s);
    RunInv(s, events, |events|);
    LockExcludes(Run(s, events, |events|), t, u);
  }

  // ----- a job gets done -----

  /** What a job is for, row by row. */
  ghost predicate JobDone(db: Relations, db': Relations, job: Job) {
    match job
    case Add(l, d) => Grown(db, db', l, {Normalize(d)})
    case Delete(l, row) => Shrunk(db, db', l, row)
    case Import(l, content) => Grown(db, db', l, ToSet(ParsedRows(content)))
    case RefreshSource(id, l, content) =>
      var rows := ToSet(ParsedRows(content));
      if Suspicious(|OwnedBy(db.owned, id)|, |rows|) then db' == db else Refreshed(db, db', id, l, rows)
    case DropSource(id) => Dropped(db, db', id)
    case Apply(l, payload) => Overwritten(db, db', l, ToSet(payload))
  }

  /** The steps of one job that meets no failure; loading does nothing where nothing is to be loaded. */
  function StepsOf(t: Task, job: Job): seq<Event> {
    [Start(t, job), Acquire(t), Commit(t), Load(t), InstallStore(t), Release(t)]
  }

  lemma CommitDoesJob(db: Relations, job: Job)
    ensures JobDone(db, CommitDb(db, job), job)
  {
    match job
    case Add(l, d) => AddIsGrown(db, l, {Normalize(d)});
    case Delete(l, row) => DeleteIsShrunk(db, l, row);
    case Import(l, content) => AddIsGrown(db, l, ToSet(ParsedRows(content)));
    case RefreshSource(id, l, content) => RefreshIffTrusted(db, id, l, ToSet(ParsedRows(content)));
    case DropSource(id) => DeleteIsDropped(db, id);
    case Apply(l, payload) => ApplyIsOverwritten(db, l, ToSet(payload));
  }

  /** Six steps in a row, each named. */
  lemma SixSteps(s: System, events: seq<Event>)
    requires |events| == 6
    ensures var s1 := Exec(s, events[0]); var s2 := Exec(s1, events[1]); var s3 := Exec(s2, events[2]);
            var s4 := Exec(s3, events[3]); var s5 := Exec(s4, events[4]);
            Run(s, events, 6) == Exec(s5, events[5])
  {
    assert Run(s, events, 0) == s;
    assert Run(s, events, 1) == Exec(s, events[0]);
    assert Run(s, events, 2) == Exec(Run(s, events, 1), events[1]);
    assert Run(s, events, 3) == Exec(Run(s, events, 2), events[2]);
    assert Run(s, events, 4) == Exec(Run(s, events, 3), events[3]);
    assert Run(s, events, 5) == Exec(Run(s, events, 4), events[4]);
  }

  lemma StepsDoCommit(s: System, t: Task, job: Job)
    requires s.lock == None && t !in s.tasks
    ensures var s3 := Exec(Exec(Exec(s, Start(t, job)), Acquire(t)), Commit(t));
            s3 == s.(db := CommitDb(s.db, job), lock := Some(t), tasks := s.tasks[t := Committed(Todo(s.db, job))])
  {
  }

  lemma StepsDoRelease(s: System, t: Task, todo: Install)
    requires s.lock == Some(t) && t in s.tasks && s.tasks[t] == Committed(todo)
    ensures var s6 := Exec(Exec(Exec(s, Load(t)), InstallStore(t)), Release(t));
            s6.db == s.db && s6.lock == None && s6.tasks == s.tasks - {t}
  {
  }

  /**
   From any state in which the lock is free, a job that meets no failure does what it is for, gives the lock
   back, and leaves both stores agreeing with their tables. Other tasks are where they were.
   */
  lemma JobGetsDone(s: System, t: Task, job: Job)
    requires Inv(s) && s.lock == None && t !in s.tasks && ProperJob(job)
    ensures var s' := Run(s, StepsOf(t, job), 6);
            JobDone(s.db, s'.db, job) && s'.lock == None && s'.tasks == s.tasks && Agrees(s')
  {
    var s' := Run(s, StepsOf(t, job), 6);
    StepsEnd(s, t, job, s');
    CommitDoesJob(s.db, job);
    RunInv(s, StepsOf(t, job), 6);
    LockFreeAgrees(s');
  }

  lemma StepsEnd(s: System, t: Task, job: Job, s': System)
    requires s.lock == None && t !in s.tasks && s' == Run(s, StepsOf(t, job), 6)
    ensures s'.db == CommitDb(s.db, job) && s'.lock == None && s'.tasks == s.tasks
  {
    SixSteps(s, StepsOf(t, job));
    StepsDoCommit(s, t, job);
    var s3 := Exec(Exec(Exec(s, Start(t, job)), Acquire(t)), Commit(t));
    StepsDoRelease(s3, t, Todo(s.db, job));
    assert s.tasks[t := Committed(Todo(s.db, job))] - {t} == s.tasks;
  }
}
