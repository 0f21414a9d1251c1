/** Who owns the rows of a list, over every run of edits, imports, refreshes and source deletes. */
module Ownership {
  import opened Bytes
  import opened Tables

  /** The list type each source id was created with; ids are never reused. */
  type Kinds = int -> ListType

  /** A row held by a source of this list type. */
  ghost predicate HeldFor(t: Relations, kind: Kinds, l: ListType, d: Text) {
    exists id :: id in t.owned && kind(id) == l && d in t.owned[id]
  }

  /** Every manual and source-owned row is in its list. */
  ghost predicate NoLoss(t: Relations, kind: Kinds) {
    forall l, d :: d in t.manual.Get(l) || HeldFor(t, kind, l, d) ==> d in t.lists.Get(l)
  }

  /** Every row of a list is manual or source-owned. */
  ghost predicate NoExtra(t: Relations, kind: Kinds) {
    forall l, d :: d in t.lists.Get(l) ==> d in t.manual.Get(l) || HeldFor(t, kind, l, d)
  }

  /** A list is exactly its manual and source-owned rows. */
  ghost predicate Exact(t: Relations, kind: Kinds) {
    NoLoss(t, kind) && NoExtra(t, kind)
  }

  ghost predicate ManualListed(t: Relations) {
    forall l, d :: d in t.manual.Get(l) ==> d in t.lists.Get(l)
  }

  /** No row has sources of both list types. */
  ghost predicate Unshared(t: Relations, kind: Kinds) {
    forall d :: !(HeldFor(t, kind, Blocklist, d) && HeldFor(t, kind, Allowlist, d))
  }

  ghost predicate WellTyped(t: Relations, kind: Kinds) {
    forall id :: id in t.sources ==> t.sources[id] == kind(id)
  }

  const EMPTY_TABLES := Relations(PerList({}, {}), PerList({}, {}), map[], map[])

  datatype Edit =
    | Add(l: ListType, row: Text)
    | Import(l: ListType, rows: Rows)
    | Create(id: int)
    | RefreshFrom(id: int, rows: Rows)     // may run after the source was deleted: the fetch is unlocked
    | Drop(id: int)
    | DeleteListed(l: ListType, row: Text)

  function Step(t: Relations, kind: Kinds, e: Edit): Relations {
    match e
    case Add(l, row) => AddRow(t, l, row)
    case Import(l, rows) => AddRows(t, l, rows)
    case Create(id) => AddSource(t, id, kind(id))
    case RefreshFrom(id, rows) => Refresh(t, id, kind(id), rows)
    case Drop(id) => DeleteSource(t, id)
    case DeleteListed(l, row) => DeleteRow(t, l, row)
  }

  /** The tables after the first `i` edits from a given state. */
  function From(t: Relations, kind: Kinds, edits: seq<Edit>, i: nat): Relations
    requires i <= |edits|
  {
    if i == 0 then t else Step(From(t, kind, edits, i - 1), kind, edits[i - 1])
  }

  /** The tables after the first `i` edits of an empty database. */
  function After(kind: Kinds, edits: seq<Edit>, i: nat): Relations
    requires i <= |edits|
  {
    From(EMPTY_TABLES, kind, edits, i)
  }

  /** What an edit is for, row by row. */
  ghost predicate EditDone(t: Relations, t': Relations, kind: Kinds, e: Edit) {
    match e
    case Add(l, row) => Grown(t, t', l, {row})
    case Import(l, rows) => Grown(t, t', l, rows)
    case Create(id) =>
      t' == if id in t.sources then t else t.(sources := t.sources[id := kind(id)])
    case RefreshFrom(id, rows) =>
      if Suspicious(|OwnedBy(t.owned, id)|, |rows|) then t' == t else Refreshed(t, t', id, kind(id), rows)
    case Drop(id) => Dropped(t, t', id)
    case DeleteListed(l, row) => Shrunk(t, t', l, row)
  }

  /** Every edit of a run does just that. */
  lemma StepDoesEdit(t: Relations, kind: Kinds, e: Edit)
    ensures EditDone(t, Step(t, kind, e), kind, e)
  {
    match e
    case Add(l, row) => AddIsGrown(t, l, {row});
    case Import(l, rows) => AddIsGrown(t, l, rows);
    case Create(_) =>
    case RefreshFrom(id, rows) => RefreshIffTrusted(t, id, kind(id), rows);
    case Drop(id) => DeleteIsDropped(t, id);
    case DeleteListed(l, row) => DeleteIsShrunk(t, l, row);
  }

  // ----- one step -----

  lemma StepWellTyped(t: Relations, kind: Kinds, e: Edit)
    requires WellTyped(t, kind)
    ensures WellTyped(Step(t, kind, e), kind)
  {
  }

  /** Holders after one source's rows changed. */
  lemma HeldAfter(t: Relations, t': Relations, kind: Kinds, id: int, rows: Rows, l: ListType, d: Text)
    requires forall i :: i != id ==> OwnedBy(t'.owned, i) == OwnedBy(t.owned, i)
    requires OwnedBy(t'.owned, id) == rows
    ensures HeldFor(t', kind, l, d) <==> (kind(id) == l && d in rows) || HeldByOther(t, kind, id, l, d)
  {
    if HeldFor(t', kind, l, d) {
      var i :| i in t'.owned && kind(i) == l && d in t'.owned[i];
      assert d in OwnedBy(t'.owned, i);
      if i != id { assert d in OwnedBy(t.owned, i); }
    }
    if HeldByOther(t, kind, id, l, d) {
      var i :| i != id && i in t.owned && kind(i) == l && d in t.owned[i];
      assert d in OwnedBy(t.owned, i) && d in OwnedBy(t'.owned, i);
      assert i in t'.owned && d in t'.owned[i];
    }
    if kind(id) == l && d in rows {
      assert id in t'.owned && d in t'.owned[id];
    }
  }

  /** Held for a list by a source other than `id`. */
  ghost predicate HeldByOther(t: Relations, kind: Kinds, id: int, l: ListType, d: Text) {
    exists i :: i != id && i in t.owned && kind(i) == l && d in t.owned[i]
  }

  function Opposite(l: ListType): ListType {
    if l.Blocklist? then Allowlist else Blocklist
  }

  /** Changing the rows of source `id`, and pruning: the common core of a refresh and a source delete. */
  ghost predicate Swaps(t: Relations, t': Relations, kind: Kinds, id: int, rows: Rows) {
    var l := kind(id);
    && (forall i :: i != id ==> OwnedBy(t'.owned, i) == OwnedBy(t.owned, i))
    && OwnedBy(t'.owned, id) == rows
    && t'.manual == t.manual
    && t'.lists.Get(Opposite(l)) == t.lists.Get(Opposite(l))
    && t'.lists.Get(l) == t.lists.Get(l) + rows - Pruned(t, l, OwnedBy(t.owned, id), t'.owned)
  }

  lemma ReplaceSwaps(t: Relations, kind: Kinds, id: int, rows: Rows)
    ensures Swaps(t, Replace(t, id, kind(id), rows), kind, id, rows)
  {
  }

  lemma DeleteSwaps(t: Relations, kind: Kinds, id: int)
    requires WellTyped(t, kind) && id in t.sources
    ensures Swaps(t, DeleteSource(t, id), kind, id, {})
  {
  }

  /** A pruned row: given up by `id`, not manual, and held by no other source of either type. */
  lemma PrunedIff(t: Relations, t': Relations, kind: Kinds, id: int, rows: Rows, d: Text)
    requires Swaps(t, t', kind, id, rows)
    ensures d in Pruned(t, kind(id), OwnedBy(t.owned, id), t'.owned) <==>
            && d in OwnedBy(t.owned, id) && d !in rows && d !in t.manual.Get(kind(id))
            && !HeldByOther(t, kind, id, Blocklist, d) && !HeldByOther(t, kind, id, Allowlist, d)
  {
    HeldAfter(t, t', kind, id, rows, Blocklist, d);
    HeldAfter(t, t', kind, id, rows, Allowlist, d);
    assert OwnedBySome(t'.owned, d) <==> HeldFor(t', kind, Blocklist, d) || HeldFor(t', kind, Allowlist, d);
  }

  /** Nothing held is ever pruned. */
  lemma SwapNoLoss(t: Relations, t': Relations, kind: Kinds, id: int, rows: Rows)
    requires Swaps(t, t', kind, id, rows) && NoLoss(t, kind)
    ensures NoLoss(t', kind)
  {
    forall l, d | d in t'.manual.Get(l) || HeldFor(t', kind, l, d) ensures d in t'.lists.Get(l) {
      HeldAfter(t, t', kind, id, rows, l, d);
      if l == kind(id) {
        PrunedIff(t, t', kind, id, rows, d);
      } else {
        assert l == Opposite(kind(id));
      }
      if HeldByOther(t, kind, id, l, d) { assert HeldFor(t, kind, l, d); }
    }
  }

  /** Rows the prune wrongly keeps: given up, held by nothing of this type, but by the other list's sources. */
  ghost predicate KeptForOtherList(t: Relations, kind: Kinds, id: int, rows: Rows, d: Text) {
    var l := kind(id);
    && d in OwnedBy(t.owned, id) && d !in rows && d !in t.manual.Get(l)
    && !HeldByOther(t, kind, id, l, d) && HeldByOther(t, kind, id, Opposite(l), d)
  }

  /**
   From an exact state, changing one source's rows leaves the lists exact if and only if no row it gives
   up is kept because the other list's sources hold it. The prune asks for owners of any type.
   */
  lemma SwapExactIff(t: Relations, t': Relations, kind: Kinds, id: int, rows: Rows)
    requires Swaps(t, t', kind, id, rows) && Exact(t, kind)
    ensures Exact(t', kind) <==> forall d :: !KeptForOtherList(t, kind, id, rows, d)
  {
    SwapNoLoss(t, t', kind, id, rows);
    var l := kind(id);
    forall d ensures KeptForOtherList(t, kind, id, rows, d) <==>
                     d in t'.lists.Get(l) && d !in t'.manual.Get(l) && !HeldFor(t', kind, l, d) {
      HeldAfter(t, t', kind, id, rows, l, d);
      PrunedIff(t, t', kind, id, rows, d);
      HeldBefore(t, kind, id, l, d);
    }
    forall d | d in t'.lists.Get(Opposite(l))
      ensures d in t'.manual.Get(Opposite(l)) || HeldFor(t', kind, Opposite(l), d) {
      HeldAfter(t, t', kind, id, rows, Opposite(l), d);
      HeldBefore(t, kind, id, Opposite(l), d);
    }
    forall m, d | d in t'.lists.Get(m) && forall x :: !KeptForOtherList(t, kind, id, rows, x)
      ensures d in t'.manual.Get(m) || HeldFor(t', kind, m, d)
    {
      assert m == l || m == Opposite(l);
    }
  }

  lemma HeldBefore(t: Relations, kind: Kinds, id: int, l: ListType, d: Text)
    ensures HeldFor(t, kind, l, d) <==> (kind(id) == l && d in OwnedBy(t.owned, id)) || HeldByOther(t, kind, id, l, d)
  {
  }

  /** Without shared rows nothing is wrongly kept, so no extra row appears, manual deletes or not. */
  lemma SwapNoExtra(t: Relations, t': Relations, kind: Kinds, id: int, rows: Rows)
    requires Swaps(t, t', kind, id, rows) && NoExtra(t, kind) && Unshared(t, kind)
    ensures NoExtra(t', kind)
  {
    var l := kind(id);
    forall m, d | d in t'.lists.Get(m) ensures d in t'.manual.Get(m) || HeldFor(t', kind, m, d) {
      HeldAfter(t, t', kind, id, rows, m, d);
      HeldBefore(t, kind, id, l, d);
      HeldBefore(t, kind, id, Opposite(l), d);
      if m == l {
        PrunedIff(t, t', kind, id, rows, d);
      } else {
        assert m == Opposite(l);
      }
    }
  }

  lemma StepNoLoss(t: Relations, kind: Kinds, e: Edit)
    requires WellTyped(t, kind) && NoLoss(t, kind) && !e.DeleteListed?
    ensures NoLoss(Step(t, kind, e), kind)
  {
    var t' := Step(t, kind, e);
    match e
    case RefreshFrom(id, rows) =>
      ReplaceSwaps(t, kind, id, rows);
      if Step(t, kind, e) != t { SwapNoLoss(t, Step(t, kind, e), kind, id, rows); }
    case Drop(id) =>
      if id in t.sources {
        DeleteSwaps(t, kind, id);
        SwapNoLoss(t, DeleteSource(t, id), kind, id, {});
      }
    case DeleteListed(_, _) =>
    case _ =>
      SameHolders(t, t', kind);
      forall l, d | d in t'.manual.Get(l) || HeldFor(t', kind, l, d) ensures d in t'.lists.Get(l) {
        if d in t.manual.Get(l) || HeldFor(t, kind, l, d) { assert d in t.lists.Get(l); }
      }
  }

  lemma SameHolders(t: Relations, t': Relations, kind: Kinds)
    requires t'.owned == t.owned
    ensures forall l, d :: HeldFor(t', kind, l, d) <==> HeldFor(t, kind, l, d)
  {
  }

  lemma StepNoExtra(t: Relations, kind: Kinds, e: Edit)
    requires WellTyped(t, kind) && NoExtra(t, kind) && Unshared(t, kind)
    ensures NoExtra(Step(t, kind, e), kind)
  {
    match e
    case RefreshFrom(id, rows) =>
      ReplaceSwaps(t, kind, id, rows);
      if Step(t, kind, e) != t { SwapNoExtra(t, Step(t, kind, e), kind, id, rows); }
    case Drop(id) =>
      if id in t.sources {
        DeleteSwaps(t, kind, id);
        SwapNoExtra(t, DeleteSource(t, id), kind, id, {});
      }
    case _ => SameHolders(t, Step(t, kind, e), kind);
  }

  // ----- whole runs -----

  lemma {:induction false} RunWellTyped(kind: Kinds, edits: seq<Edit>, i: nat)
    requires i <= |edits|
    ensures WellTyped(After(kind, edits, i), kind)
  {
    if i == 0 {
    } else {
      RunWellTyped(kind, edits, i - 1);
      StepWellTyped(After(kind, edits, i - 1), kind, edits[i - 1]);
    }
  }

  /** Over every run of adds, imports, refreshes and source deletes, no held row is ever lost. */
  lemma {:induction false} RunNoLoss(kind: Kinds, edits: seq<Edit>, i: nat)
    requires i <= |edits| && forall k :: 0 <= k < i ==> !edits[k].DeleteListed?
    ensures NoLoss(After(kind, edits, i), kind)
  {
    if i == 0 {
    } else {
      RunNoLoss(kind, edits, i - 1);
      RunWellTyped(kind, edits, i - 1);
      StepNoLoss(After(kind, edits, i - 1), kind, edits[i - 1]);
    }
  }

  /** While no row is shared, lists never hold a row nobody owns, whatever is deleted by hand. */
  lemma {:induction false} RunNoExtra(kind: Kinds, edits: seq<Edit>, i: nat)
    requires i <= |edits| && forall k :: 0 <= k < i ==> Unshared(After(kind, edits, k), kind)
    ensures NoExtra(After(kind, edits, i), kind)
  {
    if i == 0 {
    } else {
      RunNoExtra(kind, edits, i - 1);
      RunWellTyped(kind, edits, i - 1);
      StepNoExtra(After(kind, edits, i - 1), kind, edits[i - 1]);
    }
  }

  /** While no row is shared and none is deleted by hand, each list is exactly its manual and owned rows. */
  lemma RunExact(kind: Kinds, edits: seq<Edit>)
    requires forall k :: 0 <= k < |edits| ==> !edits[k].DeleteListed? && Unshared(After(kind, edits, k), kind)
    ensures Exact(After(kind, edits, |edits|), kind)
  {
    RunNoLoss(kind, edits, |edits|);
    RunNoExtra(kind, edits, |edits|);
  }

  lemma SwapManualListed(t: Relations, t': Relations, kind: Kinds, id: int, rows: Rows)
    requires Swaps(t, t', kind, id, rows) && ManualListed(t)
    ensures ManualListed(t')
  {
  }

  lemma StepManualListed(t: Relations, kind: Kinds, e: Edit)
    requires WellTyped(t, kind) && ManualListed(t)
    ensures ManualListed(Step(t, kind, e))
  {
    var t' := Step(t, kind, e);
    match e
    case RefreshFrom(id, rows) =>
      ReplaceSwaps(t, kind, id, rows);
      if t' != t { SwapManualListed(t, t', kind, id, rows); }
    case Drop(id) =>
      if id in t.sources {
        DeleteSwaps(t, kind, id);
        SwapManualListed(t, t', kind, id, {});
      }
    case _ =>
      forall l, d | d in t'.manual.Get(l) ensures d in t'.lists.Get(l) {
        if d in t.manual.Get(l) { assert d in t.lists.Get(l); }
      }
  }

  /** Manual rows stay listed in every run, deletes included: a delete drops both copies. */
  lemma {:induction false} RunManualListed(kind: Kinds, edits: seq<Edit>, i: nat)
    requires i <= |edits|
    ensures ManualListed(After(kind, edits, i))
  {
    if i == 0 {
    } else {
      RunManualListed(kind, edits, i - 1);
      RunWellTyped(kind, edits, i - 1);
      StepManualListed(After(kind, edits, i - 1), kind, edits[i - 1]);
    }
  }

  // ----- refreshes commute -----

  /** A row somebody other than these two sources holds: by hand for this list, or by a third source of any type. */
  ghost predicate HeldBesides(t: Relations, l: ListType, a: int, b: int, d: Text) {
    d in t.manual.Get(l) || exists id :: id != a && id != b && id in t.owned && d in t.owned[id]
  }

  /**
   The order of refreshing `a`, which feeds list `l`, and `b`, which feeds the other list, shows on row `d`
   of `l`: `a` gives it up, nobody else holds it, and the refresh changes whether `b` does.
   */
  ghost predicate OrderMatters(t: Relations, l: ListType, a: int, b: int, rowsA: Rows, rowsB: Rows, d: Text) {
    && d in t.lists.Get(l) && d in OwnedBy(t.owned, a) && d !in rowsA && !HeldBesides(t, l, a, b, d)
    && (d in OwnedBy(t.owned, b) <==> d !in rowsB)
  }

  ghost predicate OrderNeverMatters(t: Relations, l: ListType, a: int, b: int, rowsA: Rows, rowsB: Rows) {
    forall d :: !OrderMatters(t, l, a, b, rowsA, rowsB, d)
  }

  /** Who owns a row once both sources' rows are replaced, or only one's. */
  lemma OwnedByPair(t: Relations, l: ListType, a: int, b: int, rowsA: Rows, rowsB: Rows, d: Text)
    requires a != b && d !in t.manual.Get(l)
    ensures OwnedBySome(t.owned[a := rowsA], d) <==>
            d in rowsA || d in OwnedBy(t.owned, b) || HeldBesides(t, l, a, b, d)
    ensures OwnedBySome(t.owned[a := rowsA][b := rowsB], d) <==>
            d in rowsA || d in rowsB || HeldBesides(t, l, a, b, d)
  {
    OwnedAfter(t.owned, a, rowsA, d);
    OwnedAfter(t.owned[a := rowsA], b, rowsB, d);
    var third := exists id :: id != a && id != b && id in t.owned && d in t.owned[id];
    if d in OwnedBy(t.owned, b) {
      assert b in t.owned && d in t.owned[b];
    }
    if i :| i != a && i in t.owned && d in t.owned[i] {
      assert i == b ==> d in OwnedBy(t.owned, b);
    }
    if d in rowsA {
      assert a in t.owned[a := rowsA] && d in t.owned[a := rowsA][a];
    }
    if i :| i != a && i != b && i in t.owned && d in t.owned[i] {
      assert i in t.owned[a := rowsA] && d in t.owned[a := rowsA][i];
    }
  }

  /** A row of list `l` after replacing the rows of `a` and then of `b`, whatever list `b` feeds. */
  lemma ListedAfterBoth(t: Relations, l: ListType, m: ListType, a: int, b: int, rowsA: Rows, rowsB: Rows, d: Text)
    requires a != b
    ensures var listed := Replace(Replace(t, a, l, rowsA), b, m, rowsB).lists.Get(l);
            var free := !HeldBesides(t, l, a, b, d);
            var lostA := d in OwnedBy(t.owned, a) && d !in rowsA && d !in OwnedBy(t.owned, b) && free;
            var lostB := d in OwnedBy(t.owned, b) && d !in rowsB && d !in rowsA && free;
            && (m == l ==> (d in listed <==> d in rowsA || d in rowsB || (d in t.lists.Get(l) && !lostA && !lostB)))
            && (m != l ==> (d in listed <==> d in rowsA || (d in t.lists.Get(l) && !lostA)))
  {
    var ta := Replace(t, a, l, rowsA);
    assert OwnedBy(ta.owned, b) == OwnedBy(t.owned, b);
    if d !in t.manual.Get(l) {
      OwnedByPair(t, l, a, b, rowsA, rowsB, d);
    }
    assert m == l || l == Opposite(m);
  }

  /** The other order: list `l` as left by replacing the rows of `b` first. */
  lemma ListedAfterBothReversed(
    t: Relations, l: ListType, m: ListType, a: int, b: int, rowsA: Rows, rowsB: Rows, d: Text)
    requires a != b && m != l
    ensures var listed := Replace(Replace(t, b, m, rowsB), a, l, rowsA).lists.Get(l);
            var lostA := d in OwnedBy(t.owned, a) && d !in rowsA && d !in rowsB && !HeldBesides(t, l, a, b, d);
            d in listed <==> d in rowsA || (d in t.lists.Get(l) && !lostA)
  {
    var tb := Replace(t, b, m, rowsB);
    assert OwnedBy(tb.owned, a) == OwnedBy(t.owned, a) && tb.lists.Get(l) == t.lists.Get(l);
    if d !in t.manual.Get(l) {
      OwnedByPair(t, l, b, a, rowsB, rowsA, d);
    }
  }

  /** Between lists, both orders agree on `l` exactly if the order matters to none of its rows. */
  lemma ListAgreesIff(t: Relations, l: ListType, m: ListType, a: int, b: int, rowsA: Rows, rowsB: Rows)
    requires a != b && l != m
    ensures Replace(Replace(t, a, l, rowsA), b, m, rowsB).lists.Get(l) ==
              Replace(Replace(t, b, m, rowsB), a, l, rowsA).lists.Get(l)
            <==>
            OrderNeverMatters(t, l, a, b, rowsA, rowsB)
  {
    var ab := Replace(Replace(t, a, l, rowsA), b, m, rowsB).lists.Get(l);
    var ba := Replace(Replace(t, b, m, rowsB), a, l, rowsA).lists.Get(l);
    forall d ensures (d in ab <==> d in ba) <==> !OrderMatters(t, l, a, b, rowsA, rowsB, d) {
      ListedAfterBoth(t, l, m, a, b, rowsA, rowsB, d);
      ListedAfterBothReversed(t, l, m, a, b, rowsA, rowsB, d);
    }
    if OrderNeverMatters(t, l, a, b, rowsA, rowsB) {
      assert forall d :: d in ab <==> d in ba;
    }
  }

  lemma SameListAgrees(t: Relations, l: ListType, a: int, b: int, rowsA: Rows, rowsB: Rows)
    requires a != b
    ensures Replace(Replace(t, a, l, rowsA), b, l, rowsB).lists == Replace(Replace(t, b, l, rowsB), a, l, rowsA).lists
  {
    var ab, ba := Replace(Replace(t, a, l, rowsA), b, l, rowsB), Replace(Replace(t, b, l, rowsB), a, l, rowsA);
    forall d ensures d in ab.lists.Get(l) <==> d in ba.lists.Get(l) {
      ListedAfterBoth(t, l, l, a, b, rowsA, rowsB, d);
      ListedAfterBoth(t, l, l, b, a, rowsB, rowsA, d);
      assert HeldBesides(t, l, a, b, d) <==> HeldBesides(t, l, b, a, d);
    }
    assert ab.lists.Get(l) == ba.lists.Get(l);
  }

  /** Which of two replacements comes first shows in the lists alone, if anywhere. */
  lemma ReplacesCommuteIff(t: Relations, l: ListType, m: ListType, a: int, b: int, rowsA: Rows, rowsB: Rows)
    requires a != b
    ensures Replace(Replace(t, a, l, rowsA), b, m, rowsB) == Replace(Replace(t, b, m, rowsB), a, l, rowsA)
            <==>
            l == m || (OrderNeverMatters(t, l, a, b, rowsA, rowsB) && OrderNeverMatters(t, m, b, a, rowsB, rowsA))
  {
    var ab, ba := Replace(Replace(t, a, l, rowsA), b, m, rowsB), Replace(Replace(t, b, m, rowsB), a, l, rowsA);
    assert t.owned[a := rowsA][b := rowsB] == t.owned[b := rowsB][a := rowsA];
    assert ab.owned == ba.owned && ab.manual == ba.manual && ab.sources == ba.sources;
    if l == m {
      SameListAgrees(t, l, a, b, rowsA, rowsB);
    } else {
      ListAgreesIff(t, l, m, a, b, rowsA, rowsB);
      ListAgreesIff(t, m, l, b, a, rowsB, rowsA);
    }
  }

  /** A refresh of `id` with these rows is carried out. */
  predicate Goes(t: Relations, id: int, rows: Rows) {
    Accepted(|OwnedBy(t.owned, id)|, |rows|)
  }

  /**
   Refreshing two different sources gives the same tables in either order, from any state whatever, if and
   only if they feed the same list, or one refresh is refused, or the order matters to no row of either list.
   */
  lemma RefreshesCommuteIff(t: Relations, l: ListType, m: ListType, a: int, b: int, rowsA: Rows, rowsB: Rows)
    requires a != b
    ensures Refresh(Refresh(t, a, l, rowsA), b, m, rowsB) == Refresh(Refresh(t, b, m, rowsB), a, l, rowsA)
            <==>
            || l == m || !Goes(t, a, rowsA) || !Goes(t, b, rowsB)
            || (OrderNeverMatters(t, l, a, b, rowsA, rowsB) && OrderNeverMatters(t, m, b, a, rowsB, rowsA))
  {
    var ta, tb := Replace(t, a, l, rowsA), Replace(t, b, m, rowsB);
    assert OwnedBy(ta.owned, b) == OwnedBy(t.owned, b) && OwnedBy(tb.owned, a) == OwnedBy(t.owned, a);
    ReplacesCommuteIff(t, l, m, a, b, rowsA, rowsB);
  }

  /** No row is given up by a source of one list while a source of the other list holds it or takes it up. */
  lemma UnsharedNeverMatters(t: Relations, kind: Kinds, a: int, b: int, rowsA: Rows, rowsB: Rows)
    requires kind(a) != kind(b) && Unshared(t, kind) && Unshared(Replace(t, b, kind(b), rowsB), kind)
    ensures OrderNeverMatters(t, kind(a), a, b, rowsA, rowsB)
  {
    var tb := Replace(t, b, kind(b), rowsB);
    forall d ensures !OrderMatters(t, kind(a), a, b, rowsA, rowsB, d) {
      HeldBefore(t, kind, a, kind(a), d);
      HeldBefore(t, kind, b, kind(b), d);
      HeldBefore(tb, kind, a, kind(a), d);
      HeldBefore(tb, kind, b, kind(b), d);
    }
  }

  /** So refreshes commute from every state in which no row is shared, hand deletes or not. */
  lemma RefreshesCommute(t: Relations, kind: Kinds, a: int, b: int, rowsA: Rows, rowsB: Rows)
    requires a != b && Unshared(t, kind)
    requires Unshared(Refresh(t, a, kind(a), rowsA), kind) && Unshared(Refresh(t, b, kind(b), rowsB), kind)
    ensures Refresh(Refresh(t, a, kind(a), rowsA), b, kind(b), rowsB)
         == Refresh(Refresh(t, b, kind(b), rowsB), a, kind(a), rowsA)
  {
    RefreshesCommuteIff(t, kind(a), kind(b), a, b, rowsA, rowsB);
    if kind(a) != kind(b) && Goes(t, a, rowsA) && Goes(t, b, rowsB) {
      UnsharedNeverMatters(t, kind, a, b, rowsA, rowsB);
      UnsharedNeverMatters(t, kind, b, a, rowsB, rowsA);
    }
  }

  /**
   A row owned by sources of both types breaks commutation: when both give it up, whichever list is
   refreshed first keeps it.
   */
  lemma SharedRowBreaksCommutation(kept: Rows, d: Text)
    requires |kept| >= MIN_SOURCE_DOMAINS && d !in kept
    ensures var kind: Kinds := id => if id == 1 then Blocklist else Allowlist;
            var all := kept + {d};
            var owned, sources := map[1 := all, 2 := all], map[1 := Blocklist, 2 := Allowlist];
            var t := Relations(PerList(all, all), PerList({}, {}), owned, sources);
            var (first, second) := (Refresh(Refresh(t, 1, Blocklist, kept), 2, Allowlist, kept),
                                    Refresh(Refresh(t, 2, Allowlist, kept), 1, Blocklist, kept));
            && Exact(t, kind) && first != second
            && d in first.lists.block && d !in second.lists.block
  {
    var kind: Kinds := id => if id == 1 then Blocklist else Allowlist;
    var all := kept + {d};
    var owned, sources := map[1 := all, 2 := all], map[1 := Blocklist, 2 := Allowlist];
    var t := Relations(PerList(all, all), PerList({}, {}), owned, sources);
    assert |all| == |kept| + 1;
    forall l, x | x in t.lists.Get(l) ensures HeldFor(t, kind, l, x) {
      var id := if l.Blocklist? then 1 else 2;
      assert id in t.owned && kind(id) == l && x in t.owned[id];
    }
    assert OrderMatters(t, Blocklist, 1, 2, kept, kept, d);
    RefreshesCommuteIff(t, Blocklist, Allowlist, 1, 2, kept, kept);
    ListedAfterBoth(t, Blocklist, Allowlist, 1, 2, kept, kept, d);
    ListedAfterBothReversed(t, Blocklist, Allowlist, 1, 2, kept, kept, d);
  }

  /** Rows owned and listed for a source id that is gone. */
  ghost predicate Orphaned(t: Relations, kind: Kinds, id: int, rows: Rows) {
    id !in t.sources && OwnedBy(t.owned, id) == rows && rows <= t.lists.Get(kind(id))
  }

  /** An edit that can end an orphaning: of the id itself, or a hand delete of one of its rows. */
  predicate Ends(kind: Kinds, id: int, rows: Rows, e: Edit) {
    match e
    case Create(i) => i == id
    case RefreshFrom(i, _) => i == id
    case DeleteListed(l, row) => l == kind(id) && row in rows
    case _ => false
  }

  lemma OrphanStep(t: Relations, kind: Kinds, id: int, rows: Rows, e: Edit)
    requires WellTyped(t, kind) && Orphaned(t, kind, id, rows) && !Ends(kind, id, rows, e)
    ensures Orphaned(Step(t, kind, e), kind, id, rows)
  {
    var t' := Step(t, kind, e);
    match e
    case RefreshFrom(i, others) =>
      ReplaceSwaps(t, kind, i, others);
      if t' != t { OrphanSwap(t, t', kind, id, rows, i, others); }
    case Drop(i) =>
      if i in t.sources {
        DeleteSwaps(t, kind, i);
        OrphanSwap(t, t', kind, id, rows, i, {});
      }
    case _ =>
  }

  lemma OrphanSwap(t: Relations, t': Relations, kind: Kinds, id: int, rows: Rows, other: int, others: Rows)
    requires Orphaned(t, kind, id, rows) && other != id && Swaps(t, t', kind, other, others)
    ensures OwnedBy(t'.owned, id) == rows && rows <= t'.lists.Get(kind(id))
  {
    forall d | d in rows ensures d in t'.lists.Get(kind(id)) {
      assert id in t'.owned && d in t'.owned[id];
      assert OwnedBySome(t'.owned, d);
      assert kind(id) == kind(other) || kind(id) == Opposite(kind(other));
    }
  }

  lemma {:induction false} OrphanRun(t: Relations, kind: Kinds, id: int, rows: Rows, edits: seq<Edit>, i: nat)
    requires WellTyped(t, kind) && Orphaned(t, kind, id, rows)
    requires i <= |edits| && forall k :: 0 <= k < |edits| ==> !Ends(kind, id, rows, edits[k])
    ensures WellTyped(From(t, kind, edits, i), kind) && Orphaned(From(t, kind, edits, i), kind, id, rows)
  {
    if i == 0 {
    } else {
      OrphanRun(t, kind, id, rows, edits, i - 1);
      StepWellTyped(From(t, kind, edits, i - 1), kind, edits[i - 1]);
      OrphanStep(From(t, kind, edits, i - 1), kind, id, rows, edits[i - 1]);
    }
  }

  /**
   A refresh carried out after its source is gone, however long after, brings the rows back, owned by an id
   no source has. They then stay listed through every run of edits, source deletes included, that neither
   refreshes or creates that id again nor deletes one of the rows by hand.
   */
  lemma LateRefreshOrphans(t: Relations, kind: Kinds, id: int, rows: Rows, edits: seq<Edit>)
    requires WellTyped(t, kind) && id !in t.sources && Goes(t, id, rows)
    requires forall k :: 0 <= k < |edits| ==> !Ends(kind, id, rows, edits[k])
    ensures var late := Refresh(t, id, kind(id), rows);
            && Orphaned(late, kind, id, rows) && DeleteSource(late, id) == late
            && Orphaned(From(late, kind, edits, |edits|), kind, id, rows)
  {
    var late := Replace(t, id, kind(id), rows);
    forall d | d in rows ensures d in late.lists.Get(kind(id)) {
      assert id in late.owned && d in late.owned[id];
    }
    OrphanRun(late, kind, id, rows, edits, |edits|);
  }

  // ----- exactly when ids that are gone own rows -----

  /** Rows owned by a source id that is gone. */
  ghost predicate OwnsWhileGone(t: Relations, id: int) {
    id !in t.sources && OwnedBy(t.owned, id) != {}
  }

  /** A refresh of a source that is gone, carried out: its fetch outlived it. */
  predicate IsLate(t: Relations, id: int, e: Edit) {
    e.RefreshFrom? && e.id == id && id !in t.sources && Goes(t, id, e.rows)
  }

  /** The id is created before it is refreshed, if ever: ids are never used again. */
  ghost predicate CreatedFirst(edits: seq<Edit>, id: int) {
    forall j, k :: 0 <= j < k < |edits| && edits[k] == Create(id) ==> !(edits[j].RefreshFrom? && edits[j].id == id)
  }

  /** Only a late refresh gives rows to an id that is gone. */
  lemma NotLateStep(t: Relations, kind: Kinds, id: int, e: Edit)
    requires !OwnsWhileGone(t, id) && !IsLate(t, id, e)
    ensures !OwnsWhileGone(Step(t, kind, e), id)
  {
  }

  lemma LateStep(t: Relations, kind: Kinds, id: int, e: Edit)
    requires IsLate(t, id, e)
    ensures OwnsWhileGone(Step(t, kind, e), id)
  {
    assert |e.rows| > 0;
  }

  /** And only creating the id again ends it. */
  lemma GoneStep(t: Relations, kind: Kinds, id: int, e: Edit)
    requires OwnsWhileGone(t, id) && e != Create(id)
    ensures OwnsWhileGone(Step(t, kind, e), id)
  {
    if e.RefreshFrom? && e.id == id && Goes(t, id, e.rows) {
      LateStep(t, kind, id, e);
    }
  }

  /** The tables between the edits of a run. */
  predicate StepAt(kind: Kinds, edits: seq<Edit>, tables: seq<Relations>, i: nat)
    requires i < |edits| && |tables| == |edits| + 1
  {
    tables[i + 1] == Step(tables[i], kind, edits[i])
  }

  ghost predicate IsHistory(kind: Kinds, edits: seq<Edit>, tables: seq<Relations>) {
    && |tables| == |edits| + 1 && tables[0] == EMPTY_TABLES
    && forall i :: 0 <= i < |edits| ==> StepAt(kind, edits, tables, i)
  }

  ghost predicate LateBefore(edits: seq<Edit>, tables: seq<Relations>, id: int, i: nat)
    requires i <= |edits| == |tables| - 1
  {
    exists k :: 0 <= k < i && IsLate(tables[k], id, edits[k])
  }

  lemma GoneNext(t: Relations, kind: Kinds, id: int, e: Edit, before: bool)
    requires OwnsWhileGone(t, id) <==> before
    requires before ==> e != Create(id)
    ensures OwnsWhileGone(Step(t, kind, e), id) <==> before || IsLate(t, id, e)
  {
    if IsLate(t, id, e) {
      LateStep(t, kind, id, e);
    } else if before {
      GoneStep(t, kind, id, e);
    } else {
      NotLateStep(t, kind, id, e);
    }
  }

  lemma {:induction false} LateBeforeIff(kind: Kinds, edits: seq<Edit>, tables: seq<Relations>, id: int, i: nat)
    requires IsHistory(kind, edits, tables) && CreatedFirst(edits, id) && i <= |edits|
    ensures OwnsWhileGone(tables[i], id) <==> LateBefore(edits, tables, id, i)
  {
    if i == 0 {
    } else {
      var before := LateBefore(edits, tables, id, i - 1);
      LateBeforeIff(kind, edits, tables, id, i - 1);
      assert StepAt(kind, edits, tables, i - 1);
      GoneNext(tables[i - 1], kind, id, edits[i - 1], before);
    }
  }

  function History(kind: Kinds, edits: seq<Edit>): (tables: seq<Relations>)
    ensures |tables| == |edits| + 1 && forall i :: 0 <= i <= |edits| ==> tables[i] == After(kind, edits, i)
  {
    seq(|edits| + 1, i requires 0 <= i <= |edits| => After(kind, edits, i))
  }

  lemma HistoryOfRun(kind: Kinds, edits: seq<Edit>)
    ensures IsHistory(kind, edits, History(kind, edits))
  {
    var tables := History(kind, edits);
    forall i | 0 <= i < |edits| ensures StepAt(kind, edits, tables, i) {
      assert tables[i + 1] == After(kind, edits, i + 1);
    }
  }

  /**
   After any run, an id that is gone owns rows if and only if some refresh of it was carried out after it was
   gone, which a refresh could check before it replaces the rows.
   */
  lemma OrphansIffLate(kind: Kinds, edits: seq<Edit>, id: int)
    requires CreatedFirst(edits, id)
    ensures OwnsWhileGone(After(kind, edits, |edits|), id) <==>
            exists k :: 0 <= k < |edits| && IsLate(After(kind, edits, k), id, edits[k])
  {
    var tables := History(kind, edits);
    HistoryOfRun(kind, edits);
    LateBeforeIff(kind, edits, tables, id, |edits|);
    assert forall k :: 0 <= k < |edits| ==> tables[k] == After(kind, edits, k);
  }
}
