/** The list tables of the database, their transactions, and what they do to the four relations. */
module Tables {
  import opened Bytes
  import opened Lists
  import opened Lines

  datatype ListType = Blocklist | Allowlist

  /** One value for each of the two lists. */
  datatype PerList<T> = PerList(block: T, allow: T) {
    function Get(l: ListType): T {
      if l.Blocklist? then block else allow
    }

    function Set(l: ListType, v: T): PerList<T> {
      if l.Blocklist? then this.(block := v) else this.(allow := v)
    }
  }

  type Rows = set<Text>

  /** list table rows, manual_domains, source_domains by source, and the ids in sources. */
  datatype Relations = Relations(
    lists: PerList<Rows>, manual: PerList<Rows>, owned: map<int, Rows>, sources: map<int, ListType>)

  const MIN_SOURCE_DOMAINS := 10
  const MIN_SOURCE_RETAINED_PERCENT := 10

  function OwnedBy(owned: map<int, Rows>, id: int): Rows {
    if id in owned then owned[id] else {}
  }

  predicate OwnedBySome(owned: map<int, Rows>, d: Text) {
    exists id :: id in owned && d in owned[id]
  }

  // ----- parsing -----

  function Parsings(lines: seq<Text>): (ps: seq<Option<Text>>)
    ensures |ps| == |lines| && forall i :: 0 <= i < |lines| ==> ps[i] == ParseDomainLine(lines[i])
  {
    seq(|lines|, i requires 0 <= i < |lines| => ParseDomainLine(lines[i]))
  }

  /** The values among the first `i` options, in order. */
  function Somes(ps: seq<Option<Text>>, i: nat): seq<Text>
    requires i <= |ps|
  {
    if i == 0 then [] else Somes(ps, i - 1) + if ps[i - 1].Some? then [ps[i - 1].value] else []
  }

  /** The rows an import or a source lists, in file order. */
  function ParsedRows(content: Text): seq<Text> {
    var ps := Parsings(SplitLines(content));
    Somes(ps, |ps|)
  }

  function Dedup(xs: seq<Text>): seq<Text> {
    if |xs| < 2 then xs
    else if xs[0] == xs[1] then Dedup(xs[1..])
    else [xs[0]] + Dedup(xs[1..])
  }

  /** The usable rows of a source, ascending and without repeats, or a refusal when there are too few. */
  function ParseSourceDomains(content: Text): Option<seq<Text>> {
    var domains := Dedup(Sort(ParsedRows(content)));
    if |domains| < MIN_SOURCE_DOMAINS then None else Some(domains)
  }

  function ToSet(xs: seq<Text>): Rows {
    set x | x in xs
  }

  lemma {:induction false} DedupSorted(xs: seq<Text>)
    requires Sorted(xs)
    ensures ToSet(Dedup(xs)) == ToSet(xs) && |Dedup(xs)| == |ToSet(xs)|
    ensures xs != [] ==> Dedup(xs) != [] && Dedup(xs)[0] == xs[0]
  {
    if |xs| >= 2 {
      assert xs == [xs[0]] + xs[1..];
      DedupSorted(xs[1..]);
      if xs[0] == xs[1] {
        assert xs[1..][0] == xs[0];
        assert ToSet(xs) == ToSet(xs[1..]);
      } else {
        forall k | 0 <= k < |xs[1..]| ensures xs[1..][k] != xs[0] {
          LexTotal(xs[0], xs[1]);
          LexTotal(xs[1], xs[k + 1]);
        }
        assert xs[0] !in ToSet(xs[1..]);
        assert ToSet(xs) == {xs[0]} + ToSet(xs[1..]);
        var r := [xs[0]] + Dedup(xs[1..]);
        assert ToSet(r) == {xs[0]} + ToSet(Dedup(xs[1..]));
      }
    } else if |xs| == 1 {
      assert ToSet(xs) == {xs[0]};
    }
  }

  /** A source's accepted rows are exactly the distinct parsable rows of its text. */
  lemma SourceRows(content: Text)
    ensures var rows := ToSet(ParsedRows(content));
            && (ParseSourceDomains(content).Some? <==> |rows| >= MIN_SOURCE_DOMAINS)
            && (ParseSourceDomains(content).Some? ==>
                  && ToSet(ParseSourceDomains(content).value) == rows
                  && |ParseSourceDomains(content).value| == |rows|)
  {
    var xs := ParsedRows(content);
    SortProperties(xs);
    DedupSorted(Sort(xs));
    assert ToSet(Sort(xs)) == ToSet(xs) by {
      assert forall x :: x in Sort(xs) <==> x in multiset(Sort(xs));
      assert forall x :: x in xs <==> x in multiset(xs);
    }
  }

  lemma {:induction false} SomesMembership(ps: seq<Option<Text>>, i: nat)
    requires i <= |ps|
    ensures forall row :: row in Somes(ps, i) <==> Some(row) in ps[..i]
  {
    if i == 0 {
    } else {
      SomesMembership(ps, i - 1);
      assert ps[..i] == ps[..i - 1] + [ps[i - 1]];
    }
  }

  predicate HasValue(ps: seq<Option<Text>>, row: Text) {
    exists k :: 0 <= k < |ps| && ps[k] == Some(row)
  }

  lemma InSomes(ps: seq<Option<Text>>, row: Text)
    ensures row in Somes(ps, |ps|) <==> HasValue(ps, row)
  {
    SomesMembership(ps, |ps|);
    assert ps[..|ps|] == ps;
  }

  predicate Gives(line: Text, row: Text) {
    ParseDomainLine(line) == Some(row)
  }

  predicate SomeLineGives(lines: seq<Text>, row: Text) {
    exists k :: 0 <= k < |lines| && Gives(lines[k], row)
  }

  lemma ParsingGives(lines: seq<Text>, ps: seq<Option<Text>>, row: Text)
    requires |ps| == |lines| && forall k :: 0 <= k < |ps| ==> ps[k] == ParseDomainLine(lines[k])
    ensures HasValue(ps, row) <==> SomeLineGives(lines, row)
  {
    forall k | 0 <= k < |lines| ensures ps[k] == Some(row) <==> Gives(lines[k], row) {
    }
  }

  /** The rows of a text are those its lines give. */
  lemma RowsByLine(content: Text, row: Text)
    ensures row in ParsedRows(content) <==> SomeLineGives(SplitLines(content), row)
  {
    var lines := SplitLines(content);
    InSomes(Parsings(lines), row);
    ParsingGives(lines, Parsings(lines), row);
  }

  /** Every row of an import or a source is stable under normalisation and fits in a record. */
  lemma ParsedRowsAreStable(content: Text)
    ensures forall row :: row in ParsedRows(content) ==> Stable(row) && !EndsWithDot(row) && |row| <= 255
  {
    var lines := SplitLines(content);
    var ps := Parsings(lines);
    SomesMembership(ps, |ps|);
    assert ps[..|ps|] == ps;
    forall row | row in ParsedRows(content) ensures Stable(row) && !EndsWithDot(row) && |row| <= 255 {
      var k :| 0 <= k < |ps| && ps[k] == Some(row);
      ParsedRowIsStable(lines[k]);
    }
  }

  // ----- the transactions, on values -----

  function AddRow(t: Relations, l: ListType, row: Text): Relations {
    t.(lists := t.lists.Set(l, t.lists.Get(l) + {row}), manual := t.manual.Set(l, t.manual.Get(l) + {row}))
  }

  function AddRows(t: Relations, l: ListType, rows: Rows): Relations {
    t.(lists := t.lists.Set(l, t.lists.Get(l) + rows), manual := t.manual.Set(l, t.manual.Get(l) + rows))
  }

  function DeleteRow(t: Relations, l: ListType, row: Text): Relations {
    if row !in t.lists.Get(l) then t
    else t.(lists := t.lists.Set(l, t.lists.Get(l) - {row}), manual := t.manual.Set(l, t.manual.Get(l) - {row}))
  }

  /** Rows a source gave up that no source of either type and no manual entry still holds. */
  function Pruned(t: Relations, l: ListType, given: Rows, owned: map<int, Rows>): Rows {
    set d | d in given && !OwnedBySome(owned, d) && d !in t.manual.Get(l)
  }

  /** A refresh is refused when the source is too short, or lost nine tenths of what it had. */
  predicate Accepted(before: nat, now: nat) {
    now >= MIN_SOURCE_DOMAINS && !(before >= 10 && now * 100 < before * MIN_SOURCE_RETAINED_PERCENT)
  }

  /**
   The source's text is not trusted: it holds fewer than ten distinct usable rows, or the source owned ten or
   more and would keep less than a tenth of that number.
   */
  predicate Suspicious(before: nat, now: nat) {
    now < 10 || (before >= 10 && 10 * now < before)
  }

  function Replace(t: Relations, id: int, l: ListType, rows: Rows): Relations {
    var owned := t.owned[id := rows];
    t.(lists := t.lists.Set(l, t.lists.Get(l) + rows - Pruned(t, l, OwnedBy(t.owned, id), owned)), owned := owned)
  }

  function Refresh(t: Relations, id: int, l: ListType, rows: Rows): Relations {
    if Accepted(|OwnedBy(t.owned, id)|, |rows|) then Replace(t, id, l, rows) else t
  }

  /**
   What a refresh that is carried out leaves: the source owns exactly its new rows, and its list holds them
   and of the old rows those that the source did not own, that are manual or that another source owns.
   Nothing else changes.
   */
  ghost predicate Refreshed(t: Relations, t': Relations, id: int, l: ListType, rows: Rows) {
    var owned := t'.owned == t.owned[id := rows] && t'.manual == t.manual && t'.sources == t.sources;
    var others := forall m :: m != l ==> t'.lists.Get(m) == t.lists.Get(m);
    var listed := forall d :: d in t'.lists.Get(l) <==>
                    || d in rows
                    || (d in t.lists.Get(l) &&
                          (d !in OwnedBy(t.owned, id) || d in t.manual.Get(l)
                           || exists other :: other != id && other in t.owned && d in t.owned[other]));
    owned && others && listed
  }

  lemma OwnedAfter(owned: map<int, Rows>, id: int, rows: Rows, d: Text)
    ensures OwnedBySome(owned[id := rows], d) <==> d in rows || exists i :: i != id && i in owned && d in owned[i]
  {
    var after := owned[id := rows];
    if d in rows {
      assert id in after && d in after[id];
    }
    if i :| i != id && i in owned && d in owned[i] {
      assert i in after && d in after[i];
    }
  }

  lemma ReplaceIsRefreshed(t: Relations, id: int, l: ListType, rows: Rows)
    ensures Refreshed(t, Replace(t, id, l, rows), id, l, rows)
  {
    forall d {
      OwnedAfter(t.owned, id, rows, d);
    }
  }

  /** A refresh is carried out exactly if its text is not suspicious, and otherwise changes nothing. */
  lemma RefreshIffTrusted(t: Relations, id: int, l: ListType, rows: Rows)
    ensures Accepted(|OwnedBy(t.owned, id)|, |rows|) <==> !Suspicious(|OwnedBy(t.owned, id)|, |rows|)
    ensures Suspicious(|OwnedBy(t.owned, id)|, |rows|) ==> Refresh(t, id, l, rows) == t
    ensures !Suspicious(|OwnedBy(t.owned, id)|, |rows|) ==> Refreshed(t, Refresh(t, id, l, rows), id, l, rows)
  {
    ReplaceIsRefreshed(t, id, l, rows);
  }

  function AddSource(t: Relations, id: int, l: ListType): Relations {
    if id in t.sources then t else t.(sources := t.sources[id := l])
  }

  function DeleteSource(t: Relations, id: int): Relations {
    if id !in t.sources then t
    else
      var (l, owned) := (t.sources[id], t.owned - {id});
      t.(lists := t.lists.Set(l, t.lists.Get(l) - Pruned(t, l, OwnedBy(t.owned, id), owned)),
         owned := owned, sources := t.sources - {id})
  }

  /** A replica's apply: the whole table becomes the fetched rows; manual and owned rows stay. */
  function ReplaceTable(t: Relations, l: ListType, rows: Rows): Relations {
    t.(lists := t.lists.Set(l, rows))
  }

  // ----- the same transactions, row by row -----

  /** Nothing but one list and its manual marks differs. */
  ghost predicate OnlyList(t: Relations, t': Relations, l: ListType) {
    && t'.owned == t.owned && t'.sources == t.sources
    && forall m :: m != l ==> t'.lists.Get(m) == t.lists.Get(m) && t'.manual.Get(m) == t.manual.Get(m)
  }

  /** Rows were posted or imported: listed and marked manual. */
  ghost predicate Grown(t: Relations, t': Relations, l: ListType, rows: Rows) {
    var listed := forall d :: d in t'.lists.Get(l) <==> d in t.lists.Get(l) || d in rows;
    var marked := forall d :: d in t'.manual.Get(l) <==> d in t.manual.Get(l) || d in rows;
    OnlyList(t, t', l) && listed && marked
  }

  /** A listed row was deleted with its manual mark; a row that is not listed changes nothing. */
  ghost predicate Shrunk(t: Relations, t': Relations, l: ListType, row: Text) {
    if row !in t.lists.Get(l) then t' == t
    else
      var listed := forall d :: d in t'.lists.Get(l) <==> d in t.lists.Get(l) && d != row;
      var marked := forall d :: d in t'.manual.Get(l) <==> d in t.manual.Get(l) && d != row;
      OnlyList(t, t', l) && listed && marked
  }

  /**
   A source was deleted with its rows: its list keeps of them those that are manual or that another source
   owns. An id that no source has changes nothing.
   */
  ghost predicate Dropped(t: Relations, t': Relations, id: int) {
    if id !in t.sources then t' == t
    else
      var l := t.sources[id];
      var gone := t'.owned == t.owned - {id} && t'.sources == t.sources - {id} && t'.manual == t.manual;
      var others := forall m :: m != l ==> t'.lists.Get(m) == t.lists.Get(m);
      var listed := forall d :: d in t'.lists.Get(l) <==>
                      && d in t.lists.Get(l)
                      && (d !in OwnedBy(t.owned, id) || d in t.manual.Get(l)
                          || exists other :: other != id && other in t.owned && d in t.owned[other]);
      gone && others && listed
  }

  /** One list became exactly these rows; manual marks and ownership stay. */
  ghost predicate Overwritten(t: Relations, t': Relations, l: ListType, rows: Rows) {
    var listed := forall d :: d in t'.lists.Get(l) <==> d in rows;
    OnlyList(t, t', l) && listed && t'.manual == t.manual
  }

  lemma AddIsGrown(t: Relations, l: ListType, rows: Rows)
    ensures Grown(t, AddRows(t, l, rows), l, rows)
    ensures forall row :: rows == {row} ==> AddRow(t, l, row) == AddRows(t, l, rows)
  {
  }

  lemma DeleteIsShrunk(t: Relations, l: ListType, row: Text)
    ensures Shrunk(t, DeleteRow(t, l, row), l, row)
  {
  }

  lemma ApplyIsOverwritten(t: Relations, l: ListType, rows: Rows)
    ensures Overwritten(t, ReplaceTable(t, l, rows), l, rows)
  {
  }

  lemma OwnedWithout(owned: map<int, Rows>, id: int, d: Text)
    ensures OwnedBySome(owned - {id}, d) <==> exists i :: i != id && i in owned && d in owned[i]
  {
    var after := owned - {id};
    if i :| i != id && i in owned && d in owned[i] {
      assert i in after && d in after[i];
    }
  }

  lemma DeleteIsDropped(t: Relations, id: int)
    ensures Dropped(t, DeleteSource(t, id), id)
  {
    forall d {
      OwnedWithout(t.owned, id, d);
    }
  }

  // ----- what a table means at run time -----

  /** The sets a store holds when every row of a table was inserted into it. */
  function Image(rows: Rows): Sets {
    Sets(set r | r in rows && EntryOf(Normalize(r)).ExactName? :: EntryOf(Normalize(r)).name,
         set r | r in rows && EntryOf(Normalize(r)).WildSuffix? :: EntryOf(Normalize(r)).name)
  }

  lemma ImageAdd(rows: Rows, r: Text)
    ensures Image(rows + {r}) == Add(Image(rows), EntryOf(Normalize(r)))
  {
    var a, b := Image(rows + {r}), Add(Image(rows), EntryOf(Normalize(r)));
    assert a.exact == b.exact;
    assert a.wild == b.wild;
  }

  lemma ImageUnion(a: Rows, b: Rows)
    ensures Image(a + b) == Union(Image(a), Image(b))
  {
  }
}
