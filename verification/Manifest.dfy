/** The text hashed for each replicated table in the manifest, and what it determines. */
module Manifests {
  import opened Bytes
  import opened Lines
  import Sorting

  const COLON: byte := 58

  datatype Server = Server(address: Text, port: nat)

  /** A replicated table, rows in the order they were inserted. */
  datatype Table = Names(names: seq<Text>) | Servers(servers: seq<Server>)

  // ----- rows as lines -----

  /** Decimal digits, most significant first. */
  function Decimal(n: nat): (r: Text)
    ensures |r| > 0 && forall i :: 0 <= i < |r| ==> 48 <= r[i] <= 57
  {
    var digit: byte := 48 + n % 10;
    if n < 10 then [digit] else Decimal(n / 10) + [digit]
  }

  lemma {:induction false} DecimalInjective(m: nat, n: nat)
    requires Decimal(m) == Decimal(n)
    ensures m == n
  {
    var dm, dn := Decimal(m), Decimal(n);
    assert dm[|dm| - 1] == 48 + m % 10 && dn[|dn| - 1] == 48 + n % 10;
    if m < 10 || n < 10 {
    } else {
      assert Decimal(m / 10) == dm[..|dm| - 1] && Decimal(n / 10) == dn[..|dn| - 1];
      DecimalInjective(m / 10, n / 10);
    }
  }

  /** The number that decimal digits stand for, most significant first. */
  function ValueOf(t: Text): int {
    if t == [] then 0 else 10 * ValueOf(t[..|t| - 1]) + (t[|t| - 1] as int - 48)
  }

  lemma {:induction false} DecimalStandsFor(n: nat)
    ensures ValueOf(Decimal(n)) == n && (n > 0 ==> Decimal(n)[0] != 48)
  {
    var d := Decimal(n);
    if n < 10 {
      assert d[..0] == [];
    } else {
      DecimalStandsFor(n / 10);
      assert d[..|d| - 1] == Decimal(n / 10);
    }
  }

  function ServerLine(s: Server): Text {
    s.address + [COLON] + Decimal(s.port)
  }

  lemma LastColon(s: Server)
    ensures var l := ServerLine(s);
            && l[|s.address|] == COLON && l[..|s.address|] == s.address && l[|s.address| + 1..] == Decimal(s.port)
            && forall k :: |s.address| < k < |l| ==> l[k] != COLON
  {
  }

  /** The last colon is where the port starts, so the line gives both fields back. */
  lemma ServerLineInjective(a: Server, b: Server)
    requires ServerLine(a) == ServerLine(b)
    ensures a == b
  {
    LastColon(a);
    LastColon(b);
    assert |a.address| == |b.address|;
    DecimalInjective(a.port, b.port);
  }

  function ServerLines(servers: seq<Server>): (lines: seq<Text>)
    ensures |lines| == |servers| && forall i :: 0 <= i < |lines| ==> lines[i] == ServerLine(servers[i])
  {
    seq(|servers|, i requires 0 <= i < |servers| => ServerLine(servers[i]))
  }

  lemma ServerLinesInjective(a: seq<Server>, b: seq<Server>)
    requires ServerLines(a) == ServerLines(b)
    ensures a == b
  {
    forall i | 0 <= i < |a| ensures a[i] == b[i] {
      assert ServerLines(a)[i] == ServerLines(b)[i];
      ServerLineInjective(a[i], b[i]);
    }
  }

  // ----- ORDER BY address, port -----

  const BY_ADDRESS_AND_PORT: (Server, Server) -> bool :=
    (a: Server, b: Server) => LexLe(a.address, b.address) && (a.address == b.address ==> a.port <= b.port)

  lemma ServerOrder()
    ensures Sorting.IsOrder(BY_ADDRESS_AND_PORT)
  {
    forall a, b ensures BY_ADDRESS_AND_PORT(a, b) || BY_ADDRESS_AND_PORT(b, a) {
      LexTotal(a.address, b.address);
    }
    forall a, b | BY_ADDRESS_AND_PORT(a, b) && BY_ADDRESS_AND_PORT(b, a) ensures a == b {
      LexTotal(a.address, b.address);
    }
    forall a, b, c | BY_ADDRESS_AND_PORT(a, b) && BY_ADDRESS_AND_PORT(b, c) ensures BY_ADDRESS_AND_PORT(a, c) {
      LexTransitive(a.address, b.address, c.address);
      LexTotal(a.address, b.address);
    }
  }

  // ----- the manifest text of a table -----

  /** The bytes fed to the hasher: every row in order, each followed by a newline. */
  function ManifestText(t: Table): Text {
    match t
    case Names(names) => Stream(Sort(names))
    case Servers(servers) => Stream(ServerLines(Sorting.Sort(servers, BY_ADDRESS_AND_PORT)))
  }

  ghost predicate Unique(names: seq<Text>) {
    forall i, j :: 0 <= i < j < |names| ==> names[i] != names[j]
  }

  /** Names are unique and no row holds a newline. */
  ghost predicate Clean(t: Table) {
    match t
    case Names(names) => (forall n :: n in names ==> LineLike(n)) && Unique(names)
    case Servers(servers) => forall s :: s in servers ==> LineLike(s.address)
  }

  /** The same rows in any order: names are a set, servers a multiset. */
  ghost predicate Same(a: Table, b: Table) {
    match (a, b)
    case (Names(m), Names(n)) => forall x :: x in m <==> x in n
    case (Servers(m), Servers(n)) => multiset(m) == multiset(n)
    case (Names(_), Servers(_)) => false
    case (Servers(_), Names(_)) => false
  }

  lemma {:induction false} DistinctMultiplicity(xs: seq<Text>, x: Text)
    requires Unique(xs)
    ensures multiset(xs)[x] == if x in xs then 1 else 0
  {
    if xs == [] {
    } else {
      DistinctMultiplicity(xs[1..], x);
      assert xs == [xs[0]] + xs[1..];
    }
  }

  lemma NamesTextIff(m: seq<Text>, n: seq<Text>)
    requires Clean(Names(m)) && Clean(Names(n))
    ensures Stream(Sort(m)) == Stream(Sort(n)) <==> forall x :: x in m <==> x in n
  {
    SortProperties(m);
    SortProperties(n);
    forall x ensures multiset(m)[x] == (if x in m then 1 else 0) && multiset(n)[x] == (if x in n then 1 else 0) {
      DistinctMultiplicity(m, x);
      DistinctMultiplicity(n, x);
    }
    assert (forall x :: x in m <==> x in n) <==> multiset(m) == multiset(n);
    if Stream(Sort(m)) == Stream(Sort(n)) {
      forall x | x in Sort(m) ensures LineLike(x) { assert x in multiset(Sort(m)); }
      forall x | x in Sort(n) ensures LineLike(x) { assert x in multiset(Sort(n)); }
      StreamInjective(Sort(m), Sort(n));
    }
    BytewiseIsOrder();
    Sorting.SortEqualIff(m, n, BYTEWISE);
  }

  lemma ServerLinesLineLike(servers: seq<Server>)
    requires forall s :: s in multiset(servers) ==> LineLike(s.address)
    ensures forall x :: x in ServerLines(servers) ==> LineLike(x)
  {
  }

  lemma ServersTextIff(m: seq<Server>, n: seq<Server>)
    requires Clean(Servers(m)) && Clean(Servers(n))
    ensures ManifestText(Servers(m)) == ManifestText(Servers(n)) <==> multiset(m) == multiset(n)
  {
    ServerOrder();
    var sm, sn := Sorting.Sort(m, BY_ADDRESS_AND_PORT), Sorting.Sort(n, BY_ADDRESS_AND_PORT);
    Sorting.SortPermutes(m, BY_ADDRESS_AND_PORT);
    Sorting.SortPermutes(n, BY_ADDRESS_AND_PORT);
    Sorting.SortEqualIff(m, n, BY_ADDRESS_AND_PORT);
    ServerLinesLineLike(sm);
    ServerLinesLineLike(sn);
    if Stream(ServerLines(sm)) == Stream(ServerLines(sn)) {
      StreamInjective(ServerLines(sm), ServerLines(sn));
      ServerLinesInjective(sm, sn);
    }
  }

  /** Two clean tables of one kind have the same manifest text exactly when they hold the same rows. */
  lemma TextDeterminesTable(a: Table, b: Table)
    requires Clean(a) && Clean(b) && (a.Names? <==> b.Names?)
    ensures ManifestText(a) == ManifestText(b) <==> Same(a, b)
  {
    match (a, b)
    case (Names(m), Names(n)) => NamesTextIff(m, n);
    case (Servers(m), Servers(n)) => ServersTextIff(m, n);
    case (Names(_), Servers(_)) =>
    case (Servers(_), Names(_)) =>
  }

  // ----- names that hold newlines -----

  /** Its manifest text belongs to no other table of names, newlines allowed. */
  ghost predicate TextIsItsOwn(names: seq<Text>) {
    forall others: seq<Text> :: Unique(others) && ManifestText(Names(others)) == ManifestText(Names(names)) ==>
      Same(Names(others), Names(names))
  }

  /** A newline of the name parts it into two different names in order. */
  predicate Parts(name: Text, p: nat)
    requires p < |name|
  {
    name[p] == NEWLINE && LexLe(name[..p], name[p + 1..]) && name[..p] != name[p + 1..]
  }

  lemma StreamOfOne(a: Text)
    ensures Stream([a]) == a + [NEWLINE]
  {
    assert [a][1..] == [];
  }

  lemma SortOne(a: Text)
    ensures Sort([a]) == [a]
  {
    assert [a][1..] == [] && Sorting.Sort([a][1..], BYTEWISE) == [];
  }

  lemma SortPair(a: Text, b: Text)
    requires LexLe(a, b)
    ensures Sort([a, b]) == [a, b] && Stream([a, b]) == a + [NEWLINE] + b + [NEWLINE]
  {
    assert [a, b][1..] == [b];
    SortOne(b);
    StreamOfOne(b);
  }

  /** The lines of a stream, taken together as one name. */
  lemma {:induction false} StreamEnds(lines: seq<Text>)
    requires lines != []
    ensures Stream(lines) != [] && Stream(lines) == Stream(lines)[..|Stream(lines)| - 1] + [NEWLINE]
  {
    if |lines| == 1 {
    } else {
      StreamEnds(lines[1..]);
    }
  }

  lemma {:induction false} LexPrefix(a: Text, tail: Text)
    ensures LexLe(a, a + tail)
  {
    if a == [] {
    } else {
      LexPrefix(a[1..], tail);
      assert (a + tail)[1..] == a[1..] + tail;
    }
  }

  /** Two or more rows read the same as the one name that joins them. */
  lemma ManyRowsAreNotAlone(names: seq<Text>)
    requires Unique(names) && |names| >= 2
    ensures !TextIsItsOwn(names)
  {
    SortProperties(names);
    StreamEnds(Sort(names));
    var text := Stream(Sort(names));
    var joined := text[..|text| - 1];
    SortOne(joined);
    StreamOfOne(joined);
    assert Unique([joined]) && ManifestText(Names([joined])) == text;
    assert names[0] in names && names[1] in names && !(names[0] in [joined] && names[1] in [joined]);
  }

  /** A name parted in order reads the same as its two parts. */
  lemma PartedNameIsNotAlone(name: Text, p: nat)
    requires p < |name| && Parts(name, p)
    ensures !TextIsItsOwn([name])
  {
    var a, b := name[..p], name[p + 1..];
    SortOne(name);
    StreamOfOne(name);
    SortPair(a, b);
    assert a + [NEWLINE] + b == name;
    assert Unique([a, b]) && ManifestText(Names([a, b])) == ManifestText(Names([name]));
    assert name in [name] && name !in [a, b];
  }

  /** Only a name with an orderly newline can be read as several rows. */
  lemma SeveralRowsPart(name: Text, rows: seq<Text>)
    requires |rows| >= 2 && Sorted(rows) && Unique(rows) && Stream(rows) == name + [NEWLINE]
    ensures |rows[0]| < |name| && Parts(name, |rows[0]|)
  {
    var a, b, rest := rows[0], rows[1], rows[1..];
    StreamEnds(rest);
    assert Stream(rows) == a + [NEWLINE] + Stream(rest);
    var tail := Stream(rest)[..|Stream(rest)| - 1];
    assert name + [NEWLINE] == (a + [NEWLINE] + tail) + [NEWLINE];
    assert name == (name + [NEWLINE])[..|name|] == a + [NEWLINE] + tail;
    assert Stream(rest) == b + [NEWLINE] + Stream(rest[1..]);
    assert |b| <= |tail| && tail[..|b|] == b;
    assert tail == b + tail[|b|..];
    LexPrefix(b, tail[|b|..]);
    assert LexLe(a, b);
    LexTransitive(a, b, tail);
    LexTotal(a, b);
    assert name[..|a|] == a && name[|a| + 1..] == tail;
  }

  lemma UnpartedNameIsAlone(name: Text)
    requires forall p :: 0 <= p < |name| ==> !Parts(name, p)
    ensures TextIsItsOwn([name])
  {
    SortOne(name);
    StreamOfOne(name);
    forall others | Unique(others) && ManifestText(Names(others)) == ManifestText(Names([name]))
      ensures Same(Names(others), Names([name]))
    {
      var rows := Sort(others);
      SortProperties(others);
      UniqueSorted(others);
      if |rows| >= 2 {
        SeveralRowsPart(name, rows);
        assert false;
      }
      if |rows| == 1 {
        assert rows == [rows[0]];
        StreamOfOne(rows[0]);
        assert rows[0] == (rows[0] + [NEWLINE])[..|name|] == name;
        assert forall x :: x in others <==> x in multiset(rows);
      }
    }
  }

  lemma UniqueSorted(names: seq<Text>)
    requires Unique(names)
    ensures Unique(Sort(names))
  {
    SortProperties(names);
    var rows := Sort(names);
    forall i, j | 0 <= i < j < |rows| ensures rows[i] != rows[j] {
      if rows[i] == rows[j] {
        assert rows == rows[..i] + [rows[i]] + rows[i + 1..j] + [rows[j]] + rows[j + 1..];
        assert multiset(rows)[rows[i]] >= 2;
        DistinctMultiplicity(names, rows[i]);
      }
    }
  }

  lemma NoRowsAreAlone()
    ensures TextIsItsOwn([])
  {
    forall others | Unique(others) && ManifestText(Names(others)) == ManifestText(Names([]))
      ensures Same(Names(others), Names([]))
    {
      SortProperties(others);
      if Sort(others) != [] {
        StreamEnds(Sort(others));
      }
    }
  }

  /**
   Once names may hold newlines, the manifest text determines a table of names exactly if it is empty or is
   one name that none of its newlines parts into two names in order. Two or more rows always read the same
   as one long name.
   */
  lemma TextIsItsOwnIff(names: seq<Text>)
    requires Unique(names)
    ensures TextIsItsOwn(names) <==>
            names == [] || (|names| == 1 && forall p :: 0 <= p < |names[0]| ==> !Parts(names[0], p))
  {
    if names == [] {
      NoRowsAreAlone();
    } else if |names| >= 2 {
      ManyRowsAreNotAlone(names);
    } else {
      assert names == [names[0]];
      if forall p :: 0 <= p < |names[0]| ==> !Parts(names[0], p) {
        UnpartedNameIsAlone(names[0]);
      } else {
        var p :| 0 <= p < |names[0]| && Parts(names[0], p);
        PartedNameIsNotAlone(names[0], p);
      }
    }
  }

  /** A name with a newline is two lines of text: without clean rows the text does not determine the table. */
  lemma NewlineMakesTextAmbiguous()
    ensures var one, two := Names([[97, NEWLINE, 98]]), Names([[97], [98]]);
            ManifestText(one) == ManifestText(two) && !Same(one, two)
  {
    var joined: Text, a: Text, b: Text := [97, NEWLINE, 98], [97], [98];
    SortOne(joined);
    StreamOfOne(joined);
    assert LexLe(a, b);
    SortPair(a, b);
    assert joined !in [a, b] && joined in [joined];
  }
}
