/** List files: splitting into lines, the two line parsers, and byte-wise sorting. */
module Lines {
  import opened Bytes
  import opened Lists
  import Sorting

  // ----- text primitives -----

  predicate IsSpace(b: byte) {
    9 <= b <= 13 || b == 32
  }

  function StartsWith(s: Text, p: Text): bool {
    |p| <= |s| && s[..|p|] == p
  }

  function TrimStart(s: Text): (r: Text)
    ensures |r| <= |s| && (|r| == |s| ==> r == s)
  {
    if s != [] && IsSpace(s[0]) then TrimStart(s[1..]) else s
  }

  function TrimEnd(s: Text): (r: Text)
    ensures |r| <= |s| && (|r| == |s| ==> r == s)
  {
    if s != [] && IsSpace(s[|s| - 1]) then TrimEnd(s[..|s| - 1]) else s
  }

  function Trim(s: Text): Text {
    TrimEnd(TrimStart(s))
  }

  /** Position of the first byte that is (or is not) a space, or the length. */
  function SpaceIndex(s: Text, space: bool): (i: nat)
    ensures i <= |s|
    ensures i < |s| ==> IsSpace(s[i]) == space
    ensures forall k :: 0 <= k < i ==> IsSpace(s[k]) != space
  {
    if s == [] || IsSpace(s[0]) == space then 0 else 1 + SpaceIndex(s[1..], space)
  }

  /** The whitespace-separated words of a line. */
  function Words(s: Text): seq<Text>
    decreases |s|
  {
    var t := s[SpaceIndex(s, false)..];
    if t == [] then []
    else
      var end := SpaceIndex(t, true);
      [t[..end]] + Words(t[end..])
  }

  function NewlineIndex(s: Text): (i: nat)
    ensures i <= |s|
    ensures i < |s| ==> s[i] == NEWLINE
    ensures forall k :: 0 <= k < i ==> s[k] != NEWLINE
  {
    if s == [] || s[0] == NEWLINE then 0 else 1 + NewlineIndex(s[1..])
  }

  function StripCarriageReturn(s: Text): Text {
    if s != [] && s[|s| - 1] == 13 then s[..|s| - 1] else s
  }

  /** Lines end at a newline, preceded by an optional carriage return; a last line may lack both. */
  function SplitLines(s: Text): seq<Text>
    decreases |s|
  {
    if s == [] then []
    else
      var i := NewlineIndex(s);
      if i == |s| then [s] else [StripCarriageReturn(s[..i])] + SplitLines(s[i + 1..])
  }

  /** Every line followed by a newline. */
  function Stream(lines: seq<Text>): Text {
    if lines == [] then [] else lines[0] + [NEWLINE] + Stream(lines[1..])
  }

  function Join(lines: seq<Text>): Text {
    if lines == [] then []
    else if |lines| == 1 then lines[0]
    else lines[0] + [NEWLINE] + Join(lines[1..])
  }

  // ----- the list-file parser of the store -----

  const ANY_HOST: Text := [48, 46, 48, 46, 48, 46, 48]            // 0.0.0.0
  const LOOPBACK: Text := [49, 50, 55, 46, 48, 46, 48, 46, 49]    // 127.0.0.1
  const HASH: byte := 35

  /** In a hosts-file line the name is the second word; otherwise the whole line. */
  function HostsPart(line: Text): Text {
    if StartsWith(line, ANY_HOST) || StartsWith(line, LOOPBACK) then
      var words := Words(line);
      if |words| > 1 then words[1] else []
    else line
  }

  /** The name on a list line, or nothing for blanks and comments. */
  function DomainPart(raw: Text): Text {
    var line := Trim(raw);
    if line == [] || line[0] == HASH then [] else Trim(HostsPart(line))
  }

  /** What one list line adds to a store. */
  function LineEntry(raw: Text): Entry {
    var d := DomainPart(raw);
    if d == [] then Nothing else EntryOf(Normalize(d))
  }

  function LineEntries(lines: seq<Text>): (es: seq<Entry>)
    ensures |es| == |lines| && forall i :: 0 <= i < |lines| ==> es[i] == LineEntry(lines[i])
  {
    seq(|lines|, i requires 0 <= i < |lines| => LineEntry(lines[i]))
  }

  /** What the first `i` entries add up to. */
  function Gather(es: seq<Entry>, i: nat): Sets
    requires i <= |es|
  {
    if i == 0 then NO_NAMES else Add(Gather(es, i - 1), es[i - 1])
  }

  /** What a list file adds to a store. */
  function EntriesOf(lines: seq<Text>): Sets {
    Gather(LineEntries(lines), |lines|)
  }

  // ----- the list-file parser of the database -----

  datatype Option<+T> = None | Some(value: T)

  function TrimEndDots(s: Text): (r: Text)
    ensures !EndsWithDot(r) && |r| <= |s| && r == s[..|r|]
  {
    if EndsWithDot(s) then TrimEndDots(s[..|s| - 1]) else s
  }

  function SplitDots(s: Text): (labels: seq<Text>)
    ensures |labels| > 0
  {
    if s == [] then [[]]
    else
      var rest := SplitDots(s[1..]);
      if s[0] == DOT then [[]] + rest else [[s[0]] + rest[0]] + rest[1..]
  }

  predicate LabelByte(b: byte) {
    48 <= b <= 57 || 65 <= b <= 90 || 97 <= b <= 122 || b == 45 || b == 95
  }

  predicate ValidLabel(part: Text) {
    0 < |part| <= 63 && forall i :: 0 <= i < |part| ==> LabelByte(part[i])
  }

  predicate ValidName(name: Text) {
    0 < |name| <= 253 && forall k :: 0 <= k < |SplitDots(name)| ==> ValidLabel(SplitDots(name)[k])
  }

  /** One line of an import or a source: the row it stores, or nothing. */
  function ParseDomainLine(raw: Text): Option<Text> {
    var line := Trim(raw);
    if line == [] || line[0] == HASH then None
    else
      var normalized := ToLower(TrimEndDots(Trim(HostsPart(line))));
      var name := if HasWildcardPrefix(normalized) then normalized[2..] else normalized;
      if ValidName(name) then Some(normalized) else None
  }

  /**
   Every row the database parser accepts is stable under normalisation and can be stored, so table
   and store agree on what it means.
   */
  lemma ParsedRowIsStable(raw: Text)
    requires ParseDomainLine(raw).Some?
    ensures var row := ParseDomainLine(raw).value;
            Stable(row) && !EndsWithDot(row) && EntryOf(row) != Nothing && |row| <= 255
  {
    var line := Trim(raw);
    var t := TrimEndDots(Trim(HostsPart(line)));
    var row := ToLower(t);
    assert EndsWithDot(row) ==> EndsWithDot(t);
    ToLowerIdempotent(t);
  }

  // ----- byte-wise sorting -----

  predicate LexLe(a: Text, b: Text) {
    a == [] || (b != [] && (a[0] < b[0] || (a[0] == b[0] && LexLe(a[1..], b[1..]))))
  }

  lemma {:induction false} LexTotal(a: Text, b: Text)
    ensures LexLe(a, b) || LexLe(b, a)
    ensures LexLe(a, b) && LexLe(b, a) ==> a == b
  {
    if a == [] || b == [] || a[0] != b[0] {
    } else {
      LexTotal(a[1..], b[1..]);
      assert a == [a[0]] + a[1..] && b == [b[0]] + b[1..];
    }
  }

  lemma {:induction false} LexTransitive(a: Text, b: Text, c: Text)
    requires LexLe(a, b) && LexLe(b, c)
    ensures LexLe(a, c)
  {
    if a == [] || a[0] < b[0] || b[0] < c[0] {
    } else {
      LexTransitive(a[1..], b[1..], c[1..]);
    }
  }

  /** Two texts are in order if the first begins the second or is smaller where they first differ. */
  lemma {:induction false} LexLeIff(a: Text, b: Text)
    ensures LexLe(a, b) <==>
            exists k :: 0 <= k <= |a| && k <= |b| && a[..k] == b[..k] && (k == |a| || (k < |b| && a[k] < b[k]))
  {
    if a == [] {
      assert a[..0] == b[..0];
    } else if b != [] && a[0] == b[0] {
      LexLeIff(a[1..], b[1..]);
      if LexLe(a[1..], b[1..]) {
        var k :| 0 <= k <= |a[1..]| && k <= |b[1..]| && a[1..][..k] == b[1..][..k]
                 && (k == |a[1..]| || (k < |b[1..]| && a[1..][k] < b[1..][k]));
        assert a[..k + 1] == [a[0]] + a[1..][..k] && b[..k + 1] == [b[0]] + b[1..][..k];
      }
      if k :| 0 <= k <= |a| && k <= |b| && a[..k] == b[..k] && (k == |a| || (k < |b| && a[k] < b[k])) {
        assert k > 0;
        assert a[1..][..k - 1] == a[..k][1..] && b[1..][..k - 1] == b[..k][1..];
      }
    } else if b != [] {
      if a[0] < b[0] {
        assert a[..0] == b[..0];
      }
      assert forall k :: 0 < k <= |a| && k <= |b| ==> a[..k][0] != b[..k][0];
    }
  }

  predicate Sorted(xs: seq<Text>) {
    forall i, j :: 0 <= i < j < |xs| ==> LexLe(xs[i], xs[j])
  }

  const BYTEWISE: (Text, Text) -> bool := (a, b) => LexLe(a, b)

  lemma BytewiseIsOrder()
    ensures Sorting.IsOrder(BYTEWISE)
  {
    forall a, b ensures BYTEWISE(a, b) || BYTEWISE(b, a) { LexTotal(a, b); }
    forall a, b | BYTEWISE(a, b) && BYTEWISE(b, a) ensures a == b { LexTotal(a, b); }
    forall a, b, c | BYTEWISE(a, b) && BYTEWISE(b, c) ensures BYTEWISE(a, c) { LexTransitive(a, b, c); }
  }

  function Sort(xs: seq<Text>): seq<Text> {
    Sorting.Sort(xs, BYTEWISE)
  }

  /** Sorting gives an ascending permutation. */
  lemma SortProperties(xs: seq<Text>)
    ensures Sorted(Sort(xs)) && multiset(Sort(xs)) == multiset(xs) && |Sort(xs)| == |xs|
  {
    BytewiseIsOrder();
    Sorting.SortPermutes(xs, BYTEWISE);
    forall i, j | 0 <= i < j < |xs| ensures LexLe(Sort(xs)[i], Sort(xs)[j]) {
      assert BYTEWISE(Sort(xs)[i], Sort(xs)[j]);
    }
  }

  // ----- streams of lines -----

  predicate LineLike(s: Text) {
    NEWLINE !in s
  }

  lemma NewlineIndexAt(line: Text, rest: Text)
    requires LineLike(line)
    ensures NewlineIndex(line + [NEWLINE] + rest) == |line|
  {
    var s := line + [NEWLINE] + rest;
    assert s[|line|] == NEWLINE;
    assert forall i :: 0 <= i < |line| ==> s[i] == line[i] && line[i] in line;
  }

  /** The stream of newline-free lines determines the lines. */
  lemma {:induction false} StreamInjective(a: seq<Text>, b: seq<Text>)
    requires forall x :: x in a ==> LineLike(x)
    requires forall x :: x in b ==> LineLike(x)
    requires Stream(a) == Stream(b)
    ensures a == b
  {
    if a == [] || b == [] {
    } else {
      NewlineIndexAt(a[0], Stream(a[1..]));
      NewlineIndexAt(b[0], Stream(b[1..]));
      var s := Stream(a);
      assert s[..|a[0]|] == a[0] && s[|a[0]| + 1..] == Stream(a[1..]);
      assert s[..|b[0]|] == b[0] && s[|b[0]| + 1..] == Stream(b[1..]);
      StreamInjective(a[1..], b[1..]);
      assert a == [a[0]] + a[1..] && b == [b[0]] + b[1..];
    }
  }

  /** Joining with newlines and ending with one is the stream of lines. */
  lemma {:induction false} JoinIsStream(lines: seq<Text>)
    requires lines != []
    ensures Join(lines) + [NEWLINE] == Stream(lines)
  {
    if |lines| == 1 {
      assert Stream(lines[1..]) == [];
    } else {
      JoinIsStream(lines[1..]);
    }
  }

  lemma SplitFirst(line: Text, rest: Text)
    requires LineLike(line) && StripCarriageReturn(line) == line
    ensures SplitLines(line + [NEWLINE] + rest) == [line] + SplitLines(rest)
  {
    var s := line + [NEWLINE] + rest;
    NewlineIndexAt(line, rest);
    assert s[..|line|] == line && s[|line| + 1..] == rest;
  }

  /** A line may end in a carriage return and a newline, and the last one in nothing. */
  lemma SplitEnds(line: Text, rest: Text)
    requires LineLike(line) && (line == [] || line[|line| - 1] != 13)
    ensures SplitLines(line + [10] + rest) == [line] + SplitLines(rest)
    ensures SplitLines(line + [13] + [10] + rest) == [line] + SplitLines(rest)
    ensures SplitLines(line) == if line == [] then [] else [line]
  {
    SplitFirst(line, rest);
    var s := line + [13] + [10] + rest;
    NewlineIndexAt(line + [13], rest);
    assert s[..|line| + 1] == line + [13] && s[|line| + 2..] == rest;
    assert StripCarriageReturn(line + [13]) == line;
  }

  /** Splitting a stream of lines gives the lines back. */
  lemma {:induction false} SplitStream(lines: seq<Text>)
    requires forall x :: x in lines ==> LineLike(x) && StripCarriageReturn(x) == x
    ensures SplitLines(Stream(lines)) == lines
  {
    if lines == [] {
    } else {
      SplitFirst(lines[0], Stream(lines[1..]));
      SplitStream(lines[1..]);
    }
  }

  // ----- compiled list files read back -----

  /** The line a compiled file holds for each listed entry. */
  function LinesOf(s: Sets): set<Text> {
    s.exact + set w | w in s.wild :: [STAR, DOT] + w
  }

  /** Lines that both parsers take for the name they hold, once split at newlines. */
  predicate PlainLine(line: Text) {
    && line != [] && line[0] != HASH && !StartsWith(line, ANY_HOST) && !StartsWith(line, LOOPBACK)
    && Trim(line) == line && LineLike(line) && Stable(line)
  }

  lemma PlainLineEntry(line: Text)
    requires PlainLine(line)
    ensures LineEntry(line) == EntryOf(line)
    ensures LineLike(line) && StripCarriageReturn(line) == line
  {
    TrimmedIff(line);
  }

  /** Trimming leaves a text alone exactly if no space stands at either end. */
  lemma TrimmedIff(s: Text)
    ensures Trim(s) == s <==> s == [] || (!IsSpace(s[0]) && !IsSpace(s[|s| - 1]))
  {
  }

  /** The second word is shorter than the line. */
  lemma SecondWordIsShorter(s: Text)
    requires |Words(s)| > 1
    ensures |Words(s)[1]| < |s|
  {
    var t := s[SpaceIndex(s, false)..];
    var end := SpaceIndex(t, true);
    assert Words(s)[1] == Words(t[end..])[0];
  }

  /** The parser takes a raw line whole exactly if nothing in it is cut off. */
  lemma TakenWhole(raw: Text)
    ensures |DomainPart(raw)| <= |raw|
    ensures raw != [] && |DomainPart(raw)| == |raw| <==>
              && raw != [] && raw[0] != HASH && !StartsWith(raw, ANY_HOST) && !StartsWith(raw, LOOPBACK)
              && Trim(raw) == raw
    ensures |DomainPart(raw)| == |raw| ==> DomainPart(raw) == raw
  {
    var line := Trim(raw);
    if |Words(line)| > 1 {
      SecondWordIsShorter(line);
    }
  }

  /** Normalising keeps the entry of a line only by keeping the line. */
  lemma SameEntrySameLine(line: Text, n: Text)
    requires EntryOf(line) != Nothing && EntryOf(n) == EntryOf(line)
    ensures n == line
  {
    assert HasWildcardPrefix(n) ==> n == [STAR, DOT] + n[2..];
    assert HasWildcardPrefix(line) ==> line == [STAR, DOT] + line[2..];
  }

  /** One line, spaces or not, reads back as the entry it was written for exactly when it is plain. */
  lemma ReadsBackIff(line: Text)
    requires EntryOf(line) != Nothing && LineLike(line)
    ensures LineEntry(line) == EntryOf(line) <==> PlainLine(line)
  {
    TakenWhole(line);
    if LineEntry(line) == EntryOf(line) {
      SameEntrySameLine(line, Normalize(DomainPart(line)));
    }
  }

  /** Entries add up to their union, in whatever order they come. */
  lemma {:induction false} GatherMembership(es: seq<Entry>, i: nat)
    requires i <= |es|
    ensures forall n :: n in Gather(es, i).exact <==> ExactName(n) in es[..i]
    ensures forall n :: n in Gather(es, i).wild <==> WildSuffix(n) in es[..i]
  {
    if i == 0 {
    } else {
      GatherMembership(es, i - 1);
      assert es[..i] == es[..i - 1] + [es[i - 1]];
    }
  }

  lemma {:induction false} GatherMonotone(es: seq<Entry>, i: nat, j: nat)
    requires i <= j <= |es|
    ensures Gather(es, i).exact <= Gather(es, j).exact
    ensures Gather(es, i).wild <= Gather(es, j).wild
  {
    if i == j {
    } else {
      GatherMonotone(es, i, j - 1);
    }
  }

  /** A file lists a name exactly if one of its lines adds it. */
  lemma FileByName(lines: seq<Text>, n: Text)
    ensures n in EntriesOf(lines).exact <==> exists k :: 0 <= k < |lines| && LineEntry(lines[k]) == ExactName(n)
    ensures n in EntriesOf(lines).wild <==> exists k :: 0 <= k < |lines| && LineEntry(lines[k]) == WildSuffix(n)
  {
    var es := LineEntries(lines);
    GatherMembership(es, |es|);
    assert es[..|es|] == es;
    assert forall k :: 0 <= k < |lines| ==> es[k] == LineEntry(lines[k]);
  }

  /** Entries read off the lines of a listed set, in any order, give that set back. */
  lemma ListedEntries(s: Sets, lines: seq<Text>, es: seq<Entry>)
    requires WellFormed(s) && |es| == |lines|
    requires forall x :: x in lines <==> x in LinesOf(s)
    requires forall i :: 0 <= i < |lines| ==> es[i] == EntryOf(lines[i])
    ensures Gather(es, |es|) == s
  {
    GatherMembership(es, |es|);
    assert es[..|es|] == es;
    var e := Gather(es, |es|);
    forall n ensures n in s.exact <==> ExactName(n) in es {
      ListedExact(s, lines, es, n);
    }
    forall w ensures w in s.wild <==> WildSuffix(w) in es {
      ListedWild(s, lines, es, w);
    }
    assert e.exact == s.exact && e.wild == s.wild;
  }

  lemma ListedExact(s: Sets, lines: seq<Text>, es: seq<Entry>, n: Text)
    requires WellFormed(s) && |es| == |lines|
    requires forall x :: x in lines <==> x in LinesOf(s)
    requires forall i :: 0 <= i < |lines| ==> es[i] == EntryOf(lines[i])
    ensures n in s.exact <==> ExactName(n) in es
  {
    if n in s.exact {
      assert n in LinesOf(s);
      var k :| 0 <= k < |lines| && lines[k] == n;
      assert es[k] == ExactName(n);
    }
    if ExactName(n) in es {
      var k :| 0 <= k < |es| && es[k] == ExactName(n);
      assert lines[k] == n && !HasWildcardPrefix(n);
      assert lines[k] in LinesOf(s);
    }
  }

  lemma ListedWild(s: Sets, lines: seq<Text>, es: seq<Entry>, w: Text)
    requires WellFormed(s) && |es| == |lines|
    requires forall x :: x in lines <==> x in LinesOf(s)
    requires forall i :: 0 <= i < |lines| ==> es[i] == EntryOf(lines[i])
    ensures w in s.wild <==> WildSuffix(w) in es
  {
    if w in s.wild {
      var line := [STAR, DOT] + w;
      assert line[2..] == w && line in LinesOf(s);
      var k :| 0 <= k < |lines| && lines[k] == line;
      assert es[k] == WildSuffix(w);
    }
    if WildSuffix(w) in es {
      var k :| 0 <= k < |es| && es[k] == WildSuffix(w);
      assert lines[k] in LinesOf(s) && HasWildcardPrefix(lines[k]);
      var w' :| w' in s.wild && lines[k] == [STAR, DOT] + w';
      assert lines[k][2..] == w';
    }
  }

  /** A compiled file of plain lines reads back as the same exact and wildcard sets. */
  lemma CompiledFileReadsBack(s: Sets, lines: seq<Text>)
    requires WellFormed(s)
    requires forall x :: x in lines <==> x in LinesOf(s)
    requires forall x :: x in LinesOf(s) ==> PlainLine(x)
    ensures EntriesOf(SplitLines(Join(lines) + [NEWLINE])) == s
  {
    if lines == [] {
      EmptyLinesOf(s, lines);
    } else {
      forall x | x in lines ensures LineLike(x) && StripCarriageReturn(x) == x && LineEntry(x) == EntryOf(x) {
        PlainLineEntry(x);
      }
      JoinIsStream(lines);
      SplitStream(lines);
      ListedEntries(s, lines, LineEntries(lines));
    }
  }

  lemma EmptyLinesOf(s: Sets, lines: seq<Text>)
    requires lines == [] && forall x :: x in lines <==> x in LinesOf(s)
    ensures EntriesOf(SplitLines(Join(lines) + [NEWLINE])) == s
  {
    assert Join(lines) + [NEWLINE] == [NEWLINE];
    assert NewlineIndex([NEWLINE]) == 0;
    assert SplitLines([NEWLINE]) == [[]];
    assert EntriesOf([[]]) == NO_NAMES by {
      assert DomainPart([]) == [];
      assert Gather(LineEntries([[]]), 0) == NO_NAMES;
    }
    assert forall n :: n in s.exact ==> n in LinesOf(s);
    assert forall w :: w in s.wild ==> [STAR, DOT] + w in LinesOf(s);
  }

  // ----- and exactly which compiled files do -----

  /** What splitting makes of a listed line: the line itself, or something shorter if it holds newlines. */
  predicate IsPiece(raw: Text, line: Text) {
    if LineLike(line) then raw == StripCarriageReturn(line) else |raw| < |line|
  }

  lemma NewlineIndexWithin(x: Text, rest: Text)
    ensures NewlineIndex(x + [NEWLINE] + rest) == NewlineIndex(x)
  {
    var s, i := x + [NEWLINE] + rest, NewlineIndex(x);
    assert s[i] == NEWLINE && forall k :: 0 <= k < i ==> s[k] == x[k];
  }

  /** Splitting goes on behind a line's end just as if it started there. */
  lemma {:induction false} SplitPieces(x: Text, rest: Text)
    ensures forall raw :: raw in SplitLines(x + [NEWLINE] + rest) ==> IsPiece(raw, x) || raw in SplitLines(rest)
    decreases |x|
  {
    var s, i := x + [NEWLINE] + rest, NewlineIndex(x);
    NewlineIndexWithin(x, rest);
    assert s[..i] == x[..i];
    if i == |x| {
      assert x[..i] == x && s[i + 1..] == rest;
    } else {
      assert s[i + 1..] == x[i + 1..] + [NEWLINE] + rest;
      SplitPieces(x[i + 1..], rest);
    }
  }

  ghost predicate HasPiece(lines: seq<Text>, raw: Text) {
    exists x :: x in lines && IsPiece(raw, x)
  }

  lemma {:induction false} StreamPieces(lines: seq<Text>)
    ensures forall raw :: raw in SplitLines(Stream(lines)) ==> HasPiece(lines, raw)
  {
    if lines == [] {
    } else {
      SplitPieces(lines[0], Stream(lines[1..]));
      StreamPieces(lines[1..]);
      forall raw | raw in SplitLines(Stream(lines)) ensures HasPiece(lines, raw) {
        if !IsPiece(raw, lines[0]) {
          var x :| x in lines[1..] && IsPiece(raw, x);
        }
      }
    }
  }

  /** Some piece of some listed line reads as the entry this line was written for. */
  ghost predicate IsRead(lines: set<Text>, y: Text) {
    exists raw, x :: x in lines && IsPiece(raw, x) && LineEntry(raw) == EntryOf(y)
  }

  /** Every line stands for an entry and is read, whole or in part, off some line. */
  ghost predicate AllRead(lines: set<Text>) {
    var read := forall y {:trigger IsRead(lines, y)} :: y in lines ==> IsRead(lines, y);
    read && forall y :: y in lines ==> EntryOf(y) != Nothing && |y| <= U16_MAX + 2
  }

  lemma LinesHaveEntries(s: Sets)
    requires WellFormed(s)
    ensures forall x :: x in LinesOf(s) ==> EntryOf(x) != Nothing && |x| <= U16_MAX + 2
  {
    forall x | x in LinesOf(s) && x !in s.exact ensures EntryOf(x) != Nothing && |x| <= U16_MAX + 2 {
      var w :| w in s.wild && x == [STAR, DOT] + w;
      assert x[2..] == w;
    }
  }

  /** Lower-casing makes or removes no space, newline, digit or dot, so what it makes of a plain line is plain. */
  lemma LowerIsPlain(x: Text)
    requires x != [] && x[0] != HASH && !StartsWith(x, ANY_HOST) && !StartsWith(x, LOOPBACK)
    requires Trim(x) == x && LineLike(x) && !EndsWithDot(x)
    ensures PlainLine(ToLower(x))
  {
    var y := ToLower(x);
    ToLowerIdempotent(x);
    TrimmedIff(x);
    TrimmedIff(y);
    forall i | 0 <= i < |y| ensures y[i] != NEWLINE {
      assert x[i] in x;
    }
    if StartsWith(y, ANY_HOST) { SamePrefix(x, y, ANY_HOST); }
    if StartsWith(y, LOOPBACK) { SamePrefix(x, y, LOOPBACK); }
  }

  lemma SamePrefix(y: Text, x: Text, p: Text)
    requires |x| <= |y| && forall i :: 0 <= i < |x| ==> x[i] == LowerByte(y[i])
    requires StartsWith(x, p) && forall i :: 0 <= i < |p| ==> p[i] < 65
    ensures StartsWith(y, p)
  {
    forall i | 0 <= i < |p| ensures y[i] == p[i] {
      assert x[..|p|][i] == p[i];
    }
    assert y[..|p|] == p;
  }

  /** What a piece of line `x` spells, if it reads as the entry of `y`: `y` itself, so `x` is no shorter. */
  lemma ReadOff(raw: Text, x: Text, y: Text)
    requires IsPiece(raw, x) && EntryOf(y) != Nothing && LineEntry(raw) == EntryOf(y)
    ensures Normalize(DomainPart(raw)) == y && |y| <= |DomainPart(raw)| <= |raw| <= |x|
  {
    SameEntrySameLine(y, Normalize(DomainPart(raw)));
    TakenWhole(raw);
  }

  lemma PlainIsReadWhole(raw: Text, x: Text)
    requires PlainLine(x) && IsPiece(raw, x)
    ensures Normalize(DomainPart(raw)) == x
  {
    PlainLineEntry(x);
    TakenWhole(x);
  }

  /** A line read off one just as long is read off the whole of it, and is plain. */
  lemma ReadWholeIsPlain(raw: Text, x: Text, y: Text)
    requires IsPiece(raw, x) && Normalize(DomainPart(raw)) == y && |y| == |x| > 0
    requires |y| <= |DomainPart(raw)| <= |raw| <= |x|
    ensures PlainLine(y)
  {
    TakenWhole(raw);
    LowerIsPlain(x);
  }

  /**
   A line is read off one at least as long. Off a longer one it cannot be, since that is plain by induction
   and so reads as itself.
   */
  lemma {:induction false} ReadIsPlain(lines: set<Text>, y: Text)
    requires AllRead(lines) && y in lines
    ensures PlainLine(y)
    decreases U16_MAX + 2 - |y|
  {
    assert IsRead(lines, y);
    var raw, x :| x in lines && IsPiece(raw, x) && LineEntry(raw) == EntryOf(y);
    ReadOff(raw, x, y);
    if |x| > |y| {
      ReadIsPlain(lines, x);
      PlainIsReadWhole(raw, x);
      assert false;
    } else {
      ReadWholeIsPlain(raw, x, y);
    }
  }

  /** The entry of a listed line. */
  lemma ListedEntry(s: Sets, y: Text)
    requires WellFormed(s) && y in LinesOf(s)
    ensures if y in s.exact then EntryOf(y) == ExactName(y)
            else EntryOf(y).WildSuffix? && EntryOf(y).name in s.wild
  {
    if y !in s.exact {
      var w :| w in s.wild && y == [STAR, DOT] + w;
      assert y[2..] == w;
    }
  }

  lemma ReadsEntry(s: Sets, raws: seq<Text>, e: Entry) returns (raw: Text)
    requires EntriesOf(raws) == s && e != Nothing && Has(s, e)
    ensures raw in raws && LineEntry(raw) == e
  {
    var es := LineEntries(raws);
    GatherMembership(es, |es|);
    assert es[..|es|] == es && e in es;
    var k :| 0 <= k < |es| && es[k] == e;
    raw := raws[k];
  }

  /** When the file gives the list back, every line is read off some line. */
  lemma ReadsAll(s: Sets, lines: seq<Text>, raws: seq<Text>)
    requires WellFormed(s) && EntriesOf(raws) == s && forall x :: x in lines <==> x in LinesOf(s)
    requires forall raw :: raw in raws ==> HasPiece(lines, raw)
    ensures AllRead(LinesOf(s))
  {
    LinesHaveEntries(s);
    forall y | y in LinesOf(s) ensures IsRead(LinesOf(s), y) {
      ListedEntry(s, y);
      var raw := ReadsEntry(s, raws, EntryOf(y));
      var x :| x in lines && IsPiece(raw, x);
      assert x in LinesOf(s);
    }
  }

  /**
   A compiled file of any list, whatever bytes its names hold, reads back as the same exact and wildcard
   sets if and only if every line is plain: no other line, or part of one, makes up for one that is not.
   */
  lemma CompiledFileReadsBackIff(s: Sets, lines: seq<Text>)
    requires WellFormed(s) && forall x :: x in lines <==> x in LinesOf(s)
    ensures EntriesOf(SplitLines(Join(lines) + [NEWLINE])) == s <==> forall x :: x in LinesOf(s) ==> PlainLine(x)
  {
    if forall x :: x in LinesOf(s) ==> PlainLine(x) {
      CompiledFileReadsBack(s, lines);
    } else if EntriesOf(SplitLines(Join(lines) + [NEWLINE])) == s {
      assert lines != [];
      JoinIsStream(lines);
      StreamPieces(lines);
      ReadsAll(s, lines, SplitLines(Stream(lines)));
      forall x | x in LinesOf(s) ensures PlainLine(x) {
        ReadIsPlain(LinesOf(s), x);
      }
    }
  }
}
