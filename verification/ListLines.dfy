/** What one line of a list file adds, for both parsers, in terms of the bytes of the line. */
module ListLines {
  import opened Bytes
  import opened Lists
  import opened Lines

  predicate Blank(b: byte) {
    b in {9, 10, 11, 12, 13, 32}
  }

  predicate AllBlank(s: Text) {
    forall i :: 0 <= i < |s| ==> Blank(s[i])
  }

  predicate NoBlank(s: Text) {
    forall i :: 0 <= i < |s| ==> !Blank(s[i])
  }

  /** `0.0.0.0` or `127.0.0.1`. */
  predicate IsHost(s: Text) {
    s == [48, 46, 48, 46, 48, 46, 48] || s == [49, 50, 55, 46, 48, 46, 48, 46, 49]
  }

  // ----- rows -----

  /** A maximal stretch without dots. */
  predicate IsLabel(s: Text, i: int, j: int) {
    && 0 <= i <= j <= |s| && (i == 0 || s[i - 1] == 46) && (j == |s| || s[j] == 46)
    && forall k :: i <= k < j ==> s[k] != 46
  }

  /** A letter, a digit, `-` or `_`. */
  predicate NameByte(b: byte) {
    65 <= b <= 90 || 97 <= b <= 122 || 48 <= b <= 57 || b == 45 || b == 95
  }

  /** One to 253 bytes of labels of one to 63 letters, digits, `-` or `_`, with a dot between any two. */
  ghost predicate NameLike(s: Text) {
    && 1 <= |s| <= 253
    && forall i, j :: IsLabel(s, i, j) ==> 1 <= j - i <= 63 && forall k :: i <= k < j ==> NameByte(s[k])
  }

  /** The row a word spells: small letters, without the dots at the end. */
  ghost predicate Spells(row: Text, d: Text) {
    && |row| <= |d|
    && (forall i :: 0 <= i < |row| ==> row[i] == if 65 <= d[i] <= 90 then d[i] + 32 else d[i])
    && (forall i :: |row| <= i < |d| ==> d[i] == 46)
    && (row != [] ==> row[|row| - 1] != 46)
  }

  /** A row without the `*.` it may begin with. */
  function Bare(row: Text): Text {
    if |row| >= 2 && row[0] == 42 && row[1] == 46 then row[2..] else row
  }

  /** A word gives the row it spells exactly if that is a name, bare or behind `*.`. */
  ghost predicate IsRowOf(d: Text, parsed: Option<Text>) {
    match parsed
    case Some(row) => Spells(row, d) && NameLike(Bare(row))
    case None => forall row :: Spells(row, d) ==> !NameLike(Bare(row))
  }

  lemma LabelShifts(s: Text, i: int, j: int)
    requires s != [] && 1 <= i <= j <= |s|
    ensures IsLabel(s, i, j) <==> IsLabel(s[1..], i - 1, j - 1) && (i == 1 ==> s[0] == 46)
    ensures s[i..j] == s[1..][i - 1..j - 1]
  {
    var t := s[1..];
    assert forall k :: i <= k < j ==> s[k] == t[k - 1];
    if IsLabel(t, i - 1, j - 1) {
      forall k | i <= k < j ensures s[k] != 46 {
        assert t[k - 1] != 46;
      }
    }
  }

  /** Some label of `s`, the first one or a later one, is `x`. */
  ghost predicate HasLabel(s: Text, from: nat, x: Text) {
    exists i, j :: from <= i && IsLabel(s, i, j) && s[i..j] == x
  }

  lemma LaterLabels(s: Text, from: nat, x: Text)
    requires s != [] && from >= 1 && (from == 1 ==> s[0] == 46)
    ensures HasLabel(s, from, x) <==> HasLabel(s[1..], from - 1, x)
  {
    if HasLabel(s, from, x) {
      var i, j :| from <= i && IsLabel(s, i, j) && s[i..j] == x;
      LabelShifts(s, i, j);
      assert IsLabel(s[1..], i - 1, j - 1);
    }
    if HasLabel(s[1..], from - 1, x) {
      var i, j :| from - 1 <= i && IsLabel(s[1..], i, j) && s[1..][i..j] == x;
      LabelShifts(s, i + 1, j + 1);
      assert IsLabel(s, i + 1, j + 1);
    }
  }

  lemma FirstLabel(s: Text, i: int, j: int, x: Text)
    requires IsLabel(s, 0, i) && IsLabel(s, 0, j)
    ensures i == j
  {
  }

  /** Splitting at dots gives the labels. */
  lemma {:induction false} SplitDotsLabels(s: Text, x: Text)
    ensures x in SplitDots(s)[1..] <==> HasLabel(s, 1, x)
    ensures IsLabel(s, 0, |SplitDots(s)[0]|) && s[..|SplitDots(s)[0]|] == SplitDots(s)[0]
  {
    if s == [] {
    } else {
      var rest := SplitDots(s[1..]);
      SplitDotsLabels(s[1..], x);
      if s[0] == 46 {
        assert SplitDots(s)[1..] == rest && rest == [rest[0]] + rest[1..];
        LaterLabels(s, 1, x);
        FirstOrLater(s[1..], x);
      } else {
        assert SplitDots(s)[1..] == rest[1..];
        LaterLabels(s, 2, x);
        assert forall j :: !IsLabel(s, 1, j);
        assert HasLabel(s, 1, x) <==> HasLabel(s, 2, x);
        FirstGrows(s, |rest[0]|);
      }
    }
  }

  lemma FirstGrows(s: Text, n: nat)
    requires s != [] && s[0] != 46 && IsLabel(s[1..], 0, n)
    ensures IsLabel(s, 0, n + 1) && s[..n + 1] == [s[0]] + s[1..][..n]
  {
    forall k | 0 <= k < n + 1 ensures s[k] != 46 {
      assert k > 0 ==> s[1..][k - 1] == s[k];
    }
  }

  lemma FirstOrLater(s: Text, x: Text)
    requires IsLabel(s, 0, |SplitDots(s)[0]|) && s[..|SplitDots(s)[0]|] == SplitDots(s)[0]
    ensures HasLabel(s, 0, x) <==> x == SplitDots(s)[0] || HasLabel(s, 1, x)
  {
    var n := |SplitDots(s)[0]|;
    assert s[0..n] == s[..n];
    if HasLabel(s, 0, x) {
      var i, j :| 0 <= i && IsLabel(s, i, j) && s[i..j] == x;
      if i == 0 { FirstLabel(s, n, j, x); }
    }
  }

  lemma LabelBytes(part: Text)
    ensures ValidLabel(part) <==> 1 <= |part| <= 63 && forall k :: 0 <= k < |part| ==> NameByte(part[k])
  {
  }

  /** The parser's check of a name, by its labels. */
  lemma ValidNameIff(s: Text)
    ensures ValidName(s) <==> NameLike(s)
  {
    var labels := SplitDots(s);
    forall x ensures x in labels <==> HasLabel(s, 0, x) {
      SplitDotsLabels(s, x);
      FirstOrLater(s, x);
      assert labels == [labels[0]] + labels[1..];
    }
    if ValidName(s) {
      forall i, j | IsLabel(s, i, j) ensures 1 <= j - i <= 63 && forall k :: i <= k < j ==> NameByte(s[k]) {
        var x := s[i..j];
        assert HasLabel(s, 0, x) && x in labels;
        LabelBytes(x);
        assert forall k :: i <= k < j ==> s[k] == x[k - i];
      }
    }
    if NameLike(s) {
      forall k | 0 <= k < |labels| ensures ValidLabel(labels[k]) {
        var x := labels[k];
        assert x in labels;
        var i, j :| 0 <= i && IsLabel(s, i, j) && s[i..j] == x;
        assert forall m :: 0 <= m < |x| ==> x[m] == s[i + m];
        LabelBytes(x);
      }
    }
  }

  lemma {:induction false} DotsAreCut(s: Text)
    ensures forall i :: |TrimEndDots(s)| <= i < |s| ==> s[i] == 46
  {
    if s == [] || s[|s| - 1] != 46 {
    } else {
      DotsAreCut(s[..|s| - 1]);
    }
  }

  lemma SpellsOne(row: Text, row': Text, d: Text)
    requires Spells(row, d) && Spells(row', d)
    ensures row == row'
  {
  }

  /** What the database parser makes of the word it takes from a line. */
  lemma WordGivesRow(raw: Text, d: Text)
    requires Trim(raw) != [] && Trim(raw)[0] != HASH && Trim(HostsPart(Trim(raw))) == d
    ensures IsRowOf(d, ParseDomainLine(raw))
  {
    var cut := TrimEndDots(d);
    var row := ToLower(cut);
    DotsAreCut(d);
    NormalizeByBytes(cut);
    assert Spells(row, d);
    ValidNameIff(Bare(row));
    forall other | Spells(other, d) ensures other == row {
      SpellsOne(other, row, d);
    }
  }

  // ----- blanks around and between words -----

  lemma BlankIsSpace(b: byte)
    ensures Blank(b) <==> IsSpace(b)
  {
  }

  lemma {:induction false} TrimLead(lead: Text, s: Text)
    requires AllBlank(lead) && (s != [] ==> !Blank(s[0]))
    ensures TrimStart(lead + s) == s
  {
    if lead == [] {
      assert lead + s == s;
    } else {
      assert (lead + s)[1..] == lead[1..] + s;
      TrimLead(lead[1..], s);
    }
  }

  /** Trimming the end reaches no further than the last byte that is not blank. */
  lemma {:induction false} TrimTail(s: Text, tail: Text) returns (kept: Text)
    requires s != [] && !Blank(s[|s| - 1])
    ensures TrimEnd(s + tail) == s + kept && kept <= tail && (AllBlank(tail) ==> kept == [])
  {
    var t := s + tail;
    if tail == [] {
      kept := [];
      assert t == s;
    } else if Blank(tail[|tail| - 1]) {
      var shorter := tail[..|tail| - 1];
      assert t[..|t| - 1] == s + shorter;
      kept := TrimTail(s, shorter);
    } else {
      kept := tail;
    }
  }

  lemma TrimmedWord(d: Text)
    requires d != [] && !Blank(d[0]) && !Blank(d[|d| - 1])
    ensures Trim(d) == d
  {
  }

  /** The index of the first blank, or of the first byte that is none. */
  lemma FirstAt(s: Text, blank: bool, n: nat)
    requires n <= |s| && (forall k :: 0 <= k < n ==> Blank(s[k]) != blank) && (n < |s| ==> Blank(s[n]) == blank)
    ensures SpaceIndex(s, blank) == n
  {
    var i := SpaceIndex(s, blank);
    BlankIsSpace(if n < |s| then s[n] else 0);
    if i < n { BlankIsSpace(s[i]); }
  }

  lemma FirstWord(first: Text, rest: Text)
    requires first != [] && NoBlank(first) && (rest != [] ==> Blank(rest[0]))
    ensures Words(first + rest) == [first] + Words(rest)
  {
    var s := first + rest;
    FirstAt(s, false, 0);
    FirstAt(s, true, |first|);
    assert s[0..] == s && s[..|first|] == first && s[|first|..] == rest;
  }

  lemma GapIsSkipped(gap: Text, s: Text)
    requires AllBlank(gap) && (s != [] ==> !Blank(s[0]))
    ensures Words(gap + s) == Words(s)
  {
    FirstAt(gap + s, false, |gap|);
    FirstAt(s, false, 0);
    assert (gap + s)[|gap|..] == s && s[0..] == s;
  }

  /** A hosts line of two words or more. */
  lemma SecondWord(first: Text, gap: Text, d: Text, rest: Text)
    requires first != [] && NoBlank(first) && gap != [] && AllBlank(gap)
    requires d != [] && NoBlank(d) && (rest != [] ==> Blank(rest[0]))
    ensures |Words(first + (gap + (d + rest)))| > 1 && Words(first + (gap + (d + rest)))[1] == d
  {
    FirstWord(first, gap + (d + rest));
    GapIsSkipped(gap, d + rest);
    FirstWord(d, rest);
  }

  lemma OnlyWord(first: Text)
    requires first != [] && NoBlank(first)
    ensures |Words(first)| == 1
  {
    FirstWord(first, []);
    assert first + [] == first && Words([]) == [];
  }

  // ----- the four kinds of line -----

  /**
   A hosts line adds its second word and nothing else: blanks, an address, anything up to the next blank,
   blanks, the name, and behind it nothing or a blank and any text.
   */
  lemma HostsLine(lead: Text, host: Text, more: Text, gap: Text, d: Text, rest: Text)
    requires AllBlank(lead) && IsHost(host) && NoBlank(more) && gap != [] && AllBlank(gap)
    requires d != [] && NoBlank(d) && (rest != [] ==> Blank(rest[0]))
    ensures var line := lead + (host + more + (gap + (d + rest)));
            LineEntry(line) == EntryOf(Normalize(d)) && IsRowOf(d, ParseDomainLine(line))
  {
    var first := host + more;
    var line := lead + (first + (gap + (d + rest)));
    var body := first + (gap + d);
    assert first + (gap + (d + rest)) == body + rest && body[|body| - 1] == d[|d| - 1] && body[0] == host[0];
    TrimLead(lead, body + rest);
    var kept := TrimTail(body, rest);
    assert Trim(line) == body + kept == first + (gap + (d + kept));
    assert kept != [] ==> kept[0] == rest[0];
    SecondWord(first, gap, d, kept);
    HostStarts(host, more, gap + (d + kept));
    TrimmedWord(d);
    WordGivesRow(line, d);
  }

  lemma HostStarts(host: Text, more: Text, rest: Text)
    requires IsHost(host)
    ensures var s := host + more + rest; (StartsWith(s, ANY_HOST) || StartsWith(s, LOOPBACK)) && s[0] != HASH
  {
    assert (host + more + rest)[..|host|] == host;
  }

  lemma NoWordTaken(line: Text)
    requires Trim(line) != [] && Trim(HostsPart(Trim(line))) == []
    ensures DomainPart(line) == [] && LineEntry(line) == Nothing && ParseDomainLine(line) == None
  {
    var normalized := ToLower(TrimEndDots([]));
    assert normalized == [] && !ValidName([]);
  }

  lemma TrimsToFirst(lead: Text, first: Text, trail: Text)
    requires AllBlank(lead) && first != [] && NoBlank(first) && AllBlank(trail)
    ensures Trim(lead + (first + trail)) == first
  {
    TrimLead(lead, first + trail);
    var kept := TrimTail(first, trail);
  }

  lemma OneWordHosts(host: Text, more: Text)
    requires IsHost(host) && NoBlank(host + more)
    ensures HostsPart(host + more) == [] && host + more != []
  {
    OnlyWord(host + more);
    HostStarts(host, more, []);
    assert host + more + [] == host + more;
  }

  /** A hosts line without a second word adds nothing. */
  lemma HostsLineAlone(lead: Text, host: Text, more: Text, trail: Text)
    requires AllBlank(lead) && IsHost(host) && NoBlank(more) && AllBlank(trail)
    ensures var line := lead + (host + more + trail);
            LineEntry(line) == Nothing && ParseDomainLine(line) == None
  {
    TrimsToFirst(lead, host + more, trail);
    OneWordHosts(host, more);
    NoWordTaken(lead + (host + more + trail));
  }

  /** Any other line but a comment adds the whole text between its blanks. */
  lemma OtherLine(lead: Text, d: Text, trail: Text)
    requires AllBlank(lead) && AllBlank(trail) && d != [] && !Blank(d[0]) && !Blank(d[|d| - 1]) && d[0] != 35
    requires forall host :: IsHost(host) ==> !(host <= d)
    ensures var line := lead + (d + trail);
            LineEntry(line) == EntryOf(Normalize(d)) && IsRowOf(d, ParseDomainLine(line))
  {
    var line := lead + (d + trail);
    TrimLead(lead, d + trail);
    var kept := TrimTail(d, trail);
    assert Trim(line) == d;
    assert IsHost(ANY_HOST) && IsHost(LOOPBACK);
    TrimmedWord(d);
    WordGivesRow(line, d);
  }

  lemma NothingTaken(line: Text)
    requires Trim(line) == [] || Trim(line)[0] == 35
    ensures LineEntry(line) == Nothing && ParseDomainLine(line) == None
  {
  }

  lemma CommentKeepsSign(lead: Text, comment: Text)
    requires AllBlank(lead) && comment != [] && comment[0] == 35
    ensures Trim(lead + comment) != [] && Trim(lead + comment)[0] == 35
  {
    TrimLead(lead, comment);
    var kept := TrimTail([comment[0]], comment[1..]);
    assert [comment[0]] + comment[1..] == comment;
  }

  /** Comments and blank lines add nothing. */
  lemma CommentOrBlankLine(lead: Text, comment: Text)
    requires AllBlank(lead) && (comment != [] ==> comment[0] == 35)
    ensures LineEntry(lead + comment) == Nothing && ParseDomainLine(lead + comment) == None
  {
    if comment != [] {
      CommentKeepsSign(lead, comment);
    } else {
      TrimLead(lead, comment);
    }
    NothingTaken(lead + comment);
  }
}
