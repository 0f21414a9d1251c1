/** Parsing an encoded message recovers what the message says. */
module DnsRoundTrips {
  import opened Bytes
  import opened Lines
  import opened DnsWire
  import opened DnsMessages
  import M = Manifests

  // ----- what a probe should report of a message -----

  // Record types and codes are the numbers of the standards: A is 1, SOA 6, OPT 41, RRSIG 46, class IN 1 and
  // the extended error option 15.

  /** An extended-error option with room for its code. */
  predicate IsEde(o: EdnsOption) {
    o.code == 15 && |o.data| >= 2
  }

  /** The code of the last extended error among the options from `i` on. */
  function LastEde(os: seq<EdnsOption>, i: nat, was: Option<u16>): Option<u16>
    requires i <= |os|
    decreases |os| - i
  {
    if i == |os| then was
    else LastEde(os, i + 1, if IsEde(os[i]) then Some(U16At(os[i].data, 0)) else was)
  }

  predicate IsRoot(n: Name) {
    n.labels == [] && n.pointer.None?
  }

  function Noticed(r: Record, index: nat, s: Sections, f: Found): Found
    requires s.InAuthority(index) && r.kind == 6 ==> r.data.Soa?
    requires s.InAdditional(index) && r.kind == 41 ==> r.data.Edns?
  {
    var g := f.(hasSoa := f.hasSoa || r.kind == 6);
    var h := if s.InAuthority(index) && r.kind == 6
             then g.(soaOwnerRoot := IsRoot(r.owner), soaTtl := Some(r.ttl), soaMinimum := Some(r.data.minimum))
             else g;
    var k := h.(hasRrsig := h.hasRrsig || r.kind == 46);
    if s.InAdditional(index) && r.kind == 41
    then k.(hasOpt := true, ede := LastEde(r.data.options, 0, k.ede))
    else k
  }

  /** Authority SOA records hold SOA data and additional OPT records hold options. */
  ghost predicate Typed(rs: seq<Record>, s: Sections) {
    var soas := forall i :: 0 <= i < |rs| && s.InAuthority(i) && rs[i].kind == 6 ==> rs[i].data.Soa?;
    var opts := forall i :: 0 <= i < |rs| && s.InAdditional(i) && rs[i].kind == 41 ==> rs[i].data.Edns?;
    |rs| == s.Total() && AllValid(rs) && soas && opts
  }

  ghost function NoticedFrom(rs: seq<Record>, i: nat, s: Sections, f: Found): Found
    requires i <= |rs| && Typed(rs, s)
    decreases |rs| - i
  {
    if i == |rs| then f else NoticedFrom(rs, i + 1, s, Noticed(rs[i], i, s, f))
  }

  // ----- one record -----

  lemma {:induction false} ScansEncoded(
    b: Text, o: nat, end: nat, os: seq<EdnsOption>, tail: Text, i: nat, was: Option<u16>)
    requires i <= |os| && (forall k :: 0 <= k < |os| ==> |os[k].data| < 0x1_0000) && |tail| < 4
    requires Occurs(b, o, EncodeOptions(os, i) + tail) && end == o + |EncodeOptions(os, i)| + |tail|
    ensures ScanOptions(b, o, end, was) == Ok(LastEde(os, i, was))
    decreases |os| - i
  {
    if i == |os| {
    } else {
      var data, rest := os[i].data, EncodeOptions(os, i + 1) + tail;
      assert EncodeOptions(os, i) + tail == Be16(os[i].code) + (Be16(|data|) + (data + rest));
      OccursParts(b, o, Be16(os[i].code), Be16(|data|) + (data + rest));
      OccursParts(b, o + 2, Be16(|data|), data + rest);
      OccursParts(b, o + 4, data, rest);
      Be16At(b, o, os[i].code);
      Be16At(b, o + 2, |data|);
      if |data| >= 2 {
        assert b[o + 4 + 0] == data[0] && b[o + 4 + 1] == data[1];
      }
      ScansEncoded(b, o + 4 + |data|, end, os, tail, i + 1,
                   if IsEde(os[i]) then Some(U16At(data, 0)) else was);
    }
  }

  lemma ReadsEncodedSoa(b: Text, o: nat, end: nat, d: RData)
    requires ValidRData(d) && d.Soa? && Occurs(b, o, EncodeRData(d)) && end == o + |EncodeRData(d)|
    ensures end <= |b| && ReadSoa(b, o, end) == Ok(d.minimum)
  {
    var m, r, last := EncodeName(d.mname), EncodeName(d.rname), d.timers + Be32(d.minimum);
    OccursParts(b, o, m, r + last);
    OccursParts(b, o + |m|, r, last);
    OccursParts(b, o + |m| + |r|, d.timers, Be32(d.minimum));
    SkipsEncodedFrom(b, o, d.mname, 0);
    SkipsEncodedFrom(b, o + |m|, d.rname, 0);
    Be32At(b, o + |m| + |r| + 16, d.minimum);
  }

  lemma RootByte(n: Name)
    requires ValidDnsName(n)
    ensures EncodeName(n)[0] == 0 <==> IsRoot(n)
  {
  }

  ghost function FieldsOf(r: Record, o: nat): Fields
    requires ValidRecord(r)
  {
    var data := o + |EncodeName(r.owner)| + 10;
    Fields(IsRoot(r.owner), r.kind, r.dnsClass, r.ttl, data, data + |EncodeRData(r.data)|)
  }

  lemma ReadsEncodedFields(b: Text, o: nat, r: Record)
    requires ValidRecord(r) && Occurs(b, o, EncodeRecord(r))
    ensures ReadFields(b, o) == Ok(FieldsOf(r, o)) && FieldsOf(r, o).end == o + |EncodeRecord(r)|
    ensures Occurs(b, FieldsOf(r, o).data, EncodeRData(r.data))
  {
    var name, data := EncodeName(r.owner), EncodeRData(r.data);
    var p := o + |name|;
    OccursParts(b, o, name, Be16(r.kind) + (Be16(r.dnsClass) + (Be32(r.ttl) + (Be16(|data|) + data))));
    OccursParts(b, p, Be16(r.kind), Be16(r.dnsClass) + (Be32(r.ttl) + (Be16(|data|) + data)));
    OccursParts(b, p + 2, Be16(r.dnsClass), Be32(r.ttl) + (Be16(|data|) + data));
    OccursParts(b, p + 4, Be32(r.ttl), Be16(|data|) + data);
    OccursParts(b, p + 8, Be16(|data|), data);
    SkipsEncodedFrom(b, o, r.owner, 0);
    RootByte(r.owner);
    assert b[o + 0] == name[0];
    Be16At(b, p, r.kind);
    Be16At(b, p + 2, r.dnsClass);
    Be32At(b, p + 4, r.ttl);
    Be16At(b, p + 8, |data|);
  }

  lemma NotesEncodedRecord(b: Text, o: nat, r: Record, index: nat, s: Sections, f: Found)
    requires ValidRecord(r) && FieldsOf(r, o).end <= |b|
    requires Occurs(b, FieldsOf(r, o).data, EncodeRData(r.data))
    requires s.InAuthority(index) && r.kind == 6 ==> r.data.Soa?
    requires s.InAdditional(index) && r.kind == 41 ==> r.data.Edns?
    ensures Note(b, FieldsOf(r, o), index, s, f) == Ok(Noticed(r, index, s, f))
  {
    var fields := FieldsOf(r, o);
    if s.InAuthority(index) && r.kind == 6 {
      ReadsEncodedSoa(b, fields.data, fields.end, r.data);
    }
    if s.InAdditional(index) && r.kind == 41 {
      ScansEncoded(b, fields.data, fields.end, r.data.options, r.data.tail, 0, f.ede);
    }
  }

  lemma ReadsEncodedRecord(b: Text, o: nat, next: nat, r: Record, index: nat, s: Sections, f: Found)
    requires ValidRecord(r) && Occurs(b, o, EncodeRecord(r)) && next == o + |EncodeRecord(r)| && index < s.Total()
    requires s.InAuthority(index) && r.kind == 6 ==> r.data.Soa?
    requires s.InAdditional(index) && r.kind == 41 ==> r.data.Edns?
    ensures ReadRecords(b, o, index, s, f) == ReadRecords(b, next, index + 1, s, Noticed(r, index, s, f))
  {
    ReadsEncodedFields(b, o, r);
    NotesEncodedRecord(b, o, r, index, s, f);
  }

  // ----- whole messages -----

  /** Where the `k`-th part starts, the first one starting at `o`. */
  function PartOffset(parts: seq<Text>, o: nat, k: nat): nat
    requires k <= |parts|
  {
    if k == 0 then o else PartOffset(parts, o, k - 1) + |parts[k - 1]|
  }

  lemma {:induction false} PartOccurs(b: Text, o: nat, parts: seq<Text>, k: nat)
    requires k <= |parts| && Occurs(b, o, Concat(parts, 0))
    ensures Occurs(b, PartOffset(parts, o, k), Concat(parts, k))
    ensures k < |parts| ==> Occurs(b, PartOffset(parts, o, k), parts[k])
  {
    if k == 0 {
    } else {
      PartOccurs(b, o, parts, k - 1);
      OccursParts(b, PartOffset(parts, o, k - 1), parts[k - 1], Concat(parts, k));
    }
    if k < |parts| {
      OccursParts(b, PartOffset(parts, o, k), parts[k], Concat(parts, k + 1));
    }
  }

  /** Reading the `k`-th record moves on to the next one and notices what the record says. */
  ghost predicate RecordStep(b: Text, at: nat -> nat, rs: seq<Record>, s: Sections, k: nat, f: Found)
    requires Typed(rs, s) && k < |rs|
  {
    ReadRecords(b, at(k), k, s, f) == ReadRecords(b, at(k + 1), k + 1, s, Noticed(rs[k], k, s, f))
  }

  lemma {:induction false} RecordsChain(b: Text, at: nat -> nat, rs: seq<Record>, i: nat, s: Sections, f: Found)
    requires i <= |rs| && Typed(rs, s) && forall k, g :: 0 <= k < |rs| ==> RecordStep(b, at, rs, s, k, g)
    ensures ReadRecords(b, at(i), i, s, f) == Ok(NoticedFrom(rs, i, s, f))
    decreases |rs| - i
  {
    if i == |rs| {
    } else {
      assert RecordStep(b, at, rs, s, i, f);
      RecordsChain(b, at, rs, i + 1, s, Noticed(rs[i], i, s, f));
    }
  }

  lemma RecordStepHolds(
    b: Text, o: nat, at: nat -> nat, parts: seq<Text>, rs: seq<Record>, k: nat, s: Sections, f: Found)
    requires Typed(rs, s) && Encodes(parts, rs) && Occurs(b, o, Concat(parts, 0)) && k < |parts|
    requires at(k) == PartOffset(parts, o, k) && at(k + 1) == PartOffset(parts, o, k + 1)
    ensures RecordStep(b, at, rs, s, k, f)
  {
    PartOccurs(b, o, parts, k);
    assert EncodesRecord(parts[k], rs[k]);
    ReadsEncodedRecord(b, at(k), at(k + 1), rs[k], k, s, f);
  }

  lemma ReadsEncodedRecords(b: Text, o: nat, parts: seq<Text>, rs: seq<Record>, s: Sections, f: Found)
    requires Typed(rs, s) && Encodes(parts, rs) && Occurs(b, o, Concat(parts, 0))
    ensures ReadRecords(b, o, 0, s, f) == Ok(NoticedFrom(rs, 0, s, f))
  {
    var at := (k: nat) => if k <= |parts| then PartOffset(parts, o, k) else 0;
    forall k, g | 0 <= k < |rs| ensures RecordStep(b, at, rs, s, k, g) {
      RecordStepHolds(b, o, at, parts, rs, k, s, g);
    }
    RecordsChain(b, at, rs, 0, s, f);
  }

  lemma {:induction false} SkipsEncodedQuestions(b: Text, o: nat, qs: seq<Question>, i: nat)
    requires i <= |qs| && (forall k :: 0 <= k < |qs| ==> ValidDnsName(qs[k].name))
    requires Occurs(b, o, EncodeQuestions(qs, i))
    ensures SkipQuestions(b, o, |qs| - i) == Ok(o + |EncodeQuestions(qs, i)|)
    decreases |qs| - i
  {
    if i == |qs| {
    } else {
      var q := qs[i];
      OccursParts(b, o, EncodeQuestion(q), EncodeQuestions(qs, i + 1));
      OccursParts(b, o, EncodeName(q.name), Be16(q.kind) + Be16(q.dnsClass));
      SkipsEncodedFrom(b, o, q.name, 0);
      SkipsEncodedQuestions(b, o + |EncodeQuestion(q)|, qs, i + 1);
    }
  }

  lemma MessageIsTyped(m: Message)
    requires ValidMessage(m)
    ensures Typed(m.Records(), Counts(m))
  {
  }

  lemma HeaderFields(b: Text, id: u16, flags: u16, questions: u16, s: Sections)
    requires Occurs(b, 0, EncodeHeader(id, flags, questions, s))
    ensures |b| >= HEADER && U16At(b, 2) == flags && U16At(b, 4) == questions && SectionsAt(b) == s
  {
    var h := EncodeHeader(id, flags, questions, s);
    assert forall k :: 0 <= k < HEADER ==> b[0 + k] == h[k];
    assert h[2] == flags / 256 && h[3] == flags % 256 && h[4] == questions / 256 && h[5] == questions % 256;
    assert h[6] == s.answers / 256 && h[7] == s.answers % 256;
    assert h[8] == s.authorities / 256 && h[9] == s.authorities % 256;
    assert h[10] == s.additionals / 256 && h[11] == s.additionals % 256;
  }

  /** The parts of a message stand where the parsers look for them. */
  ghost predicate Holds(b: Text, m: Message)
    requires ValidMessage(m)
  {
    && |b| >= HEADER
    && var header := U16At(b, 2) == m.flags && U16At(b, 4) == |m.questions| && SectionsAt(b) == Counts(m);
       var questions := Occurs(b, HEADER, EncodeQuestions(m.questions, 0));
       var records := Occurs(b, HEADER + |EncodeQuestions(m.questions, 0)|, EncodeRecords(m.Records()));
       header && questions && records
  }

  lemma OccursThreeParts(b: Text, h: Text, q: Text, r: Text)
    requires Occurs(b, 0, h + (q + r))
    ensures Occurs(b, 0, h) && Occurs(b, |h|, q) && Occurs(b, |h| + |q|, r)
  {
    OccursParts(b, 0, h, q + r);
    OccursParts(b, |h|, q, r);
  }

  lemma HoldsAt(b: Text, m: Message)
    requires ValidMessage(m) && Occurs(b, 0, EncodeMessage(m))
    ensures Holds(b, m)
  {
    OccursThreeParts(b, EncodeHeader(m.id, m.flags, |m.questions|, Counts(m)),
                     EncodeQuestions(m.questions, 0), EncodeRecords(m.Records()));
    HeaderFields(b, m.id, m.flags, |m.questions|, Counts(m));
  }

  lemma OccursAtStart(part: Text, after: Text)
    ensures Occurs(part + after, 0, part)
  {
  }

  lemma ReadsEncodedHeader(m: Message, after: Text)
    requires ValidMessage(m)
    ensures Holds(EncodeMessage(m) + after, m)
  {
    OccursAtStart(EncodeMessage(m), after);
    HoldsAt(EncodeMessage(m) + after, m);
  }

  ghost function Report(m: Message): Probe
    requires ValidMessage(m) && Typed(m.Records(), Counts(m))
  {
    Probe(m.flags % 16, m.flags, Counts(m), NoticedFrom(m.Records(), 0, Counts(m), NoneFound()))
  }

  lemma ParsesEncodedBody(b: Text, qs: seq<Question>, parts: seq<Text>, rs: seq<Record>, s: Sections)
    requires |b| >= HEADER && Typed(rs, s) && forall k :: 0 <= k < |qs| ==> ValidDnsName(qs[k].name)
    requires Occurs(b, HEADER, EncodeQuestions(qs, 0))
    requires Encodes(parts, rs) && Occurs(b, HEADER + |EncodeQuestions(qs, 0)|, Concat(parts, 0))
    ensures ParseBody(b, |qs|, s) == Ok(NoticedFrom(rs, 0, s, NoneFound()))
  {
    SkipsEncodedQuestions(b, HEADER, qs, 0);
    ReadsEncodedRecords(b, HEADER + |EncodeQuestions(qs, 0)|, parts, rs, s, NoneFound());
  }

  lemma ParsesHeld(b: Text, m: Message)
    requires ValidMessage(m) && Typed(m.Records(), Counts(m)) && Holds(b, m)
    ensures ParseProbe(b) == Ok(Report(m))
  {
    ParsesEncodedBody(b, m.questions, EncodedRecords(m.Records()), m.Records(), Counts(m));
  }

  /** Parsing an encoded message, with anything after it, reports exactly what the message says. */
  lemma ProbeRoundTrip(m: Message, after: Text)
    requires ValidMessage(m)
    ensures Typed(m.Records(), Counts(m)) && ParseProbe(EncodeMessage(m) + after) == Ok(Report(m))
  {
    MessageIsTyped(m);
    ReadsEncodedHeader(m, after);
    ParsesHeld(EncodeMessage(m) + after, m);
  }

  /** A report flags an SOA or RRSIG record exactly if one is anywhere. */
  lemma {:induction false} ReportedTypes(rs: seq<Record>, i: nat, s: Sections, f: Found)
    requires i <= |rs| && Typed(rs, s)
    ensures var g := NoticedFrom(rs, i, s, f);
            && (g.hasSoa <==> f.hasSoa || exists k :: i <= k < |rs| && rs[k].kind == 6)
            && (g.hasRrsig <==> f.hasRrsig || exists k :: i <= k < |rs| && rs[k].kind == 46)
    decreases |rs| - i
  {
    if i == |rs| {
    } else {
      ReportedTypes(rs, i + 1, s, Noticed(rs[i], i, s, f));
    }
  }

  /** A report flags an OPT record exactly if one is among the additional records. */
  lemma {:induction false} ReportedOpt(rs: seq<Record>, i: nat, s: Sections, f: Found)
    requires i <= |rs| && Typed(rs, s)
    ensures NoticedFrom(rs, i, s, f).hasOpt <==>
              f.hasOpt || exists k :: i <= k < |rs| && s.InAdditional(k) && rs[k].kind == 41
    decreases |rs| - i
  {
    if i == |rs| {
    } else {
      ReportedOpt(rs, i + 1, s, Noticed(rs[i], i, s, f));
    }
  }

  /** The reported SOA is the last one of the authority section. */
  lemma {:induction false} ReportedSoa(rs: seq<Record>, i: nat, s: Sections, f: Found, last: nat)
    requires i <= |rs| && Typed(rs, s)
    requires last < |rs| ==> i <= last && s.InAuthority(last) && rs[last].kind == 6
    requires forall k :: i <= k < |rs| && s.InAuthority(k) && rs[k].kind == 6 ==> k <= last < |rs|
    ensures var g := NoticedFrom(rs, i, s, f);
            if last < |rs| then
              && g.soaOwnerRoot == IsRoot(rs[last].owner)
              && g.soaTtl == Some(rs[last].ttl) && g.soaMinimum == Some(rs[last].data.minimum)
            else
              g.soaOwnerRoot == f.soaOwnerRoot && g.soaTtl == f.soaTtl && g.soaMinimum == f.soaMinimum
    decreases |rs| - i
  {
    if i == |rs| {
    } else {
      if i == last {
        ReportedSoa(rs, i + 1, s, Noticed(rs[i], i, s, f), |rs|);
      } else {
        ReportedSoa(rs, i + 1, s, Noticed(rs[i], i, s, f), last);
      }
    }
  }

  /** An additional OPT record with an extended error among its options. */
  ghost predicate CarriesEde(r: Record, index: nat, s: Sections) {
    && s.InAdditional(index) && r.kind == 41 && r.data.Edns?
    && exists j :: 0 <= j < |r.data.options| && IsEde(r.data.options[j])
  }

  lemma {:induction false} LastEdePresent(os: seq<EdnsOption>, i: nat, was: Option<u16>)
    requires i <= |os|
    ensures LastEde(os, i, was).Some? <==> was.Some? || exists j :: i <= j < |os| && IsEde(os[j])
    decreases |os| - i
  {
    if i == |os| {
    } else {
      LastEdePresent(os, i + 1, if IsEde(os[i]) then Some(U16At(os[i].data, 0)) else was);
    }
  }

  lemma {:induction false} LastEdeIs(os: seq<EdnsOption>, i: nat, was: Option<u16>, last: nat)
    requires i <= |os| && (last < |os| ==> i <= last && IsEde(os[last]))
    requires forall j :: i <= j < |os| && IsEde(os[j]) ==> j <= last < |os|
    ensures LastEde(os, i, was) == if last < |os| then Some(U16At(os[last].data, 0)) else was
    decreases |os| - i
  {
    if i == |os| {
    } else {
      var now := if IsEde(os[i]) then Some(U16At(os[i].data, 0)) else was;
      LastEdeIs(os, i + 1, now, if i == last then |os| else last);
    }
  }

  /** A report holds an extended error exactly if an additional OPT record carries one. */
  lemma {:induction false} ReportedEdePresent(rs: seq<Record>, i: nat, s: Sections, f: Found)
    requires i <= |rs| && Typed(rs, s)
    ensures NoticedFrom(rs, i, s, f).ede.Some? <==>
              f.ede.Some? || exists k :: i <= k < |rs| && CarriesEde(rs[k], k, s)
    decreases |rs| - i
  {
    if i == |rs| {
    } else {
      var r := rs[i];
      if s.InAdditional(i) && r.kind == 41 {
        LastEdePresent(r.data.options, 0, f.ede);
      }
      ReportedEdePresent(rs, i + 1, s, Noticed(r, i, s, f));
    }
  }

  /** The reported code is that of the last extended error of the last record that carries one. */
  lemma {:induction false} ReportedEde(rs: seq<Record>, i: nat, s: Sections, f: Found, last: nat, j: nat)
    requires i <= |rs| && Typed(rs, s)
    requires last < |rs| ==>
               && i <= last && CarriesEde(rs[last], last, s)
               && j < |rs[last].data.options| && IsEde(rs[last].data.options[j])
               && forall k :: j < k < |rs[last].data.options| ==> !IsEde(rs[last].data.options[k])
    requires forall k :: i <= k < |rs| && CarriesEde(rs[k], k, s) ==> k <= last < |rs|
    ensures NoticedFrom(rs, i, s, f).ede ==
              if last < |rs| then Some(U16At(rs[last].data.options[j].data, 0)) else f.ede
    decreases |rs| - i
  {
    if i == |rs| {
    } else {
      var r := rs[i];
      var g := Noticed(r, i, s, f);
      if s.InAdditional(i) && r.kind == 41 {
        if i == last {
          LastEdeIs(r.data.options, 0, f.ede, j);
        } else if !CarriesEde(r, i, s) {
          LastEdeIs(r.data.options, 0, f.ede, |r.data.options|);
        }
      }
      ReportedEde(rs, i + 1, s, g, if i == last then |rs| else last, j);
    }
  }

  // ----- addresses -----

  /** The address of an IN A record. */
  ghost function AddressOf(r: Record): seq<Ipv4>
    requires ValidRecord(r)
  {
    var data := EncodeRData(r.data);
    if r.kind == 1 && r.dnsClass == 1 && |data| == 4 then [Ipv4At(data, 0)] else []
  }

  /** What each record adds to the addresses. */
  ghost function AddressesOf(rs: seq<Record>): (found: seq<seq<Ipv4>>)
    requires AllValid(rs)
    ensures |found| == |rs| && forall i :: 0 <= i < |rs| ==> found[i] == AddressOf(rs[i])
  {
    seq(|rs|, i requires 0 <= i < |rs| && ValidRecord(rs[i]) => AddressOf(rs[i]))
  }

  /** The given addresses and those found from `i` up to `n`, in order. */
  function Gathered(found: seq<seq<Ipv4>>, i: nat, n: nat, ips: seq<Ipv4>): seq<Ipv4>
    requires i <= n <= |found|
    decreases n - i
  {
    if i == n then ips else Gathered(found, i + 1, n, ips + found[i])
  }

  lemma ReadsEncodedAddress(b: Text, o: nat, r: Record)
    requires ValidRecord(r) && Occurs(b, o, EncodeRecord(r))
    ensures ReadFields(b, o) == Ok(FieldsOf(r, o)) && FieldsOf(r, o).end == o + |EncodeRecord(r)| <= |b|
    ensures Address(b, FieldsOf(r, o)) == AddressOf(r)
  {
    ReadsEncodedFields(b, o, r);
    var at, data := FieldsOf(r, o).data, EncodeRData(r.data);
    if |data| == 4 {
      assert b[at + 0] == data[0] && b[at + 1] == data[1] && b[at + 2] == data[2] && b[at + 3] == data[3];
    }
  }

  lemma ReadsEncodedAnswer(b: Text, o: nat, next: nat, r: Record, i: nat, n: nat, ips: seq<Ipv4>, found: seq<Ipv4>)
    requires ValidRecord(r) && Occurs(b, o, EncodeRecord(r)) && next == o + |EncodeRecord(r)| && i < n
    requires found == AddressOf(r)
    ensures ReadAnswers(b, o, i, n, ips) == ReadAnswers(b, next, i + 1, n, ips + found)
  {
    ReadsEncodedAddress(b, o, r);
  }

  ghost predicate AnswerStep(b: Text, at: nat -> nat, found: seq<seq<Ipv4>>, n: nat, k: nat, ips: seq<Ipv4>)
    requires k < n <= |found|
  {
    ReadAnswers(b, at(k), k, n, ips) == ReadAnswers(b, at(k + 1), k + 1, n, ips + found[k])
  }

  lemma {:induction false} AnswersChain(b: Text, at: nat -> nat, found: seq<seq<Ipv4>>, i: nat, n: nat, ips: seq<Ipv4>)
    requires i <= n <= |found| && forall k, more :: 0 <= k < n ==> AnswerStep(b, at, found, n, k, more)
    ensures ReadAnswers(b, at(i), i, n, ips) == Ok(Gathered(found, i, n, ips))
    decreases n - i
  {
    if i == n {
    } else {
      assert AnswerStep(b, at, found, n, i, ips);
      AnswersChain(b, at, found, i + 1, n, ips + found[i]);
    }
  }

  lemma AnswerStepHolds(b: Text, o: nat, at: nat -> nat, parts: seq<Text>, rs: seq<Record>, found: seq<seq<Ipv4>>,
                        n: nat, k: nat, ips: seq<Ipv4>)
    requires Encodes(parts, rs) && Occurs(b, o, Concat(parts, 0)) && k < n <= |parts| && |found| == |rs|
    requires at(k) == PartOffset(parts, o, k) && at(k + 1) == PartOffset(parts, o, k + 1)
    requires ValidRecord(rs[k]) && found[k] == AddressOf(rs[k])
    ensures AnswerStep(b, at, found, n, k, ips)
  {
    PartOccurs(b, o, parts, k);
    assert EncodesRecord(parts[k], rs[k]);
    ReadsEncodedAnswer(b, at(k), at(k + 1), rs[k], k, n, ips, found[k]);
  }

  lemma ReadsEncodedAnswers(b: Text, o: nat, parts: seq<Text>, rs: seq<Record>, n: nat)
    requires n <= |rs| && AllValid(rs) && Encodes(parts, rs) && Occurs(b, o, Concat(parts, 0))
    ensures ReadAnswers(b, o, 0, n, []) == Ok(Gathered(AddressesOf(rs), 0, n, []))
  {
    var at := (k: nat) => if k <= |parts| then PartOffset(parts, o, k) else 0;
    var found := AddressesOf(rs);
    forall k, ips | 0 <= k < n ensures AnswerStep(b, at, found, n, k, ips) {
      AnswerStepHolds(b, o, at, parts, rs, found, n, k, ips);
    }
    AnswersChain(b, at, found, 0, n, []);
  }

  lemma LowNibble(b: Text)
    requires |b| >= HEADER
    ensures U16At(b, 2) % 16 == b[3] as int % 16
  {
  }

  lemma ParsesEncodedAnswers(b: Text, qs: seq<Question>, parts: seq<Text>, rs: seq<Record>, n: nat)
    requires |b| >= HEADER && AllValid(rs) && n <= |rs| && forall k :: 0 <= k < |qs| ==> ValidDnsName(qs[k].name)
    requires Occurs(b, HEADER, EncodeQuestions(qs, 0))
    requires Encodes(parts, rs) && Occurs(b, HEADER + |EncodeQuestions(qs, 0)|, Concat(parts, 0))
    ensures ParseAnswers(b, |qs|, n) == Ok(Gathered(AddressesOf(rs), 0, n, []))
  {
    SkipsEncodedQuestions(b, HEADER, qs, 0);
    ReadsEncodedAnswers(b, HEADER + |EncodeQuestions(qs, 0)|, parts, rs, n);
  }

  lemma AddressesParse(b: Text, flags: u16, questions: u16, answers: u16, ips: seq<Ipv4>)
    requires |b| >= HEADER && U16At(b, 2) == flags && U16At(b, 4) == questions && U16At(b, 6) == answers
    requires ParseAnswers(b, questions, answers) == Ok(ips)
    ensures ParseAddresses(b) ==
              if flags % 16 == 0 || flags % 16 == 3 then Ok(Join(AllDotted(ips))) else Err(Rcode(flags % 16))
  {
    LowNibble(b);
  }

  lemma AddressesHeld(b: Text, m: Message)
    requires ValidMessage(m) && Holds(b, m)
    ensures ParseAddresses(b) ==
              if m.flags % 16 == 0 || m.flags % 16 == 3
              then Ok(Join(AllDotted(Gathered(AddressesOf(m.Records()), 0, |m.answers|, []))))
              else Err(Rcode(m.flags % 16))
  {
    assert SectionsAt(b).answers == U16At(b, 6);
    ParsesEncodedAnswers(b, m.questions, EncodedRecords(m.Records()), m.Records(), |m.answers|);
    AddressesParse(b, m.flags, |m.questions|, |m.answers|, Gathered(AddressesOf(m.Records()), 0, |m.answers|, []));
  }

  /** A message with code NOERROR or NXDOMAIN yields its addresses one per line; any other code is an error. */
  lemma AddressesRoundTrip(m: Message, after: Text)
    requires ValidMessage(m)
    ensures ParseAddresses(EncodeMessage(m) + after) ==
              if m.flags % 16 == 0 || m.flags % 16 == 3
              then Ok(Join(AllDotted(Gathered(AddressesOf(m.Records()), 0, |m.answers|, []))))
              else Err(Rcode(m.flags % 16))
  {
    ReadsEncodedHeader(m, after);
    AddressesHeld(EncodeMessage(m) + after, m);
  }

  // ----- the query packet -----

  /** The query a probe sends, as a message: one question and one empty OPT record. */
  function ProbeQuery(labels: seq<Text>, kind: u16, dnsClass: u16, flags: u16, edns: u16): Message {
    Message(0x5243, flags, [Question(Name(labels, None), kind, dnsClass)], [], [],
            [Record(Name([], None), 41, 1232, edns, Edns([], []))])
  }

  lemma ProbeQueryIsValid(labels: seq<Text>, kind: u16, dnsClass: u16, flags: u16, edns: u16)
    requires ValidLabels(labels)
    ensures ValidMessage(ProbeQuery(labels, kind, dnsClass, flags, edns))
  {
  }

  /** Builds the packet field by field; it is the encoding of the query message. */
  method BuildProbe(host: Text, domain: Text, kind: u16, dnsClass: u16, flags: u16, edns: u16) returns (r: Result<Text>)
    ensures host == [] || domain == [] ==> r == Err(MissingHostOrDomain)
    ensures host != [] && domain != [] ==> (r.Ok? <==> ValidLabels(LabelsOf(domain)))
    ensures r.Ok? ==>
              && ValidMessage(ProbeQuery(LabelsOf(domain), kind, dnsClass, flags, edns))
              && r.value == EncodeMessage(ProbeQuery(LabelsOf(domain), kind, dnsClass, flags, edns))
  {
    if host == [] || domain == [] {
      return Err(MissingHostOrDomain);
    }
    var packet := Be16(0x5243) + Be16(flags) + Be16(1) + Be16(0) + Be16(0) + Be16(1);
    var named := EncodeDnsName(packet, domain);
    if named.Err? {
      return named;
    }
    packet := named.value + Be16(kind) + Be16(dnsClass) + [0] + Be16(41) + Be16(1232) + Be32(edns) + Be16(0);
    ProbeQueryIsValid(LabelsOf(domain), kind, dnsClass, flags, edns);
    PacketIsMessage(LabelsOf(domain), kind, dnsClass, flags, edns);
    return Ok(packet);
  }

  lemma OptRecord(edns: u16)
    ensures ValidRecord(Record(Name([], None), 41, 1232, edns, Edns([], [])))
    ensures EncodeRecord(Record(Name([], None), 41, 1232, edns, Edns([], []))) ==
              [0] + (Be16(41) + (Be16(1232) + (Be32(edns) + Be16(0))))
  {
  }

  lemma OneQuestionOneRecord(q: Question, r: Record)
    requires ValidDnsName(q.name) && ValidRecord(r)
    ensures EncodeQuestions([q], 0) + EncodeRecords([r]) == EncodeQuestion(q) + EncodeRecord(r)
  {
    var parts := EncodedRecords([r]);
    assert EncodesRecord(parts[0], [r][0]);
    assert EncodeQuestions([q], 1) == [] && Concat(parts, 1) == [] && Concat(parts, 0) == parts[0] + Concat(parts, 1);
    assert EncodeQuestion(q) + [] == EncodeQuestion(q) && EncodeRecord(r) + [] == EncodeRecord(r);
  }

  lemma PacketIsMessage(labels: seq<Text>, kind: u16, dnsClass: u16, flags: u16, edns: u16)
    requires ValidLabels(labels) && ValidMessage(ProbeQuery(labels, kind, dnsClass, flags, edns))
    ensures EncodeMessage(ProbeQuery(labels, kind, dnsClass, flags, edns)) ==
              Be16(0x5243) + Be16(flags) + Be16(1) + Be16(0) + Be16(0) + Be16(1) + EncodeName(Name(labels, None))
              + Be16(kind) + Be16(dnsClass) + [0] + Be16(41) + Be16(1232) + Be32(edns) + Be16(0)
  {
    var m := ProbeQuery(labels, kind, dnsClass, flags, edns);
    var h, name := EncodeHeader(0x5243, flags, 1, Sections(0, 0, 1)), EncodeName(Name(labels, None));
    var opt := [0] + (Be16(41) + (Be16(1232) + (Be32(edns) + Be16(0))));
    assert m.Records() == [m.additionals[0]];
    OptRecord(edns);
    OneQuestionOneRecord(m.questions[0], m.additionals[0]);
    assert EncodeMessage(m) == h + (name + (Be16(kind) + Be16(dnsClass)) + opt);
    Flatten(h, name, Be16(kind), Be16(dnsClass), [0], Be16(41), Be16(1232), Be32(edns), Be16(0));
  }

  lemma Flatten(h: Text, n: Text, k: Text, c: Text, z: Text, t: Text, s: Text, f: Text, l: Text)
    ensures h + (n + (k + c) + (z + (t + (s + (f + l))))) == h + n + k + c + z + t + s + f + l
  {
  }

  /** The packet parses as a message with one additional OPT record and nothing else. */
  lemma ProbeQueryParses(labels: seq<Text>, kind: u16, dnsClass: u16, flags: u16, edns: u16)
    requires ValidLabels(labels)
    ensures var m := ProbeQuery(labels, kind, dnsClass, flags, edns);
            && ValidMessage(m)
            && ParseProbe(EncodeMessage(m)) ==
                 Ok(Probe(flags % 16, flags, Sections(0, 0, 1), NoneFound().(hasOpt := true)))
  {
    var m := ProbeQuery(labels, kind, dnsClass, flags, edns);
    ProbeQueryIsValid(labels, kind, dnsClass, flags, edns);
    ProbeRoundTrip(m, []);
    assert EncodeMessage(m) + [] == EncodeMessage(m);
    var rs, s := m.Records(), Counts(m);
    assert rs == [m.additionals[0]];
    assert NoticedFrom(rs, 0, s, NoneFound()) == NoticedFrom(rs, 1, s, Noticed(rs[0], 0, s, NoneFound()));
  }

  lemma OneLetterName(labels: seq<Text>)
    requires labels == [[97]]
    ensures ValidLabels(labels) && EncodeName(Name(labels, None)) == [1, 97, 0]
  {
    var n := Name(labels, None);
    assert EncodeFrom(n, 1) == [0];
    assert EncodeLabel(labels[0]) == [1, 97];
  }

  lemma HeaderBytes()
    ensures Be16(0x5243) + Be16(0x100) + Be16(1) + Be16(0) + Be16(0) + Be16(1) ==
              [0x52, 0x43, 1, 0, 0, 1, 0, 0, 0, 0, 0, 1]
  {
  }

  lemma JoinParts(h: Text, n: Text, k: Text, c: Text, t: Text, s: Text, f: Text, l: Text,
                  h': Text, n': Text, k': Text, t': Text, s': Text, f': Text, l': Text)
    requires h == h' && n == n' && k + c == k' && t == t' && s == s' && f == f' && l == l'
    ensures h + n + k + c + [0] + t + s + f + l == h' + n' + k' + [0] + t' + s' + f' + l'
  {
    assert h + n + k + c == h + n + (k + c);
  }

  /** A query for `a`, type A, class IN, with recursion desired, byte by byte. */
  lemma QueryBytes(labels: seq<Text>)
    requires labels == [[97]]
    ensures ValidMessage(ProbeQuery(labels, 1, 1, 0x100, 0))
    ensures EncodeMessage(ProbeQuery(labels, 1, 1, 0x100, 0)) ==
              [0x52, 0x43, 1, 0, 0, 1, 0, 0, 0, 0, 0, 1] + [1, 97, 0] + [0, 1, 0, 1]
              + [0] + [0, 41] + [4, 208] + [0, 0, 0, 0] + [0, 0]
  {
    OneLetterName(labels);
    ProbeQueryIsValid(labels, 1, 1, 0x100, 0);
    PacketIsMessage(labels, 1, 1, 0x100, 0);
    HeaderBytes();
    JoinParts(Be16(0x5243) + Be16(0x100) + Be16(1) + Be16(0) + Be16(0) + Be16(1), EncodeName(Name(labels, None)),
              Be16(1), Be16(1), Be16(41), Be16(1232), Be32(0), Be16(0),
              [0x52, 0x43, 1, 0, 0, 1, 0, 0, 0, 0, 0, 1], [1, 97, 0], [0, 1, 0, 1], [0, 41], [4, 208],
              [0, 0, 0, 0], [0, 0]);
  }

  /** An address is written as its four bytes in decimal, first byte first, with dots between. */
  lemma AddressText(b: Text, o: nat)
    requires o + 4 <= |b|
    ensures SplitDots(Dotted(Ipv4At(b, o))) ==
              [M.Decimal(b[o]), M.Decimal(b[o + 1]), M.Decimal(b[o + 2]), M.Decimal(b[o + 3])]
  {
    var d0, d1, d2, d3 := M.Decimal(b[o]), M.Decimal(b[o + 1]), M.Decimal(b[o + 2]), M.Decimal(b[o + 3]);
    assert Dotted(Ipv4At(b, o)) == d0 + [46] + (d1 + [46] + (d2 + [46] + d3));
    SplitAtDot(d0, d1 + [46] + (d2 + [46] + d3));
    SplitAtDot(d1, d2 + [46] + d3);
    SplitAtDot(d2, d3);
    SplitNoDot(d3);
  }

  lemma {:induction false} SplitNoDot(part: Text)
    requires forall i :: 0 <= i < |part| ==> part[i] != 46
    ensures SplitDots(part) == [part]
  {
    if part == [] {
    } else {
      SplitNoDot(part[1..]);
      assert part == [part[0]] + part[1..];
    }
  }

  lemma {:induction false} SplitAtDot(part: Text, rest: Text)
    requires forall i :: 0 <= i < |part| ==> part[i] != 46
    ensures SplitDots(part + [46] + rest) == [part] + SplitDots(rest)
  {
    var s := part + [46] + rest;
    if part == [] {
      assert s == [46] + rest && s[1..] == rest;
    } else {
      assert s[1..] == part[1..] + [46] + rest;
      SplitAtDot(part[1..], rest);
      assert part == [part[0]] + part[1..];
    }
  }
}
