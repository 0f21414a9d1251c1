/** The DNS probe's message parsers and query packet, against a reference message encoder. */
module DnsMessages {
  import opened Bytes
  import opened Lines
  import opened DnsWire
  import opened Manifests

  // ----- what a probe reports -----

  datatype Found = Found(
    hasSoa: bool, soaOwnerRoot: bool, soaTtl: Option<u32>, soaMinimum: Option<u32>,
    hasRrsig: bool, hasOpt: bool, ede: Option<u16>)

  function NoneFound(): Found {
    Found(false, false, None, None, false, false, None)
  }

  /** How many records each section announces; a record's section follows from its index. */
  datatype Sections = Sections(answers: u16, authorities: u16, additionals: u16) {
    function Total(): nat { answers + authorities + additionals }
    predicate InAuthority(index: nat) { answers <= index < answers + authorities }
    predicate InAdditional(index: nat) { answers + authorities <= index }
  }

  datatype Probe = Probe(rcode: nat, flags: u16, sections: Sections, found: Found)

  // ----- the parser as a function of the bytes -----

  function SkipQuestions(b: Text, o: nat, n: nat): (r: Result<nat>)
    requires o <= |b|
    ensures r.Ok? ==> o <= r.value <= |b|
    decreases n
  {
    if n == 0 then Ok(o)
    else match SkipName(b, o)
      case Err(e) => Err(e)
      case Ok(p) => if p + 4 > |b| then Err(TruncatedQuestion) else SkipQuestions(b, p + 4, n - 1)
  }

  function ScanOptions(b: Text, o: nat, end: nat, ede: Option<u16>): Result<Option<u16>>
    requires o <= end <= |b|
    decreases end - o
  {
    if o + 4 > end then Ok(ede)
    else
      var code, len := U16At(b, o), U16At(b, o + 2);
      if o + 4 + len > end then Err(TruncatedOption)
      else ScanOptions(b, o + 4 + len, end, if code == OPTION_EDE && len >= 2 then Some(U16At(b, o + 4)) else ede)
  }

  /** The minimum field of an SOA. */
  function ReadSoa(b: Text, o: nat, end: nat): Result<u32>
    requires o <= end <= |b|
  {
    match SkipName(b, o)
    case Err(e) => Err(e)
    case Ok(p) =>
      match SkipName(b, p)
      case Err(e) => Err(e)
      case Ok(q) => if q + 20 != end then Err(InvalidSoa) else Ok(U32At(b, q + 16))
  }

  /** The fixed fields of a record and the bounds of its data. */
  datatype Fields = Fields(root: bool, kind: u16, dnsClass: u16, ttl: u32, data: nat, end: nat)

  function ReadFields(b: Text, o: nat): (r: Result<Fields>)
    ensures r.Ok? ==> o < r.value.data <= r.value.end <= |b|
  {
    var root := o < |b| && b[o] == 0;
    match SkipName(b, o)
    case Err(e) => Err(e)
    case Ok(p) =>
      if p + 10 > |b| then Err(TruncatedRecord)
      else
        var end := p + 10 + U16At(b, p + 8);
        if end > |b| then Err(TruncatedRdata)
        else Ok(Fields(root, U16At(b, p), U16At(b, p + 2), U32At(b, p + 4), p + 10, end))
  }

  function NoteSoa(b: Text, r: Fields, index: nat, s: Sections, f: Found): Result<Found>
    requires r.data <= r.end <= |b|
  {
    var seen := f.(hasSoa := f.hasSoa || r.kind == TYPE_SOA);
    if s.InAuthority(index) && r.kind == TYPE_SOA then
      match ReadSoa(b, r.data, r.end)
      case Err(e) => Err(e)
      case Ok(minimum) => Ok(seen.(soaOwnerRoot := r.root, soaTtl := Some(r.ttl), soaMinimum := Some(minimum)))
    else Ok(seen)
  }

  function NoteOpt(b: Text, r: Fields, index: nat, s: Sections, f: Found): Result<Found>
    requires r.data <= r.end <= |b|
  {
    var seen := f.(hasRrsig := f.hasRrsig || r.kind == TYPE_RRSIG);
    if s.InAdditional(index) && r.kind == TYPE_OPT then
      match ScanOptions(b, r.data, r.end, f.ede)
      case Err(e) => Err(e)
      case Ok(ede) => Ok(seen.(hasOpt := true, ede := ede))
    else Ok(seen)
  }

  function Note(b: Text, r: Fields, index: nat, s: Sections, f: Found): Result<Found>
    requires r.data <= r.end <= |b|
  {
    match NoteSoa(b, r, index, s, f)
    case Err(e) => Err(e)
    case Ok(g) => NoteOpt(b, r, index, s, g)
  }

  function ReadRecords(b: Text, o: nat, index: nat, s: Sections, f: Found): Result<Found>
    requires index <= s.Total()
    decreases s.Total() - index
  {
    if index == s.Total() then Ok(f)
    else match ReadFields(b, o)
      case Err(e) => Err(e)
      case Ok(r) =>
        match Note(b, r, index, s, f)
        case Err(e) => Err(e)
        case Ok(g) => ReadRecords(b, r.end, index + 1, s, g)
  }

  function SectionsAt(b: Text): Sections
    requires |b| >= HEADER
  {
    Sections(U16At(b, 6), U16At(b, 8), U16At(b, 10))
  }

  /** Everything after the header. */
  function ParseBody(b: Text, questions: nat, s: Sections): Result<Found>
    requires |b| >= HEADER
  {
    match SkipQuestions(b, HEADER, questions)
    case Err(e) => Err(e)
    case Ok(o) => ReadRecords(b, o, 0, s, NoneFound())
  }

  function ParseProbe(b: Text): Result<Probe> {
    if |b| < HEADER then Err(ShortResponse)
    else
      var flags := U16At(b, 2);
      match ParseBody(b, U16At(b, 4), SectionsAt(b))
      case Err(e) => Err(e)
      case Ok(f) => Ok(Probe(flags % 16, flags, SectionsAt(b), f))
  }

  datatype Ipv4 = Ipv4(a: byte, b: byte, c: byte, d: byte)

  function Ipv4At(b: Text, o: nat): Ipv4
    requires o + 4 <= |b|
  {
    Ipv4(b[o], b[o + 1], b[o + 2], b[o + 3])
  }

  function Dotted(ip: Ipv4): Text {
    Decimal(ip.a) + [DOT] + Decimal(ip.b) + [DOT] + Decimal(ip.c) + [DOT] + Decimal(ip.d)
  }

  function AllDotted(ips: seq<Ipv4>): (r: seq<Text>)
    ensures |r| == |ips| && forall i :: 0 <= i < |r| ==> r[i] == Dotted(ips[i])
  {
    seq(|ips|, i requires 0 <= i < |ips| => Dotted(ips[i]))
  }

  /** The address an IN A record of four bytes holds. */
  function Address(b: Text, r: Fields): seq<Ipv4>
    requires r.data <= r.end <= |b|
  {
    if r.kind == TYPE_A && r.dnsClass == CLASS_IN && r.end - r.data == 4 then [Ipv4At(b, r.data)] else []
  }

  function ReadAnswers(b: Text, o: nat, index: nat, n: nat, ips: seq<Ipv4>): Result<seq<Ipv4>>
    requires index <= n
    decreases n - index
  {
    if index == n then Ok(ips)
    else match ReadFields(b, o)
      case Err(e) => Err(e)
      case Ok(r) => ReadAnswers(b, r.end, index + 1, n, ips + Address(b, r))
  }

  function ParseAnswers(b: Text, questions: nat, answers: nat): Result<seq<Ipv4>>
    requires |b| >= HEADER
  {
    match SkipQuestions(b, HEADER, questions)
    case Err(e) => Err(e)
    case Ok(o) => ReadAnswers(b, o, 0, answers, [])
  }

  function ParseAddresses(b: Text): Result<Text> {
    if |b| < HEADER then Err(ShortResponse)
    else
      var rcode := b[3] as int % 16;
      if rcode != 0 && rcode != 3 then Err(Rcode(rcode))
      else match ParseAnswers(b, U16At(b, 4), U16At(b, 6))
        case Err(e) => Err(e)
        case Ok(ips) => Ok(Join(AllDotted(ips)))
  }

  /** Which messages and records are refused, and as what. */
  lemma RefusedMessages(b: Text, o: nat, p: nat, end: nat, was: Option<u16>)
    ensures |b| < 12 ==> ParseProbe(b) == Err(ShortResponse) && ParseAddresses(b) == Err(ShortResponse)
    ensures |b| >= 12 && b[3] as int % 16 !in {0, 3} ==> ParseAddresses(b) == Err(Rcode(b[3] as int % 16))
    ensures o <= |b| && SkipName(b, o) == Ok(p) && p + 4 > |b| ==> SkipQuestions(b, o, 1) == Err(TruncatedQuestion)
    ensures SkipName(b, o) == Ok(p) && p + 10 > |b| ==> ReadFields(b, o) == Err(TruncatedRecord)
    ensures SkipName(b, o) == Ok(p) && p + 10 <= |b| && p + 10 + U16At(b, p + 8) > |b| ==>
              ReadFields(b, o) == Err(TruncatedRdata)
    ensures o + 4 <= end <= |b| && o + 4 + U16At(b, o + 2) > end ==>
              ScanOptions(b, o, end, was) == Err(TruncatedOption)
    ensures o <= end <= |b| && SkipName(b, o) == Ok(p) && SkipName(b, p).Ok? && SkipName(b, p).value + 20 != end ==>
              ReadSoa(b, o, end) == Err(InvalidSoa)
  {
  }

  // ----- the parsers as loops over an offset -----

  method SkipAllQuestions(b: Text, n: nat) returns (r: Result<nat>)
    requires |b| >= HEADER
    ensures r == SkipQuestions(b, HEADER, n)
  {
    var o: nat := HEADER;
    for i := 0 to n
      invariant o <= |b| && SkipQuestions(b, o, n - i) == SkipQuestions(b, HEADER, n)
    {
      var skipped := SkipDnsName(b, o);
      if skipped.Err? {
        return skipped;
      }
      o := skipped.value + 4;
      if o > |b| {
        return Err(TruncatedQuestion);
      }
    }
    return Ok(o);
  }

  method ScanEdns(b: Text, o: nat, end: nat, was: Option<u16>) returns (r: Result<Option<u16>>)
    requires o <= end <= |b|
    ensures r == ScanOptions(b, o, end, was)
  {
    var at, ede := o, was;
    while at + 4 <= end
      invariant at <= end && ScanOptions(b, at, end, ede) == ScanOptions(b, o, end, was)
    {
      var code, len := U16At(b, at), U16At(b, at + 2);
      at := at + 4;
      if at + len > end {
        return Err(TruncatedOption);
      }
      if code == OPTION_EDE && len >= 2 {
        ede := Some(U16At(b, at));
      }
      at := at + len;
    }
    return Ok(ede);
  }

  method NoteRecord(b: Text, r: Fields, index: nat, s: Sections, f: Found) returns (noted: Result<Found>)
    requires r.data <= r.end <= |b|
    ensures noted == Note(b, r, index, s, f)
  {
    var g := f.(hasSoa := f.hasSoa || r.kind == TYPE_SOA);
    if s.InAuthority(index) && r.kind == TYPE_SOA {
      var mname := SkipDnsName(b, r.data);
      if mname.Err? { return Err(mname.error); }
      var rname := SkipDnsName(b, mname.value);
      if rname.Err? { return Err(rname.error); }
      if rname.value + 20 != r.end { return Err(InvalidSoa); }
      g := g.(soaOwnerRoot := r.root, soaTtl := Some(r.ttl), soaMinimum := Some(U32At(b, rname.value + 16)));
    }
    g := g.(hasRrsig := g.hasRrsig || r.kind == TYPE_RRSIG);
    if s.InAdditional(index) && r.kind == TYPE_OPT {
      var ede := ScanEdns(b, r.data, r.end, g.ede);
      if ede.Err? { return Err(ede.error); }
      g := g.(hasOpt := true, ede := ede.value);
    }
    return Ok(g);
  }

  /** Never reads out of range and always ends, on any bytes. */
  method ParseDnsProbeResponse(b: Text) returns (r: Result<Probe>)
    ensures r == ParseProbe(b)
  {
    if |b| < HEADER {
      return Err(ShortResponse);
    }
    var s := SectionsAt(b);
    var questions := SkipAllQuestions(b, U16At(b, 4));
    if questions.Err? { return Err(questions.error); }
    var o, found := questions.value, NoneFound();
    for index := 0 to s.Total()
      invariant ReadRecords(b, o, index, s, found) == ReadRecords(b, questions.value, 0, s, NoneFound())
    {
      var fields := ReadFields(b, o);
      if fields.Err? { return Err(fields.error); }
      var noted := NoteRecord(b, fields.value, index, s, found);
      if noted.Err? { return Err(noted.error); }
      o, found := fields.value.end, noted.value;
    }
    return Ok(Probe(U16At(b, 2) % 16, U16At(b, 2), s, found));
  }

  method ParseDnsAResponse(b: Text) returns (r: Result<Text>)
    ensures r == ParseAddresses(b)
  {
    if |b| < HEADER {
      return Err(ShortResponse);
    }
    var rcode := b[3] as int % 16;
    if rcode != 0 && rcode != 3 {
      return Err(Rcode(rcode));
    }
    var questions := SkipAllQuestions(b, U16At(b, 4));
    if questions.Err? { return Err(questions.error); }
    var n: nat := U16At(b, 6);
    var o, lines := questions.value, [];
    ghost var ips: seq<Ipv4> := [];
    for i := 0 to n
      invariant ReadAnswers(b, o, i, n, ips) == ReadAnswers(b, questions.value, 0, n, [])
      invariant lines == AllDotted(ips)
    {
      var fields := ReadFields(b, o);
      if fields.Err? { return Err(fields.error); }
      var r := fields.value;
      o, ips := r.end, ips + Address(b, r);
      if r.kind == TYPE_A && r.dnsClass == CLASS_IN && r.end - r.data == 4 {
        lines := lines + [Dotted(Ipv4At(b, r.data))];
      }
    }
    return Ok(Join(lines));
  }

  // ----- reference messages -----

  datatype EdnsOption = EdnsOption(code: u16, data: Text)

  datatype RData =
    | Raw(bytes: Text)
    | Soa(mname: Name, rname: Name, timers: Text, minimum: u32)
    | Edns(options: seq<EdnsOption>, tail: Text)

  datatype Question = Question(name: Name, kind: u16, dnsClass: u16)
  datatype Record = Record(owner: Name, kind: u16, dnsClass: u16, ttl: u32, data: RData)
  datatype Message = Message(id: u16, flags: u16, questions: seq<Question>,
                             answers: seq<Record>, authorities: seq<Record>, additionals: seq<Record>)
  {
    function Records(): seq<Record> { answers + authorities + additionals }
  }

  /** A tail too short for an option is allowed and ignored. */
  ghost predicate ValidRData(d: RData) {
    match d
    case Raw(bytes) => |bytes| < 0x1_0000
    case Soa(mname, rname, timers, _) =>
      && ValidDnsName(mname) && ValidDnsName(rname) && |timers| == 16
      && |EncodeName(mname)| + |EncodeName(rname)| + 20 < 0x1_0000
    case Edns(options, tail) =>
      && (forall i :: 0 <= i < |options| ==> |options[i].data| < 0x1_0000)
      && |tail| < 4 && |EncodeOptions(options, 0)| + |tail| < 0x1_0000
  }

  function EncodeOptions(os: seq<EdnsOption>, i: nat): Text
    requires i <= |os| && forall k :: 0 <= k < |os| ==> |os[k].data| < 0x1_0000
    decreases |os| - i
  {
    if i == |os| then []
    else Be16(os[i].code) + (Be16(|os[i].data|) + (os[i].data + EncodeOptions(os, i + 1)))
  }

  ghost function EncodeRData(d: RData): (r: Text)
    requires ValidRData(d)
    ensures |r| < 0x1_0000
  {
    match d
    case Raw(bytes) => bytes
    case Soa(mname, rname, timers, minimum) => EncodeName(mname) + (EncodeName(rname) + (timers + Be32(minimum)))
    case Edns(options, tail) => EncodeOptions(options, 0) + tail
  }

  ghost predicate ValidRecord(r: Record) {
    var owner, data := ValidDnsName(r.owner), ValidRData(r.data);
    owner && data
  }

  ghost predicate AllValid(rs: seq<Record>) {
    forall i :: 0 <= i < |rs| ==> ValidRecord(rs[i])
  }

  ghost function EncodeRecord(r: Record): Text
    requires ValidRecord(r)
  {
    var data := EncodeRData(r.data);
    EncodeName(r.owner) + (Be16(r.kind) + (Be16(r.dnsClass) + (Be32(r.ttl) + (Be16(|data|) + data))))
  }

  ghost predicate EncodesRecord(part: Text, r: Record) {
    ValidRecord(r) && part == EncodeRecord(r)
  }

  ghost predicate Encodes(parts: seq<Text>, rs: seq<Record>) {
    var each := forall i {:trigger EncodesRecord(parts[i], rs[i])} ::
                  0 <= i < |parts| && i < |rs| ==> EncodesRecord(parts[i], rs[i]);
    |parts| == |rs| && each
  }

  ghost function EncodedRecords(rs: seq<Record>): (parts: seq<Text>)
    requires AllValid(rs)
    ensures Encodes(parts, rs)
  {
    seq(|rs|, i requires 0 <= i < |rs| && ValidRecord(rs[i]) => EncodeRecord(rs[i]))
  }

  /** The parts from `i` on, one after the other. */
  function Concat(parts: seq<Text>, i: nat): Text
    requires i <= |parts|
    decreases |parts| - i
  {
    if i == |parts| then [] else parts[i] + Concat(parts, i + 1)
  }

  ghost function EncodeRecords(rs: seq<Record>): Text
    requires AllValid(rs)
  {
    Concat(EncodedRecords(rs), 0)
  }

  function EncodeQuestion(q: Question): Text
    requires ValidDnsName(q.name)
  {
    EncodeName(q.name) + (Be16(q.kind) + Be16(q.dnsClass))
  }

  function EncodeQuestions(qs: seq<Question>, i: nat): Text
    requires i <= |qs| && forall k :: 0 <= k < |qs| ==> ValidDnsName(qs[k].name)
    decreases |qs| - i
  {
    if i == |qs| then [] else EncodeQuestion(qs[i]) + EncodeQuestions(qs, i + 1)
  }

  ghost predicate ValidMessage(m: Message) {
    var counts := && |m.questions| < 0x1_0000 && |m.answers| < 0x1_0000
                  && |m.authorities| < 0x1_0000 && |m.additionals| < 0x1_0000;
    var names := forall i :: 0 <= i < |m.questions| ==> ValidDnsName(m.questions[i].name);
    var soas := forall i :: 0 <= i < |m.authorities| && m.authorities[i].kind == TYPE_SOA ==>
                  m.authorities[i].data.Soa?;
    var opts := forall i :: 0 <= i < |m.additionals| && m.additionals[i].kind == TYPE_OPT ==>
                  m.additionals[i].data.Edns?;
    counts && names && AllValid(m.Records()) && soas && opts
  }

  ghost function Counts(m: Message): Sections
    requires ValidMessage(m)
  {
    Sections(|m.answers|, |m.authorities|, |m.additionals|)
  }

  function EncodeHeader(id: u16, flags: u16, questions: u16, s: Sections): (h: Text)
    ensures |h| == HEADER
  {
    Be16(id) + Be16(flags) + Be16(questions) + Be16(s.answers) + Be16(s.authorities) + Be16(s.additionals)
  }

  ghost function EncodeMessage(m: Message): Text
    requires ValidMessage(m)
  {
    EncodeHeader(m.id, m.flags, |m.questions|, Counts(m))
    + (EncodeQuestions(m.questions, 0) + EncodeRecords(m.Records()))
  }
}
