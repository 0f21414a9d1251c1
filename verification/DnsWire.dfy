/** The DNS probe's name encoder and response parsers, against a reference message encoder. */
module DnsWire {
  import opened Bytes
  import opened Lines

  type u16 = x: int | 0 <= x < 0x1_0000

  const HEADER := 12
  const MAX_LABEL := 63
  const TYPE_A := 1
  const TYPE_SOA := 6
  const TYPE_OPT := 41
  const TYPE_RRSIG := 46
  const CLASS_IN := 1
  const OPTION_EDE := 15

  datatype WireError =
    | MissingHostOrDomain
    | ShortResponse
    | InvalidLabel
    | TruncatedName
    | TruncatedPointer
    | TruncatedLabel
    | UnsupportedLabel
    | TruncatedQuestion
    | TruncatedRecord
    | TruncatedRdata
    | InvalidSoa
    | TruncatedOption
    | Rcode(code: nat)

  datatype Result<T> = Ok(value: T) | Err(error: WireError)

  // ----- big-endian integers -----

  function Be16(x: u16): Text {
    [x / 256, x % 256]
  }

  function Be32(x: u32): Text {
    [x / 0x100_0000, x / 0x1_0000 % 256, x / 256 % 256, x % 256]
  }

  function U16At(b: Text, o: nat): u16
    requires o + 2 <= |b|
  {
    b[o] as int * 256 + b[o + 1] as int
  }

  function U32At(b: Text, o: nat): u32
    requires o + 4 <= |b|
  {
    b[o] as int * 0x100_0000 + b[o + 1] as int * 0x1_0000 + b[o + 2] as int * 256 + b[o + 3] as int
  }

  /** The value of two bytes, the most significant first. */
  function Value(high: int, low: int): int {
    256 * high + low
  }

  /** Numbers on the wire have their most significant byte first. */
  lemma ByteOrder(b: Text, o: nat, x: u16, y: u32)
    ensures o + 2 <= |b| ==> U16At(b, o) == Value(b[o], b[o + 1])
    ensures o + 4 <= |b| ==> U32At(b, o) == 65536 * Value(b[o], b[o + 1]) + Value(b[o + 2], b[o + 3])
    ensures |Be16(x)| == 2 && Value(Be16(x)[0], Be16(x)[1]) == x
    ensures |Be32(y)| == 4 && 65536 * Value(Be32(y)[0], Be32(y)[1]) + Value(Be32(y)[2], Be32(y)[3]) == y
  {
    Be32Value(y);
  }

  // ----- names -----

  /** Skips the name at `o`: labels up to a zero byte, or up to a two-byte pointer, which is not followed. */
  function SkipName(b: Text, o: nat): (r: Result<nat>)
    ensures r.Ok? ==> o < r.value <= |b|
    decreases |b| - o
  {
    if o >= |b| then Err(TruncatedName)
    else
      var len := b[o] as int;
      if len >= 192 then (if o + 1 >= |b| then Err(TruncatedPointer) else Ok(o + 2))
      else if len == 0 then Ok(o + 1)
      else if len >= 64 then Err(UnsupportedLabel)
      else if o + 1 + len > |b| then Err(TruncatedLabel)
      else SkipName(b, o + 1 + len)
  }

  /** The labels before the end of the name, or before a pointer. */
  datatype Name = Name(labels: seq<Text>, pointer: Option<nat>)

  predicate ValidLabels(labels: seq<Text>) {
    forall i :: 0 <= i < |labels| ==> 1 <= |labels[i]| <= 63
  }

  predicate ValidDnsName(n: Name) {
    ValidLabels(n.labels) && (n.pointer.Some? ==> n.pointer.value < 0x4000)
  }

  function EncodeLabel(part: Text): Text
    requires |part| < 256
  {
    var len: byte := |part|;
    [len] + part
  }

  /** The labels from `i` on, and the end of the name. */
  function EncodeFrom(n: Name, i: nat): (r: Text)
    requires ValidDnsName(n) && i <= |n.labels|
    ensures |r| > 0
    decreases |n.labels| - i
  {
    if i < |n.labels| then EncodeLabel(n.labels[i]) + EncodeFrom(n, i + 1)
    else match n.pointer
      case None => [0]
      case Some(p) => [192 + p / 256, p % 256]
  }

  function EncodeName(n: Name): (r: Text)
    requires ValidDnsName(n)
    ensures |r| > 0
  {
    EncodeFrom(n, 0)
  }

  /** The bytes `part` stand in `b` at `o`. */
  ghost predicate Occurs(b: Text, o: nat, part: Text) {
    o + |part| <= |b| && forall k {:trigger part[k]} :: 0 <= k < |part| ==> b[o + k] == part[k]
  }

  lemma OccursParts(b: Text, o: nat, first: Text, rest: Text)
    requires Occurs(b, o, first + rest)
    ensures Occurs(b, o, first) && Occurs(b, o + |first|, rest)
  {
    forall k | 0 <= k < |first| ensures b[o + k] == first[k] {
      assert (first + rest)[k] == first[k];
    }
    forall k | 0 <= k < |rest| ensures b[o + |first| + k] == rest[k] {
      assert (first + rest)[|first| + k] == rest[k];
    }
  }

  lemma OccursInMiddle(before: Text, part: Text, after: Text)
    ensures Occurs(before + part + after, |before|, part)
  {
  }

  lemma Be16At(b: Text, o: nat, x: u16)
    requires Occurs(b, o, Be16(x))
    ensures o + 2 <= |b| && U16At(b, o) == x
  {
    var e := Be16(x);
    assert b[o + 0] == e[0] && b[o + 1] == e[1];
  }

  lemma Be32Value(x: u32)
    ensures x / 0x100_0000 * 0x100_0000 + x / 0x1_0000 % 256 * 0x1_0000 + x / 256 % 256 * 256 + x % 256 == x
  {
    assert x / 0x1_0000 == x / 256 / 256 && x / 0x100_0000 == x / 256 / 256 / 256;
  }

  lemma Be32At(b: Text, o: nat, x: u32)
    requires Occurs(b, o, Be32(x))
    ensures o + 4 <= |b| && U32At(b, o) == x
  {
    var e := Be32(x);
    assert b[o + 0] == e[0] && b[o + 1] == e[1] && b[o + 2] == e[2] && b[o + 3] == e[3];
    Be32Value(x);
  }

  /** Skipping an encoded name consumes exactly its bytes, wherever it stands. */
  lemma {:induction false} SkipsEncodedFrom(b: Text, o: nat, n: Name, i: nat)
    requires ValidDnsName(n) && i <= |n.labels| && Occurs(b, o, EncodeFrom(n, i))
    ensures SkipName(b, o) == Ok(o + |EncodeFrom(n, i)|)
    decreases |n.labels| - i
  {
    var e := EncodeFrom(n, i);
    assert b[o + 0] == e[0];
    if i == |n.labels| {
    } else {
      var first, rest := EncodeLabel(n.labels[i]), EncodeFrom(n, i + 1);
      assert e[0] == first[0];
      OccursParts(b, o, first, rest);
      SkipsEncodedFrom(b, o + |first|, n, i + 1);
    }
  }

  lemma SkipsEncodedName(before: Text, n: Name, after: Text)
    requires ValidDnsName(n)
    ensures SkipName(before + EncodeName(n) + after, |before|) == Ok(|before| + |EncodeName(n)|)
  {
    OccursInMiddle(before, EncodeName(n), after);
    SkipsEncodedFrom(before + EncodeName(n) + after, |before|, n, 0);
  }

  /** What is wrong with a name that cannot be skipped, by its first byte; and what is skipped otherwise. */
  lemma NameByFirstByte(b: Text, o: nat)
    ensures o >= |b| ==> SkipName(b, o) == Err(TruncatedName)
    ensures o < |b| && b[o] == 0 ==> SkipName(b, o) == Ok(o + 1)
    ensures o < |b| && b[o] >= 192 ==>
              SkipName(b, o) == if o + 2 <= |b| then Ok(o + 2) else Err(TruncatedPointer)
    ensures o < |b| && 64 <= b[o] < 192 ==> SkipName(b, o) == Err(UnsupportedLabel)
    ensures o < |b| && 1 <= b[o] < 64 ==>
              SkipName(b, o) == if o + 1 + b[o] as int <= |b| then SkipName(b, o + 1 + b[o] as int)
                                else Err(TruncatedLabel)
  {
  }

  // ----- the methods of the probe for names -----

  method SkipDnsName(b: Text, offset: nat) returns (r: Result<nat>)
    ensures r == SkipName(b, offset)
  {
    var o := offset;
    while true
      invariant SkipName(b, o) == SkipName(b, offset)
      decreases |b| - o
    {
      if o >= |b| {
        return Err(TruncatedName);
      }
      var len := b[o] as int;
      o := o + 1;
      if len >= 192 {
        if o >= |b| {
          return Err(TruncatedPointer);
        }
        return Ok(o + 1);
      }
      if len == 0 {
        return Ok(o);
      }
      if len >= 64 {
        return Err(UnsupportedLabel);
      }
      if o + len > |b| {
        return Err(TruncatedLabel);
      }
      o := o + len;
    }
  }

  /** The labels of a written domain. */
  function LabelsOf(domain: Text): seq<Text> {
    SplitDots(TrimEndDots(domain))
  }

  /** Appends the encoded name, exactly if every label has 1 to 63 bytes. */
  method EncodeDnsName(packet: Text, domain: Text) returns (r: Result<Text>)
    ensures r.Ok? <==> ValidLabels(LabelsOf(domain))
    ensures r.Ok? ==> r.value == packet + EncodeName(Name(LabelsOf(domain), None))
    ensures r.Err? ==> r.error == InvalidLabel
  {
    var labels := LabelsOf(domain);
    var out := packet;
    for i := 0 to |labels|
      invariant forall k :: 0 <= k < i ==> 1 <= |labels[k]| <= MAX_LABEL
      invariant ValidLabels(labels) ==>
                  out + EncodeFrom(Name(labels, None), i) == packet + EncodeName(Name(labels, None))
    {
      var len := |labels[i]|;
      if len == 0 || len > MAX_LABEL {
        return Err(InvalidLabel);
      }
      ghost var n, was := Name(labels, None), out;
      var prefix: byte := len;
      out := out + [prefix] + labels[i];
      if ValidLabels(labels) {
        assert EncodeFrom(n, i) == EncodeLabel(labels[i]) + EncodeFrom(n, i + 1);
        assert out + EncodeFrom(n, i + 1) == was + EncodeFrom(n, i);
      }
    }
    assert EncodeFrom(Name(labels, None), |labels|) == [0];
    return Ok(out + [0]);
  }
}
