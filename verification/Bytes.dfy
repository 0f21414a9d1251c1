/** Byte strings, domain-name normalisation and the entry a normalised name stands for. */
module Bytes {

  type byte = x: int | 0 <= x < 256
  type u32 = x: int | 0 <= x < 0x1_0000_0000
  type u64 = x: int | 0 <= x < 0x1_0000_0000_0000_0000
  type Text = seq<byte>

  const DOT: byte := 46
  const STAR: byte := 42
  const NEWLINE: byte := 10
  const U16_MAX := 0xFFFF
  const USIZE_MAX := 0xFFFF_FFFF_FFFF_FFFF

  /** Saturating arithmetic on 64-bit unsigned integers. */
  function SaturatingAdd(a: nat, b: nat): nat {
    if a + b > USIZE_MAX then USIZE_MAX else a + b
  }

  function SaturatingSub(a: nat, b: nat): nat {
    if a < b then 0 else a - b
  }

  function SaturatingMul(a: nat, b: nat): nat {
    if a * b > USIZE_MAX then USIZE_MAX else a * b
  }

  /** Division that rounds towards zero. */
  function Truncated(a: int, b: int): int
    requires b > 0
  {
    if a >= 0 then a / b else -(-a / b)
  }

  function LowerByte(b: byte): byte {
    if 65 <= b <= 90 then b + 32 else b
  }

  /** ASCII lower-casing. */
  function ToLower(s: Text): (r: Text)
    ensures |r| == |s|
  {
    seq(|s|, i requires 0 <= i < |s| => LowerByte(s[i]))
  }

  predicate EndsWithDot(s: Text) {
    |s| > 0 && s[|s| - 1] == DOT
  }

  /** Lower case, then drop one trailing dot. */
  function Normalize(s: Text): Text {
    var d := ToLower(s);
    if EndsWithDot(d) then d[..|d| - 1] else d
  }

  /** A name that normalisation leaves alone. */
  predicate Stable(s: Text) {
    Normalize(s) == s
  }

  predicate EndsWith(s: Text, suffix: Text) {
    |suffix| <= |s| && s[|s| - |suffix|..] == suffix
  }

  predicate HasWildcardPrefix(s: Text) {
    |s| >= 2 && s[0] == STAR && s[1] == DOT
  }

  /** Names an arena record can hold: a u16 length prefix, and never empty. */
  predicate Storable(s: Text) {
    0 < |s| <= U16_MAX
  }

  /** Lower-casing twice is lower-casing once, so only the dot can make normalisation non-idempotent. */
  lemma ToLowerIdempotent(s: Text)
    ensures ToLower(ToLower(s)) == ToLower(s)
  {
  }

  /** Normalising the result again changes nothing exactly when it does not end in another dot. */
  lemma NormalizeStableIff(s: Text)
    ensures Stable(Normalize(s)) <==> !EndsWithDot(Normalize(s))
  {
  }

  // ----- what normalising does to the bytes -----

  /** The same byte, or the two cases of one of the 26 letters. */
  predicate SameLetter(x: byte, y: byte) {
    x == y || (65 <= x <= 90 && y == x + 32) || (65 <= y <= 90 && x == y + 32)
  }

  /** Two texts that differ in the case of letters only. */
  predicate SameButCase(a: Text, b: Text) {
    |a| == |b| && forall i :: 0 <= i < |a| ==> SameLetter(a[i], b[i])
  }

  /** Without a dot at the end, if there is one. */
  function Undotted(s: Text): Text {
    if s != [] && s[|s| - 1] == 46 then s[..|s| - 1] else s
  }

  /**
   A normalised name holds no capital letter: each byte is the one of the name itself, unless that is a
   capital letter, which becomes the small one. Only a dot at the end is cut off.
   */
  lemma NormalizeByBytes(s: Text)
    ensures |Normalize(s)| == |Undotted(s)|
    ensures forall i :: 0 <= i < |Normalize(s)| ==>
              && !(65 <= Normalize(s)[i] <= 90)
              && Normalize(s)[i] == if 65 <= s[i] <= 90 then s[i] + 32 else s[i]
  {
  }

  /** Two names normalise alike if and only if they differ in the case of letters and one dot at the end only. */
  lemma NormalizeAlikeIff(a: Text, b: Text)
    ensures Normalize(a) == Normalize(b) <==> SameButCase(Undotted(a), Undotted(b))
  {
    NormalizeByBytes(a);
    NormalizeByBytes(b);
    var x, y := Undotted(a), Undotted(b);
    assert forall i :: 0 <= i < |x| ==> x[i] == a[i];
    assert forall i :: 0 <= i < |y| ==> y[i] == b[i];
    if Normalize(a) == Normalize(b) {
      forall i | 0 <= i < |x| ensures SameLetter(x[i], y[i]) {
        assert Normalize(a)[i] == Normalize(b)[i];
      }
    }
  }
}
