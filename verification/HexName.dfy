/** Record names: 20 raw bytes, written as 40 hexadecimal digits. */
module HexName {
  import opened Bytes
  import opened CStrings

  const RAW_NAME_SIZE: nat := 20
  const HEX_NAME_SIZE: nat := 40

  predicate IsHexDigit(c: Byte) {
    48 <= c <= 57 || 65 <= c <= 70 || 97 <= c <= 102
  }

  function DigitValue(c: Byte): (v: nat)
    requires IsHexDigit(c)
    ensures v < 16
  {
    if c <= 57 then c - 48 else if c <= 70 then c - 55 else c - 87
  }

  /** The digit that "%x" prints. */
  function HexDigit(v: nat): (c: Byte)
    requires v < 16
    ensures IsHexDigit(c) && DigitValue(c) == v
  {
    if v < 10 then 48 + v else 87 + v
  }

  /** The sixteen digits, and the six that may be written in upper case too. */
  lemma DigitMeaning(c: Byte)
    ensures IsHexDigit(c) <==>
              c in [48, 49, 50, 51, 52, 53, 54, 55, 56, 57, 97, 98, 99, 100, 101, 102] || c in [65, 66, 67, 68, 69, 70]
    ensures IsHexDigit(c) ==>
              || [48, 49, 50, 51, 52, 53, 54, 55, 56, 57, 97, 98, 99, 100, 101, 102][DigitValue(c)] == c
              || (DigitValue(c) >= 10 && [65, 66, 67, 68, 69, 70][DigitValue(c) - 10] == c)
    ensures forall v | 0 <= v < 16 :: HexDigit(v) == [48, 49, 50, 51, 52, 53, 54, 55, 56, 57, 97, 98, 99, 100, 101, 102][v]
  {
  }

  function LowerCase(c: Byte): Byte {
    if 65 <= c <= 90 then c + 32 else c
  }

  function Lowered(s: seq<Byte>): (r: seq<Byte>)
    ensures |r| == |s|
  {
    seq(|s|, i requires 0 <= i < |s| => LowerCase(s[i]))
  }

  /** The hexadecimal form of raw bytes, two digits a byte. */
  function Encoded(raw: seq<Byte>): (hex: seq<Byte>)
    ensures |hex| == 2 * |raw|
  {
    if raw == [] then [] else [HexDigit(raw[0] / 16), HexDigit(raw[0] % 16)] + Encoded(raw[1..])
  }

  lemma {:induction false} EncodedAt(raw: seq<Byte>, i: nat)
    requires i < |raw|
    ensures Encoded(raw)[2 * i] == HexDigit(raw[i] / 16) && Encoded(raw)[2 * i + 1] == HexDigit(raw[i] % 16)
  {
    if i > 0 {
      EncodedAt(raw[1..], i - 1);
      assert raw[1..][i - 1] == raw[i];
    }
  }

  predicate PairAt(hex: seq<Byte>, i: nat)
    requires 2 * i + 1 < |hex|
  {
    IsHexDigit(hex[2 * i]) && IsHexDigit(hex[2 * i + 1])
  }

  function PairValue(hex: seq<Byte>, i: nat): Byte
    requires 2 * i + 1 < |hex| && PairAt(hex, i)
  {
    DigitValue(hex[2 * i]) * 16 + DigitValue(hex[2 * i + 1])
  }

  /** How many of the first `n` bytes can be read before a character that is not a digit. */
  function ReadablePairs(hex: seq<Byte>, n: nat): (k: nat)
    requires 2 * n <= |hex|
    ensures k <= n
    ensures forall i | 0 <= i < k :: PairAt(hex, i)
    ensures k < n ==> !PairAt(hex, k)
  {
    if n == 0 then 0 else
      var k := ReadablePairs(hex, n - 1);
      if k == n - 1 && PairAt(hex, n - 1) then n else k
  }

  lemma ReadablePairsUnique(hex: seq<Byte>, n: nat, k: nat)
    requires 2 * n <= |hex| && k <= n
    requires forall i | 0 <= i < k :: PairAt(hex, i)
    requires k < n ==> !PairAt(hex, k)
    ensures ReadablePairs(hex, n) == k
  {
  }

  predicate IsHexName(hex: CString) {
    |hex| >= HEX_NAME_SIZE && ReadablePairs(hex, RAW_NAME_SIZE) == RAW_NAME_SIZE
  }

  /** What a 20-byte buffer holds after a hexadecimal name has been read into it: a name that is
      too short leaves it as it was, a bad character stops the reading where it stands. */
  function Decoded(hex: CString, buffer: seq<Byte>): (raw: seq<Byte>)
    requires |buffer| == RAW_NAME_SIZE
    ensures |raw| == RAW_NAME_SIZE
  {
    if |hex| < HEX_NAME_SIZE then buffer else
      var k := ReadablePairs(hex, RAW_NAME_SIZE);
      seq(k, i requires 0 <= i < k => PairValue(hex, i)) + buffer[k..]
  }

  /** A name is hexadecimal if it has 40 characters, and the first 40 are digits. */
  lemma NameMeaning(hex: CString)
    ensures IsHexName(hex) <==>
              |hex| >= 40 && forall p | 0 <= p < 40 :: 48 <= hex[p] <= 57 || 65 <= hex[p] <= 70 || 97 <= hex[p] <= 102
  {
    hide DigitValue;
    if |hex| >= HEX_NAME_SIZE {
      if ReadablePairs(hex, RAW_NAME_SIZE) == RAW_NAME_SIZE {
        forall p | 0 <= p < 40
          ensures IsHexDigit(hex[p])
        {
          assert PairAt(hex, p / 2);
          assert p == 2 * (p / 2) || p == 2 * (p / 2) + 1;
        }
      } else {
        assert !PairAt(hex, ReadablePairs(hex, RAW_NAME_SIZE));
      }
    }
  }

  /** A name that is long enough is read up to the first pair that is not two digits; behind that the
      buffer stays as it was. */
  lemma DecodedMeaning(hex: CString, buffer: seq<Byte>, k: nat, i: nat)
    requires |buffer| == 20 && |hex| >= 40 && k <= 20 && i < 20
    requires forall j | 0 <= j < k :: IsHexDigit(hex[2 * j]) && IsHexDigit(hex[2 * j + 1])
    requires k < 20 ==> !IsHexDigit(hex[2 * k]) || !IsHexDigit(hex[2 * k + 1])
    ensures i < k ==> Decoded(hex, buffer)[i] == 16 * DigitValue(hex[2 * i]) + DigitValue(hex[2 * i + 1])
    ensures i >= k ==> Decoded(hex, buffer)[i] == buffer[i]
  {
    hide IsHexDigit, DigitValue;
    forall j | 0 <= j < k
      ensures PairAt(hex, j)
    {
    }
    ReadablePairsUnique(hex, RAW_NAME_SIZE, k);
  }

  method RawNameToHexName(hexName: array<Byte>, rawName: seq<Byte>)
    requires hexName.Length == HEX_NAME_SIZE + 1 && |rawName| == RAW_NAME_SIZE
    modifies hexName
    ensures hexName[..] == Encoded(rawName) + [0]
  {
    for i := 0 to RAW_NAME_SIZE
      invariant forall j | 0 <= j < i ::
        hexName[2 * j] == HexDigit(rawName[j] / 16) && hexName[2 * j + 1] == HexDigit(rawName[j] % 16)
    {
      hexName[i * 2] := HexDigit(rawName[i] / 16);
      hexName[i * 2 + 1] := HexDigit(rawName[i] % 16);
    }
    hexName[HEX_NAME_SIZE] := 0;
    forall p | 0 <= p <= HEX_NAME_SIZE
      ensures hexName[p] == (Encoded(rawName) + [0])[p]
    {
      if p < HEX_NAME_SIZE {
        EncodedAt(rawName, p / 2);
        assert p == 2 * (p / 2) || p == 2 * (p / 2) + 1;
      }
    }
    assert hexName[..] == Encoded(rawName) + [0];
  }

  method HexNameToRawName(rawName: array<Byte>, hexName: CString) returns (ok: bool)
    requires rawName.Length == RAW_NAME_SIZE
    modifies rawName
    ensures ok <==> IsHexName(hexName)
    ensures rawName[..] == Decoded(hexName, old(rawName[..]))
    ensures |hexName| < 40 ==> rawName[..] == old(rawName[..])
  {
    hide DigitValue, IsHexDigit;
    if |hexName| < HEX_NAME_SIZE {
      return false;
    }
    for i := 0 to RAW_NAME_SIZE
      invariant forall j | 0 <= j < i :: PairAt(hexName, j) && rawName[j] == PairValue(hexName, j)
      invariant forall j | i <= j < RAW_NAME_SIZE :: rawName[j] == old(rawName[j])
    {
      var a, b := hexName[i * 2], hexName[i * 2 + 1];
      if !IsHexDigit(a) || !IsHexDigit(b) {
        ReadablePairsUnique(hexName, RAW_NAME_SIZE, i);
        return false;
      }
      rawName[i] := DigitValue(a) * 16 + DigitValue(b);
    }
    ReadablePairsUnique(hexName, RAW_NAME_SIZE, RAW_NAME_SIZE);
    return true;
  }

  lemma EncodedPair(raw: seq<Byte>, i: nat)
    requires i < |raw|
    ensures PairAt(Encoded(raw), i) && PairValue(Encoded(raw), i) == raw[i]
  {
    EncodedAt(raw, i);
  }

  /** Reading back what was written gives the raw name, whatever the buffer held. */
  lemma DecodeEncoded(raw: seq<Byte>, buffer: seq<Byte>)
    requires |raw| == |buffer| == RAW_NAME_SIZE
    ensures NulFree(Encoded(raw)) && IsHexName(Encoded(raw)) && Decoded(Encoded(raw), buffer) == raw
  {
    hide PairValue, Encoded;
    var hex := Encoded(raw);
    forall i | 0 <= i < RAW_NAME_SIZE
      ensures PairAt(hex, i) && PairValue(hex, i) == raw[i]
    {
      EncodedPair(raw, i);
    }
    forall p | 0 <= p < |hex|
      ensures hex[p] != 0
    {
      assert PairAt(hex, p / 2);
      assert p == 2 * (p / 2) || p == 2 * (p / 2) + 1;
    }
    hide PairAt;
    ReadablePairsUnique(hex, RAW_NAME_SIZE, RAW_NAME_SIZE);
    assert Decoded(hex, buffer) == raw;
  }

  lemma PairDigits(hex: seq<Byte>, i: nat)
    requires 2 * i + 1 < |hex| && PairAt(hex, i)
    ensures HexDigit(PairValue(hex, i) / 16) == LowerCase(hex[2 * i])
    ensures HexDigit(PairValue(hex, i) % 16) == LowerCase(hex[2 * i + 1])
  {
    var (a, b) := (DigitValue(hex[2 * i]), DigitValue(hex[2 * i + 1]));
    assert (a * 16 + b) / 16 == a && (a * 16 + b) % 16 == b;
  }

  /** Writing what was read from a name gives its first 40 characters in lower case. */
  lemma EncodeDecoded(hex: CString, buffer: seq<Byte>)
    requires |buffer| == RAW_NAME_SIZE && IsHexName(hex)
    ensures Encoded(Decoded(hex, buffer)) == Lowered(hex[..HEX_NAME_SIZE])
  {
    hide HexDigit, PairValue, LowerCase, Encoded;
    var raw := Decoded(hex, buffer);
    forall p | 0 <= p < HEX_NAME_SIZE
      ensures Encoded(raw)[p] == Lowered(hex[..HEX_NAME_SIZE])[p]
    {
      var i := p / 2;
      EncodedAt(raw, i);
      PairDigits(hex, i);
      assert p == 2 * i || p == 2 * i + 1;
    }
  }

  /** The order of raw names, in which records are sorted, is the order of their hexadecimal forms. */
  lemma {:induction false} OrderPreserved(a: seq<Byte>, b: seq<Byte>)
    requires |a| == |b|
    ensures Compare(Encoded(a), Encoded(b)) == Compare(a, b)
  {
    if a != [] {
      var (x, y) := (Encoded(a), Encoded(b));
      assert x[1..][1..] == Encoded(a[1..]) && y[1..][1..] == Encoded(b[1..]);
      assert x[1..][0] == HexDigit(a[0] % 16) && y[1..][0] == HexDigit(b[0] % 16);
      OrderPreserved(a[1..], b[1..]);
    }
  }

  /** A hexadecimal name fills the whole buffer. */
  lemma BufferIrrelevant(hex: CString, a: seq<Byte>, b: seq<Byte>)
    requires |a| == |b| == RAW_NAME_SIZE && IsHexName(hex)
    ensures Decoded(hex, a) == Decoded(hex, b)
  {
    assert Decoded(hex, a) == Decoded(hex, b);
  }
}
