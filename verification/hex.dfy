/** Decoding of the hex string `processBlock` receives (the `hex` crate's
    `decode`): the length must be even, then each pair of digits, upper or
    lower case, gives one byte; the first character that is not a digit is
    reported together with its index. */
module Hex {
  import opened Wrappers
  import opened Bytes

  predicate IsHexDigit(c: char) {
    '0' <= c <= '9' || 'a' <= c <= 'f' || 'A' <= c <= 'F'
  }

  /** The value of one hex digit. */
  function DigitValue(c: char): (v: nat)
    requires IsHexDigit(c)
    ensures v < 16
  {
    if '0' <= c <= '9' then c as nat - '0' as nat
    else if 'a' <= c <= 'f' then c as nat - 'a' as nat + 10
    else c as nat - 'A' as nat + 10
  }

  /** Lower-case digit for a value below 16, as the `hex` crate writes it. */
  function Digit(v: nat): (c: char)
    requires v < 16
    ensures IsHexDigit(c)
  {
    if v < 10 then ('0' as nat + v) as char else ('a' as nat + v - 10) as char
  }

  /** The byte a pair of digits stands for, high digit first. */
  function PairByte(hi: char, lo: char): byte
    requires IsHexDigit(hi) && IsHexDigit(lo)
  {
    16 * DigitValue(hi) + DigitValue(lo)
  }

  predicate AllHexDigits(s: string) {
    forall i :: 0 <= i < |s| ==> IsHexDigit(s[i])
  }

  /** Decodes the digit pairs of `s`, which starts at index `offset` of the
      whole input. */
  function DecodePairs(s: string, offset: nat): (r: Result<seq<byte>>)
    requires |s| % 2 == 0
    ensures r.Ok? <==> AllHexDigits(s)
    ensures r.Ok? ==> 2 * |r.value| == |s|
    decreases |s|
  {
    if s == [] then Ok([])
    else if !IsHexDigit(s[0]) then Err(InvalidHexCharacter(s[0], offset))
    else if !IsHexDigit(s[1]) then Err(InvalidHexCharacter(s[1], offset + 1))
    else
      match DecodePairs(s[2..], offset + 2)
      case Err(e) => Err(e)
      case Ok(rest) =>
        assert AllHexDigits(s) by {
          forall i | 0 <= i < |s| ensures IsHexDigit(s[i]) {
            if i >= 2 { assert s[i] == s[2..][i - 2]; }
          }
        }
        Ok([PairByte(s[0], s[1])] + rest)
  }

  function HexDecode(s: string): (r: Result<seq<byte>>)
    ensures |s| % 2 == 1 ==> r == Err(OddLength)
    ensures r.Ok? <==> |s| % 2 == 0 && AllHexDigits(s)
    ensures r.Ok? ==> 2 * |r.value| == |s|
  {
    if |s| % 2 != 0 then Err(OddLength) else DecodePairs(s, 0)
  }

  function HexEncode(b: seq<byte>): (s: string)
    ensures |s| == 2 * |b|
    ensures AllHexDigits(s)
  {
    if b == [] then []
    else
      var rest := HexEncode(b[1..]);
      var s := [Digit(b[0] / 16), Digit(b[0] % 16)] + rest;
      assert forall i | 2 <= i < |s| :: s[i] == rest[i - 2];
      s
  }

  lemma DigitRoundTrip(v: nat)
    requires v < 16
    ensures DigitValue(Digit(v)) == v
  {
  }

  /** Decoding the encoding of a byte string gives the byte string back. */
  lemma {:induction false} HexRoundTrip(b: seq<byte>, offset: nat)
    ensures DecodePairs(HexEncode(b), offset) == Ok(b)
  {
    if b != [] {
      var s := HexEncode(b);
      DigitRoundTrip(b[0] / 16);
      DigitRoundTrip(b[0] % 16);
      assert s[2..] == HexEncode(b[1..]);
      HexRoundTrip(b[1..], offset + 2);
      assert b == [b[0]] + b[1..];
    }
  }

  /** On even-length input the reported fault is the first non-digit: every
      character before the reported index is a digit. */
  lemma {:induction false} FirstInvalidCharacter(s: string, offset: nat)
    requires |s| % 2 == 0
    requires DecodePairs(s, offset).Err?
    ensures exists i :: 0 <= i < |s| && !IsHexDigit(s[i])
                        && DecodePairs(s, offset).error == InvalidHexCharacter(s[i], offset + i)
                        && AllHexDigits(s[..i])
  {
    if !IsHexDigit(s[0]) {
      assert AllHexDigits(s[..0]);
    } else if !IsHexDigit(s[1]) {
      assert AllHexDigits(s[..1]);
    } else {
      FirstInvalidCharacter(s[2..], offset + 2);
      var j :| 0 <= j < |s[2..]| && !IsHexDigit(s[2..][j])
               && DecodePairs(s[2..], offset + 2).error == InvalidHexCharacter(s[2..][j], offset + 2 + j)
               && AllHexDigits(s[2..][..j]);
      assert s[2 + j] == s[2..][j];
      var prefix := s[..2 + j];
      assert AllHexDigits(prefix) by {
        forall k | 0 <= k < |prefix| ensures IsHexDigit(prefix[k]) {
          if k >= 2 { assert prefix[k] == s[2..][..j][k - 2]; }
        }
      }
    }
  }

  /** The bytes a string of digit pairs stands for, pair by pair. */
  function PairBytes(s: string): (r: seq<byte>)
    requires |s| % 2 == 0 && AllHexDigits(s)
    ensures 2 * |r| == |s|
  {
    seq(|s| / 2, i requires 0 <= i < |s| / 2 => PairByte(s[2 * i], s[2 * i + 1]))
  }

  /** A successful decoding yields, in order, the byte of each digit pair. */
  lemma {:induction false} DecodePairsIsPairBytes(s: string, offset: nat)
    requires |s| % 2 == 0
    requires DecodePairs(s, offset).Ok?
    ensures DecodePairs(s, offset).value == PairBytes(s)
  {
    if s != [] {
      var rest := s[2..];
      DecodePairsIsPairBytes(rest, offset + 2);
      var r := PairBytes(s);
      var q := PairBytes(rest);
      forall k | 1 <= k < |r| ensures r[k] == q[k - 1] {
        assert rest[2 * (k - 1)] == s[2 * k] && rest[2 * (k - 1) + 1] == s[2 * k + 1];
      }
      assert r == [PairByte(s[0], s[1])] + q;
    }
  }

  /** The digit pairs of a concatenation of even-length strings are those
      of the first followed by those of the second. */
  lemma PairBytesAppend(a: string, b: string)
    requires |a| % 2 == 0 && AllHexDigits(a)
    requires |b| % 2 == 0 && AllHexDigits(b)
    ensures AllHexDigits(a + b)
    ensures PairBytes(a + b) == PairBytes(a) + PairBytes(b)
  {
    var ab := a + b;
    assert AllHexDigits(ab) by {
      forall i | 0 <= i < |ab| ensures IsHexDigit(ab[i]) {
        if i >= |a| { assert ab[i] == b[i - |a|]; }
      }
    }
    var r := PairBytes(ab);
    var pa := PairBytes(a);
    var pb := PairBytes(b);
    forall k | 0 <= k < |r| ensures r[k] == (pa + pb)[k] {
      if k < |pa| {
        assert ab[2 * k] == a[2 * k] && ab[2 * k + 1] == a[2 * k + 1];
      } else {
        var m := k - |pa|;
        assert 2 * k == |a| + 2 * m;
        assert ab[2 * k] == b[2 * m] && ab[2 * k + 1] == b[2 * m + 1];
      }
    }
  }

  /** Hex decoding of a concatenation whose first part has even length is
      the concatenation of the decodings. */
  lemma DecodeConcat(a: string, b: string, offset: nat)
    requires |a| % 2 == 0 && |b| % 2 == 0
    requires DecodePairs(a, offset).Ok? && DecodePairs(b, offset + |a|).Ok?
    ensures DecodePairs(a + b, offset)
            == Ok(DecodePairs(a, offset).value + DecodePairs(b, offset + |a|).value)
  {
    PairBytesAppend(a, b);
    DecodePairsIsPairBytes(a, offset);
    DecodePairsIsPairBytes(b, offset + |a|);
    DecodePairsIsPairBytes(a + b, offset);
  }

  /** Appending the encoding of `tail` to a decodable string appends `tail`
      to its decoding. */
  lemma HexDecodeAppend(s: string, tail: seq<byte>)
    requires HexDecode(s).Ok?
    ensures HexDecode(s + HexEncode(tail)) == Ok(HexDecode(s).value + tail)
  {
    HexRoundTrip(tail, |s|);
    DecodeConcat(s, HexEncode(tail), 0);
  }
}
