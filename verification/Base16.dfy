/**
 The hex text of a key (section 8 of RFC 4648), as Go's encoding/hex prints and reads it:
 printed in lower case, read in either case, an odd number of digits refused.
 */
module Base16 {
  import opened Wrappers
  import opened Bytes

  type nibble = x: int | 0 <= x < 16

  datatype HexError = InvalidByte(b: byte) | OddLength

  function Digit(n: nibble): byte {
    if n < 10 then n + 48 else n + 87
  }

  predicate IsDigit(b: byte) {
    48 <= b <= 57 || 65 <= b <= 70 || 97 <= b <= 102
  }

  function Value(b: byte): nibble
    requires IsDigit(b)
  {
    if b <= 57 then b - 48 else if b <= 70 then b - 55 else b - 87
  }

  function LowerDigit(b: byte): byte {
    if 65 <= b <= 70 then b + 32 else b
  }

  function Lower(s: seq<byte>): (r: seq<byte>)
    ensures |r| == |s|
    ensures forall i :: 0 <= i < |s| ==> r[i] == LowerDigit(s[i])
  {
    seq(|s|, i requires 0 <= i < |s| => LowerDigit(s[i]))
  }

  function Encode(key: seq<byte>): seq<byte> {
    if key == [] then []
    else [Digit(key[0] / 16), Digit(key[0] % 16)] + Encode(key[1..])
  }

  /** Reads pairs of digits; a lone last byte is reported as invalid before it is reported as odd. */
  function Decode(text: seq<byte>): Result<seq<byte>, HexError> {
    if text == [] then Ok([])
    else if !IsDigit(text[0]) then Err(InvalidByte(text[0]))
    else if |text| == 1 then Err(OddLength)
    else if !IsDigit(text[1]) then Err(InvalidByte(text[1]))
    else match Decode(text[2..])
      case Err(e) => Err(e)
      case Ok(rest) => Ok([Value(text[0]) * 16 + Value(text[1])] + rest)
  }

  /** What it takes, said without decoding. */
  predicate WellFormed(text: seq<byte>) {
    |text| % 2 == 0 && forall i :: 0 <= i < |text| ==> IsDigit(text[i])
  }

  /** The digits are table 5 of RFC 4648, in lower case. */
  lemma {:induction false} DigitsAreTable(n: nibble)
    ensures Digit(n) == "0123456789abcdef"[n] as int && IsDigit(Digit(n)) && Value(Digit(n)) == n
    ensures var upper: byte := "0123456789ABCDEF"[n] as int;
            IsDigit(upper) && Value(upper) == n && LowerDigit(upper) == Digit(n)
  {}

  /** Only the digits of the table are read, in either case. */
  lemma {:induction false} OnlyTableDigits(b: byte)
    requires IsDigit(b)
    ensures b == "0123456789abcdef"[Value(b)] as int || b == "0123456789ABCDEF"[Value(b)] as int
  {}

  lemma {:induction false} DecodesExactlyWellFormed(text: seq<byte>)
    ensures Decode(text).Ok? <==> WellFormed(text)
    ensures Decode(text).Ok? ==> |Decode(text).value| * 2 == |text|
  {
    if |text| >= 2 {
      DecodesExactlyWellFormed(text[2..]);
      assert forall i :: 2 <= i < |text| ==> text[i] == text[2..][i - 2];
    }
  }

  /** The first octet that is no digit is what is reported. */
  lemma {:induction false} InvalidByteExactly(text: seq<byte>, b: byte)
    ensures Decode(text) == Err(InvalidByte(b)) <==>
            exists i :: 0 <= i < |text| && text[i] == b && !IsDigit(b) && forall j :: 0 <= j < i ==> IsDigit(text[j])
  {
    if |text| >= 2 && IsDigit(text[0]) && IsDigit(text[1]) {
      var rest := text[2..];
      InvalidByteExactly(rest, b);
      if i :| 0 <= i < |rest| && rest[i] == b && !IsDigit(b) && forall j :: 0 <= j < i ==> IsDigit(rest[j]) {
        assert text[i + 2] == b;
        assert forall j :: 2 <= j < i + 2 ==> text[j] == rest[j - 2];
      }
      if i :| 0 <= i < |text| && text[i] == b && !IsDigit(b) && forall j :: 0 <= j < i ==> IsDigit(text[j]) {
        assert i >= 2 && rest[i - 2] == b;
        assert forall j :: 0 <= j < i - 2 ==> rest[j] == text[j + 2];
      }
    } else if text != [] {
      assert !IsDigit(text[0]) ==> text[0] == text[0];
      assert |text| >= 2 ==> text[1] == text[1];
    }
  }

  /** An odd number of digits is reported as odd. */
  lemma {:induction false} OddLengthExactly(text: seq<byte>)
    ensures Decode(text) == Err(OddLength) <==> |text| % 2 == 1 && forall i :: 0 <= i < |text| ==> IsDigit(text[i])
  {
    if |text| >= 2 {
      OddLengthExactly(text[2..]);
      assert forall i :: 2 <= i < |text| ==> text[i] == text[2..][i - 2];
    }
  }

  lemma {:induction false} EncodeWellFormed(key: seq<byte>)
    ensures WellFormed(Encode(key)) && |Encode(key)| == 2 * |key|
    ensures Lower(Encode(key)) == Encode(key)
  {
    var e := Encode(key);
    if key != [] {
      var rest := Encode(key[1..]);
      EncodeWellFormed(key[1..]);
      forall i | 0 <= i < |e|
        ensures IsDigit(e[i]) && LowerDigit(e[i]) == e[i]
      {
        if i >= 2 {
          assert e[i] == rest[i - 2] && Lower(rest)[i - 2] == rest[i - 2];
        }
      }
    }
  }

  lemma {:induction false} PairRoundTrip(a: byte, b: byte)
    requires IsDigit(a) && IsDigit(b)
    ensures var v := Value(a) * 16 + Value(b);
            Digit(v / 16) == LowerDigit(a) && Digit(v % 16) == LowerDigit(b)
  {
    var v := Value(a) * 16 + Value(b);
    assert v / 16 == Value(a) && v % 16 == Value(b);
  }

  /** Re-encoding what was read gives the lower-case form of the text. */
  lemma {:induction false} EncodeAfterDecode(text: seq<byte>)
    requires WellFormed(text)
    ensures Decode(text).Ok? && Encode(Decode(text).value) == Lower(text)
  {
    DecodesExactlyWellFormed(text);
    if text != [] {
      var t := text[2..];
      assert WellFormed(t) by {
        assert forall i :: 0 <= i < |t| ==> t[i] == text[i + 2];
      }
      EncodeAfterDecode(t);
      var head := Value(text[0]) * 16 + Value(text[1]);
      var key := Decode(text).value;
      assert key[0] == head && key[1..] == Decode(t).value;
      PairRoundTrip(text[0], text[1]);
      assert Lower(text) == [LowerDigit(text[0]), LowerDigit(text[1])] + Lower(t);
    }
  }

  /** Whatever the case of its digits, the hex text of a key reads back as that key. */
  lemma {:induction false} DecodeAfterEncode(key: seq<byte>, text: seq<byte>)
    requires Lower(text) == Encode(key)
    ensures Decode(text) == Ok(key)
  {
    EncodeWellFormed(key);
    assert |text| == |Lower(text)|;
    if key != [] {
      assert Lower(text)[0] == Digit(key[0] / 16) && Lower(text)[1] == Digit(key[0] % 16);
      assert Lower(text[2..]) == Lower(text)[2..] == Encode(key[1..]);
      DecodeAfterEncode(key[1..], text[2..]);
      assert key == [key[0]] + key[1..];
    }
  }

  /** Two well-formed texts name the same key exactly when they differ only in case. */
  lemma {:induction false} SameKeyIffSameLower(a: seq<byte>, b: seq<byte>)
    requires WellFormed(a) && WellFormed(b)
    ensures Decode(a) == Decode(b) <==> Lower(a) == Lower(b)
  {
    EncodeAfterDecode(a);
    EncodeAfterDecode(b);
    if Lower(a) == Lower(b) {
      DecodeAfterEncode(Decode(a).value, b);
    }
  }
}
