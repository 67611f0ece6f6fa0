/**
 Standard base64 (section 4 of RFC 4648) as Go's base64.StdEncoding reads it: CR and LF are
 skipped wherever they stand, padding is mandatory, and the unused bits before the padding
 are not looked at.
 */
module Base64 {
  import opened Wrappers
  import opened Bytes

  const PAD: byte := 61

  type sextet = x: int | 0 <= x < 64

  function Symbol(v: sextet): byte {
    if v < 26 then v + 65
    else if v < 52 then v + 71
    else if v < 62 then v - 4
    else if v == 62 then 43
    else 47
  }

  predicate IsSymbol(b: byte) {
    65 <= b <= 90 || 97 <= b <= 122 || 48 <= b <= 57 || b == 43 || b == 47
  }

  function Value(b: byte): sextet
    requires IsSymbol(b)
  {
    if b == 43 then 62
    else if b == 47 then 63
    else if b <= 57 then b + 4
    else if b <= 90 then b - 65
    else b - 71
  }

  /** Three bytes as four six-bit groups. */
  function Split(a: byte, b: byte, c: byte): (r: seq<sextet>)
    ensures |r| == 4
  {
    [a / 4, a % 4 * 16 + b / 16, b % 16 * 4 + c / 64, c % 64]
  }

  /** Four six-bit groups as three bytes. */
  function Join(v: sextet, w: sextet, x: sextet, y: sextet): (r: seq<byte>)
    ensures |r| == 3
  {
    [v * 4 + w / 16, w % 16 * 16 + x / 4, x % 4 * 64 + y]
  }

  function Symbols(v: seq<sextet>): (r: seq<byte>)
    ensures |r| == |v|
    ensures forall i :: 0 <= i < |v| ==> r[i] == Symbol(v[i])
  {
    seq(|v|, i requires 0 <= i < |v| => Symbol(v[i]))
  }

  function Encode(data: seq<byte>): seq<byte> {
    if |data| >= 3 then Symbols(Split(data[0], data[1], data[2])) + Encode(data[3..])
    else if |data| == 2 then Symbols(Split(data[0], data[1], 0)[..3]) + [PAD]
    else if |data| == 1 then Symbols(Split(data[0], 0, 0)[..2]) + [PAD, PAD]
    else []
  }

  /** Decodes a text without newlines, four symbols at a time; only the last four may be padded. */
  function DecodeClean(s: seq<byte>): Option<seq<byte>> {
    if s == [] then Some([])
    else if |s| < 4 || !IsSymbol(s[0]) || !IsSymbol(s[1]) then None
    else if s[2..] == [PAD, PAD] then
      Some(Join(Value(s[0]), Value(s[1]), 0, 0)[..1])
    else if !IsSymbol(s[2]) then None
    else if s[3..] == [PAD] then
      Some(Join(Value(s[0]), Value(s[1]), Value(s[2]), 0)[..2])
    else if !IsSymbol(s[3]) then None
    else Prepend(Join(Value(s[0]), Value(s[1]), Value(s[2]), Value(s[3])), DecodeClean(s[4..]))
  }

  function Prepend(head: seq<byte>, rest: Option<seq<byte>>): Option<seq<byte>> {
    if rest.Some? then Some(head + rest.value) else None
  }

  function Decode(s: seq<byte>): Option<seq<byte>> {
    DecodeClean(StripNewlines(s))
  }

  /** What a text must look like to be decoded, said position by position. */
  predicate WellFormed(s: seq<byte>) {
    && |s| % 4 == 0
    && (s != [] ==>
      && (forall i :: 0 <= i < |s| - 2 ==> IsSymbol(s[i]))
      && (IsSymbol(s[|s| - 2]) || s[|s| - 2..] == [PAD, PAD])
      && (IsSymbol(s[|s| - 1]) || s[|s| - 1] == PAD))
  }

  /** The unused bits before the padding are zero. */
  predicate ZeroPadBits(s: seq<byte>)
    requires WellFormed(s)
  {
    s != [] && s[|s| - 1] == PAD ==>
      if s[|s| - 2] == PAD then Value(s[|s| - 3]) % 16 == 0 else Value(s[|s| - 2]) % 4 == 0
  }

  /** The text with the unused bits before its padding cleared. */
  function ClearPadBits(s: seq<byte>): (r: seq<byte>)
    requires WellFormed(s)
    ensures |r| == |s|
  {
    if s == [] || s[|s| - 1] != PAD then s
    else if s[|s| - 2] == PAD then s[|s| - 3 := Symbol(Value(s[|s| - 3]) / 16 * 16)]
    else s[|s| - 2 := Symbol(Value(s[|s| - 2]) / 4 * 4)]
  }

  /** The alphabet is table 1 of RFC 4648: the capitals, the small letters, the digits, plus and slash. */
  lemma {:induction false} AlphabetIsTable(v: sextet)
    ensures v < 26 ==> Symbol(v) == "ABCDEFGHIJKLMNOPQRSTUVWXYZ"[v] as int
    ensures 26 <= v < 52 ==> Symbol(v) == "abcdefghijklmnopqrstuvwxyz"[v - 26] as int
    ensures 52 <= v < 62 ==> Symbol(v) == "0123456789"[v - 52] as int
    ensures v >= 62 ==> Symbol(v) == "+/"[v - 62] as int
  {}

  /** The four groups are the digits, most significant first, of the number the three bytes are digits of. */
  lemma {:induction false} SplitKeepsNumber(a: byte, b: byte, c: byte)
    ensures var s := Split(a, b, c);
            262144 * (s[0] as int) + 4096 * (s[1] as int) + 64 * (s[2] as int) + s[3] as int ==
            65536 * (a as int) + 256 * (b as int) + c as int
  {}

  lemma {:induction false} SymbolRoundTrip(v: sextet)
    ensures IsSymbol(Symbol(v)) && Value(Symbol(v)) == v
  {}

  lemma {:induction false} ValueRoundTrip(b: byte)
    requires IsSymbol(b)
    ensures Symbol(Value(b)) == b && b != PAD && !IsNewline(b)
  {}

  lemma {:induction false} JoinAfterSplit(a: byte, b: byte, c: byte)
    ensures var s := Split(a, b, c); Join(s[0], s[1], s[2], s[3]) == [a, b, c]
  {}

  lemma {:induction false} SplitAfterJoin(v: sextet, w: sextet, x: sextet, y: sextet)
    ensures var d := Join(v, w, x, y); Split(d[0], d[1], d[2]) == [v, w, x, y]
  {
    var d := Join(v, w, x, y);
    assert d[0] / 4 == v && d[0] % 4 == w / 16;
    assert d[1] / 16 == w % 16 && d[1] % 16 == x / 4;
    assert d[2] / 64 == x % 4 && d[2] % 64 == y;
  }

  /** The symbols of a sequence of groups, read one by one, are those groups. */
  lemma {:induction false} SymbolsRoundTrip(v: seq<sextet>)
    ensures forall i :: 0 <= i < |v| ==>
      IsSymbol(Symbols(v)[i]) && Value(Symbols(v)[i]) == v[i]
  {
    forall i | 0 <= i < |v|
      ensures IsSymbol(Symbols(v)[i]) && Value(Symbols(v)[i]) == v[i]
    {
      SymbolRoundTrip(v[i]);
    }
  }

  lemma {:induction false} TailWellFormed(s: seq<byte>)
    requires |s| > 4
    ensures WellFormed(s) <==> (forall i :: 0 <= i < 4 ==> IsSymbol(s[i])) && WellFormed(s[4..])
  {
    var t := s[4..];
    assert forall i :: 0 <= i < |t| ==> t[i] == s[i + 4];
    if |t| >= 2 {
      assert t[|t| - 2..] == s[|s| - 2..];
    }
    if WellFormed(t) && (forall i :: 0 <= i < 4 ==> IsSymbol(s[i])) {
      assert forall i :: 4 <= i < |s| - 2 ==> s[i] == t[i - 4];
    }
  }

  lemma {:induction false} DecodesExactlyWellFormed(s: seq<byte>)
    ensures DecodeClean(s).Some? <==> WellFormed(s)
  {
    if |s| == 4 {
      assert s[4..] == [];
    } else if |s| > 4 {
      TailWellFormed(s);
      DecodesExactlyWellFormed(s[4..]);
    }
  }

  lemma {:induction false} DecodeTwoPads(s: seq<byte>)
    requires |s| == 4 && IsSymbol(s[0]) && IsSymbol(s[1]) && s[2] == PAD && s[3] == PAD
    ensures DecodeClean(s) == Some([Join(Value(s[0]), Value(s[1]), 0, 0)[0]])
  {
    assert s[2..] == [PAD, PAD];
    var d := Join(Value(s[0]), Value(s[1]), 0, 0);
    assert d[..1] == [d[0]];
  }

  lemma {:induction false} DecodeOnePad(s: seq<byte>)
    requires |s| == 4 && IsSymbol(s[0]) && IsSymbol(s[1]) && IsSymbol(s[2]) && s[3] == PAD
    ensures var d := Join(Value(s[0]), Value(s[1]), Value(s[2]), 0);
            DecodeClean(s) == Some([d[0], d[1]])
  {
    assert s[2..][0] == s[2] != PAD;
    assert s[3..] == [PAD];
    var d := Join(Value(s[0]), Value(s[1]), Value(s[2]), 0);
    assert d[..2] == [d[0], d[1]];
  }

  lemma {:induction false} DecodeFullQuantum(s: seq<byte>)
    requires |s| >= 4 && forall i :: 0 <= i < 4 ==> IsSymbol(s[i])
    ensures DecodeClean(s) == Prepend(Join(Value(s[0]), Value(s[1]), Value(s[2]), Value(s[3])), DecodeClean(s[4..]))
  {
    assert s[2..][0] == s[2] != PAD;
    assert s[3..][0] == s[3] != PAD;
  }

  lemma {:induction false} RoundTripOne(a: byte)
    ensures DecodeClean(Encode([a])) == Some([a])
  {
    var g := Split(a, 0, 0)[..2];
    SymbolsRoundTrip(g);
    assert Encode([a]) == [Symbols(g)[0], Symbols(g)[1], PAD, PAD];
    DecodeTwoPads(Encode([a]));
    JoinAfterSplit(a, 0, 0);
  }

  lemma {:induction false} RoundTripTwo(a: byte, b: byte)
    ensures DecodeClean(Encode([a, b])) == Some([a, b])
  {
    var g := Split(a, b, 0)[..3];
    SymbolsRoundTrip(g);
    assert Encode([a, b]) == [Symbols(g)[0], Symbols(g)[1], Symbols(g)[2], PAD];
    DecodeOnePad(Encode([a, b]));
    JoinAfterSplit(a, b, 0);
  }

  lemma {:induction false} RoundTripThree(a: byte, b: byte, c: byte, rest: seq<byte>)
    ensures DecodeClean(Symbols(Split(a, b, c)) + rest) == Prepend([a, b, c], DecodeClean(rest))
  {
    var g := Split(a, b, c);
    var s := Symbols(g) + rest;
    SymbolsRoundTrip(g);
    DecodeFullQuantum(s);
    assert s[4..] == rest;
    JoinAfterSplit(a, b, c);
  }

  /** Every byte sequence survives encoding and decoding. */
  lemma {:induction false} DecodeAfterEncode(data: seq<byte>)
    ensures DecodeClean(Encode(data)) == Some(data)
  {
    if |data| == 1 {
      assert data == [data[0]];
      RoundTripOne(data[0]);
    } else if |data| == 2 {
      assert data == [data[0], data[1]];
      RoundTripTwo(data[0], data[1]);
    } else if |data| >= 3 {
      var rest := Encode(data[3..]);
      assert DecodeClean(rest) == Some(data[3..]) by { DecodeAfterEncode(data[3..]); }
      RoundTripThree(data[0], data[1], data[2], rest);
      assert data == [data[0], data[1], data[2]] + data[3..];
    }
  }

  /** The encoder emits well-formed text: only symbols and padding, so no newline and no dash. */
  lemma {:induction false} EncodeAlphabet(data: seq<byte>)
    ensures WellFormed(Encode(data))
    ensures forall b :: b in Encode(data) ==> !IsNewline(b) && b != DASH
  {
    DecodeAfterEncode(data);
    DecodesExactlyWellFormed(Encode(data));
    WellFormedAlphabet(Encode(data));
  }

  lemma {:induction false} WellFormedAlphabet(s: seq<byte>)
    requires WellFormed(s)
    ensures forall b :: b in s ==> !IsNewline(b) && b != DASH
  {
    assert s != [] ==> s[|s| - 2..] == [s[|s| - 2], s[|s| - 1]];
    forall i | 0 <= i < |s|
      ensures !IsNewline(s[i]) && s[i] != DASH
    {
      assert IsSymbol(s[i]) || s[i] == PAD;
    }
  }

  /** Newlines inserted anywhere into the encoding do not change what is read. */
  lemma {:induction false} DecodeIgnoresNewlines(data: seq<byte>, text: seq<byte>)
    requires StripNewlines(text) == Encode(data)
    ensures Decode(text) == Some(data)
  {
    DecodeAfterEncode(data);
  }

  lemma {:induction false} EncodeFullQuantum(s: seq<byte>, rest: seq<byte>)
    requires |s| == 4 && forall i :: 0 <= i < 4 ==> IsSymbol(s[i])
    ensures Encode(Join(Value(s[0]), Value(s[1]), Value(s[2]), Value(s[3])) + rest) == s + Encode(rest)
  {
    var d := Join(Value(s[0]), Value(s[1]), Value(s[2]), Value(s[3]));
    SplitAfterJoin(Value(s[0]), Value(s[1]), Value(s[2]), Value(s[3]));
    assert Symbols(Split(d[0], d[1], d[2])) == s by {
      forall i | 0 <= i < 4
        ensures Symbol(Value(s[i])) == s[i]
      {
        ValueRoundTrip(s[i]);
      }
    }
    assert (d + rest)[3..] == rest;
  }

  lemma {:induction false} ClearPadBitsOfTail(s: seq<byte>)
    requires |s| > 4 && WellFormed(s) && WellFormed(s[4..])
    ensures ClearPadBits(s) == s[..4] + ClearPadBits(s[4..])
  {
    assert s == s[..4] + s[4..];
  }

  /** Re-encoding what was read gives the text with its unused bits cleared. */
  lemma {:induction false} EncodeAfterDecode(s: seq<byte>)
    requires WellFormed(s)
    ensures DecodeClean(s).Some? && Encode(DecodeClean(s).value) == ClearPadBits(s)
  {
    DecodesExactlyWellFormed(s);
    if |s| == 4 {
      EncodeAfterDecodeLast(s);
    } else if |s| > 4 {
      var t := s[4..];
      TailWellFormed(s);
      assert DecodeClean(t).Some? && Encode(DecodeClean(t).value) == ClearPadBits(t) by {
        EncodeAfterDecode(t);
      }
      DecodeFullQuantum(s);
      EncodeFullQuantum(s[..4], DecodeClean(t).value);
      ClearPadBitsOfTail(s);
    }
  }

  lemma {:induction false} EncodeAfterDecodeLast(s: seq<byte>)
    requires WellFormed(s) && |s| == 4
    ensures DecodeClean(s).Some? && Encode(DecodeClean(s).value) == ClearPadBits(s)
  {
    DecodesExactlyWellFormed(s);
    if s[3] != PAD {
      DecodeFullQuantum(s);
      EncodeFullQuantum(s, []);
      assert s[4..] == [] && s + [] == s;
      var q := Join(Value(s[0]), Value(s[1]), Value(s[2]), Value(s[3]));
      assert q + [] == q;
    } else if s[2] != PAD {
      ClearTwo(s);
    } else {
      ClearOne(s);
    }
  }

  lemma {:induction false} ClearTwo(s: seq<byte>)
    requires WellFormed(s) && |s| == 4 && s[3] == PAD && s[2] != PAD
    ensures DecodeClean(s).Some? && Encode(DecodeClean(s).value) == ClearPadBits(s)
  {
    var v, w, x := Value(s[0]), Value(s[1]), Value(s[2]);
    var d := Join(v, w, x, 0);
    DecodeOnePad(s);
    SplitAfterJoin(v, w, x / 4 * 4, 0);
    assert Join(v, w, x / 4 * 4, 0) == [d[0], d[1], 0];
    ValueRoundTrip(s[0]);
    ValueRoundTrip(s[1]);
    assert Split(d[0], d[1], 0)[..3] == [v, w, x / 4 * 4];
    assert ClearPadBits(s) == [s[0], s[1], Symbol(x / 4 * 4), PAD];
  }

  lemma {:induction false} ClearOne(s: seq<byte>)
    requires WellFormed(s) && |s| == 4 && s[3] == PAD && s[2] == PAD
    ensures DecodeClean(s).Some? && Encode(DecodeClean(s).value) == ClearPadBits(s)
  {
    var v, w := Value(s[0]), Value(s[1]);
    var high: int := w / 16;
    assert 0 <= high < 4;
    var b: byte := v * 4 + high;
    var z: sextet := high * 16;
    assert DecodeClean(s) == Some([b]) by {
      DecodeTwoPads(s);
    }
    assert b / 4 == v && b % 4 == high;
    assert Split(b, 0, 0)[..2] == [v, z];
    assert Encode([b]) == Symbols([v, z]) + [PAD, PAD] == [Symbol(v), Symbol(z), PAD, PAD];
    ValueRoundTrip(s[0]);
    assert ClearPadBits(s) == [s[0], Symbol(z), PAD, PAD];
  }

  /** Exactly when the encoder gives the text back, symbol for symbol. */
  lemma {:induction false} CanonicalIffZeroPadBits(s: seq<byte>)
    requires WellFormed(s)
    ensures DecodeClean(s).Some? && (Encode(DecodeClean(s).value) == s <==> ZeroPadBits(s))
  {
    EncodeAfterDecode(s);
    if s != [] && s[|s| - 1] == PAD {
      var i := if s[|s| - 2] == PAD then |s| - 3 else |s| - 2;
      assert ClearPadBits(s) == s <==> ClearPadBits(s)[i] == s[i];
    }
  }

  /** Two well-formed texts carry the same bytes exactly when they differ only in unused bits. */
  lemma {:induction false} SameBytesIffSameCleared(s: seq<byte>, t: seq<byte>)
    requires WellFormed(s) && WellFormed(t)
    ensures DecodeClean(s) == DecodeClean(t) <==> ClearPadBits(s) == ClearPadBits(t)
  {
    EncodeAfterDecode(s);
    EncodeAfterDecode(t);
    DecodeAfterEncode(DecodeClean(s).value);
    DecodeAfterEncode(DecodeClean(t).value);
  }

  /** "QQ==" and "QR==" both read as "A": the decoder is not injective. */
  lemma {:induction false} NotInjective()
    ensures Ascii("QQ==") != Ascii("QR==")
    ensures DecodeClean(Ascii("QQ==")) == DecodeClean(Ascii("QR==")) == Some(Ascii("A"))
  {
    var s, t := Ascii("QQ=="), Ascii("QR==");
    assert s == [81, 81, 61, 61] && t == [81, 82, 61, 61];
    assert s[2..] == [PAD, PAD] && t[2..] == [PAD, PAD];
    assert Value(81) == 16 && Value(82) == 17;
    assert Join(16, 16, 0, 0)[..1] == [65] == Join(16, 17, 0, 0)[..1];
    assert Ascii("A") == [65];
  }
}
