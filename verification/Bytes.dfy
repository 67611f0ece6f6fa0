/** Go strings and byte slices, both as sequences of octets. */
module Bytes {

  type byte = x: int | 0 <= x < 256

  const LF: byte := 10
  const CR: byte := 13
  const DASH: byte := 45

  predicate IsNewline(b: byte) {
    b == LF || b == CR
  }

  /** The octets of an ASCII literal. */
  function Ascii(s: string): (r: seq<byte>)
    requires forall i :: 0 <= i < |s| ==> s[i] < 128 as char
    ensures |r| == |s|
    ensures forall i :: 0 <= i < |s| ==> r[i] == s[i] as int
  {
    seq(|s|, i requires 0 <= i < |s| => s[i] as int)
  }

  lemma {:induction false} AsciiConcat(a: string, b: string)
    requires forall i :: 0 <= i < |a| ==> a[i] < 128 as char
    requires forall i :: 0 <= i < |b| ==> b[i] < 128 as char
    ensures Ascii(a + b) == Ascii(a) + Ascii(b)
  {}

  /** What a decoder that skips CR and LF gets to see. */
  function StripNewlines(s: seq<byte>): seq<byte> {
    if s == [] then []
    else if IsNewline(s[0]) then StripNewlines(s[1..])
    else [s[0]] + StripNewlines(s[1..])
  }

  lemma {:induction false} StripConcat(a: seq<byte>, b: seq<byte>)
    ensures StripNewlines(a + b) == StripNewlines(a) + StripNewlines(b)
  {
    if a == [] {
      assert a + b == b;
    } else {
      assert (a + b)[1..] == a[1..] + b && (a + b)[0] == a[0];
      StripConcat(a[1..], b);
      var ra, rb := StripNewlines(a[1..]), StripNewlines(b);
      assert [a[0]] + (ra + rb) == [a[0]] + ra + rb;
    }
  }

  /** Octets 13 and 10 are skipped wherever they stand. */
  lemma {:induction false} CrAndLfAreSkipped(a: seq<byte>, b: seq<byte>)
    ensures StripNewlines(a + [13] + b) == StripNewlines(a + b)
    ensures StripNewlines(a + [10] + b) == StripNewlines(a + b)
  {
    StripAround(a, 13, b);
    StripAround(a, 10, b);
    StripConcat(a, b);
    var ra := StripNewlines(a);
    assert ra + [] + StripNewlines(b) == ra + StripNewlines(b);
  }

  /** No other octet is. */
  lemma {:induction false} OthersAreKept(a: seq<byte>, c: byte, b: seq<byte>)
    requires c != 13 && c != 10
    ensures StripNewlines(a + [c] + b) == StripNewlines(a) + [c] + StripNewlines(b)
  {
    StripAround(a, c, b);
  }

  lemma {:induction false} StripAround(a: seq<byte>, c: byte, b: seq<byte>)
    ensures StripNewlines(a + [c] + b) ==
            StripNewlines(a) + (if IsNewline(c) then [] else [c]) + StripNewlines(b)
  {
    StripConcat(a + [c], b);
    StripConcat(a, [c]);
    assert [c][1..] == [];
    assert StripNewlines([c]) == if IsNewline(c) then [] else [c];
  }

  lemma {:induction false} StripClean(s: seq<byte>)
    requires forall b :: b in s ==> !IsNewline(b)
    ensures StripNewlines(s) == s
  {
    if s != [] {
      StripClean(s[1..]);
      assert s == [s[0]] + s[1..];
    }
  }
}
