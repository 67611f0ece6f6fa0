/**
 The one-pass decoder: it walks over the raw text once, collecting four symbols at a time,
 stepping over newlines where it meets them and stopping at the padding. It is proved to agree
 with "strip the newlines, then decode what is left" on every input.
 */
module Base64Scanner {
  import opened Wrappers
  import opened Bytes
  import opened Base64

  lemma {:induction false} StripStep(src: seq<byte>, i: nat)
    requires i < |src|
    ensures StripNewlines(src[i..]) ==
            (if IsNewline(src[i]) then [] else [src[i]]) + StripNewlines(src[i + 1..])
  {
    assert src[i..][1..] == src[i + 1..];
  }

  method SkipNewlines(src: seq<byte>, start: nat) returns (i: nat)
    requires start <= |src|
    ensures start <= i <= |src|
    ensures StripNewlines(src[i..]) == StripNewlines(src[start..])
    ensures i < |src| ==> !IsNewline(src[i])
    ensures i < |src| <==> StripNewlines(src[start..]) != []
  {
    i := start;
    while i < |src| && IsNewline(src[i])
      invariant start <= i <= |src|
      invariant StripNewlines(src[i..]) == StripNewlines(src[start..])
    {
      StripStep(src, i);
      i := i + 1;
    }
    if i < |src| {
      StripStep(src, i);
    }
  }

  lemma {:induction false} RejectsBadSymbol(q: seq<byte>, c: byte, rest: seq<byte>)
    requires |q| < 4 && forall b :: b in q ==> IsSymbol(b)
    requires !IsSymbol(c) && (c != PAD || |q| < 2)
    ensures DecodeClean(q + [c] + rest) == None
  {
    var s := q + [c] + rest;
    assert s[|q|] == c;
    assert forall i :: 0 <= i < |q| ==> s[i] == q[i];
    assert |s| >= 4 ==> s[2..][0] == s[2] && s[3..][0] == s[3];
  }

  /** After two symbols a pad must be followed by one more pad and nothing else. */
  lemma {:induction false} PadAfterTwo(q: seq<byte>, rest: seq<byte>)
    requires |q| == 2 && IsSymbol(q[0]) && IsSymbol(q[1])
    ensures DecodeClean(q + [PAD] + rest) ==
            if rest == [PAD] then Some(Join(Value(q[0]), Value(q[1]), 0, 0)[..1]) else None
  {
    var s := q + [PAD] + rest;
    assert s[2..] == [PAD] + rest;
    if rest == [PAD] {
      assert s[2..] == [PAD, PAD];
    } else if |s| >= 4 {
      assert rest == s[2..][1..];
      assert s[2] == PAD && s[2..] != [PAD, PAD];
    }
  }

  /** After three symbols a pad must be the end. */
  lemma {:induction false} PadAfterThree(q: seq<byte>, rest: seq<byte>)
    requires |q| == 3 && IsSymbol(q[0]) && IsSymbol(q[1]) && IsSymbol(q[2])
    ensures DecodeClean(q + [PAD] + rest) ==
            if rest == [] then Some(Join(Value(q[0]), Value(q[1]), Value(q[2]), 0)[..2]) else None
  {
    var s := q + [PAD] + rest;
    assert s[3..] == [PAD] + rest;
    assert s[2..][0] == s[2] != PAD;
    if rest == [] {
      assert s[3..] == [PAD];
    } else {
      assert rest == s[3..][1..];
      assert s[3] == PAD && s[3..] != [PAD];
    }
  }

  /** The tail of the text once the first pad has been read. */
  method FinishPadded(src: seq<byte>, start: nat, quantum: seq<byte>) returns (r: Option<seq<byte>>)
    requires start <= |src| && 2 <= |quantum| < 4 && forall b :: b in quantum ==> IsSymbol(b)
    ensures r == DecodeClean(quantum + [PAD] + StripNewlines(src[start..]))
  {
    var i := SkipNewlines(src, start);
    if |quantum| == 2 {
      PadAfterTwo(quantum, StripNewlines(src[start..]));
      if i == |src| {
        return None;
      }
      StripStep(src, i);
      if src[i] != PAD {
        return None;
      }
      i := SkipNewlines(src, i + 1);
      if i < |src| {
        return None;
      }
      return Some(Join(Value(quantum[0]), Value(quantum[1]), 0, 0)[..1]);
    }
    PadAfterThree(quantum, StripNewlines(src[start..]));
    if i < |src| {
      return None;
    }
    return Some(Join(Value(quantum[0]), Value(quantum[1]), Value(quantum[2]), 0)[..2]);
  }

  lemma {:induction false} FullQuantumStep(q: seq<byte>, rest: seq<byte>)
    requires |q| == 4 && forall b :: b in q ==> IsSymbol(b)
    ensures DecodeClean(q + rest) ==
            Prepend(Join(Value(q[0]), Value(q[1]), Value(q[2]), Value(q[3])), DecodeClean(rest))
  {
    DecodeFullQuantum(q + rest);
    assert (q + rest)[4..] == rest;
  }

  lemma {:induction false} PrependPrepend(a: seq<byte>, b: seq<byte>, r: Option<seq<byte>>)
    ensures Prepend(a, Prepend(b, r)) == Prepend(a + b, r)
  {
    if r.Some? {
      assert a + (b + r.value) == a + b + r.value;
    }
  }

  /** A newline is stepped over; any other character moves from the text to the quantum. */
  lemma {:induction false} TakeStep(src: seq<byte>, i: nat, quantum: seq<byte>)
    requires i < |src|
    ensures quantum + StripNewlines(src[i..]) ==
            (if IsNewline(src[i]) then quantum else quantum + [src[i]]) + StripNewlines(src[i + 1..])
  {
    StripStep(src, i);
    var rest := StripNewlines(src[i + 1..]);
    if IsNewline(src[i]) {
      assert [] + rest == rest;
    } else {
      assert quantum + ([src[i]] + rest) == quantum + [src[i]] + rest;
    }
  }

  /** A full quantum moves to the output as three bytes. */
  lemma {:induction false} FlushStep(out: seq<byte>, q: seq<byte>, rest: seq<byte>)
    requires |q| == 4 && forall b :: b in q ==> IsSymbol(b)
    ensures Prepend(out, DecodeClean(q + rest)) ==
            Prepend(out + Join(Value(q[0]), Value(q[1]), Value(q[2]), Value(q[3])), DecodeClean([] + rest))
  {
    FullQuantumStep(q, rest);
    PrependPrepend(out, Join(Value(q[0]), Value(q[1]), Value(q[2]), Value(q[3])), DecodeClean(rest));
    assert [] + rest == rest;
  }

  lemma {:induction false} NothingRead(src: seq<byte>)
    ensures Decode(src) == Prepend([], DecodeClean([] + StripNewlines(src[0..])))
  {
    assert src[0..] == src;
    assert [] + StripNewlines(src) == StripNewlines(src);
    if Decode(src).Some? {
      assert [] + Decode(src).value == Decode(src).value;
    }
  }

  lemma {:induction false} AllRead(src: seq<byte>, out: seq<byte>, quantum: seq<byte>)
    requires |quantum| < 4
    ensures Prepend(out, DecodeClean(quantum + StripNewlines(src[|src|..]))) ==
            if quantum == [] then Some(out) else None
  {
    assert src[|src|..] == [];
    assert quantum + [] == quantum && out + [] == out;
  }

  method DecodeString(src: seq<byte>) returns (r: Option<seq<byte>>)
    ensures r == Decode(src)
  {
    var out: seq<byte>, quantum: seq<byte> := [], [];
    var i := 0;
    NothingRead(src);
    while i < |src|
      invariant 0 <= i <= |src| && |quantum| < 4
      invariant forall b :: b in quantum ==> IsSymbol(b)
      invariant Decode(src) == Prepend(out, DecodeClean(quantum + StripNewlines(src[i..])))
    {
      var c := src[i];
      TakeStep(src, i, quantum);
      i := i + 1;
      if IsNewline(c) {
        continue;
      }
      if IsSymbol(c) {
        quantum := quantum + [c];
        if |quantum| == 4 {
          FlushStep(out, quantum, StripNewlines(src[i..]));
          out := out + Join(Value(quantum[0]), Value(quantum[1]), Value(quantum[2]), Value(quantum[3]));
          quantum := [];
        }
      } else if c == PAD && |quantum| >= 2 {
        var last := FinishPadded(src, i, quantum);
        return Prepend(out, last);
      } else {
        RejectsBadSymbol(quantum, c, StripNewlines(src[i..]));
        return None;
      }
    }
    AllRead(src, out, quantum);
    return if quantum == [] then Some(out) else None;
  }
}
