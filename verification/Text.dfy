/** The pieces of Go's strings package the program uses: Split and Join on one character, and Contains. */
module Text {

  /** Whether part occurs in text. */
  predicate Contains(text: string, part: string) {
    exists i :: 0 <= i <= |text| && part <= text[i..]
  }

  /** The parts of s between the separators; always at least one. */
  function Split(s: string, sep: char): (parts: seq<string>)
    ensures parts != []
  {
    if s == "" then [""]
    else if s[0] == sep then [""] + Split(s[1..], sep)
    else
      var rest := Split(s[1..], sep);
      [[s[0]] + rest[0]] + rest[1..]
  }

  function Join(parts: seq<string>, sep: char): string {
    if parts == [] then ""
    else if |parts| == 1 then parts[0]
    else parts[0] + [sep] + Join(parts[1..], sep)
  }

  function Count(s: string, c: char): nat {
    if s == "" then 0 else (if s[0] == c then 1 else 0) + Count(s[1..], c)
  }

  lemma {:induction false} PartsHaveNoSeparator(s: string, sep: char)
    ensures forall p :: p in Split(s, sep) ==> sep !in p
    ensures |Split(s, sep)| == Count(s, sep) + 1
  {
    if s != "" {
      PartsHaveNoSeparator(s[1..], sep);
      var rest := Split(s[1..], sep);
      assert rest[0] in rest && forall p :: p in rest[1..] ==> p in rest;
    }
  }

  /** Joining the parts gives the text back. */
  lemma {:induction false} JoinAfterSplit(s: string, sep: char)
    ensures Join(Split(s, sep), sep) == s
  {
    if s != "" {
      JoinAfterSplit(s[1..], sep);
      var rest := Split(s[1..], sep);
      if s[0] == sep {
        assert ([""] + rest)[1..] == rest;
      } else if |rest| == 1 {
        assert Join(rest, sep) == rest[0];
      } else {
        var parts := [[s[0]] + rest[0]] + rest[1..];
        assert parts[1..] == rest[1..];
        assert [s[0]] + (rest[0] + [sep] + Join(rest[1..], sep)) == ([s[0]] + rest[0]) + [sep] + Join(rest[1..], sep);
      }
    }
  }

  lemma {:induction false} SplitPrefix(p: string, s: string, sep: char)
    requires sep !in p
    ensures Split(p + s, sep) == [p + Split(s, sep)[0]] + Split(s, sep)[1..]
  {
    if p == "" {
      assert p + s == s;
      assert p + Split(s, sep)[0] == Split(s, sep)[0];
    } else {
      assert (p + s)[1..] == p[1..] + s && p[0] in p;
      SplitPrefix(p[1..], s, sep);
      assert [p[0]] + (p[1..] + Split(s, sep)[0]) == p + Split(s, sep)[0];
    }
  }

  /** What stands before the first separator is a part of its own. */
  lemma {:induction false} SplitFirst(p: string, s: string, sep: char)
    requires sep !in p
    ensures Split(p + [sep] + s, sep) == [p] + Split(s, sep)
  {
    SplitPrefix(p, [sep] + s, sep);
    assert ([sep] + s)[1..] == s;
    assert p + ([sep] + s) == p + [sep] + s && p + "" == p;
  }

  /** Splitting what was joined gives the parts back, when none of them holds the separator. */
  lemma {:induction false} SplitAfterJoin(parts: seq<string>, sep: char)
    requires parts != [] && forall i :: 0 <= i < |parts| ==> sep !in parts[i]
    ensures Split(Join(parts, sep), sep) == parts
  {
    if |parts| == 1 {
      SplitPrefix(parts[0], "", sep);
      assert parts[0] + "" == parts[0];
      assert parts == [parts[0]];
    } else {
      var rest := Join(parts[1..], sep);
      SplitAfterJoin(parts[1..], sep);
      SplitFirst(parts[0], rest, sep);
      assert parts == [parts[0]] + parts[1..];
    }
  }

  /** Contained is what can be cut out at some position. */
  lemma {:induction false} ContainsIff(text: string, part: string)
    ensures Contains(text, part) <==> exists i: nat :: i + |part| <= |text| && text[i..][..|part|] == part
  {
    if Contains(text, part) {
      var i: nat :| i <= |text| && part <= text[i..];
      assert text[i..][..|part|] == part;
    }
    if i: nat :| i + |part| <= |text| && text[i..][..|part|] == part {
      assert part <= text[i..];
    }
  }

  lemma {:induction false} ContainsMiddle(a: string, part: string, b: string)
    ensures Contains(a + part + b, part)
  {
    assert (a + part + b)[|a|..] == part + b;
  }

  lemma {:induction false} CountConcat(a: string, b: string, c: char)
    ensures Count(a + b, c) == Count(a, c) + Count(b, c)
  {
    if a == "" {
      assert a + b == b;
    } else {
      assert (a + b)[1..] == a[1..] + b;
      CountConcat(a[1..], b, c);
    }
  }

  lemma {:induction false} CountZeroIff(s: string, c: char)
    ensures Count(s, c) == 0 <==> c !in s
  {
    if s != "" {
      CountZeroIff(s[1..], c);
      assert s == [s[0]] + s[1..];
    }
  }
}
