/**
 How the add-keys endpoint reads validator keys: every entry is base64 text of hex text of the
 key bytes. The functions here are the specification that SimulatorFacade.AddValidatorKeys
 is proved against.
 */
module KeyCodec {
  import opened Wrappers
  import opened Bytes
  import Base16
  import Base64

  datatype KeyError = NotBase64 | NotHex(cause: Base16.HexError)
  datatype BadEntry = BadEntry(index: nat, cause: KeyError)

  function DecodeKey(entry: seq<byte>): Result<seq<byte>, KeyError> {
    match Base64.Decode(entry)
    case None => Err(NotBase64)
    case Some(text) =>
      match Base16.Decode(text)
      case Err(e) => Err(NotHex(e))
      case Ok(key) => Ok(key)
  }

  /** All the keys in order, or the first entry that does not decode. */
  function DecodeKeys(entries: seq<seq<byte>>): Result<seq<seq<byte>>, BadEntry> {
    if entries == [] then Ok([])
    else match DecodeKey(entries[0])
      case Err(e) => Err(BadEntry(0, e))
      case Ok(key) =>
        match DecodeKeys(entries[1..])
        case Err(bad) => Err(bad.(index := bad.index + 1))
        case Ok(keys) => Ok([key] + keys)
  }

  /**
   What an entry must look like, said without any decoder: newlines and unused bits aside, it is
   the base64 encoding of well-formed hex text.
   */
  ghost predicate EntryWellFormed(entry: seq<byte>) {
    var text := StripNewlines(entry);
    && Base64.WellFormed(text)
    && exists hexText :: Base16.WellFormed(hexText) && Base64.ClearPadBits(text) == Base64.Encode(hexText)
  }

  /** The one canonical entry of a key: lower-case hex, zero unused bits, no newlines. */
  function Canonical(key: seq<byte>): seq<byte> {
    Base64.Encode(Base16.Encode(key))
  }

  lemma {:induction false} KeyDecodesIffWellFormed(entry: seq<byte>)
    ensures DecodeKey(entry).Ok? <==> EntryWellFormed(entry)
  {
    var text := StripNewlines(entry);
    Base64.DecodesExactlyWellFormed(text);
    if Base64.Decode(entry).Some? {
      var hexText := Base64.Decode(entry).value;
      Base64.EncodeAfterDecode(text);
      Base16.DecodesExactlyWellFormed(hexText);
      forall other | Base64.Encode(other) == Base64.Encode(hexText)
        ensures other == hexText
      {
        Base64.DecodeAfterEncode(other);
        Base64.DecodeAfterEncode(hexText);
      }
    }
  }

  /** The keys come out exactly when each entry decodes to the key at its own position. */
  lemma {:induction false} KeysPointwise(entries: seq<seq<byte>>, keys: seq<seq<byte>>)
    ensures DecodeKeys(entries) == Ok(keys) <==>
            |keys| == |entries| && forall i :: 0 <= i < |entries| ==> DecodeKey(entries[i]) == Ok(keys[i])
  {
    if entries != [] {
      if keys != [] {
        KeysPointwise(entries[1..], keys[1..]);
        assert keys == [keys[0]] + keys[1..];
        assert forall i :: 1 <= i < |entries| ==> entries[i] == entries[1..][i - 1];
        assert |keys| == |entries| ==> forall i :: 1 <= i < |keys| ==> keys[i] == keys[1..][i - 1];
      }
    }
  }

  /** The entry named is the first that does not decode, and the cause is its own. */
  ghost predicate FirstBad(entries: seq<seq<byte>>, bad: BadEntry) {
    && bad.index < |entries| && DecodeKey(entries[bad.index]) == Err(bad.cause)
    && forall i :: 0 <= i < bad.index ==> DecodeKey(entries[i]).Ok?
  }

  lemma {:induction false} FirstBadOfTail(entries: seq<seq<byte>>, bad: BadEntry)
    requires entries != [] && DecodeKey(entries[0]).Ok? && bad.index > 0
    ensures FirstBad(entries, bad) <==> FirstBad(entries[1..], bad.(index := bad.index - 1))
  {
    var rest, before := entries[1..], bad.(index := bad.index - 1);
    assert forall i :: 0 < i < |entries| ==> entries[i] == rest[i - 1];
    if FirstBad(rest, before) {
      forall i | 0 <= i < bad.index
        ensures DecodeKey(entries[i]).Ok?
      {
        assert i > 0 ==> DecodeKey(rest[i - 1]).Ok?;
      }
    }
  }

  /** The error names the first entry that does not decode, with that entry's own error. */
  lemma {:induction false} FirstBadEntry(entries: seq<seq<byte>>, bad: BadEntry)
    ensures DecodeKeys(entries) == Err(bad) <==> FirstBad(entries, bad)
  {
    if entries != [] && DecodeKey(entries[0]).Ok? && bad.index > 0 {
      FirstBadOfTail(entries, bad);
      FirstBadEntry(entries[1..], bad.(index := bad.index - 1));
    }
  }

  /** A list of entries is accepted exactly when every one of them is well formed. */
  lemma {:induction false} AcceptsExactlyWellFormed(entries: seq<seq<byte>>)
    ensures DecodeKeys(entries).Ok? <==> forall i :: 0 <= i < |entries| ==> EntryWellFormed(entries[i])
  {
    forall i | 0 <= i < |entries|
      ensures DecodeKey(entries[i]).Ok? <==> EntryWellFormed(entries[i])
    {
      KeyDecodesIffWellFormed(entries[i]);
    }
    match DecodeKeys(entries)
    case Ok(keys) => KeysPointwise(entries, keys);
    case Err(bad) => FirstBadEntry(entries, bad);
  }

  /** Octets 13 and 10 make no difference to an entry, wherever they stand. */
  lemma {:induction false} CrAndLfMakeNoDifference(a: seq<byte>, b: seq<byte>)
    ensures DecodeKey(a + [13] + b) == DecodeKey(a + b)
    ensures DecodeKey(a + [10] + b) == DecodeKey(a + b)
  {
    CrAndLfAreSkipped(a, b);
  }

  /** Which of the two decoders an entry fails in, and with what. */
  lemma {:induction false} KeyErrorsExactly(entry: seq<byte>, e: Base16.HexError)
    ensures DecodeKey(entry) == Err(NotBase64) <==> !Base64.WellFormed(StripNewlines(entry))
    ensures DecodeKey(entry) == Err(NotHex(e)) <==>
            && Base64.WellFormed(StripNewlines(entry))
            && exists text :: Base16.Decode(text) == Err(e) &&
                              Base64.ClearPadBits(StripNewlines(entry)) == Base64.Encode(text)
  {
    var clean := StripNewlines(entry);
    Base64.DecodesExactlyWellFormed(clean);
    if Base64.WellFormed(clean) {
      var text := Base64.Decode(entry).value;
      Base64.EncodeAfterDecode(clean);
      forall other | Base64.Encode(other) == Base64.Encode(text)
        ensures other == text
      {
        Base64.DecodeAfterEncode(other);
        Base64.DecodeAfterEncode(text);
      }
    }
  }

  /** An entry printed from a key, with either case of hex and newlines anywhere, reads as the key. */
  lemma {:induction false} KeyRoundTrip(key: seq<byte>, hexText: seq<byte>, entry: seq<byte>)
    requires Base16.Lower(hexText) == Base16.Encode(key)
    requires StripNewlines(entry) == Base64.Encode(hexText)
    ensures DecodeKey(entry) == Ok(key)
  {
    Base64.DecodeIgnoresNewlines(hexText, entry);
    Base16.DecodeAfterEncode(key, hexText);
  }

  lemma {:induction false} KeysRoundTrip(keys: seq<seq<byte>>, hexTexts: seq<seq<byte>>, entries: seq<seq<byte>>)
    requires |keys| == |hexTexts| == |entries|
    requires forall i :: 0 <= i < |keys| ==> Base16.Lower(hexTexts[i]) == Base16.Encode(keys[i])
    requires forall i :: 0 <= i < |keys| ==> StripNewlines(entries[i]) == Base64.Encode(hexTexts[i])
    ensures DecodeKeys(entries) == Ok(keys)
  {
    forall i | 0 <= i < |keys|
      ensures DecodeKey(entries[i]) == Ok(keys[i])
    {
      KeyRoundTrip(keys[i], hexTexts[i], entries[i]);
    }
    KeysPointwise(entries, keys);
  }

  /** The canonical entry of a key is read as that key. */
  lemma {:induction false} CanonicalDecodes(key: seq<byte>)
    ensures DecodeKey(Canonical(key)) == Ok(key)
  {
    Base16.EncodeWellFormed(key);
    Base64.EncodeAlphabet(Base16.Encode(key));
    StripClean(Canonical(key));
    KeyRoundTrip(key, Base16.Encode(key), Canonical(key));
  }

  /** Reading, printing canonically and reading again changes nothing. */
  lemma {:induction false} KeysNormalForm(entries: seq<seq<byte>>)
    requires DecodeKeys(entries).Ok?
    ensures var keys := DecodeKeys(entries).value;
            DecodeKeys(seq(|keys|, i requires 0 <= i < |keys| => Canonical(keys[i]))) == Ok(keys)
  {
    var keys := DecodeKeys(entries).value;
    var canonical := seq(|keys|, i requires 0 <= i < |keys| => Canonical(keys[i]));
    forall i | 0 <= i < |keys|
      ensures DecodeKey(canonical[i]) == Ok(keys[i])
    {
      CanonicalDecodes(keys[i]);
    }
    KeysPointwise(canonical, keys);
  }

  lemma {:induction false} AcceptedParts(entry: seq<byte>)
    requires DecodeKey(entry).Ok?
    ensures Base64.WellFormed(StripNewlines(entry)) && Base64.Decode(entry).Some?
    ensures var hexText := Base64.Decode(entry).value;
            Base16.WellFormed(hexText) && Base16.Decode(hexText) == Ok(DecodeKey(entry).value)
  {
    Base64.DecodesExactlyWellFormed(StripNewlines(entry));
    Base16.DecodesExactlyWellFormed(Base64.Decode(entry).value);
  }

  /** Exactly when an accepted entry, newlines aside, is the canonical one of its key. */
  lemma {:induction false} CanonicalIff(entry: seq<byte>)
    requires EntryWellFormed(entry)
    ensures DecodeKey(entry).Ok?
    ensures var hexText := Base64.Decode(entry).value;
            Canonical(DecodeKey(entry).value) == StripNewlines(entry) <==>
            Base64.ZeroPadBits(StripNewlines(entry)) && Base16.Lower(hexText) == hexText
  {
    KeyDecodesIffWellFormed(entry);
    AcceptedParts(entry);
    var text := StripNewlines(entry);
    var hexText := Base64.Decode(entry).value;
    Base16.EncodeAfterDecode(hexText);
    Base64.CanonicalIffZeroPadBits(text);
    Base64.DecodeAfterEncode(Base16.Lower(hexText));
  }

  /** Two accepted entries name the same key exactly when their hex texts differ only in case. */
  lemma {:induction false} SameKeyIff(a: seq<byte>, b: seq<byte>)
    requires DecodeKey(a).Ok? && DecodeKey(b).Ok?
    ensures DecodeKey(a) == DecodeKey(b) <==>
            Base16.Lower(Base64.Decode(a).value) == Base16.Lower(Base64.Decode(b).value)
  {
    AcceptedParts(a);
    AcceptedParts(b);
    Base16.SameKeyIffSameLower(Base64.Decode(a).value, Base64.Decode(b).value);
  }
}
