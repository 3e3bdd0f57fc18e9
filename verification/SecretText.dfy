/** Editing a secret by character positions, in its UTF-8 bytes (crates/frd-core/src/secret.rs). */
module SecretText {
  import opened Bytes
  import opened Results
  import opened Utf8

  /** Where the k-th character of a text starts in its encoding; for the last position, where the text ends. */
  function Offset(t: Text, k: nat): nat
    requires k <= |t|
  {
    |Encoded(t[..k])|
  }

  lemma OffsetSplits(t: Text, k: nat)
    requires k <= |t|
    ensures Offset(t, k) <= |Encoded(t)|
    ensures Encoded(t)[..Offset(t, k)] == Encoded(t[..k])
    ensures Encoded(t)[Offset(t, k)..] == Encoded(t[k..])
  {
    hide EncodedScalar, Encoded;
    EncodedAppend(t[..k], t[k..]);
    assert t == t[..k] + t[k..];
  }

  lemma OffsetsAscend(t: Text, j: nat, k: nat)
    requires j <= k <= |t|
    ensures Offset(t, j) <= Offset(t, k)
  {
    OffsetSplits(t[..k], j);
    assert t[..k][..j] == t[..j];
  }

  datatype ByteRange = ByteRange(start: nat, end: nat)

  /** The byte positions of all characters, and the end, by walking over the text. */
  method Boundaries(text: seq<u8>) returns (boundaries: seq<nat>)
    requires IsUtf8(text)
    ensures var t := Decoded(text).value;
            |boundaries| == |t| + 1 && forall k :: 0 <= k <= |t| ==> boundaries[k] == Offset(t, k)
  {
    hide DecodedFirst, EncodedScalar, Decoded, Encoded;
    NothingEncoded();
    ghost var t := Decoded(text).value;
    DecodesExactly(text, t);
    var at := 0;
    boundaries := [];
    while at < |text|
      invariant at <= |text| && |boundaries| <= |t|
      invariant at == Offset(t, |boundaries|)
      invariant Decoded(text[at..]) == Some(t[|boundaries|..])
      invariant forall k :: 0 <= k < |boundaries| ==> boundaries[k] == Offset(t, k)
      decreases |text| - at
    {
      ghost var n := |boundaries|;
      DecodedStep(text[at..]);
      var first := DecodedFirst(text[at..]).value;
      assert t[n] == t[n..][0] == first.scalar && t[n..][1..] == t[n + 1..];
      assert text[at..][first.width..] == text[at + first.width..];
      EncodedAppend(t[..n], [t[n]]);
      assert t[..n] + [t[n]] == t[..n + 1];
      SingleEncoded(t[n]);
      boundaries := boundaries + [at];
      at := at + first.width;
    }
    assert text[at..] == [] && t[|boundaries|..] == [];
    assert t[..|boundaries|] == t;
    boundaries := boundaries + [|text|];
  }

  lemma NothingEncoded()
    ensures Encoded([]) == [] && Decoded([]) == Some([])
  {
  }

  lemma SingleEncoded(c: Scalar)
    ensures Encoded([c]) == EncodedScalar(c)
  {
  }

  method CharRangeToByteRange(text: seq<u8>, start: nat, end: nat) returns (r: Option<ByteRange>)
    requires IsUtf8(text)
    ensures var t := Decoded(text).value;
            r == if start <= end <= |t| then Some(ByteRange(Offset(t, start), Offset(t, end))) else None
  {
    if start > end {
      return None;
    }
    var boundaries := Boundaries(text);
    if start >= |boundaries| || end >= |boundaries| {
      return None;
    }
    return Some(ByteRange(boundaries[start], boundaries[end]));
  }

  /** The characters before the range, the replacement, and the characters after it. */
  function Spliced(t: Text, start: nat, end: nat, replacement: Text): Text
    requires start <= end <= |t|
  {
    t[..start] + replacement + t[end..]
  }

  /** Splicing bytes at character boundaries is splicing characters. */
  lemma SpliceIsSplice(t: Text, start: nat, end: nat, replacement: Text)
    requires start <= end <= |t|
    ensures Offset(t, start) <= Offset(t, end) <= |Encoded(t)|
    ensures Encoded(t)[..Offset(t, start)] + Encoded(replacement) + Encoded(t)[Offset(t, end)..]
         == Encoded(Spliced(t, start, end, replacement))
  {
    OffsetSplits(t, start);
    OffsetSplits(t, end);
    OffsetsAscend(t, start, end);
    EncodedAppend(t[..start] + replacement, t[end..]);
    EncodedAppend(t[..start], replacement);
  }

  class SecretBuffer {
    var bytes: seq<u8>

    constructor (bytes: seq<u8>)
      ensures this.bytes == bytes
    {
      this.bytes := bytes;
    }

    /**
     Replaces a range of characters. It succeeds exactly when the buffer holds text and the range lies in it,
     and then the buffer holds the text with the range replaced; otherwise the buffer is as before.
     */
    method ReplaceTextCharRange(start: nat, end: nat, replacement: seq<u8>) returns (ok: bool)
      requires IsUtf8(replacement)
      modifies this
      ensures ok <==> IsUtf8(old(bytes)) && start <= end <= |Decoded(old(bytes)).value|
      ensures ok ==> Decoded(bytes) == Some(Spliced(Decoded(old(bytes)).value, start, end, Decoded(replacement).value))
      ensures !ok ==> bytes == old(bytes)
    {
      if Decoded(bytes).None? {
        return false;
      }
      var byteRange := CharRangeToByteRange(bytes, start, end);
      if byteRange.None? {
        return false;
      }
      var r := byteRange.value;
      ghost var t, insertion := Decoded(bytes).value, Decoded(replacement).value;
      DecodesExactly(bytes, t);
      DecodesExactly(replacement, insertion);
      SpliceIsSplice(t, start, end, insertion);
      // The capacity the source reserves is not negative.
      var capacity: nat := |bytes| - (r.end - r.start) + |replacement|;
      var replaced := bytes[..r.start] + replacement + bytes[r.end..];
      assert |replaced| == capacity;
      bytes := replaced;
      DecodesExactly(bytes, Spliced(t, start, end, insertion));
      return true;
    }

    method InsertTextAtChar(index: nat, text: seq<u8>) returns (ok: bool)
      requires IsUtf8(text)
      modifies this
      ensures ok <==> IsUtf8(old(bytes)) && index <= |Decoded(old(bytes)).value|
      ensures ok ==> var t := Decoded(old(bytes)).value;
                     Decoded(bytes) == Some(t[..index] + Decoded(text).value + t[index..])
      ensures !ok ==> bytes == old(bytes)
    {
      ok := ReplaceTextCharRange(index, index, text);
    }

    method DeleteTextCharRange(start: nat, end: nat) returns (ok: bool)
      modifies this
      ensures ok <==> IsUtf8(old(bytes)) && start <= end <= |Decoded(old(bytes)).value|
      ensures ok ==> var t := Decoded(old(bytes)).value; Decoded(bytes) == Some(t[..start] + t[end..])
      ensures !ok ==> bytes == old(bytes)
    {
      ok := ReplaceTextCharRange(start, end, []);
      if ok {
        ghost var t := Decoded(old(bytes)).value;
        assert Spliced(t, start, end, []) == t[..start] + t[end..];
      }
    }
  }
}
