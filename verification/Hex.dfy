/** Hexadecimal text over bytes (`encode_hex`, `decode_hex` in
    `rust/chain/src/history_fill.rs`). Text is its UTF-8 bytes, as both functions
    read it. */
module Hex {
  import opened Bytes

  type Digit = n: int | 0 <= n < 16

  /** The value of a digit's character, upper or lower case. */
  function Nibble(c: byte): Option<Digit> {
    if 48 <= c <= 57 then Some(c - 48)
    else if 97 <= c <= 102 then Some(c - 97 + 10)
    else if 65 <= c <= 70 then Some(c - 65 + 10)
    else None
  }

  /** The table's character for a digit, lower case. */
  function Letter(d: Digit): byte {
    if d < 10 then 48 + d else 97 + d - 10
  }

  function Pair(hi: Digit, lo: Digit): (b: byte)
    ensures b as int / 16 == hi as int && b as int % 16 == lo as int
  {
    var h: int, l: int := hi, lo;
    h * 16 + l
  }

  function Lower(c: byte): byte {
    if 65 <= c <= 70 then c + 32 else c
  }

  function Encoded(bytes: Bytes): (r: Bytes)
    ensures |r| == 2 * |bytes|
  {
    if bytes == [] then []
    else
      var b: int := bytes[|bytes| - 1];
      Encoded(bytes[..|bytes| - 1]) + [Letter(b / 16), Letter(b % 16)]
  }

  function Decoded(text: Bytes): (r: Option<Bytes>)
    requires |text| % 2 == 0
    ensures r.Some? ==> 2 * |r.value| == |text|
  {
    if text == [] then Some([])
    else
      var front := Decoded(text[..|text| - 2]);
      var hi, lo := Nibble(text[|text| - 2]), Nibble(text[|text| - 1]);
      if front.None? || hi.None? || lo.None? then None else Some(front.value + [Pair(hi.value, lo.value)])
  }

  /** Strict: an odd length or any other character is refused whole. */
  function Decode(text: Bytes): Option<Bytes> {
    if |text| % 2 == 1 then None else Decoded(text)
  }

  method EncodeHex(bytes: Bytes) returns (out: Bytes)
    ensures out == Encoded(bytes)
  {
    out := [];
    for i := 0 to |bytes|
      invariant out == Encoded(bytes[..i])
    {
      assert bytes[..i + 1][..i] == bytes[..i];
      var b: int := bytes[i];
      out := out + [Letter(b / 16)];
      out := out + [Letter(b % 16)];
    }
    assert bytes[..|bytes|] == bytes;
  }

  method DecodeHex(text: Bytes) returns (r: Option<Bytes>)
    ensures r == Decode(text)
  {
    if |text| % 2 != 0 {
      return None;
    }
    var out: Bytes := [];
    var i := 0;
    while i < |text|
      invariant i <= |text| && i % 2 == 0
      invariant Decoded(text[..i]) == Some(out)
    {
      assert text[..i + 2][..i] == text[..i];
      var hi, lo := Nibble(text[i]), Nibble(text[i + 1]);
      if hi.None? || lo.None? {
        RefusedStays(text, i + 2);
        return None;
      }
      out := out + [Pair(hi.value, lo.value)];
      i := i + 2;
    }
    assert text[..|text|] == text;
    return Some(out);
  }

  lemma {:induction false} RefusedStays(text: Bytes, k: nat)
    requires |text| % 2 == 0 && k % 2 == 0 && k <= |text| && Decoded(text[..k]) == None
    ensures Decoded(text) == None
  {
    if k == |text| {
      assert text[..k] == text;
    } else {
      assert text[..|text| - 2][..k] == text[..k];
      RefusedStays(text[..|text| - 2], k);
    }
  }

  /** **Encoding loses nothing.** */
  lemma {:induction false} DecodeOfEncode(bytes: Bytes)
    ensures Decode(Encoded(bytes)) == Some(bytes)
  {
    if bytes != [] {
      var front := bytes[..|bytes| - 1];
      DecodeOfEncode(front);
      var e := Encoded(bytes);
      assert e[..|e| - 2] == Encoded(front);
      assert front + [bytes[|bytes| - 1]] == bytes;
    }
  }

  predicate IsHex(text: Bytes) {
    forall i :: 0 <= i < |text| ==> Nibble(text[i]).Some?
  }

  lemma HexStep(text: Bytes)
    requires |text| >= 2
    ensures IsHex(text) <==>
      IsHex(text[..|text| - 2]) && Nibble(text[|text| - 2]).Some? && Nibble(text[|text| - 1]).Some?
  {
    var front := text[..|text| - 2];
    assert forall i :: 0 <= i < |front| ==> front[i] == text[i];
  }

  /** **Exactly the even-length hex texts decode.** */
  lemma {:induction false} DecodesExactlyHex(text: Bytes)
    ensures Decode(text).Some? <==> |text| % 2 == 0 && IsHex(text)
  {
    if |text| % 2 == 0 && text != [] {
      DecodesExactlyHex(text[..|text| - 2]);
      HexStep(text);
    }
  }

  function Lowered(text: Bytes): Bytes {
    seq(|text|, i requires 0 <= i < |text| => Lower(text[i]))
  }

  /** **And to what they spell:** encoding the bytes gives the text back in lower case. */
  lemma {:induction false} EncodeOfDecode(text: Bytes)
    requires Decode(text).Some?
    ensures Encoded(Decode(text).value) == Lowered(text)
  {
    if text != [] {
      var front := text[..|text| - 2];
      EncodeOfDecode(front);
      var r := Decoded(text).value;
      assert r[..|r| - 1] == Decoded(front).value;
      LetterOfNibble(text[|text| - 2]);
      LetterOfNibble(text[|text| - 1]);
      assert Lowered(text) == Lowered(front) + [Lower(text[|text| - 2]), Lower(text[|text| - 1])];
    }
  }

  lemma LetterOfNibble(c: byte)
    requires Nibble(c).Some?
    ensures Letter(Nibble(c).value) == Lower(c)
  {
  }
}
