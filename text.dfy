/**
 * .NET strings as the code sees them: sequences of UTF-16 code units. `Length` and range slicing
 * count code units, so a character outside the Basic Multilingual Plane (an emoji, say) counts
 * twice and can be cut between its two surrogates.
 */
module Utf16Text {

  /** One UTF-16 code unit. */
  type CodeUnit = x: int | 0 <= x < 0x1_0000

  /** Code units that open a surrogate pair. */
  predicate IsHighSurrogate(u: CodeUnit)
  {
    0xD800 <= u < 0xDC00
  }

  /** Characters that UTF-16 writes as one code unit. */
  predicate IsBmp(c: char)
  {
    (c as int) < 0x1_0000
  }

  /** The code units of one character: itself in the Basic Multilingual Plane, otherwise a surrogate pair. */
  function EncodeChar(c: char): (r: seq<CodeUnit>)
    ensures IsBmp(c) ==> r == [c as int]
    ensures !IsBmp(c) ==> |r| == 2 && IsHighSurrogate(r[0]) && !IsHighSurrogate(r[1])
  {
    var v := c as int;
    if v < 0x1_0000 then [v]
    else
      var w := v - 0x1_0000;
      [0xD800 + w / 0x400, 0xDC00 + w % 0x400]
  }

  /** The UTF-16 form of a text, character by character. */
  function Encode(s: string): (r: seq<CodeUnit>)
    ensures |s| <= |r| <= 2 * |s|
    decreases |s|
  {
    if |s| == 0 then [] else EncodeChar(s[0]) + Encode(s[1..])
  }

  /** Encoding a concatenation is concatenating the encodings. */
  lemma {:induction false} EncodeAppend(a: string, b: string)
    ensures Encode(a + b) == Encode(a) + Encode(b)
    decreases |a|
  {
    if |a| > 0 {
      assert (a + b)[0] == a[0] && (a + b)[1..] == a[1..] + b;
      EncodeAppend(a[1..], b);
      assert Encode(a + b) == EncodeChar(a[0]) + (Encode(a[1..]) + Encode(b));
    } else {
      assert a + b == b;
    }
  }

  /** The encoding of a text is that of its first `k` characters followed by that of the rest. */
  lemma EncodeSplit(s: string, k: nat)
    requires k <= |s|
    ensures Encode(s) == Encode(s[..k]) + Encode(s[k..])
  {
    assert s == s[..k] + s[k..];
    EncodeAppend(s[..k], s[k..]);
  }

  /** A text of Basic Multilingual Plane characters has one code unit per character, of the same value. */
  lemma {:induction false} EncodeBmp(s: string)
    requires forall i :: 0 <= i < |s| ==> IsBmp(s[i])
    ensures |Encode(s)| == |s|
    ensures forall i :: 0 <= i < |s| ==> Encode(s)[i] == s[i] as int
    decreases |s|
  {
    if |s| > 0 {
      EncodeBmp(s[1..]);
      assert Encode(s) == [s[0] as int] + Encode(s[1..]);
    }
  }

  /** A text of characters beyond the Basic Multilingual Plane has two code units per character. */
  lemma {:induction false} EncodeAstral(s: string)
    requires forall i :: 0 <= i < |s| ==> !IsBmp(s[i])
    ensures |Encode(s)| == 2 * |s|
    decreases |s|
  {
    if |s| > 0 {
      EncodeAstral(s[1..]);
    }
  }
}
