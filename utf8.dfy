/** The UTF-8 size of text, as `Buffer.byteLength(s, 'utf8')` reports it.
    Characters are Unicode scalar values. */
module Utf8 {

  /** Number of bytes UTF-8 spends on one scalar value. */
  function Width(c: char): (w: nat)
    ensures 1 <= w <= 4
  {
    if c as int < 0x80 then 1
    else if c as int < 0x800 then 2
    else if c as int < 0x1_0000 then 3
    else 4
  }

  /** The UTF-8 byte length of `s`. */
  function ByteLength(s: string): (n: nat)
    ensures |s| <= n <= 4 * |s|
    decreases |s|
  {
    if s == [] then 0 else ByteLength(s[..|s| - 1]) + Width(s[|s| - 1])
  }

  /** The size of a concatenation is the sum of the sizes of its parts,
      whatever the parts are. */
  lemma {:induction false} ByteLengthAppend(a: string, b: string)
    ensures ByteLength(a + b) == ByteLength(a) + ByteLength(b)
    decreases |b|
  {
    if b != [] {
      var b' := b[..|b| - 1];
      assert (a + b)[..|a + b| - 1] == a + b[..|b| - 1];
      ByteLengthAppend(a, b');
    } else {
      assert a + b == a;
    }
  }

  /** The byte length equals the character count exactly when every
      character is ASCII. */
  lemma {:induction false} ByteLengthAscii(s: string)
    ensures ByteLength(s) == |s| <==> forall i :: 0 <= i < |s| ==> s[i] as int < 0x80
    decreases |s|
  {
    if s != [] {
      var s' := s[..|s| - 1];
      ByteLengthAscii(s');
      assert forall i :: 0 <= i < |s'| ==> s'[i] == s[i];
    }
  }
}
