/** Bytes of C text, and statements about where a text stands inside a longer one. */
module Bytes {
  newtype byte = x: int | 0 <= x < 0x100 witness 0

  type Text = seq<byte>

  const QUOTE: byte := 0x22
  const BACKSLASH: byte := 0x5C
  const COMMA: byte := 0x2C
  const COLON: byte := 0x3A
  const LBRACKET: byte := 0x5B
  const RBRACKET: byte := 0x5D
  const LBRACE: byte := 0x7B
  const RBRACE: byte := 0x7D
  const TAB: byte := 0x09
  const NEWLINE: byte := 0x0A
  const SPACE: byte := 0x20
  const MINUS: byte := 0x2D

  /** No NUL inside: the text is what a C string of this content holds. */
  ghost predicate NulFree(t: Text) {
    forall i :: 0 <= i < |t| ==> t[i] != 0
  }

  /** The text t stands in s at offset off. */
  ghost predicate At(s: Text, off: nat, t: Text)
    decreases |t|
  {
    off + |t| <= |s| && (t == [] || (s[off] == t[0] && At(s, off + 1, t[1..])))
  }

  lemma {:induction false} AtSlice(s: Text, off: nat, t: Text)
    ensures At(s, off, t) <==> off + |t| <= |s| && s[off..off + |t|] == t
    decreases |t|
  {
    if t != [] && off < |s| {
      AtSlice(s, off + 1, t[1..]);
      if off + |t| <= |s| {
        assert s[off..off + |t|] == [s[off]] + s[off + 1..off + |t|];
        assert t == [t[0]] + t[1..];
      }
    }
  }

  lemma AtConcat(s: Text, off: nat, a: Text, b: Text)
    ensures At(s, off, a + b) <==> At(s, off, a) && At(s, off + |a|, b)
  {
    AtSlice(s, off, a + b);
    AtSlice(s, off, a);
    AtSlice(s, off + |a|, b);
    if At(s, off, a + b) {
      assert s[off..off + |a|] == (a + b)[..|a|];
      assert s[off + |a|..off + |a| + |b|] == (a + b)[|a|..];
    }
    if At(s, off, a) && At(s, off + |a|, b) {
      assert s[off..off + |a + b|] == s[off..off + |a|] + s[off + |a|..off + |a| + |b|];
    }
  }

  /** The same, with a name for the text and for the place where its second part begins. */
  lemma AtParts(s: Text, off: nat, mid: nat, a: Text, b: Text, t: Text)
    requires t == a + b && mid == off + |a|
    ensures At(s, off, t) <==> At(s, off, a) && At(s, mid, b)
  {
    AtConcat(s, off, a, b);
  }

  lemma AtIndex(s: Text, off: nat, t: Text, k: nat)
    requires At(s, off, t) && k < |t|
    ensures s[off + k] == t[k]
  {
    AtSlice(s, off, t);
    assert s[off..off + |t|][k] == t[k];
  }
}
