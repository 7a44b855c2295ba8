/** The size that the first pass over a string computes is enough for what the second pass writes. */
module JsonTwoPass {
  import opened Bytes
  import opened Utf8
  import opened JsonGrammar

  /** How many steps the first pass takes from i to the closing quote: a byte or an escaped pair each. */
  ghost function Units(s: Text, i: nat, end: nat): nat
    requires end <= |s|
    decreases if i < end then end - i else 0
  {
    if i >= end then 0
    else if s[i] == BACKSLASH then 1 + Units(s, i + 2, end)
    else 1 + Units(s, i + 1, end)
  }

  /** The first pass comes to b on its way to the closing quote. */
  ghost predicate Visited(s: Text, b: nat, end: nat) {
    b <= end < |s| && FindClosing(s, b) == Closed(end)
  }

  /** What the second pass may still write from p on, b being where the first pass comes next. */
  ghost function Room(s: Text, p: nat, b: nat, end: nat): nat
    requires end <= |s|
  {
    Units(s, b, end) + if b > p then b - p else 0
  }

  /** The first pass visits p or the byte behind it. */
  ghost predicate Near(s: Text, p: nat, b: nat, end: nat) {
    p <= b <= p + 1 && Visited(s, b, end)
  }

  lemma StepOver(s: Text, p: nat, b: nat, end: nat) returns (c: nat)
    requires p < end && Near(s, p, b, end) && s[p] != BACKSLASH
    ensures Near(s, p + 1, c, end) && Room(s, p + 1, c, end) + 1 <= Room(s, p, b, end)
  {
    c := p + 1;
  }

  /** One step of the first pass: a byte, or an escaped pair. */
  lemma StepOnce(s: Text, b: nat, end: nat) returns (d: nat)
    requires b < end && Visited(s, b, end)
    ensures b < d <= b + 2 && Visited(s, d, end) && Units(s, b, end) == 1 + Units(s, d, end)
  {
    d := if s[b] == BACKSLASH then b + 2 else b + 1;
  }

  /** Two bytes on: at least one step of the first pass, even where it does not stop at p. */
  lemma StepTwo(s: Text, p: nat, b: nat, end: nat) returns (c: nat)
    requires p < end && Near(s, p, b, end)
    ensures Room(s, p, b, end) >= 1
    ensures p + 2 <= end ==> Near(s, p + 2, c, end) && Room(s, p + 2, c, end) + 1 <= Room(s, p, b, end)
    ensures p + 2 > end ==> c == end
  {
    c := b;
    if b < end {
      c := StepOnce(s, b, end);
      if c < p + 2 && c < end {
        c := StepOnce(s, c, end);
      }
    }
  }

  lemma {:induction false} StepPairs(s: Text, p: nat, b: nat, end: nat, n: nat) returns (c: nat)
    requires p + 2 * n <= end && Near(s, p, b, end)
    ensures Near(s, p + 2 * n, c, end) && Room(s, p + 2 * n, c, end) + n <= Room(s, p, b, end)
    decreases n
  {
    if n == 0 {
      c := b;
    } else {
      var d := StepTwo(s, p, b, end);
      c := StepPairs(s, p + 2, d, end, n - 1);
    }
  }

  /** An escape in the second pass writes no more bytes than the first pass took steps over it. */
  lemma StepLiteral(s: Text, p: nat, b: nat, end: nat) returns (c: nat)
    requires p < end && Near(s, p, b, end) && ReadLiteral(s, p, end).Literal?
    ensures var l := ReadLiteral(s, p, end);
            && l.cp <= 0x10FFFF && p + l.length <= end
            && Near(s, p + l.length, c, end)
            && Room(s, p + l.length, c, end) + EncodedLength(l.cp) <= Room(s, p, b, end)
            && |Encode(l.cp)| == EncodedLength(l.cp)
  {
    LiteralIsScalar(s, p, end);
    c := StepPairs(s, p, b, end, ReadLiteral(s, p, end).length / 2);
  }

  /** The second pass never writes more than the first pass counted, wherever its escapes begin. */
  lemma {:induction false} UnescapeFits(s: Text, p: nat, b: nat, end: nat, done: Text)
    requires p <= end && Near(s, p, b, end)
    ensures var r := Unescape(s, p, end, done);
            r.Unescaped? ==> |r.text| <= |done| + Room(s, p, b, end)
    decreases end - p
  {
    if p == end {
    } else if s[p] != BACKSLASH {
      var c := StepOver(s, p, b, end);
      UnescapeFits(s, p + 1, c, end, done + [s[p]]);
    } else if s[p + 1] == 0x75 {
      if ReadLiteral(s, p, end).Literal? {
        var c := StepLiteral(s, p, b, end);
        var l := ReadLiteral(s, p, end);
        UnescapeFits(s, p + l.length, c, end, done + Encode(l.cp));
      }
    } else if Simple(s[p + 1]) != [] {
      var c := StepTwo(s, p, b, end);
      if p + 2 <= end {
        UnescapeFits(s, p + 2, c, end, done + Simple(s[p + 1]));
      }
    }
  }

  /** The number of escapes that the first pass skips. */
  ghost function Skipped(s: Text, i: nat, end: nat): nat
    requires end <= |s|
    decreases if i < end then end - i else 0
  {
    if i >= end then 0
    else if s[i] == BACKSLASH then 1 + Skipped(s, i + 2, end)
    else Skipped(s, i + 1, end)
  }

  lemma {:induction false} UnitsAndSkipped(s: Text, i: nat, end: nat)
    requires Visited(s, i, end)
    ensures Units(s, i, end) + Skipped(s, i, end) == end - i
    decreases end - i
  {
    if i < end {
      UnitsAndSkipped(s, if s[i] == BACKSLASH then i + 2 else i + 1, end);
    }
  }

  /**
   * For every content of the string: the allocation, `end - off` less the skipped escapes plus one,
   * holds the text of the second pass and its NUL.
   */
  lemma TwoPassesFit(s: Text, off: nat, end: nat)
    requires off < |s| && FindClosing(s, off + 1) == Closed(end)
    ensures Skipped(s, off + 1, end) < end - off
    ensures var r := Unescape(s, off + 1, end, []);
            r.Unescaped? ==> |r.text| + 1 <= (end - off) - Skipped(s, off + 1, end) + 1
  {
    UnitsAndSkipped(s, off + 1, end);
    UnescapeFits(s, off + 1, off + 1, end, []);
  }
}
