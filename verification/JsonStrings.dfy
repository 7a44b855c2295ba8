/** The parser reads strings and numbers exactly as the reference says, in both directions. */
module JsonStrings {
  import opened Bytes
  import opened Utf8
  import opened JsonTree
  import opened JsonGrammar
  import opened JsonText

  // ---- UTF-8

  lemma TwoBytes(cp: nat, b: Text)
    requires |b| == 2 && Utf8Of(b, cp)
    ensures b == Encode(cp)
  {
    assert b == [(0xC0 + cp / 0x40) as byte, Continuation(cp)];
  }

  lemma ThreeBytes(cp: nat, b: Text)
    requires |b| == 3 && Utf8Of(b, cp)
    ensures b == Encode(cp)
  {
    assert cp / 0x40 == b[0] as int % 0x10 * 0x40 + b[1] as int % 0x40;
    assert b == [(0xE0 + cp / 0x40 / 0x40) as byte, Continuation(cp / 0x40), Continuation(cp)];
  }

  lemma FourBytes(cp: nat, b: Text)
    requires |b| == 4 && Utf8Of(b, cp)
    ensures b == Encode(cp)
  {
    var first, second := cp / 0x40, cp / 0x40 / 0x40;
    assert first == b[0] as int % 8 * 0x1000 + b[1] as int % 0x40 * 0x40 + b[2] as int % 0x40;
    assert second == b[0] as int % 8 * 0x40 + b[1] as int % 0x40;
    assert second / 0x40 == b[0] as int % 8;
    assert b == [(0xF0 + second / 0x40) as byte, Continuation(second), Continuation(first), Continuation(cp)];
  }

  lemma TableIsEncode(cp: nat, b: Text)
    requires cp <= 0x10FFFF && Utf8Of(b, cp)
    ensures b == Encode(cp)
  {
    if |b| == 2 {
      TwoBytes(cp, b);
    } else if |b| == 3 {
      ThreeBytes(cp, b);
    } else if |b| == 4 {
      FourBytes(cp, b);
    }
  }

  lemma ShortEncoding(cp: nat)
    requires cp < 0x800
    ensures Utf8Of(Encode(cp), cp)
  {
  }

  lemma LongEncoding(cp: nat)
    requires 0x800 <= cp < 0x10000
    ensures Utf8Of(Encode(cp), cp)
  {
    var a := cp / 0x40;
    assert cp == a * 0x40 + cp % 0x40 && a == a / 0x40 * 0x40 + a % 0x40;
  }

  lemma LongestEncoding(cp: nat)
    requires 0x10000 <= cp <= 0x10FFFF
    ensures Utf8Of(Encode(cp), cp)
  {
    var a := cp / 0x40;
    var b := a / 0x40;
    assert cp == a * 0x40 + cp % 0x40 && a == b * 0x40 + a % 0x40 && b == b / 0x40 * 0x40 + b % 0x40;
  }

  /** The encoder keeps to the table of section 3 of RFC 3629, and the table leaves no choice. */
  lemma EncodeIsTheTable(cp: nat, b: Text)
    requires cp <= 0x10FFFF
    ensures b == Encode(cp) <==> Utf8Of(b, cp)
  {
    if Utf8Of(b, cp) {
      TableIsEncode(cp, b);
    }
    if cp < 0x800 {
      ShortEncoding(cp);
    } else if cp < 0x10000 {
      LongEncoding(cp);
    } else {
      LongestEncoding(cp);
    }
  }

  // ---- Escapes

  lemma DigitsAgree(c: byte)
    ensures IsHex(c) <==> Digit(c) >= 0
    ensures IsHex(c) ==> HexValue(c) == Digit(c)
  {
  }

  /** What a group of digits counts for. */
  lemma GroupsAgree(s: Text, p: nat)
    requires p + 4 <= |s|
    ensures AllHex(s, p) <==> Group(s, p) >= 0
    ensures Hex4(s, p) == if Group(s, p) >= 0 then Group(s, p) else 0
    ensures Group(s, p) < 0x10000
  {
    DigitsAgree(s[p]);
    DigitsAgree(s[p + 1]);
    DigitsAgree(s[p + 2]);
    DigitsAgree(s[p + 3]);
    if Group(s, p) >= 0 {
      forall j | p <= j < p + 4 ensures IsHex(s[j]) {
        assert j == p || j == p + 1 || j == p + 2 || j == p + 3;
      }
    }
  }

  /** What an escape of one group is read as. */
  lemma OneGroupIsRead(s: Text, p: nat, end: nat, x: Piece, l: Literal)
    requires p + 6 <= end < |s| && LongAt(s, p) && l == ReadLiteral(s, p, end)
    requires !(0xD800 <= Group(s, p + 2) <= 0xDBFF)
    ensures OneGroup(s, p, end, x) <==> l.Literal? && l.cp <= 0x10FFFF && x == Piece(l.length, Encode(l.cp))
  {
    GroupsAgree(s, p + 2);
    EncodeIsTheTable(Hex4(s, p + 2), x.meaning);
    assert Encode(0) == [0];
  }

  /** What an escape of two groups is read as. */
  lemma TwoGroupsAreRead(s: Text, p: nat, end: nat, x: Piece, l: Literal)
    requires p + 6 <= end < |s| && LongAt(s, p) && l == ReadLiteral(s, p, end)
    requires 0xD800 <= Group(s, p + 2) <= 0xDBFF
    ensures TwoGroups(s, p, end, x) <==> l.Literal? && l.cp <= 0x10FFFF && x == Piece(l.length, Encode(l.cp))
  {
    GroupsAgree(s, p + 2);
    if p + 12 <= end {
      GroupsAgree(s, p + 8);
      if 0xDC00 <= Group(s, p + 8) <= 0xDFFF {
        EncodeIsTheTable(0x10000 + (Group(s, p + 2) - 0xD800) * 0x400 + (Group(s, p + 8) - 0xDC00), x.meaning);
      }
    }
  }

  /** A long escape is read as the piece that stands there, and refused where none does. */
  lemma LongPiece(s: Text, p: nat, end: nat, x: Piece)
    requires p < end < |s| && LongAt(s, p)
    ensures PieceAt(s, p, end, x) <==>
              match ReadLiteral(s, p, end)
              case Malformed => false
              case Literal(cp, length) => cp <= 0x10FFFF && x == Piece(length, Encode(cp))
  {
    if p + 6 <= end {
      if 0xD800 <= Group(s, p + 2) <= 0xDBFF {
        TwoGroupsAreRead(s, p, end, x, ReadLiteral(s, p, end));
      } else {
        OneGroupIsRead(s, p, end, x, ReadLiteral(s, p, end));
      }
    }
  }

  lemma ShortPiece(c: byte, meaning: Text)
    ensures |meaning| == 1 && Short(c, meaning[0]) <==> Simple(c) == meaning && meaning != []
    ensures c == 0x75 ==> Simple(c) == []
  {
  }

  /** One step of the second pass. */
  ghost function StepOf(s: Text, p: nat, end: nat): Piece
    requires p < end < |s|
  {
    if s[p] != BACKSLASH then Piece(1, [s[p]])
    else if s[p + 1] == 0x75 then
      match ReadLiteral(s, p, end)
      case Malformed => Piece(0, [])
      case Literal(cp, length) =>
        LiteralIsScalar(s, p, end);
        Piece(length, Encode(cp))
    else if Simple(s[p + 1]) == [] then Piece(0, [])
    else Piece(2, Simple(s[p + 1]))
  }

  /** It takes the one piece that stands there, or fails where there is none. */
  lemma StepIsPiece(s: Text, p: nat, end: nat, x: Piece)
    requires p < end < |s|
    ensures PieceAt(s, p, end, x) <==> x == StepOf(s, p, end) && x.length > 0
  {
    if s[p] == BACKSLASH {
      if s[p + 1] == 0x75 {
        LongPiece(s, p, end, x);
        ShortPiece(0x75, x.meaning);
        if ReadLiteral(s, p, end).Literal? {
          LiteralIsScalar(s, p, end);
        }
      } else {
        ShortPiece(s[p + 1], x.meaning);
      }
    }
  }

  lemma UnescapeStep(s: Text, p: nat, end: nat, done: Text, x: Piece)
    requires p < end < |s| && x == StepOf(s, p, end)
    ensures if x.length == 0 then Unescape(s, p, end, done) == Unknown(p)
            else Unescape(s, p, end, done) == Unescape(s, p + x.length, end, done + x.meaning)
  {
    if s[p] == BACKSLASH && s[p + 1] == 0x75 && ReadLiteral(s, p, end).Literal? {
      LiteralIsScalar(s, p, end);
    }
  }

  lemma TakeFirst(done: Text, t: Text, b: Text)
    requires |b| <= |t| && t[..|b|] == b
    ensures done + t == (done + b) + t[|b|..]
  {
  }

  /** Whatever s spells, the second pass reads. */
  lemma {:induction false} SpelledIsRead(s: Text, p: nat, end: nat, t: Text, done: Text, u: Unescaped)
    requires end < |s| && Spells(s, p, end, t) && u == Unescape(s, p, end, done)
    ensures u == Unescaped(done + t)
    decreases if p < end then end - p else 0
  {
    if p >= end {
      assert done + [] == done;
    } else {
      var x: Piece :| SpellsBy(s, p, end, t, x);
      StepIsPiece(s, p, end, x);
      UnescapeStep(s, p, end, done, x);
      var rest, more := t[|x.meaning|..], done + x.meaning;
      SpelledIsRead(s, p + x.length, end, rest, more, u);
      TakeFirst(done, t, x.meaning);
    }
  }

  lemma SpellsOneMore(s: Text, p: nat, end: nat, next: nat, x: Piece, rest: Text, t: Text)
    requires p < end < |s| && PieceAt(s, p, end, x) && next == p + x.length && Spells(s, next, end, rest)
    requires t == x.meaning + rest
    ensures Spells(s, p, end, t)
  {
    assert t[..|x.meaning|] == x.meaning && t[|x.meaning|..] == rest;
    assert SpellsBy(s, p, end, t, x);
  }

  lemma Associate(a: Text, b: Text, c: Text)
    ensures (a + b) + c == a + (b + c)
  {
  }

  /** Whatever the second pass reads, s spells. */
  lemma {:induction false} ReadIsSpelled(s: Text, p: nat, end: nat, done: Text, u: Unescaped) returns (t: Text)
    requires end < |s| && u == Unescape(s, p, end, done) && u.Unescaped?
    ensures Spells(s, p, end, t) && u.text == done + t
    decreases if p < end then end - p else 0
  {
    if p >= end {
      t := [];
    } else {
      var x := StepOf(s, p, end);
      StepIsPiece(s, p, end, x);
      UnescapeStep(s, p, end, done, x);
      var next, more := p + x.length, done + x.meaning;
      var rest := ReadIsSpelled(s, next, end, more, u);
      t := x.meaning + rest;
      SpellsOneMore(s, p, end, next, x, rest, t);
      Associate(done, x.meaning, rest);
    }
  }

  // ---- The closing quote

  /** Where the first pass stops, an even number of backslashes lies behind it, and no quote that closes. */
  ghost predicate NotYet(s: Text, start: nat, i: nat) {
    && start <= i <= |s| && Backslashes(s, start, i) % 2 == 0
    && forall k :: start <= k < i && s[k] == 0x22 ==> Backslashes(s, start, k) % 2 == 1
  }

  lemma OneBehind(s: Text, start: nat, i: nat)
    requires start <= i < |s|
    ensures Backslashes(s, start, i + 1) == if s[i] == 0x5C then 1 + Backslashes(s, start, i) else 0
  {
  }

  lemma {:induction false} FindClosingFrom(s: Text, start: nat, i: nat, r: Quote)
    requires NotYet(s, start, i) && r == FindClosing(s, i)
    ensures forall q :: ClosesAt(s, start, q) <==> r == Closed(q)
    decreases |s| - i
  {
    if i < |s| {
      OneBehind(s, start, i);
      if i + 1 < |s| {
        OneBehind(s, start, i + 1);
      }
      if s[i] == QUOTE {
        assert ClosesAt(s, start, i);
      } else if s[i] == BACKSLASH {
        if i + 1 < |s| {
          FindClosingFrom(s, start, i + 2, r);
        }
      } else {
        FindClosingFrom(s, start, i + 1, r);
      }
    }
  }

  /** The first pass finds the closing quote. */
  lemma FindClosingExactly(s: Text, start: nat, q: nat)
    requires start <= |s|
    ensures FindClosing(s, start) == Closed(q) <==> ClosesAt(s, start, q)
  {
    FindClosingFrom(s, start, start, FindClosing(s, start));
  }

  // ---- Strings

  lemma {:induction false} CStringExactly(t: Text, str: Text)
    ensures UpToNul(str, t) <==> str == CString(t)
  {
    if t == [] || t[0] == 0 {
      assert 0 < |str| <= |t| && t[..|str|] == str ==> str[0] == t[..|str|][0] == t[0];
    } else if str == [] {
    } else {
      CStringExactly(t[1..], str[1..]);
      UpToNulRest(str, t);
      assert CString(t) == [t[0]] + CString(t[1..]);
      assert str == [str[0]] + str[1..];
    }
  }

  lemma UpToNulRest(str: Text, t: Text)
    requires t != [] && t[0] != 0 && str != []
    ensures UpToNul(str, t) <==> str[0] == t[0] && UpToNul(str[1..], t[1..])
  {
    if UpToNul(str, t) {
      assert str[0] == t[..|str|][0];
      assert t[1..][..|str| - 1] == t[..|str|][1..];
    }
  }

  lemma StringIsRead(s: Text, off: nat, end: nat, str: Text)
    requires off < |s| && Terminated(s) && ShowsString(s, off, end, str)
    ensures ParseString(s, off) == StringOk(str, end)
  {
    var start, close := off + 1, end - 1;
    var t: Text :| Spells(s, start, close, t) && UpToNul(str, t);
    var u := Unescape(s, start, close, []);
    FindClosingExactly(s, start, close);
    SpelledIsRead(s, start, close, t, [], u);
    assert [] + t == t;
    CStringExactly(t, str);
    StringOfPasses(s, off, start, close, u, t, str);
  }

  lemma StringOfPasses(s: Text, off: nat, start: nat, close: nat, u: Unescaped, t: Text, str: Text)
    requires off < |s| && Terminated(s) && s[off] == QUOTE && start == off + 1 && close < |s|
    requires FindClosing(s, start) == Closed(close) && u == Unescape(s, start, close, []) && u == Unescaped(t)
    requires str == CString(t)
    ensures ParseString(s, off) == StringOk(str, close + 1)
  {
  }

  lemma StringShown(s: Text, off: nat, end: nat, str: Text)
    requires off < |s| && Terminated(s) && ParseString(s, off) == StringOk(str, end)
    ensures ShowsString(s, off, end, str)
  {
    var close := FindClosing(s, off + 1).end;
    FindClosingExactly(s, off + 1, close);
    var t := ReadIsSpelled(s, off + 1, close, [], Unescape(s, off + 1, close, []));
    assert [] + t == t;
    CStringExactly(t, str);
  }

  /** A quoted text is read as the string that it spells, whatever the spelling, and nothing else is read. */
  lemma StringParsesExactly(s: Text, off: nat, end: nat, str: Text)
    requires off < |s| && Terminated(s)
    ensures ParseString(s, off) == StringOk(str, end) <==> ShowsString(s, off, end, str)
  {
    if ShowsString(s, off, end, str) {
      StringIsRead(s, off, end, str);
    } else if ParseString(s, off) == StringOk(str, end) {
      StringShown(s, off, end, str);
    }
  }

  // ---- Numbers

  lemma {:induction false} RunIsSpan(s: Text, off: nat, n: nat, k: nat)
    requires off <= |s|
    ensures RunLength(s, off, n) == k <==>
      && k <= n && off + k <= |s| && (forall i :: off <= i < off + k ==> OfNumber(s[i]))
      && (k == n || off + k == |s| || !OfNumber(s[off + k]))
    decreases n
  {
    if n > 0 && off < |s| && NumberChar(s[off]) && k > 0 {
      RunIsSpan(s, off + 1, n - 1, k - 1);
    }
  }

  /** A number is read from the characters that may belong to one, as the C library reads them. */
  lemma NumberParsesExactly(s: Text, off: nat, end: nat, n: int, strtod: Strtod)
    requires off < |s| && Terminated(s) && (s[off] == 0x2D || 0x30 <= s[off] <= 0x39)
    ensures ParseNumber(s, off, strtod) == Ok(Number(n), end) <==> ShowsNumber(s, off, end, n, strtod)
  {
    var k := RunLength(s, off, 63);
    forall i: nat ensures NumberSpan(s, off, i) <==> i == k {
      RunIsSpan(s, off, 63, i);
    }
    var scan := strtod(NumberRun(s, off));
    assert NumberSpan(s, off, k) && NumberRun(s, off) == s[off..off + k] && scan.used <= k;
    if ShowsNumber(s, off, end, n, strtod) {
      var i: nat :| NumberSpan(s, off, i) && strtod(s[off..off + i]) == Scan(n, end - off);
      assert i == k;
    }
  }
}
