/** What a printed text looks like, byte by byte: a reference that names none of the functions that print. */
module JsonLayout {
  import opened Bytes
  import opened JsonTree

  // ---- Numbers

  /** The number that a text of digits denotes. */
  function DigitsValue(t: Text): int {
    if t == [] then 0 else 10 * DigitsValue(t[..|t| - 1]) + (t[|t| - 1] as int - 0x30)
  }

  /** Decimal digits without leading zeros. */
  ghost predicate IsDigits(t: Text, n: nat) {
    && |t| > 0 && (forall i :: 0 <= i < |t| ==> 0x30 <= t[i] <= 0x39) && (|t| > 1 ==> t[0] != 0x30)
    && DigitsValue(t) == n
  }

  ghost predicate IsNumeral(t: Text, n: int) {
    if n < 0 then t != [] && t[0] == 0x2D && IsDigits(t[1..], -n) else IsDigits(t, n)
  }

  // ---- Strings

  ghost predicate LowerHex(c: byte, d: int) {
    c as int == if d < 10 then 0x30 + d else 0x61 + d - 10
  }

  /** How one byte is printed between quotes: as it is, with a letter of its own, or with two digits. */
  ghost predicate Printed(c: byte, t: Text) {
    if c == 0x22 then t == [0x5C, 0x22]
    else if c == 0x5C then t == [0x5C, 0x5C]
    else if c == 0x08 then t == [0x5C, 0x62]
    else if c == 0x0C then t == [0x5C, 0x66]
    else if c == 0x0A then t == [0x5C, 0x6E]
    else if c == 0x0D then t == [0x5C, 0x72]
    else if c == 0x09 then t == [0x5C, 0x74]
    else if c >= 0x20 then t == [c]
    else
      && |t| == 6 && t[..4] == [0x5C, 0x75, 0x30, 0x30]
      && LowerHex(t[4], c as int / 16) && LowerHex(t[5], c as int % 16)
  }

  ghost predicate IsEscaped(t: Text, s: Text)
    decreases |s|
  {
    if s == [] then t == [] else exists k: nat :: IsEscapedBy(t, s, k)
  }

  ghost predicate IsEscapedBy(t: Text, s: Text, k: nat)
    requires s != []
    decreases |s|, 0
  {
    k <= |t| && Printed(s[0], t[..k]) && IsEscaped(t[k..], s[1..])
  }

  ghost predicate IsQuoted(t: Text, s: Text) {
    |t| >= 2 && t[0] == 0x22 && t[|t| - 1] == 0x22 && IsEscaped(t[1..|t| - 1], s)
  }

  // ---- Values

  /** A line end and the indentation of what stands inside `open` containers, in a formatted text. */
  ghost function Line(fmt: bool, open: nat): Text {
    if fmt then [0x0A] + seq(open, _ => 0x09) else []
  }

  /** One more byte, in a formatted text. */
  ghost function Gap(fmt: bool, c: byte): Text {
    if fmt then [c] else []
  }

  /** t is the value j, printed where `open` containers are open: outside strings nothing but what stands here. */
  ghost predicate Laid(t: Text, j: Json, open: nat, fmt: bool)
    decreases j, 0
  {
    match j
    case Null => t == [0x6E, 0x75, 0x6C, 0x6C]
    case False => t == [0x66, 0x61, 0x6C, 0x73, 0x65]
    case True => t == [0x74, 0x72, 0x75, 0x65]
    case Number(n) => IsNumeral(t, n)
    case String(s) => IsQuoted(t, s)
    case Array(items) => exists inner: Text :: LaidArrayBy(t, inner, items, open, fmt)
    case Object(members) => exists inner: Text :: LaidObjectBy(t, inner, members, open, fmt)
  }

  /** Brackets, and nothing else around the elements. */
  ghost predicate LaidArrayBy(t: Text, inner: Text, items: seq<Json>, open: nat, fmt: bool)
    decreases items, 3
  {
    t == [0x5B] + inner + [0x5D] && LaidItems(inner, items, open + 1, fmt)
  }

  /** Elements with commas between them, and behind each comma a blank. */
  ghost predicate LaidItems(t: Text, items: seq<Json>, open: nat, fmt: bool)
    decreases items, 2
  {
    if items == [] then t == []
    else if |items| == 1 then Laid(t, items[0], open, fmt)
    else exists first: Text, rest: Text :: LaidItemsBy(t, first, rest, items, open, fmt)
  }

  ghost predicate LaidItemsBy(t: Text, first: Text, rest: Text, items: seq<Json>, open: nat, fmt: bool)
    requires items != []
    decreases items, 1
  {
    && t == first + [0x2C] + Gap(fmt, 0x20) + rest
    && Laid(first, items[0], open, fmt) && LaidItems(rest, items[1..], open, fmt)
  }

  /** Braces; the closing one stands on a line of its own. */
  ghost predicate LaidObjectBy(t: Text, inner: Text, members: seq<Member>, open: nat, fmt: bool)
    decreases members, 4
  {
    t == [0x7B] + inner + Line(fmt, open) + [0x7D] && LaidMembers(inner, members, open + 1, fmt)
  }

  /** Members with commas between them. */
  ghost predicate LaidMembers(t: Text, members: seq<Member>, open: nat, fmt: bool)
    decreases members, 3
  {
    if members == [] then t == []
    else if |members| == 1 then LaidMember(t, members[0], open, fmt)
    else exists first: Text, rest: Text :: LaidMembersBy(t, first, rest, members, open, fmt)
  }

  ghost predicate LaidMembersBy(t: Text, first: Text, rest: Text, members: seq<Member>, open: nat, fmt: bool)
    requires members != []
    decreases members, 2
  {
    && t == first + [0x2C] + rest
    && LaidMember(first, members[0], open, fmt) && LaidMembers(rest, members[1..], open, fmt)
  }

  ghost predicate LaidMember(t: Text, m: Member, open: nat, fmt: bool)
    decreases m, 2
  {
    exists name: Text, value: Text :: LaidMemberBy(t, name, value, m, open, fmt)
  }

  /** A member stands on a line of its own: key, colon, a tab, value. */
  ghost predicate LaidMemberBy(t: Text, name: Text, value: Text, m: Member, open: nat, fmt: bool)
    decreases m, 1
  {
    && t == Line(fmt, open) + name + [0x3A] + Gap(fmt, 0x09) + value
    && IsQuoted(name, m.key) && Laid(value, m.value, open, fmt)
  }

  // ---- Whatever is rendered looks so

  lemma {:induction false} DigitsMean(n: nat)
    ensures DigitsValue(Digits(n)) == n
  {
    if n >= 10 {
      var t, last := Digits(n / 10), [(0x30 + n % 10) as byte];
      assert (t + last)[..|t + last| - 1] == t;
      DigitsMean(n / 10);
    }
  }

  lemma {:induction false} NoLeadingZero(n: nat)
    ensures |Digits(n)| > 0 && (n > 0 ==> Digits(n)[0] != 0x30) && (n == 0 ==> |Digits(n)| == 1)
  {
    if n >= 10 {
      NoLeadingZero(n / 10);
    }
  }

  lemma DigitsAreLaid(n: nat)
    ensures IsDigits(Digits(n), n)
  {
    DigitsMean(n);
    DigitsAreDigits(n);
    NoLeadingZero(n);
  }

  lemma DecimalIsLaid(n: int)
    ensures IsNumeral(Decimal(n), n)
  {
    if n < 0 {
      DigitsAreLaid(-n);
      assert Decimal(n)[1..] == Digits(-n);
    } else {
      DigitsAreLaid(n);
    }
  }

  lemma EscapeIsPrinted(c: byte)
    ensures Printed(c, Escape(c))
  {
  }

  lemma {:induction false} EscapesAreLaid(s: Text)
    ensures IsEscaped(EscapeAll(s), s)
  {
    if s != [] {
      var t, k := EscapeAll(s), |Escape(s[0])|;
      EscapesAreLaid(s[1..]);
      EscapeIsPrinted(s[0]);
      assert t[..k] == Escape(s[0]) && t[k..] == EscapeAll(s[1..]);
      assert IsEscapedBy(t, s, k);
    }
  }

  lemma QuotedIsLaid(s: Text)
    ensures IsQuoted(Quoted(s), s)
  {
    EscapesAreLaid(s);
    assert Quoted(s)[1..|Quoted(s)| - 1] == EscapeAll(s);
  }

  lemma {:induction false} RenderIsLaid(j: Json, fmt: bool, open: nat, t: Text)
    requires t == Render(j, fmt, open)
    ensures Laid(t, j, open, fmt)
    decreases j, 0
  {
    match j
    case Number(n) => DecimalIsLaid(n);
    case String(s) => QuotedIsLaid(s);
    case Array(items) =>
      var inner := RenderItems(items, fmt, open + 1);
      ItemsAreLaid(items, fmt, open + 1, inner);
      assert LaidArrayBy(t, inner, items, open, fmt);
    case Object(members) => ObjectIsLaid(members, fmt, open, t);
    case _ =>
  }

  lemma {:induction false} ItemsAreLaid(items: seq<Json>, fmt: bool, open: nat, t: Text)
    requires t == RenderItems(items, fmt, open)
    ensures LaidItems(t, items, open, fmt)
    decreases items, 1
  {
    if items != [] {
      var first, rest := Render(items[0], fmt, open), RenderItems(items[1..], fmt, open);
      RenderIsLaid(items[0], fmt, open, first);
      if |items| == 1 {
        assert t == first;
      } else {
        ItemsAreLaid(items[1..], fmt, open, rest);
        assert t == first + [0x2C] + Gap(fmt, 0x20) + rest;
        assert LaidItemsBy(t, first, rest, items, open, fmt);
      }
    }
  }

  /** The line end that opens an object is that of its first member, and its last one ends with that of the brace. */
  lemma FrameIsLaid(fmt: bool, open: nat, rendered: Text, inner: Text, t: Text)
    requires t == Opening(fmt) + rendered + Closing(fmt, open)
    requires Gap(fmt, 0x0A) + rendered == inner + Gap(fmt, 0x0A)
    ensures t == [0x7B] + inner + Line(fmt, open) + [0x7D]
  {
    if fmt {
      assert t == [0x7B] + ([0x0A] + rendered) + Tabs(open) + [0x7D];
      assert [0x7B] + (inner + [0x0A]) + Tabs(open) + [0x7D] == [0x7B] + inner + ([0x0A] + Tabs(open)) + [0x7D];
      assert Tabs(open) == seq(open, _ => 0x09);
    } else {
      assert [] + rendered == rendered && inner + [] == inner;
    }
  }

  lemma {:induction false} ObjectIsLaid(members: seq<Member>, fmt: bool, open: nat, t: Text)
    requires t == Render(Object(members), fmt, open)
    ensures Laid(t, Object(members), open, fmt)
    decreases members, 3
  {
    var rendered := RenderMembers(members, fmt, open + 1);
    var inner := MembersAreLaid(members, fmt, open + 1, rendered);
    FrameIsLaid(fmt, open, rendered, inner, t);
    assert LaidObjectBy(t, inner, members, open, fmt);
  }

  /** The text of one member, from the line end in front of it. */
  lemma {:induction false} MemberIsLaid(m: Member, last: bool, fmt: bool, open: nat, t: Text) returns (laid: Text)
    requires t == RenderMember(m, last, fmt, open)
    ensures LaidMember(laid, m, open, fmt)
    ensures Gap(fmt, 0x0A) + t == laid + (if last then [] else [0x2C]) + Gap(fmt, 0x0A)
    decreases m, 1
  {
    var name, value := Quoted(m.key), Render(m.value, fmt, open);
    laid := Line(fmt, open) + name + [0x3A] + Gap(fmt, 0x09) + value;
    QuotedIsLaid(m.key);
    RenderIsLaid(m.value, fmt, open, value);
    assert LaidMemberBy(laid, name, value, m, open, fmt);
    var head, tail := MemberHead(m.key, fmt, open), MemberTail(last, fmt);
    HeadIsLaid(m.key, fmt, open);
    Regroup(Gap(fmt, 0x0A), head, value, tail);
    Regroup(Line(fmt, open) + name + [0x3A] + Gap(fmt, 0x09), value, if last then [] else [0x2C], Gap(fmt, 0x0A));
  }

  lemma Regroup(a: Text, b: Text, c: Text, d: Text)
    ensures a + (b + c + d) == (a + b) + c + d
    ensures a + b + (c + d) == a + b + c + d
  {
  }

  lemma HeadIsLaid(key: Text, fmt: bool, open: nat)
    ensures Gap(fmt, 0x0A) + MemberHead(key, fmt, open)
         == Line(fmt, open) + Quoted(key) + [0x3A] + Gap(fmt, 0x09)
  {
    if fmt {
      assert Tabs(open) == seq(open, _ => 0x09);
    }
  }

  /** The rest begins with the line end that the first member leaves. */
  lemma JoinMembers(gap: Text, first: Text, rest: Text, t: Text, laid: Text, more: Text, inner: Text)
    requires t == first + rest && gap + first == laid + [0x2C] + gap && gap + rest == more + gap
    requires inner == laid + [0x2C] + more
    ensures gap + t == inner + gap
  {
    assert gap + (first + rest) == (gap + first) + rest;
    assert (laid + [0x2C] + gap) + rest == laid + [0x2C] + (gap + rest);
    assert laid + [0x2C] + (more + gap) == inner + gap;
  }

  lemma {:induction false} MembersAreLaid(members: seq<Member>, fmt: bool, open: nat, t: Text) returns (inner: Text)
    requires t == RenderMembers(members, fmt, open)
    ensures LaidMembers(inner, members, open, fmt) && Gap(fmt, 0x0A) + t == inner + Gap(fmt, 0x0A)
    decreases members, 2
  {
    if members == [] {
      inner := [];
    } else {
      var last := |members| == 1;
      var first, rest := RenderMember(members[0], last, fmt, open), RenderMembers(members[1..], fmt, open);
      var laid := MemberIsLaid(members[0], last, fmt, open, first);
      if last {
        inner := laid;
        assert t == first;
      } else {
        var more := MembersAreLaid(members[1..], fmt, open, rest);
        inner := laid + [0x2C] + more;
        JoinMembers(Gap(fmt, 0x0A), first, rest, t, laid, more, inner);
        assert LaidMembersBy(inner, laid, more, members, open, fmt);
      }
    }
  }
}
