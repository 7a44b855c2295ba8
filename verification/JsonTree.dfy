/** The trees that cJSON prints and parses, and the text of a tree as a pure function. */
module JsonTree {
  import opened Bytes

  datatype Member = Member(key: Text, value: Json)

  datatype Json =
    | Null
    | False
    | True
    | Number(valueint: int)
    | String(valuestring: Text)
    | Array(items: seq<Json>)
    | Object(members: seq<Member>)

  const NULL_TEXT: Text := [0x6E, 0x75, 0x6C, 0x6C]
  const TRUE_TEXT: Text := [0x74, 0x72, 0x75, 0x65]
  const FALSE_TEXT: Text := [0x66, 0x61, 0x6C, 0x73, 0x65]

  /** Digits of the lower-case hexadecimal conversion. */
  function HexDigit(d: int): byte
    requires 0 <= d < 16
  {
    if d < 10 then (0x30 + d) as byte else (0x61 + d - 10) as byte
  }

  /** What one byte of a string becomes between the quotes. */
  function Escape(c: byte): Text {
    if c == QUOTE then [BACKSLASH, QUOTE]
    else if c == BACKSLASH then [BACKSLASH, BACKSLASH]
    else if c == 0x08 then [BACKSLASH, 0x62]
    else if c == 0x0C then [BACKSLASH, 0x66]
    else if c == 0x0A then [BACKSLASH, 0x6E]
    else if c == 0x0D then [BACKSLASH, 0x72]
    else if c == 0x09 then [BACKSLASH, 0x74]
    else if c < 32 then
      [BACKSLASH, 0x75, 0x30, 0x30, HexDigit(c as int / 16), HexDigit(c as int % 16)]
    else [c]
  }

  function EscapeAll(s: Text): Text {
    if s == [] then [] else Escape(s[0]) + EscapeAll(s[1..])
  }

  function Quoted(s: Text): Text {
    [QUOTE] + EscapeAll(s) + [QUOTE]
  }

  function Digits(n: nat): Text {
    if n < 10 then [(0x30 + n) as byte] else Digits(n / 10) + [(0x30 + n % 10) as byte]
  }

  /** The PRId64 conversion. */
  function Decimal(n: int): Text {
    if n < 0 then [MINUS] + Digits(-n) else Digits(n)
  }

  function Tabs(n: nat): Text {
    seq(n, _ => TAB)
  }

  /** The text of a value; `level` counts the containers around it and only shows when formatting. */
  function Render(j: Json, fmt: bool, level: nat): Text
    decreases j, 0
  {
    match j
    case Null => NULL_TEXT
    case False => FALSE_TEXT
    case True => TRUE_TEXT
    case Number(n) => Decimal(n)
    case String(s) => Quoted(s)
    case Array(items) => [LBRACKET] + RenderItems(items, fmt, level + 1) + [RBRACKET]
    case Object(members) =>
      Opening(fmt) + RenderMembers(members, fmt, level + 1) + Closing(fmt, level)
  }

  function Opening(fmt: bool): Text {
    if fmt then [LBRACE, NEWLINE] else [LBRACE]
  }

  function Closing(fmt: bool, level: nat): Text {
    (if fmt then Tabs(level) else []) + [RBRACE]
  }

  function ItemSeparator(fmt: bool): Text {
    if fmt then [COMMA, SPACE] else [COMMA]
  }

  /** An element of an array with the separator behind it. */
  function RenderElement(item: Json, last: bool, fmt: bool, level: nat): Text
    decreases item, 1
  {
    if last then Render(item, fmt, level) else Render(item, fmt, level) + ItemSeparator(fmt)
  }

  function RenderItems(items: seq<Json>, fmt: bool, level: nat): Text
    decreases items, 2
  {
    if items == [] then []
    else RenderElement(items[0], |items| == 1, fmt, level) + RenderItems(items[1..], fmt, level)
  }

  /** Indentation, key and colon of a member. */
  function MemberHead(key: Text, fmt: bool, level: nat): Text {
    (if fmt then Tabs(level) else []) + Quoted(key) + (if fmt then [COLON, TAB] else [COLON])
  }

  function MemberTail(last: bool, fmt: bool): Text {
    (if last then [] else [COMMA]) + (if fmt then [NEWLINE] else [])
  }

  /** A member: indentation, key, colon, value, and the comma and line end behind it. */
  function RenderMember(m: Member, last: bool, fmt: bool, level: nat): Text
    decreases m, 1
  {
    MemberHead(m.key, fmt, level) + Render(m.value, fmt, level) + MemberTail(last, fmt)
  }

  function RenderMembers(members: seq<Member>, fmt: bool, level: nat): Text
    decreases members, 2
  {
    if members == [] then []
    else RenderMember(members[0], |members| == 1, fmt, level) + RenderMembers(members[1..], fmt, level)
  }

  /** A tree that C strings can hold: no NUL inside a key or a string, numbers within int64. */
  ghost predicate Holdable(j: Json)
    decreases j
  {
    match j
    case Number(n) => -0x8000_0000_0000_0000 <= n < 0x8000_0000_0000_0000
    case String(s) => NulFree(s)
    case Array(items) => forall i :: 0 <= i < |items| ==> Holdable(items[i])
    case Object(members) =>
      forall i :: 0 <= i < |members| ==> NulFree(members[i].key) && Holdable(members[i].value)
    case _ => true
  }

  /** How many containers are nested inside each other, this one included. */
  ghost function Nesting(j: Json): nat
    decreases j, 0
  {
    match j
    case Array(items) => 1 + NestingItems(items)
    case Object(members) => 1 + NestingMembers(members)
    case _ => 0
  }

  ghost function Max(a: nat, b: nat): nat {
    if a < b then b else a
  }

  ghost function NestingItems(items: seq<Json>): nat
    decreases items, 1
  {
    if items == [] then 0 else Max(Nesting(items[0]), NestingItems(items[1..]))
  }

  ghost function NestingMembers(members: seq<Member>): nat
    decreases members, 1
  {
    if members == [] then 0 else Max(Nesting(members[0].value), NestingMembers(members[1..]))
  }

  // ---- No NUL in a rendered text, and no value renders as the empty text

  lemma NulFreeConcat(a: Text, b: Text)
    ensures NulFree(a + b) <==> NulFree(a) && NulFree(b)
  {
    if NulFree(a + b) {
      forall i | 0 <= i < |a| ensures a[i] != 0 { assert (a + b)[i] == a[i]; }
      forall i | 0 <= i < |b| ensures b[i] != 0 { assert (a + b)[|a| + i] == b[i]; }
    }
  }

  lemma {:induction false} EscapeAllNulFree(s: Text)
    requires NulFree(s)
    ensures NulFree(EscapeAll(s))
  {
    if s != [] {
      EscapeAllNulFree(s[1..]);
      assert s[0] != 0;
      NulFreeConcat(Escape(s[0]), EscapeAll(s[1..]));
    }
  }

  lemma QuotedNulFree(s: Text)
    requires NulFree(s)
    ensures NulFree(Quoted(s))
  {
    EscapeAllNulFree(s);
    NulFreeConcat([QUOTE] + EscapeAll(s), [QUOTE]);
    NulFreeConcat([QUOTE], EscapeAll(s));
  }

  lemma {:induction false} DigitsAreDigits(n: nat)
    ensures |Digits(n)| > 0
    ensures forall i :: 0 <= i < |Digits(n)| ==> 0x30 <= Digits(n)[i] <= 0x39
  {
    if n >= 10 {
      DigitsAreDigits(n / 10);
    }
  }

  lemma DecimalShape(n: int)
    ensures |Decimal(n)| > 0 && NulFree(Decimal(n))
    ensures Decimal(n)[0] == MINUS || 0x30 <= Decimal(n)[0] <= 0x39
    ensures forall i :: 0 <= i < |Decimal(n)| ==>
              Decimal(n)[i] == MINUS || 0x30 <= Decimal(n)[i] <= 0x39
  {
    DigitsAreDigits(if n < 0 then -n else n);
  }

  lemma MemberPiecesNulFree(key: Text, fmt: bool, level: nat, last: bool)
    requires NulFree(key)
    ensures NulFree(MemberHead(key, fmt, level)) && NulFree(MemberTail(last, fmt))
  {
    QuotedNulFree(key);
    var indent := if fmt then Tabs(level) else [];
    var colon := if fmt then [COLON, TAB] else [COLON];
    NulFreeConcat(indent, Quoted(key));
    NulFreeConcat(indent + Quoted(key), colon);
  }

  lemma {:induction false} RenderNulFree(j: Json, fmt: bool, level: nat)
    requires Holdable(j)
    ensures NulFree(Render(j, fmt, level)) && |Render(j, fmt, level)| > 0
    decreases j, 0
  {
    match j
    case Null =>
    case False =>
    case True =>
    case Number(n) => DecimalShape(n);
    case String(s) => QuotedNulFree(s);
    case Array(items) =>
      RenderItemsNulFree(items, fmt, level + 1);
      NulFreeConcat([LBRACKET], RenderItems(items, fmt, level + 1));
      NulFreeConcat([LBRACKET] + RenderItems(items, fmt, level + 1), [RBRACKET]);
    case Object(members) =>
      RenderMembersNulFree(members, fmt, level + 1);
      NulFreeConcat(Opening(fmt), RenderMembers(members, fmt, level + 1));
      NulFreeConcat(Opening(fmt) + RenderMembers(members, fmt, level + 1), Closing(fmt, level));
  }

  lemma {:induction false} RenderItemsNulFree(items: seq<Json>, fmt: bool, level: nat)
    requires forall i :: 0 <= i < |items| ==> Holdable(items[i])
    ensures NulFree(RenderItems(items, fmt, level))
    decreases items, 1
  {
    if items != [] {
      var head := Render(items[0], fmt, level);
      RenderNulFree(items[0], fmt, level);
      RenderItemsNulFree(items[1..], fmt, level);
      NulFreeConcat(head, ItemSeparator(fmt));
      NulFreeConcat(RenderElement(items[0], |items| == 1, fmt, level), RenderItems(items[1..], fmt, level));
    }
  }

  lemma {:induction false} RenderMembersNulFree(members: seq<Member>, fmt: bool, level: nat)
    requires forall i :: 0 <= i < |members| ==>
               NulFree(members[i].key) && Holdable(members[i].value)
    ensures NulFree(RenderMembers(members, fmt, level))
    decreases members, 1
  {
    if members != [] {
      var head := MemberHead(members[0].key, fmt, level);
      var value := Render(members[0].value, fmt, level);
      var tail := MemberTail(|members| == 1, fmt);
      MemberPiecesNulFree(members[0].key, fmt, level, |members| == 1);
      RenderNulFree(members[0].value, fmt, level);
      RenderMembersNulFree(members[1..], fmt, level);
      NulFreeConcat(head, value);
      NulFreeConcat(head + value, tail);
      NulFreeConcat(head + value + tail, RenderMembers(members[1..], fmt, level));
    }
  }

  lemma DecimalFits(n: int)
    requires -0x8000_0000_0000_0000 <= n < 0x8000_0000_0000_0000
    ensures |Decimal(n)| <= 20
  {
    assert Pow10(19) == 10_000_000_000_000_000_000 by {
      assert Pow10(5) == 100_000;
      assert Pow10(10) == 10_000_000_000;
      assert Pow10(15) == 1_000_000_000_000_000;
    }
    DigitsLength(if n < 0 then -n else n, 19);
  }

  ghost function Pow10(k: nat): nat {
    if k == 0 then 1 else 10 * Pow10(k - 1)
  }

  lemma {:induction false} DigitsLength(n: nat, k: nat)
    requires k > 0 && n < Pow10(k)
    ensures |Digits(n)| <= k
  {
    if n >= 10 {
      assert k > 1 by {
        assert Pow10(1) == 10;
      }
      DigitsLength(n / 10, k - 1);
    }
  }
}
