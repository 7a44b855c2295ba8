/** Parsing what was printed gives the tree back, and stops exactly at the end of the text. */
module JsonRoundTrip {
  import opened Bytes
  import opened JsonTree
  import opened Utf8
  import opened JsonGrammar
  import opened JsonText
  import opened JsonStrings
  import opened JsonReading
  import opened JsonLayout

  const EXACT: int := 0x20_0000_0000_0000

  /** strtod reads the decimal text of every integer up to 2^53 exactly and to its end. */
  ghost predicate ReadsIntegers(strtod: Strtod) {
    forall n: int :: -EXACT <= n <= EXACT ==> strtod(Decimal(n)) == Scan(n, |Decimal(n)|)
  }

  function ReadDecimal(t: Text): Scan {
    if t != [] && t[0] == MINUS then Scan(-DigitsValue(t[1..]), |t|) else Scan(DigitsValue(t), |t|)
  }

  /** Such a strtod exists, so that the statements below are about something. */
  lemma ReadsIntegersIsMet()
    ensures exists strtod: Strtod :: ReadsIntegers(strtod)
  {
    var strtod: Strtod := t => ReadDecimal(t);
    forall n: int | -EXACT <= n <= EXACT ensures strtod(Decimal(n)) == Scan(n, |Decimal(n)|) {
      DigitsMean(if n < 0 then -n else n);
      DigitsAreDigits(if n < 0 then -n else n);
      assert n < 0 ==> Decimal(n)[1..] == Digits(-n);
    }
    assert ReadsIntegers(strtod);
  }

  /** A tree of C strings and of integers that a double holds exactly. */
  ghost predicate Exact(j: Json)
    decreases j, 0
  {
    match j
    case Array(items) => ExactItems(items)
    case Object(members) => ExactMembers(members)
    case _ => ExactLeaf(j)
  }

  ghost predicate ExactLeaf(j: Json) {
    (j.Number? ==> -EXACT <= j.valueint <= EXACT) && (j.String? ==> NulFree(j.valuestring))
  }

  ghost predicate ExactItems(items: seq<Json>)
    decreases items, 1
  {
    items == [] || (Exact(items[0]) && ExactItems(items[1..]))
  }

  ghost predicate ExactMembers(members: seq<Member>)
    decreases members, 1
  {
    members == [] || (NulFree(members[0].key) && Exact(members[0].value) && ExactMembers(members[1..]))
  }

  // ---- Strings

  lemma {:induction false} CStringOfNulFree(t: Text)
    requires NulFree(t)
    ensures CString(t) == t
  {
    if t != [] {
      assert t[0] != 0;
      assert NulFree(t[1..]);
      CStringOfNulFree(t[1..]);
    }
  }

  lemma HexOfDigits(c: byte)
    requires c < 32
    ensures var h := HexDigit(c as int / 16);
            var l := HexDigit(c as int % 16);
            IsHex(h) && IsHex(l) && HexValue(h) * 16 + HexValue(l) == c as nat
  {
  }

  /** Where the escape of c stands, the first pass steps over it and the second pass reads c. */
  lemma EscapeStep(s: Text, p: nat, c: byte, end: nat, done: Text)
    requires At(s, p, Escape(c)) && p + |Escape(c)| <= end < |s| && c != 0
    ensures FindClosing(s, p) == FindClosing(s, p + |Escape(c)|)
    ensures Unescape(s, p, end, done) == Unescape(s, p + |Escape(c)|, end, done + [c])
  {
    AtIndex(s, p, Escape(c), 0);
    if |Escape(c)| == 6 {
      HexEscapeStep(s, p, c, end, done);
    } else if |Escape(c)| == 2 {
      AtIndex(s, p, Escape(c), 1);
      assert Simple(s[p + 1]) == [c];
    }
  }

  lemma HexEscapeStep(s: Text, p: nat, c: byte, end: nat, done: Text)
    requires At(s, p, Escape(c)) && p + 6 <= end < |s| && |Escape(c)| == 6
    ensures FindClosing(s, p) == FindClosing(s, p + 6)
    ensures Unescape(s, p, end, done) == Unescape(s, p + 6, end, done + [c])
  {
    AtIndex(s, p, Escape(c), 0);
    AtIndex(s, p, Escape(c), 1);
    AtIndex(s, p, Escape(c), 2);
    AtIndex(s, p, Escape(c), 3);
    AtIndex(s, p, Escape(c), 4);
    AtIndex(s, p, Escape(c), 5);
    HexOfDigits(c);
    assert Hex4(s, p + 2) == c as nat;
    assert ReadLiteral(s, p, end) == Literal(c as nat, 6) && Encode(c as nat) == [c];
    assert FindClosing(s, p) == FindClosing(s, p + 2) == FindClosing(s, p + 3);
    assert FindClosing(s, p + 3) == FindClosing(s, p + 4) == FindClosing(s, p + 5);
  }

  /** The escapes of a string, then its closing quote: c is what the first pass finds, u what the second pass reads. */
  lemma {:induction false} EscapedReadsBack(s: Text, p: nat, str: Text, end: nat, done: Text, c: Quote, u: Unescaped)
    requires NulFree(str) && At(s, p, EscapeAll(str)) && p + |EscapeAll(str)| == end < |s| && s[end] == QUOTE
    requires c == FindClosing(s, p) && u == Unescape(s, p, end, done)
    ensures c == Closed(end) && u == Unescaped(done + str)
    decreases |str|
  {
    if str == [] {
      assert done + [] == done;
    } else {
      var first, rest := str[0], str[1..];
      assert first != 0 && NulFree(rest);
      AtConcat(s, p, Escape(first), EscapeAll(rest));
      EscapeStep(s, p, first, end, done);
      EscapedReadsBack(s, p + |Escape(first)|, rest, end, done + [first], c, u);
      FirstThenRest(done, str);
    }
  }

  lemma QuotedPieces(s: Text, off: nat, str: Text)
    requires At(s, off, Quoted(str))
    ensures var end := off + 1 + |EscapeAll(str)|;
            && end < |s| && s[off] == QUOTE && At(s, off + 1, EscapeAll(str)) && s[end] == QUOTE
            && end + 1 == off + |Quoted(str)|
  {
    AtConcat(s, off, [QUOTE] + EscapeAll(str), [QUOTE]);
    AtConcat(s, off, [QUOTE], EscapeAll(str));
    AtIndex(s, off, [QUOTE], 0);
    AtIndex(s, off + 1 + |EscapeAll(str)|, [QUOTE], 0);
  }

  lemma StringRoundTrip(s: Text, off: nat, str: Text, r: StringParsed)
    requires Terminated(s) && NulFree(str) && At(s, off, Quoted(str)) && off < |s| && r == ParseString(s, off)
    ensures off + |Quoted(str)| < |s| && r == StringOk(str, off + |Quoted(str)|)
  {
    QuotedPieces(s, off, str);
    var end := off + 1 + |EscapeAll(str)|;
    EscapedReadsBack(s, off + 1, str, end, [], FindClosing(s, off + 1), Unescape(s, off + 1, end, []));
    assert [] + str == str;
    CStringOfNulFree(str);
    StringFromPasses(s, off, end, str, Unescape(s, off + 1, end, []), r);
  }

  lemma StringFromPasses(s: Text, off: nat, end: nat, str: Text, u: Unescaped, r: StringParsed)
    requires Terminated(s) && off < end < |s| && s[off] == QUOTE && FindClosing(s, off + 1) == Closed(end)
    requires u == Unescape(s, off + 1, end, []) && r == ParseString(s, off)
    requires u == Unescaped(str) && CString(str) == str
    ensures r == StringOk(str, end + 1)
  {
  }

  // ---- Numbers

  lemma {:induction false} RunToDelimiter(s: Text, off: nat, n: nat, length: nat)
    requires off + length < |s| && length <= n && !NumberChar(s[off + length])
    requires forall k :: off <= k < off + length ==> NumberChar(s[k])
    ensures RunLength(s, off, n) == length
    decreases length
  {
    if length > 0 {
      RunToDelimiter(s, off + 1, n - 1, length - 1);
    }
  }

  lemma DecimalRun(s: Text, off: nat, n: int)
    requires -EXACT <= n <= EXACT
    requires var t := Decimal(n); At(s, off, t) && off + |t| < |s| && !NumberChar(s[off + |t|])
    ensures NumberRun(s, off) == Decimal(n)
  {
    var t := Decimal(n);
    DecimalShape(n);
    forall k | off <= k < off + |t| ensures NumberChar(s[k]) {
      AtIndex(s, off, t, k - off);
    }
    DecimalFits(n);
    RunToDelimiter(s, off, 63, |t|);
    AtSlice(s, off, t);
  }

  lemma NumberRoundTrip(s: Text, off: nat, n: int, strtod: Strtod)
    requires Terminated(s) && ReadsIntegers(strtod) && -EXACT <= n <= EXACT
    requires var t := Decimal(n); At(s, off, t) && off + |t| < |s| && !NumberChar(s[off + |t|])
    ensures ParseNumber(s, off, strtod) == Ok(Number(n), off + |Decimal(n)|)
  {
    DecimalRun(s, off, n);
    DecimalShape(n);
    assert strtod(Decimal(n)) == Scan(n, |Decimal(n)|);
  }

  // ---- A rendered text is a layout

  lemma {:induction false} TabsAreBlank(s: Text, off: nat, n: nat)
    requires At(s, off, Tabs(n))
    ensures Blank(s, off, off + n)
  {
    forall k | off <= k < off + n ensures s[k] <= 32 {
      AtIndex(s, off, Tabs(n), k - off);
    }
    BlankBytes(s, off, off + n);
  }

  ghost function Indent(fmt: bool, level: nat): nat {
    if fmt then level else 0
  }

  /** What surrounds a value: no more of a number stands behind it. */
  ghost predicate Ends(s: Text, end: nat) {
    Terminated(s) && end < |s| && !NumberChar(s[end])
  }

  lemma OnlyItem(items: seq<Json>, fmt: bool, level: nat, first: Text, t: Text)
    requires |items| == 1 && first == Render(items[0], fmt, level) && t == RenderItems(items, fmt, level)
    ensures t == first
  {
    assert items[1..] == [];
  }

  lemma ElementAndRest(items: seq<Json>, fmt: bool, level: nat, first: Text, rest: Text, t: Text)
    requires |items| > 1 && first == Render(items[0], fmt, level) && rest == RenderItems(items[1..], fmt, level)
    requires t == RenderItems(items, fmt, level)
    ensures t == first + ItemSeparator(fmt) + rest
  {
  }

  /** The first element in front of others, the separator behind it, and the others. */
  lemma ElementAt(s: Text, start: nat, close: nat, fmt: bool, first: Text, rest: Text, t: Text, end: nat, behind: nat,
                  after: nat)
    requires t == first + ItemSeparator(fmt) + rest && At(s, start, t) && close == start + |t| && Ends(s, close)
    requires end == start + |first| && behind == end + 1 && after == end + |ItemSeparator(fmt)|
    ensures At(s, start, first) && Ends(s, end) && s[end] == COMMA && Blank(s, behind, after)
    ensures At(s, after, rest) && after + |rest| == close
  {
    var element := first + ItemSeparator(fmt);
    AtParts(s, start, after, element, rest, t);
    AtParts(s, start, end, first, ItemSeparator(fmt), element);
    SeparatorAt(s, end, behind, after, fmt);
  }

  /** The first element of a rendered list t, what stands behind it, and the rest of the list. */
  lemma FirstItem(s: Text, start: nat, close: nat, items: seq<Json>, fmt: bool, level: nat, first: Text, rest: Text,
                  t: Text, end: nat, behind: nat, after: nat)
    requires |items| > 0 && first == Render(items[0], fmt, level) && rest == RenderItems(items[1..], fmt, level)
    requires t == RenderItems(items, fmt, level) && At(s, start, t) && close == start + |t| && Ends(s, close)
    requires end == start + |first| && behind == end + 1 && after == end + |ItemSeparator(fmt)|
    ensures At(s, start, first) && Ends(s, end)
    ensures |items| == 1 ==> end == close
    ensures |items| > 1 ==> s[end] == COMMA && Blank(s, behind, after)
    ensures |items| > 1 ==> At(s, after, rest) && after + |rest| == close
  {
    if |items| == 1 {
      OnlyItem(items, fmt, level, first, t);
    } else {
      ElementAndRest(items, fmt, level, first, rest, t);
      ElementAt(s, start, close, fmt, first, rest, t, end, behind, after);
    }
  }

  lemma SeparatorAt(s: Text, end: nat, behind: nat, after: nat, fmt: bool)
    requires At(s, end, ItemSeparator(fmt)) && behind == end + 1 && after == end + |ItemSeparator(fmt)|
    ensures s[end] == COMMA && Blank(s, behind, after)
  {
    AtIndex(s, end, ItemSeparator(fmt), 0);
    if fmt {
      AtIndex(s, end, ItemSeparator(fmt), 1);
      assert Blank(s, after, after);
    }
  }

  lemma DecimalShows(s: Text, off: nat, n: int, end: nat, strtod: Strtod, t: Text)
    requires -EXACT <= n <= EXACT && ReadsIntegers(strtod)
    requires t == Decimal(n) && At(s, off, t) && end == off + |t| && Ends(s, end)
    ensures ShowsNumber(s, off, end, n, strtod)
  {
    DecimalShape(n);
    AtIndex(s, off, t, 0);
    NumberRoundTrip(s, off, n, strtod);
    NumberParsesExactly(s, off, end, n, strtod);
  }

  lemma QuotedShows(s: Text, off: nat, str: Text, end: nat, t: Text)
    requires Terminated(s) && NulFree(str) && t == Quoted(str) && At(s, off, t) && off < |s| && end == off + |t|
    ensures ShowsString(s, off, end, str)
  {
    StringRoundTrip(s, off, str, ParseString(s, off));
    StringParsesExactly(s, off, end, str);
  }

  lemma RenderLeafShows(s: Text, off: nat, j: Json, end: nat, strtod: Strtod, t: Text)
    requires !j.Array? && !j.Object? && ExactLeaf(j) && ReadsIntegers(strtod)
    requires t == Render(j, false, 0) && At(s, off, t) && end == off + |t| && Ends(s, end)
    ensures Shows(s, off, end, j, strtod)
  {
    match j
    case Number(n) => DecimalShows(s, off, n, end, strtod, t);
    case String(str) => QuotedShows(s, off, str, end, t);
    case _ =>
  }

  lemma {:induction false} RenderShows(s: Text, off: nat, j: Json, fmt: bool, level: nat, t: Text, end: nat,
                                       strtod: Strtod)
    requires Exact(j) && ReadsIntegers(strtod)
    requires t == Render(j, fmt, level) && At(s, off, t) && end == off + |t| && Ends(s, end)
    ensures Shows(s, off, end, j, strtod)
    decreases j, 0
  {
    match j
    case Array(items) => RenderArrayShows(s, off, items, fmt, level, t, end, strtod);
    case Object(members) =>
      var inner := RenderMembers(members, fmt, level + 1);
      ObjectText(members, fmt, level, inner, t);
      RenderObjectShows(s, off, members, fmt, level, t, inner, end, strtod);
    case _ => RenderLeafShows(s, off, j, end, strtod, t);
  }

  lemma ArrayFrame(s: Text, off: nat, inner: Text)
    requires At(s, off, [LBRACKET] + inner + [RBRACKET])
    ensures off + 1 + |inner| < |s| && s[off] == LBRACKET && s[off + 1 + |inner|] == RBRACKET && At(s, off + 1, inner)
  {
    AtConcat(s, off, [LBRACKET] + inner, [RBRACKET]);
    AtConcat(s, off, [LBRACKET], inner);
    AtIndex(s, off, [LBRACKET], 0);
    AtIndex(s, off + 1 + |inner|, [RBRACKET], 0);
  }

  lemma {:induction false} RenderArrayShows(s: Text, off: nat, items: seq<Json>, fmt: bool, level: nat, t: Text,
                                            end: nat, strtod: Strtod)
    requires ExactItems(items) && ReadsIntegers(strtod)
    requires t == Render(Array(items), fmt, level) && At(s, off, t) && end == off + |t| && Ends(s, end)
    ensures ShowsArray(s, off, end, items, strtod)
    decreases items, 3
  {
    var inner, from := RenderItems(items, fmt, level + 1), off + 1;
    var close := from + |inner|;
    ArrayFrame(s, off, inner);
    assert Blank(s, from, from);
    if items != [] {
      RenderItemsShow(s, from, from, close, items, fmt, level + 1, inner, strtod);
    }
  }

  /** The closing brace ends a number too. */
  lemma BraceEnds(s: Text, tail: nat, close: nat)
    requires Terminated(s) && Blank(s, tail, close) && close < |s| && s[close] == RBRACE
    ensures Ends(s, tail)
  {
  }

  lemma ObjectText(members: seq<Member>, fmt: bool, level: nat, inner: Text, t: Text)
    requires t == Render(Object(members), fmt, level) && inner == RenderMembers(members, fmt, level + 1)
    ensures t == Opening(fmt) + inner + Closing(fmt, level) && (members == [] ==> inner == [])
  {
  }

  lemma EmptyObjectShows(s: Text, off: nat, from: nat, base: nat, close: nat, end: nat, strtod: Strtod)
    requires Blank(s, from, base) && Blank(s, base, close) && from == off + 1 && end == close + 1 <= |s|
    requires s[off] == LBRACE && s[close] == RBRACE
    ensures ShowsObject(s, off, end, [], strtod)
  {
    BlankJoin(s, from, base, close);
  }

  lemma ObjectShows(s: Text, off: nat, from: nat, close: nat, end: nat, members: seq<Member>, strtod: Strtod)
    requires members != [] && from == off + 1 <= close && end == close + 1 <= |s|
    requires s[off] == LBRACE && s[close] == RBRACE && ShowsMembers(s, from, close, members, strtod)
    ensures ShowsObject(s, off, end, members, strtod)
  {
  }

  lemma {:induction false} RenderObjectShows(s: Text, off: nat, members: seq<Member>, fmt: bool, level: nat, t: Text,
                                             inner: Text, end: nat, strtod: Strtod)
    requires ExactMembers(members) && ReadsIntegers(strtod) && inner == RenderMembers(members, fmt, level + 1)
    requires t == Opening(fmt) + inner + Closing(fmt, level) && (members == [] ==> inner == [])
    requires At(s, off, t) && end == off + |t| && Ends(s, end)
    ensures ShowsObject(s, off, end, members, strtod)
    decreases members, 4
  {
    var from, base := off + 1, off + |Opening(fmt)|;
    var tail := base + |inner|;
    var close := tail + Indent(fmt, level);
    ObjectFrame(s, off, from, base, tail, close, inner, fmt, level, t);
    if members == [] {
      EmptyObjectShows(s, off, from, base, close, end, strtod);
    } else {
      BraceEnds(s, tail, close);
      RenderMembersShow(s, from, base, tail, close, members, fmt, level + 1, inner, strtod);
      ObjectShows(s, off, from, close, end, members, strtod);
    }
  }

  /** An element with nothing between its end and the comma or bracket behind it. */
  lemma Adjoining(s: Text, from: nat, start: nat, end: nat, close: nat, last: bool)
    requires Blank(s, from, start) && end < |s|
    requires if last then end == close && s[close] in {RBRACKET, RBRACE} else s[end] == COMMA
    ensures Between(s, from, Stops(start, end, end), close, last)
  {
    assert Blank(s, end, end);
  }

  /** The first element of a rendered list t, what stands behind it, and the text of the rest. */
  lemma {:induction false} RenderFirstItem(s: Text, start: nat, close: nat, items: seq<Json>, fmt: bool, level: nat,
                                           t: Text, strtod: Strtod)
    returns (end: nat, behind: nat, after: nat, rest: Text)
    requires ExactItems(items) && ReadsIntegers(strtod) && Ends(s, close) && close == start + |t|
    requires |items| > 0 && t == RenderItems(items, fmt, level) && At(s, start, t)
    ensures Shows(s, start, end, items[0], strtod) && rest == RenderItems(items[1..], fmt, level)
    ensures |items| == 1 ==> end == close
    ensures |items| > 1 ==> end < |s| && s[end] == COMMA && behind == end + 1 && Blank(s, behind, after)
    ensures |items| > 1 ==> At(s, after, rest) && after + |rest| == close
    decreases items, 1
  {
    var first := Render(items[0], fmt, level);
    rest := RenderItems(items[1..], fmt, level);
    end, behind, after := start + |first|, start + |first| + 1, start + |first| + |ItemSeparator(fmt)|;
    FirstItem(s, start, close, items, fmt, level, first, rest, t, end, behind, after);
    RenderShows(s, start, items[0], fmt, level, first, end, strtod);
  }

  lemma {:induction false} RenderItemsShow(s: Text, from: nat, start: nat, close: nat, items: seq<Json>, fmt: bool,
                                           level: nat, t: Text, strtod: Strtod)
    requires ExactItems(items) && ReadsIntegers(strtod) && Terminated(s)
    requires |items| > 0 && Blank(s, from, start) && t == RenderItems(items, fmt, level) && At(s, start, t)
    requires close == start + |t| < |s| && s[close] == RBRACKET
    ensures ShowsItems(s, from, close, items, strtod)
    decreases items, 2
  {
    var others := items[1..];
    var end, behind, after, rest := RenderFirstItem(s, start, close, items, fmt, level, t, strtod);
    if |items| == 1 {
      LastItemShows(s, from, start, end, items, strtod);
    } else {
      RenderItemsShow(s, behind, after, close, others, fmt, level, rest, strtod);
      MoreItemsShow(s, from, start, end, behind, close, items, others, strtod);
    }
  }

  lemma ItemsShow(s: Text, from: nat, at: Stops, ahead: nat, close: nat, items: seq<Json>, others: seq<Json>,
                  strtod: Strtod)
    requires items != [] && others == items[1..] && ahead == at.next + 1
    requires Between(s, from, at, close, |items| == 1) && Shows(s, at.start, at.end, items[0], strtod)
    requires |items| > 1 ==> ShowsItems(s, ahead, close, others, strtod)
    ensures ShowsItems(s, from, close, items, strtod)
  {
    assert ShowsItemsBy(s, from, at, close, items, strtod);
  }

  lemma MoreItemsShow(s: Text, from: nat, start: nat, end: nat, behind: nat, close: nat, items: seq<Json>,
                      others: seq<Json>, strtod: Strtod)
    requires |items| > 1 && others == items[1..] && Blank(s, from, start) && Shows(s, start, end, items[0], strtod)
    requires end < |s| && s[end] == COMMA && behind == end + 1 && ShowsItems(s, behind, close, others, strtod)
    ensures ShowsItems(s, from, close, items, strtod)
  {
    Adjoining(s, from, start, end, close, false);
    ItemsShow(s, from, Stops(start, end, end), behind, close, items, others, strtod);
  }

  lemma LastItemShows(s: Text, from: nat, start: nat, close: nat, items: seq<Json>, strtod: Strtod)
    requires |items| == 1 && Blank(s, from, start) && Shows(s, start, close, items[0], strtod)
    requires close < |s| && s[close] == RBRACKET
    ensures ShowsItems(s, from, close, items, strtod)
  {
    Adjoining(s, from, start, close, close, true);
    ItemsShow(s, from, Stops(start, close, close), close + 1, close, items, items[1..], strtod);
  }

  /** Where the pieces of a rendered member stand. */
  ghost predicate Pieces(base: nat, key: nat, p: Places, name: Text, fmt: bool, level: nat) {
    && key == base + Indent(fmt, level) && p.behind == p.colon == key + |Quoted(name)|
    && p.after == p.colon + 1 && p.value == p.colon + if fmt then 2 else 1
  }

  /** The pieces of a member: its key behind the indentation, the colon, the value, and what ends it. */
  lemma MemberPieces(s: Text, base: nat, key: nat, p: Places, end: nat, name: Text, content: Text, last: bool,
                     fmt: bool, level: nat, t: Text)
    requires t == MemberHead(name, fmt, level) + content + MemberTail(last, fmt) && At(s, base, t)
    requires Pieces(base, key, p, name, fmt, level) && end == p.value + |content|
    ensures Blank(s, base, key) && At(s, key, Quoted(name))
    ensures p.colon < |s| && s[p.colon] == COLON && Blank(s, p.after, p.value)
    ensures At(s, p.value, content) && At(s, end, MemberTail(last, fmt))
    ensures base + |t| == end + |MemberTail(last, fmt)|
  {
    var head := MemberHead(name, fmt, level);
    assert p.value == base + |head|;
    AtParts(s, base, end, head + content, MemberTail(last, fmt), t);
    AtParts(s, base, p.value, head, content, head + content);
    HeadPieces(s, base, key, p, name, fmt, level);
  }

  lemma HeadPieces(s: Text, base: nat, key: nat, p: Places, name: Text, fmt: bool, level: nat)
    requires At(s, base, MemberHead(name, fmt, level)) && Pieces(base, key, p, name, fmt, level)
    ensures Blank(s, base, key) && At(s, key, Quoted(name))
    ensures p.colon < |s| && s[p.colon] == COLON && Blank(s, p.after, p.value)
    ensures p.value == base + |MemberHead(name, fmt, level)|
  {
    var indent := if fmt then Tabs(level) else [];
    var colonText := if fmt then [COLON, TAB] else [COLON];
    AtParts(s, base, p.colon, indent + Quoted(name), colonText, MemberHead(name, fmt, level));
    AtParts(s, base, key, indent, Quoted(name), indent + Quoted(name));
    AtIndex(s, p.colon, colonText, 0);
    if fmt {
      TabsAreBlank(s, base, level);
      AtIndex(s, p.colon, colonText, 1);
      assert Blank(s, p.value, p.value);
    }
  }

  /** What ends a member: a comma and white space, or nothing but white space. */
  lemma MemberEnds(s: Text, end: nat, behind: nat, after: nat, last: bool, fmt: bool)
    requires At(s, end, MemberTail(last, fmt)) && behind == end + 1 && after == end + |MemberTail(last, fmt)|
    ensures !last ==> end < |s| && s[end] == COMMA && Blank(s, behind, after)
    ensures last ==> Blank(s, end, after)
  {
    var tail := MemberTail(last, fmt);
    if |tail| > 0 {
      AtIndex(s, end, tail, 0);
      assert Blank(s, after, after);
    }
    if |tail| > 1 {
      AtIndex(s, end, tail, 1);
    }
  }

  /** Behind the value of a member no number goes on. */
  lemma MemberTailEnds(s: Text, end: nat, last: bool, fmt: bool, next: nat)
    requires At(s, end, MemberTail(last, fmt)) && next == end + |MemberTail(last, fmt)| && Ends(s, next)
    ensures Ends(s, end)
  {
    if |MemberTail(last, fmt)| > 0 {
      AtIndex(s, end, MemberTail(last, fmt), 0);
    }
  }

  lemma MemberShows(s: Text, key: nat, p: Places, end: nat, m: Member, strtod: Strtod)
    requires Terminated(s) && NulFree(m.key) && p.behind == p.colon && p.after == p.colon + 1
    requires At(s, key, Quoted(m.key)) && p.colon == key + |Quoted(m.key)| < |s| && s[p.colon] == COLON
    requires Blank(s, p.after, p.value) && Shows(s, p.value, end, m.value, strtod)
    ensures ShowsMember(s, key, end, m, strtod)
  {
    QuotedShows(s, key, m.key, p.behind, Quoted(m.key));
    assert Blank(s, p.behind, p.colon);
    assert ShowsMemberBy(s, key, p, end, m, strtod);
  }

  lemma {:induction false} RenderMemberShows(s: Text, base: nat, key: nat, m: Member, last: bool, fmt: bool, level: nat,
                                             t: Text, next: nat, strtod: Strtod)
    returns (end: nat)
    requires NulFree(m.key) && Exact(m.value) && ReadsIntegers(strtod)
    requires t == RenderMember(m, last, fmt, level) && At(s, base, t) && key == base + Indent(fmt, level)
    requires next == base + |t| && Ends(s, next)
    ensures Blank(s, base, key) && ShowsMember(s, key, end, m, strtod) && At(s, end, MemberTail(last, fmt))
    ensures next == end + |MemberTail(last, fmt)|
    decreases m, 1
  {
    var content, colon := Render(m.value, fmt, level), key + |Quoted(m.key)|;
    var p := Places(colon, colon, colon + 1, colon + if fmt then 2 else 1);
    end := p.value + |content|;
    MemberPieces(s, base, key, p, end, m.key, content, last, fmt, level, t);
    MemberTailEnds(s, end, last, fmt, next);
    RenderShows(s, p.value, m.value, fmt, level, content, end, strtod);
    MemberShows(s, key, p, end, m, strtod);
  }

  /** Behind a member that is not the last one the key of the next one begins. */
  lemma NextMemberEnds(s: Text, at: nat, m: Member, last: bool, fmt: bool, level: nat)
    requires Terminated(s) && At(s, at, RenderMember(m, last, fmt, level))
    ensures Ends(s, at)
  {
    var t := RenderMember(m, last, fmt, level);
    AtIndex(s, at, t, 0);
  }

  lemma RestEnds(s: Text, after: nat, members: seq<Member>, fmt: bool, level: nat, rest: Text)
    requires Terminated(s) && members != [] && rest == RenderMembers(members, fmt, level) && At(s, after, rest)
    ensures Ends(s, after)
  {
    var first := RenderMember(members[0], |members| == 1, fmt, level);
    AtConcat(s, after, first, RenderMembers(members[1..], fmt, level));
    NextMemberEnds(s, after, members[0], |members| == 1, fmt, level);
  }

  /** The text of the first member, and the text of the rest. */
  lemma FirstMember(s: Text, base: nat, after: nat, tail: nat, members: seq<Member>, fmt: bool, level: nat, first: Text,
                    rest: Text, t: Text)
    requires |members| > 0 && t == RenderMembers(members, fmt, level) && At(s, base, t)
    requires first == RenderMember(members[0], |members| == 1, fmt, level)
    requires rest == RenderMembers(members[1..], fmt, level)
    requires after == base + |first| && tail == base + |t| && Ends(s, tail)
    ensures At(s, base, first) && At(s, after, rest) && after + |rest| == tail && Ends(s, after)
    ensures |members| == 1 ==> after == tail
  {
    AtParts(s, base, after, first, rest, t);
    if |members| > 1 {
      RestEnds(s, after, members[1..], fmt, level, rest);
    }
  }

  /** The first member of a rendered list t, what stands behind it, and the text of the rest. */
  lemma {:induction false} RenderFirstMember(s: Text, base: nat, key: nat, tail: nat, members: seq<Member>, fmt: bool,
                                             level: nat, t: Text, strtod: Strtod)
    returns (end: nat, behind: nat, after: nat, rest: Text)
    requires ExactMembers(members) && ReadsIntegers(strtod) && tail == base + |t| && Ends(s, tail)
    requires |members| > 0 && t == RenderMembers(members, fmt, level) && At(s, base, t)
    requires key == base + Indent(fmt, level)
    ensures Blank(s, base, key) && rest == RenderMembers(members[1..], fmt, level)
    ensures ShowsMember(s, key, end, members[0], strtod)
    ensures after + |rest| == tail && At(s, after, rest)
    ensures |members| == 1 ==> Blank(s, end, tail)
    ensures |members| > 1 ==> end < |s| && s[end] == COMMA && behind == end + 1 && Blank(s, behind, after)
    decreases members, 2
  {
    var last := |members| == 1;
    var first := RenderMember(members[0], last, fmt, level);
    rest := RenderMembers(members[1..], fmt, level);
    after := base + |first|;
    FirstMember(s, base, after, tail, members, fmt, level, first, rest, t);
    end := RenderMemberShows(s, base, key, members[0], last, fmt, level, first, after, strtod);
    behind := end + 1;
    MemberEnds(s, end, behind, after, last, fmt);
  }

  lemma {:induction false} RenderMembersShow(s: Text, from: nat, base: nat, tail: nat, close: nat, members: seq<Member>,
                                             fmt: bool, level: nat, t: Text, strtod: Strtod)
    requires ExactMembers(members) && ReadsIntegers(strtod) && Ends(s, tail)
    requires |members| > 0 && Blank(s, from, base) && t == RenderMembers(members, fmt, level) && At(s, base, t)
    requires tail == base + |t| && Blank(s, tail, close) && close < |s| && s[close] == RBRACE
    ensures ShowsMembers(s, from, close, members, strtod)
    decreases members, 3
  {
    var key, others := base + Indent(fmt, level), members[1..];
    var end, behind, after, rest := RenderFirstMember(s, base, key, tail, members, fmt, level, t, strtod);
    BlankJoin(s, from, base, key);
    if |members| == 1 {
      LastMemberShows(s, from, key, end, tail, close, members, strtod);
    } else {
      RenderMembersShow(s, behind, after, tail, close, others, fmt, level, rest, strtod);
      MoreMembersShow(s, from, key, end, behind, close, members, others, strtod);
    }
  }

  lemma MembersShow(s: Text, from: nat, at: Stops, ahead: nat, close: nat, members: seq<Member>, others: seq<Member>,
                    strtod: Strtod)
    requires members != [] && others == members[1..] && ahead == at.next + 1
    requires Between(s, from, at, close, |members| == 1) && ShowsMember(s, at.start, at.end, members[0], strtod)
    requires |members| > 1 ==> ShowsMembers(s, ahead, close, others, strtod)
    ensures ShowsMembers(s, from, close, members, strtod)
  {
    assert ShowsMembersBy(s, from, at, close, members, strtod);
  }

  lemma MoreMembersShow(s: Text, from: nat, key: nat, end: nat, behind: nat, close: nat, members: seq<Member>,
                        others: seq<Member>, strtod: Strtod)
    requires |members| > 1 && others == members[1..]
    requires Blank(s, from, key) && ShowsMember(s, key, end, members[0], strtod)
    requires end < |s| && s[end] == COMMA && behind == end + 1 && ShowsMembers(s, behind, close, others, strtod)
    ensures ShowsMembers(s, from, close, members, strtod)
  {
    Adjoining(s, from, key, end, close, false);
    MembersShow(s, from, Stops(key, end, end), behind, close, members, others, strtod);
  }

  lemma LastMemberShows(s: Text, from: nat, key: nat, end: nat, after: nat, close: nat, members: seq<Member>,
                        strtod: Strtod)
    requires |members| == 1 && Blank(s, from, key) && ShowsMember(s, key, end, members[0], strtod)
    requires Blank(s, end, after) && Blank(s, after, close) && close < |s| && s[close] == RBRACE
    ensures ShowsMembers(s, from, close, members, strtod)
  {
    BlankJoin(s, end, after, close);
    assert Between(s, from, Stops(key, end, close), close, true);
    MembersShow(s, from, Stops(key, end, close), close + 1, close, members, members[1..], strtod);
  }

  lemma OpeningAt(s: Text, off: nat, from: nat, base: nat, fmt: bool)
    requires At(s, off, Opening(fmt)) && from == off + 1 && base == off + |Opening(fmt)|
    ensures s[off] == LBRACE && Blank(s, from, base)
  {
    AtIndex(s, off, Opening(fmt), 0);
    assert Blank(s, base, base);
    if fmt {
      AtIndex(s, off, Opening(fmt), 1);
    }
  }

  lemma ClosingAt(s: Text, tail: nat, close: nat, fmt: bool, level: nat)
    requires At(s, tail, Closing(fmt, level)) && close == tail + Indent(fmt, level)
    ensures Blank(s, tail, close) && close < |s| && s[close] == RBRACE
  {
    var tabs := if fmt then Tabs(level) else [];
    AtParts(s, tail, close, tabs, [RBRACE], Closing(fmt, level));
    AtIndex(s, close, [RBRACE], 0);
    if fmt {
      TabsAreBlank(s, tail, level);
    }
  }

  /** The opening and the closing of an object, around the text of its members. */
  lemma ObjectFrame(s: Text, off: nat, from: nat, base: nat, tail: nat, close: nat, inner: Text, fmt: bool, level: nat,
                    t: Text)
    requires t == Opening(fmt) + inner + Closing(fmt, level) && At(s, off, t)
    requires from == off + 1 && base == off + |Opening(fmt)|
    requires tail == base + |inner| && close == tail + Indent(fmt, level)
    ensures s[off] == LBRACE && Blank(s, from, base) && At(s, base, inner)
    ensures Blank(s, tail, close) && close < |s| && s[close] == RBRACE && close + 1 == off + |t|
  {
    var front := Opening(fmt) + inner;
    AtParts(s, off, tail, front, Closing(fmt, level), t);
    AtParts(s, off, base, Opening(fmt), inner, front);
    OpeningAt(s, off, from, base, fmt);
    ClosingAt(s, tail, close, fmt, level);
  }

  // ---- The theorems

  /** Printing, formatted or not, and parsing the text gives the tree back, with nothing left over. */
  lemma TextRoundTrip(j: Json, fmt: bool, require_null_terminated: bool, strtod: Strtod)
    requires Exact(j) && ReadsIntegers(strtod)
    ensures NulFree(Render(j, fmt, 0))
    ensures var r := ParseText(Render(j, fmt, 0), require_null_terminated, strtod);
            if Nesting(j) <= NESTING_LIMIT then r == Ok(j, |Render(j, fmt, 0)|) else r.Fail?
  {
    var t := Render(j, fmt, 0);
    ExactIsHoldable(j);
    RenderNulFree(j, fmt, 0);
    TextIsRead(j, fmt, t, require_null_terminated, strtod, ParseText(t, require_null_terminated, strtod));
  }

  lemma TextIsRead(j: Json, fmt: bool, t: Text, require_null_terminated: bool, strtod: Strtod, r: Parsed)
    requires Exact(j) && ReadsIntegers(strtod) && t == Render(j, fmt, 0) && NulFree(t)
    requires r == ParseText(t, require_null_terminated, strtod)
    ensures Returns(r, j, |t|, 0)
  {
    var s := t + [0];
    AtSlice(s, 0, t);
    RenderShows(s, 0, j, fmt, 0, t, |t|, strtod);
    ShowsStarts(s, 0, |t|, j, strtod);
    assert !HasMark(t) && TextShows(t, 0, |t|, j, strtod);
    LayoutRead(t, s, 0, j, require_null_terminated, strtod, r);
  }

  lemma {:induction false} ExactIsHoldable(j: Json)
    requires Exact(j)
    ensures Holdable(j)
    decreases j, 0
  {
    match j
    case Array(items) => ItemsAreHoldable(items);
    case Object(members) => MembersAreHoldable(members);
    case _ =>
  }

  lemma {:induction false} ItemsAreHoldable(items: seq<Json>)
    requires ExactItems(items)
    ensures forall i :: 0 <= i < |items| ==> Holdable(items[i])
    decreases items, 1
  {
    if items != [] {
      ExactIsHoldable(items[0]);
      ItemsAreHoldable(items[1..]);
    }
  }

  lemma {:induction false} MembersAreHoldable(members: seq<Member>)
    requires ExactMembers(members)
    ensures forall i :: 0 <= i < |members| ==> NulFree(members[i].key) && Holdable(members[i].value)
    decreases members, 1
  {
    if members != [] {
      ExactIsHoldable(members[0].value);
      MembersAreHoldable(members[1..]);
    }
  }

  /** So no two trees that can be read back have the same text. */
  lemma TextsDiffer(a: Json, b: Json, fmt: bool, strtod: Strtod)
    requires Exact(a) && Exact(b) && ReadsIntegers(strtod) && Nesting(a) <= NESTING_LIMIT
    requires Render(a, fmt, 0) == Render(b, fmt, 0)
    ensures a == b
  {
    TextRoundTrip(a, fmt, false, strtod);
    TextRoundTrip(b, fmt, false, strtod);
  }
}
