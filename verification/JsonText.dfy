/** What a JSON text is, byte by byte: a reference for the parser that names none of its functions. */
module JsonText {
  import opened Bytes
  import opened JsonTree
  import opened JsonGrammar

  // ---- White space

  ghost predicate Blank(s: Text, from: nat, to: nat)
    decreases if from < to then to - from else 0
  {
    from <= to <= |s| && (from < to ==> s[from] <= 32 && Blank(s, from + 1, to))
  }

  // ---- Strings

  /** The bytes b are the UTF-8 form of cp, after the table of section 3 of RFC 3629. */
  ghost predicate Utf8Of(b: Text, cp: nat) {
    || (|b| == 1 && cp < 0x80 && b[0] as int == cp)
    || (|b| == 2 && 0x80 <= cp < 0x800 && b[0] as int / 0x20 == 6 && Trails(b, 1)
        && cp == b[0] as int % 0x20 * 0x40 + b[1] as int % 0x40)
    || (|b| == 3 && 0x800 <= cp < 0x10000 && b[0] as int / 0x10 == 14 && Trails(b, 1) && Trails(b, 2)
        && cp == b[0] as int % 0x10 * 0x1000 + b[1] as int % 0x40 * 0x40 + b[2] as int % 0x40)
    || (|b| == 4 && 0x10000 <= cp < 0x110000 && b[0] as int / 8 == 30 && Trails(b, 1) && Trails(b, 2) && Trails(b, 3)
        && cp == b[0] as int % 8 * 0x40000 + b[1] as int % 0x40 * 0x1000 + b[2] as int % 0x40 * 0x40
                 + b[3] as int % 0x40)
  }

  ghost predicate Trails(b: Text, k: nat) {
    k < |b| && b[k] as int / 0x40 == 2
  }

  /** The value of a hexadecimal digit of either case, -1 for anything else. */
  ghost function Digit(c: byte): int {
    if 0x30 <= c <= 0x39 then c as int - 0x30
    else if 0x41 <= c <= 0x46 then c as int - 0x41 + 10
    else if 0x61 <= c <= 0x66 then c as int - 0x61 + 10
    else -1
  }

  /** The value of four such digits, -1 if one of them is none. */
  ghost function Group(s: Text, p: nat): int
    requires p + 4 <= |s|
  {
    if Digit(s[p]) < 0 || Digit(s[p + 1]) < 0 || Digit(s[p + 2]) < 0 || Digit(s[p + 3]) < 0 then -1
    else Digit(s[p]) * 0x1000 + Digit(s[p + 1]) * 0x100 + Digit(s[p + 2]) * 0x10 + Digit(s[p + 3])
  }

  /** A few bytes of a quoted string, and the bytes for which they stand. */
  datatype Piece = Piece(length: nat, meaning: Text)

  /** The escapes of two letters in section 7 of RFC 8259. */
  ghost predicate Short(c: byte, meaning: byte) {
    || (c == 0x22 && meaning == 0x22) || (c == 0x5C && meaning == 0x5C) || (c == 0x2F && meaning == 0x2F)
    || (c == 0x62 && meaning == 0x08) || (c == 0x66 && meaning == 0x0C) || (c == 0x6E && meaning == 0x0A)
    || (c == 0x72 && meaning == 0x0D) || (c == 0x74 && meaning == 0x09)
  }

  /** A backslash and a u. */
  ghost predicate LongAt(s: Text, p: nat) {
    p + 1 < |s| && s[p] == 0x5C && s[p + 1] == 0x75
  }

  /** One group of digits that is no surrogate; a group with a bad digit counts as 0. */
  ghost predicate OneGroup(s: Text, p: nat, end: nat, x: Piece)
    requires end <= |s|
  {
    && x.length == 6 && p + 6 <= end && LongAt(s, p)
    && (Group(s, p + 2) < 0 ==> x.meaning == [0])
    && (Group(s, p + 2) >= 0 ==> !(0xD800 <= Group(s, p + 2) <= 0xDFFF) && Utf8Of(x.meaning, Group(s, p + 2)))
  }

  /** A surrogate and its partner. */
  ghost predicate TwoGroups(s: Text, p: nat, end: nat, x: Piece)
    requires end <= |s|
  {
    && x.length == 12 && p + 12 <= end && LongAt(s, p) && LongAt(s, p + 6)
    && 0xD800 <= Group(s, p + 2) <= 0xDBFF && 0xDC00 <= Group(s, p + 8) <= 0xDFFF
    && Utf8Of(x.meaning, 0x10000 + (Group(s, p + 2) - 0xD800) * 0x400 + (Group(s, p + 8) - 0xDC00))
  }

  /** The piece stands in s at p, in a string whose closing quote stands at end. */
  ghost predicate PieceAt(s: Text, p: nat, end: nat, x: Piece)
    requires p < end < |s|
  {
    || (x.length == 1 && s[p] != 0x5C && x.meaning == [s[p]])
    || (x.length == 2 && s[p] == 0x5C && |x.meaning| == 1 && Short(s[p + 1], x.meaning[0]))
    || OneGroup(s, p, end, x)
    || TwoGroups(s, p, end, x)
  }

  /** From p up to the closing quote at end, s spells the bytes t piece by piece. */
  ghost predicate Spells(s: Text, p: nat, end: nat, t: Text)
    decreases if p < end then end - p else 0
  {
    if p >= end then t == []
    else end < |s| && exists x: Piece :: SpellsBy(s, p, end, t, x)
  }

  ghost predicate SpellsBy(s: Text, p: nat, end: nat, t: Text, x: Piece)
    requires p < end < |s|
    decreases end - p, 0
  {
    && PieceAt(s, p, end, x) && |x.meaning| <= |t| && t[..|x.meaning|] == x.meaning
    && Spells(s, p + x.length, end, t[|x.meaning|..])
  }

  /** How many backslashes in a row stand right in front of i, not counting any in front of start. */
  ghost function Backslashes(s: Text, start: nat, i: nat): nat
    requires i <= |s|
  {
    if i <= start || s[i - 1] != 0x5C then 0 else 1 + Backslashes(s, start, i - 1)
  }

  /** The first quote from start on behind an even number of backslashes stands at q. */
  ghost predicate ClosesAt(s: Text, start: nat, q: nat) {
    && start <= q < |s| && s[q] == 0x22 && Backslashes(s, start, q) % 2 == 0
    && forall k :: start <= k < q && s[k] == 0x22 ==> Backslashes(s, start, k) % 2 == 1
  }

  /** str is all of t in front of its first NUL, if there is one. */
  ghost predicate UpToNul(str: Text, t: Text) {
    |str| <= |t| && t[..|str|] == str && NulFree(str) && (|str| < |t| ==> t[|str|] == 0)
  }

  /** s shows the string str, its quotes included, from off up to end. */
  ghost predicate ShowsString(s: Text, off: nat, end: nat, str: Text) {
    && off + 1 < end <= |s| && s[off] == 0x22 && ClosesAt(s, off + 1, end - 1)
    && exists t: Text :: Spells(s, off + 1, end - 1, t) && UpToNul(str, t)
  }

  // ---- Numbers

  ghost predicate OfNumber(c: byte) {
    0x30 <= c <= 0x39 || c == 0x2B || c == 0x2D || c == 0x2E || c == 0x65 || c == 0x45
  }

  /** The k characters from off on are all that may belong to a number, or the first 63 of them. */
  ghost predicate NumberSpan(s: Text, off: nat, k: nat) {
    && k <= 63 && off + k <= |s| && (forall i :: off <= i < off + k ==> OfNumber(s[i]))
    && (k == 63 || off + k == |s| || !OfNumber(s[off + k]))
  }

  /** The C library reads the number n from the characters at off, and uses them up to end. */
  ghost predicate ShowsNumber(s: Text, off: nat, end: nat, n: int, strtod: Strtod) {
    && off < end <= |s| && (s[off] == 0x2D || 0x30 <= s[off] <= 0x39)
    && exists k :: NumberSpan(s, off, k) && strtod(s[off..off + k]) == Scan(n, end - off)
  }

  // ---- Values, with any white space between their tokens

  /** s shows the value j from off up to end. */
  ghost predicate Shows(s: Text, off: nat, end: nat, j: Json, strtod: Strtod)
    decreases j, 0
  {
    match j
    case Array(items) => ShowsArray(s, off, end, items, strtod)
    case Object(members) => ShowsObject(s, off, end, members, strtod)
    case _ => ShowsLeaf(s, off, end, j, strtod)
  }

  ghost predicate ShowsLeaf(s: Text, off: nat, end: nat, j: Json, strtod: Strtod)
    requires !j.Array? && !j.Object?
  {
    match j
    case Null => At(s, off, [0x6E, 0x75, 0x6C, 0x6C]) && end == off + 4
    case False => At(s, off, [0x66, 0x61, 0x6C, 0x73, 0x65]) && end == off + 5
    case True => At(s, off, [0x74, 0x72, 0x75, 0x65]) && end == off + 4
    case Number(n) => ShowsNumber(s, off, end, n, strtod)
    case String(str) => ShowsString(s, off, end, str)
  }

  ghost predicate ShowsArray(s: Text, off: nat, end: nat, items: seq<Json>, strtod: Strtod)
    decreases items, 3
  {
    && off + 1 < end <= |s| && s[off] == 0x5B && s[end - 1] == 0x5D
    && (items == [] ==> Blank(s, off + 1, end - 1))
    && (items != [] ==> ShowsItems(s, off + 1, end - 1, items, strtod))
  }

  ghost predicate ShowsObject(s: Text, off: nat, end: nat, members: seq<Member>, strtod: Strtod)
    decreases members, 5
  {
    && off + 1 < end <= |s| && s[off] == 0x7B && s[end - 1] == 0x7D
    && (members == [] ==> Blank(s, off + 1, end - 1))
    && (members != [] ==> ShowsMembers(s, off + 1, end - 1, members, strtod))
  }

  /** Where an element starts and ends, and where the comma or bracket behind it stands. */
  datatype Stops = Stops(start: nat, end: nat, next: nat)

  /** White space around the element; behind the last one the closing bracket, behind any other one a comma. */
  ghost predicate Between(s: Text, from: nat, at: Stops, close: nat, last: bool) {
    && Blank(s, from, at.start) && Blank(s, at.end, at.next) && at.next < |s|
    && if last then at.next == close && s[close] in {0x5D, 0x7D} else s[at.next] == 0x2C
  }

  /** s shows the elements behind the byte in front of `from`, and the bracket behind them at `close`. */
  ghost predicate ShowsItems(s: Text, from: nat, close: nat, items: seq<Json>, strtod: Strtod)
    decreases items, 2
  {
    items != [] && exists at: Stops :: ShowsItemsBy(s, from, at, close, items, strtod)
  }

  ghost predicate ShowsItemsBy(s: Text, from: nat, at: Stops, close: nat, items: seq<Json>, strtod: Strtod)
    requires items != []
    decreases items, 1
  {
    && Between(s, from, at, close, |items| == 1) && Shows(s, at.start, at.end, items[0], strtod)
    && (|items| > 1 ==> ShowsItems(s, at.next + 1, close, items[1..], strtod))
  }

  /** The places in a member: behind its key, its colon, behind the colon, and its value. */
  datatype Places = Places(behind: nat, colon: nat, after: nat, value: nat)

  /** s shows the key of a member at start, and its value up to end. */
  ghost predicate ShowsMemberBy(s: Text, start: nat, p: Places, end: nat, m: Member, strtod: Strtod)
    decreases m, 1
  {
    && ShowsString(s, start, p.behind, m.key)
    && Blank(s, p.behind, p.colon) && p.colon < |s| && s[p.colon] == 0x3A
    && p.after == p.colon + 1 && Blank(s, p.after, p.value) && Shows(s, p.value, end, m.value, strtod)
  }

  ghost predicate ShowsMember(s: Text, start: nat, end: nat, m: Member, strtod: Strtod)
    decreases m, 2
  {
    exists p: Places :: ShowsMemberBy(s, start, p, end, m, strtod)
  }

  ghost predicate ShowsMembers(s: Text, from: nat, close: nat, members: seq<Member>, strtod: Strtod)
    decreases members, 4
  {
    members != [] && exists at: Stops :: ShowsMembersBy(s, from, at, close, members, strtod)
  }

  ghost predicate ShowsMembersBy(s: Text, from: nat, at: Stops, close: nat, members: seq<Member>, strtod: Strtod)
    requires members != []
    decreases members, 3
  {
    && Between(s, from, at, close, |members| == 1) && ShowsMember(s, at.start, at.end, members[0], strtod)
    && (|members| > 1 ==> ShowsMembers(s, at.next + 1, close, members[1..], strtod))
  }

  // ---- Whole texts

  /** A byte order mark at the beginning of a text that has more than its three bytes. */
  ghost predicate HasMark(value: Text) {
    |value| > 3 && value[0] == 0xEF && value[1] == 0xBB && value[2] == 0xBF
  }

  /** The text shows j from off up to end, behind white space and maybe a byte order mark. */
  ghost predicate TextShows(value: Text, off: nat, end: nat, j: Json, strtod: Strtod) {
    Blank(value + [0], if HasMark(value) then 3 else 0, off) && Shows(value + [0], off, end, j, strtod)
  }
}
