/** What the parser does to a text that ends with a NUL, as pure functions of text, offset and depth. */
module JsonGrammar {
  import opened Bytes
  import opened JsonTree
  import opened Utf8

  const NESTING_LIMIT: nat := 1000

  /** What strtod makes of a text: a value cut to int64, and how many characters it used; 0 is no number. */
  datatype Scan = Scan(value: int, used: nat)

  type Strtod = f: Text -> Scan | forall t: Text :: f(t).used <= |t| witness t => Scan(0, 0)

  datatype StringParsed = StringOk(text: Text, offset: nat) | StringFail(offset: nat)

  datatype Parsed = Ok(value: Json, offset: nat) | Fail(offset: nat)

  /** The input as cJSON_ParseWithOpts passes it on. */
  predicate Terminated(s: Text) {
    |s| > 0 && s[|s| - 1] == 0
  }

  // ---- White space

  /** The first byte from off on that is above 32, or the length. */
  function FirstDark(s: Text, off: nat): (r: nat)
    requires off <= |s|
    ensures off <= r <= |s| && (r < |s| ==> s[r] > 32)
    decreases |s| - off
  {
    if off == |s| || s[off] > 32 then off else FirstDark(s, off + 1)
  }

  function SkipWhitespace(s: Text, off: nat): (r: nat)
    requires off < |s|
    ensures off <= r < |s|
  {
    var r := FirstDark(s, off);
    if r == |s| then r - 1 else r
  }

  // ---- Strings

  datatype Quote = Unclosed | Closed(end: nat)

  /** Where the string ends whose bytes from i on are still to be seen; escapes are skipped in pairs. */
  function FindClosing(s: Text, i: nat): (r: Quote)
    requires i <= |s|
    ensures r.Closed? ==> i <= r.end < |s| && s[r.end] == QUOTE
    decreases |s| - i
  {
    if i >= |s| then Unclosed
    else if s[i] == QUOTE then Closed(i)
    else if s[i] == BACKSLASH then
      if i + 1 >= |s| then Unclosed else FindClosing(s, i + 2)
    else FindClosing(s, i + 1)
  }

  datatype Unescaped = Unescaped(text: Text) | Unknown(at: nat)

  /** What a one-letter escape stands for. */
  function Simple(c: byte): Text {
    if c == 0x62 then [0x08]
    else if c == 0x66 then [0x0C]
    else if c == 0x6E then [0x0A]
    else if c == 0x72 then [0x0D]
    else if c == 0x74 then [0x09]
    else if c == QUOTE || c == BACKSLASH || c == 0x2F then [c]
    else []
  }

  /** The second pass over a string: what stands from p on, behind the bytes that are already there. */
  function Unescape(s: Text, p: nat, end: nat, done: Text): Unescaped
    requires end < |s|
    decreases if p < end then end - p else 0
  {
    if p >= end then Unescaped(done)
    else if s[p] != BACKSLASH then Unescape(s, p + 1, end, done + [s[p]])
    else if s[p + 1] == 0x75 then
      match ReadLiteral(s, p, end)
      case Malformed => Unknown(p)
      case Literal(cp, length) =>
        LiteralIsScalar(s, p, end);
        Unescape(s, p + length, end, done + Encode(cp))
    else if Simple(s[p + 1]) == [] then Unknown(p)
    else Unescape(s, p + 2, end, done + Simple(s[p + 1]))
  }

  /** The bytes in front of the first NUL. */
  function CString(t: Text): (r: Text)
    ensures NulFree(r)
  {
    if t == [] || t[0] == 0 then [] else [t[0]] + CString(t[1..])
  }

  function ParseString(s: Text, off: nat): (r: StringParsed)
    requires off < |s| && Terminated(s)
    ensures r.StringOk? ==> off < r.offset < |s|
  {
    if s[off] != QUOTE then StringFail(off + 1)
    else
      match FindClosing(s, off + 1)
      case Unclosed => StringFail(off + 1)
      case Closed(end) =>
        match Unescape(s, off + 1, end, [])
        case Unknown(at) => StringFail(at)
        case Unescaped(text) => StringOk(CString(text), end + 1)
  }

  // ---- Numbers

  predicate NumberChar(c: byte) {
    0x30 <= c <= 0x39 || c == 0x2B || c == MINUS || c == 0x65 || c == 0x45 || c == 0x2E
  }

  /** How many characters go into the number buffer, which has room for n. */
  function RunLength(s: Text, off: nat, n: nat): (r: nat)
    requires off <= |s|
    ensures r <= n && off + r <= |s|
    ensures Terminated(s) && off < |s| ==> off + r < |s|
    decreases |s| - off
  {
    if n == 0 || off == |s| || !NumberChar(s[off]) then 0 else 1 + RunLength(s, off + 1, n - 1)
  }

  function NumberRun(s: Text, off: nat): (r: Text)
    requires off <= |s|
  {
    s[off..off + RunLength(s, off, 63)]
  }

  function ParseNumber(s: Text, off: nat, strtod: Strtod): (r: Parsed)
    requires off < |s| && Terminated(s)
    ensures r.Ok? ==> off < r.offset < |s|
  {
    var scan := strtod(NumberRun(s, off));
    if scan.used == 0 then Fail(off)
    else
      Ok(Number(scan.value), off + scan.used)
  }

  // ---- Values

  predicate Literally(s: Text, off: nat, t: Text) {
    off + |t| <= |s| && s[off..off + |t|] == t
  }

  function ParseValue(s: Text, off: nat, depth: nat, strtod: Strtod): (r: Parsed)
    requires off < |s| && Terminated(s)
    ensures r.Ok? ==> off < r.offset < |s|
    decreases |s| - off, 3
  {
    if Literally(s, off, NULL_TEXT) then AfterLiteral(s, off, NULL_TEXT, Null)
    else if Literally(s, off, FALSE_TEXT) then AfterLiteral(s, off, FALSE_TEXT, False)
    else if Literally(s, off, TRUE_TEXT) then AfterLiteral(s, off, TRUE_TEXT, True)
    else if s[off] == QUOTE then
      match ParseString(s, off)
      case StringFail(at) => Fail(at)
      case StringOk(text, at) => Ok(String(text), at)
    else if s[off] == MINUS || 0x30 <= s[off] <= 0x39 then ParseNumber(s, off, strtod)
    else if s[off] == LBRACKET then ParseArray(s, off, depth, strtod)
    else if s[off] == LBRACE then ParseObject(s, off, depth, strtod)
    else Fail(off)
  }

  function AfterLiteral(s: Text, off: nat, t: Text, value: Json): (r: Parsed)
    requires Terminated(s) && Literally(s, off, t) && |t| > 0 && t[|t| - 1] != 0
    ensures r == Ok(value, off + |t|) && off + |t| < |s|
  {
    assert s[off..off + |t|][|t| - 1] == s[off + |t| - 1];
    Ok(value, off + |t|)
  }

  function ParseArray(s: Text, off: nat, depth: nat, strtod: Strtod): (r: Parsed)
    requires off < |s| && Terminated(s) && s[off] == LBRACKET
    ensures r.Ok? ==> off < r.offset < |s|
    decreases |s| - off, 2
  {
    if depth >= NESTING_LIMIT then Fail(off)
    else
      var first := SkipWhitespace(s, off + 1);
      if s[first] == RBRACKET then Ok(Array([]), first + 1)
      else ParseItems(s, first - 1, depth + 1, [], strtod)
  }

  /** The value behind a bracket, comma or colon, and the white space up to what follows. */
  function ParseElement(s: Text, before: nat, depth: nat, strtod: Strtod): (r: Parsed)
    requires before + 1 < |s| && Terminated(s)
    ensures r.Ok? ==> before + 1 < r.offset < |s|
    decreases |s| - before, 0
  {
    match ParseValue(s, SkipWhitespace(s, before + 1), depth, strtod)
    case Fail(at) => Fail(at)
    case Ok(value, end) => Ok(value, SkipWhitespace(s, end))
  }

  /** The elements from the one behind `before` on, after those that are already read. */
  function ParseItems(s: Text, before: nat, depth: nat, done: seq<Json>, strtod: Strtod): (r: Parsed)
    requires before + 1 < |s| && Terminated(s)
    ensures r.Ok? ==> before + 1 < r.offset < |s|
    decreases |s| - before, 1
  {
    match ParseElement(s, before, depth, strtod)
    case Fail(at) => Fail(at)
    case Ok(value, next) =>
      if s[next] == COMMA then ParseItems(s, next, depth, done + [value], strtod)
      else if s[next] == RBRACKET then Ok(Array(done + [value]), next + 1)
      else Fail(next)
  }

  function ParseObject(s: Text, off: nat, depth: nat, strtod: Strtod): (r: Parsed)
    requires off < |s| && Terminated(s) && s[off] == LBRACE
    ensures r.Ok? ==> off < r.offset < |s|
    decreases |s| - off, 2
  {
    if depth >= NESTING_LIMIT then Fail(off)
    else
      var first := SkipWhitespace(s, off + 1);
      if s[first] == RBRACE then Ok(Object([]), first + 1)
      else ParseMembers(s, first - 1, depth + 1, [], strtod)
  }

  /** A key, and the place of the colon behind it. */
  function ParseKey(s: Text, before: nat): (r: StringParsed)
    requires before + 1 < |s| && Terminated(s)
    ensures r.StringOk? ==> before + 1 < r.offset < |s| && s[r.offset] == COLON
  {
    match ParseString(s, SkipWhitespace(s, before + 1))
    case StringFail(at) => StringFail(at)
    case StringOk(key, end) =>
      var colon := SkipWhitespace(s, end);
      if s[colon] != COLON then StringFail(colon) else StringOk(key, colon)
  }

  datatype MemberParsed = MemberOk(m: Member, offset: nat) | MemberFail(offset: nat)

  function ParseMember(s: Text, before: nat, depth: nat, strtod: Strtod): (r: MemberParsed)
    requires before + 1 < |s| && Terminated(s)
    ensures r.MemberOk? ==> before + 1 < r.offset < |s|
    decreases |s| - before, 0
  {
    match ParseKey(s, before)
    case StringFail(at) => MemberFail(at)
    case StringOk(key, colon) =>
      match ParseElement(s, colon, depth, strtod)
      case Fail(at) => MemberFail(at)
      case Ok(value, next) => MemberOk(Member(key, value), next)
  }

  /** The members from the one behind `before` on, after those that are already read. */
  function ParseMembers(s: Text, before: nat, depth: nat, done: seq<Member>, strtod: Strtod): (r: Parsed)
    requires before + 1 < |s| && Terminated(s)
    ensures r.Ok? ==> before + 1 < r.offset < |s|
    decreases |s| - before, 1
  {
    match ParseMember(s, before, depth, strtod)
    case MemberFail(at) => Fail(at)
    case MemberOk(m, next) =>
      if s[next] == COMMA then ParseMembers(s, next, depth, done + [m], strtod)
      else if s[next] == RBRACE then Ok(Object(done + [m]), next + 1)
      else Fail(next)
  }

  /** One element, and what follows it. */
  lemma ItemsStep(s: Text, before: nat, depth: nat, done: seq<Json>, strtod: Strtod, e: Parsed, r: Parsed)
    requires Terminated(s) && before + 1 < |s| && e == ParseElement(s, before, depth, strtod)
    requires r == ParseItems(s, before, depth, done, strtod)
    ensures e.Fail? ==> r == Fail(e.offset)
    ensures e.Ok? && s[e.offset] == COMMA ==> r == ParseItems(s, e.offset, depth, done + [e.value], strtod)
    ensures e.Ok? && s[e.offset] == RBRACKET ==> r == Ok(Array(done + [e.value]), e.offset + 1)
    ensures e.Ok? && s[e.offset] != COMMA && s[e.offset] != RBRACKET ==> r == Fail(e.offset)
  {
  }

  /** One member, and what follows it. */
  lemma MembersStep(s: Text, before: nat, depth: nat, done: seq<Member>, strtod: Strtod, m: MemberParsed, r: Parsed)
    requires Terminated(s) && before + 1 < |s| && m == ParseMember(s, before, depth, strtod)
    requires r == ParseMembers(s, before, depth, done, strtod)
    ensures m.MemberFail? ==> r == Fail(m.offset)
    ensures m.MemberOk? && s[m.offset] == COMMA ==> r == ParseMembers(s, m.offset, depth, done + [m.m], strtod)
    ensures m.MemberOk? && s[m.offset] == RBRACE ==> r == Ok(Object(done + [m.m]), m.offset + 1)
    ensures m.MemberOk? && s[m.offset] != COMMA && s[m.offset] != RBRACE ==> r == Fail(m.offset)
  {
  }

  // ---- The whole text

  const BOM: Text := [0xEF, 0xBB, 0xBF]

  function SkipBom(s: Text): (r: nat)
    ensures r < |s| || r == 0
  {
    if 4 < |s| && s[..3] == BOM then 3 else 0
  }

  /** Where a failure is reported: at the last byte of the input if reading went past it. */
  function Reported(s: Text, at: nat): (r: nat)
    requires |s| > 0
    ensures r < |s|
  {
    if at < |s| then at else |s| - 1
  }

  /** cJSON_ParseWithOpts of a C string: the tree and where reading stopped. */
  function ParseText(value: Text, require_null_terminated: bool, strtod: Strtod): (r: Parsed)
    requires NulFree(value)
    ensures r.offset <= |value|
  {
    var s := value + [0];
    match ParseValue(s, SkipWhitespace(s, SkipBom(s)), 0, strtod)
    case Fail(at) => Fail(Reported(s, at))
    case Ok(tree, end) =>
      if !require_null_terminated then Ok(tree, end)
      else
        var rest := SkipWhitespace(s, end);
        if s[rest] == 0 then Ok(tree, rest) else Fail(rest)
  }
}
