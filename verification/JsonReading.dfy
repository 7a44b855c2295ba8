/** The parser reads every text that shows a value, whatever white space and spelling it has. */
module JsonReading {
  import opened Bytes
  import opened JsonTree
  import opened JsonGrammar
  import opened JsonText
  import opened JsonStrings

  // ---- White space

  lemma {:induction false} BlankBytes(s: Text, from: nat, to: nat)
    requires from <= to <= |s| && forall k :: from <= k < to ==> s[k] <= 32
    ensures Blank(s, from, to)
    decreases if from < to then to - from else 0
  {
    if from < to {
      BlankBytes(s, from + 1, to);
    }
  }

  lemma {:induction false} SkipsBlank(s: Text, from: nat, to: nat)
    requires Blank(s, from, to) && to < |s| && s[to] > 32
    ensures SkipWhitespace(s, from) == to
    decreases if from < to then to - from else 0
  {
    if from < to {
      SkipsBlank(s, from + 1, to);
    }
  }

  lemma {:induction false} BlankJoin(s: Text, from: nat, mid: nat, to: nat)
    requires Blank(s, from, mid) && Blank(s, mid, to)
    ensures Blank(s, from, to)
    decreases if from < mid then mid - from else 0
  {
    if from < mid {
      BlankJoin(s, from + 1, mid, to);
    }
  }

  // ---- Every layout is read back

  /** What parsing a layout of j that ends at end must give, inside `depth` containers. */
  ghost predicate Returns(r: Parsed, j: Json, end: nat, depth: nat) {
    if depth + Nesting(j) <= NESTING_LIMIT then r == Ok(j, end) else r.Fail?
  }

  /** The first byte tells what kind of value follows, and is never white space. */
  lemma ShowsStarts(s: Text, off: nat, end: nat, j: Json, strtod: Strtod)
    requires Shows(s, off, end, j, strtod)
    ensures off < end <= |s|
    ensures var c := s[off];
            match j
            case Null => c == 0x6E
            case False => c == 0x66
            case True => c == 0x74
            case Number(_) => c == MINUS || 0x30 <= c <= 0x39
            case String(_) => c == QUOTE
            case Array(_) => c == LBRACKET
            case Object(_) => c == LBRACE
  {
    match j
    case Null => AtIndex(s, off, NULL_TEXT, 0);
    case False => AtIndex(s, off, FALSE_TEXT, 0);
    case True => AtIndex(s, off, TRUE_TEXT, 0);
    case _ =>
  }

  lemma NoLiteral(s: Text, off: nat)
    requires off < |s|
    ensures Literally(s, off, NULL_TEXT) ==> s[off] == 0x6E
    ensures Literally(s, off, FALSE_TEXT) ==> s[off] == 0x66
    ensures Literally(s, off, TRUE_TEXT) ==> s[off] == 0x74
  {
    assert off + 4 <= |s| ==> s[off..off + 4][0] == s[off];
    assert off + 5 <= |s| ==> s[off..off + 5][0] == s[off];
  }

  lemma LiteralParses(s: Text, off: nat, depth: nat, strtod: Strtod)
    requires off < |s| && Terminated(s)
    ensures At(s, off, NULL_TEXT) ==> ParseValue(s, off, depth, strtod) == Ok(Null, off + 4)
    ensures At(s, off, FALSE_TEXT) ==> ParseValue(s, off, depth, strtod) == Ok(False, off + 5)
    ensures At(s, off, TRUE_TEXT) ==> ParseValue(s, off, depth, strtod) == Ok(True, off + 4)
  {
    NoLiteral(s, off);
    AtSlice(s, off, NULL_TEXT);
    AtSlice(s, off, FALSE_TEXT);
    AtSlice(s, off, TRUE_TEXT);
  }

  /** The first byte selects the function that reads the value. */
  lemma Dispatch(s: Text, off: nat, depth: nat, strtod: Strtod, r: Parsed)
    requires off < |s| && Terminated(s) && r == ParseValue(s, off, depth, strtod)
    ensures s[off] == QUOTE ==>
              r == match ParseString(s, off)
                   case StringFail(at) => Fail(at)
                   case StringOk(text, at) => Ok(String(text), at)
    ensures s[off] == MINUS || 0x30 <= s[off] <= 0x39 ==> r == ParseNumber(s, off, strtod)
    ensures s[off] == LBRACKET ==> r == ParseArray(s, off, depth, strtod)
    ensures s[off] == LBRACE ==> r == ParseObject(s, off, depth, strtod)
  {
    NoLiteral(s, off);
  }

  lemma LeafParses(s: Text, off: nat, end: nat, j: Json, depth: nat, strtod: Strtod, r: Parsed)
    requires !j.Array? && !j.Object? && Terminated(s) && Shows(s, off, end, j, strtod)
    requires off < |s| && r == ParseValue(s, off, depth, strtod)
    ensures r == Ok(j, end)
  {
    ShowsStarts(s, off, end, j, strtod);
    match j
    case Number(n) =>
      Dispatch(s, off, depth, strtod, r);
      NumberParsesExactly(s, off, end, n, strtod);
    case String(str) =>
      Dispatch(s, off, depth, strtod, r);
      StringParsesExactly(s, off, end, str);
    case _ => LiteralParses(s, off, depth, strtod);
  }

  lemma {:induction false} LayoutParses(s: Text, off: nat, end: nat, j: Json, depth: nat, strtod: Strtod, r: Parsed)
    requires Terminated(s) && depth <= NESTING_LIMIT
    requires Shows(s, off, end, j, strtod)
    requires off < |s| && r == ParseValue(s, off, depth, strtod)
    ensures Returns(r, j, end, depth)
    decreases j, 0
  {
    match j
    case Array(items) =>
      Dispatch(s, off, depth, strtod, r);
      ArrayParses(s, off, end, items, depth, strtod, r);
    case Object(members) =>
      Dispatch(s, off, depth, strtod, r);
      ObjectParses(s, off, end, members, depth, strtod, r);
    case _ => LeafParses(s, off, end, j, depth, strtod, r);
  }

  lemma ElementFromValue(s: Text, before: nat, from: nat, start: nat, end: nat, next: nat, j: Json, depth: nat,
                         strtod: Strtod, v: Parsed, r: Parsed)
    requires Terminated(s) && from == before + 1 < |s| && SkipWhitespace(s, from) == start
    requires end < |s| && SkipWhitespace(s, end) == next
    requires v == ParseValue(s, start, depth, strtod) && Returns(v, j, end, depth)
    requires r == ParseElement(s, before, depth, strtod)
    ensures Returns(r, j, next, depth)
  {
  }

  /** A value between the white space around it. */
  lemma {:induction false} ElementParses(s: Text, before: nat, from: nat, start: nat, end: nat, next: nat, j: Json,
                                         depth: nat, strtod: Strtod, r: Parsed)
    requires Terminated(s) && depth <= NESTING_LIMIT
    requires from == before + 1 < |s| && SkipWhitespace(s, from) == start && Shows(s, start, end, j, strtod)
    requires end < |s| && SkipWhitespace(s, end) == next && s[next] in {COMMA, RBRACKET, RBRACE}
    requires r == ParseElement(s, before, depth, strtod)
    ensures Returns(r, j, next, depth)
    decreases j, 1
  {
    var v := ParseValue(s, start, depth, strtod);
    LayoutParses(s, start, end, j, depth, strtod, v);
    ElementFromValue(s, before, from, start, end, next, j, depth, strtod, v, r);
  }

  /** White space in front of a value and behind it is what the parser skips. */
  lemma SkipsAround(s: Text, from: nat, start: nat, end: nat, next: nat, j: Json, strtod: Strtod)
    requires Blank(s, from, start) && Shows(s, start, end, j, strtod) && Blank(s, end, next)
    requires next < |s| && s[next] > 32
    ensures from < |s| && SkipWhitespace(s, from) == start && end < |s| && SkipWhitespace(s, end) == next
  {
    ShowsStarts(s, start, end, j, strtod);
    SkipsBlank(s, from, start);
    SkipsBlank(s, end, next);
  }

  lemma FirstThenRest<T>(done: seq<T>, list: seq<T>)
    requires list != []
    ensures (done + [list[0]]) + list[1..] == done + list
    ensures |list| == 1 ==> done + [list[0]] == done + list
  {
  }

  /** What reading the elements up to the bracket at `close` must give, behind those that are already read. */
  ghost predicate ReadsItems(r: Parsed, done: seq<Json>, items: seq<Json>, close: nat, depth: nat) {
    if depth + NestingItems(items) <= NESTING_LIMIT then r == Ok(Array(done + items), close + 1) else r.Fail?
  }

  lemma ReadsItemsOn(r: Parsed, done: seq<Json>, more: seq<Json>, items: seq<Json>, rest: seq<Json>, close: nat,
                     depth: nat)
    requires items != [] && depth + Nesting(items[0]) <= NESTING_LIMIT
    requires more == done + [items[0]] && rest == items[1..] && ReadsItems(r, more, rest, close, depth)
    ensures ReadsItems(r, done, items, close, depth)
  {
    FirstThenRest(done, items);
  }

  /** The first of the elements: it decides the outcome, or a comma and the rest follow. */
  lemma FirstItemParses(s: Text, before: nat, from: nat, at: Stops, close: nat, items: seq<Json>, depth: nat,
                        done: seq<Json>, strtod: Strtod, e: Parsed, r: Parsed)
    requires Terminated(s) && before + 1 < |s| && items != [] && close < |s| && s[close] == RBRACKET
    requires from == before + 1 && Between(s, from, at, close, |items| == 1)
    requires e == ParseElement(s, before, depth, strtod) && r == ParseItems(s, before, depth, done, strtod)
    requires Returns(e, items[0], at.next, depth)
    ensures if |items| == 1 || depth + Nesting(items[0]) > NESTING_LIMIT then ReadsItems(r, done, items, close, depth)
            else at.next + 1 < |s| && r == ParseItems(s, at.next, depth, done + [items[0]], strtod)
  {
    ItemsStep(s, before, depth, done, strtod, e, r);
    FirstThenRest(done, items);
    assert |items| == 1 ==> NestingItems(items[1..]) == 0;
  }

  lemma ItemLayout(s: Text, from: nat, close: nat, items: seq<Json>, rest: seq<Json>, strtod: Strtod)
    returns (at: Stops, ahead: nat)
    requires ShowsItems(s, from, close, items, strtod) && rest == items[1..]
    ensures Between(s, from, at, close, |items| == 1) && Shows(s, at.start, at.end, items[0], strtod)
    ensures ahead == at.next + 1 && (|items| > 1 ==> ShowsItems(s, ahead, close, rest, strtod))
  {
    at :| ShowsItemsBy(s, from, at, close, items, strtod);
    ahead := at.next + 1;
  }

  /** One element of the list: it decides the outcome, or a comma and the rest follow. */
  lemma {:induction false} NextItemParses(s: Text, before: nat, from: nat, at: Stops, close: nat, items: seq<Json>,
                                          depth: nat, done: seq<Json>, more: seq<Json>, strtod: Strtod, r: Parsed)
    requires Terminated(s) && depth <= NESTING_LIMIT
    requires items != [] && from == before + 1 && Between(s, from, at, close, |items| == 1)
    requires Shows(s, at.start, at.end, items[0], strtod) && close < |s| && s[close] == RBRACKET
    requires before + 1 < |s| && r == ParseItems(s, before, depth, done, strtod) && more == done + [items[0]]
    ensures if |items| == 1 || depth + Nesting(items[0]) > NESTING_LIMIT then ReadsItems(r, done, items, close, depth)
            else at.next + 1 < |s| && r == ParseItems(s, at.next, depth, more, strtod)
    decreases items, 1
  {
    SkipsAround(s, from, at.start, at.end, at.next, items[0], strtod);
    var e := ParseElement(s, before, depth, strtod);
    ElementParses(s, before, from, at.start, at.end, at.next, items[0], depth, strtod, e);
    FirstItemParses(s, before, from, at, close, items, depth, done, strtod, e, r);
  }

  lemma {:induction false} ItemsParse(s: Text, before: nat, from: nat, close: nat, items: seq<Json>, depth: nat,
                                      done: seq<Json>, strtod: Strtod, r: Parsed)
    requires Terminated(s) && depth <= NESTING_LIMIT
    requires ShowsItems(s, from, close, items, strtod) && from == before + 1
    requires close < |s| && s[close] == RBRACKET
    requires before + 1 < |s| && r == ParseItems(s, before, depth, done, strtod)
    ensures ReadsItems(r, done, items, close, depth)
    decreases items, 2
  {
    var rest, more := items[1..], done + [items[0]];
    var at, ahead := ItemLayout(s, from, close, items, rest, strtod);
    NextItemParses(s, before, from, at, close, items, depth, done, more, strtod, r);
    if |items| > 1 && depth + Nesting(items[0]) <= NESTING_LIMIT {
      ItemsParse(s, at.next, ahead, close, rest, depth, more, strtod, r);
      ReadsItemsOn(r, done, more, items, rest, close, depth);
    }
  }

  lemma ItemsStart(s: Text, from: nat, close: nat, items: seq<Json>, strtod: Strtod) returns (before: nat, start: nat)
    requires ShowsItems(s, from, close, items, strtod) && from > 0
    ensures Blank(s, from, start) && start < |s| && s[start] > 32 && s[start] != RBRACKET
    ensures ShowsItems(s, start, close, items, strtod) && start == before + 1
  {
    var at: Stops :| ShowsItemsBy(s, from, at, close, items, strtod);
    ShowsStarts(s, at.start, at.end, items[0], strtod);
    before, start := at.start - 1, at.start;
    assert Blank(s, start, start);
    assert ShowsItemsBy(s, start, at, close, items, strtod);
  }

  lemma EnterArray(s: Text, off: nat, from: nat, before: nat, start: nat, depth: nat, inner: nat, strtod: Strtod,
                   r: Parsed)
    requires Terminated(s) && off < start < |s| && s[off] == LBRACKET && depth < NESTING_LIMIT
    requires from == off + 1 && start == before + 1 && inner == depth + 1
    requires Blank(s, from, start) && s[start] > 32 && r == ParseArray(s, off, depth, strtod)
    ensures r == if s[start] == RBRACKET then Ok(Array([]), start + 1) else ParseItems(s, before, inner, [], strtod)
  {
    SkipsBlank(s, from, start);
  }

  lemma {:induction false} ArrayParses(s: Text, off: nat, end: nat, items: seq<Json>, depth: nat, strtod: Strtod,
                                       r: Parsed)
    requires Terminated(s) && depth <= NESTING_LIMIT
    requires ShowsArray(s, off, end, items, strtod) && end < |s| && r == ParseArray(s, off, depth, strtod)
    ensures Returns(r, Array(items), end, depth)
    decreases items, 4
  {
    if depth < NESTING_LIMIT {
      var from, close, inner := off + 1, end - 1, depth + 1;
      if items == [] {
        EnterArray(s, off, from, close - 1, close, depth, inner, strtod, r);
      } else {
        var before, start := ItemsStart(s, from, close, items, strtod);
        EnterArray(s, off, from, before, start, depth, inner, strtod, r);
        ItemsFromStart(s, before, start, close, end, items, depth, inner, strtod, r);
      }
    }
  }

  lemma {:induction false} ItemsFromStart(s: Text, before: nat, start: nat, close: nat, end: nat, items: seq<Json>,
                                          depth: nat, inner: nat, strtod: Strtod, r: Parsed)
    requires Terminated(s) && depth < NESTING_LIMIT
    requires ShowsItems(s, start, close, items, strtod) && close < |s| && s[close] == RBRACKET && end == close + 1
    requires start == before + 1 < |s| && inner == depth + 1 && r == ParseItems(s, before, inner, [], strtod)
    ensures Returns(r, Array(items), end, depth)
    decreases items, 3
  {
    ItemsParse(s, before, start, close, items, inner, [], strtod, r);
    assert [] + items == items;
  }

  lemma KeyFromString(s: Text, before: nat, from: nat, start: nat, end: nat, colon: nat, key: Text)
    requires Terminated(s) && from == before + 1 < |s| && SkipWhitespace(s, from) == start && end < |s|
    requires ParseString(s, start) == StringOk(key, end) && SkipWhitespace(s, end) == colon && s[colon] == COLON
    ensures ParseKey(s, before) == StringOk(key, colon)
  {
  }

  lemma KeyParses(s: Text, before: nat, from: nat, start: nat, behind: nat, colon: nat, key: Text)
    requires Terminated(s) && from == before + 1 && Blank(s, from, start)
    requires start < |s| && ShowsString(s, start, behind, key)
    requires Blank(s, behind, colon) && colon < |s| && s[colon] == COLON
    ensures before + 1 < |s| && ParseKey(s, before) == StringOk(key, colon)
  {
    StringParsesExactly(s, start, behind, key);
    SkipsBlank(s, from, start);
    SkipsBlank(s, behind, colon);
    KeyFromString(s, before, from, start, behind, colon, key);
  }

  /** What a layout of a member says of its key, and of its value. */
  lemma MemberLayout(s: Text, start: nat, end: nat, m: Member, strtod: Strtod) returns (p: Places)
    requires ShowsMember(s, start, end, m, strtod)
    ensures start < |s| && ShowsString(s, start, p.behind, m.key)
    ensures Blank(s, p.behind, p.colon) && p.colon < |s| && s[p.colon] == COLON
    ensures p.after == p.colon + 1 && Blank(s, p.after, p.value) && Shows(s, p.value, end, m.value, strtod)
  {
    p :| ShowsMemberBy(s, start, p, end, m, strtod);
  }

  lemma MemberKey(s: Text, before: nat, from: nat, start: nat, p: Places, end: nat, next: nat, m: Member,
                  strtod: Strtod)
    requires Terminated(s) && from == before + 1 && start < |s| && Blank(s, from, start)
    requires ShowsString(s, start, p.behind, m.key)
    requires Blank(s, p.behind, p.colon) && p.colon < |s| && s[p.colon] == COLON
    requires p.after == p.colon + 1 && Blank(s, p.after, p.value) && Shows(s, p.value, end, m.value, strtod)
    requires Blank(s, end, next) && next < |s| && s[next] > 32
    ensures before + 1 < |s| && ParseKey(s, before) == StringOk(m.key, p.colon)
    ensures p.after < |s| && SkipWhitespace(s, p.after) == p.value && end < |s| && SkipWhitespace(s, end) == next
  {
    KeyParses(s, before, from, start, p.behind, p.colon, m.key);
    SkipsAround(s, p.after, p.value, end, next, m.value, strtod);
  }

  lemma MemberFromParts(s: Text, before: nat, key: Text, colon: nat, depth: nat, strtod: Strtod, e: Parsed,
                        r: MemberParsed)
    requires Terminated(s) && before + 1 < |s| && r == ParseMember(s, before, depth, strtod)
    requires ParseKey(s, before) == StringOk(key, colon) && e == ParseElement(s, colon, depth, strtod)
    ensures r == match e case Fail(at) => MemberFail(at) case Ok(value, next) => MemberOk(Member(key, value), next)
  {
  }

  lemma {:induction false} MemberParses(s: Text, before: nat, from: nat, start: nat, end: nat, next: nat, m: Member,
                                        depth: nat, strtod: Strtod, r: MemberParsed)
    requires Terminated(s) && depth <= NESTING_LIMIT
    requires from == before + 1 && Blank(s, from, start) && ShowsMember(s, start, end, m, strtod)
    requires Blank(s, end, next) && next < |s| && s[next] in {COMMA, RBRACE}
    requires before + 1 < |s| && r == ParseMember(s, before, depth, strtod)
    ensures ReturnsMember(r, m, next, depth)
    decreases m, 2
  {
    var p := MemberLayout(s, start, end, m, strtod);
    MemberKey(s, before, from, start, p, end, next, m, strtod);
    var e := ParseElement(s, p.colon, depth, strtod);
    ElementParses(s, p.colon, p.after, p.value, end, next, m.value, depth, strtod, e);
    MemberFromParts(s, before, m.key, p.colon, depth, strtod, e, r);
  }

  /** What reading the members up to the brace at `close` must give, behind those that are already read. */
  ghost predicate ReadsMembers(r: Parsed, done: seq<Member>, members: seq<Member>, close: nat, depth: nat) {
    if depth + NestingMembers(members) <= NESTING_LIMIT then r == Ok(Object(done + members), close + 1) else r.Fail?
  }

  lemma ReadsMembersOn(r: Parsed, done: seq<Member>, more: seq<Member>, members: seq<Member>, rest: seq<Member>,
                       close: nat, depth: nat)
    requires members != [] && depth + Nesting(members[0].value) <= NESTING_LIMIT
    requires more == done + [members[0]] && rest == members[1..] && ReadsMembers(r, more, rest, close, depth)
    ensures ReadsMembers(r, done, members, close, depth)
  {
    FirstThenRest(done, members);
  }

  /** What parsing a layout of m that ends at end must give, inside `depth` containers. */
  ghost predicate ReturnsMember(r: MemberParsed, m: Member, end: nat, depth: nat) {
    if depth + Nesting(m.value) <= NESTING_LIMIT then r == MemberOk(m, end) else r.MemberFail?
  }

  /** The first of the members: it decides the outcome, or a comma and the rest follow. */
  lemma FirstMemberParses(s: Text, before: nat, from: nat, at: Stops, close: nat, members: seq<Member>, depth: nat,
                          done: seq<Member>, strtod: Strtod, m: MemberParsed, r: Parsed)
    requires Terminated(s) && before + 1 < |s| && members != [] && close < |s| && s[close] == RBRACE
    requires from == before + 1 && Between(s, from, at, close, |members| == 1)
    requires m == ParseMember(s, before, depth, strtod) && r == ParseMembers(s, before, depth, done, strtod)
    requires ReturnsMember(m, members[0], at.next, depth)
    ensures if |members| == 1 || depth + Nesting(members[0].value) > NESTING_LIMIT
            then ReadsMembers(r, done, members, close, depth)
            else at.next + 1 < |s| && r == ParseMembers(s, at.next, depth, done + [members[0]], strtod)
  {
    MembersStep(s, before, depth, done, strtod, m, r);
    FirstThenRest(done, members);
    assert |members| == 1 ==> NestingMembers(members[1..]) == 0;
  }

  lemma MembersLayout(s: Text, from: nat, close: nat, members: seq<Member>, rest: seq<Member>, strtod: Strtod)
    returns (at: Stops, ahead: nat)
    requires ShowsMembers(s, from, close, members, strtod) && rest == members[1..]
    ensures Between(s, from, at, close, |members| == 1) && ShowsMember(s, at.start, at.end, members[0], strtod)
    ensures ahead == at.next + 1 && (|members| > 1 ==> ShowsMembers(s, ahead, close, rest, strtod))
  {
    at :| ShowsMembersBy(s, from, at, close, members, strtod);
    ahead := at.next + 1;
  }

  /** One member of the list: it decides the outcome, or a comma and the rest follow. */
  lemma {:induction false} NextMemberParses(s: Text, before: nat, from: nat, at: Stops, close: nat,
                                            members: seq<Member>, depth: nat, done: seq<Member>,
                                            more: seq<Member>, strtod: Strtod, r: Parsed)
    requires Terminated(s) && depth <= NESTING_LIMIT
    requires members != [] && from == before + 1 && Between(s, from, at, close, |members| == 1)
    requires ShowsMember(s, at.start, at.end, members[0], strtod) && close < |s| && s[close] == RBRACE
    requires before + 1 < |s| && r == ParseMembers(s, before, depth, done, strtod) && more == done + [members[0]]
    ensures if |members| == 1 || depth + Nesting(members[0].value) > NESTING_LIMIT
            then ReadsMembers(r, done, members, close, depth)
            else at.next + 1 < |s| && r == ParseMembers(s, at.next, depth, more, strtod)
    decreases members, 3
  {
    var m := ParseMember(s, before, depth, strtod);
    MemberParses(s, before, from, at.start, at.end, at.next, members[0], depth, strtod, m);
    FirstMemberParses(s, before, from, at, close, members, depth, done, strtod, m, r);
  }

  lemma {:induction false} MembersParse(s: Text, before: nat, from: nat, close: nat, members: seq<Member>, depth: nat,
                                        done: seq<Member>, strtod: Strtod, r: Parsed)
    requires Terminated(s) && depth <= NESTING_LIMIT
    requires ShowsMembers(s, from, close, members, strtod) && from == before + 1
    requires close < |s| && s[close] == RBRACE
    requires before + 1 < |s| && r == ParseMembers(s, before, depth, done, strtod)
    ensures ReadsMembers(r, done, members, close, depth)
    decreases members, 4
  {
    var rest, more := members[1..], done + [members[0]];
    var at, ahead := MembersLayout(s, from, close, members, rest, strtod);
    NextMemberParses(s, before, from, at, close, members, depth, done, more, strtod, r);
    if |members| > 1 && depth + Nesting(members[0].value) <= NESTING_LIMIT {
      MembersParse(s, at.next, ahead, close, rest, depth, more, strtod, r);
      ReadsMembersOn(r, done, more, members, rest, close, depth);
    }
  }

  lemma MembersStart(s: Text, from: nat, close: nat, members: seq<Member>, strtod: Strtod)
    returns (before: nat, start: nat)
    requires ShowsMembers(s, from, close, members, strtod) && from > 0
    ensures Blank(s, from, start) && start < |s| && s[start] == QUOTE
    ensures ShowsMembers(s, start, close, members, strtod) && start == before + 1
  {
    var at: Stops :| ShowsMembersBy(s, from, at, close, members, strtod);
    MemberStart(s, at.start, at.end, members[0], strtod);
    before, start := at.start - 1, at.start;
    assert Blank(s, start, start);
    assert ShowsMembersBy(s, start, at, close, members, strtod);
  }

  lemma MemberStart(s: Text, start: nat, end: nat, m: Member, strtod: Strtod)
    requires ShowsMember(s, start, end, m, strtod)
    ensures start < |s| && s[start] == QUOTE
  {
    var p: Places :| ShowsMemberBy(s, start, p, end, m, strtod);
  }

  lemma EnterObject(s: Text, off: nat, from: nat, before: nat, start: nat, depth: nat, inner: nat, strtod: Strtod,
                   r: Parsed)
    requires Terminated(s) && off < start < |s| && s[off] == LBRACE && depth < NESTING_LIMIT
    requires from == off + 1 && start == before + 1 && inner == depth + 1
    requires Blank(s, from, start) && s[start] > 32 && r == ParseObject(s, off, depth, strtod)
    ensures r == if s[start] == RBRACE then Ok(Object([]), start + 1) else ParseMembers(s, before, inner, [], strtod)
  {
    SkipsBlank(s, from, start);
  }

  lemma {:induction false} ObjectParses(s: Text, off: nat, end: nat, members: seq<Member>, depth: nat, strtod: Strtod,
                                       r: Parsed)
    requires Terminated(s) && depth <= NESTING_LIMIT
    requires ShowsObject(s, off, end, members, strtod) && end < |s| && r == ParseObject(s, off, depth, strtod)
    ensures Returns(r, Object(members), end, depth)
    decreases members, 6
  {
    if depth < NESTING_LIMIT {
      var from, close, inner := off + 1, end - 1, depth + 1;
      if members == [] {
        EnterObject(s, off, from, close - 1, close, depth, inner, strtod, r);
      } else {
        var before, start := MembersStart(s, from, close, members, strtod);
        EnterObject(s, off, from, before, start, depth, inner, strtod, r);
        MembersFromStart(s, before, start, close, end, members, depth, inner, strtod, r);
      }
    }
  }

  lemma {:induction false} MembersFromStart(s: Text, before: nat, start: nat, close: nat, end: nat,
                                            members: seq<Member>, depth: nat, inner: nat, strtod: Strtod, r: Parsed)
    requires Terminated(s) && depth < NESTING_LIMIT
    requires ShowsMembers(s, start, close, members, strtod) && close < |s| && s[close] == RBRACE && end == close + 1
    requires start == before + 1 < |s| && inner == depth + 1 && r == ParseMembers(s, before, inner, [], strtod)
    ensures Returns(r, Object(members), end, depth)
    decreases members, 5
  {
    MembersParse(s, before, start, close, members, inner, [], strtod, r);
    assert [] + members == members;
  }

  // ---- Whole texts

  /** A text that shows a value behind white space begins with a byte order mark or not, and the parser sees which. */
  lemma StartsDark(value: Text, s: Text, off: nat, end: nat, j: Json, strtod: Strtod)
    requires s == value + [0] && TextShows(value, off, end, j, strtod)
    ensures off < |s| && SkipWhitespace(s, SkipBom(s)) == off
  {
    ShowsStarts(s, off, end, j, strtod);
    MarkIsSkipped(value, s);
    SkipsBlank(s, SkipBom(s), off);
  }

  lemma MarkIsSkipped(value: Text, s: Text)
    requires s == value + [0]
    ensures SkipBom(s) == if HasMark(value) then 3 else 0
  {
    if 4 < |s| {
      assert s[..3] == [s[0], s[1], s[2]];
    }
  }

  lemma LayoutRead(value: Text, s: Text, off: nat, j: Json, require_null_terminated: bool, strtod: Strtod, r: Parsed)
    requires NulFree(value) && s == value + [0] && TextShows(value, off, |value|, j, strtod)
    requires r == ParseText(value, require_null_terminated, strtod)
    ensures Returns(r, j, |value|, 0)
  {
    StartsDark(value, s, off, |value|, j, strtod);
    var v := ParseValue(s, off, 0, strtod);
    LayoutParses(s, off, |value|, j, 0, strtod, v);
    WholeFromValue(value, s, off, j, require_null_terminated, strtod, v, r);
  }

  lemma WholeFromValue(value: Text, s: Text, off: nat, j: Json, require_null_terminated: bool, strtod: Strtod,
                       v: Parsed, r: Parsed)
    requires NulFree(value) && s == value + [0] && off < |s|
    requires r == ParseText(value, require_null_terminated, strtod)
    requires SkipWhitespace(s, SkipBom(s)) == off
    requires v == ParseValue(s, off, 0, strtod) && Returns(v, j, |value|, 0)
    ensures Returns(r, j, |value|, 0)
  {
    assert FirstDark(s, |value|) == FirstDark(s, |value| + 1) == |s|;
  }

  /** Every C string that lays out j is read as j to its end, if and only if j nests no deeper than 1000. */
  lemma LayoutRoundTrip(value: Text, off: nat, j: Json, strtod: Strtod)
    requires NulFree(value) && TextShows(value, off, |value|, j, strtod)
    ensures Returns(ParseText(value, false, strtod), j, |value|, 0)
    ensures Returns(ParseText(value, true, strtod), j, |value|, 0)
  {
    LayoutRead(value, value + [0], off, j, false, strtod, ParseText(value, false, strtod));
    LayoutRead(value, value + [0], off, j, true, strtod, ParseText(value, true, strtod));
  }
}
