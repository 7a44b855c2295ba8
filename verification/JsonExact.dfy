/** The parser accepts nothing but texts that show a value, so that it accepts exactly those. */
module JsonExact {
  import opened Bytes
  import opened JsonTree
  import opened JsonGrammar
  import opened JsonText
  import opened JsonStrings
  import opened JsonReading

  // ---- White space

  lemma {:induction false} BlankUpTo(s: Text, from: nat, to: nat)
    requires from <= to <= |s| && to <= FirstDark(s, from)
    ensures Blank(s, from, to)
    decreases |s| - from
  {
    if from < to {
      BlankUpTo(s, from + 1, to);
    }
  }

  /** What the parser skips is white space. */
  lemma SkippedIsBlank(s: Text, from: nat, to: nat)
    requires from < |s| && to == SkipWhitespace(s, from)
    ensures Blank(s, from, to)
  {
    BlankUpTo(s, from, to);
  }

  // ---- Values

  /** What is known of a value that was read inside `depth` containers: s shows it, and it is not nested too deeply. */
  ghost predicate Shown(s: Text, off: nat, end: nat, j: Json, depth: nat, strtod: Strtod) {
    Shows(s, off, end, j, strtod) && depth + Nesting(j) <= NESTING_LIMIT
  }

  lemma LiteralShown(s: Text, off: nat, t: Text, j: Json, end: nat, strtod: Strtod)
    requires Literally(s, off, t) && end == off + |t|
    requires (t == NULL_TEXT && j == Null) || (t == FALSE_TEXT && j == False) || (t == TRUE_TEXT && j == True)
    ensures Shows(s, off, end, j, strtod)
  {
    AtSlice(s, off, t);
  }

  lemma {:induction false} ValueShown(s: Text, off: nat, depth: nat, strtod: Strtod, j: Json, end: nat)
    requires Terminated(s) && off < |s| && depth <= NESTING_LIMIT && ParseValue(s, off, depth, strtod) == Ok(j, end)
    ensures Shown(s, off, end, j, depth, strtod)
    decreases |s| - off, 3
  {
    if Literally(s, off, NULL_TEXT) {
      LiteralShown(s, off, NULL_TEXT, j, end, strtod);
    } else if Literally(s, off, FALSE_TEXT) {
      LiteralShown(s, off, FALSE_TEXT, j, end, strtod);
    } else if Literally(s, off, TRUE_TEXT) {
      LiteralShown(s, off, TRUE_TEXT, j, end, strtod);
    } else if s[off] == QUOTE {
      StringParsesExactly(s, off, end, j.valuestring);
    } else if s[off] == MINUS || 0x30 <= s[off] <= 0x39 {
      NumberParsesExactly(s, off, end, j.valueint, strtod);
    } else if s[off] == LBRACKET {
      ArrayShown(s, off, depth, strtod, j, end);
    } else {
      ObjectShown(s, off, depth, strtod, j, end);
    }
  }

  lemma {:induction false} ElementShown(s: Text, before: nat, from: nat, depth: nat, strtod: Strtod, j: Json, next: nat)
    returns (start: nat, end: nat)
    requires Terminated(s) && from == before + 1 < |s| && depth <= NESTING_LIMIT
    requires ParseElement(s, before, depth, strtod) == Ok(j, next)
    ensures Blank(s, from, start) && Shown(s, start, end, j, depth, strtod) && Blank(s, end, next) && next < |s|
    decreases |s| - before, 0
  {
    start := SkipWhitespace(s, from);
    SkippedIsBlank(s, from, start);
    end := ParseValue(s, start, depth, strtod).offset;
    SkippedIsBlank(s, end, next);
    ValueShown(s, start, depth, strtod, j, end);
  }

  // ---- Arrays

  lemma ItemsFromEarlier(s: Text, from: nat, start: nat, close: nat, items: seq<Json>, strtod: Strtod)
    requires Blank(s, from, start) && ShowsItems(s, start, close, items, strtod)
    ensures ShowsItems(s, from, close, items, strtod)
  {
    var at: Stops :| ShowsItemsBy(s, start, at, close, items, strtod);
    BlankJoin(s, from, start, at.start);
    assert ShowsItemsBy(s, from, at, close, items, strtod);
  }

  /** Reading has added these elements, up to the bracket in front of end. */
  ghost predicate ItemsAdded(s: Text, from: nat, end: nat, done: seq<Json>, items: seq<Json>, j: Json, depth: nat,
                             strtod: Strtod)
  {
    && j == Array(done + items) && 0 < end <= |s| && s[end - 1] == RBRACKET
    && ShowsItems(s, from, end - 1, items, strtod) && depth + NestingItems(items) <= NESTING_LIMIT
  }

  lemma OneItem(s: Text, from: nat, at: Stops, end: nat, done: seq<Json>, value: Json,
                items: seq<Json>, j: Json, depth: nat, strtod: Strtod)
    requires items == [value] && j == Array(done + [value])
    requires end == at.next + 1 && at.next < |s| && s[at.next] == RBRACKET
    requires Between(s, from, at, at.next, true) && Shows(s, at.start, at.end, value, strtod)
    requires depth + Nesting(value) <= NESTING_LIMIT
    ensures ItemsAdded(s, from, end, done, items, j, depth, strtod)
  {
    assert NestingItems(items[1..]) == 0;
    assert ShowsItemsBy(s, from, at, at.next, items, strtod);
  }

  lemma MoreItems(s: Text, from: nat, at: Stops, ahead: nat, end: nat, done: seq<Json>, more: seq<Json>, value: Json,
                  rest: seq<Json>, items: seq<Json>, j: Json, depth: nat, strtod: Strtod)
    requires items == [value] + rest && more == done + [value] && ahead == at.next + 1
    requires ItemsAdded(s, ahead, end, more, rest, j, depth, strtod)
    requires Between(s, from, at, end - 1, false) && Shows(s, at.start, at.end, value, strtod)
    requires depth + Nesting(value) <= NESTING_LIMIT
    ensures ItemsAdded(s, from, end, done, items, j, depth, strtod)
  {
    assert items[1..] == rest && more + rest == done + items;
    assert ShowsItemsBy(s, from, at, end - 1, items, strtod);
  }

  /** The elements that reading adds to those that are there. */
  lemma {:induction false} ItemsShown(s: Text, before: nat, from: nat, depth: nat, done: seq<Json>, strtod: Strtod,
                                      r: Parsed, j: Json, end: nat)
    returns (items: seq<Json>)
    requires Terminated(s) && from == before + 1 < |s| && depth <= NESTING_LIMIT
    requires r == ParseItems(s, before, depth, done, strtod) && r == Ok(j, end)
    ensures ItemsAdded(s, from, end, done, items, j, depth, strtod)
    decreases |s| - before, 1
  {
    var e := ParseElement(s, before, depth, strtod);
    ItemsStep(s, before, depth, done, strtod, e, r);
    var value, next := e.value, e.offset;
    var start, stop := ElementShown(s, before, from, depth, strtod, value, next);
    var at := Stops(start, stop, next);
    if s[next] == COMMA {
      var more, ahead := done + [value], next + 1;
      var rest := ItemsShown(s, next, ahead, depth, more, strtod, r, j, end);
      items := [value] + rest;
      MoreItems(s, from, at, ahead, end, done, more, value, rest, items, j, depth, strtod);
    } else {
      items := [value];
      OneItem(s, from, at, end, done, value, items, j, depth, strtod);
    }
  }

  lemma {:induction false} ArrayShown(s: Text, off: nat, depth: nat, strtod: Strtod, j: Json, end: nat)
    requires Terminated(s) && off < |s| && depth <= NESTING_LIMIT && s[off] == LBRACKET
    requires ParseArray(s, off, depth, strtod) == Ok(j, end)
    ensures Shown(s, off, end, j, depth, strtod)
    decreases |s| - off, 2
  {
    var from := off + 1;
    var first := SkipWhitespace(s, from);
    SkippedIsBlank(s, from, first);
    if s[first] != RBRACKET {
      var before, inner := first - 1, depth + 1;
      var r := ParseItems(s, before, inner, [], strtod);
      var items := ItemsShown(s, before, first, inner, [], strtod, r, j, end);
      assert [] + items == items;
      ItemsFromEarlier(s, from, first, end - 1, items, strtod);
    }
  }

  // ---- Objects

  lemma MembersFromEarlier(s: Text, from: nat, start: nat, close: nat, members: seq<Member>, strtod: Strtod)
    requires Blank(s, from, start) && ShowsMembers(s, start, close, members, strtod)
    ensures ShowsMembers(s, from, close, members, strtod)
  {
    var at: Stops :| ShowsMembersBy(s, start, at, close, members, strtod);
    BlankJoin(s, from, start, at.start);
    assert ShowsMembersBy(s, from, at, close, members, strtod);
  }

  /** Reading has added these members, up to the bracket in front of end. */
  ghost predicate MembersAdded(s: Text, from: nat, end: nat, done: seq<Member>, members: seq<Member>, j: Json,
                               depth: nat, strtod: Strtod)
  {
    && j == Object(done + members) && 0 < end <= |s| && s[end - 1] == RBRACE
    && ShowsMembers(s, from, end - 1, members, strtod) && depth + NestingMembers(members) <= NESTING_LIMIT
  }

  lemma OneMember(s: Text, from: nat, at: Stops, end: nat, done: seq<Member>, m: Member,
                  members: seq<Member>, j: Json, depth: nat, strtod: Strtod)
    requires members == [m] && j == Object(done + [m])
    requires end == at.next + 1 && at.next < |s| && s[at.next] == RBRACE
    requires Between(s, from, at, at.next, true) && ShowsMember(s, at.start, at.end, m, strtod)
    requires depth + Nesting(m.value) <= NESTING_LIMIT
    ensures MembersAdded(s, from, end, done, members, j, depth, strtod)
  {
    assert NestingMembers(members[1..]) == 0;
    assert ShowsMembersBy(s, from, at, at.next, members, strtod);
  }

  lemma MoreMembers(s: Text, from: nat, at: Stops, ahead: nat, end: nat, done: seq<Member>, more: seq<Member>,
                    m: Member, rest: seq<Member>, members: seq<Member>, j: Json, depth: nat, strtod: Strtod)
    requires members == [m] + rest && more == done + [m] && ahead == at.next + 1
    requires MembersAdded(s, ahead, end, more, rest, j, depth, strtod)
    requires Between(s, from, at, end - 1, false) && ShowsMember(s, at.start, at.end, m, strtod)
    requires depth + Nesting(m.value) <= NESTING_LIMIT
    ensures MembersAdded(s, from, end, done, members, j, depth, strtod)
  {
    assert members[1..] == rest && more + rest == done + members;
    assert ShowsMembersBy(s, from, at, end - 1, members, strtod);
  }

  /** The places of a key that was read, up to its colon. */
  lemma KeyShown(s: Text, before: nat, from: nat, key: Text, colon: nat) returns (start: nat, behind: nat)
    requires Terminated(s) && from == before + 1 < |s| && ParseKey(s, before) == StringOk(key, colon)
    ensures Blank(s, from, start) && ShowsString(s, start, behind, key)
    ensures Blank(s, behind, colon) && colon < |s| && s[colon] == COLON
  {
    start := SkipWhitespace(s, from);
    SkippedIsBlank(s, from, start);
    behind := ParseString(s, start).offset;
    StringParsesExactly(s, start, behind, key);
    SkippedIsBlank(s, behind, colon);
  }

  lemma {:induction false} MemberShown(s: Text, before: nat, from: nat, depth: nat, strtod: Strtod, m: Member,
                                       next: nat)
    returns (start: nat, end: nat)
    requires Terminated(s) && from == before + 1 < |s| && depth <= NESTING_LIMIT
    requires ParseMember(s, before, depth, strtod) == MemberOk(m, next)
    ensures Blank(s, from, start) && ShowsMember(s, start, end, m, strtod) && Blank(s, end, next) && next < |s|
    ensures depth + Nesting(m.value) <= NESTING_LIMIT
    decreases |s| - before, 0
  {
    var behind;
    var colon := ParseKey(s, before).offset;
    start, behind := KeyShown(s, before, from, m.key, colon);
    var value;
    value, end := ElementShown(s, colon, colon + 1, depth, strtod, m.value, next);
    assert ShowsMemberBy(s, start, Places(behind, colon, colon + 1, value), end, m, strtod);
  }

  /** The members that reading adds to those that are there. */
  lemma {:induction false} MembersShown(s: Text, before: nat, from: nat, depth: nat, done: seq<Member>, strtod: Strtod,
                                        r: Parsed, j: Json, end: nat)
    returns (members: seq<Member>)
    requires Terminated(s) && from == before + 1 < |s| && depth <= NESTING_LIMIT
    requires r == ParseMembers(s, before, depth, done, strtod) && r == Ok(j, end)
    ensures MembersAdded(s, from, end, done, members, j, depth, strtod)
    decreases |s| - before, 1
  {
    var e := ParseMember(s, before, depth, strtod);
    MembersStep(s, before, depth, done, strtod, e, r);
    var m, next := e.m, e.offset;
    var start, stop := MemberShown(s, before, from, depth, strtod, m, next);
    var at := Stops(start, stop, next);
    if s[next] == COMMA {
      var more, ahead := done + [m], next + 1;
      var rest := MembersShown(s, next, ahead, depth, more, strtod, r, j, end);
      members := [m] + rest;
      MoreMembers(s, from, at, ahead, end, done, more, m, rest, members, j, depth, strtod);
    } else {
      members := [m];
      OneMember(s, from, at, end, done, m, members, j, depth, strtod);
    }
  }

  lemma {:induction false} ObjectShown(s: Text, off: nat, depth: nat, strtod: Strtod, j: Json, end: nat)
    requires Terminated(s) && off < |s| && depth <= NESTING_LIMIT && s[off] == LBRACE
    requires ParseObject(s, off, depth, strtod) == Ok(j, end)
    ensures Shown(s, off, end, j, depth, strtod)
    decreases |s| - off, 2
  {
    var from := off + 1;
    var first := SkipWhitespace(s, from);
    SkippedIsBlank(s, from, first);
    if s[first] != RBRACE {
      var before, inner := first - 1, depth + 1;
      var r := ParseMembers(s, before, inner, [], strtod);
      var members := MembersShown(s, before, first, inner, [], strtod, r, j, end);
      assert [] + members == members;
      MembersFromEarlier(s, from, first, end - 1, members, strtod);
    }
  }

  // ---- The theorems

  /** A value is read inside `depth` containers if and only if s shows it and it nests no deeper than what is left. */
  lemma ValueParsesExactly(s: Text, off: nat, depth: nat, strtod: Strtod, j: Json, end: nat)
    requires Terminated(s) && off < |s| && depth <= 1000
    ensures ParseValue(s, off, depth, strtod) == Ok(j, end)
       <==> Shows(s, off, end, j, strtod) && depth + Nesting(j) <= 1000
  {
    if Shows(s, off, end, j, strtod) {
      LayoutParses(s, off, end, j, depth, strtod, ParseValue(s, off, depth, strtod));
    }
    if ParseValue(s, off, depth, strtod) == Ok(j, end) {
      ValueShown(s, off, depth, strtod, j, end);
    }
  }

  /** Where reading stops: behind the value, or at the end if nothing but white space may follow. */
  ghost predicate StopsAt(value: Text, end: nat, require_null_terminated: bool, stop: nat) {
    if require_null_terminated then stop == |value| && Blank(value + [0], end, |value|) else stop == end
  }

  ghost predicate IsText(value: Text, require_null_terminated: bool, j: Json, stop: nat, strtod: Strtod) {
    exists off: nat, end: nat ::
      TextShows(value, off, end, j, strtod) && StopsAt(value, end, require_null_terminated, stop)
  }

  lemma {:induction false} BlankIsSkipped(s: Text, from: nat, to: nat)
    requires Blank(s, from, to)
    ensures FirstDark(s, from) == FirstDark(s, to)
    decreases if from < to then to - from else 0
  {
    if from < to {
      BlankIsSkipped(s, from + 1, to);
    }
  }

  lemma BlankToTheEnd(value: Text, s: Text, from: nat)
    requires NulFree(value) && s == value + [0] && from < |s|
    ensures Blank(s, from, |value|) <==> s[SkipWhitespace(s, from)] == 0
    ensures Blank(s, from, |value|) ==> SkipWhitespace(s, from) == |value|
  {
    if Blank(s, from, |value|) {
      BlankIsSkipped(s, from, |value|);
      assert FirstDark(s, |value|) == FirstDark(s, |value| + 1) == |s|;
    } else if s[SkipWhitespace(s, from)] == 0 {
      SkippedIsBlank(s, from, SkipWhitespace(s, from));
    }
  }

  lemma TextIsShown(value: Text, s: Text, require_null_terminated: bool, strtod: Strtod, j: Json, stop: nat)
    requires NulFree(value) && s == value + [0] && ParseText(value, require_null_terminated, strtod) == Ok(j, stop)
    ensures IsText(value, require_null_terminated, j, stop, strtod) && Nesting(j) <= 1000
  {
    var mark := SkipBom(s);
    var off := SkipWhitespace(s, mark);
    var end := ParseValue(s, off, 0, strtod).offset;
    MarkIsSkipped(value, s);
    SkippedIsBlank(s, mark, off);
    ValueShown(s, off, 0, strtod, j, end);
    BlankToTheEnd(value, s, end);
    assert TextShows(value, off, end, j, strtod) && StopsAt(value, end, require_null_terminated, stop);
  }

  lemma ShownIsRead(value: Text, s: Text, require_null_terminated: bool, strtod: Strtod, j: Json, stop: nat)
    requires NulFree(value) && s == value + [0] && Nesting(j) <= 1000
    requires IsText(value, require_null_terminated, j, stop, strtod)
    ensures ParseText(value, require_null_terminated, strtod) == Ok(j, stop)
  {
    var off: nat, end: nat :|
      TextShows(value, off, end, j, strtod) && StopsAt(value, end, require_null_terminated, stop);
    StartsDark(value, s, off, end, j, strtod);
    LayoutParses(s, off, end, j, 0, strtod, ParseValue(s, off, 0, strtod));
    BlankToTheEnd(value, s, end);
  }

  /**
   * A text is accepted if and only if it is a JSON text: white space, maybe behind a byte order mark, a value that
   * nests no deeper than 1000, and, where it is asked for, nothing but white space behind it. The tree and the place
   * where reading stops are those of that value.
   */
  lemma TextParsesExactly(value: Text, require_null_terminated: bool, strtod: Strtod, j: Json, stop: nat)
    requires NulFree(value)
    ensures ParseText(value, require_null_terminated, strtod) == Ok(j, stop)
       <==> IsText(value, require_null_terminated, j, stop, strtod) && Nesting(j) <= 1000
  {
    if ParseText(value, require_null_terminated, strtod) == Ok(j, stop) {
      TextIsShown(value, value + [0], require_null_terminated, strtod, j, stop);
    }
    if IsText(value, require_null_terminated, j, stop, strtod) && Nesting(j) <= 1000 {
      ShownIsRead(value, value + [0], require_null_terminated, strtod, j, stop);
    }
  }
}
