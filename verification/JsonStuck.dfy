/** Where a text stops being a JSON text: the places at which the parser gives up, byte by byte. */
module JsonStuck {
  import opened Bytes
  import opened JsonTree
  import opened JsonGrammar
  import opened JsonText
  import opened JsonStrings
  import opened JsonReading
  import opened JsonExact

  // ---- The reference

  /** The next byte that is no white space, or the last byte of the input. */
  ghost predicate GapTo(s: Text, from: nat, to: nat) {
    Blank(s, from, to) && to < |s| && (s[to] > 32 || to == |s| - 1)
  }

  ghost predicate NeverCloses(s: Text, start: nat) {
    forall q :: !ClosesAt(s, start, q)
  }

  /** From p on, piece by piece, one comes to `at`. */
  ghost predicate Reaches(s: Text, p: nat, end: nat, at: nat)
    decreases if p < end then end - p else 0
  {
    p == at || (p < end < |s| && exists x: Piece :: ReachesBy(s, p, end, at, x))
  }

  ghost predicate ReachesBy(s: Text, p: nat, end: nat, at: nat, x: Piece)
    requires p < end < |s|
    decreases end - p, 0
  {
    PieceAt(s, p, end, x) && x.length > 0 && Reaches(s, p + x.length, end, at)
  }

  ghost predicate NoPieceAt(s: Text, at: nat, end: nat) {
    at < end < |s| && forall x: Piece :: !PieceAt(s, at, end, x)
  }

  /** There is no string at off: no quote, no closing quote, or a backslash at `at` that begins no escape. */
  ghost predicate StuckString(s: Text, off: nat, at: nat)
    requires off < |s|
  {
    if s[off] != 0x22 || NeverCloses(s, off + 1) then at == off + 1
    else exists q: nat :: ClosesAt(s, off + 1, q) && Reaches(s, off + 1, q, at) && NoPieceAt(s, at, q)
  }

  ghost predicate NothingStarts(s: Text, off: nat)
    requires off < |s|
  {
    && !At(s, off, [0x6E, 0x75, 0x6C, 0x6C]) && !At(s, off, [0x66, 0x61, 0x6C, 0x73, 0x65])
    && !At(s, off, [0x74, 0x72, 0x75, 0x65])
    && s[off] != 0x22 && s[off] != 0x2D && !(0x30 <= s[off] <= 0x39) && s[off] != 0x5B && s[off] != 0x7B
  }

  ghost predicate StuckNumber(s: Text, off: nat, strtod: Strtod) {
    exists k: nat :: NumberSpan(s, off, k) && strtod(s[off..off + k]).used == 0
  }

  /** A value from start up to end, white space behind it, and the byte at `next` behind that. */
  ghost predicate Passes(s: Text, start: nat, j: Json, end: nat, next: nat, depth: nat, strtod: Strtod) {
    Shows(s, start, end, j, strtod) && depth + Nesting(j) <= 1000 && GapTo(s, end, next)
  }

  /** No value can be read at off, inside `depth` containers, and `at` is where that shows. */
  ghost predicate Stuck(s: Text, off: nat, at: nat, depth: nat, strtod: Strtod)
    requires off < |s|
    decreases |s| - off, 3
  {
    || (NothingStarts(s, off) && at == off)
    || (s[off] == 0x22 && StuckString(s, off, at))
    || ((s[off] == 0x2D || 0x30 <= s[off] <= 0x39) && StuckNumber(s, off, strtod) && at == off)
    || ((s[off] == 0x5B || s[off] == 0x7B) && StuckContainer(s, off, at, depth, strtod))
  }

  /** Too many containers, or something between the brackets. */
  ghost predicate StuckContainer(s: Text, off: nat, at: nat, depth: nat, strtod: Strtod)
    requires off < |s|
    decreases |s| - off, 2
  {
    if depth >= 1000 then at == off else exists first: nat :: StuckInside(s, off, first, at, depth, strtod)
  }

  ghost predicate StuckInside(s: Text, off: nat, first: nat, at: nat, depth: nat, strtod: Strtod)
    requires off < |s|
    decreases |s| - off, 1
  {
    && off < first && GapTo(s, off + 1, first)
    && if s[off] == 0x5B then s[first] != 0x5D && StuckItems(s, first, at, depth + 1, strtod)
       else s[first] != 0x7D && StuckMembers(s, first, at, depth + 1, strtod)
  }

  /** Of the elements from start on, one cannot be read, or neither comma nor bracket stands behind one. */
  ghost predicate StuckItems(s: Text, start: nat, at: nat, depth: nat, strtod: Strtod)
    requires start < |s|
    decreases |s| - start, 4
  {
    || Stuck(s, start, at, depth, strtod)
    || exists j: Json, end: nat, next: nat ::
         Passes(s, start, j, end, next, depth, strtod) && StuckBehindItem(s, start, next, at, depth, strtod)
  }

  ghost predicate StuckBehindItem(s: Text, start: nat, next: nat, at: nat, depth: nat, strtod: Strtod)
    requires start < |s|
    decreases |s| - start, 1
  {
    && start < next < |s|
    && if s[next] == 0x2C then
         exists more: nat :: next < more && GapTo(s, next + 1, more) && StuckItems(s, more, at, depth, strtod)
       else s[next] != 0x5D && at == next
  }

  /** The same of members: their keys, the colons behind the keys, their values, and what stands behind those. */
  ghost predicate StuckMembers(s: Text, start: nat, at: nat, depth: nat, strtod: Strtod)
    requires start < |s|
    decreases |s| - start, 4
  {
    || StuckString(s, start, at)
    || exists key: Text, behind: nat, colon: nat ::
         ShowsString(s, start, behind, key) && GapTo(s, behind, colon)
         && StuckBehindKey(s, start, colon, at, depth, strtod)
  }

  ghost predicate StuckBehindKey(s: Text, start: nat, colon: nat, at: nat, depth: nat, strtod: Strtod)
    requires start < |s|
    decreases |s| - start, 3
  {
    && start < colon < |s|
    && if s[colon] != 0x3A then at == colon
       else exists value: nat ::
         colon < value && GapTo(s, colon + 1, value) && StuckValue(s, start, value, at, depth, strtod)
  }

  ghost predicate StuckValue(s: Text, start: nat, value: nat, at: nat, depth: nat, strtod: Strtod)
    requires start < value < |s|
    decreases |s| - start, 2
  {
    || Stuck(s, value, at, depth, strtod)
    || exists j: Json, end: nat, next: nat ::
         Passes(s, value, j, end, next, depth, strtod) && StuckBehindMember(s, start, next, at, depth, strtod)
  }

  ghost predicate StuckBehindMember(s: Text, start: nat, next: nat, at: nat, depth: nat, strtod: Strtod)
    requires start < |s|
    decreases |s| - start, 1
  {
    && start < next < |s|
    && if s[next] == 0x2C then
         exists more: nat :: next < more && GapTo(s, next + 1, more) && StuckMembers(s, more, at, depth, strtod)
       else s[next] != 0x7D && at == next
  }

  // ---- White space, strings and numbers

  lemma GapIsSkipped(s: Text, from: nat, to: nat)
    requires Terminated(s) && from < |s|
    ensures GapTo(s, from, to) <==> to == SkipWhitespace(s, from)
  {
    if GapTo(s, from, to) {
      BlankIsSkipped(s, from, to);
      assert s[to] <= 32 ==> FirstDark(s, to) == FirstDark(s, to + 1) == |s|;
    }
    if to == SkipWhitespace(s, from) {
      SkippedIsBlank(s, from, to);
    }
  }

  lemma {:induction false} UnknownExactly(s: Text, p: nat, end: nat, done: Text, at: nat, u: Unescaped)
    requires end < |s| && u == Unescape(s, p, end, done)
    ensures u == Unknown(at) <==> Reaches(s, p, end, at) && NoPieceAt(s, at, end)
    decreases if p < end then end - p else 0
  {
    if p < end {
      var x := StepOf(s, p, end);
      UnescapeStep(s, p, end, done, x);
      forall y: Piece ensures PieceAt(s, p, end, y) <==> y == x && x.length > 0 {
        StepIsPiece(s, p, end, y);
      }
      if x.length > 0 {
        var next, more := p + x.length, done + x.meaning;
        UnknownExactly(s, next, end, more, at, u);
        assert Reaches(s, next, end, at) ==> ReachesBy(s, p, end, at, x);
        assert PieceAt(s, p, end, x);
      }
    }
  }

  lemma StringFailsExactly(s: Text, off: nat, at: nat)
    requires off < |s| && Terminated(s)
    ensures ParseString(s, off) == StringFail(at) <==> StuckString(s, off, at)
  {
    if s[off] == QUOTE {
      var start := off + 1;
      forall q: nat ensures FindClosing(s, start) == Closed(q) <==> ClosesAt(s, start, q) {
        FindClosingExactly(s, start, q);
      }
      var f := FindClosing(s, start);
      if f.Closed? {
        assert ClosesAt(s, start, f.end);
        UnknownExactly(s, start, f.end, [], at, Unescape(s, start, f.end, []));
      }
    }
  }

  lemma NumberFailsExactly(s: Text, off: nat, at: nat, strtod: Strtod)
    requires off < |s| && Terminated(s)
    ensures ParseNumber(s, off, strtod) == Fail(at) <==> StuckNumber(s, off, strtod) && at == off
  {
    var k := RunLength(s, off, 63);
    forall i: nat ensures NumberSpan(s, off, i) <==> i == k {
      RunIsSpan(s, off, 63, i);
    }
    assert NumberSpan(s, off, k) && NumberRun(s, off) == s[off..off + k];
  }

  // ---- Values

  /** A value that is read, and the byte behind it, are what passes at that place, and nothing else does. */
  lemma PassesExactly(s: Text, start: nat, j: Json, end: nat, next: nat, depth: nat, strtod: Strtod)
    requires Terminated(s) && start < |s| && depth <= 1000
    ensures Passes(s, start, j, end, next, depth, strtod) <==>
      ParseValue(s, start, depth, strtod) == Ok(j, end) && next == SkipWhitespace(s, end)
  {
    ValueParsesExactly(s, start, depth, strtod, j, end);
    if ParseValue(s, start, depth, strtod) == Ok(j, end) {
      GapIsSkipped(s, end, next);
    }
  }

  lemma LiteralsAt(s: Text, off: nat)
    requires off < |s|
    ensures Literally(s, off, NULL_TEXT) <==> At(s, off, [0x6E, 0x75, 0x6C, 0x6C])
    ensures Literally(s, off, FALSE_TEXT) <==> At(s, off, [0x66, 0x61, 0x6C, 0x73, 0x65])
    ensures Literally(s, off, TRUE_TEXT) <==> At(s, off, [0x74, 0x72, 0x75, 0x65])
  {
    AtSlice(s, off, NULL_TEXT);
    AtSlice(s, off, FALSE_TEXT);
    AtSlice(s, off, TRUE_TEXT);
  }

  lemma ContainerStuck(s: Text, off: nat, depth: nat, strtod: Strtod, at: nat)
    requires off < |s| && (s[off] == LBRACKET || s[off] == LBRACE)
    ensures Stuck(s, off, at, depth, strtod) <==> StuckContainer(s, off, at, depth, strtod)
  {
    assert !NothingStarts(s, off);
  }

  /** Where none of the other values begins there is one of the three words, or nothing. */
  lemma WordOrNothing(s: Text, off: nat, depth: nat, strtod: Strtod, at: nat, r: Parsed)
    requires Terminated(s) && off < |s| && r == ParseValue(s, off, depth, strtod)
    requires s[off] != QUOTE && s[off] != MINUS && !(0x30 <= s[off] <= 0x39) && s[off] != LBRACKET && s[off] != LBRACE
    ensures r == Fail(at) <==> NothingStarts(s, off) && at == off
  {
    LiteralsAt(s, off);
  }

  lemma {:induction false} ValueFailsExactly(s: Text, off: nat, depth: nat, strtod: Strtod, at: nat, r: Parsed)
    requires Terminated(s) && off < |s| && depth <= 1000 && r == ParseValue(s, off, depth, strtod)
    ensures r == Fail(at) <==> Stuck(s, off, at, depth, strtod)
    decreases |s| - off, 3
  {
    Dispatch(s, off, depth, strtod, r);
    if s[off] == QUOTE {
      StringFailsExactly(s, off, at);
    } else if s[off] == MINUS || 0x30 <= s[off] <= 0x39 {
      NumberFailsExactly(s, off, at, strtod);
    } else if s[off] == LBRACKET {
      ArrayFailsExactly(s, off, depth, strtod, at, r);
      ContainerStuck(s, off, depth, strtod, at);
    } else if s[off] == LBRACE {
      ObjectFailsExactly(s, off, depth, strtod, at, r);
      ContainerStuck(s, off, depth, strtod, at);
    } else {
      WordOrNothing(s, off, depth, strtod, at, r);
    }
  }

  lemma {:induction false} ArrayFailsExactly(s: Text, off: nat, depth: nat, strtod: Strtod, at: nat, r: Parsed)
    requires Terminated(s) && off < |s| && depth <= 1000 && s[off] == LBRACKET && r == ParseArray(s, off, depth, strtod)
    ensures r == Fail(at) <==> StuckContainer(s, off, at, depth, strtod)
    decreases |s| - off, 2
  {
    if depth < 1000 {
      var from, inner := off + 1, depth + 1;
      var first := SkipWhitespace(s, from);
      var before := first - 1;
      forall to: nat ensures GapTo(s, from, to) <==> to == first {
        GapIsSkipped(s, from, to);
      }
      if s[first] != RBRACKET {
        SkipAgain(s, from, first);
        ItemsFailExactly(s, before, first, inner, [], strtod, at, r);
      }
      assert StuckInside(s, off, first, at, depth, strtod)
        <==> s[first] != RBRACKET && StuckItems(s, first, at, inner, strtod);
    }
  }

  lemma SkipAgain(s: Text, from: nat, to: nat)
    requires Terminated(s) && from < |s| && to == SkipWhitespace(s, from)
    ensures SkipWhitespace(s, to) == to
  {
    assert s[to] <= 32 ==> FirstDark(s, to) == FirstDark(s, to + 1) == |s|;
  }

  lemma {:induction false} ItemsFailExactly(s: Text, before: nat, start: nat, depth: nat, done: seq<Json>,
                                            strtod: Strtod, at: nat, r: Parsed)
    requires Terminated(s) && before + 1 < |s| && start == SkipWhitespace(s, before + 1) && depth <= 1000
    requires r == ParseItems(s, before, depth, done, strtod)
    ensures r == Fail(at) <==> StuckItems(s, start, at, depth, strtod)
    decreases |s| - start, 4
  {
    var v := ParseValue(s, start, depth, strtod);
    ValueFailsExactly(s, start, depth, strtod, at, v);
    forall j: Json, end: nat, next: nat
      ensures Passes(s, start, j, end, next, depth, strtod) <==> v == Ok(j, end) && next == SkipWhitespace(s, end)
    {
      PassesExactly(s, start, j, end, next, depth, strtod);
    }
    ItemsStep(s, before, depth, done, strtod, ParseElement(s, before, depth, strtod), r);
    if v.Ok? {
      var next, more := SkipWhitespace(s, v.offset), done + [v.value];
      BehindItemExactly(s, start, next, depth, more, strtod, at, r);
      assert Passes(s, start, v.value, v.offset, next, depth, strtod);
    }
  }

  lemma {:induction false} BehindItemExactly(s: Text, start: nat, next: nat, depth: nat, more: seq<Json>,
                                             strtod: Strtod, at: nat, r: Parsed)
    requires Terminated(s) && start < next < |s| && depth <= 1000
    requires r == if s[next] == COMMA then ParseItems(s, next, depth, more, strtod)
                  else if s[next] == RBRACKET then Ok(Array(more), next + 1) else Fail(next)
    ensures r == Fail(at) <==> StuckBehindItem(s, start, next, at, depth, strtod)
    decreases |s| - start, 1
  {
    if s[next] == COMMA {
      var from := next + 1;
      var first := SkipWhitespace(s, from);
      forall to: nat ensures GapTo(s, from, to) <==> to == first {
        GapIsSkipped(s, from, to);
      }
      ItemsFailExactly(s, next, first, depth, more, strtod, at, r);
    }
  }

  lemma {:induction false} ObjectFailsExactly(s: Text, off: nat, depth: nat, strtod: Strtod, at: nat, r: Parsed)
    requires Terminated(s) && off < |s| && depth <= 1000 && s[off] == LBRACE && r == ParseObject(s, off, depth, strtod)
    ensures r == Fail(at) <==> StuckContainer(s, off, at, depth, strtod)
    decreases |s| - off, 2
  {
    if depth < 1000 {
      var from, inner := off + 1, depth + 1;
      var first := SkipWhitespace(s, from);
      var before := first - 1;
      forall to: nat ensures GapTo(s, from, to) <==> to == first {
        GapIsSkipped(s, from, to);
      }
      if s[first] != RBRACE {
        SkipAgain(s, from, first);
        MembersFailExactly(s, before, first, inner, [], strtod, at, r);
      }
      assert StuckInside(s, off, first, at, depth, strtod)
        <==> s[first] != RBRACE && StuckMembers(s, first, at, inner, strtod);
    }
  }

  lemma {:induction false} MembersFailExactly(s: Text, before: nat, start: nat, depth: nat, done: seq<Member>,
                                              strtod: Strtod, at: nat, r: Parsed)
    requires Terminated(s) && before + 1 < |s| && start == SkipWhitespace(s, before + 1) && depth <= 1000
    requires r == ParseMembers(s, before, depth, done, strtod)
    ensures r == Fail(at) <==> StuckMembers(s, start, at, depth, strtod)
    decreases |s| - start, 4
  {
    var k := ParseString(s, start);
    StringFailsExactly(s, start, at);
    forall key: Text, behind: nat, colon: nat
      ensures ShowsString(s, start, behind, key) && GapTo(s, behind, colon)
         <==> k == StringOk(key, behind) && colon == SkipWhitespace(s, behind)
    {
      StringParsesExactly(s, start, behind, key);
      if k == StringOk(key, behind) {
        GapIsSkipped(s, behind, colon);
      }
    }
    if k.StringOk? {
      var colon := SkipWhitespace(s, k.offset);
      BehindKeyExactly(s, before, start, k.text, colon, depth, done, strtod, at, r);
      StringParsesExactly(s, start, k.offset, k.text);
      assert ShowsString(s, start, k.offset, k.text) && GapTo(s, k.offset, colon);
    }
  }

  lemma {:induction false} BehindKeyExactly(s: Text, before: nat, start: nat, key: Text, colon: nat, depth: nat,
                                            done: seq<Member>, strtod: Strtod, at: nat, r: Parsed)
    requires Terminated(s) && before + 1 < |s| && start == SkipWhitespace(s, before + 1) < colon < |s| && depth <= 1000
    requires ParseKey(s, before) == if s[colon] == COLON then StringOk(key, colon) else StringFail(colon)
    requires r == ParseMembers(s, before, depth, done, strtod)
    ensures r == Fail(at) <==> StuckBehindKey(s, start, colon, at, depth, strtod)
    decreases |s| - start, 3
  {
    if s[colon] == COLON {
      var from := colon + 1;
      var value := SkipWhitespace(s, from);
      forall to: nat ensures GapTo(s, from, to) <==> to == value {
        GapIsSkipped(s, from, to);
      }
      MemberValueExactly(s, before, start, key, colon, value, depth, done, strtod, at, r);
    }
  }

  lemma {:induction false} MemberValueExactly(s: Text, before: nat, start: nat, key: Text, colon: nat, value: nat,
                                              depth: nat, done: seq<Member>, strtod: Strtod, at: nat, r: Parsed)
    requires Terminated(s) && before + 1 < |s| && start < colon && colon + 1 < |s| && depth <= 1000
    requires ParseKey(s, before) == StringOk(key, colon) && value == SkipWhitespace(s, colon + 1)
    requires r == ParseMembers(s, before, depth, done, strtod)
    ensures r == Fail(at) <==> StuckValue(s, start, value, at, depth, strtod)
    decreases |s| - start, 2
  {
    var v := ParseValue(s, value, depth, strtod);
    ValueFailsExactly(s, value, depth, strtod, at, v);
    forall j: Json, end: nat, next: nat
      ensures Passes(s, value, j, end, next, depth, strtod) <==> v == Ok(j, end) && next == SkipWhitespace(s, end)
    {
      PassesExactly(s, value, j, end, next, depth, strtod);
    }
    var e, m := ParseElement(s, colon, depth, strtod), ParseMember(s, before, depth, strtod);
    MemberFromParts(s, before, key, colon, depth, strtod, e, m);
    MembersStep(s, before, depth, done, strtod, m, r);
    if v.Ok? {
      var next, more := SkipWhitespace(s, v.offset), done + [Member(key, v.value)];
      BehindMemberExactly(s, start, next, depth, more, strtod, at, r);
      assert Passes(s, value, v.value, v.offset, next, depth, strtod);
    }
  }

  lemma {:induction false} BehindMemberExactly(s: Text, start: nat, next: nat, depth: nat, more: seq<Member>,
                                               strtod: Strtod, at: nat, r: Parsed)
    requires Terminated(s) && start < next < |s| && depth <= 1000
    requires r == if s[next] == COMMA then ParseMembers(s, next, depth, more, strtod)
                  else if s[next] == RBRACE then Ok(Object(more), next + 1) else Fail(next)
    ensures r == Fail(at) <==> StuckBehindMember(s, start, next, at, depth, strtod)
    decreases |s| - start, 1
  {
    if s[next] == COMMA {
      var from := next + 1;
      var first := SkipWhitespace(s, from);
      forall to: nat ensures GapTo(s, from, to) <==> to == first {
        GapIsSkipped(s, from, to);
      }
      MembersFailExactly(s, next, first, depth, more, strtod, at, r);
    }
  }

  // ---- Whole texts

  /** Behind the mark and white space, at off, nothing can be read, or something other than white space follows it. */
  ghost predicate TextStuckAt(value: Text, s: Text, off: nat, require_null_terminated: bool, at: nat, strtod: Strtod) {
    && GapTo(s, if HasMark(value) then 3 else 0, off)
    && ((exists place: nat :: Stuck(s, off, place, 0, strtod) && at == if place < |s| then place else |s| - 1)
        || (require_null_terminated && exists j: Json, end: nat ::
              Passes(s, off, j, end, at, 0, strtod) && s[at] != 0))
  }

  ghost predicate TextStuck(value: Text, require_null_terminated: bool, at: nat, strtod: Strtod) {
    exists off: nat :: TextStuckAt(value, value + [0], off, require_null_terminated, at, strtod)
  }

  lemma TextFromValue(value: Text, s: Text, off: nat, require_null_terminated: bool, strtod: Strtod, v: Parsed,
                      r: Parsed)
    requires NulFree(value) && s == value + [0] && off == SkipWhitespace(s, SkipBom(s))
    requires v == ParseValue(s, off, 0, strtod) && r == ParseText(value, require_null_terminated, strtod)
    ensures v.Fail? ==> r == Fail(if v.offset < |s| then v.offset else |s| - 1)
    ensures v.Ok? && !require_null_terminated ==> r.Ok?
    ensures v.Ok? && require_null_terminated ==>
      var next := SkipWhitespace(s, v.offset);
      if s[next] == 0 then r.Ok? else r == Fail(next)
  {
  }

  /** A text is refused at a place if and only if that is where no JSON text can go on. */
  lemma TextFailsExactly(value: Text, require_null_terminated: bool, strtod: Strtod, at: nat)
    requires NulFree(value)
    ensures ParseText(value, require_null_terminated, strtod) == Fail(at)
       <==> TextStuck(value, require_null_terminated, at, strtod)
  {
    var s := value + [0];
    var mark: nat := if HasMark(value) then 3 else 0;
    MarkIsSkipped(value, s);
    var off := SkipWhitespace(s, mark);
    var v, r := ParseValue(s, off, 0, strtod), ParseText(value, require_null_terminated, strtod);
    TextFromValue(value, s, off, require_null_terminated, strtod, v, r);
    forall to: nat ensures GapTo(s, mark, to) <==> to == off {
      GapIsSkipped(s, mark, to);
    }
    forall place: nat ensures Stuck(s, off, place, 0, strtod) <==> v == Fail(place) {
      ValueFailsExactly(s, off, 0, strtod, place, v);
    }
    forall j: Json, end: nat, next: nat
      ensures Passes(s, off, j, end, next, 0, strtod) <==> v == Ok(j, end) && next == SkipWhitespace(s, end)
    {
      PassesExactly(s, off, j, end, next, 0, strtod);
    }
    assert TextStuck(value, require_null_terminated, at, strtod)
      <==> TextStuckAt(value, s, off, require_null_terminated, at, strtod);
    if v.Fail? {
      assert Stuck(s, off, v.offset, 0, strtod);
    } else {
      assert Passes(s, off, v.value, v.offset, SkipWhitespace(s, v.offset), 0, strtod);
    }
  }
}
