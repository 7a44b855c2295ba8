/** The printer: a growing, or a fixed, buffer that every print function writes into. */
module JsonPrint {
  import opened Bytes
  import opened JsonTree
  import opened JsonLayout

  class PrintBuffer {
    var buffer: array<byte>
    var length: nat
    var offset: nat
    var depth: nat
    const noalloc: bool
    const format: bool

    ghost predicate Valid()
      reads this
    {
      buffer.Length == length && (offset < length || offset == length == 0)
    }

    /** The text t follows the first `start` bytes and is closed by a NUL; offset is on the way to its end. */
    ghost predicate Holds(prefix: Text, t: Text)
      reads this, buffer
    {
      && Valid()
      && |prefix| <= offset <= |prefix| + |t| < length
      && buffer[..|prefix| + |t|] == prefix + t
      && buffer[|prefix| + |t|] == 0
    }

    constructor (buffer: array<byte>, noalloc: bool, format: bool)
      ensures Valid() && this.buffer == buffer && length == buffer.Length
      ensures offset == 0 && depth == 0 && this.noalloc == noalloc && this.format == format
    {
      this.buffer := buffer;
      this.length := buffer.Length;
      this.offset := 0;
      this.depth := 0;
      this.noalloc := noalloc;
      this.format := format;
    }

    /** Makes room for `needed` more bytes; fails only where the buffer may not be replaced. */
    method Ensure(needed: nat) returns (ok: bool)
      requires Valid()
      modifies this`buffer, this`length
      ensures Valid() && (buffer == old(buffer) || fresh(buffer))
      ensures noalloc ==> buffer == old(buffer)
      ensures ok <==> (noalloc ==> offset + needed + 1 <= old(length))
      ensures ok ==> offset + needed + 1 <= length && buffer[..offset] == old(buffer[..offset])
    {
      if length > 0 && offset >= length {
        return false;
      }
      var total := needed + offset + 1;
      if total <= length {
        return true;
      }
      if noalloc {
        return false;
      }
      var newbuffer := new byte[total * 2];
      var i := 0;
      while i < length
        invariant 0 <= i <= length
        invariant newbuffer[..i] == buffer[..i]
        modifies newbuffer
      {
        newbuffer[i] := buffer[i];
        i := i + 1;
      }
      assert newbuffer[..offset] == newbuffer[..length][..offset];
      assert buffer[..offset] == buffer[..length][..offset];
      buffer := newbuffer;
      length := total * 2;
      ok := true;
    }

    /** Moves offset over the text that was written last, as far as its NUL. */
    method UpdateOffset(ghost prefix: Text, ghost t: Text)
      requires Holds(prefix, t) && NulFree(t)
      modifies this`offset
      ensures Holds(prefix, t) && offset == |prefix| + |t|
      ensures buffer[..offset] == prefix + t
    {
      forall k | |prefix| <= k < |prefix| + |t|
        ensures buffer[k] != 0
      {
        assert buffer[..|prefix| + |t|][k] == t[k - |prefix|];
      }
      var n := 0;
      while buffer[offset + n] != 0
        invariant offset + n <= |prefix| + |t|
        decreases length - n
      {
        n := n + 1;
      }
      offset := offset + n;
    }

    /** A literal: room for it and its NUL, then strcpy. */
    method PrintLiteral(t: Text) returns (ok: bool)
      requires Valid()
      modifies this, buffer
      ensures Valid() && (buffer == old(buffer) || fresh(buffer)) && depth == old(depth)
      ensures noalloc ==> buffer == old(buffer)
      ensures ok <==> (noalloc ==> old(offset) + |t| + 2 <= old(length))
      ensures ok ==> Holds(old(buffer[..offset]), t)
    {
      ok := Ensure(|t| + 1);
      if ok {
        CopyPlain(buffer, offset, t);
        buffer[offset + |t|] := 0;
        assert buffer[..offset + |t|] == old(buffer[..offset]) + t;
      }
    }

    method PrintNumber(n: int) returns (ok: bool)
      requires Valid() && Holdable(Number(n))
      modifies this, buffer
      ensures Valid() && (buffer == old(buffer) || fresh(buffer)) && depth == old(depth)
      ensures noalloc ==> buffer == old(buffer)
      ensures ok <==> (noalloc ==> old(offset) + |Decimal(n)| + 2 <= old(length))
      ensures ok ==> Holds(old(buffer[..offset]), Decimal(n))
    {
      var number_buffer := Decimal(n);
      DecimalFits(n);
      if |number_buffer| > 25 {
        return false;
      }
      ok := Ensure(|number_buffer| + 1);
      if !ok {
        return;
      }
      CopyPlain(buffer, offset, number_buffer);
      buffer[offset + |number_buffer|] := 0;
      assert buffer[..offset + |number_buffer|] == old(buffer[..offset]) + number_buffer;
      offset := offset + |number_buffer|;
    }

    /** One byte of a string, escaped where it must be; the \u form also leaves a NUL behind it. */
    static method PutEscaped(output: array<byte>, at: nat, c: byte) returns (next: nat)
      requires at + |Escape(c)| < output.Length
      modifies output
      ensures next == at + |Escape(c)|
      ensures output[..next] == old(output[..at]) + Escape(c)
    {
      if c > 31 && c != QUOTE && c != BACKSLASH {
        output[at] := c;
        next := at + 1;
      } else {
        output[at] := BACKSLASH;
        next := at + 1;
        if c == BACKSLASH {
          output[next] := BACKSLASH;
        } else if c == QUOTE {
          output[next] := QUOTE;
        } else if c == 0x08 {
          output[next] := 0x62;
        } else if c == 0x0C {
          output[next] := 0x66;
        } else if c == 0x0A {
          output[next] := 0x6E;
        } else if c == 0x0D {
          output[next] := 0x72;
        } else if c == 0x09 {
          output[next] := 0x74;
        } else {
          output[next], output[next + 1], output[next + 2] := 0x75, 0x30, 0x30;
          output[next + 3] := HexDigit(c as int / 16);
          output[next + 4] := HexDigit(c as int % 16);
          output[next + 5] := 0;
          next := next + 4;
        }
        next := next + 1;
      }
      assert output[..next] == old(output[..at]) + Escape(c);
    }

    /** How many bytes the escapes add to a string. */
    static method CountEscapes(input: Text) returns (escape_characters: nat)
      ensures |input| + escape_characters == |EscapeAll(input)|
    {
      var i := 0;
      escape_characters := 0;
      while i < |input|
        invariant 0 <= i <= |input|
        invariant i + escape_characters + |EscapeAll(input[i..])| == |EscapeAll(input)|
      {
        var c := input[i];
        EscapeStep(input, i);
        if c == QUOTE || c == BACKSLASH || c == 0x08 || c == 0x0C || c == 0x0A || c == 0x0D || c == 0x09 {
          escape_characters := escape_characters + 1;
        } else if c < 32 {
          escape_characters := escape_characters + 5;
        }
        i := i + 1;
      }
    }

    /** The copy loop for a string in which something has to be escaped. */
    static method CopyEscaped(output: array<byte>, start: nat, input: Text)
      requires start + |EscapeAll(input)| < output.Length
      modifies output
      ensures output[..start + |EscapeAll(input)|] == old(output[..start]) + EscapeAll(input)
    {
      var at := start;
      ghost var done := output[..start];
      ghost var goal := done + EscapeAll(input);
      var i := 0;
      while i < |input|
        invariant 0 <= i <= |input|
        invariant |done| == at <= output.Length && output[..at] == done
        invariant done + EscapeAll(input[i..]) == goal
      {
        CopyStep(done, input, i, goal);
        at := PutEscaped(output, at, input[i]);
        done := done + Escape(input[i]);
        i := i + 1;
      }
    }

    /** The quoted text of a string with its NUL, written where room was made for it. */
    static method CopyQuoted(output: array<byte>, at: nat, input: Text, escape_characters: nat)
      requires |input| + escape_characters == |EscapeAll(input)|
      requires at + |Quoted(input)| < output.Length
      modifies output
      ensures output[..at + |Quoted(input)|] == old(output[..at]) + Quoted(input)
      ensures output[at + |Quoted(input)|] == 0
    {
      var output_length := |input| + escape_characters;
      ghost var prefix := output[..at];
      output[at] := QUOTE;
      assert output[..at + 1] == prefix + [QUOTE];
      if escape_characters == 0 {
        NothingEscaped(input);
        CopyPlain(output, at + 1, input);
      } else {
        CopyEscaped(output, at + 1, input);
      }
      output[at + output_length + 1] := QUOTE;
      output[at + output_length + 2] := 0;
      CloseQuote(output[..], prefix, input);
    }

    /** memcpy of a string in which nothing has to be escaped. */
    static method CopyPlain(output: array<byte>, start: nat, input: Text)
      requires start + |input| <= output.Length
      modifies output
      ensures output[..start + |input|] == old(output[..start]) + input
    {
      var i := 0;
      while i < |input|
        invariant 0 <= i <= |input|
        invariant output[..start + i] == old(output[..start]) + input[..i]
      {
        output[start + i] := input[i];
        assert input[..i + 1] == input[..i] + [input[i]];
        assert output[..start + i + 1] == output[..start + i] + [input[i]];
        i := i + 1;
      }
      assert input[..|input|] == input;
    }

    method PrintStringPtr(input: Text) returns (ok: bool)
      requires Valid()
      modifies this, buffer
      ensures Valid() && (buffer == old(buffer) || fresh(buffer)) && depth == old(depth)
      ensures noalloc ==> buffer == old(buffer)
      ensures ok <==> (noalloc ==> old(offset) + |Quoted(input)| + 2 <= old(length))
      ensures ok ==> Holds(old(buffer[..offset]), Quoted(input))
    {
      var escape_characters := CountEscapes(input);
      var output_length := |input| + escape_characters;
      ok := Ensure(output_length + 3);
      if ok {
        CopyQuoted(buffer, offset, input, escape_characters);
      }
    }

    /** Punctuation: room for `needed` bytes, the bytes, perhaps a NUL, and offset behind them. */
    method Emit(t: Text, needed: nat, terminate: bool) returns (ok: bool)
      requires Valid() && |t| + (if terminate then 1 else 0) <= needed + 1 && |t| <= needed
      modifies this, buffer
      ensures Valid() && (buffer == old(buffer) || fresh(buffer)) && depth == old(depth)
      ensures noalloc ==> buffer == old(buffer)
      ensures ok <==> (noalloc ==> old(offset) + needed + 1 <= old(length))
      ensures ok ==> buffer[..offset] == old(buffer[..offset]) + t
    {
      ok := Ensure(needed);
      if ok {
        CopyPlain(buffer, offset, t);
        if terminate {
          buffer[offset + |t|] := 0;
        }
        assert buffer[..offset + |t|] == old(buffer[..offset]) + t;
        offset := offset + |t|;
      }
    }

    /** One element of an array with the separator behind it. */
    method PrintElement(item: Json, last: bool) returns (ok: bool)
      requires Valid() && Holdable(item)
      modifies this, buffer
      ensures Valid() && (buffer == old(buffer) || fresh(buffer)) && (ok ==> depth == old(depth))
      ensures noalloc ==> buffer == old(buffer)
      ensures var chunk := RenderElement(item, last, format, old(depth));
              && (ok <==> (noalloc ==> old(offset) + |chunk| + 2 <= old(length)))
              && (ok ==> buffer[..offset] == old(buffer[..offset]) + chunk)
      decreases item, 1
    {
      ghost var prefix, t := buffer[..offset], Render(item, format, depth);
      RenderNulFree(item, format, depth);
      ok := PrintValue(item);
      if ok {
        UpdateOffset(prefix, t);
        if !last {
          ok := Emit(ItemSeparator(format), |ItemSeparator(format)| + 1, true);
          assert prefix + t + ItemSeparator(format) == prefix + (t + ItemSeparator(format));
        }
      }
    }

    /** One turn of the loop over elements, `goal` being the text of the buffer behind the last one. */
    method PrintNextElement(items: seq<Json>, i: nat, ghost goal: Text) returns (ok: bool)
      requires Valid() && Holdable(Array(items)) && i < |items|
      requires buffer[..offset] + RenderItems(items[i..], format, depth) == goal
      modifies this, buffer
      ensures Valid() && (buffer == old(buffer) || fresh(buffer)) && (ok ==> depth == old(depth))
      ensures noalloc ==> buffer == old(buffer)
      ensures ok ==> buffer[..offset] + RenderItems(items[i + 1..], format, depth) == goal
      ensures if ok then noalloc ==> offset + 2 <= length else noalloc && |goal| + 2 > old(length)
      decreases items, 2
    {
      ItemsStep(buffer[..offset], items, i, format, depth, goal);
      ok := PrintElement(items[i], i + 1 == |items|);
    }

    /** The loop over the elements of an array. */
    method PrintElements(items: seq<Json>) returns (ok: bool)
      requires Valid() && Holdable(Array(items))
      modifies this, buffer
      ensures Valid() && (buffer == old(buffer) || fresh(buffer)) && (ok ==> depth == old(depth))
      ensures noalloc ==> buffer == old(buffer)
      ensures var t := RenderItems(items, format, old(depth));
              && (ok <==> (items != [] && noalloc ==> old(offset) + |t| + 2 <= old(length)))
              && (ok ==> buffer[..offset] == old(buffer[..offset]) + t)
      decreases items, 3
    {
      ghost var goal := buffer[..offset] + RenderItems(items, format, depth);
      var i := 0;
      ok := true;
      assert items[0..] == items;
      while i < |items|
        invariant 0 <= i <= |items|
        invariant Valid() && (buffer == old(buffer) || fresh(buffer)) && depth == old(depth)
        invariant noalloc ==> buffer == old(buffer)
        invariant i > 0 && noalloc ==> offset + 2 <= length
        invariant buffer[..offset] + RenderItems(items[i..], format, depth) == goal
      {
        ok := PrintNextElement(items, i, goal);
        if !ok {
          return;
        }
        i := i + 1;
      }
    }

    /** The end of a container: its closing text with a NUL, and one container less around. */
    method PrintClosing(closing: Text, ghost prefix: Text, ghost front: Text) returns (ok: bool)
      requires Valid() && depth > 0 && buffer[..offset] == prefix + front
      modifies this, buffer
      ensures Valid() && (buffer == old(buffer) || fresh(buffer)) && (ok ==> depth == old(depth) - 1)
      ensures noalloc ==> buffer == old(buffer)
      ensures ok <==> (noalloc ==> |prefix| + |front + closing| + 2 <= old(length))
      ensures ok ==> Holds(prefix, front + closing)
    {
      ok := PrintLiteral(closing);
      if ok {
        depth := depth - 1;
        Join2(prefix, front, closing);
      }
    }

    /** The opening bracket and the elements; one container deeper afterwards. */
    method PrintArrayFront(items: seq<Json>, ghost inner: Text) returns (ok: bool)
      requires Valid() && Holdable(Array(items)) && inner == RenderItems(items, format, depth + 1)
      modifies this, buffer
      ensures Valid() && (buffer == old(buffer) || fresh(buffer)) && (ok ==> depth == old(depth) + 1)
      ensures noalloc ==> buffer == old(buffer)
      ensures ok ==> buffer[..offset] == old(buffer[..offset]) + ([LBRACKET] + inner)
      ensures !ok ==> noalloc && old(offset) + 1 + |inner| + 2 > old(length)
      decreases items, 4
    {
      ghost var prefix := buffer[..offset];
      ok := Emit([LBRACKET], 1, false);
      if ok {
        depth := depth + 1;
        ok := PrintElements(items);
        Join2(prefix, [LBRACKET], inner);
      }
    }

    method PrintArray(items: seq<Json>) returns (ok: bool)
      requires Valid() && Holdable(Array(items))
      modifies this, buffer
      ensures Valid() && (buffer == old(buffer) || fresh(buffer)) && (ok ==> depth == old(depth))
      ensures noalloc ==> buffer == old(buffer)
      ensures var t := Render(Array(items), format, old(depth));
              && (ok <==> (noalloc ==> old(offset) + |t| + 2 <= old(length)))
              && (ok ==> Holds(old(buffer[..offset]), t))
      decreases items, 5
    {
      ghost var prefix, inner := buffer[..offset], RenderItems(items, format, depth + 1);
      ok := PrintArrayFront(items, inner);
      if ok {
        ok := PrintClosing([RBRACKET], prefix, [LBRACKET] + inner);
      }
    }

    /** Indentation, as many tabs as there are containers around. */
    method PrintIndent() returns (ok: bool)
      requires Valid()
      modifies this, buffer
      ensures Valid() && (buffer == old(buffer) || fresh(buffer)) && depth == old(depth)
      ensures noalloc ==> buffer == old(buffer)
      ensures ok <==> (noalloc && format ==> old(offset) + depth + 1 <= old(length))
      ensures ok ==> buffer[..offset] == old(buffer[..offset]) + (if format then Tabs(depth) else [])
    {
      if format {
        ok := Emit(Tabs(depth), depth, false);
      } else {
        ok := true;
      }
    }

    /** Indentation, key and colon of a member. */
    method PrintKey(key: Text) returns (ok: bool)
      requires Valid() && NulFree(key)
      modifies this, buffer
      ensures Valid() && (buffer == old(buffer) || fresh(buffer)) && depth == old(depth)
      ensures noalloc ==> buffer == old(buffer)
      ensures var t := MemberHead(key, format, depth);
              && (ok ==> buffer[..offset] == old(buffer[..offset]) + t)
              && (!ok ==> noalloc && old(offset) + |t| + 2 > old(length))
    {
      ghost var prefix, indent := buffer[..offset], if format then Tabs(depth) else [];
      ok := PrintIndent();
      if !ok {
        return;
      }
      QuotedNulFree(key);
      ok := PrintStringPtr(key);
      if !ok {
        return;
      }
      UpdateOffset(prefix + indent, Quoted(key));
      var colon := if format then [COLON, TAB] else [COLON];
      ok := Emit(colon, |colon|, false);
      Join3(prefix, indent, Quoted(key), colon);
    }

    /** One member of an object with the comma and the line end behind it. */
    method PrintMember(m: Member, last: bool, ghost chunk: Text) returns (ok: bool)
      requires Valid() && NulFree(m.key) && Holdable(m.value) && chunk == RenderMember(m, last, format, depth)
      modifies this, buffer
      ensures Valid() && (buffer == old(buffer) || fresh(buffer)) && (ok ==> depth == old(depth))
      ensures noalloc ==> buffer == old(buffer)
      ensures ok <==> (noalloc ==> old(offset) + |chunk| + 2 <= old(length))
      ensures ok ==> buffer[..offset] == old(buffer[..offset]) + chunk
      decreases m, 1
    {
      ghost var prefix, head := buffer[..offset], MemberHead(m.key, format, depth);
      ghost var value, tail := Render(m.value, format, depth), MemberTail(last, format);
      ok := PrintKey(m.key);
      if !ok {
        return;
      }
      RenderNulFree(m.value, format, depth);
      ok := PrintValue(m.value);
      if !ok {
        return;
      }
      UpdateOffset(prefix + head, value);
      ok := Emit(MemberTail(last, format), |MemberTail(last, format)| + 1, true);
      Join3(prefix, head, value, tail);
    }

    /** One turn of that loop, `goal` being the text of the buffer behind the last one. */
    method PrintNextMember(members: seq<Member>, i: nat, ghost goal: Text) returns (ok: bool)
      requires Valid() && Holdable(Object(members)) && i < |members|
      requires buffer[..offset] + RenderMembers(members[i..], format, depth) == goal
      modifies this, buffer
      ensures Valid() && (buffer == old(buffer) || fresh(buffer)) && (ok ==> depth == old(depth))
      ensures noalloc ==> buffer == old(buffer)
      ensures ok ==> buffer[..offset] + RenderMembers(members[i + 1..], format, depth) == goal
      ensures if ok then noalloc ==> offset + 2 <= length else noalloc && |goal| + 2 > old(length)
      decreases members, 2
    {
      ghost var text, chunk := buffer[..offset], RenderMember(members[i], i + 1 == |members|, format, depth);
      MembersStep(text, members, i, format, depth, goal);
      ok := PrintMember(members[i], i + 1 == |members|, chunk);
    }

    /** The loop over the members of an object. */
    method PrintMembers(members: seq<Member>, ghost t: Text) returns (ok: bool)
      requires Valid() && Holdable(Object(members)) && t == RenderMembers(members, format, depth)
      modifies this, buffer
      ensures Valid() && (buffer == old(buffer) || fresh(buffer)) && (ok ==> depth == old(depth))
      ensures noalloc ==> buffer == old(buffer)
      ensures ok <==> (members != [] && noalloc ==> old(offset) + |t| + 2 <= old(length))
      ensures ok ==> buffer[..offset] == old(buffer[..offset]) + t
      decreases members, 3
    {
      ghost var goal := buffer[..offset] + t;
      var i := 0;
      ok := true;
      assert members[0..] == members;
      while i < |members|
        invariant 0 <= i <= |members|
        invariant Valid() && (buffer == old(buffer) || fresh(buffer)) && depth == old(depth)
        invariant noalloc ==> buffer == old(buffer)
        invariant i > 0 && noalloc ==> offset + 2 <= length
        invariant buffer[..offset] + RenderMembers(members[i..], format, depth) == goal
      {
        ok := PrintNextMember(members, i, goal);
        if !ok {
          return;
        }
        i := i + 1;
      }
    }

    /** The opening brace and the members; one container deeper afterwards. */
    method PrintObjectFront(members: seq<Member>, ghost inner: Text) returns (ok: bool)
      requires Valid() && Holdable(Object(members)) && inner == RenderMembers(members, format, depth + 1)
      modifies this, buffer
      ensures Valid() && (buffer == old(buffer) || fresh(buffer)) && (ok ==> depth == old(depth) + 1)
      ensures noalloc ==> buffer == old(buffer)
      ensures ok ==> buffer[..offset] == old(buffer[..offset]) + (Opening(format) + inner)
      ensures !ok ==> noalloc && old(offset) + |Opening(format)| + |inner| + 2 > old(length)
      decreases members, 4
    {
      ghost var prefix := buffer[..offset];
      ok := Emit(Opening(format), |Opening(format)| + 1, false);
      if ok {
        depth := depth + 1;
        ok := PrintMembers(members, inner);
        Join2(prefix, Opening(format), inner);
      }
    }

    method PrintObject(members: seq<Member>) returns (ok: bool)
      requires Valid() && Holdable(Object(members))
      modifies this, buffer
      ensures Valid() && (buffer == old(buffer) || fresh(buffer)) && (ok ==> depth == old(depth))
      ensures noalloc ==> buffer == old(buffer)
      ensures var t := Render(Object(members), format, old(depth));
              && (ok <==> (noalloc ==> old(offset) + |t| + 2 <= old(length)))
              && (ok ==> Holds(old(buffer[..offset]), t))
      decreases members, 5
    {
      ghost var prefix, inner := buffer[..offset], RenderMembers(members, format, depth + 1);
      ok := PrintObjectFront(members, inner);
      if ok {
        ok := PrintClosing(Closing(format, depth - 1), prefix, Opening(format) + inner);
      }
    }

    method PrintValue(j: Json) returns (ok: bool)
      requires Valid() && Holdable(j)
      modifies this, buffer
      ensures Valid() && (buffer == old(buffer) || fresh(buffer)) && (ok ==> depth == old(depth))
      ensures noalloc ==> buffer == old(buffer)
      ensures var t := Render(j, format, old(depth));
              && (ok <==> (noalloc ==> old(offset) + |t| + 2 <= old(length)))
              && (ok ==> Holds(old(buffer[..offset]), t))
      decreases j, 0
    {
      match j
      case Null => ok := PrintLiteral(NULL_TEXT);
      case False => ok := PrintLiteral(FALSE_TEXT);
      case True => ok := PrintLiteral(TRUE_TEXT);
      case Number(n) => ok := PrintNumber(n);
      case String(s) => ok := PrintStringPtr(s);
      case Array(items) => ok := PrintArray(items);
      case Object(members) => ok := PrintObject(members);
    }
  }

  /** print, which cJSON_Print calls: a new block holding the text and its NUL, no byte more. */
  method Print(item: Json, format: bool) returns (printed: array<byte>)
    requires Holdable(item)
    ensures fresh(printed) && printed[..] == Render(item, format, 0) + [0]
    ensures Laid(printed[..printed.Length - 1], item, 0, format)
  {
    var block := new byte[256];
    var p := new PrintBuffer(block, false, format);
    ghost var text := Render(item, format, 0);
    RenderNulFree(item, format, 0);
    var ok := p.PrintValue(item);
    p.UpdateOffset([], text);
    assert [] + text == text;
    printed := Shrink(p.buffer, p.offset + 1);
    assert p.buffer[..p.offset + 1] == p.buffer[..p.offset] + [0];
    RenderIsLaid(item, format, 0, text);
    assert printed[..printed.Length - 1] == text;
  }

  /** cJSON_PrintUnformatted */
  method PrintUnformatted(item: Json) returns (printed: array<byte>)
    requires Holdable(item)
    ensures fresh(printed) && printed[..] == Render(item, false, 0) + [0]
  {
    printed := Print(item, false);
  }

  /** realloc to a smaller size. */
  method Shrink(block: array<byte>, size: nat) returns (shrunk: array<byte>)
    requires size <= block.Length
    ensures fresh(shrunk) && shrunk[..] == block[..size]
  {
    shrunk := new byte[size];
    var i := 0;
    while i < size
      invariant 0 <= i <= size == shrunk.Length
      invariant shrunk[..i] == block[..i]
      modifies shrunk
    {
      shrunk[i] := block[i];
      i := i + 1;
    }
    assert shrunk[..] == shrunk[..i];
  }

  /** cJSON_PrintBuffered: the first block is as large as the caller guesses; the guess never shows. */
  method PrintBuffered(item: Json, prebuffer: int, format: bool) returns (printed: array?<byte>)
    requires Holdable(item)
    ensures printed == null <==> prebuffer < 0
    ensures printed != null ==>
              && fresh(printed)
              && |Render(item, format, 0)| < printed.Length
              && printed[..|Render(item, format, 0)| + 1] == Render(item, format, 0) + [0]
              && Laid(printed[..|Render(item, format, 0)|], item, 0, format)
  {
    if prebuffer < 0 {
      return null;
    }
    var block := new byte[prebuffer];
    var p := new PrintBuffer(block, false, format);
    ghost var text := Render(item, format, 0);
    var ok := p.PrintValue(item);
    printed := p.buffer;
    RenderIsLaid(item, format, 0, text);
    assert printed[..|text| + 1] == printed[..|text|] + [0] && printed[..|text|] == text;
  }

  /** cJSON_PrintPreallocated: it succeeds exactly when there are two bytes more than the text has. */
  method PrintPreallocated(item: Json, buffer: array?<byte>, length: int, format: bool) returns (ok: bool)
    requires Holdable(item)
    requires buffer != null && length >= 0 ==> buffer.Length == length
    modifies if buffer == null then {} else {buffer}
    ensures ok <==> buffer != null && length >= |Render(item, format, 0)| + 2
    ensures ok ==> buffer[..|Render(item, format, 0)| + 1] == Render(item, format, 0) + [0]
    ensures ok ==> Laid(buffer[..|Render(item, format, 0)|], item, 0, format)
  {
    if length < 0 || buffer == null {
      return false;
    }
    var p := new PrintBuffer(buffer, true, format);
    ghost var text := Render(item, format, 0);
    ok := p.PrintValue(item);
    RenderIsLaid(item, format, 0, text);
    assert ok ==> buffer[..|text| + 1] == buffer[..|text|] + [0] && buffer[..|text|] == text;
  }

  /** The text still to come, when the items before i are done, begins with element i. */
  lemma ItemsStep(done: Text, items: seq<Json>, i: nat, fmt: bool, level: nat, goal: Text)
    requires i < |items| && done + RenderItems(items[i..], fmt, level) == goal
    ensures var chunk := RenderElement(items[i], i + 1 == |items|, fmt, level);
            && |done| + |chunk| <= |goal|
            && (done + chunk) + RenderItems(items[i + 1..], fmt, level) == goal
  {
    assert items[i..][1..] == items[i + 1..];
    Join2(done, RenderElement(items[i], i + 1 == |items|, fmt, level), RenderItems(items[i + 1..], fmt, level));
  }

  lemma MembersStep(done: Text, members: seq<Member>, i: nat, fmt: bool, level: nat, goal: Text)
    requires i < |members| && done + RenderMembers(members[i..], fmt, level) == goal
    ensures var chunk := RenderMember(members[i], i + 1 == |members|, fmt, level);
            && |done| + |chunk| <= |goal|
            && (done + chunk) + RenderMembers(members[i + 1..], fmt, level) == goal
  {
    assert members[i..][1..] == members[i + 1..];
    Join2(done, RenderMember(members[i], i + 1 == |members|, fmt, level), RenderMembers(members[i + 1..], fmt, level));
  }

  lemma Join2(prefix: Text, a: Text, b: Text)
    ensures prefix + a + b == prefix + (a + b)
  {
  }

  lemma Join3(prefix: Text, a: Text, b: Text, c: Text)
    ensures prefix + a + b + c == prefix + (a + b + c)
    ensures |prefix + a + b + c| == |prefix| + |a| + |b| + |c|
  {
  }

  lemma EscapeStep(s: Text, i: nat)
    requires i < |s|
    ensures EscapeAll(s[i..]) == Escape(s[i]) + EscapeAll(s[i + 1..])
  {
    assert s[i..][1..] == s[i + 1..];
  }

  lemma CopyStep(done: Text, s: Text, i: nat, goal: Text)
    requires i < |s| && done + EscapeAll(s[i..]) == goal
    ensures (done + Escape(s[i])) + EscapeAll(s[i + 1..]) == goal
    ensures |done| + |Escape(s[i])| <= |goal|
  {
    EscapeStep(s, i);
    assert done + (Escape(s[i]) + EscapeAll(s[i + 1..])) == (done + Escape(s[i])) + EscapeAll(s[i + 1..]);
  }

  lemma CloseQuote(s: Text, prefix: Text, input: Text)
    requires |prefix| + 1 + |EscapeAll(input)| < |s|
    requires s[..|prefix| + 1 + |EscapeAll(input)|] == prefix + [QUOTE] + EscapeAll(input)
    requires s[|prefix| + 1 + |EscapeAll(input)|] == QUOTE
    ensures s[..|prefix| + |Quoted(input)|] == prefix + Quoted(input)
  {
    assert prefix + [QUOTE] + EscapeAll(input) + [QUOTE] == prefix + Quoted(input);
  }

  lemma {:induction false} NothingEscaped(s: Text)
    requires |EscapeAll(s)| <= |s|
    ensures EscapeAll(s) == s
  {
    EscapesAddBytes(s);
    if s != [] {
      EscapesAddBytes(s[1..]);
      NothingEscaped(s[1..]);
    }
  }

  lemma {:induction false} EscapesAddBytes(s: Text)
    ensures |EscapeAll(s)| >= |s|
  {
    if s != [] {
      EscapesAddBytes(s[1..]);
    }
  }
}
