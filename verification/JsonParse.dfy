/** The buffer of the parser: an offset and a depth that move over a text, checked against the grammar's functions. */
module JsonParse {
  import opened Bytes
  import opened JsonTree
  import opened Utf8
  import opened JsonGrammar
  import opened JsonTwoPass

  class ParseBuffer {
    const content: Text
    const strtod: Strtod
    var offset: nat
    var depth: nat

    constructor (content: Text, strtod: Strtod)
      ensures this.content == content && this.strtod == strtod && offset == 0 && depth == 0
    {
      this.content := content;
      this.strtod := strtod;
      this.offset := 0;
      this.depth := 0;
    }

    ghost predicate Valid()
      reads this
    {
      Terminated(content) && offset < |content|
    }

    /** buffer_skip_whitespace */
    method SkipBlanks()
      requires Valid()
      modifies this`offset
      ensures Valid() && offset == SkipWhitespace(content, old(offset))
    {
      while offset < |content| && content[offset] <= 32
        invariant offset <= |content| && FirstDark(content, offset) == FirstDark(content, old(offset))
        decreases |content| - offset
      {
        offset := offset + 1;
      }
      if offset == |content| {
        offset := offset - 1;
      }
    }

    /** The first pass over a string. */
    method FindEnd(start: nat) returns (ok: bool, input_end: nat, skipped_bytes: nat)
      requires start <= |content|
      ensures match FindClosing(content, start)
              case Unclosed => !ok
              case Closed(end) => ok && input_end == end && skipped_bytes == Skipped(content, start, end)
    {
      input_end := start;
      skipped_bytes := 0;
      ghost var found := FindClosing(content, start);
      while input_end < |content| && content[input_end] != QUOTE
        invariant start <= input_end <= |content|
        invariant FindClosing(content, input_end) == found
        invariant found.Closed? ==>
                    Skipped(content, start, found.end) == skipped_bytes + Skipped(content, input_end, found.end)
      {
        if content[input_end] == BACKSLASH {
          if input_end + 1 >= |content| {
            return false, input_end, skipped_bytes;
          }
          skipped_bytes := skipped_bytes + 1;
          input_end := input_end + 1;
        }
        input_end := input_end + 1;
      }
      ok := input_end < |content|;
    }

    /** The second pass; every write stands inside the block whose size the first pass computed. */
    method UnescapeInto(output: array<byte>, start: nat, input_end: nat) returns (ok: bool, stop: nat, used: nat)
      requires start <= |content| && FindClosing(content, start) == Closed(input_end)
      requires Units(content, start, input_end) < output.Length
      modifies output
      ensures match Unescape(content, start, input_end, [])
              case Unknown(at) => !ok && stop == at
              case Unescaped(text) => ok && used == |text| < output.Length && output[..used] == text
    {
      var input_pointer := start;
      used := 0;
      ghost var b: nat := start;
      ghost var goal := Unescape(content, start, input_end, []);
      while input_pointer < input_end
        invariant used <= output.Length && b <= input_end
        invariant Unescape(content, input_pointer, input_end, output[..used]) == goal
        invariant input_pointer <= input_end ==> Near(content, input_pointer, b, input_end)
        invariant used + Room(content, input_pointer, b, input_end) < output.Length
        decreases if input_pointer < input_end then input_end - input_pointer else 0
      {
        ghost var done := output[..used];
        if content[input_pointer] != BACKSLASH {
          b := StepOver(content, input_pointer, b, input_end);
          output[used] := content[input_pointer];
          used := used + 1;
          assert output[..used] == done + [content[input_pointer]];
          input_pointer := input_pointer + 1;
        } else if content[input_pointer + 1] == 0x75 {
          if ReadLiteral(content, input_pointer, input_end).Literal? {
            b := StepLiteral(content, input_pointer, b, input_end);
          }
          var sequence_length, next := Utf16LiteralToUtf8(content, input_pointer, input_end, output, used);
          if sequence_length == 0 {
            return false, input_pointer, used;
          }
          used := next;
          input_pointer := input_pointer + sequence_length;
        } else {
          var plain := Simple(content[input_pointer + 1]);
          if plain == [] {
            return false, input_pointer, used;
          }
          b := StepTwo(content, input_pointer, b, input_end);
          output[used] := plain[0];
          used := used + 1;
          assert output[..used] == done + plain;
          input_pointer := input_pointer + 2;
        }
      }
      ok, stop := true, input_pointer;
    }

    method ReadString() returns (ok: bool, text: Text)
      requires Valid()
      modifies this`offset
      ensures ParseString(content, old(offset)) == (if ok then StringOk(text, offset) else StringFail(offset))
    {
      text := [];
      if content[offset] != QUOTE {
        offset := offset + 1;
        return false, text;
      }
      var found, input_end, skipped_bytes := FindEnd(offset + 1);
      if !found {
        offset := offset + 1;
        return false, text;
      }
      UnitsAndSkipped(content, offset + 1, input_end);
      var allocation_length := input_end - offset - skipped_bytes;
      var output := new byte[allocation_length + 1];
      var stop, used;
      ok, stop, used := UnescapeInto(output, offset + 1, input_end);
      if !ok {
        offset := stop;
        return;
      }
      output[used] := 0;
      CStringStops(output[..], used);
      text := CString(output[..]);
      offset := input_end;
      offset := offset + 1;
    }

    /** Copies what may belong to a number, and closes it with a NUL. */
    method CopyNumber(number_c_string: array<byte>) returns (i: nat)
      requires offset < |content| && number_c_string.Length == 64
      modifies number_c_string
      ensures i < 64 && number_c_string[..i] == NumberRun(content, offset)
    {
      i := 0;
      while i < 63 && offset + i < |content| && NumberChar(content[offset + i])
        invariant 0 <= i <= 63 && offset + i <= |content|
        invariant number_c_string[..i] == content[offset..offset + i]
        invariant i + RunLength(content, offset + i, 63 - i) == RunLength(content, offset, 63)
      {
        number_c_string[i] := content[offset + i];
        i := i + 1;
      }
      number_c_string[i] := 0;
      assert number_c_string[..i] == content[offset..offset + i];
    }

    method ReadNumber() returns (ok: bool, item: Json)
      requires Valid()
      modifies this`offset
      ensures match ParseNumber(content, old(offset), strtod)
              case Fail(at) => !ok && offset == at
              case Ok(v, at) => ok && item == v && offset == at
    {
      item := Null;
      var number_c_string := new byte[64];
      var length := CopyNumber(number_c_string);
      var scan := strtod(number_c_string[..length]);
      if scan.used == 0 {
        return false, item;
      }
      item := Number(scan.value);
      offset := offset + scan.used;
      ok := true;
    }

    /** parse_value, up to its branches for containers. */
    method ReadScalar() returns (ok: bool, item: Json)
      requires Valid() && content[offset] != LBRACKET && content[offset] != LBRACE
      modifies this`offset
      ensures ParseValue(content, old(offset), depth, strtod) == (if ok then Ok(item, offset) else Fail(offset))
      ensures ok ==> !item.Array? && !item.Object?
    {
      item := Null;
      if offset + 4 <= |content| && content[offset..offset + 4] == NULL_TEXT {
        offset := offset + 4;
        return true, Null;
      }
      if offset + 5 <= |content| && content[offset..offset + 5] == FALSE_TEXT {
        offset := offset + 5;
        return true, False;
      }
      if offset + 4 <= |content| && content[offset..offset + 4] == TRUE_TEXT {
        offset := offset + 4;
        return true, True;
      }
      if content[offset] == QUOTE {
        var text;
        ok, text := ReadString();
        return ok, String(text);
      }
      if content[offset] == MINUS || 0x30 <= content[offset] <= 0x39 {
        ok, item := ReadNumber();
        return;
      }
      ok := false;
    }

    /** The key of a member, up to its colon. */
    method ReadKey() returns (ok: bool, key: Text)
      requires Valid() && offset + 1 < |content|
      modifies this`offset
      ensures ParseKey(content, old(offset)) == (if ok then StringOk(key, offset) else StringFail(offset))
    {
      offset := offset + 1;
      SkipBlanks();
      ok, key := ReadString();
      if ok {
        SkipBlanks();
        ok := content[offset] == COLON;
      }
    }
  }

  /** Behind the opening bracket and white space: the end of an empty list, or its first element. */
  lemma InsideArray(s: Text, off: nat, first: nat, before: nat, depth: nat, inner: nat, strtod: Strtod, r: Parsed)
    requires off < |s| && Terminated(s) && s[off] == LBRACKET && depth < NESTING_LIMIT
    requires first == SkipWhitespace(s, off + 1) && r == ParseArray(s, off, depth, strtod)
    requires before == first - 1 && inner == depth + 1
    ensures off < first < |s|
    ensures r == if s[first] == RBRACKET then Ok(Array([]), first + 1) else ParseItems(s, before, inner, [], strtod)
  {
  }

  lemma InsideObject(s: Text, off: nat, first: nat, before: nat, depth: nat, inner: nat, strtod: Strtod, r: Parsed)
    requires off < |s| && Terminated(s) && s[off] == LBRACE && depth < NESTING_LIMIT
    requires first == SkipWhitespace(s, off + 1) && r == ParseObject(s, off, depth, strtod)
    requires before == first - 1 && inner == depth + 1
    ensures off < first < |s|
    ensures r == if s[first] == RBRACE then Ok(Object([]), first + 1) else ParseMembers(s, before, inner, [], strtod)
  {
  }

  lemma {:induction false} CStringStops(t: Text, n: nat)
    requires n < |t| && t[n] == 0
    ensures CString(t) == CString(t[..n])
  {
    if n > 0 && t[0] != 0 {
      assert t[..n][1..] == t[1..][..n - 1];
      CStringStops(t[1..], n - 1);
    }
  }
}
