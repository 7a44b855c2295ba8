/** JSON messages on the control connection: four bytes of length in network order, then the text. */
module Wire {
  import opened Bytes
  import opened JsonTree
  import opened JsonGrammar
  import opened JsonRoundTrip
  import opened JsonDuplicate
  import opened JsonNodes
  import JsonPrint
  import opened Wrappers
  import opened Widths

  /** htonl, as the four bytes in memory */
  function BigEndian(n: nat): (r: Text)
    requires n < TWO_32
    ensures |r| == 4 && FromBigEndian(r) == n
  {
    var high, low := n / 0x1_0000, n % 0x1_0000;
    [(high / 0x100) as byte, (high % 0x100) as byte, (low / 0x100) as byte, (low % 0x100) as byte]
  }

  function FromBigEndian(t: Text): (n: nat)
    requires |t| == 4
    ensures n < TWO_32
  {
    t[0] as int * 0x100_0000 + t[1] as int * 0x1_0000 + t[2] as int * 0x100 + t[3] as int
  }

  /** What JSON_write puts on the connection. */
  function Frame(j: Json): Text {
    var text := Render(j, false, 0);
    var hsize := |text| % TWO_32;
    BigEndian(hsize) + text[..hsize]
  }

  /** cJSON_Parse of the C string at the beginning of a buffer. */
  function ParseBuffer(data: Text, strtod: Strtod): Option<Json> {
    match ParseText(CString(data), false, strtod)
    case Ok(j, _) => Some(j)
    case Fail(_) => None
  }

  datatype Reading = Reading(json: Option<Json>, rest: Text)

  /**
   * What JSON_read makes of the bytes on the connection; `max` 0 means no limit. Nread returns an int, so that no
   * length from 2^31 on can be told from an error, and the size of the buffer for the largest one wraps to 0.
   */
  function ReadFrame(input: Text, max: nat, strtod: Strtod): Reading {
    if |input| < 4 then Reading(None, [])
    else
      var hsize, rest := FromBigEndian(input[..4]), input[4..];
      if !(hsize > 0 && (max == 0 || hsize <= max)) || hsize == TWO_32 - 1 then Reading(None, rest)
      else ReadBody(rest, hsize, strtod)
  }

  /** The text of a frame whose length is known. */
  function ReadBody(rest: Text, hsize: nat, strtod: Strtod): Reading {
    if |rest| < hsize then Reading(None, [])
    else Reading(if hsize < TWO_31 then ParseBuffer(rest[..hsize], strtod) else None, rest[hsize..])
  }

  /** A count below 2^32 as a C int. */
  function AsInt(n: nat): (r: int)
    requires n < TWO_32
  {
    if n < TWO_31 then n else n - TWO_32
  }

  method Strlen(str: array<byte>, ghost text: Text) returns (n: nat)
    requires NulFree(text) && str[..] == text + [0]
    ensures n == |text|
  {
    n := 0;
    assert forall i :: 0 <= i < |text| ==> str[..][i] == text[i];
    assert str[..][|text|] == 0;
    while str[n] != 0
      invariant n <= |text|
      decreases |text| - n
    {
      n := n + 1;
    }
  }

  /** One direction of the connection: the bytes that were written and not yet read. */
  class Connection {
    var pending: Text

    constructor ()
      ensures pending == []
    {
      pending := [];
    }

    method Nwrite(data: Text)
      modifies this
      ensures pending == old(pending) + data
    {
      pending := pending + data;
    }

    /** Fewer bytes than asked for mean that the writer has gone; the count comes back as an int. */
    method Nread(count: nat) returns (data: Text, r: int)
      requires count < TWO_32
      modifies this
      ensures data == if count <= |old(pending)| then old(pending)[..count] else old(pending)
      ensures pending == if count <= |old(pending)| then old(pending)[count..] else []
      ensures r == AsInt(|data|)
    {
      if count <= |pending| {
        data := pending[..count];
        pending := pending[count..];
      } else {
        data := pending;
        pending := [];
      }
      r := AsInt(|data|);
    }

    method WriteFrame(nsize: Text, text: Text) returns (r: int)
      requires |text| < TWO_32
      modifies this
      ensures pending == old(pending) + (nsize + text)
      ensures r == if |text| < TWO_31 then 0 else -1
    {
      Nwrite(nsize);
      Nwrite(text);
      r := if AsInt(|text|) < 0 then -1 else 0;
    }

    /** JSON_write; Nwrite returns an int too, so that very long texts are written and then reported as failed. */
    method JsonWrite(j: Json) returns (r: int)
      requires Holdable(j)
      modifies this
      ensures pending == old(pending) + Frame(j)
      ensures r == if |Render(j, false, 0)| % TWO_32 < TWO_31 then 0 else -1
    {
      RenderNulFree(j, false, 0);
      var str := JsonPrint.PrintUnformatted(j);
      ghost var text := Render(j, false, 0);
      var size := Strlen(str, text);
      var hsize := size % TWO_32;
      var content := str[..hsize];
      assert content == text[..hsize];
      r := WriteFrame(BigEndian(hsize), content);
    }

    /** The part of JSON_read behind the length. */
    method JsonBody(hsize: nat, strtod: Strtod) returns (json: Node?, ghost value: Option<Json>)
      requires hsize < TWO_32
      modifies this
      ensures Reading(value, pending) == ReadBody(old(pending), hsize, strtod) && (json == null <==> value.None?)
      ensures json != null ==> fresh({json} + json.below) && Finished(json, TreeOf(value.value, None))
    {
      json, value := null, None;
      var str, rc := Nread(hsize);
      if rc >= 0 && rc == hsize {
        var at;
        json, at := Parse(CString(str), false, strtod);
        value := ParseBuffer(str, strtod);
      }
    }

    /** JSON_read: linked nodes that hold what the frame says. */
    method JsonRead(max_size: nat, strtod: Strtod) returns (json: Node?, ghost value: Option<Json>)
      modifies this
      ensures Reading(value, pending) == ReadFrame(old(pending), max_size, strtod) && (json == null <==> value.None?)
      ensures json != null ==> fresh({json} + json.below) && Finished(json, TreeOf(value.value, None))
    {
      json, value := null, None;
      var nsize, rc := Nread(4);
      if rc == 4 {
        var hsize := FromBigEndian(nsize);
        if hsize > 0 && (max_size == 0 || hsize <= max_size) {
          var strsize := (hsize + 1) % TWO_32;
          if strsize != 0 {
            json, value := JsonBody(hsize, strtod);
          }
        }
      }
    }
  }

  // ---- Network order

  ghost function Power(base: nat, exponent: nat): nat {
    if exponent == 0 then 1 else base * Power(base, exponent - 1)
  }

  /** The number that bytes denote, the most significant one first. */
  ghost function Horner(t: Text): nat {
    if t == [] then 0 else Horner(t[..|t| - 1]) * 256 + t[|t| - 1] as int
  }

  lemma HornerOfFour(t: Text)
    requires |t| == 4
    ensures FromBigEndian(t) == Horner(t)
  {
    assert t[..3][..2] == t[..2] && t[..2][..1] == t[..1] && t[..1][..0] == [];
    assert Horner(t[..1]) == t[0] as int;
    assert Horner(t[..2]) == t[0] as int * 0x100 + t[1] as int;
    assert Horner(t[..3]) == t[0] as int * 0x1_0000 + t[1] as int * 0x100 + t[2] as int;
  }

  lemma ByteOf(n: nat, k: nat)
    requires n < TWO_32 && k < 4
    ensures BigEndian(n)[k] as int == n / Power(256, 3 - k) % 256
  {
    assert Power(256, 1) == 256;
    assert Power(256, 2) == 0x1_0000;
    assert Power(256, 3) == 0x100_0000;
    assert n / 0x1_0000 / 0x100 == n / 0x100_0000 && n % 0x1_0000 / 0x100 == n / 0x100 % 0x100;
  }

  /** A frame begins with the length of its text, the most significant byte first, and the text follows. */
  lemma LengthInNetworkOrder(j: Json, k: nat)
    requires |Render(j, false, 0)| < 0x1_0000_0000 && k < 4
    ensures |Frame(j)| == 4 + |Render(j, false, 0)| && Frame(j)[4..] == Render(j, false, 0)
    ensures Frame(j)[k] as int == |Render(j, false, 0)| / Power(256, 3 - k) % 256
  {
    FrameOfShort(j);
    ByteOf(|Render(j, false, 0)|, k);
  }

  /** What the bytes on the connection are taken for, in terms of the number that the first four of them denote. */
  lemma FrameIsTaken(input: Text, max: nat, strtod: Strtod, n: nat, r: Reading)
    requires |input| >= 4 && n == Horner(input[..4]) && r == ReadFrame(input, max, strtod)
    ensures n == 0 || 0 < max < n || n == 0xFFFF_FFFF ==> r == Reading(None, input[4..])
    ensures 0 < n < 0xFFFF_FFFF && (max == 0 || n <= max) ==>
      if |input| < 4 + n then r == Reading(None, [])
      else
        && r.rest == input[4 + n..] && (n >= 0x8000_0000 ==> r.json == None)
        && (n < 0x8000_0000 ==>
              match ParseText(CString(input[4..4 + n]), false, strtod)
              case Ok(j, _) => r.json == Some(j)
              case Fail(_) => r.json == None)
  {
    HornerOfFour(input[..4]);
    if |input| >= 4 + n {
      assert input[4..][..n] == input[4..4 + n] && input[4..][n..] == input[4 + n..];
    }
  }

  // ---- Round trips

  lemma RenderedIsRead(j: Json, strtod: Strtod)
    requires Exact(j) && ReadsIntegers(strtod) && Nesting(j) <= NESTING_LIMIT
    ensures ParseBuffer(Render(j, false, 0), strtod) == Some(j) && |Render(j, false, 0)| > 0
  {
    ExactIsHoldable(j);
    RenderNulFree(j, false, 0);
    TextRoundTrip(j, false, false, strtod);
    CStringOfNulFree(Render(j, false, 0));
  }

  lemma WholeText(text: Text)
    requires |text| < TWO_32
    ensures |text| % TWO_32 == |text| && text[..|text|] == text
  {
  }

  lemma FrameOfShort(j: Json)
    requires |Render(j, false, 0)| < TWO_32
    ensures Frame(j) == BigEndian(|Render(j, false, 0)|) + Render(j, false, 0)
  {
    WholeText(Render(j, false, 0));
  }

  /** What becomes of a framed text in front of whatever follows it. */
  function Delivered(text: Text, rest: Text, max: nat, whole: Option<Json>): Reading {
    if (max != 0 && |text| > max) || |text| == TWO_32 - 1 then Reading(None, text + rest)
    else Reading(if |text| < TWO_31 then whole else None, rest)
  }

  /** Length, text and whatever follows come apart again. */
  lemma ReadFramed(text: Text, rest: Text, max: nat, strtod: Strtod)
    requires 0 < |text| < TWO_32
    ensures ReadFrame(BigEndian(|text|) + text + rest, max, strtod)
         == Delivered(text, rest, max, ParseBuffer(text, strtod))
  {
    var head, input := BigEndian(|text|), BigEndian(|text|) + text + rest;
    assert input[..4] == head && input[4..] == text + rest;
    assert (text + rest)[..|text|] == text && (text + rest)[|text|..] == rest;
  }

  /**
   * A message is read back as it was written and nothing behind it is touched, if and only if its text is no longer
   * than allowed and shorter than 2^31 bytes; a longer one is refused.
   */
  lemma FrameRoundTrip(j: Json, rest: Text, max: nat, strtod: Strtod)
    requires Exact(j) && ReadsIntegers(strtod) && Nesting(j) <= NESTING_LIMIT && |Render(j, false, 0)| < TWO_32
    ensures var text, r := Render(j, false, 0), ReadFrame(Frame(j) + rest, max, strtod);
      && r == Delivered(text, rest, max, Some(j))
      && (r == Reading(Some(j), rest) <==> (max == 0 || |text| <= max) && |text| < TWO_31)
  {
    var text := Render(j, false, 0);
    RenderedIsRead(j, strtod);
    FrameOfShort(j);
    ReadFramed(text, rest, max, strtod);
  }

  function WriteAll(js: seq<Json>): Text {
    if js == [] then [] else Frame(js[0]) + WriteAll(js[1..])
  }

  function ReadAll(input: Text, count: nat, strtod: Strtod): seq<Option<Json>>
    decreases count
  {
    if count == 0 then []
    else
      var r := ReadFrame(input, 0, strtod);
      [r.json] + ReadAll(r.rest, count - 1, strtod)
  }

  ghost predicate Sendable(j: Json) {
    Exact(j) && Nesting(j) <= NESTING_LIMIT && |Render(j, false, 0)| < TWO_31
  }

  ghost predicate AllSendable(js: seq<Json>) {
    js == [] || (Sendable(js[0]) && AllSendable(js[1..]))
  }

  /** The messages come back one by one, in order, and nothing else. */
  ghost predicate Arrived(r: seq<Option<Json>>, js: seq<Json>) {
    |r| == |js| && forall i :: 0 <= i < |js| ==> r[i] == Some(js[i])
  }

  lemma OneMoreArrived(r: seq<Option<Json>>, js: seq<Json>)
    requires js != [] && Arrived(r, js[1..])
    ensures Arrived([Some(js[0])] + r, js)
  {
  }

  lemma FirstRead(j: Json, rest: Text, count: nat, strtod: Strtod, input: Text, r: seq<Option<Json>>)
    requires ReadsIntegers(strtod) && Sendable(j) && count > 0
    requires input == Frame(j) + rest && r == ReadAll(input, count, strtod)
    ensures r == [Some(j)] + ReadAll(rest, count - 1, strtod)
  {
    FrameRoundTrip(j, rest, 0, strtod);
  }

  /** The connection keeps messages apart and in order. */
  lemma {:induction false} MessagesInOrder(js: seq<Json>, strtod: Strtod, r: seq<Option<Json>>)
    requires ReadsIntegers(strtod) && AllSendable(js) && r == ReadAll(WriteAll(js), |js|, strtod)
    ensures Arrived(r, js)
  {
    if js != [] {
      var rest := WriteAll(js[1..]);
      var later := ReadAll(rest, |js| - 1, strtod);
      FirstRead(js[0], rest, |js|, strtod, WriteAll(js), r);
      MessagesInOrder(js[1..], strtod, later);
      OneMoreArrived(later, js);
    }
  }
}
