/** QUIC receive queues, which callbacks fill and workers drain. Every method of the queue is one critical section. */
module QuicReceive {
  import opened Bytes
  import opened Sequences

  class Chunk {
    const data: Text
    var off: nat
    var next: Chunk?

    constructor (data: Text)
      ensures this.data == data && off == 0 && next == null
    {
      this.data := data;
      off, next := 0, null;
    }
  }

  ghost function Nth(s: seq<Chunk>, i: int): Chunk? {
    if 0 <= i < |s| then s[i] else null
  }

  ghost predicate Follows(s: seq<Chunk>, i: nat)
    requires i < |s|
    reads s`next
  {
    s[i].next == Nth(s, i + 1)
  }

  ghost predicate Chained(head: Chunk?, tail: Chunk?, s: seq<Chunk>)
    reads s`next
  {
    head == Nth(s, 0) && tail == Nth(s, |s| - 1) && forall i :: 0 <= i < |s| ==> Follows(s, i)
  }

  /** Each chunk still holds the matching text. */
  ghost predicate Holds(s: seq<Chunk>, texts: seq<Text>)
    reads s`off
  {
    |s| == |texts| && forall i :: 0 <= i < |s| ==> s[i].off <= |s[i].data| && s[i].data[s[i].off..] == texts[i]
  }

  // ---- Texts in a row

  ghost function Flat(texts: seq<Text>): Text {
    if texts == [] then [] else texts[0] + Flat(texts[1..])
  }

  lemma {:induction false} FlatAppend(texts: seq<Text>, t: Text)
    ensures Flat(texts + [t]) == Flat(texts) + t
  {
    if texts == [] {
      assert (texts + [t])[1..] == [];
    } else {
      assert (texts + [t])[1..] == texts[1..] + [t];
      FlatAppend(texts[1..], t);
    }
  }

  lemma FlatCut(texts: seq<Text>, take: nat)
    requires texts != [] && take <= |texts[0]|
    ensures Flat(texts) == texts[0][..take] + Flat(texts[0 := texts[0][take..]])
  {
    var cut := texts[0 := texts[0][take..]];
    assert cut[1..] == texts[1..];
    assert texts[0] == texts[0][..take] + texts[0][take..];
  }

  lemma FlatDrop(texts: seq<Text>)
    requires texts != [] && texts[0] == []
    ensures Flat(texts[1..]) == Flat(texts)
  {
  }

  lemma Regroup(a: Text, b: Text, c: Text)
    ensures a + (b + c) == a + b + c
  {
  }

  /** All bytes that the transport handed over, those that readers were given, and what is left in each chunk. */
  datatype Books = Books(received: Text, delivered: Text, texts: seq<Text>, queued: nat) {
    /** The bytes delivered and the bytes still queued are the bytes that were handed over. */
    ghost predicate Balanced() {
      delivered + Flat(texts) == received && queued == |Flat(texts)|
    }
  }

  type Ledger = b: Books | b.Balanced() ghost witness Books([], [], [], 0)

  ghost function Credit(b: Ledger, data: Text): (r: Ledger) {
    FlatAppend(b.texts, data);
    Regroup(b.delivered, Flat(b.texts), data);
    Books(b.received + data, b.delivered, b.texts + [data], b.queued + |data|)
  }

  ghost function Debit(b: Ledger, take: nat): (r: Ledger)
    requires b.texts != [] && take <= |b.texts[0]|
    ensures r.queued == b.queued - take
  {
    var piece, cut := b.texts[0][..take], b.texts[0 := b.texts[0][take..]];
    FlatCut(b.texts, take);
    Regroup(b.delivered, piece, Flat(cut));
    Books(b.received, b.delivered + piece, cut, b.queued - take)
  }

  ghost function Drop(b: Ledger): (r: Ledger)
    requires b.texts != [] && b.texts[0] == []
  {
    FlatDrop(b.texts);
    Books(b.received, b.delivered, b.texts[1..], b.queued)
  }

  lemma Exhausted(b: Ledger)
    ensures b.texts == [] ==> b.queued == 0
  {
  }

  method Memcpy(buffer: array<byte>, at: nat, data: Text)
    requires at + |data| <= buffer.Length
    modifies buffer
    ensures buffer[..at + |data|] == old(buffer[..at]) + data
  {
    var k := 0;
    while k < |data|
      invariant k <= |data| && buffer[..at + k] == old(buffer[..at]) + data[..k]
    {
      buffer[at + k] := data[k];
      k := k + 1;
    }
  }

  class Stream {
    var head: Chunk?
    var tail: Chunk?
    var queued: nat
    ghost var chunks: seq<Chunk>
    ghost var Repr: set<Chunk>
    ghost var books: Ledger

    ghost predicate Valid()
      reads this, chunks
    {
      && Chained(head, tail, chunks) && NoRepeats(chunks) && AllIn(chunks, Repr) && Holds(chunks, books.texts)
      && queued == books.queued
    }

    constructor ()
      ensures Valid() && Repr == {} && books == Books([], [], [], 0)
    {
      head, tail, queued := null, null, 0;
      chunks, Repr, books := [], {}, Books([], [], [], 0);
    }

    method Append(c: Chunk)
      requires Valid() && c !in chunks && c.next == null && c.off == 0 && c in Repr
      modifies this`head, this`tail, this`queued, this`chunks, this`books, chunks`next
      ensures Valid() && books == Credit(old(books), c.data)
    {
      if tail == null {
        head := c;
      } else {
        tail.next := c;
      }
      tail := c;
      queued := queued + |c.data|;
      chunks, books := chunks + [c], Credit(books, c.data);
      forall i | 0 <= i < |chunks| ensures Follows(chunks, i) {
        assert i < |chunks| - 1 ==> old(Follows(chunks, i));
      }
    }

    /** The receive case of stream_cb, for one buffer of the event. */
    method Receive(data: Text)
      requires Valid()
      modifies this, chunks`next
      ensures Valid() && fresh(Repr - old(Repr)) && Repr >= old(Repr) && books == Credit(old(books), data)
    {
      var c := new Chunk(data);
      Repr := Repr + {c};
      Append(c);
    }

    /** Takes the first chunk off the queue, all of which has been read. */
    method DropHead()
      requires Valid() && chunks != [] && books.texts[0] == []
      modifies this`head, this`tail, this`chunks, this`books
      ensures Valid() && books == Drop(old(books))
    {
      assert Follows(chunks, 0);
      head := head.next;
      if head == null {
        tail := null;
      }
      ghost var s := chunks[1..];
      forall i | 0 <= i < |s| ensures Follows(s, i) {
        assert Follows(chunks, i + 1);
      }
      assert Chained(head, tail, s);
      chunks, books := s, Drop(books);
    }

    /** Bytes of the first chunk now belong to the reader. */
    method MoveOffset(take: nat)
      requires Valid() && books.texts != [] && take <= |books.texts[0]|
      modifies this`books, this`queued, chunks`off
      ensures Valid() && books == Debit(old(books), take)
    {
      assert head.data[head.off..][take..] == head.data[head.off + take..];
      head.off := head.off + take;
      books := Debit(books, take);
      queued := queued - take;
    }

    /** Behind a copied piece: the first chunk is partly read, or done with. */
    method Advance(take: nat, ghost piece: Text)
      requires Valid() && books.texts != [] && take <= |books.texts[0]| && piece == books.texts[0][..take]
      modifies this`head, this`tail, this`chunks, this`queued, this`books, chunks`off
      ensures Valid() && books.received == old(books.received) && books.queued == old(books.queued) - take
      ensures books.delivered == old(books.delivered) + piece
      ensures |books.texts| < |old(books.texts)|
           || (|books.texts| == |old(books.texts)| && take < |old(books.texts)[0]|)
    {
      MoveOffset(take);
      if head.off == |head.data| {
        DropHead();
      }
    }

    /** One turn of the copy loop of iperf_quic_recv: from the first chunk to the reader's buffer. */
    method CopyChunk(buffer: array<byte>, got: nat, want: nat) returns (take: nat, ghost piece: Text)
      requires Valid() && books.texts != [] && got < want <= buffer.Length
      modifies this`head, this`tail, this`chunks, this`queued, this`books, Repr`off, buffer
      ensures Valid() && got + take <= want && |piece| == take
      ensures books.received == old(books.received) && books.queued == old(books.queued) - take
      ensures buffer[..got + take] == old(buffer[..got]) + piece && books.delivered == old(books.delivered) + piece
      ensures |books.texts| < |old(books.texts)| || (|books.texts| == |old(books.texts)| && got + take == want)
    {
      var avail := |head.data| - head.off;
      take := want - got;
      if take > avail {
        take := avail;
      }
      var source := head.data[head.off..][..take];
      piece := source;
      Advance(take, piece);
      Memcpy(buffer, got, source);
    }

    /** The copy loop of iperf_quic_recv. */
    method Fill(buffer: array<byte>, want: nat) returns (got: nat)
      requires Valid() && want <= queued && want <= buffer.Length
      modifies this`head, this`tail, this`chunks, this`queued, this`books, Repr`off, buffer
      ensures Valid() && got == want && books.received == old(books.received)
      ensures queued == old(queued) - got && books.delivered == old(books.delivered) + buffer[..got]
    {
      ghost var base, taken: Text := books.delivered, [];
      got := 0;
      assert base + taken == base;
      while got < want && head != null
        invariant Valid() && books.received == old(books.received) && got == |taken| <= want <= buffer.Length
        invariant books.delivered == base + taken && buffer[..got] == taken && got + queued == old(queued)
        decreases |books.texts|, want - got
      {
        ghost var before := taken;
        var take, piece := CopyChunk(buffer, got, want);
        Regroup(base, before, piece);
        taken := before + piece;
        got := got + take;
      }
      Exhausted(books);
      assert head == null ==> chunks == [];
    }

    /** iperf_quic_recv once it no longer waits: with bytes in the queue, or with the stream or the test at its end. */
    method Recv(buffer: array<byte>, blksize: nat) returns (got: nat)
      requires Valid() && blksize <= buffer.Length
      modifies this`head, this`tail, this`chunks, this`queued, this`books, Repr`off, buffer
      ensures Valid() && got == (if blksize < old(queued) then blksize else old(queued)) && queued == old(queued) - got
      ensures books.received == old(books.received) && books.delivered == old(books.delivered) + buffer[..got]
    {
      if queued == 0 {
        assert books.delivered == old(books.delivered) + buffer[..0];
        return 0;
      }
      var want := blksize;
      if want > queued {
        want := queued;
      }
      got := Fill(buffer, want);
    }
  }
}
