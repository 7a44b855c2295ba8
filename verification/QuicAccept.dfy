/** Which stream belongs to whom: the accept queue, the map from identifiers, and the attached streams. */
module QuicAccept {
  import opened QuicReceive
  import opened Wrappers
  import opened Sequences

  datatype MapEntry = MapEntry(id: int, sc: Stream)

  /** The entries that belong in the map: the numbered streams that nobody has attached yet. */
  ghost predicate Belongs(e: MapEntry, numbered: seq<Stream>, attached: set<int>) {
    1 <= e.id <= |numbered| && e.sc == numbered[e.id - 1] && e.id !in attached
  }

  lemma RemoveMembers(m: seq<MapEntry>, k: nat, r: seq<MapEntry>)
    requires k < |m| && NoRepeats(m) && r == m[..k] + m[k + 1..]
    ensures NoRepeats(r) && forall e :: e in r <==> e in m && e != m[k]
  {
    forall e | e in m && e != m[k] ensures e in r {
      var j :| 0 <= j < |m| && m[j] == e;
      assert r[if j < k then j else j - 1] == e;
    }
  }

  class QuicContext {
    var next_id: nat
    var id_map: seq<MapEntry>
    var accept_queue: seq<Stream>
    /** Every stream that was given an identifier, in the order of identifiers from 1 on. */
    ghost var numbered: seq<Stream>
    /** The identifiers whose streams were attached. */
    ghost var attached: set<int>

    ghost predicate Valid()
      reads this
    {
      && |numbered| == next_id && NoRepeats(numbered) && NoRepeats(accept_queue) && Disjoint(numbered, accept_queue)
      && NoRepeats(id_map) && (forall e <- id_map :: Belongs(e, numbered, attached))
      && (forall id :: 1 <= id <= next_id ==> id in attached || MapEntry(id, numbered[id - 1]) in id_map)
      && (forall id <- attached :: 1 <= id <= next_id)
    }

    ghost predicate InMap(sc: Stream)
      reads this`id_map
    {
      exists e <- id_map :: e.sc == sc
    }

    ghost predicate Attached(sc: Stream)
      reads this`numbered, this`attached
    {
      exists id <- attached :: 1 <= id <= |numbered| && numbered[id - 1] == sc
    }

    constructor ()
      ensures Valid() && numbered == [] && accept_queue == [] && attached == {}
    {
      next_id, id_map, accept_queue := 0, [], [];
      numbered, attached := [], {};
    }

    /** A stream that the peer has started: accept_enq. */
    method AcceptEnq(sc: Stream)
      requires Valid() && sc !in numbered && sc !in accept_queue
      modifies this`accept_queue
      ensures Valid() && accept_queue == old(accept_queue) + [sc]
    {
      accept_queue := accept_queue + [sc];
    }

    /** map_add, with the next identifier. */
    method MapAdd(sc: Stream) returns (id: int)
      requires Valid() && sc !in numbered && sc !in accept_queue
      modifies this`next_id, this`id_map, this`numbered
      ensures Valid() && id == old(next_id) + 1 == next_id && numbered == old(numbered) + [sc]
    {
      forall k | 0 <= k < |id_map| ensures id_map[k].id <= next_id {
        assert id_map[k] in id_map && Belongs(id_map[k], numbered, attached);
      }
      next_id := next_id + 1;
      id := next_id;
      id_map := [MapEntry(id, sc)] + id_map;
      numbered := numbered + [sc];
    }

    /** iperf_quic_accept: first come, first numbered. */
    method Accept() returns (r: Option<int>)
      requires Valid()
      modifies this`next_id, this`id_map, this`numbered, this`accept_queue
      ensures Valid() && numbered + accept_queue == old(numbered + accept_queue)
      ensures next_id == old(next_id) + (if old(accept_queue) == [] then 0 else 1)
      ensures r == if old(accept_queue) == [] then None else Some(next_id)
    {
      if accept_queue == [] {
        return None;
      }
      var sc := accept_queue[0];
      accept_queue := accept_queue[1..];
      var id := MapAdd(sc);
      r := Some(id);
    }

    /** iperf_quic_attach_stream with map_take: the stream of an identifier, once. */
    method Attach(id: int) returns (r: Option<Stream>)
      requires Valid()
      modifies this`id_map, this`attached
      ensures Valid()
      ensures if 1 <= id <= next_id && id !in old(attached)
              then r == Some(numbered[id - 1]) && attached == old(attached) + {id}
              else r == None && attached == old(attached)
    {
      var k := 0;
      while k < |id_map| && id_map[k].id != id
        invariant k <= |id_map| && forall j :: 0 <= j < k ==> id_map[j].id != id
      {
        k := k + 1;
      }
      if k == |id_map| {
        if 1 <= id <= next_id && id !in attached {
          assert MapEntry(id, numbered[id - 1]) in id_map;
        }
        return None;
      }
      var e := id_map[k];
      assert e in id_map;
      RemoveMembers(id_map, k, id_map[..k] + id_map[k + 1..]);
      r := Some(e.sc);
      id_map := id_map[..k] + id_map[k + 1..];
      attached := attached + {id};
    }

    /** Every stream has exactly one owner: the accept queue, the map, or the worker it is attached to. */
    lemma OneOwner(sc: Stream)
      requires Valid() && (sc in numbered || sc in accept_queue)
      ensures sc in accept_queue || InMap(sc) || Attached(sc)
      ensures !(sc in accept_queue && InMap(sc)) && !(sc in accept_queue && Attached(sc))
      ensures !(InMap(sc) && Attached(sc))
    {
      if sc in numbered {
        var k :| 0 <= k < |numbered| && numbered[k] == sc;
        if k + 1 !in attached {
          assert MapEntry(k + 1, sc) in id_map;
        }
      }
    }
  }
}
