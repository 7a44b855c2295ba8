/** The parser on the heap: what it leaves are linked nodes that hold the value which the grammar reads. */
module JsonNodes {
  import opened Bytes
  import opened JsonTree
  import opened JsonGrammar
  import opened JsonDuplicate
  import opened JsonParse
  import opened Wrappers

  // ---- The tree that the nodes hold

  /** The fields that parsing sets. */
  function VarsOf(j: Json, key: Option<Text>): Vars {
    match j
    case Null => Vars(4, 0, None, key)
    case False => Vars(1, 0, None, key)
    case True => Vars(2, 1, None, key)
    case Number(n) => Vars(8, n, None, key)
    case String(s) => Vars(16, 0, Some(s), key)
    case Array(_) => Vars(32, 0, None, key)
    case Object(_) => Vars(64, 0, None, key)
  }

  ghost function TreeOf(j: Json, key: Option<Text>): Tree
    decreases j, 0
  {
    Tree(VarsOf(j, key), match j
                         case Array(items) => ItemTrees(items)
                         case Object(members) => MemberTrees(members)
                         case _ => [])
  }

  ghost function ItemTrees(items: seq<Json>): seq<Tree>
    decreases items, 1
  {
    if items == [] then [] else [TreeOf(items[0], None)] + ItemTrees(items[1..])
  }

  ghost function MemberTrees(members: seq<Member>): seq<Tree>
    decreases members, 1
  {
    if members == [] then []
    else [TreeOf(members[0].value, Some(members[0].key))] + MemberTrees(members[1..])
  }

  ghost function Bit(n: nat): nat {
    if n == 0 then 1 else 2 * Bit(n - 1)
  }

  /** The type of a node is one bit of its own, and what the node holds besides is its value and its key. */
  lemma NodeOfValue(j: Json, key: Option<Text>)
    ensures var v := TreeOf(j, key).vars;
      && v.key == key
      && v.kind == Bit(match j
                       case False => 0
                       case True => 1
                       case Null => 2
                       case Number(_) => 3
                       case String(_) => 4
                       case Array(_) => 5
                       case Object(_) => 6)
      && v.valueint == (match j case Number(n) => n case True => 1 case _ => 0)
      && v.valuestring == (match j case String(s) => Some(s) case _ => None)
  {
    assert Bit(2) == 4;
    assert Bit(4) == 16;
    assert Bit(6) == 64;
  }

  lemma ContainerTrees(items: seq<Json>, members: seq<Member>, key: Option<Text>)
    ensures TreeOf(Array(items), key) == Tree(VarsOf(Array([]), key), ItemTrees(items))
    ensures TreeOf(Object(members), key) == Tree(VarsOf(Object([]), key), MemberTrees(members))
  {
  }

  lemma {:induction false} ItemTreesAppend(items: seq<Json>, j: Json)
    ensures ItemTrees(items + [j]) == ItemTrees(items) + [TreeOf(j, None)]
  {
    if items == [] {
      assert [] + [j] == [j] && [j][1..] == [];
    } else {
      ItemTreesAppend(items[1..], j);
      assert (items + [j])[1..] == items[1..] + [j];
    }
  }

  lemma {:induction false} MemberTreesAppend(members: seq<Member>, m: Member)
    ensures MemberTrees(members + [m]) == MemberTrees(members) + [TreeOf(m.value, Some(m.key))]
  {
    if members == [] {
      assert [] + [m] == [m] && [m][1..] == [];
    } else {
      MemberTreesAppend(members[1..], m);
      assert (members + [m])[1..] == members[1..] + [m];
    }
  }

  /** Such a tree shows the value, whatever key it stands under. */
  lemma {:induction false} TreeShows(j: Json, key: Option<Text>)
    ensures Shown(TreeOf(j, key)) == Some(j)
    decreases j, 0
  {
    match j
    case Array(items) => ItemTreesShow(items);
    case Object(members) => MemberTreesShow(members);
    case _ =>
  }

  lemma {:induction false} ItemTreesShow(items: seq<Json>)
    ensures ShownItems(ItemTrees(items)) == Some(items)
    decreases items, 1
  {
    if items != [] {
      var t := ItemTrees(items);
      assert t[0] == TreeOf(items[0], None) && t[1..] == ItemTrees(items[1..]);
      TreeShows(items[0], None);
      ItemTreesShow(items[1..]);
      assert [items[0]] + items[1..] == items;
    }
  }

  lemma {:induction false} MemberTreesShow(members: seq<Member>)
    ensures ShownMembers(MemberTrees(members)) == Some(members)
    decreases members, 1
  {
    if members != [] {
      var t, m := MemberTrees(members), members[0];
      assert t[0] == TreeOf(m.value, Some(m.key)) && t[1..] == MemberTrees(members[1..]);
      TreeShows(m.value, Some(m.key));
      MemberTreesShow(members[1..]);
      assert [m] + members[1..] == members;
    }
  }

  // ---- Linking

  /** A finished node of new nodes: well linked all the way down, on top of the others, in no list, holding `tree`. */
  ghost predicate Finished(item: Node, tree: Tree)
    reads item, item.below
  {
    && item.prev == item.next == null && item.tree == tree
    && Sound({item} + item.below) && Topmost(item, {item} + item.below)
  }

  /** The first children are linked, up to the last one. */
  ghost predicate Building(item: Node, last: Node?, kids: seq<Node>, nodes: set<Node>, trees: seq<Tree>)
    reads item`child, kids`next, kids`prev, kids`below, kids`tree, nodes
  {
    item !in nodes && Copies(kids, nodes, trees) && Linked(item.child, kids, null) && last == Nth(kids, |kids| - 1)
  }

  method LinkKid(item: Node, kid: Node, last: Node?, ghost kids: seq<Node>, ghost nodes: set<Node>,
                 ghost trees: seq<Tree>, ghost tree: Tree)
    requires Building(item, last, kids, nodes, trees) && Finished(kid, tree)
    requires nodes !! {kid} + kid.below && item !in {kid} + kid.below
    modifies item`child, kids`next, kid`prev, kid`next
    ensures Building(item, kid, kids + [kid], nodes + ({kid} + kid.below), trees + [tree])
  {
    ghost var more := {kid} + kid.below;
    OneMoreCopy(kids, nodes, trees, kid, more);
    LinkNext(item, last, kid, kids, kids + [kid], nodes + more, trees + [tree]);
  }

  /** One element more. */
  method LinkItem(item: Node, kid: Node, last: Node?, ghost kids: seq<Node>, ghost nodes: set<Node>,
                  ghost items: seq<Json>, ghost j: Json,
                  ghost items': seq<Json>)
    returns (ghost kids': seq<Node>, ghost nodes': set<Node>)
    requires Building(item, last, kids, nodes, ItemTrees(items)) && Finished(kid, TreeOf(j, None))
    requires nodes !! {kid} + kid.below && item !in {kid} + kid.below
    requires items' == items + [j]
    modifies item`child, kids`next, kid`prev, kid`next
    ensures nodes' == nodes + ({kid} + kid.below)
    ensures Building(item, kid, kids', nodes', ItemTrees(items'))
  {
    LinkKid(item, kid, last, kids, nodes, ItemTrees(items), TreeOf(j, None));
    ItemTreesAppend(items, j);
    kids', nodes' := kids + [kid], nodes + ({kid} + kid.below);
  }

  /** One member more. */
  method LinkMember(item: Node, kid: Node, last: Node?, ghost kids: seq<Node>, ghost nodes: set<Node>,
                    ghost members: seq<Member>, ghost m: Member,
                    ghost members': seq<Member>)
    returns (ghost kids': seq<Node>, ghost nodes': set<Node>)
    requires Building(item, last, kids, nodes, MemberTrees(members)) && Finished(kid, TreeOf(m.value, Some(m.key)))
    requires nodes !! {kid} + kid.below && item !in {kid} + kid.below
    requires members' == members + [m]
    modifies item`child, kids`next, kid`prev, kid`next
    ensures nodes' == nodes + ({kid} + kid.below)
    ensures Building(item, kid, kids', nodes', MemberTrees(members'))
  {
    LinkKid(item, kid, last, kids, nodes, MemberTrees(members), TreeOf(m.value, Some(m.key)));
    MemberTreesAppend(members, m);
    kids', nodes' := kids + [kid], nodes + ({kid} + kid.below);
  }

  /** The end of a container: the first child's prev is the last one. */
  method CloseNode(item: Node, last: Node?, ghost kids: seq<Node>, ghost nodes: set<Node>, ghost trees: seq<Tree>,
                   ghost tree: Tree)
    requires Building(item, last, kids, nodes, trees) && item.prev == item.next == null
    requires tree == Tree(item.vars, trees)
    modifies kids`prev, item`children, item`below, item`tree
    ensures item.below == nodes && Finished(item, tree)
  {
    CloseList(item, last, kids, nodes, trees);
    Adopt(item, last, kids, nodes, trees);
  }

  /** A new node, still without children. */
  method NewItem(vars: Vars) returns (item: Node)
    ensures fresh(item) && item.vars == vars && item.child == item.prev == item.next == null
  {
    item := new Node();
    item.vars := vars;
  }

  /** A node that stays without children. */
  method Leaf(vars: Vars) returns (item: Node)
    ensures fresh({item} + item.below) && Finished(item, Tree(vars, []))
  {
    item := NewItem(vars);
    CloseNode(item, null, [], {}, [], Tree(vars, []));
  }

  // ---- Reading

  /** parse_value: the value, as a new node under the given key. */
  method ReadValue(b: ParseBuffer, key: Option<Text>) returns (ok: bool, item: Node?, ghost j: Json)
    requires b.Valid()
    modifies b
    ensures ParseValue(b.content, old(b.offset), old(b.depth), b.strtod)
         == (if ok then Ok(j, b.offset) else Fail(b.offset))
    ensures ok ==> b.depth == old(b.depth)
    ensures ok ==> item != null && fresh({item} + item.below) && Finished(item, TreeOf(j, key))
    decreases |b.content| - b.offset, 7
  {
    item, j := null, Null;
    ghost var r := ParseValue(b.content, b.offset, b.depth, b.strtod);
    var c := b.content[b.offset];
    if c != LBRACKET && c != LBRACE {
      var value;
      ok, value := b.ReadScalar();
      if ok {
        j := value;
        item := Leaf(VarsOf(value, key));
      }
    } else {
      Containers(b.content, b.offset, b.depth, b.strtod);
      if c == LBRACKET {
        ok, item, j := ReadArray(b, key, r);
      } else {
        ok, item, j := ReadObject(b, key, r);
      }
    }
  }

  lemma Containers(s: Text, off: nat, depth: nat, strtod: Strtod)
    requires off < |s| && Terminated(s)
    ensures s[off] == LBRACKET ==> ParseValue(s, off, depth, strtod) == ParseArray(s, off, depth, strtod)
    ensures s[off] == LBRACE ==> ParseValue(s, off, depth, strtod) == ParseObject(s, off, depth, strtod)
  {
    assert off + 4 <= |s| ==> s[off..off + 4][0] == s[off];
    assert off + 5 <= |s| ==> s[off..off + 5][0] == s[off];
  }

  /** The value behind a bracket, comma or colon, and the white space behind it. */
  method ReadElement(b: ParseBuffer, key: Option<Text>) returns (ok: bool, item: Node?, ghost j: Json)
    requires b.Valid() && b.offset + 1 < |b.content|
    modifies b
    ensures ParseElement(b.content, old(b.offset), old(b.depth), b.strtod)
         == (if ok then Ok(j, b.offset) else Fail(b.offset))
    ensures ok ==> b.depth == old(b.depth)
    ensures ok ==> item != null && fresh({item} + item.below) && Finished(item, TreeOf(j, key))
    decreases |b.content| - b.offset, 0
  {
    b.offset := b.offset + 1;
    b.SkipBlanks();
    ok, item, j := ReadValue(b, key);
    if ok {
      b.SkipBlanks();
    }
  }

  /** Behind one of the elements: one more follows, or the list ends here. */
  ghost predicate ItemsGo(b: ParseBuffer, more: bool, done: seq<Json>, r: Parsed)
    reads b
  {
    && b.Valid()
    && if more then b.offset + 1 < |b.content| && r == ParseItems(b.content, b.offset, b.depth, done, b.strtod)
       else r == if b.content[b.offset] == RBRACKET then Ok(Array(done), b.offset + 1) else Fail(b.offset)
  }

  /** The next element, and whether one more follows. */
  method NextItem(b: ParseBuffer, ghost done: seq<Json>, ghost r: Parsed)
    returns (ok: bool, more: bool, kid: Node?, ghost j: Json, ghost done': seq<Json>)
    requires ItemsGo(b, true, done, r)
    modifies b
    ensures !ok ==> r == Fail(b.offset)
    ensures ok ==> old(b.offset) < b.offset && b.depth == old(b.depth) && done' == done + [j]
    ensures ok ==> kid != null && fresh({kid} + kid.below) && Finished(kid, TreeOf(j, None))
    ensures ok ==> ItemsGo(b, more, done', r)
    decreases |b.content| - b.offset, 1
  {
    ItemsStep(b.content, b.offset, b.depth, done, b.strtod,
              ParseElement(b.content, b.offset, b.depth, b.strtod), r);
    ok, kid, j := ReadElement(b, None);
    done', more := done + [j], ok && b.content[b.offset] == COMMA;
  }

  /** One turn of the loop over the elements of an array: read, link, look whether it goes on. */
  method ReadItem(b: ParseBuffer, item: Node, last: Node?, ghost done: seq<Json>, ghost kids: seq<Node>,
                  ghost nodes: set<Node>, ghost r: Parsed)
    returns (ok: bool, more: bool, kid: Node?, ghost done': seq<Json>, ghost kids': seq<Node>,
             ghost nodes': set<Node>)
    requires ItemsGo(b, true, done, r)
    requires Building(item, last, kids, nodes, ItemTrees(done))
    modifies b, item`child, kids`next
    ensures !ok ==> r == Fail(b.offset)
    ensures ok ==> old(b.offset) < b.offset && b.depth == old(b.depth)
    ensures ok ==> fresh(nodes' - nodes) && Building(item, kid, kids', nodes', ItemTrees(done'))
    ensures ok ==> ItemsGo(b, more, done', r)
    decreases |b.content| - b.offset, 2
  {
    kids', nodes' := kids, nodes;
    ghost var j;
    ok, more, kid, j, done' := NextItem(b, done, r);
    if ok {
      kids', nodes' := LinkItem(item, kid, last, kids, nodes, done, j, done');
    }
  }

  /** The loop over the elements of an array, from the byte in front of the first one. */
  method ReadItems(b: ParseBuffer, item: Node, ghost r: Parsed)
    returns (ok: bool, last: Node?, ghost done: seq<Json>, ghost kids: seq<Node>, ghost nodes: set<Node>)
    requires b.Valid() && b.offset + 1 < |b.content| && r == ParseItems(b.content, b.offset, b.depth, [], b.strtod)
    requires item.child == null
    modifies b, item`child
    ensures r == (if ok then Ok(Array(done), b.offset + 1) else Fail(b.offset))
    ensures ok ==> b.depth == old(b.depth) && fresh(nodes) && Building(item, last, kids, nodes, ItemTrees(done))
    decreases |b.content| - b.offset, 3
  {
    last, done, kids, nodes := null, [], [], {};
    var more := true;
    while more
      invariant ItemsGo(b, more, done, r) && old(b.offset) <= b.offset && b.depth == old(b.depth)
      invariant fresh(nodes) && Building(item, last, kids, nodes, ItemTrees(done))
      decreases more, |b.content| - b.offset
    {
      ok, more, last, done, kids, nodes := ReadItem(b, item, last, done, kids, nodes, r);
      if !ok {
        return;
      }
    }
    ok := b.content[b.offset] == RBRACKET;
  }

  /** All elements of an array, from the first one, or the closing bracket, to behind the closing bracket. */
  method ReadAllItems(b: ParseBuffer, item: Node, ghost before: nat, ghost r: Parsed)
    returns (ok: bool, last: Node?, ghost done: seq<Json>, ghost kids: seq<Node>, ghost nodes: set<Node>)
    requires b.Valid() && b.offset == before + 1 && b.depth > 0 && item.child == null
    requires r == if b.content[b.offset] == RBRACKET then Ok(Array([]), b.offset + 1)
                  else ParseItems(b.content, before, b.depth, [], b.strtod)
    modifies b, item`child
    ensures r == (if ok then Ok(Array(done), b.offset) else Fail(b.offset))
    ensures ok ==> b.depth == old(b.depth) - 1 && fresh(nodes) && Building(item, last, kids, nodes, ItemTrees(done))
    decreases |b.content| - b.offset + 1, 4
  {
    if b.content[b.offset] == RBRACKET {
      ok, last, done, kids, nodes := true, null, [], [], {};
    } else {
      b.offset := b.offset - 1;
      ok, last, done, kids, nodes := ReadItems(b, item, r);
    }
    if ok {
      b.depth := b.depth - 1;
      b.offset := b.offset + 1;
    }
  }

  /** Behind one of the members: one more follows, or the list ends here. */
  ghost predicate MembersGo(b: ParseBuffer, more: bool, done: seq<Member>, r: Parsed)
    reads b
  {
    && b.Valid()
    && if more then b.offset + 1 < |b.content| && r == ParseMembers(b.content, b.offset, b.depth, done, b.strtod)
       else r == if b.content[b.offset] == RBRACE then Ok(Object(done), b.offset + 1) else Fail(b.offset)
  }

  /** The next member, and whether one more follows. */
  method NextMember(b: ParseBuffer, ghost done: seq<Member>, ghost r: Parsed)
    returns (ok: bool, more: bool, kid: Node?, ghost j: Member, ghost done': seq<Member>)
    requires MembersGo(b, true, done, r)
    modifies b
    ensures !ok ==> r == Fail(b.offset)
    ensures ok ==> old(b.offset) < b.offset && b.depth == old(b.depth) && done' == done + [j]
    ensures ok ==> kid != null && fresh({kid} + kid.below) && Finished(kid, TreeOf(j.value, Some(j.key)))
    ensures ok ==> MembersGo(b, more, done', r)
    decreases |b.content| - b.offset, 1
  {
    MembersStep(b.content, b.offset, b.depth, done, b.strtod,
              ParseMember(b.content, b.offset, b.depth, b.strtod), r);
    ok, kid, j := ReadKeyed(b);
    done', more := done + [j], ok && b.content[b.offset] == COMMA;
  }

  /** One turn of the loop over the members of an object: read, link, look whether it goes on. */
  method ReadMember(b: ParseBuffer, item: Node, last: Node?, ghost done: seq<Member>, ghost kids: seq<Node>,
                  ghost nodes: set<Node>, ghost r: Parsed)
    returns (ok: bool, more: bool, kid: Node?, ghost done': seq<Member>, ghost kids': seq<Node>,
             ghost nodes': set<Node>)
    requires MembersGo(b, true, done, r)
    requires Building(item, last, kids, nodes, MemberTrees(done))
    modifies b, item`child, kids`next
    ensures !ok ==> r == Fail(b.offset)
    ensures ok ==> old(b.offset) < b.offset && b.depth == old(b.depth)
    ensures ok ==> fresh(nodes' - nodes) && Building(item, kid, kids', nodes', MemberTrees(done'))
    ensures ok ==> MembersGo(b, more, done', r)
    decreases |b.content| - b.offset, 2
  {
    kids', nodes' := kids, nodes;
    ghost var j;
    ok, more, kid, j, done' := NextMember(b, done, r);
    if ok {
      kids', nodes' := LinkMember(item, kid, last, kids, nodes, done, j, done');
    }
  }

  /** The loop over the members of an object, from the byte in front of the first one. */
  method ReadMembers(b: ParseBuffer, item: Node, ghost r: Parsed)
    returns (ok: bool, last: Node?, ghost done: seq<Member>, ghost kids: seq<Node>, ghost nodes: set<Node>)
    requires b.Valid() && b.offset + 1 < |b.content| && r == ParseMembers(b.content, b.offset, b.depth, [], b.strtod)
    requires item.child == null
    modifies b, item`child
    ensures r == (if ok then Ok(Object(done), b.offset + 1) else Fail(b.offset))
    ensures ok ==> b.depth == old(b.depth) && fresh(nodes) && Building(item, last, kids, nodes, MemberTrees(done))
    decreases |b.content| - b.offset, 3
  {
    last, done, kids, nodes := null, [], [], {};
    var more := true;
    while more
      invariant MembersGo(b, more, done, r) && old(b.offset) <= b.offset && b.depth == old(b.depth)
      invariant fresh(nodes) && Building(item, last, kids, nodes, MemberTrees(done))
      decreases more, |b.content| - b.offset
    {
      ok, more, last, done, kids, nodes := ReadMember(b, item, last, done, kids, nodes, r);
      if !ok {
        return;
      }
    }
    ok := b.content[b.offset] == RBRACE;
  }

  /** All members of an object, from the first one, or the closing brace, to behind the closing brace. */
  method ReadAllMembers(b: ParseBuffer, item: Node, ghost before: nat, ghost r: Parsed)
    returns (ok: bool, last: Node?, ghost done: seq<Member>, ghost kids: seq<Node>, ghost nodes: set<Node>)
    requires b.Valid() && b.offset == before + 1 && b.depth > 0 && item.child == null
    requires r == if b.content[b.offset] == RBRACE then Ok(Object([]), b.offset + 1)
                  else ParseMembers(b.content, before, b.depth, [], b.strtod)
    modifies b, item`child
    ensures r == (if ok then Ok(Object(done), b.offset) else Fail(b.offset))
    ensures ok ==> b.depth == old(b.depth) - 1 && fresh(nodes) && Building(item, last, kids, nodes, MemberTrees(done))
    decreases |b.content| - b.offset + 1, 4
  {
    if b.content[b.offset] == RBRACE {
      ok, last, done, kids, nodes := true, null, [], [], {};
    } else {
      b.offset := b.offset - 1;
      ok, last, done, kids, nodes := ReadMembers(b, item, r);
    }
    if ok {
      b.depth := b.depth - 1;
      b.offset := b.offset + 1;
    }
  }

  /** A key, its colon, and the value as a node under that key. */
  method ReadKeyed(b: ParseBuffer) returns (ok: bool, item: Node?, ghost m: Member)
    requires b.Valid() && b.offset + 1 < |b.content|
    modifies b
    ensures ParseMember(b.content, old(b.offset), old(b.depth), b.strtod)
         == (if ok then MemberOk(m, b.offset) else MemberFail(b.offset))
    ensures ok ==> b.depth == old(b.depth)
    ensures ok ==> item != null && fresh({item} + item.below) && Finished(item, TreeOf(m.value, Some(m.key)))
    decreases |b.content| - b.offset, 0
  {
    item, m := null, Member([], Null);
    var key;
    ok, key := b.ReadKey();
    if ok {
      ghost var j;
      ok, item, j := ReadElement(b, Some(key));
      m := Member(key, j);
    }
  }

  /** Past the opening bracket and the white space behind it, and one level down. */
  method Enter(b: ParseBuffer)
    requires b.Valid() && b.offset + 1 < |b.content|
    modifies b
    ensures b.Valid() && b.offset == SkipWhitespace(b.content, old(b.offset) + 1) && b.depth == old(b.depth) + 1
  {
    b.depth := b.depth + 1;
    b.offset := b.offset + 1;
    b.SkipBlanks();
  }

  /** parse_array, inside the brackets: a new node, its children, and the link from the first to the last one. */
  method FinishArray(b: ParseBuffer, key: Option<Text>, ghost before: nat, ghost r: Parsed)
    returns (ok: bool, item: Node?, ghost j: Json)
    requires b.Valid() && b.offset == before + 1 && b.depth > 0
    requires r == if b.content[b.offset] == RBRACKET then Ok(Array([]), b.offset + 1)
                  else ParseItems(b.content, before, b.depth, [], b.strtod)
    modifies b
    ensures r == (if ok then Ok(j, b.offset) else Fail(b.offset))
    ensures ok ==> b.depth == old(b.depth) - 1
    ensures ok ==> item != null && fresh({item} + item.below) && Finished(item, TreeOf(j, key))
    decreases |b.content| - b.offset + 1, 5
  {
    item, j := null, Null;
    var container := NewItem(VarsOf(Array([]), key));
    var last;
    ghost var done, kids, nodes;
    ok, last, done, kids, nodes := ReadAllItems(b, container, before, r);
    if ok {
      j := Array(done);
      ContainerTrees(done, [], key);
      CloseNode(container, last, kids, nodes, ItemTrees(done), TreeOf(j, key));
      item := container;
    }
  }

  /** parse_array */
  method ReadArray(b: ParseBuffer, key: Option<Text>, ghost r: Parsed)
    returns (ok: bool, item: Node?, ghost j: Json)
    requires b.Valid() && b.content[b.offset] == LBRACKET
    requires r == ParseArray(b.content, b.offset, b.depth, b.strtod)
    modifies b
    ensures r == (if ok then Ok(j, b.offset) else Fail(b.offset))
    ensures ok ==> b.depth == old(b.depth)
    ensures ok ==> item != null && fresh({item} + item.below) && Finished(item, TreeOf(j, key))
    decreases |b.content| - b.offset, 6
  {
    item, j := null, Null;
    ok := b.depth < NESTING_LIMIT;
    if ok {
      ghost var off, depth := b.offset, b.depth;
      Enter(b);
      ghost var first, before, inner := b.offset, b.offset - 1, b.depth;
      InsideArray(b.content, off, first, before, depth, inner, b.strtod, r);
      ok, item, j := FinishArray(b, key, before, r);
    }
  }

  /** parse_object, inside the braces: a new node, its children, and the link from the first to the last one. */
  method FinishObject(b: ParseBuffer, key: Option<Text>, ghost before: nat, ghost r: Parsed)
    returns (ok: bool, item: Node?, ghost j: Json)
    requires b.Valid() && b.offset == before + 1 && b.depth > 0
    requires r == if b.content[b.offset] == RBRACE then Ok(Object([]), b.offset + 1)
                  else ParseMembers(b.content, before, b.depth, [], b.strtod)
    modifies b
    ensures r == (if ok then Ok(j, b.offset) else Fail(b.offset))
    ensures ok ==> b.depth == old(b.depth) - 1
    ensures ok ==> item != null && fresh({item} + item.below) && Finished(item, TreeOf(j, key))
    decreases |b.content| - b.offset + 1, 5
  {
    item, j := null, Null;
    var container := NewItem(VarsOf(Object([]), key));
    var last;
    ghost var done, kids, nodes;
    ok, last, done, kids, nodes := ReadAllMembers(b, container, before, r);
    if ok {
      j := Object(done);
      ContainerTrees([], done, key);
      CloseNode(container, last, kids, nodes, MemberTrees(done), TreeOf(j, key));
      item := container;
    }
  }

  /** parse_object */
  method ReadObject(b: ParseBuffer, key: Option<Text>, ghost r: Parsed)
    returns (ok: bool, item: Node?, ghost j: Json)
    requires b.Valid() && b.content[b.offset] == LBRACE
    requires r == ParseObject(b.content, b.offset, b.depth, b.strtod)
    modifies b
    ensures r == (if ok then Ok(j, b.offset) else Fail(b.offset))
    ensures ok ==> b.depth == old(b.depth)
    ensures ok ==> item != null && fresh({item} + item.below) && Finished(item, TreeOf(j, key))
    decreases |b.content| - b.offset, 6
  {
    item, j := null, Null;
    ok := b.depth < NESTING_LIMIT;
    if ok {
      ghost var off, depth := b.offset, b.depth;
      Enter(b);
      ghost var first, before, inner := b.offset, b.offset - 1, b.depth;
      InsideObject(b.content, off, first, before, depth, inner, b.strtod, r);
      ok, item, j := FinishObject(b, key, before, r);
    }
  }

  // ---- The whole text

  /** cJSON_ParseWithOpts: linked nodes that hold the value, and where reading stopped. */
  method Parse(value: Text, require_null_terminated: bool, strtod: Strtod) returns (item: Node?, at: nat)
    requires NulFree(value)
    ensures var r := ParseText(value, require_null_terminated, strtod);
            && at == r.offset && (item == null <==> r.Fail?)
            && (r.Ok? ==> fresh({item} + item.below) && Finished(item, TreeOf(r.value, None)))
  {
    var buffer := new ParseBuffer(value + [0], strtod);
    if 4 < |buffer.content| && buffer.content[..3] == BOM {
      buffer.offset := buffer.offset + 3;
    }
    buffer.SkipBlanks();
    var ok, node;
    ghost var j;
    ok, node, j := ReadValue(buffer, None);
    if !ok {
      at := if buffer.offset < |buffer.content| then buffer.offset else |buffer.content| - 1;
      return null, at;
    }
    if require_null_terminated {
      buffer.SkipBlanks();
      if buffer.content[buffer.offset] != 0 {
        return null, buffer.offset;
      }
    }
    item, at := node, buffer.offset;
  }
}
