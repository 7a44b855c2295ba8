/** Deep copies of linked JSON trees. */
module JsonDuplicate {
  import opened Bytes
  import opened JsonTree
  import opened Wrappers

  /** What a node holds besides its links: type, number, text and key. */
  datatype Vars = Vars(kind: nat, valueint: int, valuestring: Option<Text>, key: Option<Text>)

  /** What a tree holds, without its links. */
  datatype Tree = Tree(vars: Vars, children: seq<Tree>)

  // ---- What is printed of a tree

  function TextOf(t: Option<Text>): Text {
    if t.Some? then t.value else []
  }

  /** The JSON value of a tree as print_value sees it: the low byte of the type decides, and a missing text is empty. */
  function Shown(t: Tree): Option<Json>
    decreases t, 0
  {
    var kind := t.vars.kind % 0x100;
    if kind == 1 then Some(False)
    else if kind == 2 then Some(True)
    else if kind == 4 then Some(Null)
    else if kind == 8 then Some(Number(t.vars.valueint))
    else if kind == 16 then Some(String(TextOf(t.vars.valuestring)))
    else if kind == 32 then
      var items := ShownItems(t.children);
      if items.Some? then Some(Array(items.value)) else None
    else if kind == 64 then
      var members := ShownMembers(t.children);
      if members.Some? then Some(Object(members.value)) else None
    else None
  }

  function ShownItems(s: seq<Tree>): Option<seq<Json>>
    decreases s, 1
  {
    if s == [] then Some([])
    else
      var first, rest := Shown(s[0]), ShownItems(s[1..]);
      if first.Some? && rest.Some? then Some([first.value] + rest.value) else None
  }

  function ShownMembers(s: seq<Tree>): Option<seq<Member>>
    decreases s, 1
  {
    if s == [] then Some([])
    else
      var first, rest := Shown(s[0]), ShownMembers(s[1..]);
      if first.Some? && rest.Some? then Some([Member(TextOf(s[0].vars.key), first.value)] + rest.value) else None
  }

  /** The text of a tree, if all its types are printable. */
  function Printed(t: Tree, fmt: bool): Option<Text> {
    var j := Shown(t);
    if j.Some? then Some(Render(j.value, fmt, 0)) else None
  }

  /** Without its children a printable tree is an empty container or what it was. */
  lemma ShownAlone(t: Tree)
    requires Shown(t).Some?
    ensures Shown(t.(children := []))
         == Some(match Shown(t).value case Array(_) => Array([]) case Object(_) => Object([]) case other => other)
  {
  }

  // ---- Nodes

  ghost function Nth(s: seq<Node>, i: int): Node? {
    if 0 <= i < |s| then s[i] else null
  }

  /** The element at i knows its neighbours; `first` is what the first one has for a predecessor. */
  ghost predicate Joined(s: seq<Node>, i: nat, first: Node?)
    requires i < |s|
    reads s`prev, s`next
  {
    s[i].next == Nth(s, i + 1) && s[i].prev == if i == 0 then first else s[i - 1]
  }

  ghost predicate Linked(child: Node?, s: seq<Node>, first: Node?)
    reads s`prev, s`next
  {
    child == Nth(s, 0) && forall i :: 0 <= i < |s| ==> Joined(s, i, first)
  }

  /** Siblings: different nodes, with nothing in common underneath. */
  ghost predicate Apart(s: seq<Node>)
    reads s`below
  {
    && (forall i, j :: 0 <= i < |s| && 0 <= j < |s| ==> s[i] !in s[j].below)
    && (forall i, j :: 0 <= i < j < |s| ==> s[i] != s[j] && s[i].below !! s[j].below)
  }

  ghost predicate Hold(s: seq<Node>, trees: seq<Tree>)
    reads s`tree
  {
    |s| == |trees| && forall i :: 0 <= i < |s| ==> s[i].tree == trees[i]
  }

  class Node {
    var vars: Vars
    var child: Node?
    var prev: Node?
    var next: Node?
    ghost var children: seq<Node>
    /** All nodes underneath, and what this node and they hold. */
    ghost var below: set<Node>
    ghost var tree: Tree

    /** The children are well linked, the first one's prev at the last, and they hold what the tree says. */
    ghost predicate Local()
      reads this`vars, this`child, this`children, this`below, this`tree
      reads children`prev, children`next, children`below, children`tree
    {
      && this !in below && (forall i :: 0 <= i < |children| ==> children[i] in below && children[i].below <= below)
      && tree.vars == vars && Hold(children, tree.children)
      && Apart(children) && Linked(child, children, Nth(children, |children| - 1))
    }

    /** cJSON_New_Item */
    constructor ()
      ensures child == prev == next == null && children == [] && below == {}
    {
      vars := Vars(0, 0, None, None);
      child, prev, next := null, null, null;
      children, below, tree := [], {}, Tree(Vars(0, 0, None, None), []);
    }
  }

  /** A closed set of nodes, each of which is well linked to its children. */
  ghost predicate Sound(nodes: set<Node>)
    reads nodes
  {
    && (forall n <- nodes :: n.below <= nodes)
    && (forall n {:trigger n.Local()} | n in nodes ::
          (forall i :: 0 <= i < |n.children| ==> n.children[i] in nodes) && n.Local())
  }

  /** Nobody has n underneath. */
  ghost predicate Topmost(n: Node, nodes: set<Node>)
    reads nodes`below
  {
    forall m <- nodes :: n !in m.below
  }

  // ---- The copy

  /** Links one more copy behind the last one. */
  method LinkCopy(newitem: Node, last: Node?, newchild: Node, ghost copies: seq<Node>)
    requires Linked(newitem.child, copies, null) && last == Nth(copies, |copies| - 1)
    requires newchild.prev == newchild.next == null && newchild !in copies
    requires forall i, j :: 0 <= i < j < |copies| ==> copies[i] != copies[j]
    modifies newitem`child, copies`next, newchild`prev
    ensures Linked(newitem.child, copies + [newchild], null)
  {
    if last != null {
      last.next := newchild;
      newchild.prev := last;
    } else {
      newitem.child := newchild;
    }
    ghost var s := copies + [newchild];
    forall i | 0 <= i < |s| ensures Joined(s, i, null) {
      assert i < |copies| ==> old(Joined(copies, i, null));
    }
  }

  /** Finished copies of the first children, the nodes they consist of, and what they hold. */
  ghost predicate Copies(copies: seq<Node>, nodes: set<Node>, trees: seq<Tree>)
    reads copies`below, copies`tree, nodes
  {
    && Hold(copies, trees) && Apart(copies) && Sound(nodes)
    && forall i :: 0 <= i < |copies| ==> copies[i] in nodes && Topmost(copies[i], nodes)
  }

  lemma SoundTogether(a: set<Node>, b: set<Node>)
    requires Sound(a) && Sound(b)
    ensures Sound(a + b)
  {
    forall n | n in a + b
      ensures n.Local() && forall i :: 0 <= i < |n.children| ==> n.children[i] in a + b
    {
      assert n.Local();
    }
  }

  lemma SoundWithRoot(n: Node, nodes: set<Node>)
    requires Sound(nodes) && n.Local() && n.below == nodes
    ensures Sound({n} + nodes)
  {
    forall m | m in {n} + nodes
      ensures m.Local() && forall i :: 0 <= i < |m.children| ==> m.children[i] in {n} + nodes
    {
      assert m.Local();
    }
  }

  /** One copy more, of nodes that are all new. */
  lemma OneMoreCopy(copies: seq<Node>, nodes: set<Node>, trees: seq<Tree>, n: Node, more: set<Node>)
    requires Copies(copies, nodes, trees) && Sound(more) && Topmost(n, more) && n in more && nodes !! more
    ensures Copies(copies + [n], nodes + more, trees + [n.tree])
  {
    var s := copies + [n];
    SoundTogether(nodes, more);
    forall i | 0 <= i < |copies| ensures copies[i] in nodes && copies[i].below <= nodes && copies[i] !in more {
    }
    forall i | 0 <= i < |s| ensures s[i] in nodes + more && Topmost(s[i], nodes + more) {
      assert i < |copies| ==> s[i] == copies[i] && Topmost(copies[i], nodes);
    }
  }

  /** Linking topmost nodes leaves all nodes sound. */
  method LinkNext(newitem: Node, last: Node?, newchild: Node, ghost copies: seq<Node>, ghost s: seq<Node>,
                  ghost nodes: set<Node>, ghost trees: seq<Tree>)
    requires s == copies + [newchild] && Copies(s, nodes, trees) && newitem !in nodes
    requires newchild.prev == newchild.next == null
    requires Linked(newitem.child, copies, null) && last == Nth(copies, |copies| - 1)
    modifies newitem`child, s`next, newchild`prev
    ensures Copies(s, nodes, trees) && Linked(newitem.child, s, null)
  {
    assert forall i :: 0 <= i < |copies| ==> copies[i] == s[i];
    assert s[|copies|] == newchild;
    LinkCopy(newitem, last, newchild, copies);
    forall n | n in nodes ensures n.Local() {
      forall i | 0 <= i < |s| ensures s[i] !in n.children {
        assert old(Topmost(s[i], nodes) && n.Local());
      }
    }
  }

  lemma TakeOneMore(trees: seq<Tree>, k: nat)
    requires k < |trees|
    ensures trees[..k + 1] == trees[..k] + [trees[k]]
  {
  }

  /** One turn of the loop: a copy of the next child, linked behind the copies that are there. */
  method CopyNext(newitem: Node, child: Node, last: Node?, ghost all: set<Node>, ghost copies: seq<Node>,
                  ghost nodes: set<Node>, ghost trees: seq<Tree>)
    returns (newchild: Node)
    requires Sound(all) && child in all && newitem !in all && all !! nodes
    requires Copies(copies, nodes, trees) && newitem !in nodes
    requires Linked(newitem.child, copies, null) && last == Nth(copies, |copies| - 1)
    modifies newitem`child, copies`next
    ensures fresh({newchild} + newchild.below)
    ensures Copies(copies + [newchild], nodes + ({newchild} + newchild.below), trees + [old(child.tree)])
    ensures Linked(newitem.child, copies + [newchild], null)
    decreases child.tree, 4
  {
    newchild := Duplicate(child, true, all);
    ghost var more := {newchild} + newchild.below;
    OneMoreCopy(copies, nodes, trees, newchild, more);
    LinkNext(newitem, last, newchild, copies, copies + [newchild], nodes + more, trees + [newchild.tree]);
  }

  /** Where the loop over the children stands: at the k-th child, behind k copies. */
  ghost predicate Copying(item: Node, newitem: Node, child: Node?, last: Node?, copies: seq<Node>, nodes: set<Node>)
    reads item`children, item`tree, newitem`child, copies`next, copies`prev, copies`below, copies`tree, nodes
  {
    && |copies| <= |item.children| == |item.tree.children| && child == Nth(item.children, |copies|)
    && newitem !in nodes && Copies(copies, nodes, item.tree.children[..|copies|])
    && Linked(newitem.child, copies, null) && last == Nth(copies, |copies| - 1)
  }

  /** From one child to the next. */
  method CopyChild(item: Node, newitem: Node, child: Node, last: Node?, ghost all: set<Node>, ghost copies: seq<Node>,
                   ghost nodes: set<Node>)
    returns (newchild: Node)
    requires Sound(all) && item in all && newitem !in all && all !! nodes
    requires Copying(item, newitem, child, last, copies, nodes)
    modifies newitem`child, copies`next
    ensures fresh({newchild} + newchild.below)
    ensures Copying(item, newitem, child.next, newchild, copies + [newchild], nodes + ({newchild} + newchild.below))
    decreases item.tree, 0
  {
    ghost var k := |copies|;
    assert item.Local() && Joined(item.children, k, Nth(item.children, |item.children| - 1));
    assert child in all && child.tree == item.tree.children[k];
    newchild := CopyNext(newitem, child, last, all, copies, nodes, item.tree.children[..k]);
    TakeOneMore(item.tree.children, k);
  }

  /** The loop over the children, up to the last link from the first copy to the last one. */
  method CopyChildren(item: Node, newitem: Node, ghost all: set<Node>)
    returns (last: Node?, ghost copies: seq<Node>, ghost nodes: set<Node>)
    requires Sound(all) && item in all && newitem !in all && newitem.child == null
    modifies newitem`child
    ensures fresh(nodes) && Copying(item, newitem, null, last, copies, nodes) && |copies| == |item.children|
    decreases item.tree, 1
  {
    copies, nodes, last := [], {}, null;
    assert item.Local();
    var child := item.child;
    while child != null
      invariant fresh(nodes) && Copying(item, newitem, child, last, copies, nodes)
      decreases |item.children| - |copies|
    {
      var newchild := CopyChild(item, newitem, child, last, all, copies, nodes);
      copies, nodes := copies + [newchild], nodes + ({newchild} + newchild.below);
      last := newchild;
      child := child.next;
    }
  }

  /** The link from the first copy to the last one closes the list. */
  method CloseList(newitem: Node, last: Node?, ghost copies: seq<Node>, ghost nodes: set<Node>, ghost trees: seq<Tree>)
    requires newitem !in nodes && Copies(copies, nodes, trees)
    requires Linked(newitem.child, copies, null) && last == Nth(copies, |copies| - 1)
    modifies copies`prev
    ensures Copies(copies, nodes, trees) && Linked(newitem.child, copies, last)
  {
    if newitem.child != null {
      newitem.child.prev := last;
    }
    forall i | 0 <= i < |copies| ensures Joined(copies, i, last) {
      assert old(Joined(copies, i, null));
    }
    forall n | n in nodes ensures n.Local() {
      assert old(n.Local());
      forall i | 0 <= i < |copies| ensures copies[i] !in n.children {
        assert old(Topmost(copies[i], nodes));
      }
    }
  }

  /** The copies become the new node's children, which changes nothing about them. */
  method SetChildren(newitem: Node, ghost copies: seq<Node>, ghost nodes: set<Node>, ghost trees: seq<Tree>)
    requires newitem !in nodes && Copies(copies, nodes, trees)
    modifies newitem`children, newitem`below, newitem`tree
    ensures newitem.children == copies && newitem.below == nodes && newitem.tree == Tree(newitem.vars, trees)
    ensures Sound(nodes)
  {
    newitem.children, newitem.below, newitem.tree := copies, nodes, Tree(newitem.vars, trees);
    forall n | n in nodes ensures n.Local() {
      assert old(n.Local());
    }
  }

  method Adopt(newitem: Node, ghost last: Node?, ghost copies: seq<Node>, ghost nodes: set<Node>,
               ghost trees: seq<Tree>)
    requires newitem !in nodes && Copies(copies, nodes, trees)
    requires Linked(newitem.child, copies, last) && last == Nth(copies, |copies| - 1)
    modifies newitem`children, newitem`below, newitem`tree
    ensures newitem.below == nodes && newitem.tree == Tree(newitem.vars, trees)
    ensures Sound({newitem} + nodes) && Topmost(newitem, {newitem} + nodes)
  {
    assert forall i :: 0 <= i < |copies| ==> copies[i] in nodes && copies[i].below <= nodes;
    SetChildren(newitem, copies, nodes, trees);
    assert Hold(copies, trees) && Apart(copies) && Linked(newitem.child, copies, last);
    assert newitem.Local();
    SoundWithRoot(newitem, nodes);
  }

  /** The recursive half of cJSON_Duplicate, for a new node that is still without children. */
  method DuplicateChildren(item: Node, newitem: Node, ghost all: set<Node>)
    requires Sound(all) && item in all && newitem !in all && newitem.child == null && newitem.vars == item.vars
    modifies newitem`child, newitem`children, newitem`below, newitem`tree
    ensures fresh(newitem.below) && newitem.tree == item.tree
    ensures Sound({newitem} + newitem.below) && Topmost(newitem, {newitem} + newitem.below)
    decreases item.tree, 2
  {
    assert item.Local();
    var last;
    ghost var copies, nodes;
    last, copies, nodes := CopyChildren(item, newitem, all);
    assert item.tree.children[..|copies|] == item.tree.children;
    CloseList(newitem, last, copies, nodes, item.tree.children);
    Adopt(newitem, last, copies, nodes, item.tree.children);
  }

  /** cJSON_Duplicate: new nodes only, well linked, the returned one on top of the others, which hold the same. */
  method Duplicate(item: Node, recurse: bool, ghost all: set<Node>) returns (newitem: Node)
    requires Sound(all) && item in all
    ensures fresh({newitem} + newitem.below) && newitem.prev == newitem.next == null
    ensures Sound({newitem} + newitem.below) && Topmost(newitem, {newitem} + newitem.below)
    ensures newitem.tree == if recurse then item.tree else item.tree.(children := [])
    ensures recurse ==> forall fmt :: Printed(newitem.tree, fmt) == Printed(item.tree, fmt)
    decreases item.tree, 3
  {
    newitem := new Node();
    newitem.vars := item.vars;
    if recurse {
      DuplicateChildren(item, newitem, all);
    } else {
      assert item.Local();
      Adopt(newitem, null, [], {}, []);
    }
  }
}
