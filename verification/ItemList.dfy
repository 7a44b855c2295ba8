/** The children of a cJSON array or object: a doubly linked list whose first element's prev is the last. */
module ItemList {
  import opened Sequences

  ghost function Nth(s: seq<Item>, i: int): Item? {
    if 0 <= i < |s| then s[i] else null
  }

  /** The element at i knows both its neighbours; the first one's predecessor is the last. */
  ghost predicate Joined(s: seq<Item>, i: nat)
    requires i < |s|
    reads s`prev, s`next
  {
    s[i].next == Nth(s, i + 1) && s[i].prev == s[if i == 0 then |s| - 1 else i - 1]
  }

  ghost predicate Linked(child: Item?, s: seq<Item>)
    reads s`prev, s`next
  {
    child == Nth(s, 0) && forall i :: 0 <= i < |s| ==> Joined(s, i)
  }

  ghost function Only(item: Item?): set<Item> {
    if item == null then {} else {item}
  }

  // ---- The matching operations on sequences

  /** Detaching takes back an insertion at the same place. */
  lemma InsertThenDetach(s: seq<Item>, k: nat, t: Item)
    requires k <= |s|
    ensures Removed(Inserted(s, k, t), k) == s
  {
  }

  /** Replacing is detaching and inserting at the same place. */
  lemma ReplaceIsDetachThenInsert(s: seq<Item>, k: nat, t: Item)
    requires k < |s|
    ensures Inserted(Removed(s, k), k, t) == s[k := t]
  {
  }

  class Item {
    var child: Item?
    var prev: Item?
    var next: Item?
    ghost var children: seq<Item>

    ghost predicate Valid()
      reads this, children
    {
      Linked(child, children) && NoRepeats(children) && this !in children
    }

    /** cJSON_New_Item: a node that is in no list and has no children. */
    constructor ()
      ensures Valid() && children == [] && prev == next == null
    {
      child, prev, next := null, null, null;
      children := [];
    }

    /** get_array_item: the element at an index, or nothing behind the end. */
    method GetArrayItem(index: nat) returns (r: Item?)
      requires Valid()
      ensures r == Nth(children, index)
    {
      r := child;
      var i := index;
      ghost var k := 0;
      while r != null && i > 0
        invariant 0 <= k && i + k == index && r == Nth(children, k)
      {
        assert Joined(children, k);
        r := r.next;
        i := i - 1;
        k := k + 1;
      }
    }

    /** cJSON_GetArraySize */
    method GetArraySize() returns (size: nat)
      requires Valid()
      ensures size == |children|
    {
      size := 0;
      var c := child;
      while c != null
        invariant size <= |children| && c == Nth(children, size)
        decreases |children| - size
      {
        assert Joined(children, size);
        size := size + 1;
        c := c.next;
      }
    }

    /** add_item_to_array, for an item that is in no list */
    method AddItemToArray(item: Item?) returns (ok: bool)
      requires Valid() && item !in children && (item != null ==> item.next == null)
      modifies this`child, this`children, children`prev, children`next
      modifies Only(item)`prev, Only(item)`next
      ensures ok == (item != null && item != this) && Valid()
      ensures children == if ok then old(children) + [item] else old(children)
    {
      if item == null || item == this {
        return false;
      }
      if child == null {
        child := item;
        item.prev := item;
        item.next := null;
      } else {
        assert Joined(children, 0) && Joined(children, |children| - 1);
        child.prev.next := item;
        item.prev := child.prev;
        child.prev := item;
      }
      children := children + [item];
      forall i | 0 <= i < |children| ensures Joined(children, i) {
        assert i < |children| - 1 ==> old(Joined(children, i));
      }
      ok := true;
    }

    /** The relinking of cJSON_DetachItemViaPointer around the element at k. */
    method Unlink(item: Item, ghost s: seq<Item>, ghost k: nat)
      requires Linked(child, s) && NoRepeats(s) && k < |s| && s[k] == item
      modifies this`child, s`prev, s`next
      ensures Linked(child, Removed(s, k)) && item.prev == item.next == null
    {
      assert Joined(s, 0) && Joined(s, k) && Joined(s, |s| - 1);
      if item != child {
        item.prev.next := item.next;
      }
      if item.next != null {
        item.next.prev := item.prev;
      }
      if item == child {
        child := item.next;
      } else if item.next == null {
        child.prev := item.prev;
      }
      item.prev := null;
      item.next := null;
      ghost var r := Removed(s, k);
      forall i | 0 <= i < |r| ensures Joined(r, i) {
        assert old(Joined(s, if i < k then i else i + 1));
      }
    }

    /** cJSON_DetachItemViaPointer, for an item of this list or none */
    method DetachItemViaPointer(item: Item?, ghost k: nat) returns (r: Item?)
      requires Valid() && (item != null ==> k < |children| && children[k] == item)
      modifies this`child, this`children, children`prev, children`next
      ensures r == item && Valid()
      ensures children == if item == null then old(children) else Removed(old(children), k)
      ensures item != null ==> item.prev == item.next == null && item !in children
    {
      if item == null {
        return null;
      }
      Unlink(item, children, k);
      children := Removed(children, k);
      r := item;
    }

    /** cJSON_DetachItemFromArray */
    method DetachItemFromArray(which: int) returns (r: Item?)
      requires Valid()
      modifies this`child, this`children, children`prev, children`next
      ensures Valid() && r == old(Nth(children, which))
      ensures children == if 0 <= which < |old(children)| then Removed(old(children), which) else old(children)
      ensures r != null ==> r.prev == r.next == null && r !in children
    {
      if which < 0 {
        return null;
      }
      var item := GetArrayItem(which);
      r := DetachItemViaPointer(item, which);
    }

    /** The relinking of cJSON_InsertItemInArray in front of an element of the list. */
    method LinkBefore(newitem: Item, after_inserted: Item, ghost s: seq<Item>, ghost k: nat)
      requires Linked(child, s) && NoRepeats(s) && k < |s| && s[k] == after_inserted && newitem !in s
      modifies this`child, s`prev, s`next, newitem`prev, newitem`next
      ensures Linked(child, Inserted(s, k, newitem))
    {
      assert Joined(s, k);
      newitem.next := after_inserted;
      newitem.prev := after_inserted.prev;
      after_inserted.prev := newitem;
      if after_inserted == child {
        child := newitem;
      } else {
        newitem.prev.next := newitem;
      }
      ghost var r := Inserted(s, k, newitem);
      forall i | 0 <= i < |r| ensures Joined(r, i) {
        assert i < k ==> old(Joined(s, i));
        assert i > k ==> old(Joined(s, i - 1));
      }
    }

    method InsertBefore(newitem: Item, after_inserted: Item, ghost k: nat)
      requires Valid() && k < |children| && children[k] == after_inserted && newitem !in children && newitem != this
      modifies this`child, this`children, children`prev, children`next, newitem`prev, newitem`next
      ensures Valid() && children == Inserted(old(children), k, newitem)
    {
      LinkBefore(newitem, after_inserted, children, k);
      children := Inserted(children, k, newitem);
    }

    /** cJSON_InsertItemInArray, for an item that is in no list; behind the end it appends. */
    method InsertItemInArray(which: int, newitem: Item) returns (ok: bool)
      requires Valid() && newitem !in children && newitem != this && newitem.next == null
      modifies this`child, this`children, children`prev, children`next, newitem`prev, newitem`next
      ensures Valid() && ok == (which >= 0)
      ensures children == if which < 0 then old(children)
                          else if which < |old(children)| then Inserted(old(children), which, newitem)
                          else Inserted(old(children), |old(children)|, newitem)
    {
      if which < 0 {
        return false;
      }
      var after_inserted := GetArrayItem(which);
      if after_inserted == null {
        ok := AddItemToArray(newitem);
      } else {
        InsertBefore(newitem, after_inserted, which);
        ok := true;
      }
    }

    /** The relinking of cJSON_ReplaceItemViaPointer. */
    method Relink(item: Item, replacement: Item, ghost k: nat)
      requires Valid() && k < |children| && children[k] == item && replacement !in children && replacement != this
      modifies this`child, this`children, children`prev, children`next, replacement`prev, replacement`next
      ensures Valid() && children == old(children)[k := replacement]
      ensures item.prev == item.next == null && item !in children
    {
      assert Joined(children, 0) && Joined(children, k) && Joined(children, |children| - 1);
      replacement.next := item.next;
      replacement.prev := item.prev;
      if replacement.next != null {
        replacement.next.prev := replacement;
      }
      if child == item {
        if child.prev == child {
          replacement.prev := replacement;
        }
        child := replacement;
      } else {
        if replacement.prev != null {
          replacement.prev.next := replacement;
        }
        if replacement.next == null {
          child.prev := replacement;
        }
      }
      item.next := null;
      item.prev := null;
      children := children[k := replacement];
      forall i | 0 <= i < |children| ensures Joined(children, i) {
        assert old(Joined(children, i));
      }
    }

    /** cJSON_ReplaceItemViaPointer, up to the deletion of the replaced item */
    method ReplaceItemViaPointer(item: Item?, replacement: Item?, ghost k: nat) returns (ok: bool)
      requires Valid() && (item != null ==> k < |children| && children[k] == item)
      requires replacement != null && replacement != item ==> replacement !in children && replacement != this
      modifies this`child, this`children, children`prev, children`next
      modifies Only(replacement)`prev, Only(replacement)`next
      ensures Valid() && ok == (item != null && replacement != null)
      ensures children == if ok then old(children)[k := replacement] else old(children)
      ensures ok && item != replacement ==> item.prev == item.next == null && item !in children
    {
      if replacement == null || item == null {
        return false;
      }
      if replacement != item {
        Relink(item, replacement, k);
      }
      ok := true;
    }

    /** cJSON_ReplaceItemInArray */
    method ReplaceItemInArray(which: int, newitem: Item?) returns (ok: bool)
      requires Valid() && newitem !in children && newitem != this
      modifies this`child, this`children, children`prev, children`next
      modifies Only(newitem)`prev, Only(newitem)`next
      ensures Valid() && ok == (0 <= which < |old(children)| && newitem != null)
      ensures children == if ok then old(children)[which := newitem] else old(children)
    {
      if which < 0 {
        return false;
      }
      var item := GetArrayItem(which);
      ok := ReplaceItemViaPointer(item, newitem, which);
    }
  }
}
