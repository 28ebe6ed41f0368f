/** The linked list of FSItems that src/extfs.cpp keeps, and the operations on it. */
module ExtFsList {
  import opened Machine
  import opened ExtFs

  class FSItem {
    var next: FSItem?
    var id: nat
    var parentId: nat
    const parent: FSItem?
    const name: string

    constructor (id: nat, parentId: nat, parent: FSItem?, name: string)
      ensures next == null && this.id == id && this.parentId == parentId && this.parent == parent && this.name == name
    {
      next, this.id, this.parentId, this.parent, this.name := null, id, parentId, parent, name;
    }
  }

  datatype Status = NoErr | DupFNErr | HostError

  class Catalog {
    var first: FSItem
    var last: FSItem
    var nextCnid: nat
    var fullPath: Path
    /** The items in list order, and the catalog they stand for. */
    ghost var items: seq<FSItem>
    ghost var tree: Tree

    ghost predicate Linked()
      reads this, items
    {
      && |items| >= 2 && first == items[0] && last == items[|items| - 1]
      && (forall i {:trigger items[i].next} :: 0 <= i < |items| ==> items[i].next == if i + 1 < |items| then items[i + 1] else null)
    }

    ghost predicate Distinct()
      reads this
    {
      forall i, j :: 0 <= i < j < |items| ==> items[i] != items[j]
    }

    ghost predicate Shows()
      reads this, items
    {
      && |tree| == |items| && Shape(tree)
      && (forall i :: 0 <= i < |items| ==> items[i].id == tree[i].id && items[i].parentId == tree[i].parentId)
      && (forall i :: 0 <= i < |items| ==> items[i].name == tree[i].name)
      && items[0].parent == null
      && (forall i {:trigger items[i].parent} :: 1 <= i < |items| ==> items[i].parent == items[tree[i].up])
    }

    ghost predicate Valid()
      reads this, items
    {
      Linked() && Distinct() && Shows()
    }

    /** ExtFSInit. */
    constructor (volume: string)
      ensures Valid() && tree == Initial(volume) && nextCnid == 16
      ensures fresh(items)
    {
      var p := new FSItem(ROOT_PARENT_ID, 0, null, "");
      var q := new FSItem(ROOT_ID, ROOT_PARENT_ID, p, Stored(volume));
      p.next := q;
      first, last, nextCnid, fullPath := p, q, FIRST_USER_ID, Nowhere;
      items, tree := [p, q], Initial(volume);
    }

    method FindById(cnid: nat) returns (p: FSItem?)
      requires Valid()
      ensures var i := IndexOfId(tree, cnid); p == if i < |items| then items[i] else null
    {
      p := first;
      ghost var i := 0;
      while p != null
        invariant 0 <= i <= |items| && p == if i < |items| then items[i] else null
        invariant forall j :: 0 <= j < i ==> tree[j].id != cnid
        decreases |items| - i
      {
        if p.id == cnid {
          return p;
        }
        p := p.next;
        i := i + 1;
      }
    }

    /** The search loop of find_fsitem. */
    method FindChild(name: string, dir: FSItem, ghost up: nat) returns (q: FSItem?, ghost at: nat)
      requires Valid() && up < |items| && items[up] == dir
      ensures at == IndexOfChild(tree, name, up) && q == if at < |items| then items[at] else null
    {
      q, at := first, 0;
      while q != null
        invariant 0 <= at <= |items| && q == if at < |items| then items[at] else null
        invariant forall j :: 0 <= j < at ==> tree[j].up != up || tree[j].name != name
        decreases |items| - at
      {
        if q.parent == dir && q.name == name {
          return;
        }
        q := q.next;
        at := at + 1;
      }
    }

    /** find_fsitem: the item named `name` in `dir`, made if it does not exist. */
    method FindItem(name: string, dir: FSItem, ghost up: nat) returns (p: FSItem, ghost at: nat)
      requires Valid() && up < |items| && items[up] == dir
      modifies this`last, this`nextCnid, this`items, this`tree, last`next
      ensures Valid() && old(items) <= items && at < |items| && items[at] == p
      ensures (tree, nextCnid, at) == Found(old(tree), old(nextCnid), name, up)
      ensures items == old(items) || (items == old(items) + [p] && fresh(p))
    {
      hide IndexOfChild, Stored;
      var q;
      q, at := FindChild(name, dir, up);
      if q != null {
        return q, at;
      }
      p := new FSItem(nextCnid, dir.id, dir, Stored(name));
      last.next := p;
      last := p;
      tree := Added(tree, nextCnid, name, up);
      items := items + [p];
      nextCnid := (nextCnid + 1) % TWO32;
    }

    /** get_path_for_fsitem leaves the path in full_path. */
    method GetPath(p: FSItem, ghost i: nat)
      requires Valid() && i < |items| && items[i] == p && items[0].id == ROOT_PARENT_ID
      modifies this`fullPath
      ensures fullPath == PathAt(tree, i)
      decreases i
    {
      if p.id == ROOT_PARENT_ID {
        fullPath := Nowhere;
      } else if p.id == ROOT_ID {
        fullPath := VolumeRoot;
      } else {
        GetPath(p.parent, tree[i].up);
        fullPath := Below(fullPath, p.name);
      }
    }

    /** The loop of swap_parent_ids. */
    method SwapLoop(a: nat, b: nat)
      requires Linked() && Distinct()
      modifies items`parentId
      ensures forall j :: 0 <= j < |items| ==> items[j].parentId == Transposed(old(items[j].parentId), a, b)
    {
      var p: FSItem? := first;
      ghost var i := 0;
      while p != null
        invariant 0 <= i <= |items| && p == if i < |items| then items[i] else null
        invariant forall j :: 0 <= j < i ==> items[j].parentId == Transposed(old(items[j].parentId), a, b)
        invariant forall j :: i <= j < |items| ==> items[j].parentId == old(items[j].parentId)
        decreases |items| - i
      {
        assert items[i].next == old(items[i].next);
        if p.parentId == a {
          p.parentId := b;
        } else if p.parentId == b {
          p.parentId := a;
        }
        p := p.next;
        i := i + 1;
      }
    }

    /** swap_parent_ids. */
    method SwapParentIds(a: nat, b: nat)
      requires Valid()
      modifies this`tree, items`parentId
      ensures Valid() && tree == SwappedParents(old(tree), a, b)
    {
      hide SwappedParents, Shape, Transposed;
      SwapLoop(a, b);
      SwappedParentsAt(tree, a, b);
      tree := SwappedParents(tree, a, b);
    }

    method ExchangeIds(item: FSItem, target: FSItem, ghost i: nat, ghost j: nat)
      requires Distinct() && i < |items| && items[i] == item && j < |items| && items[j] == target
      modifies item`id, target`id
      ensures forall k :: 0 <= k < |items| ==>
        items[k].id == if k == j then old(item.id) else if k == i then old(target.id) else old(items[k].id)
    {
      var t := item.id;
      item.id := target.id;
      target.id := t;
    }

    /** The exchange of ids that ends fs_rename and fs_cat_move. */
    method SwapIds(item: FSItem, target: FSItem, ghost i: nat, ghost j: nat)
      requires Valid() && i < |items| && items[i] == item && j < |items| && items[j] == target
      modifies this`tree, items`parentId, item`id, target`id
      ensures Valid() && tree == Renamed(old(tree), i, j)
    {
      hide SwappedParents, SwappedIds, Shape;
      SwapParentIds(item.id, target.id);
      SwappedIdsAt(tree, i, j);
      ExchangeIds(item, target, i, j);
      tree := SwappedIds(tree, i, j);
    }

    /** The end of fs_rename, for the items of the old and the new name. Whether the new name is taken
        and whether the host renames the file is the host's answer. */
    method RenameItem(item: FSItem, target: FSItem, taken: bool, renamed: bool, ghost i: nat, ghost j: nat) returns (status: Status)
      requires Valid() && i < |items| && items[i] == item && j < |items| && items[j] == target
      modifies this`tree, items`parentId, item`id, target`id
      ensures Valid() && status == if taken then DupFNErr else if renamed then NoErr else HostError
      ensures tree == if status == NoErr then Renamed(old(tree), i, j) else old(tree)
    {
      if taken {
        return DupFNErr;
      }
      if !renamed {
        return HostError;
      }
      SwapIds(item, target, i, j);
      return NoErr;
    }

    /** The end of fs_cat_move: the target is looked up, and made, only after the host moved the file. */
    method MoveItem(item: FSItem, dir: FSItem, taken: bool, renamed: bool, ghost i: nat, ghost up: nat) returns (status: Status)
      requires Valid() && i < |items| && items[i] == item && up < |items| && items[up] == dir
      modifies this`last, this`nextCnid, this`items, this`tree, last`next, items`parentId, items`id
      ensures Valid() && status == if taken then DupFNErr else if renamed then NoErr else HostError
      ensures (tree, nextCnid) ==
        if status == NoErr then
          var f := Found(old(tree), old(nextCnid), item.name, up); (Renamed(f.0, i, f.2), f.1)
        else (old(tree), old(nextCnid))
    {
      if taken {
        return DupFNErr;
      }
      if !renamed {
        return HostError;
      }
      var target, at := FindItem(item.name, dir, up);
      SwapIds(item, target, i, at);
      return NoErr;
    }
  }
}
