/** The catalog of the external file system, src/extfs.cpp: which CNID denotes which path. */
module ExtFs {
  import opened Machine

  const ROOT_PARENT_ID := 1
  const ROOT_ID := 2
  const FIRST_USER_ID := 16
  const NAME_SIZE := 32

  /** One FSItem; `up` is the place of its parent in the list, -1 for none. */
  datatype Entry = Entry(id: nat, parentId: nat, up: int, name: string)
  type Tree = seq<Entry>

  /** A full path before it is spelled out: the volume directory and the names below it. */
  datatype Path = Nowhere | VolumeRoot | Below(dir: Path, name: string)

  /** Parents come before their children. */
  predicate Shape(t: Tree) {
    && |t| >= 2 && t[0].up == -1 && t[1].up == 0
    && forall i :: 1 <= i < |t| ==> 0 <= t[i].up < i
  }

  predicate UniqueIds(t: Tree) { forall i, j :: 0 <= i < j < |t| ==> t[i].id != t[j].id }

  predicate IdsBelow(t: Tree, next: nat) { forall i :: 0 <= i < |t| ==> 1 <= t[i].id < next }

  predicate ParentIds(t: Tree)
    requires Shape(t)
  {
    && t[0].parentId == 0
    && forall i {:trigger t[i].parentId} :: 1 <= i < |t| ==> t[i].parentId == t[t[i].up].id
  }

  predicate UniqueNames(t: Tree) {
    forall i, j :: 0 <= i < j < |t| ==> t[i].up != t[j].up || t[i].name != t[j].name
  }

  predicate Good(t: Tree, next: nat) {
    && Shape(t) && t[0].id == ROOT_PARENT_ID && t[1].id == ROOT_ID && next >= FIRST_USER_ID
    && UniqueIds(t) && IdsBelow(t, next) && ParentIds(t) && UniqueNames(t)
  }

  // ---- The operations, as values ----

  function Initial(volume: string): Tree {
    [Entry(ROOT_PARENT_ID, 0, -1, ""), Entry(ROOT_ID, ROOT_PARENT_ID, 0, Stored(volume))]
  }

  /** What fits into the name field. */
  function Stored(name: string): string { if |name| <= NAME_SIZE then name else name[..NAME_SIZE] }

  function IndexOfId(t: Tree, id: nat): (i: nat)
    ensures i <= |t|
    ensures i < |t| ==> t[i].id == id
    ensures forall j :: 0 <= j < i ==> t[j].id != id
  {
    if t == [] then 0 else if t[0].id == id then 0 else IndexOfId(t[1..], id) + 1
  }

  function IndexOfChild(t: Tree, name: string, up: int): (i: nat)
    ensures i <= |t|
    ensures i < |t| ==> t[i].up == up && t[i].name == name
    ensures forall j :: 0 <= j < i ==> t[j].up != up || t[j].name != name
  {
    if t == [] then 0 else if t[0].up == up && t[0].name == name then 0 else IndexOfChild(t[1..], name, up) + 1
  }

  function Added(t: Tree, next: nat, name: string, up: nat): Tree
    requires up < |t|
  {
    t + [Entry(next, t[up].id, up, Stored(name))]
  }

  /** find_fsitem: the child's place, and the list with it. */
  function Found(t: Tree, next: nat, name: string, up: nat): (r: (Tree, nat, nat))
    requires up < |t|
    ensures r.2 < |r.0| && t <= r.0
  {
    var i := IndexOfChild(t, name, up);
    if i < |t| then (t, next, i) else (Added(t, next, name, up), (next + 1) % TWO32, |t|)
  }

  function Transposed(x: nat, a: nat, b: nat): nat { if x == a then b else if x == b then a else x }

  function SwappedParents(t: Tree, a: nat, b: nat): (r: Tree)
    ensures |r| == |t|
  {
    seq(|t|, i requires 0 <= i < |t| => t[i].(parentId := Transposed(t[i].parentId, a, b)))
  }

  function SwappedIds(t: Tree, i: nat, j: nat): (r: Tree)
    requires i < |t| && j < |t|
    ensures |r| == |t|
  {
    t[i := t[i].(id := t[j].id)][j := t[j].(id := t[i].id)]
  }

  /** What a successful rename or move does to the list. */
  function Renamed(t: Tree, i: nat, j: nat): (r: Tree)
    requires i < |t| && j < |t|
    ensures |r| == |t|
  {
    SwappedIds(SwappedParents(t, t[i].id, t[j].id), i, j)
  }

  // ---- Paths ----

  function PathAt(t: Tree, i: nat): Path
    requires Shape(t) && i < |t|
  {
    if t[i].id == ROOT_PARENT_ID || i == 0 then Nowhere
    else if t[i].id == ROOT_ID then VolumeRoot
    else Below(PathAt(t, t[i].up), t[i].name)
  }

  /** The path a CNID denotes. */
  function PathOf(t: Tree, id: nat): Option<Path>
    requires Shape(t)
  {
    var i := IndexOfId(t, id);
    if i < |t| then Some(PathAt(t, i)) else None
  }

  lemma IndexIs(t: Tree, id: nat, i: nat)
    requires UniqueIds(t) && i < |t| && t[i].id == id
    ensures IndexOfId(t, id) == i
  {
  }

  lemma IndexNone(t: Tree, id: nat)
    requires forall i :: 0 <= i < |t| ==> t[i].id != id
    ensures IndexOfId(t, id) == |t|
  {
  }

  /** Two items never denote the same path. */
  lemma {:induction false} PathsDiffer(t: Tree, next: nat, i: nat, j: nat)
    requires Good(t, next) && i < |t| && j < |t| && PathAt(t, i) == PathAt(t, j)
    ensures i == j
    decreases i + j
  {
    PathShape(t, next, i);
    PathShape(t, next, j);
    if i >= 2 {
      PathsDiffer(t, next, t[i].up, t[j].up);
    }
  }

  lemma PathShape(t: Tree, next: nat, i: nat)
    requires Good(t, next) && i < |t|
    ensures PathAt(t, i) ==
      if i == 0 then Nowhere else if i == 1 then VolumeRoot else Below(PathAt(t, t[i].up), t[i].name)
  {
    if i >= 2 {
      FixedIds(t, next, i);
    }
  }

  /** So no two CNIDs do. */
  lemma CnidsDifferInPath(t: Tree, next: nat, a: nat, b: nat)
    requires Good(t, next) && PathOf(t, a).Some? && PathOf(t, a) == PathOf(t, b)
    ensures a == b
  {
    PathsDiffer(t, next, IndexOfId(t, a), IndexOfId(t, b));
  }

  function Fixed(id: nat): nat { if id == ROOT_PARENT_ID || id == ROOT_ID then id else 0 }

  /** A path depends on links and names only, and on where the two fixed ids are. */
  lemma {:induction false} SamePath(t: Tree, u: Tree, i: nat)
    requires Shape(t) && Shape(u) && i < |t| && i < |u|
    requires forall k :: 0 <= k <= i ==> t[k].up == u[k].up && t[k].name == u[k].name
    requires forall k :: 0 <= k <= i ==> Fixed(t[k].id) == Fixed(u[k].id)
    ensures PathAt(t, i) == PathAt(u, i)
  {
    assert Fixed(t[i].id) == Fixed(u[i].id);
    if i > 0 && t[i].id != ROOT_PARENT_ID && t[i].id != ROOT_ID {
      SamePath(t, u, t[i].up);
    }
  }

  // ---- Looking up ----

  lemma AddedNames(t: Tree, next: nat, name: string, up: nat)
    requires UniqueNames(t) && up < |t|
    ensures UniqueNames(Added(t, next, name, up)) <==> IndexOfChild(t, Stored(name), up) == |t|
  {
    hide Stored;
    var u := Added(t, next, name, up);
    var s := IndexOfChild(t, Stored(name), up);
    if s < |t| {
      assert u[s].up == u[|t|].up && u[s].name == u[|t|].name;
    }
  }

  lemma AddedIds(t: Tree, next: nat, name: string, up: nat)
    requires Good(t, next) && up < |t|
    ensures var u := Added(t, next, name, up);
      && Shape(u) && UniqueIds(u) && IdsBelow(u, next + 1) && ParentIds(u) && u[0] == t[0] && u[1] == t[1]
  {
    hide UniqueNames, Stored;
  }

  /** A lookup keeps the catalog good exactly when it finds the item, or the id counter does not wrap and
      the name fits the field or no sibling has the cut name. */
  lemma FindKeeps(t: Tree, next: nat, name: string, up: nat)
    requires Good(t, next) && up < |t| && next < TWO32
    ensures var r := Found(t, next, name, up);
      Good(r.0, r.1) <==>
        || IndexOfChild(t, name, up) < |t|
        || (next < 0xffff_ffff && (|name| <= 32 || IndexOfChild(t, name[..32], up) == |t|))
  {
    hide Shape, UniqueIds, IdsBelow, ParentIds, UniqueNames, IndexOfChild, Added;
    AddedIds(t, next, name, up);
    AddedNames(t, next, name, up);
  }

  lemma FoundPrefix(t: Tree, next: nat, name: string, up: nat, i: nat)
    requires Good(t, next) && up < |t| && i < |t|
    ensures var u := Found(t, next, name, up).0; Shape(u) && PathAt(u, i) == PathAt(t, i)
  {
    hide UniqueNames, IndexOfChild;
    AddedIds(t, next, name, up);
    SamePath(t, Found(t, next, name, up).0, i);
  }

  /** A lookup changes no path. */
  lemma FindPaths(t: Tree, next: nat, name: string, up: nat, id: nat)
    requires Good(t, next) && up < |t| && PathOf(t, id).Some?
    ensures var u := Found(t, next, name, up).0; Shape(u) && PathOf(u, id) == PathOf(t, id)
  {
    hide Found, Good, PathAt;
    var u := Found(t, next, name, up).0;
    PrefixIndex(t, u, id);
    FoundPrefix(t, next, name, up, IndexOfId(t, id));
  }

  /** The path of the child of a directory. The root is the child of its parent with the volume's name. */
  function ChildPath(p: Path, name: string, volume: string): Path {
    if p == Nowhere && name == volume then VolumeRoot else Below(p, name)
  }

  /** A lookup gives the item with that path. */
  lemma FindsChild(t: Tree, next: nat, name: string, up: nat)
    requires Good(t, next) && up < |t| && |name| <= NAME_SIZE
    ensures var r := Found(t, next, name, up);
      && Shape(r.0) && r.0[1].name == t[1].name && PathAt(r.0, r.2) == ChildPath(PathAt(t, up), name, t[1].name)
  {
    hide IndexOfChild, PathAt;
    AddedIds(t, next, name, up);
    FoundPrefix(t, next, name, up, up);
    PathShape(t, next, up);
    var r := Found(t, next, name, up);
    if r.2 < |t| {
      FoundPrefix(t, next, name, up, r.2);
      PathShape(t, next, r.2);
      FindsRoot(t, next, name, up);
    } else {
      FindsRoot(t, next, name, up);
      NewPath(t, next, name, up);
    }
  }

  /** The root is found exactly as the child of its parent with the volume's name. */
  lemma FindsRoot(t: Tree, next: nat, name: string, up: nat)
    requires Good(t, next) && up < |t|
    ensures IndexOfChild(t, name, up) == 1 <==> up == 0 && name == t[1].name
    ensures IndexOfChild(t, name, up) != 0
  {
    hide UniqueNames, IndexOfChild;
    assert t[0].up != up;
  }

  lemma NewPath(t: Tree, next: nat, name: string, up: nat)
    requires Good(t, next) && up < |t| && |name| <= NAME_SIZE
    ensures Shape(Added(t, next, name, up)) && PathAt(Added(t, next, name, up), |t|) == Below(PathAt(t, up), name)
  {
    hide UniqueNames;
    AddedIds(t, next, name, up);
    SamePath(t, Added(t, next, name, up), up);
  }

  lemma PrefixIndex(t: Tree, u: Tree, id: nat)
    requires t <= u && IndexOfId(t, id) < |t|
    ensures IndexOfId(u, id) == IndexOfId(t, id)
  {
    assert forall k :: 0 <= k < |t| ==> u[k] == t[k];
  }

  /** Looking the same name up again finds the same item exactly when the name fits the field. */
  lemma FindAgain(t: Tree, next: nat, name: string, up: nat)
    requires up < |t| && IndexOfChild(t, name, up) == |t|
    ensures var r := Found(t, next, name, up);
      Found(r.0, r.1, name, up) == (r.0, r.1, r.2) <==> |name| <= 32
  {
    var u := Added(t, next, name, up);
    var i := IndexOfChild(u, name, up);
    assert forall k :: 0 <= k < |t| ==> u[k] == t[k];
    assert u[|t|] == Entry(next, t[up].id, up, Stored(name));
    assert Stored(name) == name <==> |name| <= NAME_SIZE;
    assert i == |t| <==> |name| <= NAME_SIZE;
  }

  // ---- Renaming ----

  lemma SwappedIdsAt(t: Tree, i: nat, j: nat)
    requires i < |t| && j < |t|
    ensures var r := SwappedIds(t, i, j);
      && (forall k :: 0 <= k < |t| ==> r[k] == t[k].(id := if k == j then t[i].id else if k == i then t[j].id else t[k].id))
      && (Shape(t) ==> Shape(r))
  {
  }

  lemma SwappedParentsAt(t: Tree, a: nat, b: nat)
    ensures var r := SwappedParents(t, a, b);
      && (forall k :: 0 <= k < |t| ==> r[k] == t[k].(parentId := Transposed(t[k].parentId, a, b)))
      && (Shape(t) ==> Shape(r))
  {
  }

  lemma RenamedAt(t: Tree, i: nat, j: nat, k: nat)
    requires i < |t| && j < |t| && k < |t| && UniqueIds(t)
    ensures Renamed(t, i, j)[k] ==
      t[k].(id := Transposed(t[k].id, t[i].id, t[j].id), parentId := Transposed(t[k].parentId, t[i].id, t[j].id))
  {
  }

  lemma RenamedAll(t: Tree, i: nat, j: nat)
    requires i < |t| && j < |t| && UniqueIds(t)
    ensures var u := Renamed(t, i, j);
      forall k :: 0 <= k < |t| ==>
        && u[k].id == Transposed(t[k].id, t[i].id, t[j].id)
        && u[k].parentId == Transposed(t[k].parentId, t[i].id, t[j].id)
        && u[k].up == t[k].up && u[k].name == t[k].name
  {
    hide Renamed, Transposed, UniqueIds;
    forall k | 0 <= k < |t|
      ensures Renamed(t, i, j)[k] ==
        t[k].(id := Transposed(t[k].id, t[i].id, t[j].id), parentId := Transposed(t[k].parentId, t[i].id, t[j].id))
    {
      RenamedAt(t, i, j, k);
    }
  }

  lemma RenamedShape(t: Tree, u: Tree)
    requires |t| == |u| && (forall k :: 0 <= k < |t| ==> u[k].up == t[k].up && u[k].name == t[k].name)
    ensures Shape(t) ==> Shape(u)
    ensures UniqueNames(t) ==> UniqueNames(u)
  {
  }

  lemma RenamedIds(t: Tree, u: Tree, next: nat, a: nat, b: nat)
    requires |t| == |u| && (forall k :: 0 <= k < |t| ==> u[k].id == Transposed(t[k].id, a, b))
    requires UniqueIds(t) && IdsBelow(t, next) && 1 <= a < next && 1 <= b < next
    ensures UniqueIds(u) && IdsBelow(u, next)
  {
  }

  lemma RenameKeeps(t: Tree, next: nat, i: nat, j: nat)
    requires Good(t, next) && 2 <= i < |t| && 2 <= j < |t|
    ensures Good(Renamed(t, i, j), next)
  {
    hide Renamed, UniqueNames;
    var u := Renamed(t, i, j);
    RenamedAll(t, i, j);
    RenamedShape(t, u);
    RenamedIds(t, u, next, t[i].id, t[j].id);
    forall k | 1 <= k < |u|
      ensures u[k].parentId == u[u[k].up].id
    {
    }
  }

  /** A rename or move exchanges what the two CNIDs denote and changes nothing else. */
  lemma RenameTransposes(t: Tree, next: nat, i: nat, j: nat, id: nat)
    requires Good(t, next) && 2 <= i < |t| && 2 <= j < |t|
    ensures Shape(Renamed(t, i, j))
    ensures PathOf(Renamed(t, i, j), id) == PathOf(t, Transposed(id, t[i].id, t[j].id))
  {
    hide Renamed, UniqueNames, ParentIds, IdsBelow, PathAt;
    RenameKeeps(t, next, i, j);
    RenamedAll(t, i, j);
    var u := Renamed(t, i, j);
    var a, b := t[i].id, t[j].id;
    FixedIds(t, next, i);
    FixedIds(t, next, j);
    var k := IndexOfId(t, Transposed(id, a, b));
    if k < |t| {
      IndexIs(u, id, k);
      SamePath(t, u, k);
    } else {
      IndexNone(u, id);
    }
  }

  lemma FixedIds(t: Tree, next: nat, i: nat)
    requires Good(t, next) && 2 <= i < |t|
    ensures Fixed(t[i].id) == 0
  {
    assert t[0].id != t[i].id && t[1].id != t[i].id;
  }

  /** Undoing a rename restores the catalog. */
  lemma RenameBack(t: Tree, i: nat, j: nat)
    requires i < |t| && j < |t|
    ensures Renamed(Renamed(t, i, j), i, j) == t
  {
    var u := Renamed(t, i, j);
    var a, b := t[i].id, t[j].id;
    forall k | 0 <= k < |t|
      ensures Renamed(u, i, j)[k] == t[k]
    {
      assert u[k].parentId == Transposed(t[k].parentId, a, b);
      assert Renamed(u, i, j)[k].parentId == Transposed(u[k].parentId, b, a);
    }
  }

  /** What was below a renamed directory keeps its old path. */
  lemma ChildrenStayBehind(t: Tree, next: nat, i: nat, j: nat, c: nat)
    requires Good(t, next) && 2 <= i < |t| && 2 <= j < |t| && i != j && 2 <= c < |t| && t[c].up == i && c != j
    ensures var u := Renamed(t, i, j);
      && Shape(u) && PathOf(t, t[c].id) == Some(Below(PathAt(t, i), t[c].name)) == PathOf(u, t[c].id)
      && PathOf(u, t[i].id) == Some(PathAt(t, j)) != Some(PathAt(t, i))
  {
    RenameTransposes(t, next, i, j, t[c].id);
    RenameTransposes(t, next, i, j, t[i].id);
    assert t[0].id != t[c].id && t[1].id != t[c].id;
    IndexIs(t, t[c].id, c);
    IndexIs(t, t[j].id, j);
    if PathAt(t, i) == PathAt(t, j) {
      PathsDiffer(t, next, i, j);
    }
  }

  // ---- Path names ----

  /** The components of a pathname: "::" and names. */
  datatype Component = Parent | Name(name: string)

  datatype Walked = Item(t: Tree, next: nat, at: nat) | BadName | NullPointer

  /** The loop of get_item_and_path. */
  function Walk(t: Tree, next: nat, at: nat, comps: seq<Component>): Walked
    requires Shape(t) && at < |t|
    decreases |comps|
  {
    if comps == [] then Item(t, next, at)
    else match comps[0]
      case Parent =>
        if t[at].id == ROOT_ID then BadName
        else if at == 0 then NullPointer
        else Walk(t, next, t[at].up, comps[1..])
      case Name(name) =>
        var r := Found(t, next, name, at);
        Walk(r.0, r.1, r.2, comps[1..])
  }

  datatype Meaning = At(path: Path) | AboveRoot | AboveNowhere

  /** What a path name means relative to a path on a volume with this name. */
  function Resolve(p: Path, comps: seq<Component>, volume: string): Meaning
    decreases |comps|
  {
    if comps == [] then At(p)
    else match comps[0]
      case Parent =>
        (match p
         case Nowhere => AboveNowhere
         case VolumeRoot => AboveRoot
         case Below(dir, _) => Resolve(dir, comps[1..], volume))
      case Name(name) => Resolve(ChildPath(p, name, volume), comps[1..], volume)
  }

  /** The path lies on the volume. */
  predicate OnVolume(p: Path) { match p case Nowhere => false case VolumeRoot => true case Below(d, _) => OnVolume(d) }

  predicate NamesFit(comps: seq<Component>) {
    forall c :: c in comps && c.Name? ==> |c.name| <= NAME_SIZE
  }

  /** No path name leads above the root's parent exactly from the paths on the volume. */
  lemma NeverAboveNowhere(p: Path, volume: string)
    ensures OnVolume(p) <==> forall comps: seq<Component> :: Resolve(p, comps, volume) != AboveNowhere
  {
    if OnVolume(p) {
      forall comps: seq<Component>
        ensures Resolve(p, comps, volume) != AboveNowhere
      {
        StaysBelow(p, comps, volume);
      }
    } else {
      var comps := LeadsAbove(p, volume);
    }
  }

  lemma {:induction false} StaysBelow(p: Path, comps: seq<Component>, volume: string)
    requires OnVolume(p)
    ensures Resolve(p, comps, volume) != AboveNowhere
    decreases |comps|
  {
    if comps != [] {
      match comps[0]
      case Parent => if p.Below? { StaysBelow(p.dir, comps[1..], volume); }
      case Name(name) => StaysBelow(Below(p, name), comps[1..], volume);
    }
  }

  lemma {:induction false} LeadsAbove(p: Path, volume: string) returns (comps: seq<Component>)
    requires !OnVolume(p)
    ensures Resolve(p, comps, volume) == AboveNowhere
  {
    comps := [Parent];
    if p.Below? {
      var rest := LeadsAbove(p.dir, volume);
      comps := [Parent] + rest;
      assert comps[1..] == rest;
    }
  }

  /** Walking down a path name from any item ends at the item whose path the name means; it fails exactly
      for a name that leads above the volume's root, follows the null parent exactly for one that leads
      above the root's parent, and keeps the catalog good. */
  lemma {:induction false} WalkResolves(t: Tree, next: nat, at: nat, comps: seq<Component>)
    requires Good(t, next) && at < |t| && NamesFit(comps) && next + |comps| < TWO32
    ensures var w := Walk(t, next, at, comps);
      match Resolve(PathAt(t, at), comps, t[1].name) {
        case AboveRoot => w == BadName
        case AboveNowhere => w == NullPointer
        case At(p) => w.Item? && Good(w.t, w.next) && w.at < |w.t| && t <= w.t && PathAt(w.t, w.at) == p
      }
    decreases |comps|
  {
    hide Good, Found, NamesFit, PathAt;
    if comps != [] {
      assert NamesFit(comps[1..]) by { TailFits(comps); }
      assert Shape(t) by { GoodShape(t, next); }
      match comps[0]
      case Parent =>
        UpOne(t, next, at);
        if at >= 2 {
          WalkResolves(t, next, t[at].up, comps[1..]);
        }
      case Name(name) =>
        FirstFits(comps);
        DownOne(t, next, at, name);
        var r := Found(t, next, name, at);
        WalkResolves(r.0, r.1, r.2, comps[1..]);
    }
  }

  lemma GoodShape(t: Tree, next: nat)
    requires Good(t, next)
    ensures Shape(t)
  {
  }

  lemma TailFits(comps: seq<Component>)
    requires comps != [] && NamesFit(comps)
    ensures NamesFit(comps[1..])
  {
  }

  lemma FirstFits(comps: seq<Component>)
    requires comps != [] && NamesFit(comps)
    ensures comps[0].Name? ==> |comps[0].name| <= NAME_SIZE
  {
    assert comps[0] in comps;
  }

  lemma UpOne(t: Tree, next: nat, at: nat)
    requires Good(t, next) && at < |t|
    ensures t[at].id == ROOT_ID <==> at == 1
    ensures PathAt(t, at) == if at == 0 then Nowhere else if at == 1 then VolumeRoot else Below(PathAt(t, t[at].up), t[at].name)
  {
    hide PathAt;
    PathShape(t, next, at);
  }

  lemma DownOne(t: Tree, next: nat, at: nat, name: string)
    requires Good(t, next) && at < |t| && |name| <= NAME_SIZE && next + 1 < TWO32
    ensures var r := Found(t, next, name, at);
      && Good(r.0, r.1) && r.1 <= next + 1 && r.0[1].name == t[1].name
      && PathAt(r.0, r.2) == ChildPath(PathAt(t, at), name, t[1].name)
  {
    hide Good, Found, PathAt;
    FindKeeps(t, next, name, at);
    FindsChild(t, next, name, at);
    FoundNext(t, next, name, at);
  }

  lemma FoundNext(t: Tree, next: nat, name: string, up: nat)
    requires up < |t| && next + 1 < TWO32
    ensures var r := Found(t, next, name, up); r.1 == next + (|r.0| - |t|) && |t| <= |r.0| <= |t| + 1
  {
  }

  // ---- Runs ----

  datatype Operation = Lookup(name: string, up: nat) | Rename(i: nat, j: nat)

  /** Lookups may use any item as directory; neither fixed item is renamed or a target. */
  predicate Allowed(t: Tree, op: Operation) {
    match op
    case Lookup(name, up) => up < |t| && |name| <= NAME_SIZE
    case Rename(i, j) => 2 <= i < |t| && 2 <= j < |t|
  }

  function Apply(t: Tree, next: nat, op: Operation): (Tree, nat) {
    if !Allowed(t, op) then (t, next)
    else match op
      case Lookup(name, up) => var r := Found(t, next, name, up); (r.0, r.1)
      case Rename(i, j) => (Renamed(t, i, j), next)
  }

  function Run(t: Tree, next: nat, ops: seq<Operation>): (Tree, nat)
    decreases |ops|
  {
    if ops == [] then (t, next)
    else var r := Apply(t, next, ops[0]); Run(r.0, r.1, ops[1..])
  }

  lemma ApplyKeeps(t: Tree, next: nat, op: Operation, i: nat)
    requires Good(t, next) && next < TWO32 && i < |t|
    ensures var r := Apply(t, next, op);
      && |t| <= |r.0| && r.1 < TWO32
      && (next + (|r.0| - |t|) < TWO32 ==>
            Good(r.0, r.1) && r.1 == next + (|r.0| - |t|) && PathAt(r.0, i) == PathAt(t, i))
      && (next + (|r.0| - |t|) >= TWO32 ==> UsedUp(r.0))
  {
    hide Good, PathAt, Found, Renamed, UsedUp;
    GoodShape(t, next);
    if Allowed(t, op) {
      match op
      case Lookup(name, up) =>
        FindKeeps(t, next, name, up);
        FoundCount(t, next, name, up);
        FoundPrefix(t, next, name, up, i);
      case Rename(a, b) =>
        RenameKeeps(t, next, a, b);
        RenamedPath(t, next, a, b, i);
    }
  }

  /** The last id that the 32-bit counter can give has been given. */
  predicate UsedUp(t: Tree) { exists j :: 0 <= j < |t| && t[j].id >= TWO32 - 1 }

  lemma FoundCount(t: Tree, next: nat, name: string, up: nat)
    requires up < |t| && next < TWO32
    ensures var r := Found(t, next, name, up);
      && |t| <= |r.0| <= |t| + 1 && r.1 < TWO32
      && (|r.0| == |t| ==> r.1 == next && IndexOfChild(t, name, up) < |t|)
      && (next + (|r.0| - |t|) < TWO32 ==> r.1 == next + (|r.0| - |t|))
      && (next + (|r.0| - |t|) >= TWO32 ==> UsedUp(r.0))
      && (UsedUp(t) ==> UsedUp(r.0))
  {
    hide IndexOfChild;
    var r := Found(t, next, name, up);
    if next + (|r.0| - |t|) >= TWO32 {
      assert r.0[|t|].id == TWO32 - 1;
    }
    if UsedUp(t) {
      var j :| 0 <= j < |t| && t[j].id >= TWO32 - 1;
      assert r.0[j].id >= TWO32 - 1;
    }
  }

  lemma UsedUpStays(t: Tree, next: nat, op: Operation)
    requires UsedUp(t) && next < TWO32
    ensures var r := Apply(t, next, op); UsedUp(r.0) && r.1 < TWO32 && |t| <= |r.0|
  {
    hide Found;
    if Allowed(t, op) {
      match op
      case Lookup(name, up) => FoundCount(t, next, name, up);
      case Rename(a, b) =>
        var u := Renamed(t, a, b);
        var j :| 0 <= j < |t| && t[j].id >= TWO32 - 1;
        SwappedIdsAt(SwappedParents(t, t[a].id, t[b].id), a, b);
        var k := if j == a then b else if j == b then a else j;
        assert u[k].id == t[j].id;
    }
  }

  lemma {:induction false} UsedUpForGood(t: Tree, next: nat, ops: seq<Operation>)
    requires UsedUp(t) && next < TWO32
    ensures var r := Run(t, next, ops); !Good(r.0, r.1) && |t| <= |r.0| && r.1 < TWO32
    decreases |ops|
  {
    hide Apply, UsedUp, Good;
    if ops != [] {
      UsedUpStays(t, next, ops[0]);
      var r := Apply(t, next, ops[0]);
      UsedUpForGood(r.0, r.1, ops[1..]);
    } else {
      UsedUpBad(t, next);
    }
  }

  lemma UsedUpBad(t: Tree, next: nat)
    requires UsedUp(t) && next < TWO32
    ensures !Good(t, next)
  {
  }

  lemma RenamedPath(t: Tree, next: nat, a: nat, b: nat, i: nat)
    requires Good(t, next) && 2 <= a < |t| && 2 <= b < |t| && i < |t|
    ensures Shape(Renamed(t, a, b)) && PathAt(Renamed(t, a, b), i) == PathAt(t, i)
  {
    hide Renamed, UniqueNames, ParentIds, PathAt;
    RenameKeeps(t, next, a, b);
    RenamedAll(t, a, b);
    FixedIds(t, next, a);
    FixedIds(t, next, b);
    SamePath(t, Renamed(t, a, b), i);
  }

  /** A run keeps the catalog good exactly as long as the 32-bit counter does not run out of ids; and then
      every item keeps its path: only its CNID changes. */
  lemma {:induction false} RunKeeps(t: Tree, next: nat, ops: seq<Operation>, i: nat)
    requires Good(t, next) && next < TWO32 && i < |t|
    ensures var r := Run(t, next, ops);
      && |t| <= |r.0| && r.1 < TWO32
      && (Good(r.0, r.1) <==> next + (|r.0| - |t|) < TWO32)
      && (Good(r.0, r.1) ==> PathAt(r.0, i) == PathAt(t, i))
    decreases |ops|
  {
    hide Good, PathAt, Apply, UsedUp;
    if ops != [] {
      ApplyKeeps(t, next, ops[0], i);
      var r := Apply(t, next, ops[0]);
      if next + (|r.0| - |t|) < TWO32 {
        RunKeeps(r.0, r.1, ops[1..], i);
      } else {
        UsedUpForGood(r.0, r.1, ops[1..]);
      }
    }
  }

  /** The catalog starts with the root's parent as 1 and the root as 2; the first item made gets 16. */
  lemma StartsGood(volume: string)
    ensures var t := Initial(volume);
      && Good(t, 16) && |t| == 2 && PathOf(t, 1) == Some(Nowhere) && PathOf(t, 2) == Some(VolumeRoot)
      && t[1].name == (if |volume| <= 32 then volume else volume[..32])
  {
    var t := Initial(volume);
    assert t[0].id == 1 && t[1].id == 2;
    IndexIs(t, 1, 0);
    IndexIs(t, 2, 1);
  }

  /** An item that is made stands at the end of the list with the next id, the id of its directory and the
      first 32 characters of its name; the counter goes on in 32 bits. */
  lemma {:induction false} MakesItem(t: Tree, next: nat, name: string, up: nat)
    requires up < |t| && forall j :: 0 <= j < |t| ==> t[j].up != up || t[j].name != name
    ensures Found(t, next, name, up) ==
      (t + [Entry(next, t[up].id, up, if |name| <= 32 then name else name[..32])], (next + 1) % 0x1_0000_0000, |t|)
  {
    hide IndexOfChild;
  }
}
