/** Operating system queues in Macintosh memory: EnqueueMac and FindFreeDriveNumber in
    src/macos_util.cpp. */
module MacQueue {
  import opened Machine
  import opened MacMemory

  const Q_LINK := 0
  const Q_HEAD := 2
  const Q_TAIL := 6

  /** The queue header at `list` holds the elements `q` in order: head and tail in the longwords at 2 and 6,
      each element's first longword the address of the next, the last zero. No element is at address zero. */
  ghost predicate Holds(m: Memory, list: int, q: seq<uint32>) {
    && Read32(m, list + 2) == (if q == [] then 0 else q[0])
    && Read32(m, list + 6) == (if q == [] then 0 else q[|q| - 1])
    && (forall i {:trigger Link(m, q[i])} :: 0 <= i < |q| ==> q[i] != 0 && Link(m, q[i]) == (if i + 1 < |q| then q[i + 1] else 0))
  }

  function Link(m: Memory, e: int): uint32 { Read32(m, e) }

  /** The link words of all elements, and the two words of the header, do not overlap. */
  ghost predicate Separate(list: int, q: seq<uint32>) {
    && (forall i, j :: 0 <= i < |q| && 0 <= j < |q| && i != j ==> Apart(q[i], q[j], 4))
    && (forall i :: 0 <= i < |q| ==> Clear(list, q[i]))
  }

  predicate Clear(list: int, e: int) {
    Apart(e, list + 2, 4) && Apart(e, list + 6, 4) && Apart(list + 2, e, 4) && Apart(list + 6, e, 4)
  }

  class MacHeap {
    var mem: Memory

    constructor (m: Memory)
      ensures mem == m
    {
      mem := m;
    }

    /** EnqueueMac: the element is appended, and no other word changes. */
    method EnqueueMac(elem: uint32, list: int, ghost q: seq<uint32>)
      requires Holds(mem, list, q) && elem != 0 && Separate(list, q + [elem])
      modifies this
      ensures Holds(mem, list, q + [elem])
      ensures forall a: int :: Elsewhere(a, list, q + [elem]) ==> Read32(mem, a) == Read32(old(mem), a)
    {
      hide Write32, Read32, Apart, Holds, Separate;
      ghost var m0 := mem;
      mem := Write32(mem, elem + Q_LINK, 0);
      ghost var m1 := mem;
      LinkCleared(m0, elem, list, q);
      if Read32(mem, list + Q_TAIL) == 0 {
        mem := Write32(mem, list + Q_HEAD, elem);
        ghost var m2 := mem;
        mem := Write32(mem, list + Q_TAIL, elem);
        FirstElement(m1, m2, elem, list, q);
        NothingElse(m0, m1, elem + Q_LINK, 0, elem, list, q);
        NothingElse(m1, m2, list + Q_HEAD, elem, elem, list, q);
        NothingElse(m2, mem, list + Q_TAIL, elem, elem, list, q);
      } else {
        var last := Read32(mem, list + Q_TAIL);
        mem := Write32(mem, last + Q_LINK, elem);
        ghost var m2 := mem;
        mem := Write32(mem, list + Q_TAIL, elem);
        AnotherElement(m1, m2, elem, list, q);
        NothingElse(m0, m1, elem + Q_LINK, 0, elem, list, q);
        NothingElse(m1, m2, last + Q_LINK, elem, elem, list, q);
        NothingElse(m2, mem, list + Q_TAIL, elem, elem, list, q);
      }
    }
  }

  /** A word that is neither a link of these elements nor one of the header's. */
  ghost predicate Elsewhere(a: int, list: int, q: seq<uint32>) {
    && Apart(list + 2, a, 4) && Apart(list + 6, a, 4)
    && forall i :: 0 <= i < |q| ==> Apart(q[i], a, 4)
  }

  lemma NothingElse(m: Memory, n: Memory, at: int, v: uint32, elem: uint32, list: int, q: seq<uint32>)
    requires n == Write32(m, at, v)
    requires at == list + Q_HEAD || at == list + Q_TAIL || exists i :: 0 <= i < |q + [elem]| && (q + [elem])[i] == at
    ensures forall a: int :: Elsewhere(a, list, q + [elem]) ==> Read32(n, a) == Read32(m, a)
  {
    hide Write32, Read32, Apart;
    forall a: int | Elsewhere(a, list, q + [elem])
      ensures Read32(n, a) == Read32(m, a)
    {
      UnchangedWords(m, at, v, a, 4);
    }
  }

  /** Clearing the new element's link leaves the queue as it was. */
  lemma LinkCleared(m: Memory, elem: uint32, list: int, q: seq<uint32>)
    requires Holds(m, list, q) && Separate(list, q + [elem])
    ensures var n := Write32(m, elem + Q_LINK, 0); Holds(n, list, q) && Link(n, elem) == 0
    ensures q + [elem] != [] && (q + [elem])[|q|] == elem
  {
    hide Write32, Read32, Apart;
    var n := Write32(m, elem + Q_LINK, 0);
    var all := q + [elem];
    assert all[|q|] == elem;
    ReadBack(m, elem + Q_LINK, 0);
    UnchangedWords(m, elem, 0, list + Q_HEAD, 4);
    UnchangedWords(m, elem, 0, list + Q_TAIL, 4);
    forall i | 0 <= i < |q|
      ensures Link(n, q[i]) == Link(m, q[i])
    {
      assert all[i] == q[i];
      UnchangedWords(m, elem, 0, q[i], 4);
    }
  }

  lemma HeaderApart(list: int)
    ensures Apart(list + Q_HEAD, list + Q_TAIL, 4) && Apart(list + Q_TAIL, list + Q_HEAD, 4)
  {
  }

  lemma NotZero(m: Memory, list: int, q: seq<uint32>)
    requires Holds(m, list, q)
    ensures forall i :: 0 <= i < |q| ==> q[i] != 0
  {
    forall i | 0 <= i < |q|
      ensures q[i] != 0
    {
      assert Link(m, q[i]) == if i + 1 < |q| then q[i + 1] else 0;
    }
  }

  lemma FirstElement(m1: Memory, m2: Memory, elem: uint32, list: int, q: seq<uint32>)
    requires Holds(m1, list, q) && Link(m1, elem) == 0 && Separate(list, q + [elem]) && elem != 0
    requires Read32(m1, list + Q_TAIL) == 0 && m2 == Write32(m1, list + Q_HEAD, elem)
    ensures q == [] && Holds(Write32(m2, list + Q_TAIL, elem), list, q + [elem])
  {
    hide Write32, Read32, Apart;
    NotZero(m1, list, q);
    var m3 := Write32(m2, list + Q_TAIL, elem);
    assert (q + [elem])[|q|] == elem;
    HeaderApart(list);
    ReadBack(m1, list + Q_HEAD, elem);
    ReadBack(m2, list + Q_TAIL, elem);
    UnchangedWords(m2, list + Q_TAIL, elem, list + Q_HEAD, 4);
    UnchangedWords(m1, list + Q_HEAD, elem, elem, 4);
    UnchangedWords(m2, list + Q_TAIL, elem, elem, 4);
  }

  lemma AnotherElement(m1: Memory, m2: Memory, elem: uint32, list: int, q: seq<uint32>)
    requires Holds(m1, list, q) && Link(m1, elem) == 0 && Separate(list, q + [elem]) && elem != 0
    requires Read32(m1, list + Q_TAIL) != 0 && m2 == Write32(m1, Read32(m1, list + Q_TAIL) + Q_LINK, elem)
    ensures q != [] && Read32(m1, list + Q_TAIL) == q[|q| - 1]
    ensures exists i :: 0 <= i < |q + [elem]| && (q + [elem])[i] == Read32(m1, list + Q_TAIL)
    ensures Holds(Write32(m2, list + Q_TAIL, elem), list, q + [elem])
  {
    hide Write32, Read32, Apart;
    var all, n := q + [elem], |q| - 1;
    var last := q[n];
    var m3 := Write32(m2, list + Q_TAIL, elem);
    assert all[n] == last && all[|q|] == elem;
    HeaderApart(list);
    ReadBack(m1, last + Q_LINK, elem);
    ReadBack(m2, list + Q_TAIL, elem);
    UnchangedWords(m1, last, elem, list + Q_HEAD, 4);
    UnchangedWords(m2, list + Q_TAIL, elem, list + Q_HEAD, 4);
    forall i | 0 <= i < |all|
      ensures Link(m3, all[i]) == Link(m2, all[i])
    {
      UnchangedWords(m2, list + Q_TAIL, elem, all[i], 4);
    }
    forall i | 0 <= i < |all| && i != n
      ensures Link(m2, all[i]) == Link(m1, all[i])
    {
      UnchangedWords(m1, last, elem, all[i], 4);
    }
    forall i | 0 <= i < |all|
      ensures all[i] != 0 && Link(m3, all[i]) == (if i + 1 < |all| then all[i + 1] else 0)
    {
      if i < |q| {
        assert all[i] == q[i] && Link(m1, q[i]) == Link(m1, all[i]);
      }
    }
  }

  // ---- Drive numbers ----

  const DRIVE_QUEUE := 0x308
  const DS_Q_LINK := 6
  const DS_Q_DRIVE := 12

  /** The drive number in the record that an element of the drive queue belongs to: six bytes behind the link.
      ReadMacInt16 is unsigned. */
  function DriveOf(m: Memory, e: int): nat { Read16(m, e + 6) }

  predicate Taken(m: Memory, q: seq<uint32>, num: int) { exists i :: 0 <= i < |q| && DriveOf(m, q[i]) == num }

  /** is_drive_number_free. */
  method IsDriveNumberFree(m: Memory, num: int, ghost q: seq<uint32>) returns (free: bool)
    requires Holds(m, 0x308, q)
    ensures free == !Taken(m, q, num)
  {
    hide Read32, Read16;
    NotZero(m, DRIVE_QUEUE, q);
    var e := Read32(m, DRIVE_QUEUE + Q_HEAD);
    ghost var i := 0;
    while e != 0
      invariant 0 <= i <= |q| && e == (if i < |q| then q[i] else 0)
      invariant forall j :: 0 <= j < i ==> DriveOf(m, q[j]) != num
      decreases |q| - i
    {
      var d := e - DS_Q_LINK;
      if Read16(m, d + DS_Q_DRIVE) == num {
        return false;
      }
      assert Link(m, q[i]) == if i + 1 < |q| then q[i + 1] else 0;
      e := Read32(m, e + Q_LINK);
      i := i + 1;
    }
    return true;
  }

  /** FindFreeDriveNumber: the least free number from `num` on. */
  method FindFreeDriveNumber(m: Memory, num: int, ghost q: seq<uint32>) returns (r: int)
    requires Holds(m, 0x308, q)
    ensures r >= num && !Taken(m, q, r) && forall k :: num <= k < r ==> Taken(m, q, k)
  {
    hide Holds, Read16;
    r := num;
    var free := IsDriveNumberFree(m, r, q);
    while !free
      invariant r >= num && free == !Taken(m, q, r) && forall k :: num <= k < r ==> Taken(m, q, k)
      decreases TWO16 - r
    {
      TakenIsSmall(m, q, r);
      r := r + 1;
      free := IsDriveNumberFree(m, r, q);
    }
  }

  lemma TakenIsSmall(m: Memory, q: seq<uint32>, num: int)
    requires Taken(m, q, num)
    ensures 0 <= num < TWO16
  {
  }
}
