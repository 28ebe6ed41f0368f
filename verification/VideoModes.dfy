/** Display modes of a monitor: monitor_desc in src/video.cpp. */
module VideoModes {
  import opened Machine

  /** VDEPTH_1BIT to VDEPTH_32BIT. */
  type Depth = d: int | 0 <= d < 6
  const FIRST_APPLE_MODE := 0x80

  datatype Mode = Mode(x: nat, y: nat, resolution: uint32, depth: Depth, bytesPerRow: nat)
  type Modes = seq<Mode>

  // ---- Searches, as values ----

  predicate HasDepth(modes: Modes, depth: int) { exists i :: 0 <= i < |modes| && modes[i].depth == depth }

  predicate HasResolution(modes: Modes, id: nat) { exists i :: 0 <= i < |modes| && modes[i].resolution == id }

  /** How many supported depths are below `depth`. */
  function Rank(modes: Modes, depth: nat): (r: nat)
    ensures r <= depth
  {
    if depth == 0 then 0 else Rank(modes, depth - 1) + if HasDepth(modes, depth - 1) then 1 else 0
  }

  function AppleMode(modes: Modes, depth: Depth): (r: nat)
  {
    if HasDepth(modes, depth) then FIRST_APPLE_MODE + Rank(modes, depth) else 0
  }

  /** The first mode with the given depth and resolution, or the number of modes. */
  function FirstMode(modes: Modes, depth: Depth, id: nat): (r: nat)
    ensures r <= |modes|
    ensures r < |modes| ==> modes[r].depth == depth && modes[r].resolution == id
    ensures forall j :: 0 <= j < r ==> modes[j].depth != depth || modes[j].resolution != id
  {
    if modes == [] then 0
    else if modes[0].depth == depth && modes[0].resolution == id then 0
    else FirstMode(modes[1..], depth, id) + 1
  }

  predicate DistinctPairs(modes: Modes) {
    forall i, j :: 0 <= i < j < |modes| ==> modes[i].depth != modes[j].depth || modes[i].resolution != modes[j].resolution
  }

  // ---- Mode numbers ----

  lemma {:induction false} RankGrows(modes: Modes, a: nat, b: nat)
    requires a <= b
    ensures Rank(modes, a) <= Rank(modes, b) <= Rank(modes, a) + (b - a)
    ensures a < b && HasDepth(modes, a) ==> Rank(modes, a) < Rank(modes, b)
    decreases b
  {
    hide HasDepth;
    if a < b {
      RankGrows(modes, a, b - 1);
    }
  }

  /** Supported depths have different numbers, in the order of the depths. */
  lemma AppleModesOrdered(modes: Modes, a: Depth, b: Depth)
    requires a < b && HasDepth(modes, a) && HasDepth(modes, b)
    ensures FIRST_APPLE_MODE <= AppleMode(modes, a) < AppleMode(modes, b) < FIRST_APPLE_MODE + Rank(modes, 6)
  {
    hide HasDepth;
    RankGrows(modes, a, b);
    RankGrows(modes, b, 6);
  }

  lemma AppleModesInjective(modes: Modes, a: Depth, b: Depth)
    requires HasDepth(modes, a) && AppleMode(modes, a) == AppleMode(modes, b)
    ensures a == b
  {
    hide HasDepth;
    if HasDepth(modes, b) {
      if a < b {
        AppleModesOrdered(modes, a, b);
      } else if b < a {
        AppleModesOrdered(modes, b, a);
      }
    }
  }

  /** The numbers from 0x80 on are used without a gap. */
  lemma {:induction false} AppleModesConsecutive(modes: Modes, upto: nat, m: nat) returns (depth: Depth)
    requires upto <= 6 && FIRST_APPLE_MODE <= m < FIRST_APPLE_MODE + Rank(modes, upto)
    ensures HasDepth(modes, depth) && AppleMode(modes, depth) == m
    decreases upto
  {
    hide HasDepth;
    if HasDepth(modes, upto - 1) && m == FIRST_APPLE_MODE + Rank(modes, upto - 1) {
      return upto - 1;
    }
    depth := AppleModesConsecutive(modes, upto - 1, m);
  }

  /** find_mode stops at the first mode with the number and the resolution, if there is one. */
  predicate Found(modes: Modes, appleMode: nat, id: nat, i: nat) {
    && i <= |modes|
    && (i < |modes| ==> Matches(modes, appleMode, id, i))
    && forall j :: 0 <= j < i ==> !Matches(modes, appleMode, id, j)
  }

  predicate Matches(modes: Modes, appleMode: nat, id: nat, i: nat)
    requires i < |modes|
  {
    modes[i].resolution == id && AppleMode(modes, modes[i].depth) == appleMode
  }

  /** The number of a supported depth finds the first mode with that depth. */
  lemma FindsDepth(modes: Modes, depth: Depth, id: nat, i: nat)
    requires HasDepth(modes, depth) && Found(modes, AppleMode(modes, depth), id, i)
    ensures i == FirstMode(modes, depth, id)
  {
    hide HasDepth, AppleMode, FirstMode;
    var k := FirstMode(modes, depth, id);
    if i < |modes| {
      AppleModesInjective(modes, depth, modes[i].depth);
    }
    assert k < |modes| ==> Matches(modes, AppleMode(modes, depth), id, k);
  }

  /** No mode has the number 0. */
  lemma NoModeIsZero(modes: Modes, id: nat, i: nat)
    requires Found(modes, 0, id, i)
    ensures i == |modes|
  {
    hide Rank;
    forall j | 0 <= j < |modes|
      ensures AppleMode(modes, modes[j].depth) > 0
    {
      assert HasDepth(modes, modes[j].depth);
    }
  }

  /** find_mode undoes numbering: it gives every available mode back, exactly when no two modes
      agree in depth and resolution. */
  lemma FindInverts(modes: Modes)
    ensures DistinctPairs(modes) <==>
      forall k, i :: 0 <= k < |modes| && 0 <= i && Found(modes, AppleMode(modes, modes[k].depth), modes[k].resolution, i) ==> i == k
  {
    hide AppleMode, FirstMode;
    forall k, i | 0 <= k < |modes| && 0 <= i && Found(modes, AppleMode(modes, modes[k].depth), modes[k].resolution, i)
      ensures DistinctPairs(modes) ==> i == k
    {
      FindsDepth(modes, modes[k].depth, modes[k].resolution, i);
    }
    if !DistinctPairs(modes) {
      var a, b :| 0 <= a < b < |modes| && modes[a].depth == modes[b].depth && modes[a].resolution == modes[b].resolution;
      var i := FirstMatch(modes, AppleMode(modes, modes[b].depth), modes[b].resolution);
      assert Matches(modes, AppleMode(modes, modes[b].depth), modes[b].resolution, a);
      assert i <= a;
    }
  }

  function FirstMatch(modes: Modes, appleMode: nat, id: nat): (i: nat)
    ensures Found(modes, appleMode, id, i)
  {
    FirstMatchFrom(modes, appleMode, id, 0)
  }

  function FirstMatchFrom(modes: Modes, appleMode: nat, id: nat, from: nat): (i: nat)
    requires from <= |modes| && forall j :: 0 <= j < from ==> !Matches(modes, appleMode, id, j)
    ensures Found(modes, appleMode, id, i)
    decreases |modes| - from
  {
    if from == |modes| || Matches(modes, appleMode, id, from) then from
    else FirstMatchFrom(modes, appleMode, id, from + 1)
  }

  // ---- The list of resolutions ----

  const FIRST_ID := 0x80
  const END_OF_IDS := 0x100
  const ASK_FIRST := 0xffff_fffe

  datatype Answer = Resolution(id: nat) | NoMore | ParamErr

  /** The least supported id from `from` on, at most `bound`. */
  function Upward(modes: Modes, from: nat, bound: nat): (id: nat)
    requires from <= bound
    ensures from <= id <= bound
    ensures id < bound ==> HasResolution(modes, id)
    ensures forall k :: from <= k < id ==> !HasResolution(modes, k)
    decreases bound - from
  {
    if from == bound || HasResolution(modes, from) then from else Upward(modes, from + 1, bound)
  }

  /** How far b is above a, around the end of the 32-bit range. */
  function Distance(a: uint32, b: uint32): nat { if a <= b then b - a else b + TWO32 - a }

  lemma Closer(a: uint32, b: uint32)
    requires a != b
    ensures Distance((a + 1) % TWO32, b) == Distance(a, b) - 1
  {
  }

  /** The first supported id met counting up from `from` in 32 bits. */
  function Around(modes: Modes, from: uint32): (id: uint32)
    requires modes != []
    ensures HasResolution(modes, id)
    ensures forall k: uint32 :: HasResolution(modes, k) ==> Distance(from, id) <= Distance(from, k)
    decreases Distance(from, modes[0].resolution)
  {
    if HasResolution(modes, from) then from
    else
      assert HasResolution(modes, modes[0].resolution);
      Around(modes, (from + 1) % TWO32)
  }

  /** cscGetNextResolution for 0, which asks for the current resolution, for 0xfffffffe and for a
      resolution; ids are counted up in 32 bits. */
  function Next(modes: Modes, current: nat, id: uint32): Answer
    requires modes != []
  {
    var up := (id + 1) % TWO32;
    if id == 0 then Resolution(current)
    else if id == ASK_FIRST then Resolution(Around(modes, FIRST_ID))
    else if !HasResolution(modes, id) then ParamErr
    else if up >= END_OF_IDS then if up == END_OF_IDS then NoMore else Resolution(up)
    else
      var next := Upward(modes, up, END_OF_IDS);
      if next == END_OF_IDS then NoMore else Resolution(next)
  }

  /** The answers of repeated calls, each asking for the resolution after the last. */
  function Enumerated(modes: Modes, current: nat, id: nat): seq<Answer>
    requires modes != [] && (id == ASK_FIRST || id < END_OF_IDS)
    decreases if id == ASK_FIRST then END_OF_IDS + 1 else END_OF_IDS - id
  {
    var a := Next(modes, current, id);
    if a.Resolution? && a.id < END_OF_IDS && (id == ASK_FIRST || id < a.id) then [a] + Enumerated(modes, current, a.id) else [a]
  }

  /** The supported ids from `from` to 0xff in ascending order. */
  function Supported(modes: Modes, from: nat): (r: seq<nat>)
    requires from <= END_OF_IDS
    ensures forall k :: k in r <==> from <= k < END_OF_IDS && HasResolution(modes, k)
    ensures forall i :: 0 <= i < |r| ==> from <= r[i]
    ensures forall i, j :: 0 <= i < j < |r| ==> r[i] < r[j]
    decreases END_OF_IDS - from
  {
    if from == END_OF_IDS then []
    else if HasResolution(modes, from) then
      var rest := Supported(modes, from + 1);
      assert forall i :: 0 < i <= |rest| ==> ([from] + rest)[i] == rest[i - 1];
      [from] + rest
    else Supported(modes, from + 1)
  }

  function Answers(ids: seq<nat>): (r: seq<Answer>)
    ensures |r| == |ids|
  {
    seq(|ids|, i requires 0 <= i < |ids| => Resolution(ids[i]))
  }

  lemma {:induction false} SupportedSkips(modes: Modes, from: nat)
    requires from <= END_OF_IDS
    ensures Supported(modes, from) == Supported(modes, Upward(modes, from, END_OF_IDS))
    decreases END_OF_IDS - from
  {
    hide HasResolution;
    if from < END_OF_IDS && !HasResolution(modes, from) {
      SupportedSkips(modes, from + 1);
    }
  }

  /** The supported ids from `from` on start with the one Upward finds. */
  lemma SupportedStarts(modes: Modes, from: nat)
    requires from <= END_OF_IDS
    ensures var next := Upward(modes, from, END_OF_IDS);
      Answers(Supported(modes, from)) ==
        if next == END_OF_IDS then [] else [Resolution(next)] + Answers(Supported(modes, next + 1))
  {
    hide HasResolution;
    SupportedSkips(modes, from);
  }

  lemma {:induction false} NextSearches(modes: Modes, current: nat, id: nat)
    requires modes != [] && 0 < id < END_OF_IDS && HasResolution(modes, id)
    ensures var next := Upward(modes, id + 1, END_OF_IDS);
      Next(modes, current, id) == if next == END_OF_IDS then NoMore else Resolution(next)
  {
    hide HasResolution, Upward, Around;
  }

  lemma {:induction false} EnumeratesAfter(modes: Modes, current: nat, id: nat)
    requires modes != [] && 0 < id < END_OF_IDS && HasResolution(modes, id)
    ensures Enumerated(modes, current, id) == Answers(Supported(modes, id + 1)) + [NoMore]
    decreases END_OF_IDS - id
  {
    hide HasResolution, Upward, Supported, Answers, Next;
    SupportedStarts(modes, id + 1);
    NextSearches(modes, current, id);
    var next := Upward(modes, id + 1, END_OF_IDS);
    if next < END_OF_IDS {
      EnumeratesAfter(modes, current, next);
    }
  }

  lemma AroundIsUpward(modes: Modes)
    requires modes != [] && Upward(modes, FIRST_ID, END_OF_IDS) < END_OF_IDS
    ensures Around(modes, FIRST_ID) == Upward(modes, FIRST_ID, END_OF_IDS)
  {
    hide HasResolution;
    var next := Upward(modes, FIRST_ID, END_OF_IDS);
    assert Distance(FIRST_ID, Around(modes, FIRST_ID)) <= Distance(FIRST_ID, next);
  }

  /** Asking for the first resolution and then for the next one each time names every supported id from
      0x80 to 0xff once, in ascending order, and then says that there are no more, exactly when there is
      such an id. */
  lemma EnumeratesAll(modes: Modes, current: nat)
    requires modes != []
    ensures Enumerated(modes, current, 0xffff_fffe) == Answers(Supported(modes, 0x80)) + [NoMore]
      <==> exists k :: 0x80 <= k <= 0xff && HasResolution(modes, k)
  {
    hide HasResolution, Supported, Answers;
    var next := Upward(modes, FIRST_ID, END_OF_IDS);
    SupportedStarts(modes, FIRST_ID);
    if next < END_OF_IDS {
      AroundIsUpward(modes);
      EnumeratesAfter(modes, current, next);
    } else {
      assert Enumerated(modes, current, ASK_FIRST)[0].Resolution?;
    }
  }

  /** What is answered for each id. Only ids below 0x100 are followed by supported ones: a supported id from
      0x100 on is followed by its successor, and 0xffffffff by the first one of all. */
  lemma {:induction false} NextAnswers(modes: Modes, current: nat, id: uint32)
    requires modes != []
    ensures id == 0 ==> Next(modes, current, id) == Resolution(current)
    ensures id != 0 && id != 0xffff_fffe && !HasResolution(modes, id) ==> Next(modes, current, id) == ParamErr
    ensures id == 0xffff_fffe ==> match Next(modes, current, id)
      case Resolution(n) => n < 0x1_0000_0000 && HasResolution(modes, n) && (n < 0x80 ==> forall k :: 0x80 <= k < 0x1_0000_0000 ==> !HasResolution(modes, k))
        && (forall k :: (if n < 0x80 then 0 else 0x80) <= k < n ==> !HasResolution(modes, k))
      case _ => false
    ensures HasResolution(modes, id) && (0 < id <= 0xff || id == 0xffff_ffff) ==>
      var from := if id == 0xffff_ffff then 0 else id + 1;
      match Next(modes, current, id)
      case Resolution(n) => from <= n <= 0xff && HasResolution(modes, n) && forall k :: from <= k < n ==> !HasResolution(modes, k)
      case NoMore => forall k :: from <= k <= 0xff ==> !HasResolution(modes, k)
      case ParamErr => false
    ensures HasResolution(modes, id) && 0x100 <= id < 0xffff_fffe ==> Next(modes, current, id) == Resolution(id + 1)
  {
    hide HasResolution, Upward, Around;
    if id == 0xffff_fffe {
      var n := Around(modes, 0x80);
      forall k: uint32 | HasResolution(modes, k)
        ensures Distance(0x80, n) <= Distance(0x80, k)
      {
      }
    }
  }

  // ---- The monitor ----

  class MonitorDesc {
    const modes: Modes
    const slotId: nat
    var appleModeForDepth: array<nat>
    /** Index into modes, |modes| for the invalid mode. */
    var current: nat

    ghost predicate Valid()
      reads this, appleModeForDepth
    {
      appleModeForDepth.Length == 6 && forall d: Depth :: appleModeForDepth[d] == AppleMode(modes, d)
    }

    /** The slot id comes from a counter that the constructor's caller hands over. */
    constructor (modes: Modes, defaultDepth: Depth, defaultId: nat, nextSlotId: nat)
      ensures Valid() && this.modes == modes && slotId == nextSlotId
      ensures current == if HasDepth(modes, defaultDepth) then FirstMode(modes, defaultDepth, defaultId) else |modes|
    {
      this.modes := modes;
      slotId := nextSlotId;
      appleModeForDepth := new nat[6];
      current := |modes|;
      new;
      var mode := FIRST_APPLE_MODE;
      var depth := 0;
      while depth < 6
        invariant 0 <= depth <= 6 && appleModeForDepth.Length == 6 && fresh(appleModeForDepth)
        invariant mode == FIRST_APPLE_MODE + Rank(modes, depth)
        invariant forall d: Depth :: d < depth ==> appleModeForDepth[d] == AppleMode(modes, d)
      {
        var has := SupportsDepth(depth);
        if has {
          appleModeForDepth[depth] := mode;
          mode := mode + 1;
        } else {
          appleModeForDepth[depth] := 0;
        }
        depth := depth + 1;
      }
      current := FindMode(appleModeForDepth[defaultDepth], defaultId);
      if HasDepth(modes, defaultDepth) {
        FindsDepth(modes, defaultDepth, defaultId, current);
      } else {
        NoModeIsZero(modes, defaultId, current);
      }
    }

    /** has_depth. */
    method SupportsDepth(depth: Depth) returns (r: bool)
      ensures r == HasDepth(modes, depth)
    {
      var i := 0;
      while i != |modes|
        invariant 0 <= i <= |modes| && forall j :: 0 <= j < i ==> modes[j].depth != depth
      {
        if modes[i].depth == depth {
          return true;
        }
        i := i + 1;
      }
      return false;
    }

    /** has_resolution. */
    method SupportsResolution(id: nat) returns (r: bool)
      ensures r == HasResolution(modes, id)
    {
      var i := 0;
      while i != |modes|
        invariant 0 <= i <= |modes| && forall j :: 0 <= j < i ==> modes[j].resolution != id
      {
        if modes[i].resolution == id {
          return true;
        }
        i := i + 1;
      }
      return false;
    }

    /** find_mode: the first mode with the number and the resolution, or the invalid mode. */
    method FindMode(appleMode: nat, id: nat) returns (i: nat)
      requires Valid()
      ensures Found(modes, appleMode, id, i)
    {
      i := 0;
      while i != |modes|
        invariant 0 <= i <= |modes| && forall j :: 0 <= j < i ==> !Matches(modes, appleMode, id, j)
      {
        if modes[i].resolution == id && appleModeForDepth[modes[i].depth] == appleMode {
          return;
        }
        i := i + 1;
      }
    }

    /** The loop that looks for the first resolution. */
    method FirstResolution() returns (id: uint32)
      requires modes != []
      ensures id == Around(modes, FIRST_ID)
    {
      hide HasResolution;
      id := FIRST_ID;
      var has := SupportsResolution(id);
      while !has
        invariant has == HasResolution(modes, id) && Around(modes, FIRST_ID) == Around(modes, id)
        decreases Distance(id, Around(modes, FIRST_ID))
      {
        Closer(id, Around(modes, FIRST_ID));
        id := (id + 1) % TWO32;
        has := SupportsResolution(id);
      }
    }

    /** cscGetNextResolution; `currentId` is the driver's variable for the current resolution. */
    method GetNextResolution(currentId: nat, previous: uint32) returns (r: Answer)
      requires modes != []
      ensures r == Next(modes, currentId, previous)
    {
      hide HasResolution;
      var id: uint32, has := previous, false;
      if id == 0 {
        return Resolution(currentId);
      }
      if id == ASK_FIRST {
        id := FirstResolution();
        return Resolution(id);
      }
      has := SupportsResolution(id);
      if !has {
        return ParamErr;
      }
      id := (id + 1) % TWO32;
      ghost var up := id;
      has := SupportsResolution(id);
      while !has && id < END_OF_IDS
        invariant up <= id && has == HasResolution(modes, id)
        invariant id <= END_OF_IDS || id == up
        invariant id <= END_OF_IDS ==> Upward(modes, up, END_OF_IDS) == Upward(modes, id, END_OF_IDS)
        decreases END_OF_IDS - id
      {
        id := id + 1;
        has := SupportsResolution(id);
      }
      if id == END_OF_IDS {
        return NoMore;
      }
      return Resolution(id);
    }
  }
}
