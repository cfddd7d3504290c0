/**
 The MEM2 area manager: regions carved off the top of the MEM2 arena. `areas` may have any
 length; the program is built with one. Addresses and sizes are 32-bit unsigned integers.
 */
module Mem2Areas {
  import opened CTypes

  /** ROUNDDOWN32: 31 is taken off before the low bits are cleared, so an aligned value moves too. */
  function RoundDown32(v: int): (r: int)
    requires 0 <= v < U32
    ensures 0 <= r < U32 && Aligned(r)
  {
    MultipleOf32(Sub32(v, 31) / 32);
    Sub32(v, 31) / 32 * 32
  }

  lemma MultipleOf32(n: nat)
    ensures n * 32 % 32 == 0
  {
  }

  predicate Aligned(address: int) { address % 32 == 0 }

  /** Where a region of that size below `hi` begins. */
  function Base(hi: int, size: int): (r: int)
    requires 0 <= hi < U32 && 0 <= size < U32
    ensures 0 <= r < U32 && Aligned(r)
  {
    RoundDown32(Sub32(hi, size))
  }

  /** The region lies below `hi` exactly when the subtraction does not wrap. */
  lemma BelowUnlessWrapped(hi: int, size: int)
    requires 0 <= hi < U32 && 0 < size < U32
    ensures Base(hi, size) + size <= hi <==> size + 31 <= hi
    ensures size + 31 <= hi ==> Base(hi, size) < hi && hi - 62 <= Base(hi, size) + size
  {
    var v := Sub32(Sub32(hi, size), 31);
    assert v / 32 * 32 <= v <= v / 32 * 32 + 31;
  }

  /**
   Below `hi` the base is the largest multiple of 32 that leaves 31 bytes besides the region;
   when the subtraction wraps, it is that from 4 GB higher.
   */
  lemma BaseIsLargest(hi: int, size: int)
    requires 31 <= hi < U32 && 0 < size < U32
    ensures var from := if size + 31 <= hi then hi else hi + 0x1_0000_0000;
            Base(hi, size) % 32 == 0 && Base(hi, size) + size + 31 <= from < Base(hi, size) + size + 31 + 32
  {
    var v := Sub32(Sub32(hi, size), 31);
    assert v / 32 * 32 <= v <= v / 32 * 32 + 31;
  }

  // ---------------------------------------------------------------------------
  // The stack of regions
  // ---------------------------------------------------------------------------

  datatype Region = Region(index: nat, base: int, size: int)

  /** An arena from `lo` to `top`, with its live regions from the highest to the lowest. */
  datatype Arena = Arena(lo: int, top: int, live: seq<Region>) {

    /** Where region k was carved from. */
    function Ceiling(k: nat): int
      requires k <= |live|
    {
      if k == 0 then top else live[k - 1].base
    }

    /** The arena top that is left. */
    function Hi(): int { Ceiling(|live|) }

    /** Region k is aligned and lies between `lo` and where it was carved from. */
    ghost predicate Placed(k: nat)
      requires k < |live|
    {
      Aligned(live[k].base) && lo <= live[k].base && 0 < live[k].size && live[k].base + live[k].size <= Ceiling(k)
    }

    ghost predicate WellFormed() {
      0 < lo <= top < U32 &&
      (forall k {:trigger Placed(k)} :: 0 <= k < |live| ==> Placed(k)) &&
      forall j, k :: 0 <= j < k < |live| ==> live[j].index != live[k].index
    }

    ghost predicate IsLive(index: nat) { exists k :: 0 <= k < |live| && live[k].index == index }

    ghost predicate IsLowest(index: nat) { live != [] && live[|live| - 1].index == index }

    function Pop(): Arena
      requires live != []
    {
      this.(live := live[..|live| - 1])
    }

    /** Removal takes the lowest region only. */
    ghost function Remove(index: nat): (Arena, bool) {
      if IsLowest(index) then (Pop(), true) else (this, false)
    }

    /** A new lowest region, if there is room. */
    function Carve(index: nat, size: int): (Arena, bool)
      requires 0 <= Hi() < U32 && 0 <= size < U32
    {
      var base := Base(Hi(), size);
      if base < lo then (this, false) else (this.(live := live + [Region(index, base, size)]), true)
    }

    ghost predicate HasSize(index: nat, size: int) {
      exists k :: 0 <= k < |live| && live[k].index == index && live[k].size == size
    }

    /** A region of the same size stays; one of another size is removed first, even if the new one then does not fit. */
    ghost function Add(areas: nat, index: nat, size: int): (Arena, bool)
      requires WellFormed() && 0 <= size < U32
    {
      if index >= areas || size == 0 then (this, false)
      else if HasSize(index, size) then (this, true)
      else if IsLive(index) then
        if IsLowest(index) then
          PopKeeps();
          Pop().Carve(index, size)
        else (this, false)
      else
        HiInside(|live|);
        Carve(index, size)
    }

    // -------------------------------------------------------------------------
    // Properties of a well-formed arena
    // -------------------------------------------------------------------------

    lemma HiInside(k: nat)
      requires WellFormed() && k <= |live|
      ensures lo <= Ceiling(k) <= top
    {
      if k > 0 {
        assert Placed(k - 1);
        HiInside(k - 1);
      }
    }

    lemma PopKeeps()
      requires WellFormed() && live != []
      ensures Pop().WellFormed() && Hi() < Pop().Hi() && 0 <= Pop().Hi() < U32
    {
      var p := Pop();
      forall k | 0 <= k < |p.live|
        ensures p.Placed(k)
      {
        assert Placed(k);
      }
      assert Placed(|live| - 1);
      HiInside(|live| - 1);
    }

    /** Ceilings fall strictly: region k lies wholly below region j when j < k. */
    lemma {:induction false} CeilingsFall(j: nat, k: nat)
      requires WellFormed() && j < k <= |live|
      ensures Ceiling(k) < Ceiling(j) && Ceiling(k) <= live[j].base
      decreases k - j
    {
      assert Placed(j);
      if j + 1 < k {
        CeilingsFall(j + 1, k);
      }
    }

    /** Live regions are aligned, inside the arena, pairwise disjoint, and the arena top is the lowest base. */
    lemma Layout(j: nat, k: nat)
      requires WellFormed() && j < k < |live|
      ensures live[k].base + live[k].size <= live[j].base && live[j].base + live[j].size <= top
      ensures Aligned(live[j].base) && Aligned(live[k].base)
      ensures lo <= Hi() <= live[k].base
    {
      assert Placed(j) && Placed(k);
      CeilingsFall(j, k);
      HiInside(j);
      HiInside(|live|);
      if k + 1 < |live| {
        CeilingsFall(k, |live|);
      }
    }

    lemma CarveKeeps(index: nat, size: int)
      requires WellFormed() && !IsLive(index) && 0 < size && 0 <= Hi() < U32 && size + 31 <= Hi()
      ensures Carve(index, size).0.WellFormed()
      ensures Carve(index, size).1 ==> Carve(index, size).0.IsLowest(index) && Carve(index, size).0.Pop() == this
      ensures Carve(index, size).1 <==> lo <= Base(Hi(), size)
    {
      BelowUnlessWrapped(Hi(), size);
      var (after, ok) := Carve(index, size);
      if ok {
        assert after.live[..|after.live| - 1] == live;
        forall k | 0 <= k < |after.live|
          ensures after.Placed(k)
        {
          if k < |live| {
            assert Placed(k);
          }
        }
      }
    }

    /** A region that was carved lies inside what was left of the arena exactly when the size did not wrap. */
    lemma CarvedExactly(index: nat, size: int)
      requires WellFormed() && !IsLive(index) && 0 < size < U32 && 0 <= Hi() < U32 && Carve(index, size).1
      ensures Carve(index, size).0.WellFormed() <==> size + 31 <= Hi()
    {
      if size + 31 <= Hi() {
        CarveKeeps(index, size);
      } else {
        BelowUnlessWrapped(Hi(), size);
        assert !Carve(index, size).0.Placed(|live|);
      }
    }

    lemma PoppedLive(i: nat)
      requires live != []
      ensures IsLive(i) <==> Pop().IsLive(i) || IsLowest(i)
    {
      assert IsLowest(i) ==> IsLive(i);
      if Pop().IsLive(i) {
        var k :| 0 <= k < |Pop().live| && Pop().live[k].index == i;
        assert live[k].index == i;
      } else if IsLive(i) {
        var k :| 0 <= k < |live| && live[k].index == i;
        assert k < |live| - 1 ==> Pop().live[k].index == i;
      }
    }

    lemma CarvedLive(index: nat, size: int, i: nat)
      requires 0 <= Hi() < U32 && 0 <= size < U32 && Carve(index, size).1
      ensures Carve(index, size).0.IsLive(i) <==> IsLive(i) || i == index
    {
      var after := Carve(index, size).0;
      assert after.Pop().live == live;
      after.PoppedLive(i);
    }

    lemma LowestIsLive(index: nat)
      requires WellFormed() && IsLowest(index)
      ensures IsLive(index) && !Pop().IsLive(index)
    {
    }

    /** Where a new region of that index would be carved from: an area of another size is removed first. */
    ghost function Room(index: nat): int {
      if IsLowest(index) then Pop().Hi() else Hi()
    }

    /** The guards that refuse a request. */
    ghost predicate Refuses(areas: nat, index: nat, size: int)
      requires WellFormed() && 0 <= size < U32
    {
      RoomInside(index);
      index >= areas || size == 0 ||
      (!HasSize(index, size) && ((IsLive(index) && !IsLowest(index)) || Base(Room(index), size) < lo))
    }

    lemma RoomInside(index: nat)
      requires WellFormed()
      ensures 0 < Room(index) < U32
    {
      HiInside(|live|);
      if IsLowest(index) {
        PopKeeps();
      }
    }

    /** A request is granted exactly when no guard refuses it. */
    lemma AddSucceeds(areas: nat, index: nat, size: int)
      requires WellFormed() && 0 <= size < U32
      ensures Add(areas, index, size).1 <==> !Refuses(areas, index, size)
    {
      if IsLowest(index) {
        LowestIsLive(index);
      }
    }

    /**
     Adding keeps the regions aligned, disjoint and inside the arena exactly when it is
     refused, when the area has that size already, or when the size does not wrap.
     */
    lemma AddKeeps(areas: nat, index: nat, size: int)
      requires WellFormed() && 0 <= size < U32
      ensures Add(areas, index, size).0.WellFormed() <==>
              Refuses(areas, index, size) || HasSize(index, size) || size + 31 <= Room(index)
    {
      AddSucceeds(areas, index, size);
      HiInside(|live|);
      if index < areas && size > 0 && !HasSize(index, size) {
        if IsLowest(index) {
          PopKeeps();
          LowestIsLive(index);
          Pop().CarveOutcome(index, size);
        } else if !IsLive(index) {
          CarveOutcome(index, size);
        }
      }
    }

    lemma CarveOutcome(index: nat, size: int)
      requires WellFormed() && !IsLive(index) && 0 < size < U32 && 0 <= Hi() < U32
      ensures Carve(index, size).0.WellFormed() <==> !Carve(index, size).1 || size + 31 <= Hi()
    {
      if Carve(index, size).1 {
        CarvedExactly(index, size);
      }
    }

    /**
     What a request leaves: if it was granted, a region of exactly that size for the area; the
     regions of the other areas in any case; and if it was refused, nothing else than before.
     */
    lemma AddGives(areas: nat, index: nat, size: int)
      requires WellFormed() && 0 <= size < U32
      ensures var (after, ok) := Add(areas, index, size);
              && (ok ==> exists k :: 0 <= k < |after.live| && after.live[k].index == index && after.live[k].size == size)
              && (forall r: Region :: r.index != index ==> (r in after.live <==> r in live))
              && (!ok ==> after == this || (IsLowest(index) && after == Pop()))
    {
      var (after, ok) := Add(areas, index, size);
      HiInside(|live|);
      RoomInside(index);
      if live != [] {
        assert live == Pop().live + [live[|live| - 1]];
      }
      if ok && after != this {
        assert after.live[|after.live| - 1] == Region(index, Base(Room(index), size), size);
      }
    }

    /** A region that has that size already is kept as it is. */
    lemma AddOfSameSize(areas: nat, index: nat, k: nat)
      requires WellFormed() && k < |live| && live[k].index == index < areas && live[k].size < U32
      ensures Placed(k) && Add(areas, index, live[k].size) == (this, true)
    {
      assert Placed(k);
      assert HasSize(index, live[k].size);
    }

    /** Removing what was just added gives back the arena it was added to. */
    lemma RemoveUndoesAdd(areas: nat, index: nat, size: int)
      requires WellFormed() && 0 <= size < U32 && !IsLive(index)
      ensures Add(areas, index, size).1 ==> Add(areas, index, size).0.Remove(index) == (this, true)
    {
      HiInside(|live|);
      if Add(areas, index, size).1 {
        var after := Add(areas, index, size).0;
        assert after.live[..|after.live| - 1] == live;
      }
    }
  }

  /** A request can wrap and still pass the check: the arena top is then moved out of the arena. */
  lemma WrappedRequestPasses()
    ensures var a := Arena(0x9000_2000, 0x9340_0000, []);
            a.WellFormed() && a.Hi() < 0xffff_0000 + 31 &&
            a.Carve(0, 0xffff_0000).1 && a.Carve(0, 0xffff_0000).0.Hi() > a.top && a.Add(1, 0, 0xffff_0000).1
  {
  }

  // ---------------------------------------------------------------------------
  // Runs
  // ---------------------------------------------------------------------------

  datatype Op = AddOp(index: nat, size: int) | RemoveOp(index: nat)

  ghost function Step(areas: nat, a: Arena, op: Op): Arena
    requires a.WellFormed() && (op.AddOp? ==> 0 <= op.size < U32)
  {
    match op
    case AddOp(index, size) => a.Add(areas, index, size).0
    case RemoveOp(index) => a.Remove(index).0
  }

  /** The operation is not an addition that wraps. */
  ghost predicate Sound(areas: nat, a: Arena, op: Op)
    requires a.WellFormed()
  {
    op.AddOp? ==>
      (0 <= op.size < U32 &&
       (a.Refuses(areas, op.index, op.size) || a.HasSize(op.index, op.size) || op.size + 31 <= a.Room(op.index)))
  }

  /** An operation keeps the arena well formed exactly when it does not wrap; its bounds are fixed. */
  lemma StepKeeps(areas: nat, a: Arena, op: Op)
    requires a.WellFormed() && (op.AddOp? ==> 0 <= op.size < U32)
    ensures Step(areas, a, op).WellFormed() <==> Sound(areas, a, op)
    ensures Step(areas, a, op).lo == a.lo && Step(areas, a, op).top == a.top
  {
    match op
    case AddOp(index, size) => a.AddKeeps(areas, index, size);
    case RemoveOp(index) =>
      if a.IsLowest(index) {
        a.PopKeeps();
      }
  }

  /** No operation of a run wraps. */
  ghost predicate AllSound(areas: nat, a: Arena, ops: seq<Op>)
    requires a.WellFormed()
    decreases |ops|
  {
    ops == [] ||
    (Sound(areas, a, ops[0]) &&
     (StepKeeps(areas, a, ops[0]); AllSound(areas, Step(areas, a, ops[0]), ops[1..])))
  }

  ghost function RunOps(areas: nat, a: Arena, ops: seq<Op>): (r: Arena)
    requires a.WellFormed() && AllSound(areas, a, ops)
    ensures r.WellFormed() && r.lo == a.lo && r.top == a.top
    decreases |ops|
  {
    if ops == [] then a
    else
      StepKeeps(areas, a, ops[0]);
      RunOps(areas, Step(areas, a, ops[0]), ops[1..])
  }

  /** Sizes that fit below the arena are never a problem, whatever the run. */
  lemma {:induction false} SmallSizesAreSound(areas: nat, a: Arena, ops: seq<Op>)
    requires a.WellFormed()
    requires forall i :: 0 <= i < |ops| && ops[i].AddOp? ==> 0 <= ops[i].size && ops[i].size + 31 <= a.lo
    ensures AllSound(areas, a, ops)
    decreases |ops|
  {
    if ops != [] {
      a.HiInside(|a.live|);
      if a.live != [] {
        a.PopKeeps();
      }
      StepKeeps(areas, a, ops[0]);
      SmallSizesAreSound(areas, Step(areas, a, ops[0]), ops[1..]);
    }
  }

  /** The indices of the live regions, lowest first: the order in which they can be removed. */
  function Drain(live: seq<Region>): seq<nat> {
    if live == [] then [] else [live[|live| - 1].index] + Drain(live[..|live| - 1])
  }

  ghost function RemoveAll(a: Arena, indices: seq<nat>): (Arena, bool)
    decreases |indices|
  {
    if indices == [] then (a, true)
    else
      var (b, ok) := a.Remove(indices[0]);
      var (c, rest) := RemoveAll(b, indices[1..]);
      (c, ok && rest)
  }

  /** Removing every live region, lowest first, always succeeds and restores the original top. */
  lemma {:induction false} DrainRestoresTop(a: Arena)
    requires a.WellFormed()
    ensures RemoveAll(a, Drain(a.live)) == (a.(live := []), true) && a.(live := []).Hi() == a.top
    decreases |a.live|
  {
    if a.live != [] {
      a.PopKeeps();
      DrainRestoresTop(a.Pop());
      var d := Drain(a.live);
      assert d[1..] == Drain(a.Pop().live);
      assert a.Pop().(live := []) == a.(live := []);
    }
  }

  // ---------------------------------------------------------------------------
  // The program
  // ---------------------------------------------------------------------------

  /** st_mem2_area; a null pointer is 0. */
  datatype Area = Area(heapPtr: int, size: int, oldArena2Hi: int)

  class Mem2 {
    const areas: array<Area>
    const arena2Lo: int
    var arena2Hi: int
    ghost const top: int
    ghost var live: seq<Region>

    ghost function View(): Arena
      reads this
    {
      Arena(arena2Lo, top, live)
    }

    ghost predicate Recorded(k: nat)
      requires k < |live|
      reads this, areas
    {
      live[k].index < areas.Length && areas[live[k].index] == Area(live[k].base, live[k].size, View().Ceiling(k))
    }

    ghost predicate Valid()
      reads this, areas
    {
      View().WellFormed() && Consistent()
    }

    /** The entries are those of the live regions, and the arena top is the one they leave. */
    ghost predicate Consistent()
      reads this, areas
    {
      arena2Hi == View().Hi() &&
      (forall k {:trigger Recorded(k)} :: 0 <= k < |live| ==> Recorded(k)) &&
      forall i {:trigger View().IsLive(i)} :: 0 <= i < areas.Length && !View().IsLive(i) ==> areas[i] == Area(0, 0, 0)
    }

    constructor (areas: nat, lo: int, hi: int)
      requires 0 < lo <= hi < U32
      ensures Valid() && fresh(this.areas) && this.areas.Length == areas
      ensures View() == Arena(lo, hi, []) && arena2Hi == hi
    {
      this.areas := new Area[areas](_ => Area(0, 0, 0));
      arena2Lo, arena2Hi, top, live := lo, hi, hi, [];
    }

    lemma Entry(k: nat)
      requires Valid() && k < |live|
      ensures Recorded(k) && View().Placed(k) && View().IsLive(live[k].index) && areas[live[k].index].size > 0
      ensures 0 < View().Ceiling(k)
    {
      assert View().Placed(k);
      View().HiInside(k);
    }

    /** An entry in use belongs to exactly one live region. */
    lemma Position(index: nat) returns (k: nat)
      requires Valid() && index < areas.Length && areas[index] != Area(0, 0, 0)
      ensures k < |live| && live[k].index == index && Recorded(k)
    {
      assert View().IsLive(index);
      k :| 0 <= k < |live| && live[k].index == index;
      Entry(k);
    }

    /** Region `index` was carved from a lower arena top than region `at`. */
    ghost predicate Lower(index: nat, at: nat)
      requires at < |live|
      reads this
    {
      exists k :: 0 <= k < |live| && live[k].index == index && View().Ceiling(k) < View().Ceiling(at)
    }

    lemma LowerIsSeen(index: nat, at: nat)
      requires Valid() && at < |live| && index < areas.Length && live[at].index < areas.Length
      ensures Lower(index, at) <==>
              index != live[at].index && areas[index].oldArena2Hi != 0 &&
              areas[index].oldArena2Hi < areas[live[at].index].oldArena2Hi
    {
      Entry(at);
      if Lower(index, at) {
        var k :| 0 <= k < |live| && live[k].index == index && View().Ceiling(k) < View().Ceiling(at);
        Entry(k);
      } else if areas[index].oldArena2Hi != 0 {
        var k := Position(index);
      }
    }

    lemma LowestHasNoLower(at: nat)
      requires Valid() && at < |live|
      ensures (forall i {:trigger Lower(i, at)} :: 0 <= i < areas.Length ==> !Lower(i, at)) <==> at == |live| - 1
    {
      if at == |live| - 1 {
        forall i | 0 <= i < areas.Length
          ensures !Lower(i, at)
        {
          forall k | 0 <= k < at
            ensures View().Ceiling(at) < View().Ceiling(k)
          {
            View().CeilingsFall(k, at);
          }
        }
      } else {
        Entry(|live| - 1);
        View().CeilingsFall(at, |live| - 1);
        assert Lower(live[|live| - 1].index, at);
      }
    }

    /** Whether a lower region stands in the way. */
    method HasLower(area: nat, ghost at: nat) returns (lower: bool)
      requires Valid() && at < |live| && live[at].index == area && area < areas.Length
      ensures lower <==> at != |live| - 1
    {
      var i := 0;
      while i < areas.Length
        invariant 0 <= i <= areas.Length
        invariant forall j {:trigger Lower(j, at)} :: 0 <= j < i ==> !Lower(j, at)
      {
        LowerIsSeen(i, at);
        if i != area && areas[i].oldArena2Hi != 0 {
          if areas[i].oldArena2Hi < areas[area].oldArena2Hi {
            LowestHasNoLower(at);
            return true;
          }
        }
        i := i + 1;
      }
      LowestHasNoLower(at);
      return false;
    }

    /** RemoveMem2Area: refused while any region was carved from a lower arena top. */
    method Remove(area: nat) returns (ok: bool)
      requires Valid()
      modifies this, areas
      ensures Valid() && (View(), ok) == old(View()).Remove(area)
      ensures ok ==> area < areas.Length && areas[area] == Area(0, 0, 0)
    {
      if area >= areas.Length || areas[area].size == 0 {
        if View().IsLowest(area) {
          Entry(|live| - 1);
        }
        return false;
      }
      ghost var at := Position(area);
      var lower := HasLower(area, at);
      if lower {
        return false;
      }
      ghost var v := View();
      v.PopKeeps();
      v.LowestIsLive(area);
      forall k | 0 <= k < |live|
        ensures Recorded(k)
      {
      }
      arena2Hi := areas[area].oldArena2Hi;
      areas[area] := areas[area].(heapPtr := 0);
      areas[area] := areas[area].(size := 0);
      areas[area] := areas[area].(oldArena2Hi := 0);
      live := live[..|live| - 1];
      forall k | 0 <= k < |live|
        ensures Recorded(k)
      {
        assert old(Recorded(k));
      }
      forall i | 0 <= i < areas.Length && !View().IsLive(i)
        ensures areas[i] == Area(0, 0, 0)
      {
        v.PoppedLive(i);
      }
      return true;
    }

    /** AddMem2Area. The state stays valid unless the request was granted and wrapped. */
    method Add(size: int, index: nat) returns (ok: bool)
      requires Valid() && 0 <= size < U32
      modifies this, areas
      ensures Consistent() && (View(), ok) == old(View()).Add(areas.Length, index, size)
      ensures Valid() <==> Sound(areas.Length, old(View()), AddOp(index, size))
      ensures ok ==> index < areas.Length && areas[index].size == size
    {
      View().AddKeeps(areas.Length, index, size);
      View().HiInside(|live|);
      if index >= areas.Length || size == 0 {
        return false;
      }
      ghost var at := |live|;
      if areas[index].size > 0 {
        at := Position(index);
      } else if View().IsLive(index) {
        ghost var k :| 0 <= k < |live| && live[k].index == index;
        Entry(k);
      }
      if areas[index].size == size {
        return true;
      }
      if areas[index].size > 0 {
        View().PopKeeps();
        var removed := Remove(index);
        if !removed {
          return false;
        }
      }
      ok := Carve(size, index);
    }

    /** The rest of AddMem2Area, for an entry not in use. */
    method Carve(size: int, index: nat) returns (ok: bool)
      requires Valid() && 0 < size < U32 && 0 <= arena2Hi < U32 && index < areas.Length && !View().IsLive(index)
      modifies this, areas
      ensures Consistent() && (View(), ok) == old(View()).Carve(index, size)
      ensures areas[index] == if ok then Area(arena2Hi, size, old(arena2Hi)) else Area(0, 0, 0)
    {
      ghost var v := View();
      areas[index] := areas[index].(oldArena2Hi := arena2Hi);
      areas[index] := areas[index].(heapPtr := Base(arena2Hi, size));
      if areas[index].heapPtr < arena2Lo {
        areas[index] := areas[index].(oldArena2Hi := 0);
        areas[index] := areas[index].(heapPtr := 0);
        forall k | 0 <= k < |live|
          ensures Recorded(k)
        {
          assert old(Recorded(k));
        }
        return false;
      }
      arena2Hi := areas[index].heapPtr;
      areas[index] := areas[index].(size := size);
      live := live + [Region(index, arena2Hi, size)];
      forall k | 0 <= k < |live|
        ensures Recorded(k)
      {
        if k < |v.live| {
          assert old(Recorded(k));
        }
      }
      forall i | 0 <= i < areas.Length && !View().IsLive(i)
        ensures areas[i] == Area(0, 0, 0)
      {
        v.CarvedLive(index, size, i);
      }
      return true;
    }

    /** Any sequence of calls that do not wrap does to the areas what the run does to the arena. */
    method Run(ops: seq<Op>)
      requires Valid() && AllSound(areas.Length, View(), ops)
      modifies this, areas
      ensures Valid() && View() == RunOps(areas.Length, old(View()), ops)
      ensures live == [] ==> arena2Hi == old(View()).top
    {
      var n := 0;
      assert ops[0..] == ops;
      while n < |ops|
        invariant 0 <= n <= |ops| && Valid() && View().top == old(View()).top
        invariant AllSound(areas.Length, View(), ops[n..])
        invariant RunOps(areas.Length, View(), ops[n..]) == RunOps(areas.Length, old(View()), ops)
      {
        assert ops[n..][0] == ops[n] && ops[n..][1..] == ops[n + 1..];
        StepKeeps(areas.Length, View(), ops[n]);
        n := n + 1;
        match ops[n - 1]
        case AddOp(index, size) => var _ := Add(size, index);
        case RemoveOp(index) => var _ := Remove(index);
      }
    }
  }
}
