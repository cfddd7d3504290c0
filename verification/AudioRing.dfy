/**
 The audio ring: a producer packs decoded chunks into 32 DMA buffers through a carry buffer,
 while the DMA interrupt takes buffers from the other end.

 The interrupt may fire between any two steps of the producer except inside its two-line
 critical sections, including in the middle of a copy: `Interrupts` stands at each such point
 and runs the callback any number of times.
 */
module AudioRing {
  import opened CTypes

  const BUFFER_SIZE := 4096
  const BUFFER_COUNT := 32
  const RING_SIZE := 131072  // BUFFER_COUNT * BUFFER_SIZE

  // ---------------------------------------------------------------------------
  // Slots in use
  // ---------------------------------------------------------------------------

  /** How far slot `f` lies ahead of the play position. */
  function Ahead(play: nat, f: nat): nat
    requires play < BUFFER_COUNT
  {
    if f >= play then f - play else f + BUFFER_COUNT - play
  }

  function Next(slot: nat): nat { if slot + 1 == BUFFER_COUNT then 0 else slot + 1 }

  /** Slot `f` is one of the `level` slots waiting to be played. */
  predicate Live(play: nat, level: nat, f: nat)
    requires play < BUFFER_COUNT
  {
    Ahead(play, f) < level
  }

  /** Slot `f` is one of the two slots just behind the play position. */
  predicate JustPlayed(play: nat, f: nat)
    requires play < BUFFER_COUNT
  {
    Ahead(play, f) >= BUFFER_COUNT - 2
  }

  /** The slot `level` places after `play`. */
  ghost function FillSlot(play: nat, level: nat): (f: nat)
    requires play < BUFFER_COUNT
    ensures f < BUFFER_COUNT
    decreases level
  {
    if level == 0 then play else FillSlot(Next(play), level - 1)
  }

  lemma {:induction false} NextFillSlot(play: nat, level: nat)
    requires play < BUFFER_COUNT
    ensures FillSlot(play, level + 1) == Next(FillSlot(play, level))
    decreases level
  {
    if level > 0 {
      NextFillSlot(Next(play), level - 1);
    }
  }

  lemma {:induction false} FillSlotAhead(play: nat, level: nat)
    requires play < BUFFER_COUNT && level <= BUFFER_COUNT
    ensures FillSlot(play, level) == if play + level < BUFFER_COUNT then play + level else play + level - BUFFER_COUNT
    decreases level
  {
    if level > 0 {
      FillSlotAhead(Next(play), level - 1);
    }
  }

  lemma FillSlotIsNotNext(play: nat, level: nat)
    requires play < BUFFER_COUNT && 0 < level < BUFFER_COUNT
    ensures FillSlot(play, level) != play
  {
    FillSlotAhead(play, level);
  }

  lemma {:induction false} FillSlotMod(play: nat, level: nat)
    requires play < BUFFER_COUNT
    ensures FillSlot(play, level) == (play + level) % BUFFER_COUNT
    ensures FillSlot(play, level) == play <==> level % BUFFER_COUNT == 0
    decreases level
  {
    hide FillSlot;
    if level >= BUFFER_COUNT {
      FillSlotLap(play, level - BUFFER_COUNT);
      FillSlotMod(play, level - BUFFER_COUNT);
      LapRemainder(play + level - BUFFER_COUNT);
      LapRemainder(level - BUFFER_COUNT);
    } else {
      FillSlotAhead(play, level);
    }
  }

  lemma LapRemainder(n: nat)
    ensures (n + BUFFER_COUNT) % BUFFER_COUNT == n % BUFFER_COUNT
  {
  }

  /** A whole lap leads back to the same slot. */
  lemma {:induction false} FillSlotLap(play: nat, level: nat)
    requires play < BUFFER_COUNT
    ensures FillSlot(play, level + BUFFER_COUNT) == FillSlot(play, level)
    decreases level
  {
    if level == 0 {
      FillSlotAhead(play, BUFFER_COUNT);
    } else {
      FillSlotLap(Next(play), level - 1);
    }
  }

  /**
   The next slot to fill is clear of the waiting ones exactly up to 31 waiting slots, and also
   clear of the two being played exactly up to 29.
   */
  lemma FillSlotIsFree(play: nat, level: nat)
    requires play < BUFFER_COUNT
    ensures !Live(play, level, FillSlot(play, level)) <==> level <= 31
    ensures !Live(play, level, FillSlot(play, level)) && !JustPlayed(play, FillSlot(play, level)) <==> level <= 29
  {
    if level <= BUFFER_COUNT {
      FillSlotAhead(play, level);
    }
  }

  function Slot(ring: seq<Byte>, f: nat): seq<Byte>
    requires |ring| == RING_SIZE && f < BUFFER_COUNT
  {
    ring[f * BUFFER_SIZE..f * BUFFER_SIZE + BUFFER_SIZE]
  }

  /** Slots are 4096 bytes each, one after the other. */
  lemma SlotBytes(ring: seq<Byte>, f: nat, i: nat)
    requires |ring| == RING_SIZE && f < BUFFER_COUNT && i < 4096
    ensures RING_SIZE == 32 * 4096 && |Slot(ring, f)| == 4096 && Slot(ring, f)[i] == ring[4096 * f + i]
  {
  }

  /** The bytes of `level` slots from `play` on, in the order they will be played. */
  ghost function Unplayed(ring: seq<Byte>, play: nat, level: nat): seq<Byte>
    requires |ring| == RING_SIZE && play < BUFFER_COUNT
    decreases level
  {
    if level == 0 then [] else Slot(ring, play) + Unplayed(ring, Next(play), level - 1)
  }

  lemma {:induction false} UnplayedPush(ring: seq<Byte>, play: nat, level: nat)
    requires |ring| == RING_SIZE && play < BUFFER_COUNT
    ensures Unplayed(ring, play, level + 1) == Unplayed(ring, play, level) + Slot(ring, FillSlot(play, level))
    decreases level
  {
    if level == 0 {
      assert Unplayed(ring, play, 1) == Slot(ring, play) + [];
    } else {
      var next := Next(play);
      UnplayedPush(ring, next, level - 1);
    }
  }

  /** Taking the slot at the play position leaves the rest waiting, and the fill position where it is. */
  lemma PopOne(ring: seq<Byte>, play: nat, level: nat)
    requires |ring| == RING_SIZE && play < BUFFER_COUNT && level > 0
    ensures Unplayed(ring, play, level) == Slot(ring, play) + Unplayed(ring, Next(play), level - 1)
    ensures FillSlot(play, level) == FillSlot(Next(play), level - 1)
  {
  }

  /** A write to a slot that is not waiting leaves what will be played alone. */
  lemma {:induction false} UnplayedFrame(ring: seq<Byte>, ring': seq<Byte>, play: nat, level: nat, f: nat)
    requires |ring| == |ring'| == RING_SIZE && play < BUFFER_COUNT && f < BUFFER_COUNT
    requires forall g :: 0 <= g < BUFFER_COUNT && g != f ==> Slot(ring', g) == Slot(ring, g)
    requires !Live(play, level, f)
    ensures Unplayed(ring', play, level) == Unplayed(ring, play, level)
    decreases level
  {
    if level > 0 {
      var next := Next(play);
      assert play != f && Ahead(next, f) == Ahead(play, f) - 1;
      UnplayedFrame(ring, ring', next, level - 1, f);
    }
  }

  /** Place `k` in the order of playing. */
  lemma {:induction false} UnplayedAt(ring: seq<Byte>, play: nat, level: nat, k: nat)
    requires |ring| == RING_SIZE && play < BUFFER_COUNT && k < level
    ensures |Unplayed(ring, play, level)| == BUFFER_SIZE * level
    ensures Unplayed(ring, play, level)[BUFFER_SIZE * k..BUFFER_SIZE * k + BUFFER_SIZE] == Slot(ring, FillSlot(play, k))
    decreases level
  {
    if k > 0 {
      UnplayedAt(ring, Next(play), level - 1, k - 1);
    } else {
      UnplayedLength(ring, play, level);
    }
  }

  lemma {:induction false} UnplayedLength(ring: seq<Byte>, play: nat, level: nat)
    requires |ring| == RING_SIZE && play < BUFFER_COUNT
    ensures |Unplayed(ring, play, level)| == BUFFER_SIZE * level
    decreases level
  {
    if level > 0 {
      UnplayedLength(ring, Next(play), level - 1);
    }
  }

  lemma PrefixCancels(p: seq<Byte>, a: seq<Byte>, b: seq<Byte>)
    ensures p + a == p + b <==> a == b
  {
    if p + a == p + b {
      assert a == (p + a)[|p|..] && b == (p + b)[|p|..];
    }
  }

  lemma SuffixCancels(a: seq<Byte>, b: seq<Byte>, p: seq<Byte>)
    requires |a| == |b|
    ensures a + p == b + p <==> a == b
  {
    if a + p == b + p {
      assert a == (a + p)[..|a|] && b == (b + p)[..|b|];
    }
  }

  /** With 32 slots waiting or more, what waits is kept only if the fill slot gets the bytes it had. */
  lemma SlotReplaced(was: seq<Byte>, now: seq<Byte>, play: nat, level: nat)
    requires |was| == |now| == RING_SIZE && play < BUFFER_COUNT && level >= BUFFER_COUNT
    requires var f := FillSlot(play, level);
             forall i :: 0 <= i < RING_SIZE && !(f * BUFFER_SIZE <= i < f * BUFFER_SIZE + BUFFER_SIZE) ==> now[i] == was[i]
    ensures var f := FillSlot(play, level);
            Unplayed(now, play, level) == Unplayed(was, play, level) <==> Slot(now, f) == Slot(was, f)
  {
    hide Unplayed, FillSlot, HandedValid, GivenValid;
    var f, k := FillSlot(play, level), level - BUFFER_COUNT;
    FillSlotLap(play, k);
    UnplayedAt(was, play, level, k);
    UnplayedAt(now, play, level, k);
    if Slot(now, f) == Slot(was, f) {
      SameRing(was, now, f);
    }
  }

  lemma SameRing(was: seq<Byte>, now: seq<Byte>, f: nat)
    requires |was| == |now| == RING_SIZE && f < BUFFER_COUNT && Slot(now, f) == Slot(was, f)
    requires forall i :: 0 <= i < RING_SIZE && !(f * BUFFER_SIZE <= i < f * BUFFER_SIZE + BUFFER_SIZE) ==> now[i] == was[i]
    ensures now == was
  {
    var at := f * BUFFER_SIZE;
    forall i | 0 <= i < RING_SIZE
      ensures now[i] == was[i]
    {
      if at <= i < at + BUFFER_SIZE {
        assert now[i] == Slot(now, f)[i - at] && was[i] == Slot(was, f)[i - at];
      }
    }
  }

  /** A byte stored in the fill slot, with at most 31 slots waiting. */
  lemma StoreFrame(ring: seq<Byte>, i: nat, b: Byte, play: nat, level: nat)
    requires |ring| == RING_SIZE && play < BUFFER_COUNT
    requires var f := FillSlot(play, level); f * BUFFER_SIZE <= i < f * BUFFER_SIZE + BUFFER_SIZE
    ensures level <= 31 ==> Unplayed(ring[i := b], play, level) == Unplayed(ring, play, level)
    ensures level <= 31 ==> !Live(play, level, FillSlot(play, level))
    ensures level <= 29 ==> !JustPlayed(play, FillSlot(play, level))
  {
    if level <= 31 {
      FillSlotIsFree(play, level);
      UnplayedFrame(ring, ring[i := b], play, level, FillSlot(play, level));
    }
  }

  /** Appending the next piece of `src` to a stream that ends with its first `at` bytes. */
  lemma AppendPiece(stream: seq<Byte>, src: seq<Byte>, at: nat, end: nat)
    requires at <= end <= |src|
    ensures stream + src[..at] + src[at..end] == stream + src[..end]
  {
    assert src[..at] + src[at..end] == src[..end];
  }

  // ---------------------------------------------------------------------------
  // Levels
  // ---------------------------------------------------------------------------

  function Max(a: nat, b: nat): nat { if a > b then a else b }

  /** An append of `total` bytes fills up a carry buffer that holds `carryFill`. */
  predicate Commits(carryFill: nat, total: nat) { carryFill > 0 && carryFill + total >= BUFFER_SIZE }

  /** Stereo samples are four bytes, so stepping a sample pointer loses none. */
  lemma SamplesAreWhole(total: nat, carryFill: nat)
    requires total % 4 == 0 && carryFill % 4 == 0 && carryFill < BUFFER_SIZE
    ensures total / 2 * 2 == total
    ensures var space := BUFFER_SIZE - carryFill; space % 4 == 0 && space / 2 * 2 == space
  {
    WholeSamples(total);
    SpaceIsWhole(carryFill);
    WholeSamples(BUFFER_SIZE - carryFill);
  }

  lemma WholeSamples(n: nat)
    requires n % 4 == 0
    ensures n / 2 * 2 == n
  {
    var half := n / 2;
    assert n == 2 * half || n == 2 * half + 1;
    assert n != 2 * half + 1 by {
      if n == 2 * half + 1 {
        OddIsNoMultiple(half, n / 4);
      }
    }
  }

  lemma OddIsNoMultiple(half: nat, quarter: nat)
    ensures 2 * half + 1 != 4 * quarter
  {
  }

  lemma SpaceIsWhole(n: nat)
    requires n % 4 == 0 && n < BUFFER_SIZE
    ensures (BUFFER_SIZE - n) % 4 == 0
  {
  }

  /** Slots waiting, bytes in the carry buffer, and bytes of a chunk taken. */
  datatype Levels = Levels(level: nat, carryFill: nat, accepted: nat)

  /** Whole buffers that the direct loop moves when it starts at `level`. */
  function WholeBuffers(level: nat, rest: nat): nat {
    Min(rest / BUFFER_SIZE, if level < BUFFER_COUNT - 2 then BUFFER_COUNT - 2 - level else 0)
  }

  /** An append during which no interrupt takes a slot, in closed form. */
  function QuietAppend(level: nat, carryFill: nat, total: nat): Levels
    requires carryFill < BUFFER_SIZE
  {
    if carryFill > 0 && !Commits(carryFill, total) then Levels(level, carryFill + total, total)
    else
      var head, level1: nat := if carryFill > 0 then BUFFER_SIZE - carryFill else 0,
                               if carryFill > 0 then level + 1 else level;
      var whole := WholeBuffers(level1, total - head);
      var left := total - head - BUFFER_SIZE * whole;
      if left < BUFFER_SIZE then Levels(level1 + whole, left, total)
      else Levels(level1 + whole, 0, head + BUFFER_SIZE * whole)
  }

  function LevelAfterCarry(level: nat, carryFill: nat, total: nat): nat {
    if Commits(carryFill, total) then level + 1 else level
  }

  /** What an append guarantees when no interrupt took a slot meanwhile. */
  predicate QuietOutcome(level: nat, carryFill: nat, total: nat, after: Levels)
    requires carryFill < BUFFER_SIZE
  {
    && after.carryFill < BUFFER_SIZE && after.accepted <= total
    && BUFFER_SIZE * after.level + after.carryFill == BUFFER_SIZE * level + carryFill + after.accepted
    && after.accepted >= Min(total, if carryFill > 0 then BUFFER_SIZE - carryFill else 0)
    && after.level <= Max(LevelAfterCarry(level, carryFill, total), BUFFER_COUNT - 2)
    && (after.accepted < total ==>
          after.level >= BUFFER_COUNT - 2 && total - after.accepted >= BUFFER_SIZE && after.carryFill == 0)
  }

  /** These guarantees leave one possible outcome, the closed form. */
  lemma QuietOutcomeIsClosedForm(level: nat, carryFill: nat, total: nat, after: Levels)
    requires carryFill < BUFFER_SIZE
    ensures QuietOutcome(level, carryFill, total, after) <==> after == QuietAppend(level, carryFill, total)
  {
  }

  /** One append leaves at most one slot more than before, or 30. */
  lemma QuietLevelBound(level: nat, carryFill: nat, total: nat)
    requires carryFill < BUFFER_SIZE
    ensures QuietAppend(level, carryFill, total).level <= Max(level + 1, BUFFER_COUNT - 2)
  {
  }

  /** `n` appends of one buffer each, with no interrupt in between. */
  function QuietBurst(level: nat, carryFill: nat, n: nat): nat
    requires carryFill < BUFFER_SIZE
    decreases n
  {
    if n == 0 then level
    else
      var after := QuietAppend(level, carryFill, BUFFER_SIZE);
      QuietBurst(after.level, after.carryFill, n - 1)
  }

  /**
   The bound of 30 slots is not an invariant: once the carry buffer is in use every append of
   one buffer commits one, so a burst of them passes any level, the 32 slots of the ring included.
   */
  lemma {:induction false} BurstIsUnbounded(level: nat, carryFill: nat, n: nat)
    requires 0 < carryFill < BUFFER_SIZE
    ensures QuietBurst(level, carryFill, n) == level + n
    decreases n
  {
    if n > 0 {
      var after := QuietAppend(level, carryFill, BUFFER_SIZE);
      assert after == Levels(level + 1, carryFill, BUFFER_SIZE);
      BurstIsUnbounded(level + 1, carryFill, n - 1);
    }
  }

  /**
   The last slot given to the DSP has been stepped over, unless it is the one that started
   playback, which is still waiting; the slot before it has been stepped over too.
   */
  ghost predicate HandedValid(playing: bool, handed: seq<nat>, play: nat, level: nat)
    requires play < BUFFER_COUNT
  {
    && (!playing ==> handed == [])
    && (forall i :: 0 <= i < |handed| ==> handed[i] < BUFFER_COUNT)
    && (|handed| >= 1 ==>
          var last := handed[|handed| - 1];
          Ahead(play, last) == BUFFER_COUNT - 1 || (last == play && level > 0 && |handed| == 1))
    && (|handed| >= 2 ==> JustPlayed(play, handed[|handed| - 2]))
  }

  lemma HandedPop(handed: seq<nat>, play: nat, level: nat)
    requires play < BUFFER_COUNT && level > 0 && HandedValid(true, handed, play, level)
    ensures HandedValid(true, handed + [play], Next(play), level - 1)
  {
  }

  /** The DSP is given the slot that starts playback, and then every slot taken from the ring, that one again. */
  ghost predicate GivenValid(playing: bool, given: seq<Byte>, kickoff: seq<Byte>, popped: seq<Byte>) {
    if playing then |kickoff| == BUFFER_SIZE && given == kickoff + popped else given == [] && popped == []
  }

  lemma GivenPop(given: seq<Byte>, kickoff: seq<Byte>, popped: seq<Byte>, slot: seq<Byte>)
    requires GivenValid(true, given, kickoff, popped)
    ensures GivenValid(true, given + slot, kickoff, popped + slot)
  {
  }

  function LastTwo(slots: seq<nat>): seq<nat> { slots[if |slots| >= 2 then |slots| - 2 else 0..] }

  lemma LastTwoPush(slots: seq<nat>, slot: nat, f: nat)
    requires f in LastTwo(slots + [slot])
    ensures f in LastTwo(slots) || f == slot
  {
  }

  // ---------------------------------------------------------------------------
  // The renderer state
  // ---------------------------------------------------------------------------

  class AudioRing {
    const ring: array<Byte>
    const carry: array<Byte>
    var carryFill: nat
    var bufferFill: nat
    var bufferPlay: nat
    var buffered: int
    var playing: bool

    /** The number of slots waiting to be played. */
    ghost var level: nat
    /** Everything taken from the front of the ring so far. */
    ghost var popped: seq<Byte>
    /** The ring slots given to the DSP since playback started, in order. */
    ghost var handed: seq<nat>
    /** The bytes those slots held when they were given. */
    ghost var given: seq<Byte>
    /** What the slot that started playback held. */
    ghost var kickoff: seq<Byte>
    /** A byte has been written to a slot that was waiting or being played. */
    ghost var clobbered: bool
    /** Some chunk that filled up the carry buffer arrived while the fill slot was in use. */
    ghost var risky: bool
    /** The most slots that were waiting when a chunk arrived. */
    ghost var highWater: nat

    ghost predicate Allocated()
      reads this
    {
      ring.Length == RING_SIZE && carry.Length == BUFFER_SIZE && ring != carry
    }

    ghost predicate Valid()
      reads this
    {
      && Allocated()
      && bufferPlay < BUFFER_COUNT && buffered == BUFFER_SIZE * level
      && bufferFill == FillSlot(bufferPlay, level)
      && carryFill <= BUFFER_SIZE && carryFill % 4 == 0
      && HandedValid(playing, handed, bufferPlay, level) && GivenValid(playing, given, kickoff, popped)
    }

    /** Slot `f` is one of the two most recently given to the DSP. */
    ghost predicate WithDsp(f: nat)
      reads this
    {
      f in LastTwo(handed)
    }

    /** The slot to be filled next waits to be played or is with the DSP. */
    ghost predicate FillSlotInUse()
      reads this
    {
      level >= BUFFER_COUNT || WithDsp(bufferFill)
    }

    /** Everything that has entered the ring, played or still waiting. */
    ghost function RingStream(): seq<Byte>
      reads this, ring
      requires Valid()
    {
      popped + Unplayed(ring[..], bufferPlay, level)
    }

    /** Every byte accepted since the start: through the ring, then in the carry buffer. */
    ghost function Stream(): seq<Byte>
      reads this, ring, carry
      requires Valid()
    {
      RingStream() + carry[..carryFill]
    }

    /** ar_init. */
    constructor ()
      ensures Valid() && Stream() == [] && level == 0 && carryFill == 0 && !playing && !clobbered
      ensures fresh(ring) && fresh(carry)
    {
      ring := new Byte[RING_SIZE](_ => 0);
      carry := new Byte[BUFFER_SIZE](_ => 0);
      carryFill, bufferFill, bufferPlay, buffered, playing := 0, 0, 0, 0, false;
      popped, handed, given, kickoff, clobbered, risky, level, highWater := [], [], [], [], false, false, 0, 0;
    }

    /** ar_start: everything is reset, whatever state a stop left behind. */
    method Start()
      requires Allocated()
      modifies this
      ensures Valid() && Stream() == [] && level == 0 && carryFill == 0 && !playing
      ensures clobbered == old(clobbered) && highWater == 0 && !risky
    {
      bufferFill, bufferPlay := 0, 0;
      buffered := 0;
      carryFill := 0;
      playing := false;
      popped, handed, given, level, highWater, risky := [], [], [], 0, 0, false;
    }

    /**
     ar_stop: the ring is emptied but its positions are kept, so the state is fit for another
     decode without a start only when the fill position happened to meet the play position.
     */
    method Stop()
      requires Valid()
      modifies this
      ensures Allocated() && buffered == 0 && carryFill == 0 && !playing
      ensures Valid() <==> old(level) % BUFFER_COUNT == 0
    {
      FillSlotMod(bufferPlay, level);
      playing := false;
      buffered := 0;
      carryFill := 0;
      handed, given, popped, level := [], [], [], 0;
    }

    /** Free bytes as the producer sees them: two slots less than the ring has. */
    function GetSpace(): int
      reads this
    {
      BUFFER_SIZE * (BUFFER_COUNT - 2) - buffered
    }

    /** The DMA interrupt: give the next slot, or silence, to the DSP. */
    method DmaCallback()
      requires Valid()
      modifies `bufferPlay, `buffered, `level, `popped, `handed, `given
      ensures Valid()
      ensures if playing && old(level) > 0 then
                level == old(level) - 1 && bufferPlay == Next(old(bufferPlay)) &&
                handed == old(handed) + [old(bufferPlay)] && popped == old(popped) + Slot(ring[..], old(bufferPlay)) &&
                given == old(given) + Slot(ring[..], old(bufferPlay))
              else
                unchanged(this)
      ensures RingStream() == old(RingStream())
      ensures !old(FillSlotInUse()) ==> !FillSlotInUse()
    {
      hide LastTwo, HandedValid, GivenValid, Unplayed, FillSlot, Slot;
      if playing && buffered > 0 {
        if level < BUFFER_COUNT {
          FillSlotIsNotNext(bufferPlay, level);
        }
        HandedPop(handed, bufferPlay, level);
        PopOne(ring[..], bufferPlay, level);
        GivenPop(given, kickoff, popped, Slot(ring[..], bufferPlay));
        handed := handed + [bufferPlay];
        popped := popped + Slot(ring[..], bufferPlay);
        given := given + Slot(ring[..], bufferPlay);
        assert Next(bufferPlay) == (bufferPlay + 1) % BUFFER_COUNT;
        bufferPlay := (bufferPlay + 1) % BUFFER_COUNT;
        buffered := buffered - BUFFER_SIZE;
        level := level - 1;
        assert old(popped) + (Slot(ring[..], old(bufferPlay)) + Unplayed(ring[..], bufferPlay, level)) == RingStream();
        if WithDsp(bufferFill) {
          LastTwoPush(old(handed), old(bufferPlay), bufferFill);
        }
      }
    }

    /** Any number of DMA interrupts: slots move from the front of the ring to the DSP. */
    method Interrupts()
      requires Valid()
      modifies `bufferPlay, `buffered, `level, `popped, `handed, `given
      ensures Valid() && FillSlot(bufferPlay, level) == old(FillSlot(bufferPlay, level))
      ensures level <= old(level) && old(popped) <= popped
      ensures |popped| + BUFFER_SIZE * level == |old(popped)| + BUFFER_SIZE * old(level)
      ensures RingStream() == old(RingStream()) && Stream() == old(Stream())
      ensures popped == old(popped) ==> bufferPlay == old(bufferPlay) && level == old(level) && handed == old(handed)
      ensures !old(FillSlotInUse()) ==> !FillSlotInUse()
    {
      hide Unplayed, FillSlot, HandedValid, GivenValid;
      var n: nat := *;
      while n > 0
        invariant Valid() && FillSlot(bufferPlay, level) == old(FillSlot(bufferPlay, level))
        invariant level <= old(level) && old(popped) <= popped
        invariant |popped| + BUFFER_SIZE * level == |old(popped)| + BUFFER_SIZE * old(level)
        invariant RingStream() == old(RingStream())
        invariant popped == old(popped) ==> bufferPlay == old(bufferPlay) && level == old(level) && handed == old(handed)
        invariant !old(FillSlotInUse()) ==> !FillSlotInUse()
      {
        DmaCallback();
        n := n - 1;
      }
    }
  
    /**
     The memcpy of one buffer into the fill slot, a byte at a time with interrupts between
     the bytes. What is waiting survives it when at most 31 slots were waiting, and no slot
     waiting or with the DSP is written when at most 29 were. With no interrupt meanwhile such
     a slot is written exactly when the fill slot is one.
     */
    method CopyToFillSlot(src: seq<Byte>)
      requires Valid() && |src| == BUFFER_SIZE
      modifies `bufferPlay, `buffered, `level, `popped, `handed, `given, `clobbered, ring
      ensures Valid() && FillSlot(bufferPlay, level) == old(FillSlot(bufferPlay, level))
      ensures level <= old(level) && old(popped) <= popped
      ensures |popped| + BUFFER_SIZE * level == |old(popped)| + BUFFER_SIZE * old(level)
      ensures Slot(ring[..], bufferFill) == src
      ensures old(level) <= 31 ==> RingStream() == old(RingStream())
      ensures old(level) <= 29 ==> clobbered == old(clobbered)
      ensures popped == old(popped) ==> level == old(level) && handed == old(handed)
      ensures popped == old(popped) ==>
                (RingStream() == old(RingStream()) <==> old(level) <= 31 || old(Slot(ring[..], bufferFill)) == src)
      ensures !old(FillSlotInUse()) ==> clobbered == old(clobbered)
      ensures popped == old(popped) ==> (clobbered <==> old(clobbered) || old(FillSlotInUse()))
    {
      hide Unplayed, FillSlot, HandedValid, GivenValid;
      var at := bufferFill * BUFFER_SIZE;
      ghost var level0 := level;
      var j := 0;
      while j < BUFFER_SIZE
        invariant 0 <= j <= BUFFER_SIZE
        invariant Valid() && FillSlot(bufferPlay, level) == old(FillSlot(bufferPlay, level))
        invariant level <= old(level) && old(popped) <= popped
        invariant |popped| + BUFFER_SIZE * level == |old(popped)| + BUFFER_SIZE * old(level)
        invariant forall i :: 0 <= i < j ==> ring[at + i] == src[i]
        invariant level0 <= 31 ==> RingStream() == old(RingStream())
        invariant level0 <= 29 ==> clobbered == old(clobbered)
        invariant popped == old(popped) ==> bufferPlay == old(bufferPlay) && level == old(level) && handed == old(handed)
        invariant popped == old(popped) ==> (clobbered <==> old(clobbered) || (j > 0 && old(FillSlotInUse())))
        invariant !old(FillSlotInUse()) ==> !FillSlotInUse() && clobbered == old(clobbered)
        invariant forall i :: 0 <= i < RING_SIZE && !(at <= i < at + BUFFER_SIZE) ==> ring[i] == old(ring[i])
      {
        Interrupts();
        StoreByte(at + j, src[j]);
        j := j + 1;
      }
      assert Slot(ring[..], bufferFill) == src;
      if popped == old(popped) && level >= BUFFER_COUNT {
        SlotReplaced(old(ring[..]), ring[..], bufferPlay, level);
        PrefixCancels(popped, Unplayed(ring[..], bufferPlay, level), Unplayed(old(ring[..]), bufferPlay, level));
      }
    }

    /** One byte of the copy, noting whether it hits a slot in use. */
    method StoreByte(i: nat, b: Byte)
      requires Valid() && bufferFill * BUFFER_SIZE <= i < bufferFill * BUFFER_SIZE + BUFFER_SIZE
      modifies `clobbered, ring
      ensures Valid() && ring[..] == old(ring[..])[i := b]
      ensures level <= 31 ==> RingStream() == old(RingStream())
      ensures clobbered == (old(clobbered) || FillSlotInUse())
      ensures level <= 29 ==> clobbered == old(clobbered)
    {
      hide Unplayed, FillSlot, GivenValid;
      ghost var was := ring[..];
      FillSlotIsFree(bufferPlay, level);
      if Live(bufferPlay, level, bufferFill) || WithDsp(bufferFill) {
        clobbered := true;
      }
      ring[i] := b;
      StoreFrame(was, i, b, bufferPlay, level);
      assert level <= 29 ==> !WithDsp(bufferFill);
    }

    /** The critical section that publishes the fill slot. */
    method Publish()
      requires Valid()
      modifies `bufferFill, `buffered, `level
      ensures Valid() && level == old(level) + 1
      ensures RingStream() == old(RingStream()) + Slot(ring[..], old(bufferFill))
    {
      UnplayedPush(ring[..], bufferPlay, level);
      NextFillSlot(bufferPlay, level);
      bufferFill := (bufferFill + 1) % BUFFER_COUNT;
      buffered := buffered + BUFFER_SIZE;
      level := level + 1;
    }
  
    lemma RingLength()
      requires Valid()
      ensures |RingStream()| == |popped| + BUFFER_SIZE * level
    {
      UnplayedLength(ring[..], bufferPlay, level);
    }

    /** Copy one buffer into the ring and publish it. */
    method AppendBuffer(src: seq<Byte>)
      requires Valid() && |src| == BUFFER_SIZE
      modifies `bufferFill, `bufferPlay, `buffered, `level, `popped, `handed, `given, `clobbered, ring
      ensures Valid() && old(popped) <= popped && level <= old(level) + 1
      ensures |popped| + BUFFER_SIZE * level == |old(popped)| + BUFFER_SIZE * (old(level) + 1)
      ensures old(level) <= 31 ==> RingStream() == old(RingStream()) + src
      ensures popped == old(popped) ==>
                (RingStream() == old(RingStream()) + src <==>
                 old(level) <= 31 || old(Slot(ring[..], bufferFill)) == src)
      ensures old(level) <= 29 ==> clobbered == old(clobbered)
      ensures !old(FillSlotInUse()) ==> clobbered == old(clobbered)
      ensures popped == old(popped) ==> (clobbered <==> old(clobbered) || old(FillSlotInUse()))
    {
      hide Unplayed, FillSlot, HandedValid, GivenValid;
      RingLength();
      CopyToFillSlot(src);
      RingLength();
      SuffixCancels(RingStream(), old(RingStream()), src);
      Publish();
    }

    /** One turn of the direct loop, whose guard has found at most 29 slots waiting. */
    method AppendDirect(src: seq<Byte>)
      requires Valid() && |src| == BUFFER_SIZE && carryFill == 0 && level <= 29
      modifies `bufferFill, `bufferPlay, `buffered, `level, `popped, `handed, `given, `clobbered, ring
      ensures Valid() && old(popped) <= popped && level <= BUFFER_COUNT - 2
      ensures |popped| + BUFFER_SIZE * level == |old(popped)| + BUFFER_SIZE * (old(level) + 1)
      ensures Stream() == old(Stream()) + src && clobbered == old(clobbered)
    {
      hide Unplayed, FillSlot, HandedValid, GivenValid;
      AppendBuffer(src);
      Interrupts();
      assert carry[..0] == [];
    }

    /** commit_carry: a full carry buffer goes to the ring, with no check for space. */
    method CommitCarry()
      requires Valid() && carryFill == BUFFER_SIZE
      modifies `carryFill, `bufferFill, `bufferPlay, `buffered, `level, `popped, `handed, `given, `clobbered, ring
      ensures Valid() && carryFill == 0 && old(popped) <= popped && level <= old(level) + 1
      ensures |popped| + BUFFER_SIZE * level == |old(popped)| + BUFFER_SIZE * (old(level) + 1)
      ensures old(level) <= 31 ==> Stream() == old(Stream())
      ensures popped == old(popped) ==>
                (Stream() == old(Stream()) <==> old(level) <= 31 || old(Slot(ring[..], bufferFill)) == old(carry[..]))
      ensures old(level) <= 29 ==> clobbered == old(clobbered)
      ensures !old(FillSlotInUse()) ==> clobbered == old(clobbered)
      ensures popped == old(popped) ==> (clobbered <==> old(clobbered) || old(FillSlotInUse()))
    {
      hide Unplayed, FillSlot, HandedValid, GivenValid;
      AppendBuffer(carry[..]);
      Interrupts();
      carryFill := 0;
      assert carry[..0] == [] && carry[..BUFFER_SIZE] == carry[..];
    }

    /** The memcpy into the carry buffer. */
    method AddToCarry(src: seq<Byte>)
      requires Valid() && carryFill + |src| <= BUFFER_SIZE && |src| % 4 == 0
      modifies `carryFill, `bufferPlay, `buffered, `level, `popped, `handed, `given, carry
      ensures Valid() && carryFill == old(carryFill) + |src| && old(popped) <= popped && level <= old(level)
      ensures |popped| + BUFFER_SIZE * level == |old(popped)| + BUFFER_SIZE * old(level)
      ensures Stream() == old(Stream()) + src
      ensures popped == old(popped) ==> level == old(level) && handed == old(handed)
      ensures !old(FillSlotInUse()) ==> !FillSlotInUse()
    {
      hide Unplayed, FillSlot, HandedValid, GivenValid;
      Interrupts();
      ghost var stream := RingStream();
      CopyToCarry(src);
      carryFill := carryFill + |src|;
      assert RingStream() == stream;
    }

    method CopyToCarry(src: seq<Byte>)
      requires ring != carry && carryFill + |src| <= carry.Length
      modifies carry
      ensures carry[..carryFill + |src|] == old(carry[..carryFill]) + src
    {
      forall i | 0 <= i < |src| {
        carry[carryFill + i] := src[i];
      }
    }

    /**
     append_to_ring. A prefix of the chunk joins the stream: all of it, unless at least one
     buffer was left over when 30 slots had been filled.
     */
    method AppendToRing(src: seq<Byte>) returns (ghost accepted: nat)
      requires Valid() && carryFill < BUFFER_SIZE && |src| % 4 == 0
      modifies this, ring, carry
      ensures Valid() && carryFill < BUFFER_SIZE && old(popped) <= popped
      ensures playing == old(playing) && highWater == old(highWater) && kickoff == old(kickoff) && risky == old(risky)
      ensures accepted <= |src|
      ensures accepted < |src| ==>
                && |src| - accepted >= BUFFER_SIZE
                && BUFFER_SIZE * old(level) + old(carryFill) + accepted >= BUFFER_SIZE * (BUFFER_COUNT - 2)
      ensures |popped| + BUFFER_SIZE * level + carryFill ==
              |old(popped)| + BUFFER_SIZE * old(level) + old(carryFill) + accepted
      ensures !Commits(old(carryFill), |src|) || old(level) <= 31 ==> Stream() == old(Stream()) + src[..accepted]
      ensures !Commits(old(carryFill), |src|) || old(level) <= 29 ==> clobbered == old(clobbered)
      ensures !old(FillSlotInUse()) ==> clobbered == old(clobbered)
      ensures popped == old(popped) && Commits(old(carryFill), |src|) ==> (clobbered <==> old(clobbered) || old(FillSlotInUse()))
      ensures level <= Max(LevelAfterCarry(old(level), old(carryFill), |src|), BUFFER_COUNT - 2)
      ensures popped == old(popped) ==>
                QuietOutcome(old(level), old(carryFill), |src|, Levels(level, carryFill, accepted))
    {
      hide Unplayed, FillSlot, HandedValid, GivenValid, FillSlotInUse, Stream, RingStream;
      var at := FillUpCarry(src);
      ghost var taken := AppendRest(src[at..]);
      accepted := at + taken;
      assert src[at..][..taken] == src[at..accepted];
      AppendPiece(old(Stream()), src, at, accepted);
    }

    /** The tail of append_to_ring: whole buffers to the ring, and a shorter rest to the carry. */
    method AppendRest(src: seq<Byte>) returns (ghost accepted: nat)
      requires Valid() && |src| % 4 == 0 && carryFill < BUFFER_SIZE && (carryFill > 0 ==> src == [])
      modifies this, ring, carry
      ensures Valid() && carryFill < BUFFER_SIZE && old(popped) <= popped
      ensures playing == old(playing) && highWater == old(highWater) && kickoff == old(kickoff) && risky == old(risky)
      ensures accepted <= |src|
      ensures accepted < |src| ==>
                && |src| - accepted >= BUFFER_SIZE
                && BUFFER_SIZE * old(level) + old(carryFill) + accepted >= BUFFER_SIZE * (BUFFER_COUNT - 2)
      ensures |popped| + BUFFER_SIZE * level + carryFill ==
              |old(popped)| + BUFFER_SIZE * old(level) + old(carryFill) + accepted
      ensures Stream() == old(Stream()) + src[..accepted] && clobbered == old(clobbered)
      ensures level <= Max(old(level), BUFFER_COUNT - 2)
      ensures accepted < |src| ==> carryFill == 0
    {
      hide Unplayed, FillSlot, HandedValid, GivenValid, FillSlotInUse, Stream, RingStream;
      Interrupts();
      var at := AppendWholeBuffers(src);
      accepted := at;
      var total := |src| - at;
      if 0 < total < BUFFER_SIZE {
        AddToCarry(src[at..]);
        accepted := |src|;
        AppendPiece(old(Stream()), src, at, |src|);
      }
    }

    /** The direct loop: whole buffers go straight to the ring while the guard finds space. */
    method AppendWholeBuffers(src: seq<Byte>) returns (at: nat)
      requires Valid() && |src| % 4 == 0 && (carryFill > 0 ==> src == [])
      modifies `bufferFill, `bufferPlay, `buffered, `level, `popped, `handed, `given, `clobbered, ring
      ensures Valid() && old(popped) <= popped && clobbered == old(clobbered)
      ensures at <= |src| && at % 4 == 0 && (|src| - at < BUFFER_SIZE || level >= BUFFER_COUNT - 2)
      ensures |popped| + BUFFER_SIZE * level == |old(popped)| + BUFFER_SIZE * old(level) + at
      ensures Stream() == old(Stream()) + src[..at]
      ensures level <= Max(old(level), BUFFER_COUNT - 2)
    {
      hide Unplayed, FillSlot, HandedValid, GivenValid;
      ghost var before := Stream();
      at := 0;
      var total := |src|;
      while total >= BUFFER_SIZE && GetSpace() >= BUFFER_SIZE
        invariant 0 <= total && at + total == |src| && at % 4 == 0 && total <= |src|
        invariant Valid() && old(popped) <= popped && clobbered == old(clobbered)
        invariant |popped| + BUFFER_SIZE * level == |old(popped)| + BUFFER_SIZE * old(level) + at
        invariant Stream() == before + src[..at]
        invariant level <= Max(old(level), BUFFER_COUNT - 2)
      {
        AppendDirect(src[at..at + BUFFER_SIZE]);
        AppendPiece(before, src, at, at + BUFFER_SIZE);
        at := at + BUFFER_SIZE / 2 * 2;
        total := total - BUFFER_SIZE;
      }
    }

    /** The head of append_to_ring: top up a carry buffer that has begun to fill. */
    method FillUpCarry(src: seq<Byte>) returns (at: nat)
      requires Valid() && carryFill < BUFFER_SIZE && |src| % 4 == 0
      modifies this, ring, carry
      ensures Valid() && playing == old(playing) && highWater == old(highWater) && kickoff == old(kickoff) && risky == old(risky) && old(popped) <= popped
      ensures at % 4 == 0 && at == Min(|src|, if old(carryFill) > 0 then BUFFER_SIZE - old(carryFill) else 0)
      ensures carryFill == if Commits(old(carryFill), |src|) then 0 else old(carryFill) + at
      ensures level <= LevelAfterCarry(old(level), old(carryFill), |src|)
      ensures |popped| + BUFFER_SIZE * level + carryFill ==
              |old(popped)| + BUFFER_SIZE * old(level) + old(carryFill) + at
      ensures !Commits(old(carryFill), |src|) || old(level) <= 31 ==> Stream() == old(Stream()) + src[..at]
      ensures !Commits(old(carryFill), |src|) || old(level) <= 29 ==> clobbered == old(clobbered)
      ensures !old(FillSlotInUse()) ==> clobbered == old(clobbered)
      ensures popped == old(popped) && Commits(old(carryFill), |src|) ==> (clobbered <==> old(clobbered) || old(FillSlotInUse()))
    {
      hide Unplayed, FillSlot, HandedValid, GivenValid;
      at := 0;
      if carryFill > 0 {
        var space := BUFFER_SIZE - carryFill;
        var n := if |src| < space then |src| else space;
        SamplesAreWhole(|src|, carryFill);
        AddToCarry(src[..n]);
        at := n / 2 * 2;
        if carryFill == BUFFER_SIZE {
          CommitCarry();
        }
      }
    }
  
    /**
     Playback starts: the first waiting slot is given to the DSP without being taken from the
     ring, so the first interrupt gives the same slot again.
     */
    method StartPlayback()
      requires Valid() && !playing && level > 0
      modifies `playing, `handed, `given, `kickoff
      ensures Valid() && playing && handed == [bufferPlay]
      ensures given == kickoff == Slot(ring[..], bufferPlay) && kickoff <= Stream()
      ensures RingStream() == old(RingStream()) && Stream() == old(Stream())
    {
      hide Unplayed, FillSlot;
      PopOne(ring[..], bufferPlay, level);
      playing := true;
      handed := handed + [bufferPlay];
      kickoff := Slot(ring[..], bufferPlay);
      given := given + kickoff;
      assert kickoff + popped == kickoff && kickoff <= RingStream();
    }

    /** Records what a chunk finds on its arrival. */
    ghost method NoteArrival(total: nat)
      requires Valid()
      modifies `highWater, `risky
      ensures Valid() && Stream() == old(Stream()) && FillSlotInUse() == old(FillSlotInUse())
      ensures highWater == Max(old(highWater), level)
      ensures risky == (old(risky) || (Commits(carryFill, total) && FillSlotInUse()))
    {
      highWater := Max(highWater, level);
      risky := risky || (Commits(carryFill, total) && FillSlotInUse());
    }

    /** ar_decode_and_play_sample after the decoder. The first slot that fills starts playback. */
    method DecodeAndPlay(src: seq<Byte>) returns (ghost accepted: nat)
      requires Valid() && carryFill < BUFFER_SIZE && |src| % 4 == 0
      modifies this, ring, carry
      ensures Valid() && carryFill < BUFFER_SIZE && old(popped) <= popped && accepted <= |src|
      ensures accepted < |src| ==>
                && |src| - accepted >= BUFFER_SIZE
                && BUFFER_SIZE * old(level) + old(carryFill) + accepted >= BUFFER_SIZE * (BUFFER_COUNT - 2)
      ensures !Commits(old(carryFill), |src|) || old(level) <= 31 ==> Stream() == old(Stream()) + src[..accepted]
      ensures !Commits(old(carryFill), |src|) || old(level) <= 29 ==> clobbered == old(clobbered)
      ensures !old(FillSlotInUse()) ==> clobbered == old(clobbered)
      ensures popped == old(popped) && Commits(old(carryFill), |src|) ==> (clobbered <==> old(clobbered) || old(FillSlotInUse()))
      ensures playing <==> old(playing) || level > 0
      ensures highWater == Max(old(highWater), old(level))
      ensures risky == (old(risky) || (Commits(old(carryFill), |src|) && old(FillSlotInUse())))
      ensures !old(playing) && playing ==> handed == [bufferPlay] && level > 0
      ensures !old(playing) && playing ==> given == kickoff == Slot(ring[..], bufferPlay) && kickoff <= Stream()
      ensures old(playing) ==> kickoff == old(kickoff)
    {
      hide Unplayed, FillSlot, HandedValid, GivenValid, FillSlotInUse, Stream, RingStream;
      NoteArrival(|src|);
      accepted := AppendToRing(src);
      if !playing && buffered > 0 {
        StartPlayback();
      }
    }

    /**
     A whole session: start, then any number of chunks, with interrupts all along. The DSP is
     given the first slot of the stream, and then the stream from its beginning, as far as it
     was taken from the ring: the first slot twice.
     */
    method Session(chunks: seq<seq<Byte>>) returns (ghost accepted: seq<nat>)
      requires Allocated() && forall i :: 0 <= i < |chunks| ==> |chunks[i]| % 4 == 0
      modifies this, ring, carry
      ensures Valid() && Fits(chunks, accepted)
      ensures highWater <= 31 ==> Stream() == Prefixes(chunks, accepted)
      ensures playing ==> |kickoff| == 4096 && given == kickoff + popped && popped <= Stream()
      ensures highWater <= 31 && playing ==> kickoff <= Stream()
      ensures !playing ==> given == []
      ensures !risky ==> clobbered == old(clobbered)
      ensures highWater <= 29 ==> clobbered == old(clobbered)
    {
      hide Unplayed, FillSlot, Prefixes, Fits;
      PrefixesOfNothing();
      Start();
      accepted := [];
      ghost var stream := [];
      var n := 0;
      assert chunks[..0] == [];
      while n < |chunks|
        invariant 0 <= n <= |chunks|
        invariant Valid() && carryFill < BUFFER_SIZE
        invariant Fits(chunks[..n], accepted)
        invariant highWater <= 31 ==> Stream() == stream
        invariant highWater <= 31 && playing ==> kickoff <= Stream()
        invariant stream == Prefixes(chunks[..n], accepted)
        invariant !risky ==> clobbered == old(clobbered)
        invariant highWater <= 29 ==> clobbered == old(clobbered)
      {
        ghost var a := DecodeAndPlay(chunks[n]);
        stream := stream + chunks[n][..a];
        PrefixesPush(chunks[..n], accepted, chunks[n], a);
        assert chunks[..n] + [chunks[n]] == chunks[..n + 1];
        accepted, n := accepted + [a], n + 1;
      }
      assert chunks[..n] == chunks;
    }
  }

  ghost predicate Fits(chunks: seq<seq<Byte>>, counts: seq<nat>) {
    |counts| == |chunks| && forall i :: 0 <= i < |chunks| ==> counts[i] <= |chunks[i]|
  }

  /** The first `counts[i]` bytes of every chunk, one after the other. */
  ghost function Prefixes(chunks: seq<seq<Byte>>, counts: seq<nat>): seq<Byte>
    requires Fits(chunks, counts)
  {
    if chunks == [] then []
    else
      var n := |chunks| - 1;
      Prefixes(chunks[..n], counts[..n]) + chunks[n][..counts[n]]
  }

  lemma PrefixesOfNothing()
    ensures Fits([], []) && Prefixes([], []) == []
  {
  }

  lemma PrefixesPush(chunks: seq<seq<Byte>>, counts: seq<nat>, chunk: seq<Byte>, count: nat)
    requires Fits(chunks, counts) && count <= |chunk|
    ensures Fits(chunks + [chunk], counts + [count])
    ensures Prefixes(chunks + [chunk], counts + [count]) == Prefixes(chunks, counts) + chunk[..count]
  {
    assert (chunks + [chunk])[..|chunks|] == chunks && (counts + [count])[..|counts|] == counts;
  }
}
