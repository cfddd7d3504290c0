/**
 The double-buffer flip: the drawing thread issues a copy into one of two framebuffers, the
 GPU reports when it is done, and the retrace interrupt hands the finished buffer to the
 video interface. Each party's code is a method of `VideoOut`; the protocol they form is the
 transition system below, whose steps may interleave in any order.
 */
module FlipProtocol {
  import opened CTypes

  const DELAYRENDER_FRAMES := 4

  /** `whichfb ^= 1` */
  function Other(buffer: nat): nat { if buffer == 0 then 1 else 0 }

  /** The variables the three parties share. */
  datatype Shared = Shared(whichfb: nat, presented: bool, flipPending: bool, syncInterlace: nat, delayFrames: nat) {
    predicate Valid() { whichfb < 2 && delayFrames <= DELAYRENDER_FRAMES }

    /** The retrace may flip on the field that comes next. */
    predicate FlipsOn(nextField: bool) {
      if syncInterlace == 1 then !nextField else if syncInterlace == 2 then nextField else true
    }

    /** This retrace hands buffer `whichfb` to the video interface. */
    predicate Flips(nextField: bool) {
      delayFrames == DELAYRENDER_FRAMES && flipPending && FlipsOn(nextField)
    }

    function Vblank(nextField: bool): Shared {
      if delayFrames < DELAYRENDER_FRAMES then this.(delayFrames := delayFrames + 1)
      else if Flips(nextField) then this.(whichfb := Other(whichfb), flipPending := false)
      else this
    }

    function DrawDone(): Shared { this.(flipPending := true) }
  }

  class VideoOut {
    var whichfb: nat
    var gxPresented: bool
    var flipPending: bool
    var syncInterlace: nat
    var delayrenderFrames: nat
    /** The screen is held black. */
    var black: bool

    /** The buffers handed to the video interface, and those given to the GPU to copy into. */
    ghost var handed: seq<nat>
    ghost var copies: seq<nat>

    ghost function State(): Shared
      reads this
    {
      Shared(whichfb, gxPresented, flipPending, syncInterlace, delayrenderFrames)
    }

    /** gx_video_init2: the video interface shows buffer 0, and so is `whichfb`. */
    constructor (interlaced: bool)
      ensures State() == Shared(0, false, false, if interlaced then 1 else 0, 0)
      ensures black && handed == [0] && copies == []
    {
      whichfb, gxPresented, flipPending, delayrenderFrames, black := 0, false, false, 0, true;
      syncInterlace := if interlaced then 1 else 0;
      handed, copies := [0], [];
    }

    /** vblank_cb, before each retrace. */
    method VblankCb(nextField: bool)
      requires State().Valid()
      modifies `whichfb, `flipPending, `delayrenderFrames, `black, `handed
      ensures State() == old(State()).Vblank(nextField) && State().Valid()
      ensures handed == if old(State()).Flips(nextField) then old(handed) + [old(whichfb)] else old(handed)
      ensures black == (old(black) && !(old(delayrenderFrames) < DELAYRENDER_FRAMES == delayrenderFrames))
    {
      if delayrenderFrames < DELAYRENDER_FRAMES {
        delayrenderFrames := delayrenderFrames + 1;
        if delayrenderFrames == DELAYRENDER_FRAMES {
          black := false;
        }
        return;
      }
      var doflip := if syncInterlace == 1 then !nextField else if syncInterlace == 2 then nextField else true;
      if !flipPending || !doflip {
        return;
      }
      handed := handed + [whichfb];
      whichfb := Other(whichfb);
      flipPending := false;
    }

    /** draw_done_cb, when the GPU has finished a frame. */
    method DrawDoneCb()
      modifies `flipPending
      ensures State() == old(State()).DrawDone()
    {
      flipPending := true;
    }

    /** gx_video_present: issue the copy without waiting for it. */
    method Present()
      modifies `gxPresented, `copies
      ensures State() == old(State()).(presented := true) && copies == old(copies) + [whichfb]
    {
      var target := whichfb;
      copies := copies + [target];
      gxPresented := true;
    }
  }

  // ---------------------------------------------------------------------------
  // The transition system
  // ---------------------------------------------------------------------------

  /**
   Where the drawing thread is in gx_video_draw_yuv and gx_video_present. The argument of the
   copy is read before the copy is issued, and a retrace may come in between.
   */
  datatype Pc = Idle | AwaitDone | Check | AwaitRetrace(since: nat) | Read | Copy(target: nat) | Token | Mark

  /** A buffer handed over: the frame last copied into it, and whether its copy was in flight. */
  datatype Flip = Flip(buffer: nat, frame: int, torn: bool)

  /**
   A state of the three parties. Frames are numbered from 0 in the order their copies are
   issued; `unpaced` is one more than the last frame whose pacing check came before the
   fourth retrace, or 0.
   */
  datatype State = State(
    v: Shared, pc: Pc, copying: Option<nat>, tokenSet: bool, retraces: nat,
    issued: nat, unpaced: nat, inBuffer: seq<int>, flips: seq<Flip>) {

    /** The frame being drawn, or the last one issued, had its pacing check after the fourth retrace. */
    predicate Paced(frame: nat) { unpaced <= frame }
  }

  datatype Event = Main | GpuDone | Retrace(nextField: bool)

  function Initial(syncInterlace: nat): State {
    State(Shared(0, false, false, syncInterlace, 0), Idle, None, false, 0, 0, 0, [-1, -1], [])
  }

  predicate Enabled(s: State, e: Event) {
    match e
    case Main =>
      (match s.pc
       case AwaitDone => s.copying.None?
       case AwaitRetrace(since) => since < s.retraces
       case _ => true)
    case GpuDone => s.copying.Some? && s.tokenSet
    case Retrace(_) => true
  }

  function MainStep(s: State): State
    requires s.v.whichfb < |s.inBuffer| && (s.pc.Copy? ==> s.pc.target < |s.inBuffer|)
  {
    match s.pc
    case Idle => s.(pc := if s.v.presented then AwaitDone else Check)
    case AwaitDone => s.(pc := Check)
    case Check =>
      s.(pc := if s.v.flipPending then AwaitRetrace(s.retraces) else Read,
         unpaced := if s.v.delayFrames < DELAYRENDER_FRAMES then s.issued + 1 else s.unpaced)
    case AwaitRetrace(_) => s.(pc := Read)
    case Read => s.(pc := Copy(s.v.whichfb))
    case Copy(target) =>
      s.(pc := Token, copying := Some(target), tokenSet := false, issued := s.issued + 1,
         inBuffer := s.inBuffer[target := s.issued])
    case Token => s.(pc := Mark, tokenSet := true)
    case Mark => s.(pc := Idle, v := s.v.(presented := true))
  }

  function Next(s: State, e: Event): State
    requires s.v.whichfb < |s.inBuffer| && (s.pc.Copy? ==> s.pc.target < |s.inBuffer|)
  {
    if !Enabled(s, e) then s
    else
      match e
      case Main => MainStep(s)
      case GpuDone => s.(copying := None, v := s.v.DrawDone())
      case Retrace(nextField) =>
        s.(v := s.v.Vblank(nextField), retraces := s.retraces + 1,
           flips := if s.v.Flips(nextField)
                    then s.flips + [Flip(s.v.whichfb, s.inBuffer[s.v.whichfb], s.copying == Some(s.v.whichfb))]
                    else s.flips)
  }

  /** The state after a run; an event that is not enabled is ignored. */
  function Run(syncInterlace: nat, events: seq<Event>): (s: State)
    ensures s.v.Valid() && |s.inBuffer| == 2 && s.v.syncInterlace == syncInterlace
    ensures s.pc.Copy? ==> s.pc.target < 2
  {
    if events == [] then Initial(syncInterlace)
    else Next(Run(syncInterlace, events[..|events| - 1]), events[|events| - 1])
  }

  lemma RunPush(syncInterlace: nat, events: seq<Event>, e: Event)
    ensures Run(syncInterlace, events + [e]) == Next(Run(syncInterlace, events), e)
  {
    assert (events + [e])[..|events|] == events;
  }

  lemma {:induction false} RunAppend(syncInterlace: nat, events: seq<Event>, more: seq<Event>, e: Event)
    ensures Run(syncInterlace, events + (more + [e])) == Next(Run(syncInterlace, events + more), e)
  {
    assert events + (more + [e]) == (events + more) + [e];
    RunPush(syncInterlace, events + more, e);
  }

  // ---------------------------------------------------------------------------
  // When a flip comes
  // ---------------------------------------------------------------------------

  function RetraceCount(events: seq<Event>): nat {
    if events == [] then 0
    else RetraceCount(events[..|events| - 1]) + if events[|events| - 1].Retrace? then 1 else 0
  }

  /** The screen is held black for the first four retraces. */
  lemma {:induction false} RetracesAreCounted(syncInterlace: nat, events: seq<Event>)
    ensures Run(syncInterlace, events).v.delayFrames == if RetraceCount(events) < 4 then RetraceCount(events) else 4
  {
    if events != [] {
      RetracesAreCounted(syncInterlace, events[..|events| - 1]);
    }
  }

  /**
   After any run a retrace hands over one buffer, the one to be handed over next, if and only
   if a flip is pending, four retraces came before, and the field that comes next is the one
   the mode asks for: field 0 in mode 1, field 1 in mode 2, any otherwise. The other buffer is
   then next. Nothing else hands a buffer over.
   */
  lemma FlipComesExactly(syncInterlace: nat, events: seq<Event>, e: Event)
    ensures var s, t := Run(syncInterlace, events), Run(syncInterlace, events + [e]);
            var flips := e.Retrace? && s.v.flipPending && RetraceCount(events) >= 4 &&
                         (syncInterlace == 1 ==> !e.nextField) && (syncInterlace == 2 ==> e.nextField);
            && t.flips == (if flips
                           then s.flips + [Flip(s.v.whichfb, s.inBuffer[s.v.whichfb], s.copying == Some(s.v.whichfb))]
                           else s.flips)
            && (flips ==> t.v.whichfb + s.v.whichfb == 1 && !t.v.flipPending)
            && (!flips ==> t.v.whichfb == s.v.whichfb && (s.v.flipPending ==> t.v.flipPending))
  {
    hide Run;
    RetracesAreCounted(syncInterlace, events);
    RunPush(syncInterlace, events, e);
  }

  /** A flip becomes pending exactly when the GPU reports a copy that was issued with its token. */
  lemma FlipIsPendingAfter(syncInterlace: nat, events: seq<Event>, e: Event)
    ensures var s, t := Run(syncInterlace, events), Run(syncInterlace, events + [e]);
            !s.v.flipPending ==> (t.v.flipPending <==> e == GpuDone && s.copying.Some? && s.tokenSet)
  {
    hide Run;
    RunPush(syncInterlace, events, e);
  }

  // ---------------------------------------------------------------------------
  // Every mode
  // ---------------------------------------------------------------------------

  /** The buffer last handed to the video interface; it starts with buffer 0. */
  function Shown(s: State): nat { if s.flips == [] then 0 else s.flips[|s.flips| - 1].buffer }

  /** What holds in every run of every mode. */
  predicate Ordered(s: State) {
    && s.v.Valid() && |s.inBuffer| == 2 && (s.pc.Copy? ==> s.pc.target < 2)
    && (s.pc.Check? || s.pc.AwaitRetrace? || s.pc.Read? || s.pc.Copy? ==> s.copying.None?)
    && (s.pc.Idle? && !s.v.presented ==> s.copying.None?)
    && (s.copying.Some? ==> s.copying.value < 2 && s.issued > 0 && s.inBuffer[s.copying.value] == s.issued - 1)
    && (forall i :: 0 <= i < |s.flips| ==> s.flips[i].frame < s.issued)
    && s.inBuffer[0] < s.issued && s.inBuffer[1] < s.issued
    && Shown(s) < 2 && (s.v.whichfb == Shown(s) <==> s.flips == []) && (s.flips == [] ==> s.v.whichfb == 0)
    && (s.v.delayFrames < DELAYRENDER_FRAMES ==> s.flips == [])
    && (s.pc.Token? || s.pc.Mark? || s.v.presented ==> s.issued > 0)
  }

  lemma OrderedMain(s: State)
    requires Ordered(s) && Enabled(s, Main)
    ensures Ordered(MainStep(s))
  {
    var t := MainStep(s);
    assert t.v.whichfb == s.v.whichfb && t.flips == s.flips && Shown(t) == Shown(s);
  }

  lemma OrderedRetrace(s: State, field: bool)
    requires Ordered(s)
    ensures Ordered(Next(s, Retrace(field)))
  {
    var t := Next(s, Retrace(field));
    if s.v.Flips(field) {
      assert t.flips[|t.flips| - 1].buffer == s.v.whichfb;
    } else {
      assert t.flips == s.flips;
    }
  }

  lemma OrderedStep(s: State, e: Event)
    requires Ordered(s)
    ensures Ordered(Next(s, e))
  {
    if Enabled(s, e) {
      match e
      case Main => OrderedMain(s);
      case GpuDone => OrderedGpuDone(s);
      case Retrace(field) => OrderedRetrace(s, field);
    }
  }

  lemma OrderedGpuDone(s: State)
    requires Ordered(s) && Enabled(s, GpuDone)
    ensures Ordered(Next(s, GpuDone))
  {
    assert Next(s, GpuDone).flips == s.flips;
  }

  lemma {:induction false} RunIsOrdered(syncInterlace: nat, events: seq<Event>)
    ensures Ordered(Run(syncInterlace, events))
  {
    hide Next, Ordered;
    if events == [] {
      StartIsOrdered(syncInterlace);
    } else {
      RunIsOrdered(syncInterlace, events[..|events| - 1]);
      OrderedStep(Run(syncInterlace, events[..|events| - 1]), events[|events| - 1]);
    }
  }

  lemma StartIsOrdered(syncInterlace: nat)
    ensures Ordered(Initial(syncInterlace))
  {
  }

  /** In every mode and every run the next buffer to be handed over is the one shown exactly until the first flip. */
  lemma {:induction false} CopyTargetIsShown(syncInterlace: nat, events: seq<Event>)
    ensures var s := Run(syncInterlace, events); Shown(s) < 2 && (s.v.whichfb == Shown(s) <==> s.flips == [])
    ensures var s := Run(syncInterlace, events); s.flips == [] ==> s.v.whichfb == 0
  {
    hide Run;
    RunIsOrdered(syncInterlace, events);
  }

  /** The retrace that flips, if any does. */
  function FlipField(syncInterlace: nat): bool { syncInterlace == 2 }

  /** With a flip pending some retraces, and nothing else, bring the flip about. */
  lemma {:induction false} PendingFlipComes(syncInterlace: nat, events: seq<Event>, before: seq<Event>) returns (more: seq<Event>)
    requires var s := Run(syncInterlace, events + before); s.v.flipPending
    ensures var s, t := Run(syncInterlace, events + before), Run(syncInterlace, events + (before + more));
            t == s.(v := s.v.(delayFrames := DELAYRENDER_FRAMES, whichfb := Other(s.v.whichfb), flipPending := false),
                    retraces := t.retraces,
                    flips := s.flips + [Flip(s.v.whichfb, s.inBuffer[s.v.whichfb], s.copying == Some(s.v.whichfb))])
    ensures forall i :: 0 <= i < |more| ==> more[i] != Main
    decreases DELAYRENDER_FRAMES - Run(syncInterlace, events + before).v.delayFrames
  {
    hide Run;
    var s := Run(syncInterlace, events + before);
    var e := Retrace(FlipField(syncInterlace));
    RunAppend(syncInterlace, events, before, e);
    if s.v.delayFrames == DELAYRENDER_FRAMES {
      more := [e];
    } else {
      var rest := PendingFlipComes(syncInterlace, events, before + [e]);
      more := [e] + rest;
      assert before + [e] + rest == before + more;
    }
  }

  /** A frame has been handed over while its copy was in flight. */
  predicate Torn(flips: seq<Flip>, frame: int) {
    exists i :: 0 <= i < |flips| && flips[i].frame == frame && flips[i].torn
  }

  /** No flip is pending before frame `f` is issued, nor while its copy is in flight. */
  predicate NotPending(s: State, f: int) {
    && f <= s.issued && !Torn(s.flips, f)
    && (s.issued == f ==> (s.pc.Read? || s.pc.Copy?) && !s.v.flipPending)
    && (s.issued == f + 1 && s.copying.Some? ==> !s.v.flipPending)
  }

  lemma NotPendingStep(s: State, e: Event, f: int)
    requires Ordered(s) && NotPending(s, f)
    ensures NotPending(Next(s, e), f)
  {
    var t := Next(s, e);
    assert forall i :: 0 <= i < |t.flips| ==>
      i < |s.flips| || (t.flips[i].torn ==> s.copying.Some? && s.v.flipPending && t.flips[i].frame == s.issued - 1);
    assert forall i :: 0 <= i < |s.flips| ==> t.flips[i] == s.flips[i];
    assert !Torn(t.flips, f);
  }

  lemma {:induction false} NeverTorn(syncInterlace: nat, events: seq<Event>, more: seq<Event>, f: int)
    requires NotPending(Run(syncInterlace, events), f)
    ensures NotPending(Run(syncInterlace, events + more), f)
  {
    hide Run, Next, NotPending, Ordered;
    if more == [] {
      assert events + more == events;
    } else {
      var n := |more| - 1;
      NeverTorn(syncInterlace, events, more[..n], f);
      RunIsOrdered(syncInterlace, events + more[..n]);
      NotPendingStep(Run(syncInterlace, events + more[..n]), more[n], f);
      assert more == more[..n] + [more[n]];
      RunAppend(syncInterlace, events, more[..n], more[n]);
    }
  }

  /**
   Exactly when a frame can tear: from the point where the thread has its turn to present it,
   some continuation hands the frame over while its copy is in flight if and only if a flip is
   pending at that point.
   */
  lemma TornExactlyWhenPending(syncInterlace: nat, events: seq<Event>)
    requires Run(syncInterlace, events).pc.Read? || Run(syncInterlace, events).pc.Copy?
    ensures var s := Run(syncInterlace, events);
            s.v.flipPending <==> exists more :: Torn(Run(syncInterlace, events + more).flips, s.issued)
  {
    hide Run, Torn;
    var s := Run(syncInterlace, events);
    RunIsOrdered(syncInterlace, events);
    if s.v.flipPending {
      var more := TearingRun(syncInterlace, events);
      assert Torn(Run(syncInterlace, events + more).flips, s.issued);
    } else {
      NewFrameIsNotTorn(s);
      forall more
        ensures !Torn(Run(syncInterlace, events + more).flips, s.issued)
      {
        NeverTorn(syncInterlace, events, more, s.issued);
      }
    }
  }

  lemma NewFrameIsNotTorn(s: State)
    requires Ordered(s)
    ensures !Torn(s.flips, s.issued)
  {
  }

  /** With a flip pending: issue the copy, and let the retraces come. */
  lemma TearingRun(syncInterlace: nat, events: seq<Event>) returns (more: seq<Event>)
    requires var s := Run(syncInterlace, events); (s.pc.Read? || s.pc.Copy?) && s.v.flipPending
    ensures Torn(Run(syncInterlace, events + more).flips, Run(syncInterlace, events).issued)
  {
    hide Run;
    var s := Run(syncInterlace, events);
    var issue: seq<Event> := [];
    assert events + issue == events;
    if s.pc.Read? {
      RunAppend(syncInterlace, events, issue, Main);
      issue := issue + [Main];
    }
    PendingTarget(syncInterlace, events + issue);
    RunAppend(syncInterlace, events, issue, Main);
    issue := issue + [Main];
    var rest := PendingFlipComes(syncInterlace, events, issue);
    more := issue + rest;
    var t := Run(syncInterlace, events + more);
    assert t.flips[|t.flips| - 1].torn && t.flips[|t.flips| - 1].frame == s.issued;
  }

  /** While a flip is pending at the copy, the target that was read is still the buffer to be handed over. */
  lemma {:induction false} PendingTarget(syncInterlace: nat, events: seq<Event>)
    ensures var s := Run(syncInterlace, events); s.pc.Copy? && s.v.flipPending ==> s.pc.target == s.v.whichfb
  {
    hide Next;
    if events != [] {
      var before, e := Run(syncInterlace, events[..|events| - 1]), events[|events| - 1];
      PendingTarget(syncInterlace, events[..|events| - 1]);
      RunIsOrdered(syncInterlace, events[..|events| - 1]);
      PendingTargetStep(before, e);
    }
  }

  lemma PendingTargetStep(s: State, e: Event)
    requires Ordered(s) && (s.pc.Copy? && s.v.flipPending ==> s.pc.target == s.v.whichfb)
    ensures var t := Next(s, e); t.pc.Copy? && t.v.flipPending ==> t.pc.target == t.v.whichfb
  {
  }

  // ---------------------------------------------------------------------------
  // The gap between reading the target and issuing the copy
  // ---------------------------------------------------------------------------

  /** The thread is about to copy into the buffer that a retrace has put on the screen. */
  predicate OntoShown(s: State) { s.pc.Copy? && s.flips != [] && s.pc.target == Shown(s) }

  predicate NoMain(events: seq<Event>) { forall i :: 0 <= i < |events| ==> events[i] != Main }

  lemma {:induction false} NothingHappens(syncInterlace: nat, events: seq<Event>, more: seq<Event>)
    requires var s := Run(syncInterlace, events); s.pc.Copy? && !s.v.flipPending && NoMain(more)
    ensures var s, t := Run(syncInterlace, events), Run(syncInterlace, events + more);
            t.pc == s.pc && !t.v.flipPending && t.flips == s.flips
  {
    hide Run;
    if more == [] {
      assert events + more == events;
    } else {
      var n := |more| - 1;
      NothingHappens(syncInterlace, events, more[..n]);
      RunIsOrdered(syncInterlace, events + more[..n]);
      assert more == more[..n] + [more[n]];
      RunAppend(syncInterlace, events, more[..n], more[n]);
    }
  }

  /**
   When the target is read, events before the copy is issued can put that very buffer on the
   screen if and only if a flip is pending. So the buffer number alone does not keep the copy
   away from the shown buffer after the first flip.
   */
  lemma OntoShownExactlyWhenPending(syncInterlace: nat, events: seq<Event>)
    requires Run(syncInterlace, events).pc.Read?
    ensures Run(syncInterlace, events).v.flipPending <==>
            exists gap :: NoMain(gap) && OntoShown(Run(syncInterlace, events + ([Main] + gap)))
  {
    hide Run, OntoShown, NoMain;
    var s := Run(syncInterlace, events);
    RunIsOrdered(syncInterlace, events);
    assert events + ([] + [Main]) == events + [Main] && events + [] == events;
    RunAppend(syncInterlace, events, [], Main);
    if s.v.flipPending {
      var gap := PendingFlipComes(syncInterlace, events, [Main]);
      FlipPutsTargetOnScreen(s, Run(syncInterlace, events + ([Main] + gap)));
      assert NoMain(gap) by { NoMainIs(gap); }
    } else {
      forall gap | NoMain(gap)
        ensures !OntoShown(Run(syncInterlace, events + ([Main] + gap)))
      {
        NothingHappens(syncInterlace, events + [Main], gap);
        assert events + [Main] + gap == events + ([Main] + gap);
        StillNotShown(s, Run(syncInterlace, events + ([Main] + gap)));
      }
    }
  }

  lemma NoMainIs(events: seq<Event>)
    requires forall i :: 0 <= i < |events| ==> events[i] != Main
    ensures NoMain(events)
  {
  }

  lemma FlipPutsTargetOnScreen(s: State, t: State)
    requires t.pc == Copy(s.v.whichfb) && t.flips != [] && t.flips[|t.flips| - 1].buffer == s.v.whichfb
    ensures OntoShown(t)
  {
  }

  lemma StillNotShown(s: State, t: State)
    requires Ordered(s) && t.pc == Copy(s.v.whichfb) && t.flips == s.flips
    ensures !OntoShown(t)
  {
  }

  lemma Start(syncInterlace: nat) returns (events: seq<Event>)
    ensures Run(syncInterlace, events) == Initial(syncInterlace)
  {
    events := [];
  }

  /** One more event. */
  lemma Then(syncInterlace: nat, before: seq<Event>, e: Event) returns (after: seq<Event>)
    ensures Run(syncInterlace, after) == Next(Run(syncInterlace, before), e)
  {
    after := before + [e];
    RunPush(syncInterlace, before, e);
  }

  /** From the start, past the fourth retrace, to the first frame on its way to the screen. */
  lemma FirstFrame() returns (events: seq<Event>)
    ensures Run(1, events) == State(Shared(0, true, false, 1, 4), Idle, Some(0), true, 4, 1, 0, [0, -1], [])
  {
    hide Run;
    events := Start(1);
    events := Then(1, events, Retrace(true));
    events := Then(1, events, Retrace(true));
    assert Run(1, events) == Initial(1).(v := Shared(0, false, false, 1, 2), retraces := 2);
    events := Then(1, events, Retrace(true));
    events := Then(1, events, Retrace(true));
    assert Run(1, events) == Initial(1).(v := Shared(0, false, false, 1, 4), retraces := 4);
    events := Then(1, events, Main);
    events := Then(1, events, Main);
    events := Then(1, events, Main);
    assert Run(1, events) == Initial(1).(v := Shared(0, false, false, 1, 4), retraces := 4, pc := Copy(0));
    events := Then(1, events, Main);
    assert Run(1, events) == State(Shared(0, false, false, 1, 4), Token, Some(0), false, 4, 1, 0, [0, -1], []);
    events := Then(1, events, Main);
    events := Then(1, events, Main);
  }

  /**
   In interlaced mode the one retrace the thread waits for may be of the wrong field: the
   second frame is then presented with the flip of the first still pending, although it was
   paced. By the two conditions above it can tear, and it can be copied onto the shown buffer.
   */
  lemma InterlacedCanTear() returns (events: seq<Event>)
    ensures var s := Run(1, events);
            s.pc == Read && s.v.delayFrames == DELAYRENDER_FRAMES && s.Paced(s.issued) && s.v.flipPending
    ensures exists more :: Torn(Run(1, events + more).flips, Run(1, events).issued)
    ensures exists gap :: NoMain(gap) && OntoShown(Run(1, events + ([Main] + gap)))
  {
    hide Run, Torn, NoMain, OntoShown;
    events := FirstFrame();
    events := Then(1, events, GpuDone);
    events := Then(1, events, Main);
    events := Then(1, events, Main);
    assert Run(1, events) == State(Shared(0, true, true, 1, 4), Check, None, true, 4, 1, 0, [0, -1], []);
    events := Then(1, events, Main);
    events := Then(1, events, Retrace(true));
    events := Then(1, events, Main);
    assert Run(1, events) == State(Shared(0, true, true, 1, 4), Read, None, true, 5, 1, 0, [0, -1], []);
    TornExactlyWhenPending(1, events);
    OntoShownExactlyWhenPending(1, events);
  }

  // ---------------------------------------------------------------------------
  // Progressive mode
  // ---------------------------------------------------------------------------

  /** How often a frame has been handed over. */
  function Count(flips: seq<Flip>, frame: int): nat {
    if flips == [] then 0
    else
      var n := |flips| - 1;
      Count(flips[..n], frame) + if flips[n].frame == frame then 1 else 0
  }

  lemma CountPush(flips: seq<Flip>, f: Flip, frame: int)
    ensures Count(flips + [f], frame) == Count(flips, frame) + if f.frame == frame then 1 else 0
  {
    assert (flips + [f])[..|flips|] == flips;
  }

  lemma {:induction false} CountOfNewer(flips: seq<Flip>, frame: int)
    requires forall i :: 0 <= i < |flips| ==> flips[i].frame < frame
    ensures Count(flips, frame) == 0
  {
    if flips != [] {
      CountOfNewer(flips[..|flips| - 1], frame);
    }
  }

  /** The thread and the GPU agree, and frames before the fourth retrace are not paced. */
  predicate Sequenced(s: State) {
    && Ordered(s)
    && (s.pc.Token? ==> s.copying.Some? && !s.tokenSet)
    && (s.pc.Idle? && !s.v.presented ==> s.issued == 0)
    && (s.pc.AwaitRetrace? ==> s.pc.since <= s.retraces)
    && s.unpaced <= s.issued + 1
    && (s.unpaced == s.issued + 1 ==> s.pc.AwaitRetrace? || s.pc.Read? || s.pc.Copy?)
    && (s.v.delayFrames < DELAYRENDER_FRAMES ==> s.unpaced >= s.issued)
    && (s.v.delayFrames < DELAYRENDER_FRAMES && (s.pc.AwaitRetrace? || s.pc.Read? || s.pc.Copy?) ==>
          s.unpaced == s.issued + 1)
  }

  /** Once paced, the thread presents only when no flip is pending, so what it read stays the buffer to hand over. */
  predicate PacedCopyIsClear(s: State) {
    && ((s.pc.Read? || s.pc.Copy?) && s.Paced(s.issued) ==> !s.v.flipPending)
    && (s.pc.Copy? && s.Paced(s.issued) ==> s.pc.target == s.v.whichfb)
    && (s.pc.AwaitRetrace? && s.Paced(s.issued) && s.pc.since < s.retraces ==> !s.v.flipPending)
  }

  /** The last paced frame is being copied, waits for its flip, or has been handed over. */
  predicate LastFrame(s: State)
    requires Sequenced(s)
  {
    var last := s.issued - 1;
    s.issued > 0 && s.Paced(last) ==>
      && (s.copying.Some? ==> !s.v.flipPending && s.copying == Some(s.v.whichfb))
      && (s.copying.Some? || s.v.flipPending ==> s.inBuffer[s.v.whichfb] == last && Count(s.flips, last) == 0)
      && (s.copying.None? && !s.v.flipPending ==> Count(s.flips, last) == 1)
  }

  predicate EarlierFrames(s: State) {
    && (forall f: nat :: s.unpaced <= f && f + 1 < s.issued ==> Count(s.flips, f) == 1)
    && (forall i :: 0 <= i < |s.flips| && s.flips[i].frame >= s.unpaced ==> !s.flips[i].torn)
  }

  predicate Progressive(s: State) {
    Sequenced(s) && PacedCopyIsClear(s) && LastFrame(s) && EarlierFrames(s)
  }

  lemma CopyKeeps(s: State)
    requires Progressive(s) && s.pc.Copy?
    ensures Progressive(MainStep(s))
  {
    var t := MainStep(s);
    CountOfNewer(s.flips, s.issued);
    OrderedStep(s, Main);
    assert s.Paced(s.issued) ==> t.inBuffer[s.v.whichfb] == s.issued;
    assert Sequenced(t) && PacedCopyIsClear(t);
    assert LastFrame(t);
    forall f: nat | t.unpaced <= f && f + 1 < t.issued
      ensures Count(t.flips, f) == 1
    {
      if f == s.issued - 1 {
        assert s.Paced(f) && s.copying.None? && !s.v.flipPending;
      }
    }
  }

  lemma SequencedMain(s: State)
    requires Sequenced(s) && Enabled(s, Main) && !s.pc.Copy?
    ensures Sequenced(MainStep(s))
  {
    OrderedMain(s);
  }

  lemma MainKeeps(s: State)
    requires Progressive(s) && Enabled(s, Main)
    ensures Progressive(MainStep(s))
  {
    if s.pc.Copy? {
      CopyKeeps(s);
    } else {
      SequencedMain(s);
      FramesKept(s, MainStep(s));
      assert PacedCopyIsClear(MainStep(s));
    }
  }

  /** Steps that leave the frames, the copies and the flips alone. */
  lemma FramesKept(s: State, t: State)
    requires Sequenced(s) && Sequenced(t) && LastFrame(s) && EarlierFrames(s)
    requires t.flips == s.flips && t.issued == s.issued && t.inBuffer == s.inBuffer && t.copying == s.copying
    requires t.v.whichfb == s.v.whichfb && t.v.flipPending == s.v.flipPending && s.unpaced <= t.unpaced
    ensures LastFrame(t) && EarlierFrames(t)
  {
    hide Sequenced;
  }

  lemma GpuDoneKeeps(s: State)
    requires Progressive(s) && Enabled(s, GpuDone)
    ensures Progressive(Next(s, GpuDone))
  {
    OrderedStep(s, GpuDone);
  }

  lemma RetraceKeeps(s: State, field: bool)
    requires Progressive(s) && s.v.syncInterlace == 0
    ensures Progressive(Next(s, Retrace(field)))
  {
    if s.v.Flips(field) {
      FlipKeeps(s, field);
    } else {
      var t := Next(s, Retrace(field));
      OrderedStep(s, Retrace(field));
      assert t.flips == s.flips && t.v.flipPending == s.v.flipPending && t.v.whichfb == s.v.whichfb;
      assert Sequenced(t) && PacedCopyIsClear(t);
      FramesKept(s, t);
    }
  }

  function TheFlip(s: State): Flip
    requires s.v.whichfb < |s.inBuffer|
  {
    Flip(s.v.whichfb, s.inBuffer[s.v.whichfb], s.copying == Some(s.v.whichfb))
  }

  lemma FlipSequenced(s: State, field: bool)
    requires Sequenced(s) && PacedCopyIsClear(s) && s.v.Flips(field)
    ensures Sequenced(Next(s, Retrace(field))) && PacedCopyIsClear(Next(s, Retrace(field)))
  {
    OrderedRetrace(s, field);
  }

  /** The flip hands over the last frame if that is paced, and otherwise an unpaced one. */
  lemma FlipCounts(s: State, t: State)
    requires Sequenced(s) && Sequenced(t) && LastFrame(s) && EarlierFrames(s) && s.v.flipPending
    requires t.issued == s.issued && t.unpaced == s.unpaced && t.copying == s.copying && !t.v.flipPending
    requires s.v.whichfb < |s.inBuffer| && t.flips == s.flips + [TheFlip(s)]
    ensures LastFrame(t) && EarlierFrames(t)
  {
    hide Sequenced, Count;
    CountPush(s.flips, TheFlip(s), s.issued - 1);
    forall f: nat | t.unpaced <= f && f + 1 < t.issued
      ensures Count(t.flips, f) == 1
    {
      CountPush(s.flips, TheFlip(s), f);
      assert s.Paced(s.issued - 1);
    }
    PendingIsPaced(s);
  }

  /** With a flip pending, what is handed over is an unpaced frame or the last one, whole. */
  lemma PendingIsPaced(s: State)
    requires Sequenced(s) && LastFrame(s) && s.v.flipPending
    ensures TheFlip(s).frame >= s.unpaced ==> !TheFlip(s).torn
  {
  }

  lemma FlipKeeps(s: State, field: bool)
    requires Progressive(s) && s.v.Flips(field)
    ensures Progressive(Next(s, Retrace(field)))
  {
    FlipSequenced(s, field);
    FlipCounts(s, Next(s, Retrace(field)));
  }

  lemma {:induction false} RunIsProgressive(events: seq<Event>)
    ensures Progressive(Run(0, events))
  {
    if events != [] {
      var before, e := Run(0, events[..|events| - 1]), events[|events| - 1];
      RunIsProgressive(events[..|events| - 1]);
      if Enabled(before, e) {
        match e
        case Main => MainKeeps(before);
        case GpuDone => GpuDoneKeeps(before);
        case Retrace(field) => RetraceKeeps(before, field);
      }
    }
  }

  /**
   In progressive mode, for every frame whose pacing check came after the fourth retrace: no
   retrace hands its buffer over with the copy in flight, and it is handed over exactly once
   before the next present, and never again.
   */
  lemma EachFrameShownOnce(events: seq<Event>, frame: nat)
    requires var s := Run(0, events); s.Paced(frame) && frame < s.issued
    ensures var s := Run(0, events);
            forall i :: 0 <= i < |s.flips| && s.flips[i].frame == frame ==> !s.flips[i].torn
    ensures var s := Run(0, events); Count(s.flips, frame) <= 1
    ensures var s := Run(0, events); frame + 1 < s.issued || s.pc.Read? || s.pc.Copy? ==> Count(s.flips, frame) == 1
  {
    RunIsProgressive(events);
  }

  /**
   In progressive mode a paced frame never touches the screen while it is copied: from the
   read of the target to the end of the copy, the target is not the buffer shown, once there
   has been a flip.
   */
  lemma PacedCopyStaysHidden(events: seq<Event>)
    ensures var s := Run(0, events);
            s.pc.Copy? && s.Paced(s.issued) && s.flips != [] ==> s.pc.target != Shown(s)
    ensures var s := Run(0, events);
            s.copying.Some? && s.issued > 0 && s.Paced(s.issued - 1) && s.flips != [] ==> s.copying.value != Shown(s)
  {
    hide Run;
    RunIsProgressive(events);
  }
}
