/**
 The queue of decoded frames between the decoder thread and the drawing thread, and the two
 frame buffers its entries point to. Each queue operation runs under the queue mutex.
 */
module FrameQueue {
  import opened CTypes

  const MAX_QUEUEMESSAGES := 16
  const NUM_BUFFERS := 2

  // ---------------------------------------------------------------------------
  // The queue: 32-bit indices that wrap, and 16 slots
  // ---------------------------------------------------------------------------

  /** a + k on 32-bit unsigned integers. */
  function Ahead(a: nat, k: nat): (r: nat)
    requires a < U32 && k <= MAX_QUEUEMESSAGES
    ensures r < U32
  {
    if a + k < U32 then a + k else a + k - U32
  }

  function Slot(index: nat): nat { index % MAX_QUEUEMESSAGES }

  /** Sixteen consecutive indices use sixteen slots, also across the wrap. */
  lemma SlotsDiffer(a: nat, j: nat, k: nat)
    requires a < U32 && j < k < MAX_QUEUEMESSAGES
    ensures Slot(Ahead(a, j)) != Slot(Ahead(a, k))
  {
    SlotOf(a, j);
    SlotOf(a, k);
  }

  lemma SlotOf(a: nat, k: nat)
    requires a < U32 && k <= MAX_QUEUEMESSAGES
    ensures Slot(Ahead(a, k)) == (a + k) % 16
  {
  }

  class Queue<T(0)> {
    const messages: array<T>
    var readIndex: nat
    var writeIndex: nat
    ghost var items: seq<T>

    ghost predicate Stored(k: nat)
      requires k < |items| <= MAX_QUEUEMESSAGES && readIndex < U32 && messages.Length == MAX_QUEUEMESSAGES
      reads this, messages
    {
      messages[Slot(Ahead(readIndex, k))] == items[k]
    }

    ghost predicate Valid()
      reads this, messages
    {
      messages.Length == MAX_QUEUEMESSAGES && readIndex < U32 && |items| <= MAX_QUEUEMESSAGES &&
      writeIndex == Ahead(readIndex, |items|) &&
      forall k {:trigger Stored(k)} :: 0 <= k < |items| ==> Stored(k)
    }

    /** wii_stream_init; the indices may start anywhere. */
    constructor (start: nat)
      requires start < U32
      ensures Valid() && items == [] && fresh(messages)
    {
      messages := new T[MAX_QUEUEMESSAGES];
      readIndex, writeIndex, items := start, start, [];
    }

    method GetFrame() returns (message: Option<T>)
      requires Valid()
      modifies this
      ensures Valid()
      ensures old(items) == [] ==> message == None && items == []
      ensures old(items) != [] ==> message == Some(old(items)[0]) && items == old(items)[1..]
    {
      var elementsIn := Sub32(writeIndex, readIndex);
      if elementsIn == 0 {
        return None;
      }
      assert Stored(0);
      message := Some(messages[Slot(readIndex)]);
      readIndex := Ahead(readIndex, 1);
      items := items[1..];
      forall k | 0 <= k < |items|
        ensures Stored(k)
      {
        assert old(Stored(k + 1));
      }
    }

    /** A message that finds the queue full is lost. */
    method AddFrame(msg: T) returns (ghost kept: bool)
      requires Valid()
      modifies this, messages
      ensures Valid() && kept == (|old(items)| < MAX_QUEUEMESSAGES)
      ensures items == if kept then old(items) + [msg] else old(items)
    {
      var elementsIn := Sub32(writeIndex, readIndex);
      if elementsIn == MAX_QUEUEMESSAGES {
        return false;
      }
      var i := Slot(writeIndex);
      writeIndex := Ahead(writeIndex, 1);
      messages[i] := msg;
      items := items + [msg];
      forall k | 0 <= k < |items|
        ensures Stored(k)
      {
        if k < |items| - 1 {
          assert old(Stored(k));
          SlotsDiffer(readIndex, k, |items| - 1);
        }
      }
      return true;
    }
  }

  // ---------------------------------------------------------------------------
  // Frames: what is queued, what is drawn, what the two buffers hold
  // ---------------------------------------------------------------------------

  /** A buffer holds a whole frame, nothing yet, or one that is still being written. */
  datatype Held = Empty | Partial | Whole(frame: nat)

  function BufferOf(frame: nat): (b: nat)
    ensures b < NUM_BUFFERS
  {
    frame % NUM_BUFFERS
  }

  /**
   Frames are numbered as they are decoded. `started` counts the frames whose copy into a
   buffer has begun, `finished` those that were copied and submitted.
   */
  datatype Stream = Stream(queue: seq<nat>, started: nat, finished: nat, drawn: seq<nat>, dropped: seq<nat>,
                           buffers: seq<Held>)
  {
    /** The decoder begins to write into the current buffer. */
    function Begin(): Stream
      requires |buffers| == NUM_BUFFERS
    {
      if started != finished then this
      else this.(started := started + 1, buffers := buffers[BufferOf(finished) := Partial])
    }

    /** The frame is whole, is submitted, and the other buffer becomes current. */
    function End(): Stream
      requires |buffers| == NUM_BUFFERS
    {
      if started == finished then this
      else
        var done := this.(finished := finished + 1, buffers := buffers[BufferOf(finished) := Whole(finished)]);
        if |queue| < MAX_QUEUEMESSAGES then done.(queue := queue + [finished]) else done.(dropped := dropped + [finished])
    }

    /** The drawing thread takes the oldest entry. */
    function Draw(): Stream {
      if queue == [] then this else this.(queue := queue[1..], drawn := drawn + [queue[0]])
    }

    /** The frames drawn and then the frames queued are in the order of submission, without repetition. */
    ghost predicate InOrder() {
      forall j, k :: 0 <= j < k < |drawn + queue| ==> (drawn + queue)[j] < (drawn + queue)[k]
    }

    /** Every submitted frame was drawn, is queued, or was dropped, and only one of these. */
    ghost predicate Accounted() {
      (forall n :: n in drawn + queue || n in dropped <==> 0 <= n < finished) &&
      (forall n :: n in drawn + queue ==> n !in dropped)
    }

    /** A frame's buffer holds it as long as the second next frame has not begun. */
    ghost predicate BuffersHold() {
      |buffers| == NUM_BUFFERS && finished <= started <= finished + 1 &&
      (started > finished ==> buffers[BufferOf(finished)] == Partial) &&
      (finished >= 1 ==> buffers[BufferOf(finished - 1)] == Whole(finished - 1)) &&
      (finished >= 2 && started == finished ==> buffers[BufferOf(finished - 2)] == Whole(finished - 2))
    }

    ghost predicate Inv() {
      |queue| <= MAX_QUEUEMESSAGES && InOrder() && Accounted() && BuffersHold()
    }

    lemma BeginKeeps()
      requires Inv()
      ensures Begin().Inv()
    {
    }

    lemma EndKeeps()
      requires Inv()
      ensures End().Inv()
    {
      hide InOrder, Accounted;
      EndAccounts();
      EndHolds();
    }

    lemma EndHolds()
      requires BuffersHold()
      ensures End().BuffersHold()
    {
    }

    lemma EndAccounts()
      requires |buffers| == NUM_BUFFERS && |queue| <= MAX_QUEUEMESSAGES && InOrder() && Accounted()
      ensures End().InOrder() && End().Accounted() && |End().queue| <= MAX_QUEUEMESSAGES
    {
      hide BufferOf;
      var s := End();
      if started != finished {
        if |queue| < MAX_QUEUEMESSAGES {
          assert s.drawn + s.queue == (drawn + queue) + [finished];
          assert forall j :: 0 <= j < |drawn + queue| ==> (drawn + queue)[j] in drawn + queue;
          PushKeepsOrder(drawn + queue, finished);
        }
        forall n
          ensures n in s.drawn + s.queue || n in s.dropped <==> (n in drawn + queue || n in dropped) || n == finished
        {
        }
      }
    }

    lemma PushKeepsOrder(s: seq<nat>, n: nat)
      requires forall j, k :: 0 <= j < k < |s| ==> s[j] < s[k]
      requires forall j :: 0 <= j < |s| ==> s[j] < n
      ensures forall j, k :: 0 <= j < k < |s + [n]| ==> (s + [n])[j] < (s + [n])[k]
    {
    }

    /** What the end of a decode does to the buffers. */
    lemma EndBuffers()
      requires Inv() && started != finished
      ensures |buffers| == NUM_BUFFERS && End().buffers == buffers[BufferOf(finished) := Whole(finished)]
      ensures End().finished == finished + 1
    {
    }

    lemma DrawKeeps()
      requires Inv()
      ensures Draw().Inv()
    {
      if queue != [] {
        assert Draw().drawn + Draw().queue == drawn + queue;
      }
    }

    /**
     A submitted frame is intact exactly while the decode of the second next frame has not
     begun; after that its buffer holds a later frame, whole or partial, never an earlier one.
     */
    lemma IntactExactly(n: nat)
      requires Inv() && n < finished
      ensures buffers[BufferOf(n)] == Whole(n) <==> started <= n + 2
      ensures var held := buffers[BufferOf(n)]; held == Partial || (held.Whole? && held.frame >= n)
    {
    }

    /** When more than two frames wait, the one drawn next has already been overwritten. */
    lemma LongQueueIsStale()
      requires Inv() && |queue| > NUM_BUFFERS
      ensures buffers[BufferOf(queue[0])] != Whole(queue[0])
    {
      var all, at := drawn + queue, |drawn|;
      assert queue[0] == all[at] && all[at] < all[at + 1] < all[at + 2];
      assert all[at + 2] in all;
      assert queue[0] in all;
      IntactExactly(queue[0]);
    }
  }

  datatype Event = BeginDecode | EndDecode | DrawFrame

  function Next(s: Stream, e: Event): Stream
    requires |s.buffers| == NUM_BUFFERS
  {
    match e
    case BeginDecode => s.Begin()
    case EndDecode => s.End()
    case DrawFrame => s.Draw()
  }

  function Start(): Stream { Stream([], 0, 0, [], [], [Empty, Empty]) }

  function Run(events: seq<Event>): (s: Stream)
    ensures |s.buffers| == NUM_BUFFERS
  {
    if events == [] then Start() else Next(Run(events[..|events| - 1]), events[|events| - 1])
  }

  /** In every run, frames are drawn in the order of submission, and each is drawn, queued or dropped. */
  lemma {:induction false} RunKeeps(events: seq<Event>)
    ensures Run(events).Inv()
  {
    if events != [] {
      RunKeeps(events[..|events| - 1]);
      var s := Run(events[..|events| - 1]);
      match events[|events| - 1]
      case BeginDecode => s.BeginKeeps();
      case EndDecode => s.EndKeeps();
      case DrawFrame => s.DrawKeeps();
    }
  }

  /** In every run no frame vanishes, and losses come only after sixteen frames were kept. */
  lemma {:induction false} Conservation(events: seq<Event>)
    ensures var s := Run(events); s.finished == |s.drawn| + |s.queue| + |s.dropped|
    ensures var s := Run(events); s.dropped != [] ==> |s.drawn| + |s.queue| >= 16
  {
    if events != [] {
      Conservation(events[..|events| - 1]);
    }
  }

  // ---------------------------------------------------------------------------
  // The program
  // ---------------------------------------------------------------------------

  /** The queue of buffer numbers, the buffers, and the decoder's place in them. */
  class VideoStream {
    const queue: Queue<nat>
    const buffers: array<Held>
    var currentTexture: nat
    ghost var frames: Stream

    ghost predicate Valid()
      reads this, queue, queue.messages, buffers
    {
      queue.Valid() && buffers.Length == NUM_BUFFERS && queue.messages as object != buffers as object &&
      frames.Inv() && buffers[..] == frames.buffers && currentTexture == BufferOf(frames.finished) &&
      |queue.items| == |frames.queue| &&
      forall k :: 0 <= k < |queue.items| ==> queue.items[k] == BufferOf(frames.queue[k])
    }

    constructor (start: nat)
      requires start < U32
      ensures currentTexture == 0
      ensures Valid() && frames == Start() && fresh(queue) && fresh(queue.messages) && fresh(buffers)
    {
      queue := new Queue<nat>(start);
      buffers := new Held[NUM_BUFFERS](_ => Empty);
      currentTexture, frames := 0, Start();
    }

    /** The plane copies begin. */
    method Begin()
      requires Valid() && frames.started == frames.finished
      modifies this, buffers
      ensures Valid() && frames == old(frames).Begin()
    {
      frames.BeginKeeps();
      frames := frames.Begin();
      buffers[currentTexture] := Partial;
    }

    /** The copies are done: the buffer is submitted and the decoder moves on to the other one. */
    method End(frame: nat)
      requires Valid() && frames.started != frames.finished && frame == frames.finished
      modifies this, buffers, queue, queue.messages
      ensures Valid() && frames == old(frames).End()
      ensures currentTexture == 1 - old(currentTexture)
      ensures queue.items == old(queue.items) + if |old(queue.items)| < 16 then [old(currentTexture)] else []
    {
      frames.EndKeeps();
      frames := frames.End();
      buffers[currentTexture] := Whole(frame);
      ghost var kept := queue.AddFrame(currentTexture);
      currentTexture := currentTexture + 1;
      if currentTexture >= NUM_BUFFERS {
        currentTexture := 0;
      }
    }

    /** get_frame and a look at what the buffer holds. */
    method Draw() returns (shown: Option<Held>, buffer: nat)
      requires Valid()
      modifies this, queue
      ensures Valid() && frames == old(frames).Draw() && currentTexture == old(currentTexture)
      ensures shown.None? <==> old(frames).queue == []
      ensures shown.Some? ==> var n := old(frames).queue[0];
                              n < frames.finished && buffer == n % 2 && shown.value == frames.buffers[buffer] &&
                              (shown.value == Whole(n) <==> frames.started <= n + 2)
    {
      frames.DrawKeeps();
      var message := queue.GetFrame();
      if message == None {
        return None, 0;
      }
      ghost var n := frames.queue[0];
      assert (frames.drawn + frames.queue)[|frames.drawn|] == n;
      assert n in frames.drawn + frames.queue;
      frames.IntactExactly(n);
      buffer := message.value;
      shown := Some(buffers[buffer]);
      frames := frames.Draw();
    }
  }
}
