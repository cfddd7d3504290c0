/**
 The decoder thread and the drawing thread together: pictures are stored in the two frame
 buffers in turn, the buffers are queued, and each draw uploads the buffer it takes from the
 queue. A decode has a beginning and an end, and draws may come in between.
 */
module Playback {
  import opened CTypes
  import opened FrameDecode
  import opened FrameQueue
  import opened YuvTexture

  /** Everything of a picture that fits the stream is at its place in the textures. */
  ghost predicate Shows(t: Textures, pic: Picture, width: nat, height: nat) {
    LumaShown(pic, width, height, t) && ChromaShown(pic, width, height, t)
  }

  /** Planes that are said to hold a whole frame hold its picture. */
  ghost predicate Holds(held: Held, pictures: seq<Picture>, width: nat, height: nat, p: Planes) {
    held.Whole? ==>
      held.frame < |pictures| &&
      var pic := pictures[held.frame]; Stored(pic, Min(pic.width, width), Min(pic.height, height), p)
  }

  lemma HoldsLonger(held: Held, pictures: seq<Picture>, pic: Picture, width: nat, height: nat, p: Planes)
    requires Holds(held, pictures, width, height, p)
    ensures Holds(held, pictures + [pic], width, height, p)
  {
  }

  lemma HoldsLast(pictures: seq<Picture>, pic: Picture, width: nat, height: nat, p: Planes)
    requires Stored(pic, Min(pic.width, width), Min(pic.height, height), p)
    ensures Holds(Whole(|pictures|), pictures + [pic], width, height, p)
  {
  }

  class Player {
    const stream: VideoStream
    const even: FrameBuffer
    const odd: FrameBuffer
    const gpu: YuvTextures
    /** How many frames have been decoded, and their pictures. */
    var nextFrame: nat
    ghost var pictures: seq<Picture>

    function Buffer(b: nat): FrameBuffer { if b == 0 then even else odd }

    ghost function Arrays(buffer: FrameBuffer): set<object> { {buffer.y, buffer.u, buffer.v} }

    ghost function GpuParts(): set<object> { {gpu, gpu.yltexture, gpu.yrtexture, gpu.utexture, gpu.vtexture} }

    ghost function StreamParts(): set<object> {
      {stream, stream.queue, stream.queue.messages, stream.buffers}
    }

    /** The parts are separate memory. */
    ghost predicate Separate() {
      && Arrays(even) !! Arrays(odd) && Arrays(even) + Arrays(odd) !! GpuParts() + StreamParts()
      && GpuParts() !! StreamParts()
      && this as object !in Arrays(even) + Arrays(odd) + GpuParts() + StreamParts()
    }

    /** Both buffers and the textures are set up for one resolution, which fits them. */
    ghost predicate Configured()
      reads gpu
    {
      && even.Valid() && odd.Valid() && odd.width == even.width && odd.height == even.height
      && 2 <= even.width < 65528 && 2 <= even.height < 65528 && even.height % 8 == 0
      && gpu.Valid() && gpu.CurrentSizes() == SizesFor(even.width, even.height) && gpu.CurrentSizes().FitTextures()
      && PitchFits(even.ystride, gpu.ywidth) && PitchFits(even.uvstride, gpu.uvwidth)
    }

    ghost predicate Honest(b: nat)
      requires b < NUM_BUFFERS && |stream.frames.buffers| == NUM_BUFFERS
      reads this, stream, Arrays(Buffer(b))
    {
      Holds(stream.frames.buffers[b], pictures, even.width, even.height, Buffer(b).Contents())
    }

    ghost predicate Valid()
      reads this, StreamParts(), GpuParts(), Arrays(even), Arrays(odd)
    {
      && Separate() && Configured() && stream.Valid()
      && nextFrame == |pictures| == stream.frames.finished && Honest(0) && Honest(1)
    }

    lemma BuffersConfigured()
      requires Configured()
      ensures even.Valid() && odd.Valid() && odd.width == even.width && odd.height == even.height
    {
    }

    /** A player of parts that were set up for one resolution. */
    constructor (stream: VideoStream, even: FrameBuffer, odd: FrameBuffer, gpu: YuvTextures)
      requires stream.Valid() && stream.frames == FrameQueue.Start()
      requires even.Valid() && odd.Valid() && odd.width == even.width && odd.height == even.height
      requires 2 <= even.width < 65528 && 2 <= even.height < 65528 && even.height % 8 == 0
      requires gpu.Valid() && gpu.CurrentSizes() == SizesFor(even.width, even.height) && gpu.CurrentSizes().FitTextures()
      requires PitchFits(even.ystride, gpu.ywidth) && PitchFits(even.uvstride, gpu.uvwidth)
      requires {even.y as object, even.u, even.v} !! {odd.y as object, odd.u, odd.v}
      requires {even.y as object, even.u, even.v, odd.y, odd.u, odd.v} !!
               {gpu as object, gpu.yltexture, gpu.yrtexture, gpu.utexture, gpu.vtexture,
                stream, stream.queue, stream.queue.messages, stream.buffers}
      requires {gpu as object, gpu.yltexture, gpu.yrtexture, gpu.utexture, gpu.vtexture} !!
               {stream as object, stream.queue, stream.queue.messages, stream.buffers}
      ensures Valid() && pictures == [] && this.stream == stream && this.even == even && this.odd == odd && this.gpu == gpu
    {
      hide SizesFor, TilesAcross, PitchFits, Sizes.FitTextures, Stream.Inv;
      this.stream, this.even, this.odd, this.gpu := stream, even, odd, gpu;
      nextFrame, pictures := 0, [];
    }

    /** The decoder begins to write: from here on the current buffer may hold anything. */
    method BeginDecode(ynoise: nat -> Byte, unoise: nat -> Byte, vnoise: nat -> Byte)
      requires Valid() && stream.frames.started == stream.frames.finished
      modifies StreamParts(), Arrays(even), Arrays(odd)
      ensures Valid() && pictures == old(pictures) && stream.frames == old(stream.frames).Begin()
    {
      hide Stored, Configured, BufferOf;
      var b := stream.currentTexture;
      stream.Begin();
      Buffer(b).Scribble(ynoise, unoise, vnoise);
    }

    /** The copies of a picture into the current buffer; the other buffer is left alone. */
    method Write(pic: Picture)
      requires Valid()
      requires pic.y.HasRows(Min(pic.height, even.height), Min(pic.width, even.width))
      requires pic.u.HasRows(Min(pic.height, even.height) / 2, Min(pic.width, even.width) / 2)
      requires pic.v.HasRows(Min(pic.height, even.height) / 2, Min(pic.width, even.width) / 2)
      modifies Arrays(Buffer(stream.currentTexture))
      ensures stream.Valid() && Configured() && Honest(1 - stream.currentTexture)
      ensures Stored(pic, Min(pic.width, even.width), Min(pic.height, even.height), Buffer(stream.currentTexture).Contents())
    {
      hide Holds, Stored, Min, Configured, Plane.HasRows, FrameBuffer.Valid, Stream.Inv, BufferOf;
      BuffersConfigured();
      Buffer(stream.currentTexture).Store(pic);
    }

    /** The current buffer, which holds the picture, is submitted, and the other one becomes current. */
    method Submit(ghost pic: Picture)
      requires Separate() && Configured() && stream.Valid() && Honest(1 - stream.currentTexture)
      requires stream.frames.started != stream.frames.finished && nextFrame == |pictures| == stream.frames.finished
      requires Stored(pic, Min(pic.width, even.width), Min(pic.height, even.height), Buffer(stream.currentTexture).Contents())
      modifies this, StreamParts()
      ensures Valid() && pictures == old(pictures) + [pic] && stream.frames == old(stream.frames).End()
    {
      hide Holds, Stored, Min, Configured, Stream.Inv, Stream.End, BufferOf;
      ghost var b, frames := stream.currentTexture, stream.frames;
      frames.EndBuffers();
      HoldsLast(pictures, pic, even.width, even.height, Buffer(b).Contents());
      HoldsLonger(frames.buffers[1 - b], pictures, pic, even.width, even.height, Buffer(1 - b).Contents());
      stream.End(nextFrame);
      nextFrame := nextFrame + 1;
      pictures := pictures + [pic];
    }

    /** The decoder has written the picture, submits the buffer and moves on to the other one. */
    method EndDecode(pic: Picture)
      requires Valid() && stream.frames.started != stream.frames.finished
      requires pic.y.HasRows(Min(pic.height, even.height), Min(pic.width, even.width))
      requires pic.u.HasRows(Min(pic.height, even.height) / 2, Min(pic.width, even.width) / 2)
      requires pic.v.HasRows(Min(pic.height, even.height) / 2, Min(pic.width, even.width) / 2)
      modifies this, StreamParts(), Arrays(even), Arrays(odd)
      ensures Valid() && pictures == old(pictures) + [pic] && stream.frames == old(stream.frames).End()
    {
      hide Holds, Stored, Min, Configured, Plane.HasRows, Stream.Inv, Stream.End, BufferOf;
      Write(pic);
      Submit(pic);
    }

    lemma HeldIsKnown(b: nat)
      requires b < NUM_BUFFERS && |stream.frames.buffers| == NUM_BUFFERS && Honest(b)
      ensures stream.frames.buffers[b].Whole? ==> stream.frames.buffers[b].frame < |pictures|
    {
    }

    /** The upload of a buffer shows the picture it is said to hold. */
    method Show(b: nat)
      requires b < NUM_BUFFERS && |stream.frames.buffers| == NUM_BUFFERS && Separate() && Configured() && Honest(b)
      modifies GpuParts()
      ensures Configured()
      ensures var held := stream.frames.buffers[b];
              held.Whole? ==>
                held.frame < |pictures| && Shows(gpu.Contents(), pictures[held.frame], even.width, even.height)
    {
      hide Stored, LumaShown, ChromaShown, Min, PitchFits, SizesFor, TilesAcross, Sizes.FitTextures, PitchCache.Valid;
      DrawBuffer(Buffer(b), gpu);
    }

    /**
     One draw. What is shown afterwards is the picture of the oldest submitted frame n exactly
     as long as the second next decode has not begun; then it is that of a later frame, or of
     none when that one is just being written.
     */
    method Draw() returns (shown: Option<Held>)
      requires Valid()
      modifies StreamParts(), GpuParts()
      ensures Valid() && pictures == old(pictures) && stream.frames == old(stream.frames).Draw()
      ensures shown.None? ==> old(stream.frames).queue == [] && gpu.Contents() == old(gpu.Contents())
      ensures shown.Some? ==>
                && old(stream.frames).queue != []
                && var n := old(stream.frames).queue[0];
                   (shown.value == Whole(n) <==> stream.frames.started <= n + 2) &&
                   (shown.value == Partial || (shown.value.Whole? && n <= shown.value.frame < |pictures|))
      ensures shown.Some? && shown.value.Whole? ==>
                && shown.value.frame < |pictures|
                && Shows(gpu.Contents(), pictures[shown.value.frame], even.width, even.height)
    {
      hide Holds, Shows, Configured, Stream.InOrder, Stream.Accounted;
      ghost var before := stream.frames;
      var b: nat;
      shown, b := stream.Draw();
      if shown.None? {
        return;
      }
      before.IntactExactly(before.queue[0]);
      HeldIsKnown(b);
      Show(b);
    }
  }
}
