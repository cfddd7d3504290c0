/**
 From a decoded picture to the textures: the frame buffers of the stream, the plane copies
 that fill them, and the whole path of a pixel through decode and upload.
 */
module FrameDecode {
  import opened CTypes
  import opened TiledTexture
  import opened YuvTexture

  /** A decoder plane: row `y` starts at `base + y * linesize`, for any sign of the line size. */
  datatype Plane = Plane(data: seq<Byte>, base: int, linesize: int) {
    function RowStart(y: nat): int { base + y * linesize }

    predicate HasRow(y: nat, w: nat) { 0 <= RowStart(y) && RowStart(y) + w <= |data| }

    ghost predicate HasRows(h: nat, w: nat) { forall y :: 0 <= y < h ==> HasRow(y, w) }

    /** Byte `x` of row `y` once the row is cut to `w` bytes and padded. */
    function Padded(x: nat, y: nat, w: nat, pad: Byte): Byte {
      if x < w && 0 <= RowStart(y) + x < |data| then data[RowStart(y) + x] else pad
    }
  }

  datatype Picture = Picture(width: nat, height: nat, y: Plane, u: Plane, v: Plane)

  /** Row `y` of a buffer is the plane's first `w` bytes, padded to the stride. */
  ghost predicate RowCopied(buffer: seq<Byte>, stride: nat, src: Plane, w: nat, pad: Byte, y: nat) {
    && src.HasRow(y, w) && w <= stride && Offset(stride, stride, y) <= |buffer|
    && (forall x {:trigger Offset(stride, x, y)} :: 0 <= x < stride ==>
          buffer[Offset(stride, x, y)] == src.Padded(x, y, w, pad))
  }

  /** The row loop of one plane: copy `w` bytes, then fill the rest of the row. */
  method CopyPlane(dst: array<Byte>, stride: nat, src: Plane, w: nat, h: nat, pad: Byte)
    requires w <= stride && h * stride <= dst.Length
    requires src.HasRows(h, w)
    modifies dst
    ensures forall y :: 0 <= y < h ==> RowCopied(dst[..], stride, src, w, pad, y)
    ensures forall j :: h * stride <= j < dst.Length ==> dst[j] == old(dst[j])
  {
    var i := 0;
    while i < h
      invariant 0 <= i <= h
      invariant forall y :: 0 <= y < i ==> RowCopied(dst[..], stride, src, w, pad, y)
      invariant forall j :: i * stride <= j < dst.Length ==> dst[j] == old(dst[j])
    {
      RowBounds(stride, i, h);
      ghost var was := dst[..];
      CopyRow(dst, i * stride, stride, src, w, i, pad);
      forall y | 0 <= y < i
        ensures RowCopied(dst[..], stride, src, w, pad, y)
      {
        EarlierRowKept(was, dst[..], stride, src, w, pad, y, i);
      }
      i := i + 1;
    }
  }

  lemma RowBounds(stride: nat, i: nat, h: nat)
    requires i < h
    ensures 0 <= i * stride && (i + 1) * stride == i * stride + stride <= h * stride
  {
    assert (i + 1) * stride <= h * stride;
  }

  lemma EarlierRowKept(was: seq<Byte>, now: seq<Byte>, stride: nat, src: Plane, w: nat, pad: Byte, y: nat, i: nat)
    requires y < i && RowCopied(was, stride, src, w, pad, y) && |now| == |was| && i * stride <= |now|
    requires forall j :: 0 <= j < i * stride ==> now[j] == was[j]
    ensures RowCopied(now, stride, src, w, pad, y)
  {
    RowBounds(stride, y, i);
    forall x | 0 <= x < stride
      ensures now[Offset(stride, x, y)] == was[Offset(stride, x, y)]
    {
      assert Offset(stride, x, y) < i * stride;
    }
  }

  /** memcpy of the picture row and memset of its padding, at `at` in the buffer. */
  method CopyRow(dst: array<Byte>, at: nat, stride: nat, src: Plane, w: nat, y: nat, pad: Byte)
    requires w <= stride && at == y * stride && at + stride <= dst.Length && src.HasRow(y, w)
    modifies dst
    ensures RowCopied(dst[..], stride, src, w, pad, y)
    ensures forall j :: 0 <= j < dst.Length && !(at <= j < at + stride) ==> dst[j] == old(dst[j])
  {
    forall x | 0 <= x < w {
      dst[at + x] := src.data[src.RowStart(y) + x];
    }
    forall x | w <= x < stride {
      dst[at + x] := pad;
    }
    assert forall x :: 0 <= x < stride ==> Offset(stride, x, y) == at + x;
  }

  /** The part of a picture that fits a buffer is in its planes, padded to the strides. */
  ghost predicate Stored(pic: Picture, w: nat, h: nat, p: Planes) {
    && (forall y :: 0 <= y < h ==> RowCopied(p.y, p.ystride, pic.y, w, 0, y))
    && (forall y :: 0 <= y < h / 2 ==> RowCopied(p.u, p.uvstride, pic.u, w / 2, 0x80, y))
    && (forall y :: 0 <= y < h / 2 ==> RowCopied(p.v, p.uvstride, pic.v, w / 2, 0x80, y))
  }

  /** One frame buffer, allocated by wii_alloc_frames for the stream resolution. */
  class FrameBuffer {
    const width: nat
    const height: nat
    const ystride: nat
    const uvstride: nat
    const y: array<Byte>
    const u: array<Byte>
    const v: array<Byte>

    ghost predicate Valid() {
      && ystride == TilesAcross(width) && uvstride == TilesAcross(width / 2)
      && y.Length == ystride * height && u.Length == v.Length == uvstride * (height / 2)
      && y != u && y != v && u != v
    }

    function Contents(): Planes
      reads y, u, v
    {
      Planes(y[..], u[..], v[..], ystride, uvstride)
    }

    constructor (width: nat, height: nat)
      ensures Valid() && this.width == width && this.height == height
      ensures ystride == 8 * ((width + 7) / 8) && uvstride == 8 * ((width / 2 + 7) / 8)
      ensures fresh(y) && fresh(u) && fresh(v)
    {
      hide TilesAcross;
      RoundedUp(width);
      RoundedUp(width / 2);
      this.width, this.height := width, height;
      var stride: nat, cstride: nat, rows: nat := TilesAcross(width), TilesAcross(width / 2), height / 2;
      ystride, uvstride := stride, cstride;
      y := new Byte[stride * height](_ => 0);
      u := new Byte[cstride * rows](_ => 0);
      v := new Byte[cstride * rows](_ => 0);
    }

    /** A store under way: the planes hold anything. */
    method Scribble(ynoise: nat -> Byte, unoise: nat -> Byte, vnoise: nat -> Byte)
      modifies y, u, v
    {
      forall i | 0 <= i < y.Length {
        y[i] := ynoise(i);
      }
      forall i | 0 <= i < u.Length {
        u[i] := unoise(i);
      }
      forall i | 0 <= i < v.Length {
        v[i] := vnoise(i);
      }
    }

    /** The plane copies of wii_decoder_submit_decode_unit, for a picture of any size and line size. */
    method Store(pic: Picture)
      requires Valid()
      requires pic.y.HasRows(Min(pic.height, height), Min(pic.width, width))
      requires pic.u.HasRows(Min(pic.height, height) / 2, Min(pic.width, width) / 2)
      requires pic.v.HasRows(Min(pic.height, height) / 2, Min(pic.width, width) / 2)
      modifies y, u, v
      ensures Stored(pic, Min(pic.width, width), Min(pic.height, height), Contents())
    {
      hide RowCopied, TilesAcross;
      WholeTilesFit(width);
      WholeTilesFit(width / 2);
      var w, h := Min(pic.width, width), Min(pic.height, height);
      MulMonotone(h, height, ystride);
      MulMonotone(h / 2, height / 2, uvstride);
      CopyPlane(y, ystride, pic.y, w, h, 0);
      ghost var yDone := y[..];
      CopyPlane(u, uvstride, pic.u, w / 2, h / 2, 0x80);
      ghost var uDone := u[..];
      CopyPlane(v, uvstride, pic.v, w / 2, h / 2, 0x80);
      assert y[..] == yDone && u[..] == uDone;
    }
  }

  /**
   The buffers hold every row an upload at the configured size reads exactly when the height
   is a multiple of eight: luma rows are read in fours, and so are the half as many chroma rows.
   */
  lemma BuffersFitUpload(width: nat, height: nat, p: Planes)
    requires 2 <= width < 65528 && 2 <= height < 65528
    requires p.ystride == TilesAcross(width) && p.uvstride == TilesAcross(width / 2)
    requires |p.y| == p.ystride * height && |p.u| == |p.v| == p.uvstride * (height / 2)
    ensures SizesFor(width, height).PlanesFit(p) <==> height % 8 == 0
  {
    var s := SizesFor(width, height);
    NoTruncation(width, height);
    WholeTilesFit(height);
    WholeTilesFit(height / 2);
    WholeTilesFit(width);
    WholeTilesFit(width / 2);
    RowsFit(s.yheight, p.ystride, height);
    RowsFit(s.uvheight, p.uvstride, height / 2);
    assert s.PlanesFit(p) <==> s.yheight <= height && s.uvheight <= height / 2;
    HalfInFours(height);
  }

  lemma WholeTilesFit(rows: nat)
    ensures TilesDown(rows) <= rows <==> rows % 4 == 0
    ensures rows <= TilesDown(rows) && rows <= TilesAcross(rows)
  {
    var q := rows / 4;
    assert rows == 4 * q + rows % 4;
    assert (rows + 3) % 4 == (rows % 4 + 3) % 4;
  }

  lemma RowsFit(rows: nat, stride: nat, have: nat)
    requires rows > 0 && stride > 0
    ensures (rows - 1) * stride + stride <= stride * have <==> rows <= have
  {
    if rows <= have {
      MulMonotone(rows, have, stride);
    } else {
      MulMonotone(have + 1, rows, stride);
    }
  }

  lemma HalfInFours(h: nat)
    ensures h % 4 == 0 && h / 2 % 4 == 0 <==> h % 8 == 0
  {
    var q, r := h / 8, h % 8;
    assert h == 4 * (2 * q) + r && h / 2 == 4 * q + r / 2;
    assert h % 4 == r % 4 && h / 2 % 4 == r / 2;
  }

  /**
   End to end: once a picture is stored and the buffer uploaded at the configured size, each
   pixel is at its place in the textures, and the padding of its row is black.
   */
  lemma LumaEndToEnd(pic: Picture, width: nat, height: nat, w: nat, h: nat, p: Planes, was: Textures, now: Textures,
                     x: nat, y: nat)
    requires width < 65528 && height < 65528 && w <= width && h <= height && Stored(pic, w, h, p)
    requires p.ystride == TilesAcross(width)
    requires Displayed(SizesFor(width, height), was, p, now)
    requires x < p.ystride && y < h
    ensures pic.y.HasRow(y, w) && PlaceHolds(now, LumaPlace(p.ystride, x, y), pic.y.Padded(x, y, w, 0))
  {
    var s := SizesFor(width, height);
    NoTruncation(width, height);
    WholeTilesFit(height);
    LumaClosedForm(s, was, p, now, x, y);
    assert RowCopied(p.y, p.ystride, pic.y, w, 0, y);
  }

  /** The chroma pixels likewise; the padding of their rows is neutral. */
  lemma ChromaEndToEnd(pic: Picture, width: nat, height: nat, w: nat, h: nat, p: Planes, was: Textures, now: Textures,
                       x: nat, y: nat)
    requires width < 65528 && height < 65528 && w <= width && h <= height && Stored(pic, w, h, p)
    requires p.uvstride == TilesAcross(width / 2)
    requires Displayed(SizesFor(width, height), was, p, now)
    requires x < p.uvstride && y < h / 2
    ensures pic.u.HasRow(y, w / 2) && Holds(now.u, ChromaPlace(p.uvstride, x, y), pic.u.Padded(x, y, w / 2, 0x80))
    ensures pic.v.HasRow(y, w / 2) && Holds(now.v, ChromaPlace(p.uvstride, x, y), pic.v.Padded(x, y, w / 2, 0x80))
  {
    var s := SizesFor(width, height);
    NoTruncation(width, height);
    WholeTilesFit(height / 2);
    ChromaClosedForm(s, was, p, now, x, y);
    assert RowCopied(p.u, p.uvstride, pic.u, w / 2, 0x80, y);
    assert RowCopied(p.v, p.uvstride, pic.v, w / 2, 0x80, y);
  }

  /** A pixel of the part of a picture that fits the stream, or of the padding of its rows, is at its place. */
  predicate LumaAt(pic: Picture, width: nat, t: Textures, x: nat, y: nat) {
    pic.y.HasRow(y, Min(pic.width, width)) &&
    PlaceHolds(t, LumaPlace(width, x, y), pic.y.Padded(x, y, Min(pic.width, width), 0))
  }

  predicate ChromaAt(p: Plane, pic: Picture, width: nat, texture: seq<Word>, x: nat, y: nat) {
    p.HasRow(y, Min(pic.width, width) / 2) &&
    Holds(texture, ChromaPlace(width / 2, x, y), p.Padded(x, y, Min(pic.width, width) / 2, 0x80))
  }

  ghost predicate LumaShown(pic: Picture, width: nat, height: nat, t: Textures) {
    forall x: nat, y: nat :: x < 8 * ((width + 7) / 8) && y < Min(pic.height, height) ==> LumaAt(pic, width, t, x, y)
  }

  ghost predicate ChromaShown(pic: Picture, width: nat, height: nat, t: Textures) {
    forall x: nat, y: nat {:trigger ChromaAt(pic.u, pic, width, t.u, x, y)} {:trigger ChromaAt(pic.v, pic, width, t.v, x, y)} ::
      x < 8 * ((width / 2 + 7) / 8) && y < Min(pic.height, height) / 2 ==>
        ChromaAt(pic.u, pic, width, t.u, x, y) && ChromaAt(pic.v, pic, width, t.v, x, y)
  }

  /** Byte `x` of row `y` of a plane, counted from where the plane begins. */
  predicate PlaneByte(p: Plane, x: nat, y: nat, b: Byte) {
    var i := p.base + y * p.linesize + x;
    0 <= i < |p.data| && p.data[i] == b
  }

  /**
   The address `a` of a shown pixel, spelled out for a stream of any width: tiles of 8 x 4 bytes
   in rows of a tile for every eight pixels. Beyond 1024 pixels the left texture has 128 tiles a
   row, of which the first 127 are used, and the right one a tile for every eight pixels of the
   rest after an unused one.
   */
  lemma LumaPixel(pic: Picture, width: nat, height: nat, t: Textures, x: nat, y: nat, a: nat)
    requires LumaShown(pic, width, height, t)
    requires x < Min(pic.width, width) && y < Min(pic.height, height)
    requires width <= 1024 ==> a == (y / 4 * ((width + 7) / 8) + x / 8) * 32 + y % 4 * 8 + x % 8
    requires width > 1024 && x < 1016 ==> a == (y / 4 * 128 + x / 8) * 32 + y % 4 * 8 + x % 8
    requires width > 1024 && x >= 1016 ==>
               a == (y / 4 * ((width + 7) / 8 - 126) + 1 + (x - 1016) / 8) * 32 + y % 4 * 8 + x % 8
    ensures exists b: Byte :: PlaneByte(pic.y, x, y, b) && Holds(if width > 1024 && x >= 1016 then t.right else t.left, a, b)
  {
    hide Holds;
    assert LumaAt(pic, width, t, x, y);
    assert PlaneByte(pic.y, x, y, pic.y.Padded(x, y, Min(pic.width, width), 0));
  }

  lemma ChromaPixel(pic: Picture, width: nat, height: nat, t: Textures, x: nat, y: nat, a: nat)
    requires ChromaShown(pic, width, height, t)
    requires x < Min(pic.width, width) / 2 && y < Min(pic.height, height) / 2
    requires a == (y / 4 * ((width / 2 + 7) / 8) + x / 8) * 32 + y % 4 * 8 + x % 8
    ensures exists b: Byte :: PlaneByte(pic.u, x, y, b) && Holds(t.u, a, b)
    ensures exists b: Byte :: PlaneByte(pic.v, x, y, b) && Holds(t.v, a, b)
  {
    hide Holds;
    assert ChromaAt(pic.u, pic, width, t.u, x, y) && ChromaAt(pic.v, pic, width, t.v, x, y);
    assert PlaneByte(pic.u, x, y, pic.u.Padded(x, y, Min(pic.width, width) / 2, 0x80));
    assert PlaneByte(pic.v, x, y, pic.v.Padded(x, y, Min(pic.width, width) / 2, 0x80));
  }

  lemma AllLumaShown(pic: Picture, width: nat, height: nat, p: Planes, was: Textures, now: Textures)
    requires width < 65528 && height < 65528
    requires Stored(pic, Min(pic.width, width), Min(pic.height, height), p) && p.ystride == TilesAcross(width)
    requires Displayed(SizesFor(width, height), was, p, now)
    ensures LumaShown(pic, width, height, now)
  {
    hide Stored, Displayed, TilesAcross, LumaPlace, PlaceHolds, SizesFor;
    var w, h := Min(pic.width, width), Min(pic.height, height);
    RoundedUp(width);
    forall x: nat, y: nat | x < 8 * ((width + 7) / 8) && y < h
      ensures LumaAt(pic, width, now, x, y)
    {
      PlaceOfWidth(width, x, y);
      LumaEndToEnd(pic, width, height, w, h, p, was, now, x, y);
    }
  }

  lemma AllChromaShown(pic: Picture, width: nat, height: nat, p: Planes, was: Textures, now: Textures)
    requires width < 65528 && height < 65528
    requires Stored(pic, Min(pic.width, width), Min(pic.height, height), p) && p.uvstride == TilesAcross(width / 2)
    requires Displayed(SizesFor(width, height), was, p, now)
    ensures ChromaShown(pic, width, height, now)
  {
    hide Stored, Displayed, TilesAcross, ChromaPlace, Holds, SizesFor;
    var w, h := Min(pic.width, width), Min(pic.height, height);
    RoundedUp(width / 2);
    forall x: nat, y: nat | x < 8 * ((width / 2 + 7) / 8) && y < h / 2
      ensures ChromaAt(pic.u, pic, width, now.u, x, y) && ChromaAt(pic.v, pic, width, now.v, x, y)
    {
      PlaceOfWidth(width / 2, x, y);
      ChromaEndToEnd(pic, width, height, w, h, p, was, now, x, y);
    }
  }

  /** The upload of one buffer at the configured size shows the picture that its planes hold, whichever it is. */
  method DrawBuffer(buffer: FrameBuffer, gpu: YuvTextures)
    requires buffer.Valid() && gpu.Valid() && gpu.CurrentSizes() == SizesFor(buffer.width, buffer.height)
    requires 2 <= buffer.width < 65528 && 2 <= buffer.height < 65528 && buffer.height % 8 == 0
    requires gpu.CurrentSizes().FitTextures()
    requires PitchFits(buffer.ystride, gpu.ywidth) && PitchFits(buffer.uvstride, gpu.uvwidth)
    modifies gpu`st0, gpu`st1, gpu`yrowpitch, gpu`uvrowpitch
    modifies gpu.yltexture, gpu.yrtexture, gpu.utexture, gpu.vtexture
    ensures gpu.Valid() && gpu.CurrentSizes() == old(gpu.CurrentSizes())
    ensures forall pic: Picture ::
              Stored(pic, Min(pic.width, buffer.width), Min(pic.height, buffer.height), old(buffer.Contents())) ==>
                LumaShown(pic, buffer.width, buffer.height, gpu.Contents()) &&
                ChromaShown(pic, buffer.width, buffer.height, gpu.Contents())
  {
    hide Stored, FrameUploaded, LumaShown, ChromaShown, Min;
    var p := buffer.Contents();
    ghost var was := gpu.Contents();
    BuffersFitUpload(buffer.width, buffer.height, p);
    ghost var leftLog, rightLog, ulog, vlog := gpu.FillTextureYUV(p);
    forall pic: Picture | Stored(pic, Min(pic.width, buffer.width), Min(pic.height, buffer.height), p)
      ensures LumaShown(pic, buffer.width, buffer.height, gpu.Contents())
      ensures ChromaShown(pic, buffer.width, buffer.height, gpu.Contents())
    {
      AllLumaShown(pic, buffer.width, buffer.height, p, was, gpu.Contents());
      AllChromaShown(pic, buffer.width, buffer.height, p, was, gpu.Contents());
    }
  }

  /**
   One decode and one draw at the configured size: afterwards every pixel of the picture that
   fits the stream is at its place in the textures, and the rows are padded.
   */
  method DecodeAndDraw(buffer: FrameBuffer, gpu: YuvTextures, pic: Picture)
    requires buffer.Valid() && gpu.Valid() && gpu.CurrentSizes() == SizesFor(buffer.width, buffer.height)
    requires 2 <= buffer.width < 65528 && 2 <= buffer.height < 65528 && buffer.height % 8 == 0
    requires gpu.CurrentSizes().FitTextures()
    requires PitchFits(buffer.ystride, gpu.ywidth) && PitchFits(buffer.uvstride, gpu.uvwidth)
    requires pic.y.HasRows(Min(pic.height, buffer.height), Min(pic.width, buffer.width))
    requires pic.u.HasRows(Min(pic.height, buffer.height) / 2, Min(pic.width, buffer.width) / 2)
    requires pic.v.HasRows(Min(pic.height, buffer.height) / 2, Min(pic.width, buffer.width) / 2)
    requires {buffer.y as object, buffer.u, buffer.v} !! {gpu.yltexture as object, gpu.yrtexture, gpu.utexture, gpu.vtexture}
    modifies buffer.y, buffer.u, buffer.v
    modifies gpu`st0, gpu`st1, gpu`yrowpitch, gpu`uvrowpitch
    modifies gpu.yltexture, gpu.yrtexture, gpu.utexture, gpu.vtexture
    ensures gpu.Valid() && LumaShown(pic, buffer.width, buffer.height, gpu.Contents())
    ensures ChromaShown(pic, buffer.width, buffer.height, gpu.Contents())
  {
    hide Stored, LumaShown, ChromaShown;
    buffer.Store(pic);
    DrawBuffer(buffer, gpu);
  }
}
