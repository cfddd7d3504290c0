/**
 The YUV texture set: sizes for a resolution, the stride cache, the upload of a frame into
 four textures, and the closed form of where each texel ends up.
 */
module YuvTexture {
  import opened CTypes
  import opened TiledTexture

  const LEFT_WORDS := 131072   // 1024 * 1024 bytes
  const RIGHT_WORDS := 32768   // (1280 - 1024) * 1024 bytes
  const CHROMA_WORDS := 65536  // 1024 * 512 bytes

  // ---------------------------------------------------------------------------
  // Configuration
  // ---------------------------------------------------------------------------

  /** Conversion to the unsigned 16-bit type of the size and pitch variables. */
  function U16(v: int): nat { v % 65536 }

  /** `v` rounded up to a whole number of tiles, across and down. */
  function TilesAcross(v: nat): nat { v + 7 - (v + 7) % 8 }
  function TilesDown(v: nat): nat { v + 3 - (v + 3) % 4 }

  /** That is up to the next multiple and no further. */
  lemma RoundedUp(v: nat)
    ensures TilesAcross(v) % 8 == 0 && v <= TilesAcross(v) < v + 8 && TilesAcross(v) == 8 * ((v + 7) / 8)
    ensures TilesDown(v) % 4 == 0 && v <= TilesDown(v) < v + 4 && TilesDown(v) == 4 * ((v + 3) / 4)
  {
    assert v + 7 == 8 * ((v + 7) / 8) + (v + 7) % 8;
    assert v + 3 == 4 * ((v + 3) / 4) + (v + 3) % 4;
  }

  /** The exact pitch between row groups fits its 16-bit variable. */
  predicate PitchFits(stride: int, width: nat) { 0 <= stride * 4 - width < 65536 }

  /**
   The walk over the source rows is right exactly when the 16-bit pitch is the exact one:
   then, and only then, does each group of four rows start four strides after the previous.
   */
  lemma PitchIsExact(stride: int, width: nat)
    ensures PitchFits(stride, width) <==> width + U16(stride * 4 - width) == 4 * stride
  {
  }

  /** The size variables, all of which a configuration derives from the frame size. */
  datatype Sizes = Sizes(ywidth: nat, yheight: nat, uvwidth: nat, uvheight: nat) {

    /** Every size is what a configuration can leave in the 16-bit variables. */
    ghost predicate Valid() {
      && ywidth % 8 == 0 && yheight % 4 == 0 && uvwidth % 8 == 0 && uvheight % 4 == 0
      && ywidth < 65536 && yheight < 65536 && uvwidth < 65536 && uvheight < 65536
    }

    function Wl(): nat { if ywidth / 8 > 1024 / 8 then 1024 / 8 - 1 else ywidth / 8 }
    function Wr(): nat { if ywidth / 8 > 1024 / 8 then ywidth / 8 - 1024 / 8 + 1 else 0 }
    function Ylwidth(): nat { if ywidth > 1016 then 1024 else ywidth }
    function Yrwidth(): nat { if ywidth > 1024 then ywidth - 1016 + 8 else 8 }

    function Left(): Layout { Layout(yheight / 4, Ylwidth() / 8, 0, Wl(), 0) }
    function Right(): Layout { Layout(yheight / 4, Wr() + 1, 1, Wr(), Wl()) }
    function Chroma(): Layout { Layout(uvheight / 4, uvwidth / 8, 0, uvwidth / 8, 0) }

    /** The used part of each texture fits the memory allocated for it. */
    predicate FitTextures() {
      && Ylwidth() * yheight <= 1024 * 1024
      && (Wr() > 0 ==> Yrwidth() * yheight <= 256 * 1024)
      && uvwidth * uvheight <= 512 * 1024
    }

    /** The rows an upload reads are all in the planes. */
    predicate PlanesFit(p: Planes) {
      && (ywidth > 0 && yheight > 0 ==> (yheight - 1) * p.ystride + ywidth <= |p.y|)
      && (uvwidth > 0 && uvheight > 0 ==>
            (uvheight - 1) * p.uvstride + uvwidth <= |p.u| && (uvheight - 1) * p.uvstride + uvwidth <= |p.v|)
    }

    lemma LayoutsFit(p: Planes)
      requires Valid() && PlanesFit(p)
      ensures Left().Valid() && Right().Valid() && Chroma().Valid()
      ensures Left().ReadsInside(|p.y|, p.ystride) && Right().ReadsInside(|p.y|, p.ystride)
      ensures Chroma().ReadsInside(|p.u|, p.uvstride) && Chroma().ReadsInside(|p.v|, p.uvstride)
      ensures 8 * (Wl() + Wr()) == ywidth
      ensures Wr() > 0 ==> Wl() == 127 && Left().pitch == 128 && Yrwidth() == 8 * (Wr() + 1)
      ensures Wr() == 0 ==> Left().pitch == Wl()
    {
    }

    /** All reads are in the planes and all writes in the textures. */
    predicate Ready(p: Planes) {
      && Left().ReadsInside(|p.y|, p.ystride) && Right().ReadsInside(|p.y|, p.ystride)
      && Chroma().ReadsInside(|p.u|, p.uvstride) && Chroma().ReadsInside(|p.v|, p.uvstride)
      && Left().WritesInside(LEFT_WORDS) && (Wr() > 0 ==> Right().WritesInside(RIGHT_WORDS))
      && Chroma().WritesInside(CHROMA_WORDS)
    }

    lemma FitIsReady(p: Planes)
      requires Valid() && FitTextures() && PlanesFit(p)
      ensures Ready(p)
    {
      LayoutsFit(p);
      TexturesFit();
    }

    lemma TexturesFit()
      requires Valid() && FitTextures()
      ensures Left().WritesInside(LEFT_WORDS) && Chroma().WritesInside(CHROMA_WORDS)
      ensures Wr() > 0 ==> Right().WritesInside(RIGHT_WORDS)
    {
      ProductOfParts(Ylwidth() / 8, yheight / 4, Ylwidth(), yheight);
      ProductOfParts(Yrwidth() / 8, yheight / 4, Yrwidth(), yheight);
      ProductOfParts(uvwidth / 8, uvheight / 4, uvwidth, uvheight);
    }
  }

  /**
   The writes of an upload stay inside the textures exactly when the used part of each fits
   the memory allocated for it.
   */
  lemma WritesFitExactly(s: Sizes)
    requires s.Valid()
    ensures s.FitTextures() <==>
            s.Left().WritesInside(LEFT_WORDS) && (s.Wr() > 0 ==> s.Right().WritesInside(RIGHT_WORDS)) &&
            s.Chroma().WritesInside(CHROMA_WORDS)
  {
    LeftPitch(s);
    WholeProduct(s.Ylwidth() / 8, s.yheight / 4);
    if s.Wr() > 0 {
      WholeProduct(s.Wr() + 1, s.yheight / 4);
    }
    WholeProduct(s.uvwidth / 8, s.uvheight / 4);
  }

  lemma LeftPitch(s: Sizes)
    requires s.Valid()
    ensures s.Ylwidth() == 8 * (s.Ylwidth() / 8) && s.yheight == 4 * (s.yheight / 4)
    ensures s.uvwidth == 8 * (s.uvwidth / 8) && s.uvheight == 4 * (s.uvheight / 4)
    ensures s.Wr() > 0 ==> s.Yrwidth() == 8 * (s.Wr() + 1)
  {
  }

  lemma WholeProduct(a: nat, b: nat)
    ensures (8 * a) * (4 * b) == 8 * (4 * (b * a))
  {
  }

  /**
   A configuration checks no size. The textures are allocated for frames of up to 1280 x 1024,
   but at that size the right one is overrun, by the unused tile of each row; 1920 x 1080, which
   an option of its own asks for, overruns the left one too.
   */
  lemma LargestFramesOverrun()
    ensures var s := SizesFor(1280, 1024); s.Left().WritesInside(LEFT_WORDS) && !s.Right().WritesInside(RIGHT_WORDS)
    ensures var s := SizesFor(1920, 1080); !s.Left().WritesInside(LEFT_WORDS) && !s.Right().WritesInside(RIGHT_WORDS)
    ensures !SizesFor(1280, 1024).FitTextures() && !SizesFor(1920, 1080).FitTextures()
  {
    hide SizesFor;
    LargestSizes();
  }

  lemma LargestSizes()
    ensures SizesFor(1280, 1024) == Sizes(1280, 1024, 640, 512)
    ensures SizesFor(1920, 1080) == Sizes(1920, 1080, 960, 540)
  {
    hide U16, TilesAcross, TilesDown;
    AlreadyTiles(160, 256);
    AlreadyTiles(80, 128);
    AlreadyTiles(240, 270);
    AlreadyTiles(120, 135);
  }

  lemma AlreadyTiles(across: nat, down: nat)
    requires across < 8191 && down < 16383
    ensures U16(TilesAcross(8 * across)) == 8 * across && U16(TilesDown(4 * down)) == 4 * down
  {
    assert (8 * across + 7) % 8 == 7 && (4 * down + 3) % 4 == 3;
  }

  lemma ProductOfParts(a: nat, b: nat, w: nat, h: nat)
    requires 8 * a <= w && 4 * b <= h
    ensures 32 * (b * a) <= w * h
  {
    assert 4 * b * (8 * a) <= 4 * b * w <= h * w;
    assert 32 * (b * a) == 4 * b * (8 * a);
  }

  function SizesFor(width: nat, height: nat): Sizes {
    Sizes(U16(TilesAcross(width)), U16(TilesDown(height)), U16(TilesAcross(width / 2)), U16(TilesDown(height / 2)))
  }

  lemma NoTruncation(width: nat, height: nat)
    requires width < 65528 && height < 65528
    ensures SizesFor(width, height) ==
            Sizes(TilesAcross(width), TilesDown(height), TilesAcross(width / 2), TilesDown(height / 2))
  {
    TilesBound(width);
    TilesBound(height);
    TilesBound(width / 2);
    TilesBound(height / 2);
  }

  lemma TilesBound(v: nat)
    requires v < 65528
    ensures U16(TilesAcross(v)) == TilesAcross(v) && U16(TilesDown(v)) == TilesDown(v)
  {
    U16Small(TilesAcross(v));
    U16Small(TilesDown(v));
  }

  lemma U16Small(n: nat)
    requires n < 65536
    ensures U16(n) == n
  {
  }

  /** A size that fits the 16-bit variables is rounded up to whole tiles in all four of them. */
  lemma ConfiguredSizes(width: nat, height: nat)
    requires width < 65528 && height < 65528
    ensures SizesFor(width, height) ==
            Sizes(8 * ((width + 7) / 8), 4 * ((height + 3) / 4), 8 * ((width / 2 + 7) / 8), 4 * ((height / 2 + 3) / 4))
  {
    hide SizesFor, TilesAcross, TilesDown;
    NoTruncation(width, height);
    RoundedUp(width);
    RoundedUp(height);
    RoundedUp(width / 2);
    RoundedUp(height / 2);
  }

  /** The left texture takes all tiles of a row up to 128, and 127 of more. */
  lemma ConfiguredTiles(width: nat, height: nat)
    requires width < 65528 && height < 65528
    ensures var s := SizesFor(width, height);
            && s.ywidth == 8 * ((width + 7) / 8) && s.uvwidth == 8 * ((width / 2 + 7) / 8)
            && s.yheight == 4 * ((height + 3) / 4) && s.uvheight == 4 * ((height / 2 + 3) / 4)
            && s.Wl() == (if width <= 1024 then (width + 7) / 8 else 127)
            && s.Wr() == (if width <= 1024 then 0 else (width + 7) / 8 - 127)
  {
    hide SizesFor;
    ConfiguredSizes(width, height);
    assert 8 * ((width + 7) / 8) / 8 == (width + 7) / 8;
    assert (width + 7) / 8 > 128 <==> width > 1024;
  }

  lemma SizesForValid(width: nat, height: nat)
    ensures SizesFor(width, height).Valid()
  {
    TilesAreWhole(width);
    TilesAreWhole(height);
    TilesAreWhole(width / 2);
    TilesAreWhole(height / 2);
  }

  lemma TilesAreWhole(v: nat)
    ensures U16(TilesAcross(v)) % 8 == 0 && U16(TilesDown(v)) % 4 == 0
  {
    assert v + 7 == 8 * ((v + 7) / 8) + (v + 7) % 8;
    assert v + 3 == 4 * ((v + 3) / 4) + (v + 3) % 4;
    TruncationKeepsTiles((v + 7) / 8);
    TruncationKeepsTiles((v + 3) / 4);
  }

  lemma TruncationKeepsTiles(n: nat)
    ensures U16(8 * n) % 8 == 0 && U16(4 * n) % 4 == 0
  {
    assert U16(8 * n) == 8 * (n - 8192 * (8 * n / 65536));
    assert U16(4 * n) == 4 * (n - 16384 * (4 * n / 65536));
  }

  // ---------------------------------------------------------------------------
  // The stride cache
  // ---------------------------------------------------------------------------

  /** What decides whether a fill recomputes its row pitches. */
  datatype PitchCache = PitchCache(cfgWidth: nat, cfgHeight: nat, sizes: Sizes, st0: int, st1: int, y: nat, uv: nat) {

    /** A cached stride pair comes with its pitches; the pair (0, 0) means nothing is cached. */
    ghost predicate Valid() {
      st0 != 0 || st1 != 0 ==> y == U16(st0 * 4 - sizes.ywidth) && uv == U16(st1 * 4 - sizes.uvwidth)
    }

    /** A request for the configured size returns early; any other one forgets the strides. */
    function Config(width: nat, height: nat): PitchCache {
      if cfgWidth == width && cfgHeight == height then this
      else PitchCache(width, height, SizesFor(width, height), 0, 0, y, uv)
    }

    function Fill(ystride: int, uvstride: int): PitchCache {
      if st0 != ystride || st1 != uvstride then
        this.(st0 := ystride, st1 := uvstride,
              y := U16(ystride * 4 - sizes.ywidth), uv := U16(uvstride * 4 - sizes.uvwidth))
      else this
    }
  }

  const INITIAL_CACHE := PitchCache(0, 0, Sizes(0, 0, 0, 0), 0, 0, 0, 0)

  datatype CacheOp = ConfigOp(width: nat, height: nat) | FillOp(ystride: int, uvstride: int)

  function CacheRun(c: PitchCache, ops: seq<CacheOp>): PitchCache
    decreases |ops|
  {
    if ops == [] then c
    else
      match ops[0]
      case ConfigOp(w, h) => CacheRun(c.Config(w, h), ops[1..])
      case FillOp(s0, s1) => CacheRun(c.Fill(s0, s1), ops[1..])
  }

  lemma {:induction false} CacheRunValid(c: PitchCache, ops: seq<CacheOp>)
    requires c.Valid()
    ensures CacheRun(c, ops).Valid()
    decreases |ops|
  {
    if ops != [] {
      match ops[0]
      case ConfigOp(w, h) => CacheRunValid(c.Config(w, h), ops[1..]);
      case FillOp(s0, s1) => CacheRunValid(c.Fill(s0, s1), ops[1..]);
    }
  }

  /**
   After any run of configurations and fills, a fill copies with the pitches that belong to
   its own strides and the configured size, unless both strides are zero.
   */
  lemma PitchIsCurrent(ops: seq<CacheOp>, ystride: int, uvstride: int)
    requires ystride != 0 || uvstride != 0
    ensures var before := CacheRun(INITIAL_CACHE, ops);
            var c := before.Fill(ystride, uvstride);
            c.sizes == before.sizes &&
            c.y == U16(ystride * 4 - c.sizes.ywidth) && c.uv == U16(uvstride * 4 - c.sizes.uvwidth)
  {
    CacheRunValid(INITIAL_CACHE, ops);
  }

  /** The pitches a fill copies with are those of its strides and the configured size. */
  predicate PitchRight(before: PitchCache, ystride: int, uvstride: int) {
    var c := before.Fill(ystride, uvstride);
    c.y == U16(ystride * 4 - c.sizes.ywidth) && c.uv == U16(uvstride * 4 - c.sizes.uvwidth)
  }

  /** The strides and widths of the last fill that computed the pitches; all 0 before the first. */
  datatype Computed = Computed(ystride: int, uvstride: int, ywidth: nat, uvwidth: nat)

  function LastComputed(c: PitchCache, ops: seq<CacheOp>, last: Computed): Computed
    decreases |ops|
  {
    if ops == [] then last
    else
      match ops[0]
      case ConfigOp(w, h) => LastComputed(c.Config(w, h), ops[1..], last)
      case FillOp(s0, s1) =>
        LastComputed(c.Fill(s0, s1), ops[1..],
                     if c.st0 != s0 || c.st1 != s1 then Computed(s0, s1, c.sizes.ywidth, c.sizes.uvwidth) else last)
  }

  lemma {:induction false} PitchesAreComputed(c: PitchCache, ops: seq<CacheOp>, last: Computed)
    requires c.y == U16(last.ystride * 4 - last.ywidth) && c.uv == U16(last.uvstride * 4 - last.uvwidth)
    ensures var after, l := CacheRun(c, ops), LastComputed(c, ops, last);
            after.y == U16(l.ystride * 4 - l.ywidth) && after.uv == U16(l.uvstride * 4 - l.uvwidth)
    decreases |ops|
  {
    hide U16, SizesFor;
    if ops != [] {
      match ops[0]
      case ConfigOp(w, h) => PitchesAreComputed(c.Config(w, h), ops[1..], last);
      case FillOp(s0, s1) =>
        PitchesAreComputed(c.Fill(s0, s1), ops[1..],
                           if c.st0 != s0 || c.st1 != s1 then Computed(s0, s1, c.sizes.ywidth, c.sizes.uvwidth) else last);
    }
  }

  /** The pitch of an earlier fill equals that of a stride of zero at the present width. */
  predicate Congruent(stride: int, thenWidth: nat, width: nat) { (stride * 4 - thenWidth + width) % 65536 == 0 }

  lemma CongruentPitches(stride: int, thenWidth: nat, width: nat)
    ensures U16(stride * 4 - thenWidth) == U16(0 - width) <==> Congruent(stride, thenWidth, width)
  {
    var a, b := stride * 4 - thenWidth, 0 - width;
    var q, r := a / 65536, b / 65536;
    assert a == 65536 * q + U16(a) && b == 65536 * r + U16(b);
    RemainderOfDifference(q - r, U16(a) - U16(b));
    assert stride * 4 - thenWidth + width == 65536 * (q - r) + (U16(a) - U16(b));
  }

  lemma RemainderOfDifference(q: int, d: int)
    requires -65536 < d < 65536
    ensures (65536 * q + d) % 65536 == 0 <==> d == 0
  {
  }

  /**
   After any run that is so exactly when some stride is not zero now or was not zero in the
   fill before, or when four strides of the last fill that computed the pitches differ from the
   width configured then as much as zero from the present width, modulo 65536.
   */
  lemma PitchRightExactly(ops: seq<CacheOp>, ystride: int, uvstride: int)
    ensures var c, l := CacheRun(INITIAL_CACHE, ops), LastComputed(INITIAL_CACHE, ops, Computed(0, 0, 0, 0));
            PitchRight(c, ystride, uvstride) <==>
            ystride != 0 || uvstride != 0 || c.st0 != 0 || c.st1 != 0 ||
            (Congruent(l.ystride, l.ywidth, c.sizes.ywidth) && Congruent(l.uvstride, l.uvwidth, c.sizes.uvwidth))
  {
    hide U16, CacheRun, LastComputed, Congruent;
    var c, l := CacheRun(INITIAL_CACHE, ops), LastComputed(INITIAL_CACHE, ops, Computed(0, 0, 0, 0));
    CacheRunValid(INITIAL_CACHE, ops);
    assert U16(0 * 4 - 0) == 0 by { NegatedPitch(0); }
    PitchesAreComputed(INITIAL_CACHE, ops, Computed(0, 0, 0, 0));
    CongruentPitches(l.ystride, l.ywidth, c.sizes.ywidth);
    CongruentPitches(l.uvstride, l.uvwidth, c.sizes.uvwidth);
    assert 0 * 4 - c.sizes.ywidth == 0 - c.sizes.ywidth && 0 * 4 - c.sizes.uvwidth == 0 - c.sizes.uvwidth;
  }

  /** It does fail: strides of zero right after the first configuration, for every size but the empty one. */
  lemma ZeroStridesKeepStalePitch(width: nat, height: nat)
    ensures var c := CacheRun(INITIAL_CACHE, [ConfigOp(width, height)]);
            PitchRight(c, 0, 0) <==> c.sizes.ywidth == 0 && c.sizes.uvwidth == 0
  {
    hide U16, SizesFor;
    var ops := [ConfigOp(width, height)];
    assert ops[1..] == [];
    var c := INITIAL_CACHE.Config(width, height);
    assert CacheRun(INITIAL_CACHE, ops) == c;
    SizesForValid(width, height);
    NegatedPitch(c.sizes.ywidth);
    NegatedPitch(c.sizes.uvwidth);
  }

  lemma NegatedPitch(width: nat)
    requires width < 65536
    ensures U16(0 - width) == 0 <==> width == 0
  {
  }

  // ---------------------------------------------------------------------------
  // The static state and its operations
  // ---------------------------------------------------------------------------

  class YuvTextures {
    const yltexture: array<Word>
    const yrtexture: array<Word>
    const utexture: array<Word>
    const vtexture: array<Word>

    var cfgWidth: nat
    var cfgHeight: nat
    var ywidth: nat
    var yheight: nat
    var uvwidth: nat
    var uvheight: nat
    var wl: nat
    var wr: nat
    var st0: int
    var st1: int
    var yrowpitch: nat
    var uvrowpitch: nat

    ghost function CurrentSizes(): Sizes
      reads this
    {
      Sizes(ywidth, yheight, uvwidth, uvheight)
    }

    ghost function Cache(): PitchCache
      reads this
    {
      PitchCache(cfgWidth, cfgHeight, CurrentSizes(), st0, st1, yrowpitch, uvrowpitch)
    }

    ghost predicate Valid()
      reads this
    {
      && yltexture.Length == LEFT_WORDS && yrtexture.Length == RIGHT_WORDS
      && utexture.Length == CHROMA_WORDS && vtexture.Length == CHROMA_WORDS
      && yltexture != yrtexture && yltexture != utexture && yltexture != vtexture
      && yrtexture != utexture && yrtexture != vtexture && utexture != vtexture
      && Cache().Valid() && CurrentSizes().Valid() && wl == CurrentSizes().Wl() && wr == CurrentSizes().Wr()
    }

    /** Allocate the textures: luma cleared to 0, chroma to the neutral 0x80. */
    constructor ()
      ensures Valid() && Cache() == INITIAL_CACHE
      ensures fresh(yltexture) && fresh(yrtexture) && fresh(utexture) && fresh(vtexture)
      ensures 8 * yltexture.Length == 1024 * 1024 && 8 * yrtexture.Length == (1280 - 1024) * 1024
      ensures 8 * utexture.Length == 8 * vtexture.Length == 1024 * (1024 / 2)
      ensures forall i :: 0 <= i < yltexture.Length ==> yltexture[i] == [0, 0, 0, 0, 0, 0, 0, 0]
      ensures forall i :: 0 <= i < yrtexture.Length ==> yrtexture[i] == [0, 0, 0, 0, 0, 0, 0, 0]
      ensures forall i :: 0 <= i < utexture.Length ==>
                utexture[i] == vtexture[i] == [0x80, 0x80, 0x80, 0x80, 0x80, 0x80, 0x80, 0x80]
    {
      yltexture := new Word[LEFT_WORDS](_ => ZERO_WORD);
      yrtexture := new Word[RIGHT_WORDS](_ => ZERO_WORD);
      utexture := new Word[CHROMA_WORDS](_ => NEUTRAL_WORD);
      vtexture := new Word[CHROMA_WORDS](_ => NEUTRAL_WORD);
      cfgWidth, cfgHeight, ywidth, yheight, uvwidth, uvheight := 0, 0, 0, 0, 0, 0;
      wl, wr, st0, st1, yrowpitch, uvrowpitch := 0, 0, 0, 0, 0, 0;
    }

    /** The size variables for a frame size: whole tiles, of which the left texture takes 127 in a row of more than 128. */
    ghost predicate SizedFor(width: nat, height: nat)
      reads this
    {
      && ywidth == 8 * ((width + 7) / 8) && uvwidth == 8 * ((width / 2 + 7) / 8)
      && yheight == 4 * ((height + 3) / 4) && uvheight == 4 * ((height / 2 + 3) / 4)
      && wl == (if width <= 1024 then (width + 7) / 8 else 127)
      && wr == (if width <= 1024 then 0 else (width + 7) / 8 - 127)
    }

    /** gx_video_config_yuv: the sizes for a new resolution. */
    method ConfigYuv(width: nat, height: nat)
      requires Valid()
      modifies this
      ensures Valid()
      ensures Cache() == old(Cache()).Config(width, height)
      ensures old(cfgWidth == width && cfgHeight == height) ==> unchanged(this)
      ensures !old(cfgWidth == width && cfgHeight == height) ==>
                && cfgWidth == width && cfgHeight == height && st0 == st1 == 0
                && (width < 65528 && height < 65528 ==> SizedFor(width, height))
    {
      hide SizesFor, U16, TilesAcross, TilesDown, Sizes.Valid;
      if cfgWidth == width && cfgHeight == height {
        return;
      }
      var s := SizesFor(width, height);
      SizesForValid(width, height);
      var left, right := s.ywidth / 8, 0;
      if left > 1024 / 8 {
        left, right := 1024 / 8 - 1, left - 1024 / 8 + 1;
      }
      cfgWidth, cfgHeight := width, height;
      ywidth, uvwidth, yheight, uvheight := s.ywidth, s.uvwidth, s.yheight, s.uvheight;
      st0, st1 := 0, 0;
      wl, wr := left, right;
      assert CurrentSizes() == s;
      if width < 65528 && height < 65528 {
        ConfiguredTiles(width, height);
      }
    }

    /** The head of GX_FillTextureYUV: recompute the pitches when a stride has changed. */
    method UpdatePitch(ystride: int, uvstride: int)
      requires Valid()
      modifies this`st0, this`st1, this`yrowpitch, this`uvrowpitch
      ensures Valid() && Cache() == old(Cache()).Fill(ystride, uvstride)
    {
      if st0 != ystride || st1 != uvstride {
        st0, st1 := ystride, uvstride;
        yrowpitch := U16(ystride * 4 - ywidth);
        uvrowpitch := U16(uvstride * 4 - uvwidth);
      }
    }

    ghost function Contents(): Textures
      reads yltexture, yrtexture, utexture, vtexture
    {
      Textures(yltexture[..], yrtexture[..], utexture[..], vtexture[..])
    }

    /** GX_FillTextureYUV: upload one frame. */
    method FillTextureYUV(p: Planes)
        returns (ghost leftLog: seq<nat>, ghost rightLog: seq<nat>, ghost ulog: seq<nat>, ghost vlog: seq<nat>)
      requires Valid() && CurrentSizes().FitTextures() && CurrentSizes().PlanesFit(p)
      requires p.ystride > 0 && p.uvstride > 0
      requires PitchFits(p.ystride, ywidth) && PitchFits(p.uvstride, uvwidth)
      modifies this`st0, this`st1, this`yrowpitch, this`uvrowpitch, yltexture, yrtexture, utexture, vtexture
      ensures Valid() && Cache() == old(Cache()).Fill(p.ystride, p.uvstride)
      ensures FrameUploaded(CurrentSizes(), old(Contents()), p, Contents())
      ensures CurrentSizes().Left().StoredOnce(leftLog) && CurrentSizes().Right().StoredOnce(rightLog)
      ensures CurrentSizes().Chroma().StoredOnce(ulog) && CurrentSizes().Chroma().StoredOnce(vlog)
    {
      hide U16, PitchFits;
      UpdatePitch(p.ystride, p.uvstride);
      CurrentSizes().FitIsReady(p);
      PitchIsExact(p.ystride, ywidth);
      PitchIsExact(p.uvstride, uvwidth);
      ghost var was := Contents();
      leftLog, rightLog := FillLuma(p);
      ghost var half := Contents();
      assert half.u == was.u && half.v == was.v;
      ulog, vlog := FillChroma(p);
      assert yltexture[..] == half.left && yrtexture[..] == half.right;
    }

    method FillLuma(p: Planes) returns (ghost leftLog: seq<nat>, ghost rightLog: seq<nat>)
      requires Valid() && CurrentSizes().PlanesFit(p) && CurrentSizes().Ready(p) && ywidth + yrowpitch == 4 * p.ystride
      modifies yltexture, yrtexture
      ensures CurrentSizes().Left().Valid() && CurrentSizes().Right().Valid()
      ensures Upload(CurrentSizes().Left(), old(yltexture[..]), p.y, p.ystride).Done(yltexture[..])
      ensures Upload(CurrentSizes().Right(), old(yrtexture[..]), p.y, p.ystride).Done(yrtexture[..])
      ensures CurrentSizes().Left().StoredOnce(leftLog) && CurrentSizes().Right().StoredOnce(rightLog)
    {
      ghost var s := CurrentSizes();
      s.LayoutsFit(p);
      leftLog, rightLog :=
        LumaCopy(Upload(s.Left(), yltexture[..], p.y, p.ystride), Upload(s.Right(), yrtexture[..], p.y, p.ystride),
                 yltexture, yrtexture, p.y, p.ystride, yheight, wl, wr, yrowpitch);
    }

    method FillChroma(p: Planes) returns (ghost ulog: seq<nat>, ghost vlog: seq<nat>)
      requires Valid() && CurrentSizes().Ready(p) && uvwidth + uvrowpitch == 4 * p.uvstride
      modifies utexture, vtexture
      ensures CurrentSizes().Chroma().Valid()
      ensures Upload(CurrentSizes().Chroma(), old(utexture[..]), p.u, p.uvstride).Done(utexture[..])
      ensures Upload(CurrentSizes().Chroma(), old(vtexture[..]), p.v, p.uvstride).Done(vtexture[..])
      ensures CurrentSizes().Chroma().StoredOnce(ulog) && CurrentSizes().Chroma().StoredOnce(vlog)
    {
      ghost var l := CurrentSizes().Chroma();
      ulog, vlog :=
        ChromaCopy(Upload(l, utexture[..], p.u, p.uvstride), Upload(l, vtexture[..], p.v, p.uvstride),
                   utexture, vtexture, p.u, p.v, p.uvstride, uvheight, uvwidth / 8, uvrowpitch);
    }
  }

  /** The planes of a frame; the two chroma planes share a stride. */
  datatype Planes = Planes(y: seq<Byte>, u: seq<Byte>, v: seq<Byte>, ystride: nat, uvstride: nat)

  /** The contents of the four textures. */
  datatype Textures = Textures(left: seq<Word>, right: seq<Word>, u: seq<Word>, v: seq<Word>) {
    predicate Allocated() {
      |left| == LEFT_WORDS && |right| == RIGHT_WORDS && |u| == CHROMA_WORDS && |v| == CHROMA_WORDS
    }
  }

  /** One frame is in the four textures, and nothing else in them has changed. */
  ghost predicate FrameUploaded(s: Sizes, was: Textures, p: Planes, now: Textures)
    requires s.Valid() && s.PlanesFit(p)
  {
    s.LayoutsFit(p);
    && Upload(s.Left(), was.left, p.y, p.ystride).Done(now.left)
    && Upload(s.Right(), was.right, p.y, p.ystride).Done(now.right)
    && Upload(s.Chroma(), was.u, p.u, p.uvstride).Done(now.u)
    && Upload(s.Chroma(), was.v, p.v, p.uvstride).Done(now.v)
  }

  /** A fill at sizes that fit has been done over allocated textures. */
  ghost predicate Displayed(s: Sizes, was: Textures, p: Planes, now: Textures) {
    s.Valid() && s.FitTextures() && s.PlanesFit(p) && was.Allocated() && FrameUploaded(s, was, p, now)
  }

  // ---------------------------------------------------------------------------
  // The closed form of a frame upload
  // ---------------------------------------------------------------------------

  /** Where a luma texel lives: a byte address in the left or in the right texture. */
  datatype Place = InLeft(address: nat) | InRight(address: nat)

  /**
   Frames up to 1024 texels wide use the left texture alone; wider ones put the texels from
   1016 on into the right texture, after one unused tile at the start of each row.
   */
  function LumaPlace(width: nat, x: nat, y: nat): Place {
    if width <= 1024 then InLeft(TiledAddress((width + 7) / 8, x / 8, x, y))
    else if x < 1016 then InLeft(TiledAddress(128, x / 8, x, y))
    else InRight(TiledAddress((width + 7) / 8 - 126, 1 + (x - 1016) / 8, x, y))
  }

  function ChromaPlace(uvwidth: nat, x: nat, y: nat): nat {
    TiledAddress((uvwidth + 7) / 8, x / 8, x, y)
  }

  /** Places depend on the width in whole tiles only, so that of the picture will do. */
  lemma PlaceOfWidth(width: nat, x: nat, y: nat)
    ensures LumaPlace(TilesAcross(width), x, y) == LumaPlace(width, x, y)
    ensures ChromaPlace(TilesAcross(width), x, y) == ChromaPlace(width, x, y)
  {
    hide TilesAcross, TiledAddress;
    RoundedUp(width);
    assert (8 * ((width + 7) / 8) + 7) / 8 == (width + 7) / 8;
  }

  predicate PlaceHolds(t: Textures, p: Place, b: Byte) {
    match p
    case InLeft(a) => Holds(t.left, a, b)
    case InRight(a) => Holds(t.right, a, b)
  }

  /** The closed form agrees with the two layouts the copy loops realise. */
  lemma LumaPlaceOfLayouts(s: Sizes, x: nat, y: nat, left: Upload, right: Upload)
    requires s.Valid() && x < s.ywidth && y < s.yheight && left.l == s.Left() && right.l == s.Right()
    ensures || (left.Copies(x, y) && LumaPlace(s.ywidth, x, y) == InLeft(left.Address(x, y)))
            || (right.Copies(x, y) && LumaPlace(s.ywidth, x, y) == InRight(right.Address(x, y)))
  {
    if s.ywidth > 1024 && x >= 1016 {
      assert (x - 1016) / 8 == x / 8 - 127;
    }
  }

  /** Every luma texel of the configured size holds its byte of the Y plane, for every stride. */
  lemma LumaClosedForm(s: Sizes, was: Textures, p: Planes, now: Textures, x: nat, y: nat)
    requires Displayed(s, was, p, now)
    requires x < s.ywidth && y < s.yheight
    ensures Offset(p.ystride, x, y) < |p.y|
    ensures PlaceHolds(now, LumaPlace(s.ywidth, x, y), p.y[Offset(p.ystride, x, y)])
  {
    s.LayoutsFit(p);
    s.TexturesFit();
    var lu, ru := Upload(s.Left(), was.left, p.y, p.ystride), Upload(s.Right(), was.right, p.y, p.ystride);
    LumaPlaceOfLayouts(s, x, y, lu, ru);
    if lu.Copies(x, y) && LumaPlace(s.ywidth, x, y) == InLeft(lu.Address(x, y)) {
      lu.CopiedByte(now.left, x, y);
    } else {
      ru.CopiedByte(now.right, x, y);
    }
  }

  /** The same for the chroma planes, each in its own texture. */
  lemma ChromaClosedForm(s: Sizes, was: Textures, p: Planes, now: Textures, x: nat, y: nat)
    requires Displayed(s, was, p, now)
    requires x < s.uvwidth && y < s.uvheight
    ensures Offset(p.uvstride, x, y) < |p.u| && Offset(p.uvstride, x, y) < |p.v|
    ensures Holds(now.u, ChromaPlace(s.uvwidth, x, y), p.u[Offset(p.uvstride, x, y)])
    ensures Holds(now.v, ChromaPlace(s.uvwidth, x, y), p.v[Offset(p.uvstride, x, y)])
  {
    ChromaDone(s, was, p, now);
    ChromaByte(s, Upload(s.Chroma(), was.u, p.u, p.uvstride), now.u, x, y);
    ChromaByte(s, Upload(s.Chroma(), was.v, p.v, p.uvstride), now.v, x, y);
  }

  lemma ChromaDone(s: Sizes, was: Textures, p: Planes, now: Textures)
    requires Displayed(s, was, p, now)
    ensures var u, v := Upload(s.Chroma(), was.u, p.u, p.uvstride), Upload(s.Chroma(), was.v, p.v, p.uvstride);
            u.Valid() && v.Valid() && u.Done(now.u) && v.Done(now.v) && s.Chroma().WritesInside(CHROMA_WORDS)
  {
    s.LayoutsFit(p);
    s.TexturesFit();
  }

  lemma ChromaPlaceIsAddress(s: Sizes, u: Upload, x: nat, y: nat)
    requires s.Valid() && u.l == s.Chroma()
    ensures u.l.Valid() && (u.Copies(x, y) <==> x < s.uvwidth && y < s.uvheight)
    ensures ChromaPlace(s.uvwidth, x, y) == u.Address(x, y)
  {
    hide TiledAddress;
    assert (s.uvwidth + 7) / 8 == s.uvwidth / 8;
  }

  lemma ChromaByte(s: Sizes, u: Upload, now: seq<Word>, x: nat, y: nat)
    requires s.Valid() && u.l == s.Chroma() && u.Valid() && u.l.WritesInside(|u.before|) && u.Done(now)
    requires x < s.uvwidth && y < s.uvheight
    ensures Offset(u.stride, x, y) < |u.plane|
    ensures Holds(now, ChromaPlace(s.uvwidth, x, y), u.plane[Offset(u.stride, x, y)])
  {
    hide ChromaPlace, TiledAddress;
    ChromaPlaceIsAddress(s, u, x, y);
    u.CopiedByte(now, x, y);
  }

  /** No two texels of a frame share a place. */
  lemma LumaPlaceInjective(s: Sizes, x: nat, y: nat, x': nat, y': nat)
    requires s.Valid() && x < s.ywidth && y < s.yheight && x' < s.ywidth && y' < s.yheight
    ensures LumaPlace(s.ywidth, x, y) == LumaPlace(s.ywidth, x', y') ==> x == x' && y == y'
  {
    var lu, ru := Upload(s.Left(), [], [], 0), Upload(s.Right(), [], [], 0);
    LumaPlaceOfLayouts(s, x, y, lu, ru);
    LumaPlaceOfLayouts(s, x', y', lu, ru);
    if LumaPlace(s.ywidth, x, y) != LumaPlace(s.ywidth, x', y') {
    } else if LumaPlace(s.ywidth, x, y).InLeft? {
      lu.AddressOfCopied(x, y);
      lu.AddressOfCopied(x', y');
    } else {
      ru.AddressOfCopied(x, y);
      ru.AddressOfCopied(x', y');
    }
  }

  /**
   An upload changes nothing but texels: a word of the left texture whose bytes are not all
   places of texels keeps its contents. In a wide frame that includes tile 127 of every row.
   */
  lemma LeftFrame(s: Sizes, u: Upload, left: seq<Word>, i: nat)
    requires s.Valid() && u.l == s.Left() && u.Valid() && u.Done(left) && i < |left|
    requires !u.l.Covers(i) || (s.ywidth > 1024 && i / 4 % 128 == 127)
    ensures left[i] == u.before[i]
  {
    u.UncoveredWord(left, i);
  }

  lemma RightFrame(s: Sizes, u: Upload, right: seq<Word>, i: nat)
    requires s.Valid() && u.l == s.Right() && u.Valid() && u.Done(right) && i < |right|
    requires !u.l.Covers(i) || i / 4 % (s.Wr() + 1) == 0
    ensures right[i] == u.before[i]
  {
    u.UncoveredWord(right, i);
  }

  /** A covered word is made of texels only: each of its addresses is the place of one. */
  lemma CoveredIsTexel(s: Sizes, u: Upload, a: nat)
    requires s.Valid() && u.l == s.Left() && u.l.Covers(a / 8)
    ensures exists x: nat, y: nat :: x < s.ywidth && y < s.yheight && LumaPlace(s.ywidth, x, y) == InLeft(a)
  {
    u.TexelOfCovered(a);
    var x, y := u.Texel(a).0, u.Texel(a).1;
    LumaPlaceOfLayouts(s, x, y, u, Upload(s.Right(), [], [], 0));
    assert LumaPlace(s.ywidth, x, y) == InLeft(a);
  }

  /** The same for the right texture and for each chroma texture. */
  lemma CoveredIsTexelRight(s: Sizes, u: Upload, a: nat)
    requires s.Valid() && u.l == s.Right() && u.l.Covers(a / 8)
    ensures exists x: nat, y: nat :: x < s.ywidth && y < s.yheight && LumaPlace(s.ywidth, x, y) == InRight(a)
  {
    u.TexelOfCovered(a);
    var x, y := u.Texel(a).0, u.Texel(a).1;
    LumaPlaceOfLayouts(s, x, y, Upload(s.Left(), [], [], 0), u);
    assert LumaPlace(s.ywidth, x, y) == InRight(a);
  }

  lemma CoveredIsTexelChroma(s: Sizes, u: Upload, a: nat)
    requires s.Valid() && u.l == s.Chroma() && u.l.Covers(a / 8)
    ensures exists x: nat, y: nat :: x < s.uvwidth && y < s.uvheight && ChromaPlace(s.uvwidth, x, y) == a
  {
    hide TiledAddress;
    u.TexelOfCovered(a);
    var x, y := u.Texel(a).0, u.Texel(a).1;
    ChromaPlaceIsAddress(s, u, x, y);
  }

  /** No two chroma texels share an address. */
  lemma ChromaPlaceInjective(s: Sizes, x: nat, y: nat, x': nat, y': nat)
    requires s.Valid() && x < s.uvwidth && y < s.uvheight && x' < s.uvwidth && y' < s.uvheight
    ensures ChromaPlace(s.uvwidth, x, y) == ChromaPlace(s.uvwidth, x', y') ==> x == x' && y == y'
  {
    hide TiledAddress, ChromaPlace;
    var u := Upload(s.Chroma(), [], [], 0);
    ChromaPlaceIsAddress(s, u, x, y);
    ChromaPlaceIsAddress(s, u, x', y');
    if ChromaPlace(s.uvwidth, x, y) == ChromaPlace(s.uvwidth, x', y') {
      u.AddressOfCopied(x, y);
      u.AddressOfCopied(x', y');
    }
  }

  /** Words of a chroma texture that belong to no texel keep their contents. */
  lemma ChromaFrame(s: Sizes, u: Upload, now: seq<Word>, i: nat)
    requires s.Valid() && u.l == s.Chroma() && u.Valid() && u.Done(now) && i < |now| && !u.l.Covers(i)
    ensures now[i] == u.before[i]
  {
    u.UncoveredWord(now, i);
  }
}
