/**
 The copy of linear image planes into the GPU's tiled 8-bit textures.

 The GPU stores an 8-bit texture as 32-byte tiles of 8 x 4 texels. The copy loops move one
 64-bit word at a time, so a texture is modelled as an array of 8-byte words (four words a
 tile) and a source plane as a sequence of bytes, because source rows need not be aligned.
 */
module TiledTexture {
  import opened CTypes

  type Word = w: seq<Byte> | |w| == 8 witness [0, 0, 0, 0, 0, 0, 0, 0]

  const ZERO_WORD: Word := [0, 0, 0, 0, 0, 0, 0, 0]
  const NEUTRAL_WORD: Word := [0x80, 0x80, 0x80, 0x80, 0x80, 0x80, 0x80, 0x80]

  // ---------------------------------------------------------------------------
  // Index arithmetic
  // ---------------------------------------------------------------------------

  /** `r * n`, as the loops reach it: one addition of `n` a row. */
  ghost function Times(r: nat, n: nat): nat {
    if r == 0 then 0 else Times(r - 1, n) + n
  }

  lemma {:induction false} TimesIsProduct(r: nat, n: nat)
    ensures Times(r, n) == r * n
  {
    if r > 0 {
      TimesIsProduct(r - 1, n);
      assert r * n == (r - 1) * n + n;
    }
  }

  lemma {:induction false} TimesMonotone(r: nat, rows: nat, n: nat)
    requires r <= rows
    ensures Times(r, n) <= Times(rows, n)
  {
    if r < rows {
      TimesMonotone(r, rows - 1, n);
    }
  }

  lemma {:induction false} TimesScales(r: nat, n: nat, k: nat)
    ensures Times(r, k * n) == k * Times(r, n)
  {
    if r > 0 {
      TimesScales(r - 1, n, k);
      assert k * Times(r, n) == k * Times(r - 1, n) + k * n;
    }
  }

  /** Division recovers the row and remainder the position within it. */
  lemma {:induction false} DivModOfTimes(r: nat, n: nat, t: nat)
    requires t < n
    ensures (Times(r, n) + t) / n == r && (Times(r, n) + t) % n == t
  {
    if r > 0 {
      DivModOfTimes(r - 1, n, t);
      var m := Times(r - 1, n) + t;
      assert (m + n) / n == m / n + 1 && (m + n) % n == m % n by { AddOneRow(m, n); }
    }
  }

  lemma AddOneRow(m: nat, n: nat)
    requires n > 0
    ensures (m + n) / n == m / n + 1 && (m + n) % n == m % n
  {
    var k := (m + n) / n - m / n - 1;
    assert m == m / n * n + m % n && m + n == (m + n) / n * n + (m + n) % n;
    assert k * n == m % n - (m + n) % n;
    SmallMultiple(k, n);
  }

  lemma SmallMultiple(k: int, d: int)
    requires -d < k * d < d
    ensures k == 0
  {
    if k >= 1 {
      MulMonotone(1, k, d);
    } else if k <= -1 {
      MulMonotone(k, -1, d);
    }
  }

  lemma MulMonotone(a: int, b: int, d: int)
    requires a <= b && 0 <= d
    ensures a * d <= b * d
  {
  }

  // ---------------------------------------------------------------------------
  // What one texture holds after an upload
  // ---------------------------------------------------------------------------

  /**
   The part of a texture an upload writes: `rows` rows of tiles, each `pitch` tiles long, of
   which the tiles `first .. first + count` receive the source words from `column` on.
   */
  datatype Layout = Layout(rows: nat, pitch: nat, first: nat, count: nat, column: nat) {
    ghost predicate Valid() { first + count <= pitch }

    predicate Covers(i: nat) {
      pitch > 0 && i / 4 / pitch < rows && first <= i / 4 % pitch < first + count
    }

    predicate ReadsInside(planeSize: nat, stride: nat) {
      rows > 0 && count > 0 ==> (4 * rows - 1) * stride + 8 * (column + count) <= planeSize
    }

    predicate WritesInside(textureWords: nat) { 4 * (rows * pitch) <= textureWords }

    /** The stores of an upload, in order: every covered word exactly once, and no other. */
    ghost predicate StoredOnce(log: seq<nat>) {
      && (forall j, k :: 0 <= j < k < |log| ==> log[j] < log[k])
      && (forall i: nat {:trigger Covers(i)} {:trigger i in log} :: i in log <==> Covers(i))
    }
  }

  /** The offset of byte `x` of row `y` in a plane. */
  function Offset(stride: nat, x: nat, y: nat): nat { y * stride + x }

  /** The byte at an address of a texture is `b`. */
  predicate Holds(texture: seq<Word>, address: nat, b: Byte) {
    address / 8 < |texture| && texture[address / 8][address % 8] == b
  }

  /**
   The address of texel `(x, y)` when its column is in tile `tile` of texture rows of `pitch`
   tiles: a tile holds 8 x 4 bytes row by row, and the tiles of a row follow each other.
   */
  function TiledAddress(pitch: nat, tile: nat, x: nat, y: nat): nat {
    var row: nat := y / 4;
    (row * pitch + tile) * 32 + y % 4 * 8 + x % 8
  }

  /** Words `p .. p + 4` hold the eight bytes at `s` and one, two and three strides below. */
  ghost predicate TileStored(was: seq<Word>, now: seq<Word>, p: nat, plane: seq<Byte>, s: nat, stride: nat) {
    && |now| == |was| && p + 4 <= |now| && s + 3 * stride + 8 <= |plane|
    && (forall i :: 0 <= i < |now| && !(p <= i < p + 4) ==> now[i] == was[i])
    && now[p] == plane[s..s + 8]
    && now[p + 1] == plane[s + stride..s + stride + 8]
    && now[p + 2] == plane[s + 2 * stride..s + 2 * stride + 8]
    && now[p + 3] == plane[s + 3 * stride..s + 3 * stride + 8]
  }

  /** The upload of a plane, whose rows are `stride` bytes apart, over the words `before`. */
  datatype Upload = Upload(l: Layout, before: seq<Word>, plane: seq<Byte>, stride: nat) {

    ghost predicate Valid() { l.Valid() && l.ReadsInside(|plane|, stride) }

    ghost function FirstByte(r: nat): nat { Times(r, 4 * stride) }
    ghost function FirstTile(r: nat): nat { Times(r, l.pitch) }

    lemma SourceInside(y: nat, c: nat)
      requires Valid() && y < 4 * l.rows && l.column <= c < l.column + l.count
      ensures y * stride + 8 * c + 8 <= |plane|
    {
      MulMonotone(y, 4 * l.rows - 1, stride);
    }

    /** The word the texture holds at index `i` afterwards. */
    function WordAfter(i: nat): Word
      requires Valid() && i < |before|
    {
      if l.Covers(i) then
        var y, c := i / 4 / l.pitch * 4 + i % 4, l.column + i / 4 % l.pitch - l.first;
        SourceInside(y, c);
        plane[y * stride + 8 * c..y * stride + 8 * c + 8]
      else
        before[i]
    }

    /** Words below `p` are as afterwards, the others as before. */
    ghost predicate FilledTo(now: seq<Word>, p: int)
      requires Valid()
    {
      && |now| == |before|
      && (forall i {:trigger WordAfter(i)} :: 0 <= i < p && i < |now| ==> now[i] == WordAfter(i))
      && (forall i {:trigger before[i]} :: p <= i && 0 <= i < |now| ==> now[i] == before[i])
    }

    ghost predicate Done(now: seq<Word>)
      requires Valid()
    {
      FilledTo(now, |now|)
    }

    /** The stores so far: the words below `p` that the layout covers, each once and in ascending order. */
    ghost predicate StoredTo(log: seq<nat>, p: int) {
      && (forall j, k :: 0 <= j < k < |log| ==> log[j] < log[k])
      && (forall i: nat {:trigger l.Covers(i)} {:trigger i in log} :: i in log <==> i < p && l.Covers(i))
    }

    lemma NothingStored()
      ensures StoredTo([], 0)
    {
    }

    lemma StoreOfTile(log: seq<nat>, r: nat, t: nat)
      requires r < l.rows && l.first <= t < l.first + l.count <= l.pitch
      requires StoredTo(log, 4 * (FirstTile(r) + t))
      ensures StoredTo(log + TileWords(4 * (FirstTile(r) + t)), 4 * (FirstTile(r) + t) + 4)
    {
      var p := 4 * (FirstTile(r) + t);
      var now := log + TileWords(p);
      forall i: nat
        ensures i in now <==> i < p + 4 && l.Covers(i)
      {
        TileWordsAre(p, i);
        assert i in now <==> i in log || i in TileWords(p);
        if p <= i < p + 4 {
          WordIndex(r, t, i);
        }
      }
      assert forall j :: 0 <= j < |log| ==> log[j] in log;
    }

    lemma SkipOfTile(log: seq<nat>, r: nat, t: nat)
      requires t < l.pitch && !(l.first <= t < l.first + l.count) && StoredTo(log, 4 * (FirstTile(r) + t))
      ensures StoredTo(log, 4 * (FirstTile(r) + t) + 4)
    {
      var p := 4 * (FirstTile(r) + t);
      forall i: nat | p <= i < p + 4
        ensures !l.Covers(i)
      {
        WordIndex(r, t, i);
      }
    }

    lemma StoredAll(log: seq<nat>)
      requires StoredTo(log, 4 * FirstTile(l.rows))
      ensures l.StoredOnce(log)
    {
      forall i: nat | 4 * FirstTile(l.rows) <= i
        ensures !l.Covers(i)
      {
        BeyondLastRow(i);
      }
    }

    lemma NoTilesStored()
      requires l.count == 0
      ensures l.StoredOnce([])
    {
    }

    /** Word `i` lies in tile `t` of tile row `r`. */
    lemma WordIndex(r: nat, t: nat, i: nat)
      requires t < l.pitch && 4 * (FirstTile(r) + t) <= i < 4 * (FirstTile(r) + t) + 4
      ensures i / 4 / l.pitch == r && i / 4 % l.pitch == t && i % 4 == i - 4 * (FirstTile(r) + t)
      ensures l.Covers(i) <==> r < l.rows && l.first <= t < l.first + l.count
    {
      assert i / 4 == FirstTile(r) + t;
      DivModOfTimes(r, l.pitch, t);
    }

    /** The four source words of a tile lie inside the plane. */
    lemma RowsInside(r: nat, c: nat)
      requires Valid() && r < l.rows && l.column <= c < l.column + l.count
      ensures FirstByte(r) + 3 * stride + 8 * c + 8 <= |plane|
    {
      SourceInside(4 * r + 3, c);
      RowStart(r, 3);
    }

    lemma TileInside(words: nat, r: nat, t: nat)
      requires Valid() && l.WritesInside(words) && r < l.rows && t < l.pitch
      ensures 4 * (FirstTile(r) + t) + 4 <= words
    {
      TimesMonotone(r + 1, l.rows, l.pitch);
      TimesIsProduct(l.rows, l.pitch);
    }

    /** Word `k` of tile `t` in tile row `r` comes from source row `4 * r + k`. */
    lemma TileWord(r: nat, t: nat, k: nat)
      requires Valid() && r < l.rows && l.first <= t < l.first + l.count && k < 4
      requires 4 * (FirstTile(r) + t) + 4 <= |before|
      ensures var s := FirstByte(r) + 8 * (l.column + t - l.first) + k * stride;
              s + 8 <= |plane| && WordAfter(4 * (FirstTile(r) + t) + k) == plane[s..s + 8]
    {
      WordIndex(r, t, 4 * (FirstTile(r) + t) + k);
      SourceInside(4 * r + k, l.column + t - l.first);
      RowStart(r, k);
    }

    lemma RowStart(r: nat, k: nat)
      ensures (4 * r + k) * stride == FirstByte(r) + k * stride
    {
      TimesIsProduct(r, 4 * stride);
      assert r * (4 * stride) == 4 * r * stride;
    }

    lemma TileRowStored(was: seq<Word>, now: seq<Word>, p: nat, k: nat, s: nat)
      requires TileStored(was, now, p, plane, s, stride) && k < 4
      ensures s + k * stride + 8 <= |plane| && now[p + k] == plane[s + k * stride..s + k * stride + 8]
    {
      if k == 0 {
        assert k * stride == 0;
      } else if k == 1 {
        assert k * stride == stride;
      } else if k == 2 {
        assert k * stride == 2 * stride;
      } else {
        assert k * stride == 3 * stride;
      }
    }

    /** Writing one tile of four source rows extends the filled prefix by four words. */
    lemma TileExtends(was: seq<Word>, now: seq<Word>, r: nat, t: nat, p: nat)
      requires Valid() && r < l.rows && l.first <= t < l.first + l.count
      requires p == 4 * (FirstTile(r) + t) && p + 4 <= |was| && FilledTo(was, p)
      requires TileStored(was, now, p, plane, FirstByte(r) + 8 * (l.column + t - l.first), stride)
      ensures FilledTo(now, p + 4)
    {
      forall i | p <= i < p + 4
        ensures now[i] == WordAfter(i)
      {
        TileWord(r, t, i - p);
        TileRowStored(was, now, p, i - p, FirstByte(r) + 8 * (l.column + t - l.first));
      }
    }

    /** A tile that is stepped over keeps its words. */
    lemma SkipExtends(now: seq<Word>, r: nat, t: nat)
      requires Valid() && t < l.pitch && !(l.first <= t < l.first + l.count)
      requires FilledTo(now, 4 * (FirstTile(r) + t))
      ensures FilledTo(now, 4 * (FirstTile(r) + t) + 4)
    {
      var p := 4 * (FirstTile(r) + t);
      forall i | p <= i < p + 4 && i < |now|
        ensures now[i] == WordAfter(i)
      {
        WordIndex(r, t, i);
      }
    }

    /** The texture address of plane byte `(x, y)`. */
    function Address(x: nat, y: nat): nat
      requires l.column <= x / 8
    {
      TiledAddress(l.pitch, l.first + x / 8 - l.column, x, y)
    }

    /** The plane byte stored at a covered texture address. */
    function Texel(a: nat): (nat, nat)
      requires l.Covers(a / 8)
    {
      (8 * (l.column + a / 32 % l.pitch - l.first) + a % 8, a / 32 / l.pitch * 4 + a / 8 % 4)
    }

    /** `(x, y)` is one of the bytes the upload copies. */
    predicate Copies(x: nat, y: nat) { y < 4 * l.rows && l.column <= x / 8 < l.column + l.count }

    /** `Address` and `Texel` undo each other: no two bytes share an address. */
    lemma AddressOfCopied(x: nat, y: nat)
      requires l.Valid() && Copies(x, y)
      ensures l.Covers(Address(x, y) / 8) && Texel(Address(x, y)) == (x, y)
      ensures l.WritesInside(|before|) ==> Address(x, y) / 8 < |before|
    {
      var a, r, t := Address(x, y), y / 4, l.first + x / 8 - l.column;
      AddressParts(x, y);
      WordIndex(r, t, a / 8);
      if l.WritesInside(|before|) {
        TimesMonotone(r + 1, l.rows, l.pitch);
        TimesIsProduct(l.rows, l.pitch);
      }
    }

    lemma TexelOfCovered(a: nat)
      requires l.Valid() && l.Covers(a / 8)
      ensures Copies(Texel(a).0, Texel(a).1) && Address(Texel(a).0, Texel(a).1) == a
    {
      var r, t := a / 32 / l.pitch, a / 32 % l.pitch;
      var (x, y) := Texel(a);
      assert a / 8 / 4 == a / 32 == r * l.pitch + t;
      assert x / 8 == l.column + t - l.first && x % 8 == a % 8;
      assert y / 4 == r && y % 4 == a / 8 % 4;
      assert a == (r * l.pitch + t) * 32 + y % 4 * 8 + x % 8;
    }

    /**
     The closed form of an upload: the address of a copied byte holds that byte of the plane,
     for every stride.
     */
    lemma CopiedByte(now: seq<Word>, x: nat, y: nat)
      requires Valid() && l.WritesInside(|before|) && Done(now) && Copies(x, y)
      ensures Offset(stride, x, y) < |plane| && Holds(now, Address(x, y), plane[Offset(stride, x, y)])
    {
      AddressParts(x, y);
      RowStart(y / 4, y % 4);
      TileInside(|before|, y / 4, l.first + x / 8 - l.column);
      CopiedByteOfTile(now, y / 4, l.first + x / 8 - l.column, y % 4, x % 8);
    }

    lemma CopiedByteOfTile(now: seq<Word>, r: nat, t: nat, k: nat, b: nat)
      requires Valid() && Done(now) && 4 * (FirstTile(r) + t) + 4 <= |before|
      requires r < l.rows && l.first <= t < l.first + l.count && k < 4 && b < 8
      ensures var i, s := 4 * (FirstTile(r) + t) + k, FirstByte(r) + 8 * (l.column + t - l.first) + k * stride + b;
              s < |plane| && now[i][b] == plane[s]
    {
      TileWord(r, t, k);
      var i := 4 * (FirstTile(r) + t) + k;
      assert now[i] == WordAfter(i);
    }

    lemma AddressParts(x: nat, y: nat)
      requires l.Valid() && Copies(x, y)
      ensures var i := 4 * (FirstTile(y / 4) + l.first + x / 8 - l.column) + y % 4;
              Address(x, y) / 8 == i && Address(x, y) % 8 == x % 8 && Address(x, y) / 32 == i / 4
    {
      TimesIsProduct(y / 4, l.pitch);
    }

    /** All other words keep their contents. */
    lemma UncoveredWord(now: seq<Word>, i: nat)
      requires Valid() && Done(now) && i < |now| && !l.Covers(i)
      ensures now[i] == before[i]
    {
      assert now[i] == WordAfter(i);
    }

    lemma BeyondLastRow(i: nat)
      requires 4 * FirstTile(l.rows) <= i
      ensures !l.Covers(i)
    {
      if l.pitch > 0 && i / 4 / l.pitch < l.rows {
        var r, t := i / 4 / l.pitch, i / 4 % l.pitch;
        TimesIsProduct(r, l.pitch);
        TimesMonotone(r + 1, l.rows, l.pitch);
        assert false;
      }
    }

    lemma FilledAll(now: seq<Word>)
      requires Valid() && FilledTo(now, 4 * FirstTile(l.rows))
      ensures Done(now)
    {
      forall i | 4 * FirstTile(l.rows) <= i < |now|
        ensures now[i] == WordAfter(i)
      {
        BeyondLastRow(i);
      }
    }
  }

  // ---------------------------------------------------------------------------
  // The copy loops
  // ---------------------------------------------------------------------------

  /** The four source pointers of a copy loop, as byte offsets into the plane. */
  datatype Rows = Rows(s1: int, s2: int, s3: int, s4: int) {
    predicate From(s: int, stride: nat) { s1 == s && s2 == s1 + stride && s3 == s2 + stride && s4 == s3 + stride }

    function Advance(n: int): Rows { Rows(s1 + n, s2 + n, s3 + n, s4 + n) }
  }

  /** The four words of a tile, in the order they are stored. */
  function TileWords(p: nat): seq<nat> { [p, p + 1, p + 2, p + 3] }

  lemma TileWordsAre(p: nat, i: nat)
    ensures i in TileWords(p) <==> p <= i < p + 4
  {
  }

  /** The pointers before the first row, one word early for the pre-increments. */
  function FirstRows(stride: nat): Rows { Rows(-8, stride - 8, stride * 2 - 8, stride * 3 - 8) }

  /**
   One tile of a copy loop: clear the tile's cache line, then store one word from each of the
   four source rows. The pointers are left on the last word written and the last words read.
   */
  method StoreTile(dst: array<Word>, d: int, plane: seq<Byte>, src: Rows, ghost stride: nat, ghost log: seq<nat>)
      returns (d': int, src': Rows, ghost log': seq<nat>)
    requires -1 <= d && d % 4 == 3 && d + 4 < dst.Length
    requires -8 <= src.s1 && src.From(src.s1, stride) && src.s4 + 16 <= |plane|
    modifies dst
    ensures d' == d + 4 && src' == src.Advance(8) && log' == log + TileWords(d + 1)
    ensures forall i :: 0 <= i < dst.Length && !(d + 1 <= i < d + 5) ==> dst[i] == old(dst[i])
    ensures dst[d + 1] == plane[src'.s1..src'.s1 + 8] && dst[d + 2] == plane[src'.s2..src'.s2 + 8]
    ensures dst[d + 3] == plane[src'.s3..src'.s3 + 8] && dst[d + 4] == plane[src'.s4..src'.s4 + 8]
  {
    src' := src.Advance(8);
    d' := d + 1;
    ClearCacheLine(dst, d');
    dst[d'], log' := plane[src'.s1..src'.s1 + 8], log + [d'];
    d' := d' + 1;
    dst[d'], log' := plane[src'.s2..src'.s2 + 8], log' + [d'];
    d' := d' + 1;
    dst[d'], log' := plane[src'.s3..src'.s3 + 8], log' + [d'];
    d' := d' + 1;
    dst[d'], log' := plane[src'.s4..src'.s4 + 8], log' + [d'];
  }

  lemma RowsStored(was: seq<Word>, now: seq<Word>, p: nat, plane: seq<Byte>, src: Rows, stride: nat)
    requires |now| == |was| && p + 4 <= |now| && 0 <= src.s1 && src.From(src.s1, stride) && src.s4 + 8 <= |plane|
    requires forall i :: 0 <= i < |now| && !(p <= i < p + 4) ==> now[i] == was[i]
    requires now[p] == plane[src.s1..src.s1 + 8] && now[p + 1] == plane[src.s2..src.s2 + 8]
    requires now[p + 2] == plane[src.s3..src.s3 + 8] && now[p + 3] == plane[src.s4..src.s4 + 8]
    ensures TileStored(was, now, p, plane, src.s1, stride)
  {
  }

  /** The dcbz instruction on the first word of an aligned 32-byte line. */
  method ClearCacheLine(dst: array<Word>, i: nat)
    requires i % 4 == 0 && i + 4 <= dst.Length
    modifies dst
    ensures forall j :: i <= j < i + 4 ==> dst[j] == ZERO_WORD
    ensures forall j :: 0 <= j < dst.Length && !(i <= j < i + 4) ==> dst[j] == old(dst[j])
  {
    dst[i], dst[i + 1], dst[i + 2], dst[i + 3] := ZERO_WORD, ZERO_WORD, ZERO_WORD, ZERO_WORD;
  }

  /** Tile `t` of tile row `r`. */
  method UploadTile(ghost u: Upload, dst: array<Word>, plane: seq<Byte>, ghost r: nat, ghost t: nat, d: int, src: Rows,
                    ghost log: seq<nat>)
      returns (d': int, src': Rows, ghost log': seq<nat>)
    requires u.Valid() && u.plane == plane && u.l.WritesInside(dst.Length)
    requires r < u.l.rows && u.l.first <= t < u.l.first + u.l.count
    requires d == 4 * (u.FirstTile(r) + t) - 1 && u.FilledTo(dst[..], d + 1)
    requires src.From(u.FirstByte(r) + 8 * (u.l.column + t - u.l.first) - 8, u.stride)
    requires u.StoredTo(log, d + 1)
    modifies dst
    ensures d' == d + 4 && u.FilledTo(dst[..], d' + 1)
    ensures src' == src.Advance(8) && u.StoredTo(log', d' + 1)
  {
    hide Upload.StoredTo;
    u.RowsInside(r, u.l.column + t - u.l.first);
    u.TileInside(dst.Length, r, t);
    ghost var was := dst[..];
    d', src', log' := StoreTile(dst, d, plane, src, u.stride, log);
    u.StoreOfTile(log, r, t);
    ghost var now := dst[..];
    RowsStored(was, now, d + 1, plane, src', u.stride);
    u.TileExtends(was, now, r, t, d + 1);
  }

  /** The tile loop of one texture for tile row `r`. */
  method CopyTiles(ghost u: Upload, count: nat, dst: array<Word>, plane: seq<Byte>, ghost r: nat, d: int, src: Rows,
                   ghost log: seq<nat>)
      returns (d': int, src': Rows, ghost log': seq<nat>)
    requires u.Valid() && u.plane == plane && u.l.count == count && u.l.WritesInside(dst.Length) && r < u.l.rows
    requires d == 4 * (u.FirstTile(r) + u.l.first) - 1 && u.FilledTo(dst[..], d + 1)
    requires src.From(u.FirstByte(r) + 8 * u.l.column - 8, u.stride)
    requires u.StoredTo(log, d + 1)
    modifies dst
    ensures d' == d + 4 * count && u.FilledTo(dst[..], d' + 1)
    ensures src' == src.Advance(8 * count) && u.StoredTo(log', d' + 1)
  {
    hide Upload.StoredTo;
    d', src', log' := d, src, log;
    var tiles := count;
    ghost var t := u.l.first;
    while tiles > 0
      invariant 0 <= tiles && t + tiles == u.l.first + u.l.count
      invariant d' == 4 * (u.FirstTile(r) + t) - 1 && u.FilledTo(dst[..], d' + 1)
      invariant src' == src.Advance(8 * (t - u.l.first)) && u.StoredTo(log', d' + 1)
    {
      d', src', log' := UploadTile(u, dst, plane, r, t, d', src', log');
      tiles, t := tiles - 1, t + 1;
    }
  }

  /** LUMA_COPY: rows of tiles go to the left texture and, past tile `wl`, to the right one. */
  method LumaCopy(ghost left: Upload, ghost right: Upload, yltexture: array<Word>, yrtexture: array<Word>,
                  plane: seq<Byte>, stride: nat, yheight: nat, wl: nat, wr: nat, yrowpitch: nat)
      returns (ghost leftLog: seq<nat>, ghost rightLog: seq<nat>)
    requires yltexture != yrtexture
    requires left == Upload(Layout(yheight / 4, if wr > 0 then wl + 1 else wl, 0, wl, 0), yltexture[..], plane, stride)
    requires right == Upload(Layout(yheight / 4, wr + 1, 1, wr, wl), yrtexture[..], plane, stride)
    requires left.Valid() && right.Valid()
    requires left.l.WritesInside(yltexture.Length) && (wr > 0 ==> right.l.WritesInside(yrtexture.Length))
    requires 8 * (wl + wr) + yrowpitch == 4 * stride
    modifies yltexture, yrtexture
    ensures left.Done(yltexture[..]) && right.Done(yrtexture[..])
    ensures left.l.StoredOnce(leftLog) && right.l.StoredOnce(rightLog)
  {
    hide Upload.StoredTo, Layout.StoredOnce;
    leftLog, rightLog := [], [];
    left.NothingStored();
    right.NothingStored();
    var yldst, yrdst, src := -1, -1, FirstRows(stride);
    yrdst := yrdst + 4;
    var rows := yheight / 4;
    ghost var r := 0;
    while rows > 0
      invariant 0 <= rows && r + rows == left.l.rows
      invariant src.From(left.FirstByte(r) - 8, stride)
      invariant yldst == 4 * left.FirstTile(r) - 1 && left.FilledTo(yltexture[..], yldst + 1)
      invariant left.StoredTo(leftLog, yldst + 1)
      invariant if wr > 0 then right.StoredTo(rightLog, yrdst - 3) else rightLog == []
      invariant wr > 0 ==> yrdst == 4 * right.FirstTile(r) + 3 && right.FilledTo(yrtexture[..], yrdst - 3)
      invariant wr == 0 ==> yrtexture[..] == right.before
    {
      yldst, yrdst, src, leftLog, rightLog :=
        LumaRow(left, right, yltexture, yrtexture, plane, wl, wr, r, yldst, yrdst, src, leftLog, rightLog);
      src := src.Advance(yrowpitch);
      rows, r := rows - 1, r + 1;
    }
    left.FilledAll(yltexture[..]);
    left.StoredAll(leftLog);
    if wr > 0 {
      right.FilledAll(yrtexture[..]);
      right.StoredAll(rightLog);
    } else {
      right.NoTilesStored();
    }
  }

  /** One row of LUMA_COPY; the right texture's first tile and the left one's last are stepped over. */
  method LumaRow(ghost left: Upload, ghost right: Upload, yltexture: array<Word>, yrtexture: array<Word>,
                 plane: seq<Byte>, wl: nat, wr: nat, ghost r: nat, yldst: int, yrdst: int, src: Rows,
                 ghost leftLog: seq<nat>, ghost rightLog: seq<nat>)
      returns (yldst': int, yrdst': int, src': Rows, ghost leftLog': seq<nat>, ghost rightLog': seq<nat>)
    requires yltexture != yrtexture && left.plane == right.plane == plane && left.stride == right.stride
    requires r < left.l.rows && left.l == Layout(left.l.rows, if wr > 0 then wl + 1 else wl, 0, wl, 0)
    requires right.l == Layout(left.l.rows, wr + 1, 1, wr, wl)
    requires left.Valid() && right.Valid()
    requires left.l.WritesInside(yltexture.Length) && (wr > 0 ==> right.l.WritesInside(yrtexture.Length))
    requires src.From(left.FirstByte(r) - 8, left.stride)
    requires yldst == 4 * left.FirstTile(r) - 1 && left.FilledTo(yltexture[..], yldst + 1)
    requires wr > 0 ==> yrdst == 4 * right.FirstTile(r) + 3 && right.FilledTo(yrtexture[..], yrdst - 3)
    requires left.StoredTo(leftLog, yldst + 1)
    requires if wr > 0 then right.StoredTo(rightLog, yrdst - 3) else rightLog == []
    modifies yltexture, yrtexture
    ensures src' == src.Advance(8 * (wl + wr))
    ensures yldst' == 4 * left.FirstTile(r + 1) - 1 && left.FilledTo(yltexture[..], yldst' + 1)
    ensures wr > 0 ==> yrdst' == 4 * right.FirstTile(r + 1) + 3 && right.FilledTo(yrtexture[..], yrdst' - 3)
    ensures wr == 0 ==> yrtexture[..] == old(yrtexture[..])
    ensures left.StoredTo(leftLog', yldst' + 1)
    ensures if wr > 0 then right.StoredTo(rightLog', yrdst' - 3) else rightLog' == []
  {
    hide Upload.StoredTo;
    rightLog' := rightLog;
    ghost var rightNow := yrtexture[..];
    yldst', src', leftLog' := CopyTiles(left, wl, yltexture, plane, r, yldst, src, leftLog);
    yrdst' := yrdst;
    assert yrtexture[..] == rightNow;
    if wr > 0 {
      ghost var leftNow := yltexture[..];
      right.SkipExtends(rightNow, r, 0);
      right.SkipOfTile(rightLog, r, 0);
      yrdst', src', rightLog' := CopyTiles(right, wr, yrtexture, plane, r, yrdst', src', rightLog);
      assert yltexture[..] == leftNow;
      left.SkipExtends(leftNow, r, wl);
      left.SkipOfTile(leftLog', r, wl);
      yldst' := yldst' + 4;
      yrdst' := yrdst' + 4;
    }
  }

  /** CHROMA_COPY: both chroma planes in one interleaved loop. */
  method ChromaCopy(ghost uu: Upload, ghost vu: Upload, utexture: array<Word>, vtexture: array<Word>,
                    uplane: seq<Byte>, vplane: seq<Byte>, stride: nat, uvheight: nat, ntiles: nat, uvrowpitch: nat)
      returns (ghost ulog: seq<nat>, ghost vlog: seq<nat>)
    requires utexture != vtexture
    requires uu == Upload(Layout(uvheight / 4, ntiles, 0, ntiles, 0), utexture[..], uplane, stride)
    requires vu == Upload(Layout(uvheight / 4, ntiles, 0, ntiles, 0), vtexture[..], vplane, stride)
    requires uu.Valid() && vu.Valid()
    requires uu.l.WritesInside(utexture.Length) && vu.l.WritesInside(vtexture.Length)
    requires 8 * ntiles + uvrowpitch == 4 * stride
    modifies utexture, vtexture
    ensures uu.Done(utexture[..]) && vu.Done(vtexture[..])
    ensures uu.l.StoredOnce(ulog) && vu.l.StoredOnce(vlog)
  {
    hide Upload.StoredTo, Layout.StoredOnce;
    ulog, vlog := [], [];
    uu.NothingStored();
    vu.NothingStored();
    var udst, vdst, usrc, vsrc := -1, -1, FirstRows(stride), FirstRows(stride);
    var rows := uvheight / 4;
    ghost var r := 0;
    while rows > 0
      invariant 0 <= rows && r + rows == uu.l.rows
      invariant usrc == vsrc && usrc.From(uu.FirstByte(r) - 8, stride)
      invariant udst == vdst == 4 * uu.FirstTile(r) - 1
      invariant uu.FilledTo(utexture[..], udst + 1) && vu.FilledTo(vtexture[..], vdst + 1)
      invariant uu.StoredTo(ulog, udst + 1) && vu.StoredTo(vlog, vdst + 1)
    {
      udst, vdst, usrc, vsrc, ulog, vlog :=
        ChromaTiles(uu, vu, utexture, vtexture, uplane, vplane, ntiles, r, udst, vdst, usrc, vsrc, ulog, vlog);
      usrc, vsrc := usrc.Advance(uvrowpitch), vsrc.Advance(uvrowpitch);
      rows, r := rows - 1, r + 1;
    }
    uu.FilledAll(utexture[..]);
    vu.FilledAll(vtexture[..]);
    uu.StoredAll(ulog);
    vu.StoredAll(vlog);
  }

  /** The inner loop of CHROMA_COPY: a U tile, then a V tile. */
  method ChromaTiles(ghost uu: Upload, ghost vu: Upload, utexture: array<Word>, vtexture: array<Word>,
                     uplane: seq<Byte>, vplane: seq<Byte>, ntiles: nat, ghost r: nat,
                     udst: int, vdst: int, usrc: Rows, vsrc: Rows, ghost ulog: seq<nat>, ghost vlog: seq<nat>)
      returns (udst': int, vdst': int, usrc': Rows, vsrc': Rows, ghost ulog': seq<nat>, ghost vlog': seq<nat>)
    requires utexture != vtexture && uu.l == vu.l && uu.l == Layout(uu.l.rows, ntiles, 0, ntiles, 0) && r < uu.l.rows
    requires uu.Valid() && vu.Valid() && uu.plane == uplane && vu.plane == vplane && uu.stride == vu.stride
    requires uu.l.WritesInside(utexture.Length) && vu.l.WritesInside(vtexture.Length)
    requires udst == vdst == 4 * uu.FirstTile(r) - 1 && usrc == vsrc && usrc.From(uu.FirstByte(r) - 8, uu.stride)
    requires uu.FilledTo(utexture[..], udst + 1) && vu.FilledTo(vtexture[..], vdst + 1)
    requires uu.StoredTo(ulog, udst + 1) && vu.StoredTo(vlog, vdst + 1)
    modifies utexture, vtexture
    ensures udst' == vdst' == 4 * uu.FirstTile(r + 1) - 1 && usrc' == vsrc' == usrc.Advance(8 * ntiles)
    ensures uu.FilledTo(utexture[..], udst' + 1) && vu.FilledTo(vtexture[..], vdst' + 1)
    ensures uu.StoredTo(ulog', udst' + 1) && vu.StoredTo(vlog', vdst' + 1)
  {
    hide Upload.StoredTo;
    udst', vdst', usrc', vsrc', ulog', vlog' := udst, vdst, usrc, vsrc, ulog, vlog;
    var tiles := ntiles;
    ghost var t := 0;
    while tiles > 0
      invariant 0 <= tiles && t + tiles == ntiles
      invariant udst' == vdst' == 4 * (uu.FirstTile(r) + t) - 1 && usrc' == vsrc' == usrc.Advance(8 * t)
      invariant uu.FilledTo(utexture[..], udst' + 1) && vu.FilledTo(vtexture[..], vdst' + 1)
      invariant uu.StoredTo(ulog', udst' + 1) && vu.StoredTo(vlog', vdst' + 1)
    {
      ghost var vNow := vtexture[..];
      udst', usrc', ulog' := UploadTile(uu, utexture, uplane, r, t, udst', usrc', ulog');
      ghost var uNow := utexture[..];
      assert vtexture[..] == vNow;
      vdst', vsrc', vlog' := UploadTile(vu, vtexture, vplane, r, t, vdst', vsrc', vlog');
      assert utexture[..] == uNow;
      tiles, t := tiles - 1, t + 1;
    }
  }
}
