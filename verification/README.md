# Moonlight for the Wii: a verified model

This project models the parts of the Wii streaming client whose correctness is not visible from one function at a time, and proves what they promise. Each Dafny file is a module named after its component.

* `TiledTexture`, `YuvTexture`, `FrameDecode`: a decoded picture is copied into frame buffers and from there into the GPU's tiled textures by loops of advancing pointers. The loops are proved to realise a closed-form tile map, for every stride, with nothing else in the textures changed. A texture is an array of 8-byte words, a source plane a sequence of bytes.
* `AudioRing`: PCM chunks of any size are packed through a carry buffer into 32 ring slots, while a DMA interrupt may take slots at any point outside the critical sections. `Interrupts` stands at each such point, between the bytes of a copy too.
* `FlipProtocol`: the drawing thread, the GPU-done callback and the vertical retrace share a handful of variables. They form a transition system, and runs are arbitrary sequences of its events.
* `HttpFraming`, `UrlCodec`: finding the end and the length of an HTTP response in a growing buffer, and building and taking apart request URLs.
* `ConfigFile`: saving and parsing the configuration file, including the line buffer that is reused between lines.
* `Mem2Areas`: regions carved off the top of the MEM2 arena, for any number of areas.
* `FrameQueue`, `Playback`: the 16-place queue with wrapping 32-bit indices, the two frame buffers its entries point to, and decoder, queue and upload put together.
* `SelectShim`: `select` on public handles, built on `net_select` and a handle table.
* `XmlText`: the expat handlers behind `xml_search_ex` and `xml_modelist`.
* `HexCodec`, `HomeButton`: hexadecimal text, and the home button's state machine.
* `CTypes`, `CText`: machine types, and the C library's string and number functions.

Code that changes state is a class or a method over arrays, proved against a function; the main results are then lemmas about that function. What the client does not control is a parameter: the parser's and the network's events, the answers of allocators and of `net_select`, the clock, and the contents of fresh memory.

Where the code does not do what its comments or its callers suggest, the model follows the code, and where a property fails the exact condition under which it holds is proved:

* The first frame is copied into the buffer that is being shown: `gx_video_init2` hands over `xfb[0]` and leaves `whichfb` at 0. The buffer to hand over next is the shown one exactly until the first flip (`CopyTargetIsShown`). After that a copy can still reach the screen, because its target is read before it is issued, exactly when a flip is pending at the read (`OntoShownExactlyWhenPending`).
* A frame can be handed over while its copy is in flight exactly when a flip is pending at its present (`TornExactlyWhenPending`). In progressive mode waiting for one retrace excludes both (`EachFrameShownOnce`, `PacedCopyStaysHidden`); in interlaced mode it does not (`InterlacedCanTear`).
* `commit_carry` has no space check, so 30 waiting slots is not an invariant (`BurstIsUnbounded`). Some interleaving of a commit with interrupts writes a slot in use exactly when the fill slot is in use as the append begins: 32 slots wait, or it is one of the two last given to the DSP (`CommitCarry`: none does otherwise, and the one without interrupts does then). The contents are kept up to 31 waiting slots; above, a commit without interrupts keeps them only if it writes the bytes that were there.
* Playback is started without stepping over the slot that is handed to the DSP. So over a whole session the DSP is given the first slot of the stream and then the stream from its beginning (`Session`): the first slot twice.
* `ar_stop` clears the level but not the positions; the ring is consistent afterwards exactly when a multiple of 32 slots was waiting (`Stop`).
* An upload reads whole groups of four rows, so the buffers allocated for a stream cover it exactly for heights that are multiples of eight (`BuffersFitUpload`).
* A configuration checks no size. The writes of an upload stay inside the textures exactly for the sizes that fit them (`WritesFitExactly`); 1280 x 1024, for which they are allocated, overruns the right texture by the unused tile of each row, and 1920 x 1080 overruns both (`LargestFramesOverrun`).
* Strides of zero look unchanged to the pitch cache (`PitchRightExactly`, `ZeroStridesKeepStalePitch`).
* A response is delivered whole under every split exactly when what strtol makes of the text behind the first field name is the length of its body (`DeliveredExactly`). A read loop succeeds only when some body bytes were received: an empty body is reported as a failure even though it was framed correctly (`ReadResponse`).
* A last line of the configuration file without a newline is not terminated in the line buffer. It gives its own value exactly when that fills the field or nothing is left behind it in the buffer (`UnendedExactly`, `LastAppLine`).
* A value is taken only behind a blank: "width=640" is not read (`UnspacedLine`).
* A header block that ends in a bare LF LF is recognised exactly when no CR LF CR LF follows it in the buffer, in the body for instance (`BareHeader`).
* The port of a URL without a path is also taken for its path (`AuthorityAlone`).
* A request for a MEM2 area so large that the address calculation wraps can pass the arena check (`WrappedRequestPasses`); a granted request is inside the arena exactly when it does not wrap (`CarvedExactly`, `AddKeeps`).
* What a `DisplayMode` field leaves is independent of uninitialised memory exactly when the field has text (`EmptyFieldReadsHeap`).

## Model

| member | source | states |
|---|---|---|
| TiledTexture.StoreTile | src/wii/gx_video.c:777-781 | four pre-incremented stores move one word of each of four source rows into the next tile, touch nothing else, and are logged word by word |
| TiledTexture.ClearCacheLine | src/wii/gx_video.c:777 | dcbz zeroes exactly the tile about to be written |
| TiledTexture.CopyTiles | src/wii/gx_video.c:775-782 | one row of tiles: everything up to the destination pointer is as after the upload, the rest as before, and the pointer moves past each tile, so none is visited twice |
| TiledTexture.LumaRow | src/wii/gx_video.c:774-799 | a row of tiles split over both textures: the left one's last and the right one's first tile are stepped over when there is a right part |
| TiledTexture.LumaCopy | src/wii/gx_video.c:763-800 | the pointer walk leaves both luma textures exactly as the two layouts say: each word of a layout holds its source word, every other word is unchanged; each covered word is stored exactly once, in ascending order, and no other; all reads lie in the plane and all writes in the textures |
| TiledTexture.ChromaTiles | src/wii/gx_video.c:817-829 | the interleaved inner loop fills the next row of U tiles and of V tiles |
| TiledTexture.ChromaCopy | src/wii/gx_video.c:802-839 | the interleaved loop leaves both chroma textures as the layout says, and stores each covered word exactly once |
| TiledTexture.Upload.StoreOfTile | src/wii/gx_video.c:777-781 | the stores of a tile extend the log of words stored once |
| TiledTexture.Upload.CopiedByte | src/wii/gx_video.c:763-800 | after an upload the tiled address of each copied byte holds that byte, for every stride |
| TiledTexture.Upload.AddressOfCopied | src/wii/gx_video.c:763-800 | the tile map has an inverse: no two copied bytes share an address, and each address is inside the texture |
| TiledTexture.Upload.TexelOfCovered | src/wii/gx_video.c:763-800 | every address of a written word is the address of some copied byte: the map is onto what is written |
| TiledTexture.Upload.UncoveredWord | src/wii/gx_video.c:783-794 | words outside the layout keep their contents |
| YuvTexture.PitchIsExact | src/wii/gx_video.c:845-846 | the 16-bit row pitch is the exact one if and only if four strides minus the width fits 16 bits |
| YuvTexture.SizesForValid | src/wii/gx_video.c:694-708 | for every resolution the 16-bit sizes are whole tiles |
| YuvTexture.RoundedUp | src/wii/gx_video.c:694-709 | sizes are rounded up to the next multiple of eight across and of four down, and no further |
| YuvTexture.ConfiguredSizes | src/wii/gx_video.c:694-709 | the four sizes in terms of width and height alone: eight for every eighth of the width begun, four for every fourth of the height, and the same for half of each |
| YuvTexture.ConfiguredTiles | src/wii/gx_video.c:699-702 | frames up to 1024 wide use the left texture alone, wider ones 127 tiles of it and the rest in the right one |
| YuvTexture.Sizes.LayoutsFit | src/wii/gx_video.c:699-705 | the left and right tile counts add up to the width, and a wide frame has 127 tiles left and one unused tile at each side of the split |
| YuvTexture.Sizes.FitIsReady | src/wii/gx_video.c:160-178 | sizes that fit the allocations and the planes make every read and write of both copies legal |
| YuvTexture.WritesFitExactly | src/wii/gx_video.c:160-178 | the writes of both copies stay inside the textures if and only if the used part of each fits its allocation |
| YuvTexture.LargestFramesOverrun | src/wii/gx_video.c:169-172 | 1280 x 1024 overruns the right texture, 1920 x 1080 the left one as well |
| YuvTexture.CacheRunValid | src/wii/gx_video.c:685-697 | in any run of configurations and fills a cached stride pair comes with its own pitches |
| YuvTexture.PitchIsCurrent | src/wii/gx_video.c:841-847 | at copy time the pitches belong to the strides and the configured size, after any run, early returns included, unless both strides are zero |
| YuvTexture.PitchesAreComputed | src/wii/gx_video.c:842-847 | after any run the pitches are those of the last fill that computed them, at the width configured then |
| YuvTexture.PitchRightExactly | src/wii/gx_video.c:841-847 | after any run the pitches are right if and only if a stride is not zero now or was not zero in the fill before, or four strides of the last computing fill less the width then and zero less the present width agree modulo 65536 |
| YuvTexture.ZeroStridesKeepStalePitch | src/wii/gx_video.c:697-698 | zero strides right after the first configuration are copied with wrong pitches if and only if the configured size is not empty |
| YuvTexture.YuvTextures.constructor | src/wii/gx_video.c:160-178 | 1 MB, 256 KB and twice 512 KB of distinct memory; every luma byte is 0, every chroma byte 0x80 |
| YuvTexture.YuvTextures.ConfigYuv | src/wii/gx_video.c:685-708 | the configured size changes nothing; a new one sets the sizes and tile counts, in terms of width and height alone, and forgets the strides |
| YuvTexture.YuvTextures.UpdatePitch | src/wii/gx_video.c:842-847 | pitches are recomputed exactly when a stride differs from the cached one |
| YuvTexture.YuvTextures.FillTextureYUV | src/wii/gx_video.c:841-858 | one fill uploads all three planes into the four textures, changes nothing else in them, and stores each word of a texel exactly once |
| YuvTexture.LumaClosedForm | src/wii/gx_video.c:763-800 | texel (x, y) is at ((y/4)*pitch + tile)*32 + (y%4)*8 + x%8: left texture up to width 1024, otherwise x < 1016 left with 128 tiles a row and the rest right after one unused tile; for every stride |
| YuvTexture.PlaceOfWidth | src/wii/gx_video.c:694-708 | the place of a texel depends on the width of the picture, not on how it was rounded |
| YuvTexture.LumaPlaceInjective | src/wii/gx_video.c:763-800 | no two luma texels share a place in the two textures |
| YuvTexture.ChromaClosedForm | src/wii/gx_video.c:802-839 | the U and V byte of every chroma texel is at its tiled address in its own texture |
| YuvTexture.ChromaPlaceInjective | src/wii/gx_video.c:802-839 | no two chroma texels share an address |
| YuvTexture.LeftFrame | src/wii/gx_video.c:792 | left texture: words that belong to no texel keep their contents, tile 127 of every row of a wide frame among them |
| YuvTexture.RightFrame | src/wii/gx_video.c:771-793 | right texture: the same, tile 0 of every row among them |
| YuvTexture.CoveredIsTexel | src/wii/gx_video.c:776-782 | whatever is written in the left texture is the place of a texel of the frame |
| YuvTexture.CoveredIsTexelRight | src/wii/gx_video.c:785-791 | whatever is written in the right texture is the place of a texel of the frame |
| YuvTexture.CoveredIsTexelChroma | src/wii/gx_video.c:818-829 | whatever is written in a chroma texture is the place of a chroma texel |
| YuvTexture.ChromaFrame | src/wii/gx_video.c:802-839 | the other words of a chroma texture keep their contents |
| FrameDecode.CopyPlane | src/wii/decode.c:165-168 | every row of the buffer holds the picture's row cut to the common width and padded, for any line size, negative ones included; bytes beyond the rows are unchanged |
| FrameDecode.FrameBuffer.constructor | src/wii/decode.c:28-52 | strides of eight bytes for every eight pixels begun and planes of exactly stride times rows |
| FrameDecode.FrameBuffer.Store | src/wii/decode.c:158-175 | all three planes hold the part of the picture that fits the buffer, luma padded with 0 and chroma with 0x80 |
| FrameDecode.BuffersFitUpload | src/wii/decode.c:33-41 | the buffers contain every row an upload of the configured size reads if and only if the height is a multiple of eight |
| FrameDecode.LumaEndToEnd | src/wii/decode.c:158-168 | after decode and draw at the configured size the tiled address of (x, y) holds the decoder's pixel, or 0 in the padding of the row |
| FrameDecode.ChromaEndToEnd | src/wii/decode.c:169-175 | the same for U and V, with 0x80 in the padding |
| FrameDecode.AllLumaShown | src/wii/decode.c:158-168 | so every luma pixel that fits the stream is at the place its width gives, and the rest of its row is 0 |
| FrameDecode.AllChromaShown | src/wii/decode.c:169-175 | every chroma pixel likewise, and the rest of its row is 0x80 |
| FrameDecode.LumaPixel | src/wii/gx_video.c:763-800 | what is shown, spelled out: up to width 1024 the decoder's pixel (x, y) is at ((y/4)*((width+7)/8) + x/8)*32 + (y%4)*8 + x%8 of the left texture; beyond, x < 1016 with 128 tiles a row, and the rest in the right texture with (width+7)/8 - 126 tiles a row, from tile 1 on |
| FrameDecode.ChromaPixel | src/wii/gx_video.c:802-839 | the same for U and V with half the width |
| FrameDecode.DrawBuffer | src/wii/gx_video.c:860-878 | the upload of a buffer shows every picture its planes hold |
| FrameDecode.DecodeAndDraw | src/wii/decode.c:158-175 | one decode and one draw at the configured size, run one after the other: every luma and chroma pixel that fits the stream is at the place that the width of the stream gives (`LumaPixel`, `ChromaPixel`), and the rows are padded |
| AudioRing.FillSlotMod | src/wii/audio.c:80-101 | the fill position is always the play position plus the number of waiting slots, modulo 32 |
| AudioRing.FillSlotIsFree | src/wii/audio.c:55-57 | the next slot to fill is clear of the waiting slots if and only if at most 31 wait, and clear of the two with the DSP as well if and only if at most 29 wait |
| AudioRing.UnplayedPush | src/wii/audio.c:96-99 | publishing the fill slot appends its bytes at the end of what will be played |
| AudioRing.UnplayedFrame | src/wii/audio.c:93-94 | writing a slot that does not wait leaves what will be played alone |
| AudioRing.QuietOutcomeIsClosedForm | src/wii/audio.c:106-136 | with no interrupt the guarantees of an append have one solution: the closed form for level, carry and bytes taken |
| AudioRing.QuietLevelBound | src/wii/audio.c:106-136 | one append leaves at most one slot more than before, or 30 |
| AudioRing.BurstIsUnbounded | src/wii/audio.c:91-101 | once the carry buffer is in use, n appends of one buffer raise the level by n, past the ring's size |
| AudioRing.AudioRing.constructor | src/wii/audio.c:163-179 | an empty, silent ring |
| AudioRing.AudioRing.Start | src/wii/audio.c:208-214 | whatever state a stop left, everything is reset and the ring is consistent |
| AudioRing.AudioRing.Stop | src/wii/audio.c:216-222 | the level is cleared but not the positions: the ring is consistent afterwards if and only if a multiple of 32 slots was waiting |
| AudioRing.AudioRing.DmaCallback | src/wii/audio.c:80-88 | a slot moves from the front of the ring to the DSP, or silence is played; the stream of accepted bytes stays the same, and a fill slot that is not in use stays so |
| AudioRing.AudioRing.Interrupts | src/wii/audio.c:80-88 | so do any number of interrupts, and the fill position does not move |
| AudioRing.SlotReplaced | src/wii/audio.c:93-94 | with 32 slots waiting or more, what waits is kept if and only if the fill slot gets the bytes it had |
| AudioRing.AudioRing.CopyToFillSlot | src/wii/audio.c:121-122 | interrupts at any byte of the copy: the slot ends up holding the source and the stream is kept up to 31 waiting slots; no interleaving writes a slot in use unless the fill slot is in use at entry, and then the one without interrupts does; without interrupts the stream is kept if and only if at most 31 wait or the slot held the source already |
| AudioRing.AudioRing.Publish | src/wii/audio.c:96-99 | the critical section appends the slot to the stream |
| AudioRing.AudioRing.CommitCarry | src/wii/audio.c:90-101 | the same for the carry buffer: no interleaving writes a slot in use unless the fill slot is in use at entry, and then the one without interrupts does; nothing is lost up to 31 waiting slots, and above without interrupts if and only if the slot held these bytes already |
| AudioRing.AudioRing.AppendDirect | src/wii/audio.c:120-130 | behind its guard a direct append keeps the stream and touches no slot in use, whatever interrupts come between guard, copy and publish |
| AudioRing.AudioRing.AppendToRing | src/wii/audio.c:106-136 | under every interleaving the accepted stream grows by a prefix of the chunk, all of it unless a rest of at least one buffer found no space; bytes are conserved; the level bound; a slot in use is written under some interleaving if and only if the carry buffer is committed and the fill slot is in use at entry; and with no interrupt the closed form |
| AudioRing.AudioRing.StartPlayback | src/wii/audio.c:243-247 | the DSP is given the first slot of the stream, which stays waiting |
| AudioRing.AudioRing.DecodeAndPlay | src/wii/audio.c:241-247 | the same as append_to_ring for one decoded chunk; playback starts with the first slot that fills |
| AudioRing.AudioRing.Session | src/wii/audio.c:224-248 | over a whole session: the DSP was given the slot that started playback and then exactly what was taken from the ring; with never more than 31 slots waiting at an append, what was taken, waits and is carried is the accepted prefixes in order and the slot that started playback is its beginning, so that is given twice; with no commit that found the fill slot in use, no slot in use was ever written |
| FlipProtocol.VideoOut.constructor | src/wii/gx_video.c:253-264 | the initial state, with buffer 0 shown |
| FlipProtocol.VideoOut.VblankCb | src/wii/gx_video.c:133-149 | the retrace step of the transition system: black-screen count first, then at most one flip, only with a flip pending on the right field |
| FlipProtocol.VideoOut.DrawDoneCb | src/wii/gx_video.c:152-154 | the GPU-done step |
| FlipProtocol.VideoOut.Present | src/wii/gx_video.c:302-308 | a present issues one copy, into the buffer that the next flip hands over |
| FlipProtocol.RetracesAreCounted | src/wii/gx_video.c:134-139 | after any run the black-screen count is the number of retraces, up to four |
| FlipProtocol.FlipComesExactly | src/wii/gx_video.c:133-149 | after any run of any mode an event adds one flip, of the buffer to be handed over next, if and only if it is a retrace with a flip pending after four retraces and, in mode 1 the next field is 0, in mode 2 it is 1; the buffers then change places, and otherwise they do not |
| FlipProtocol.FlipIsPendingAfter | src/wii/gx_video.c:152-154 | a flip becomes pending only when the GPU reports a copy issued with its token |
| FlipProtocol.CopyTargetIsShown | src/wii/gx_video.c:141-154 | in every mode and run the buffer to be handed over next is the shown one if and only if there has been no flip yet |
| FlipProtocol.TornExactlyWhenPending | src/wii/gx_video.c:884-889 | in every mode, from a present on, some continuation hands the new frame over while its copy is in flight if and only if a flip is pending at that point |
| FlipProtocol.OntoShownExactlyWhenPending | src/wii/gx_video.c:302-308 | between the read of the target and the issue of the copy, that very buffer can come onto the screen if and only if a flip is pending at the read |
| FlipProtocol.InterlacedCanTear | src/wii/gx_video.c:142 | a run of interlaced mode that reaches the present of a paced frame with a flip pending, so that it can tear and can be copied onto the shown buffer |
| FlipProtocol.RunIsProgressive | src/wii/gx_video.c:869-889 | the protocol's invariant in every progressive run |
| FlipProtocol.EachFrameShownOnce | src/wii/gx_video.c:133-154 | progressive mode: a frame whose pacing check came after the fourth retrace is never handed over in flight, at most once at all, and exactly once before the next present |
| FlipProtocol.PacedCopyStaysHidden | src/wii/gx_video.c:884-889 | progressive mode: from the read of its target to the end of its copy a paced frame's buffer is not the one shown, once there has been a flip |
| CText.DigitsOfPrint | src/config.c:83 | reading back printed digits continues with the number they stand for |
| CText.NumberIsRead | src/config.c:198 | a printed number of any size is read behind any blanks and a plus sign, and saturates at 32 bits |
| CText.NoNumberIsZero | libgamestream/http.c:287 | text that begins with no digit and no sign is 0 |
| CText.StrTolIsDecimal | libgamestream/http.c:287 | each digit at the end multiplies by ten and adds its value, until the result saturates |
| CText.IntRoundTrip | src/config.c:198 | printing a 32-bit integer and reading it with atoi gives it back, whatever non-digit follows |
| HttpFraming.HttpData.Append | libgamestream/http.c:122-131 | the buffer grows by the chunk, or stays as it is when memory runs out |
| HttpFraming.HttpData.StripHeaders | libgamestream/http.c:133-150 | the header block is removed in place, if its end is there |
| HttpFraming.MatchField | libgamestream/http.c:271-281 | the inner loop finds the field name regardless of case |
| HttpFraming.ParseContentLength | libgamestream/http.c:269-290 | the number after the first field name in the header block, or -1 |
| HttpFraming.ResponseComplete | libgamestream/http.c:295-313 | complete means: headers ended, a length was announced, and that many bytes follow |
| HttpFraming.ReadResponse | libgamestream/http.c:315-364 | the read loop over any sequence of network events leaves the stripped buffer, and fails exactly when that is empty |
| HttpFraming.TlsReadResponse | libgamestream/http.c:455-475 | the read-to-close loop of the TLS path |
| HttpFraming.HeaderIncomplete | libgamestream/http.c:299-308 | no proper prefix of a header block shows an end of headers |
| HttpFraming.HeaderComplete | libgamestream/http.c:299-308 | the end is found right where it is, whatever follows, NULs included |
| HttpFraming.AnnouncedOrNot | libgamestream/http.c:269-290 | every header has no field name or announces what strtol makes of the text behind the first one |
| HttpFraming.LengthFromHeader | libgamestream/http.c:269-290 | the announced length, a sign or a missing number included, is read from the header alone unless that leaves it blank |
| HttpFraming.LengthIsRead | libgamestream/http.c:269-290 | for a header with the line "content-length", letters in either case, any colons, spaces and tabs, and a decimal number up to 2147483647, that number is announced whatever follows the header |
| HttpFraming.BareHeader | libgamestream/http.c:299-308 | a header block that ends in a bare LF LF is taken as that long, and stripped, if and only if no CR LF CR LF is in the buffer |
| HttpFraming.CompleteExactlyAtEnd | libgamestream/http.c:295-313 | with the body's length announced, a partial response is complete if and only if it is the whole one (section 6.3 of RFC 9112, section 8.6 of RFC 9110) |
| HttpFraming.LengthHeaderCompletes | libgamestream/http.c:295-313 | the same for a header with such a line whose number is the length of the body |
| HttpFraming.WrongLengthLosesBody | libgamestream/http.c:309-312 | a smaller announced number can lose the rest of the body, in receives of at most 4096 bytes |
| HttpFraming.LargerLengthReadsOn | libgamestream/http.c:309-312 | a larger or a negative one appends whatever the peer still sends |
| HttpFraming.DeliveredExactly | libgamestream/http.c:315-364 | for every header with a field name, all deliveries in receives of at most 4096 bytes leave exactly the body if and only if the announced number is its length |
| HttpFraming.ReceivesAll | libgamestream/http.c:327-360 | from any partial buffer the loop ends with the whole response |
| HttpFraming.ChunkingIndependent | libgamestream/http.c:315-364 | every split into chunks with interruptions anywhere leaves exactly the body |
| HttpFraming.LengthHeaderDelivers | libgamestream/http.c:315-364 | for a header with such a line every split leaves exactly the body |
| HttpFraming.BrokenOff | libgamestream/http.c:327-363 | a failure, a timeout, the end of the stream or lack of memory before the response is complete ends the loop with what had come, without its header block if that was whole |
| HttpFraming.TlsAgrees | libgamestream/http.c:463-473 | the TLS loop leaves the same body |
| HttpFraming.LoopsAgreeWithoutLength | libgamestream/http.c:292-294 | without an announced length both loops read to the close and agree |
| UrlCodec.UrlBuffer.Construct | libgamestream/client.c:882-903 | the URL text, cut to the buffer, or an untouched buffer when no identifier could be made |
| UrlCodec.RequestUrl | libgamestream/client.c:888-901 | the URL in full: https with port 47984 or http with 47989, the action, the identifier, 36 characters of the UUID and at most 4095 of the query |
| UrlCodec.UrlBuffer.AppendParam | libgamestream/client.c:905-925 | all of "&name=value", the value cut to 255 characters, or nothing and a failure, exactly when it would not fit with its NUL |
| UrlCodec.UrlBuffer.AppendParams | libgamestream/client.c:905-925 | a sequence of appends adds each parameter that fits at its turn, in order |
| UrlCodec.HostOfAuthority | libgamestream/http.c:212-234 | host, port and path of an authority with a port, or failure exactly when host or path is too long |
| UrlCodec.DefaultPort | libgamestream/http.c:220-223 | without a port the scheme's default is used, also when the path has a colon |
| UrlCodec.AuthorityAlone | libgamestream/http.c:215-232 | without a path the colon and the port are taken for the path as well |
| UrlCodec.UrlRoundTrip | libgamestream/http.c:197-236 | parsing what was constructed and appended gives back scheme, host, port and the path with each parameter that fitted, and fails exactly when host or path is too long |
| UrlCodec.RequestIsRecovered | libgamestream/http.c:197-236 | the same in the request's own terms: host, port 47984 or 47989, and the path text with the parameters that fitted |
| ConfigFile.LineReader.GetLine | src/wii/compat.c:9-46 | one line is read over the buffer of the previous ones, and terminated only if it ended in a newline |
| ConfigFile.OneEntryPerName | src/config.c:88-128 | no two options have the same name |
| ConfigFile.Configuration.ParseKey | src/config.c:374-387 | the scan of the whole option table applies the one option of that name, after address and sops |
| ConfigFile.Configuration.ParseFile | src/config.c:349-403 | the line loop over a file, for any initial contents of the line buffer |
| ConfigFile.Configuration.Save | src/config.c:417-458 | the file is the rendering of the saved entries in order |
| ConfigFile.FlagsRoundTrip | src/config.c:405-415 | the encryption name written is read back as the two low bits of the flags |
| ConfigFile.ScanOf | src/config.c:372 | a line made of a key and a storable value is split into exactly these |
| ConfigFile.SpacedLine | src/config.c:372 | blanks of any kind before the key, around the sign and before the value do not matter; the value is cut to 4095 characters |
| ConfigFile.SplitLine | src/config.c:372 | whatever is split into key and value reads blanks, key, blanks, equals sign, blanks, value, up to the end of the line |
| ConfigFile.UnspacedLine | src/config.c:372 | a key that runs into the sign without a blank is not taken |
| ConfigFile.ScannedIsStorable | src/config.c:372 | whatever the file holds, a value taken from it is non-empty, short enough, on one line and without a leading blank |
| ConfigFile.ReadBack | src/config.c:366-393 | reading written lines applies their keys and values one by one |
| ConfigFile.SizeLines | src/config.c:197-208 | a file of one line "width = value", "height", "fps", "bitrate" or "packetsize" sets that field to the number and no other |
| ConfigFile.NumberLines | src/config.c:293-321 | the same for rotate, osd_overscan, pin, and port, which is cut to 16 bits |
| ConfigFile.RemoteLine | src/config.c:253-260 | remote: auto, true or yes, false or no, in either case; any other value changes nothing |
| ConfigFile.EncryptLine | src/config.c:325-336 | encrypt: none, audio, video, all |
| ConfigFile.SurroundLine | src/config.c:265-270 | surround: 5.1, 7.1 |
| ConfigFile.CodecLine | src/config.c:274-283 | codec: auto, h264, h265 or hevc, av1 |
| ConfigFile.TextLines | src/config.c:209-252 | address, app, tls_test, audio, platform, save and keydir set that text and nothing else |
| ConfigFile.SpecialLines | src/config.c:212-243 | input appends, and ends the program with six already there; config calls for another file; mapping turns sops off on the Wii; sops is on exactly for "true" |
| ConfigFile.ResolutionLines | src/config.c:185-196 | "720 = true" and so on set width and height and nothing else |
| ConfigFile.SwitchLines | src/config.c:230-286 | nosops, windowed and nounsupported, each its own field |
| ConfigFile.LogSwitchLines | src/config.c:296-301 | verbose and debug set the log level to 1 and 2 |
| ConfigFile.PlaySwitchLines | src/config.c:302-318 | autostream and hdr, each its own field |
| ConfigFile.MouseSwitchLine | src/config.c:307-309 | nomouseemulation turns mouse emulation off |
| ConfigFile.SavedSwitchLines | src/config.c:236-292 | localaudio, quitappafter and viewonly, each its own field |
| ConfigFile.OtherLines | src/config.c:379-386 | a switch with any other value than "true", and any key that is not one of the 38, change nothing |
| ConfigFile.ReplayEntries | src/config.c:183-347 | applying the saved entries to the Wii defaults restores every saved field and changes no other |
| ConfigFile.ParsedIsRestorable | src/config.c:349-403 | parsing any text leaves only storable strings |
| ConfigFile.SaveParse | src/config.c:486-526 | saving and parsing into the Wii defaults restores every saved field (encryption reduced to its two bits), with all others at their defaults, if and only if address, app and tls_test are non-empty, within the field limit, without newline and without a leading blank |
| ConfigFile.RestoredFields | src/config.c:486-526 | the restored configuration field by field, the Wii defaults of the others included |
| ConfigFile.SavedFile | src/config.c:417-458 | the text of the saved file in full: which lines are written, when and in which order |
| ConfigFile.SaveParseSave | src/config.c:417-458 | saving what was parsed writes the same file |
| ConfigFile.BufferIsIrrelevant | src/wii/compat.c:23-33 | a file that ends in a newline is parsed the same whatever the line buffer held |
| ConfigFile.UnendedLine | src/wii/compat.c:23-28 | for every buffer, the value of a line without a newline is its text followed by what was left behind it, up to a NUL, a newline or the field limit |
| ConfigFile.UnendedExactly | src/wii/compat.c:23-28 | it is the line's own value if and only if that fills the field or nothing was left behind it |
| ConfigFile.ReadUnended | src/config.c:366-393 | in a file of written lines and such a last one, the last line is read over what the others left in the buffer |
| ConfigFile.LastAppLine | src/config.c:366-393 | the app set by such a last line arrives if and only if it fills the field or the lines before left nothing behind it |
| ConfigFile.UnendedForEveryHeap | src/wii/compat.c:15-18 | alone in its file it arrives for every contents of fresh memory if and only if it fills the field |
| Mem2Areas.BelowUnlessWrapped | src/wii/mem2_manager.c:54 | a region calculated below the arena top lies below it if and only if size plus 31 does not exceed the top |
| Mem2Areas.BaseIsLargest | src/wii/mem2_manager.c:54 | the base is the largest multiple of 32 that leaves 31 bytes besides the region below the top, which an aligned address does not shorten; when it wraps, that from 4 GB higher |
| Mem2Areas.Arena.Layout | src/wii/mem2_manager.c:97-109 | live regions are 32-byte aligned, disjoint, stacked downwards and inside the arena, and the arena top is at the lowest base |
| Mem2Areas.Arena.CarvedExactly | src/wii/mem2_manager.c:98-105 | a region that passes the check is inside what was left of the arena if and only if the calculation did not wrap |
| Mem2Areas.Arena.AddSucceeds | src/wii/mem2_manager.c:82-105 | a request is granted if and only if none of the guards refuses it: index, size 0, a live area that is not the lowest, or a base below the arena |
| Mem2Areas.Arena.AddGives | src/wii/mem2_manager.c:82-111 | a granted request leaves a region of exactly its size for the area, the other areas keep theirs, and a refused one changes nothing but a lowest area that was to be replaced |
| Mem2Areas.Arena.AddOfSameSize | src/wii/mem2_manager.c:87-90 | an area that has the size already is kept as it is |
| Mem2Areas.Arena.AddKeeps | src/wii/mem2_manager.c:74-112 | for any 32-bit size, adding keeps the arena well formed if and only if a guard refuses it, it finds that size already there, or it does not wrap |
| Mem2Areas.WrappedRequestPasses | src/wii/mem2_manager.c:97-105 | a request that wraps, passes the check and moves the arena top above the arena |
| Mem2Areas.Arena.RemoveUndoesAdd | src/wii/mem2_manager.c:135-139 | removing a region just added restores the arena, even after a wrap |
| Mem2Areas.StepKeeps | src/wii/mem2_manager.c:74-142 | every operation keeps the arena well formed if and only if it is not an addition that wraps; its bounds are fixed |
| Mem2Areas.SmallSizesAreSound | src/wii/mem2_manager.c:97-105 | sizes that fit below the arena never wrap, whatever the run |
| Mem2Areas.DrainRestoresTop | src/wii/mem2_manager.c:114-142 | removing all live regions, lowest first, succeeds each time and restores the original top |
| Mem2Areas.Mem2.constructor | src/wii/mem2_manager.c:56-64 | all areas empty |
| Mem2Areas.Mem2.HasLower | src/wii/mem2_manager.c:125-133 | the scan finds a lower area if and only if this one is not the lowest |
| Mem2Areas.Mem2.Remove | src/wii/mem2_manager.c:114-142 | removal succeeds exactly for the lowest live area, restores the arena top it was carved from and clears the entry; otherwise nothing changes |
| Mem2Areas.Mem2.Carve | src/wii/mem2_manager.c:97-111 | for any 32-bit size, a new lowest region as calculated, or a cleared entry and an unchanged arena when the check fails |
| Mem2Areas.Mem2.Add | src/wii/mem2_manager.c:74-112 | for any 32-bit size: an equal size is kept, another size replaces the area only if it is the lowest, and a failed resize loses it; the state stays valid if and only if no wrapped request was granted |
| Mem2Areas.Mem2.Run | src/wii/mem2_manager.c:74-142 | over any sequence of calls that do not wrap the areas go through exactly the states of the arena, and with nothing live the arena top is the original one |
| FrameQueue.SlotsDiffer | src/wii/wii.c:69-70 | sixteen consecutive indices use sixteen slots, across the 32-bit wrap too |
| FrameQueue.Queue.GetFrame | src/wii/wii.c:60-74 | the oldest message, or none when empty |
| FrameQueue.Queue.AddFrame | src/wii/wii.c:76-89 | appended at the end, or lost exactly when sixteen wait |
| FrameQueue.RunKeeps | src/wii/decode.c:158-184 | in every run of decoder and drawing steps the frames drawn and queued are in the order of submission without repetition, each submitted frame is drawn, queued or dropped, and the buffers hold the latest frames |
| FrameQueue.Conservation | src/wii/wii.c:76-89 | no frame vanishes, and none is dropped before sixteen were kept |
| FrameQueue.Stream.IntactExactly | src/wii/decode.c:177-184 | a submitted frame's buffer still holds it if and only if the second next decode has not begun, and never goes back to an earlier frame |
| FrameQueue.Stream.LongQueueIsStale | src/wii/wii.h:29-30 | with more than two frames waiting the one drawn next has already been overwritten |
| FrameQueue.VideoStream.Begin | src/wii/decode.c:158-175 | the current buffer is being written |
| FrameQueue.VideoStream.End | src/wii/decode.c:177-184 | the frame is submitted and the other buffer becomes current |
| FrameQueue.VideoStream.Draw | src/wii/wii.c:38-46 | what is drawn is the oldest submitted frame, intact exactly while the second next decode has not begun |
| Playback.Player.constructor | src/wii/decode.c:87-103 | a stream set up for one resolution that fits the textures |
| Playback.Player.BeginDecode | src/wii/decode.c:158-159 | from here on the current buffer may hold anything, the other one keeps its picture |
| Playback.Player.EndDecode | src/wii/decode.c:158-184 | the picture is in the current buffer, which is submitted |
| Playback.Player.Draw | src/wii/wii.c:38-46 | in every run of decodes and draws: the textures then show the picture of the oldest submitted frame as long as the second next decode has not begun, and afterwards that of a later frame, unless that one is just being written |
| SelectShim.Translate | src/wii/netcompat.c:108-133 | the translated sets are exactly the socket numbers of the requested handles, and the bound covers them all |
| SelectShim.RequestedBelowBound | src/wii/netcompat.c:118-135 | every requested socket is below the bound that net_select is given |
| SelectShim.ReadyAreSelected | src/wii/netcompat.c:108-162 | over a net_select that looks at the sockets below its bound alone, a set ends up with exactly the requested handles below nfds of ready sockets, so the bound loses none, and with its bits from nfds on |
| SelectShim.WriteBack | src/wii/netcompat.c:153-162 | below nfds exactly the requested handles whose sockets are ready; from nfds on unchanged |
| SelectShim.Select | src/wii/netcompat.c:100-185 | all three sets that way, and the return value is the number of requested ready bits; a set passed twice holds what its last place says; an error gives empty sets and 0 |
| SelectShim.SelectedSize | src/wii/netcompat.c:135-184 | as many handles are selected as sockets are ready |
| SelectShim.ReadyIsAsked | src/wii/netcompat.c:155-161 | a handle found ready was asked for |
| XmlText.XmlQuery.WriteCdata | libgamestream/xml.c:258-271 | inside an element the text grows by the chunk and stays terminated; outside nothing changes |
| XmlText.XmlQuery.StartMode | libgamestream/xml.c:207-221 | a new mode is put in front, or the text of a field is begun |
| XmlText.XmlQuery.EndMode | libgamestream/xml.c:223-240 | the field's number goes to the mode in front and the text is freed |
| XmlText.SearchEx | libgamestream/xml.c:55-81 | the text collected over the parser's events, or a failure exactly when the document was refused or required text is missing |
| XmlText.ModeList | libgamestream/xml.c:108-132 | the mode list after the parser's events |
| XmlText.SearchIgnoresChunking | libgamestream/xml.c:150-162 | for every document and every cut into chunks, the result is all text inside the named elements, nested ones counted once |
| XmlText.RunPerChar | libgamestream/xml.c:258-271 | cutting chunks into characters does not change the mode list |
| XmlText.DocumentRun | libgamestream/xml.c:207-240 | the handlers' state machine computes the recursion over the document tree |
| XmlText.ModesIgnoreChunking | libgamestream/xml.c:108-132 | for every flat document the list depends neither on the chunks nor on fresh memory |
| XmlText.FieldRun | libgamestream/xml.c:215-240 | a field's number is read from its text, or from fresh memory if it has none |
| XmlText.FieldsByName | libgamestream/xml.c:223-237 | Width, Height and RefreshRate each set their own field of the mode begun last to the 32-bit number of their text, and no other |
| XmlText.OtherElements | libgamestream/xml.c:207-221 | DisplayMode begins a mode of zeros; any other element counts for its content alone |
| XmlText.EmptyFieldReadsHeap | libgamestream/xml.c:217-234 | what a field leaves is the same for every fresh memory if and only if it has text |
| XmlText.RecordsComeBackReversed | libgamestream/xml.c:209-214 | modes written as records come back with their numbers, last written first |
| HexCodec.BytesToHex | libgamestream/client.c:217-222 | the terminated hexadecimal text, nothing else written |
| HexCodec.EncodedDigits | libgamestream/client.c:219 | two digits of 0123456789abcdef for each byte, the high one first |
| HexCodec.HexToBytes | libgamestream/client.c:224-242 | the decoded pairs up to the first character outside the table; the length is set only when all were decoded |
| HexCodec.DecodeEncode | libgamestream/client.c:217-242 | decoding what was encoded gives the bytes back, cut to the buffer |
| HexCodec.DecodeDigits | libgamestream/client.c:225-237 | a text of digits in either case is decoded to the bytes they stand for, cut to the buffer |
| HexCodec.DecodeAnyCase | libgamestream/client.c:225-237 | so the case in which an encoded text is written does not matter |
| HexCodec.PairIsDecoded | libgamestream/client.c:225-237 | every pair of characters from '0' to 'f' is decoded, those that are no digits as 0, and no other pair is |
| HexCodec.EncodeDecode | libgamestream/client.c:225-237 | encoding what was decoded gives the text back if and only if it is made of lower-case digits |
| HomeButton.Home.HomePoll | src/wii/input.c:36-54 | one poll reports what the history of polls calls for |
| HomeButton.Home.Run | src/wii/input.c:36-54 | so does every poll of a run |
| HomeButton.OneActionPerPress | src/wii/input.c:36-54 | a press and its release yield exactly one action: QUIT at the first poll more than three seconds after it began, otherwise BACK at the release |
| HomeButton.QuitAt | src/wii/input.c:43-46 | for any clock, QUIT comes at a poll of a press if and only if it is the first more than three seconds, modulo 2 to the 64, after the press began |
| HomeButton.BackAt | src/wii/input.c:48-51 | BACK comes at the release if and only if no poll of the press was that late |
| HomeButton.QuietPoll | src/wii/input.c:36-54 | a poll that begins a press and one without the button report nothing |
| HomeButton.QuitExactly | src/wii/input.c:43-51 | with a clock that does not go back, a release is silent if and only if the last poll of the press was past the limit |

## Left out

- TiledTexture.LumaCopy: the 64-bit and the floating-point variant of a copy move the same eight bytes and are one here; pointers are offsets and do not wrap at 4 GB.
- YuvTexture.YuvTextures.FillTextureYUV: sizes that do not fit the textures are not uploaded here, since the program then writes beyond them (`WritesFitExactly` says which); strides are positive and the exact pitch fits 16 bits; the zero-stride case is `PitchRightExactly`, the other exceptions `PitchIsExact`.
- YuvTexture.YuvTextures.constructor: the failure of the texture allocation.
- FrameDecode.FrameBuffer.Store: the concatenation of the network buffers and the decoder itself; the picture arrives decoded.
- FrameDecode.DecodeAndDraw: resolutions whose upload leaves the buffers or the textures (`BuffersFitUpload`, `WritesFitExactly`).
- Playback.Player.constructor: the same resolutions.
- Playback.Player.Draw: what a buffer that is just being written looks like.
- AudioRing.AudioRing.DecodeAndPlay: decoding and downmixing; a chunk arrives as stereo bytes, and cache maintenance has no effect.
- FlipProtocol.EachFrameShownOnce: nothing is claimed for frames before the fourth retrace, where the code does not flip at all.
- HttpFraming.ChunkingIndependent: for header blocks that end in a bare LF LF there is the exact condition of `BareHeader`; the results about chunks are for CRLF.
- HttpFraming.ReadResponse: time is not modelled; a timeout is one of the events.
- UrlCodec.UrlBuffer.Construct: a URL cut by its buffer is modelled, but the round trip is about URLs that fit.
- UrlCodec.HostOfAuthority: parse_url is a function here, since it has no loop; its out-parameters are one result.
- ConfigFile.Configuration.ParseKey: parse_argument is the function `Applied`, since it is one switch; what it does for each key is stated by the lemmas about lines. Parsing stops at an option that names another file, which is not read.
- ConfigFile.Configuration.ParseFile: the command line, which the Wii build does not parse, and the bitrate table applied afterwards.
- Mem2Areas.Mem2.Add: what further calls do after a wrapped request was granted, and other code that moves the arena top.
- Mem2Areas.Mem2.Remove: the heap inside an area, and the interrupt lock around each call.
- FrameQueue.VideoStream.Draw: which buffer is drawn and whether it is intact, not the pixels; the mutex is the atomicity of the two queue operations.
- SelectShim.Select: sets have no size limit, and the wait after an error takes no time.
- XmlText.SearchEx: the parser's tokenising, and a failed allocation, which would drop a chunk.
- XmlText.ModesIgnoreChunking: fields that contain elements.
- HexCodec.HexToBytes: input is an ASCII string.
- xml_applist, xml_status and poll: their clean claims need conditions that add little.
- Pairing, server status, launching an app, TLS itself, certificates, the menus, fonts, controller mapping, the GPU's pipeline setup and texture coordinates: request sequencing, foreign libraries, device setup and floating-point arithmetic.
