# Stream decoding, frame queue and slot service: a verified model

The browser client of this repository turns a byte stream that arrives in arbitrary pieces into
rectangles drawn in order; beside it, the slot service correlates commands with responses, streams
events to consumers, and keeps positions. This project models those parts in Dafny and proves what
they promise, for all inputs, all cuts of a stream, and all interleavings of callbacks. Where the
code does not keep a promise, it proves exactly when it does.

## How it is built

- **Receive queue** (`Websock.dfy`): a compacting, growing buffer with rewind refines a plain byte sequence.
- **One law of resumption** (`Resumable.dfy`): going on later with more bytes is the same as having had
  them from the start. It lifts from one step to any list of messages, once for all decoders.
- **Hextile** (`HextileFormat`, `HextileEncoding`, `HextileDecoder`), **Tight** (`TightFormat`,
  `TightEncoding`, `PixelUnpacking`, `TightDecoder`) and **Tight over UDP** (`UdpDecoder`): each has a pure
  one-shot decoder, an independent encoder and meaning from the standard, and a class with the
  source's resumable fields. The class refines the pure decoder, the pure decoder satisfies the law,
  and decoding an encoding gives its meaning; so any fragmentation draws the meaning.
- **Frame queue** (`FrameQueue`, `TcpFrames`, `Display`): a step machine over calls, animation frames, loaded
  images and load events, with accounting in every mode and the FIFO property over TCP.
- **The client** (`FrameUpdates`, `StreamToScreen`, `RfbClient`): the message loop over updates and the other
  message types between them. `StreamIsDrawnInOrder` joins the layers, from any cut of the bytes on the wire
  to the order of drawing.
- **The server's side** (`UpdateEncoding`, `SentToScreen`): lists of messages, their encoding and what they mean.
  `SentIsShown` goes from any such list and any cut into arrivals to the canvas, with the exact condition on both
  under which the client's own loop, which pauses behind some messages, has taken everything.
- **Frames** (`WholeFrames`, `TornUpdate`, `FrameOrder`, `ReadySlots`, `LeavingFrames`): exactly when an update reaches
  the canvas in parts, when a frame is rendered at all, when frames of any numbers stay in order, what makes a frame
  ready over any transport, and what is dropped, displaced or drawn without its images.
- **Messages and senders** (`MessageParsing`, `MessageEncoding`, `MessageHandlers`, `ClipboardEvents`, `SendQueue`,
  `ClientMessages`): rewinding handlers, every message read back as it is written or refused, how often a text is
  announced, chunked writing with its exact losses, and what a server reads in it.
- **Over UDP** (`Reassembly`, `UdpToScreen`): from datagrams in any order to the frame queue (`UdpIsShown`).
- **Cursor** (`CursorImage`), **Base64** (`Base64`) and **DES** (`DesStandard`, `DesKeys`, `Des`). `DesStandard` is
  FIPS PUB 46-3 in its own form, key schedule included; the client's delta swaps, fused tables and rearranged keys are
  proved equal to it.
- **Slot service**: command client (`CommandClient`), event stream (`EventStream`), positions (`Positions`).

Classes keep the source's fields and branches. Their methods are stated against functions of the
old state, and the theorems are about those functions. JavaScript's `undefined` is `None`, a thrown
error is a result, `<<` and `|` on 32 bits wrap where it can be seen, and the zlib library is an
arbitrary function of the chunks a stream has been given since its last reset.

## Where code and promise part

- A blank hextile tile right after a raw one is skipped, where section 7.7.4 of RFC 6143 would fill it
  (`AnyFragmentationDecodes` of hextile, an equivalence; `BlankAfterRawIsLost`).
- A Tight picture of fewer than two bytes waits for bytes that belong to what follows (`PictureNeedsTwoBytes`).
- A Tight rectangle with a palette of one colour is drawn in it only as far as it has bytes, and black behind
  (`OneColour`). An empty palette rectangle leaves its number of colours behind, and the next palette is read as pixels
  (`EmptyPalette`, `LeftoverCount`).
- Over UDP an index past the palette is black, over TCP it shows what an older palette left
  (`IndexPastPalette`, `LeftoverColorShows`), and an empty picture is dropped (`EmptyPictureDropped`); fills and
  pictures over UDP reset no stream (`UdpAgreesWithTight`, `FillResetsNothing`).
- Behind a UDP upgrade, a relay subscription or relay data the message loop stops, and whole messages stay
  unread until more arrives (`SecondMessageWaits`): each arrival takes the client past one such message, and
  everything is taken exactly if the arrivals before the last have passed all but one at the very end
  (`AllTakenIff`; `CaughtUpIff` while the stream is still coming).
- An extended cut text whose text is not wanted, or does not come, is not consumed whole, and what is left of it
  is taken for the next message (`ExtendedIsWhole`, `ExtendedLeftover`); so is what a fence holds above 64 bytes
  (`FenceIsWhole`, `FenceLeftover`).
- A late load event that names a slot by its old number makes the update now in it ready too soon, and part of
  the update reaches the canvas alone (`HalfAnUpdate`): exactly if such an event has hit its slot, and then an
  animation frame has come while the slot was in front (`TornIff`, `UpdateTornIff`).
  A frame without a flip, or with more rectangles than its flip counts, is not rendered by animation frames
  unless it has become ready (`FrontIsRendered`).
- In TightVNC mode a ServerInit with a negative name length leaves a wait that far past the beginning
  (`NegotiateServerInit`, `NegativeNameDisplaces`). A binary clipboard message without items waits for a third byte
  (`ClipboardReads`), and a text is announced once for every attempt that had all of it (`EachTextAnnounced`):
  each once, exactly if no earlier attempt reached the end of the first text (`TextsAnnouncedTwice`).
- A header that runs past the end of the send buffer loses bytes unless they are zeros and a payload follows
  (`ConservedIff`, `LongNameLosesLength`). On a closed socket a sender whose payload does not fit never
  returns (`LoopEndsIff`).
- A piece of a UDP message that comes twice among as many arrivals as the message has pieces makes reassembly
  throw; one that comes late leaves an entry behind, and a message of one piece is delivered again
  (`ThrowsIffRepeated`, `CompletedOften`). The message whose pieces made it
  throw is never delivered after that, and the others are as before (`GoesOn`, `NeverAgain`).
- Over UDP an older frame can take a slot behind a newer one: frames stay in order exactly if no rectangle does so,
  or takes one before an older frame (`RisingThroughoutIff`, `OlderBehindNewer`). A frame that displaces another is
  torn in two slots exactly if the other was ready (`SplitIff`).
- A frame is drawn without an image exactly if an update's header has found the queue full and the image, in the oldest
  frame, not loaded (`SkippedIff`).
- A datagram that is cut short is drawn all the same, with black where pixels are missing (`ShortTrueColor`), an
  undefined colour (`ShortFill`) or part of a picture's file (`ShortPicture`); with nothing behind its header it is
  black or dropped (`HeaderOnly`).
- A sent text, relay name or clipboard format whose length does not fit its field is read back as something else, and so
  is an empty text of the extended form (`CutTextReadsIff`, `RelayReadsIff`, `ClipboardReadsIff`).
- Base64 that ends in padding is decoded with zeros added if there is padding before the offset, too (`RoundTrip`).
- A command registered after its socket has gone stays in `pending` although it is settled
  (`ExactThroughout`, `OrphanStays`). Text left in the receive buffer when a connection fails spoils the first
  line of the next one (`LeftoverSpoilsFirstLine`), and with it a response (`ResponseLost`); it also counts
  towards the limit at which the next connection is given up (`OverflowIff`).
- The simulator's event stream ignores its account (`SimulatorMixesAccounts`).
- Simulator and ledger agree on side and quantity always. Their average prices agree exactly if, for each
  listed instrument, what its fills against a position deviate from the average by sums to zero
  (`SameListing`); an instrument that has been closed is listed by neither (`DeviationForgottenWhenClosed`). Their
  costs, closed instruments included, agree all along exactly while no such fill is away from the average
  (`CostsAgreeThroughout`).
- The ledger's comment promises the average entry price of the open lots. The ledger lists it exactly for
  instruments whose realised profit is zero (`LedgerListsEntry`); the simulator keeps it exactly while partial
  closes are at the average (`SimulatorKeepsEntry`).
- A close of a whole position closes it exactly if the fills between its order and its own net to zero
  (`CloseLeavesWhatCameBetween`); a second close ordered meanwhile reverses it (`ClosedTwiceIsReversed`).
- When the receive queue overflows, the recorded size no longer matches the buffer (`ExpandCompactRQ`).

## Model

| member | source | states |
|---|---|---|
| ReceiveQueue.Websock.constructor | src/web/vnc-static/core/websock.js:196-205 | An empty queue over a buffer of the given capacity. |
| ReceiveQueue.Websock.Available | src/web/vnc-static/core/websock.js:91-93 | The number of unread bytes. |
| ReceiveQueue.Websock.ExpandCompactRQ | src/web/vnc-static/core/websock.js:282-312 | A normal return leaves room for the new bytes, keeps the unread region and the count of consumed bytes, never shrinks the buffer and never takes it past 40 MiB; it throws exactly when unread and new bytes together exceed 40 MiB and a larger buffer was called for, and then the queue is left with a recorded size that its buffer does not have. |
| ReceiveQueue.Websock.MoveUnread | src/web/vnc-static/core/websock.js:302-311 | Whether it copies to a larger buffer or compacts in place, the unread region is what it was and starts at index 0. |
| ReceiveQueue.Websock.CopyToLarger | src/web/vnc-static/core/websock.js:302-305 | The unread region arrives at the front of the new buffer. |
| ReceiveQueue.Websock.CopyToFront | src/web/vnc-static/core/websock.js:306-308 | The overlapping move towards the front keeps every unread byte. |
| ReceiveQueue.Websock.DecodeMessage | src/web/vnc-static/core/websock.js:315-322 | An arrival appends exactly its bytes to the unread region and moves no byte out of it, or throws under the condition above. |
| ReceiveQueue.Websock.Append | src/web/vnc-static/core/websock.js:320-321 | The bytes land behind the unread region, which is otherwise as it was. |
| ReceiveQueue.Websock.ResetIfDrained | src/web/vnc-static/core/websock.js:341-346 | Starting over at index 0 loses nothing: it happens only when nothing is unread. |
| ReceiveQueue.Websock.RQwait | src/web/vnc-static/core/websock.js:155-166 | Waits exactly when fewer bytes are unread than asked for; the position then goes back by goback, it throws exactly when that passes index 0, and in every other case nothing moves. |
| ReceiveQueue.Websock.RQlacks | src/web/vnc-static/core/websock.js:155-166 | A wait without goback answers whether bytes are missing and changes nothing. |
| ReceiveQueue.Websock.RQskipBytes | src/web/vnc-static/core/websock.js:99-101 | Drops exactly the given number of unread bytes. |
| ReceiveQueue.Websock.RQshift | src/web/vnc-static/core/websock.js:103-122 | One, two or four bytes as a big-endian number: unsigned for one and two, and wrapped to a signed 32-bit number for four. |
| ReceiveQueue.Websock.RQshiftBytes | src/web/vnc-static/core/websock.js:135-139 | The next bytes, in order, and they are consumed. |
| ReceiveQueue.Websock.RQshiftStr | src/web/vnc-static/core/websock.js:124-133 | The chunks of at most 4096 bytes put together are the next bytes. |
| ReceiveQueue.Websock.RQpeek8 | src/web/vnc-static/core/websock.js:95-97 | The next byte, which stays unread. |
| ReceiveQueue.ShiftedSumIsBigEndian | src/web/vnc-static/core/websock.js:116-122 | The shifted sum of the bytes, with its wrap-around at 32 bits, is their big-endian value in two's complement. |
| Resumable.FeedIsOneShot | src/web/vnc-static/core/rfb.js:2003-2030 | Every decoder that satisfies the one-step resumption law gives, for any list of messages, exactly the state, calls and unread bytes of one call on their concatenation. |
| HextileFormat.TilesPartition | src/web/vnc-static/core/decoders/hextile.js:43-49 | For every rectangle and every pixel of it, the pixel lies in exactly one tile. |
| HextileFormat.TileArea | src/web/vnc-static/core/decoders/hextile.js:43-49 | Every tile is 1 to 16 pixels wide and high and lies inside its rectangle. |
| HextileFormat.PaintShowsTop | src/web/vnc-static/core/decoders/hextile.js:145-183 | After a background and any list of in-bounds subrectangles, each pixel has the colour of the last one that covers it, else the background. |
| HextileFormat.RowsCover | src/web/vnc-static/core/decoders/hextile.js:165-183 | Drawing a subrectangle row by row changes exactly the pixels inside it. |
| HextileFormat.TileResumes | src/web/vnc-static/core/decoders/hextile.js:36-140 | A tile that could be decoded from a prefix is decoded the same way when more bytes follow, and those stay unread. |
| HextileFormat.TilesResume | src/web/vnc-static/core/decoders/hextile.js:19-142 | A rectangle interrupted between any two bytes and resumed with its saved fields makes the calls of an uninterrupted run. |
| HextileEncoding.TileDecodes | src/web/vnc-static/core/decoders/hextile.js:78-136 | A tile encoded as section 7.7.4 of RFC 6143 says draws its meaning, unless it is a blank tile right after a raw one, which draws nothing. |
| HextileEncoding.CodedDecodes | src/web/vnc-static/core/decoders/hextile.js:97-136 | For coded tiles: colours carried over or set, and mono or coloured subrectangles, decode to the picture that was encoded. |
| HextileEncoding.PaintIsPicture | src/web/vnc-static/core/decoders/hextile.js:145-183 | The tile buffer the drawing loops leave is the picture defined pixel by pixel. |
| HextileEncoding.TilesDecode | src/web/vnc-static/core/decoders/hextile.js:36-140 | The tiles of a rectangle, with colours and subencoding threaded from tile to tile, decode one by one, and what follows stays unread. |
| HextileEncoding.CallsAreMeanings | src/web/vnc-static/core/decoders/hextile.js:83-89 | Over a whole rectangle, the calls made are the standard's if and only if no tile is skipped. |
| HextileEncoding.RectResumes | src/web/vnc-static/core/decoders/hextile.js:19-142 | The rectangle decoder satisfies the resumption law for every state and every cut. |
| HextileEncoding.AnyFragmentationDecodes | src/web/vnc-static/core/decoders/hextile.js:19-142 | Any cut of any legal rectangle's bytes into messages, with anything behind them, yields one call for each tile that is not skipped; they are the calls of section 7.7.4 of RFC 6143 if and only if no blank tile comes right after a raw one. |
| HextileEncoding.BlankAfterRawIsLost | src/web/vnc-static/core/decoders/hextile.js:83-89 | A legal row of three tiles of which the decoder draws the first two. |
| HextileDecoding.HextileDecoder.constructor | src/web/vnc-static/core/decoders/hextile.js:13-17 | No rectangle in hand and no colours known. |
| HextileDecoding.HextileDecoder.StartTile | src/web/vnc-static/core/decoders/hextile.js:145-162 | All pixels of the tile take the background colour. |
| HextileDecoding.HextileDecoder.SubTile | src/web/vnc-static/core/decoders/hextile.js:165-183 | The nested loops write exactly the rows of the subrectangle, inside the tile buffer. |
| HextileDecoding.HextileDecoder.SubTileRow | src/web/vnc-static/core/decoders/hextile.js:175-181 | One run of pixels; an index past the buffer is ignored. |
| HextileDecoding.HextileDecoder.FinishTile | src/web/vnc-static/core/decoders/hextile.js:186-190 | One blit of the tile's pixels at the tile's place. |
| HextileDecoding.HextileDecoder.DrawCoded | src/web/vnc-static/core/decoders/hextile.js:97-136 | The imperative walk over a coded tile makes the call, and leaves the colours, that the format defines; a colour never sent is an exception. |
| HextileDecoding.HextileDecoder.DrawSubrects | src/web/vnc-static/core/decoders/hextile.js:109-133 | The loop paints the subrectangles in order. |
| HextileDecoding.HextileDecoder.DrawSubrect | src/web/vnc-static/core/decoders/hextile.js:113-132 | One turn of that loop paints the next subrectangle on top of those before it. |
| HextileDecoding.HextileDecoder.DecodeRect | src/web/vnc-static/core/decoders/hextile.js:19-142 | The method on mutable fields and the receive queue does exactly what the pure decoder does, and returns false only at a tile boundary. |
| HextileDecoding.HextileDecoder.DecodeTilesLeft | src/web/vnc-static/core/decoders/hextile.js:36-140 | The tile loop, started anywhere, makes the remaining calls. |
| HextileDecoding.HextileDecoder.NextTile | src/web/vnc-static/core/decoders/hextile.js:36-140 | One turn: nothing at all if the tile is incomplete, the whole tile otherwise. |
| HextileDecoding.HextileDecoder.PeekTile | src/web/vnc-static/core/decoders/hextile.js:28-79 | The tile's length is found without consuming a byte. |
| HextileDecoding.HextileDecoder.TakeTile | src/web/vnc-static/core/decoders/hextile.js:81-138 | A complete tile is drawn and consumed. |
| HextileDecoding.HextileDecoder.BlitRaw | src/web/vnc-static/core/decoders/hextile.js:90-97 | The blit is called with the tile's own bytes, every fourth of them 255. |
| HextileDecoding.HextileDecoder.MakeOpaque | src/web/vnc-static/core/decoders/hextile.js:91-95 | Every fourth byte of the region becomes 255 in the queue itself, and no other byte changes. |
| HextileDecoding.HextileDecoder.CurrentTile | src/web/vnc-static/core/decoders/hextile.js:43-49 | Position and size of the tile, from the number of tiles left. |
| TightFormat.ReadDataResumes | src/web/vnc-static/core/decoders/tight.js:432-460 | The length field and its data, interrupted before, between or inside them, are read as if they had come at once. |
| TightFormat.PixelDataResumes | src/web/vnc-static/core/decoders/tight.js:284-316 | Plain or compressed pixel data resumes; a zlib stream sees one chunk whatever the cut. |
| TightFormat.CopyFilterResumes | src/web/vnc-static/core/decoders/tight.js:284-320 | The copy filter resumes. |
| TightFormat.IndexedDataResumes | src/web/vnc-static/core/decoders/tight.js:341-378 | Palette data resumes after the palette has been saved. |
| TightFormat.PaletteFilterResumes | src/web/vnc-static/core/decoders/tight.js:322-378 | The palette filter resumes, inside the palette or behind it. |
| TightFormat.FilteredResumes | src/web/vnc-static/core/decoders/tight.js:249-282 | Filter choice and filter together resume. |
| TightFormat.BasicRectResumes | src/web/vnc-static/core/decoders/tight.js:241-282 | A basic rectangle resumes, before or after its filter byte. |
| TightFormat.DispatchResumes | src/web/vnc-static/core/decoders/tight.js:73-106 | Each kind of rectangle resumes under a saved control nibble. |
| TightFormat.DecodeRectResumes | src/web/vnc-static/core/decoders/tight.js:53-106 | One rectangle resumes; streams named by the control byte are reset once, however often the decoder is called. |
| TightFormat.RectResumes | src/web/vnc-static/core/decoders/tight.js:53-106 | The Tight decoder satisfies the resumption law for every state, every cut and every zlib behaviour. |
| TightEncoding.PackedPixel | src/web/vnc-static/core/decoders/tight.js:380-411 | A bit packed for pixel (x, y) is the bit the decoder looks at. |
| TightEncoding.CopyReads | src/web/vnc-static/core/decoders/tight.js:284-320 | Plain or inflated true-colour bytes are drawn as the pixels that were sent. |
| TightEncoding.AnyIndexedReads | src/web/vnc-static/core/decoders/tight.js:322-378 | A palette of 1 to 256 colours with arbitrary pixel bytes: the pixels are looked up in the new palette followed by what an older one left. |
| TightEncoding.IndexedReads | src/web/vnc-static/core/decoders/tight.js:341-426 | Indices packed as bits or bytes show the colours they index. |
| TightEncoding.DataReads | src/web/vnc-static/core/decoders/tight.js:432-460 | Length and data read back, and what follows stays unread. |
| TightEncoding.TrueColorReads | src/web/vnc-static/core/decoders/tight.js:284-320 | A true-colour rectangle decodes to its pixels, with or without an explicit filter byte. |
| TightEncoding.IndexedRectReads | src/web/vnc-static/core/decoders/tight.js:322-378 | A rectangle of 2 to 256 colours decodes to its pixels. |
| TightEncoding.RectDecodes | src/web/vnc-static/core/decoders/tight.js:53-106 | Any legal rectangle, with anything behind it, makes the one call that its meaning demands; the decoder is idle again and the streams are as they should be. |
| TightEncoding.AnyFragmentationDecodes | src/web/vnc-static/core/decoders/tight.js:53-106 | The same for any cut of the bytes into messages. |
| TightEncoding.PictureNeedsTwoBytes | src/web/vnc-static/core/decoders/tight.js:432-441 | A JPEG, WebP, QOI or transparent payload, complete and with nothing behind it, is taken if and only if it has at least two bytes, since three bytes are asked for before the length is read. |
| PixelUnpacking.PutPixel | src/web/vnc-static/core/decoders/tight.js:391-396 | One pixel is written with alpha 255, and every other byte is kept. |
| PixelUnpacking.CopyRect | src/web/vnc-static/core/decoders/tight.js:309-315 | Every pixel of the output is the pixel of the input, alpha 255, nothing out of range. |
| PixelUnpacking.PaletteRect | src/web/vnc-static/core/decoders/tight.js:413-423 | Every pixel is its palette entry, an index past the palette giving black. |
| PixelUnpacking.MonoRect | src/web/vnc-static/core/decoders/tight.js:380-411 | For any width and height, pixel (x, y) is the palette entry its bit selects, in range, partial last bytes included. |
| PixelUnpacking.MonoRow | src/web/vnc-static/core/decoders/tight.js:387-408 | One row: whole bytes, then the bits of a partial byte. |
| PixelUnpacking.MonoByte | src/web/vnc-static/core/decoders/tight.js:390-407 | The bits of one byte, from bit 7 down. |
| PixelUnpacking.MonoPixelAt | src/web/vnc-static/core/decoders/tight.js:380-411 | Pixel (x, y) is selected by bit 7 - x%8 of byte y*ceil(width/8) + x/8, both in range. |
| TightDecoding.TightDecoder.constructor | src/web/vnc-static/core/decoders/tight.js:17-33 | An idle decoder with four fresh streams. |
| TightDecoding.TightDecoder.DecodeRect | src/web/vnc-static/core/decoders/tight.js:53-106 | The method on mutable fields and the receive queue does exactly what the pure decoder does. |
| TightDecoding.TightDecoder.ResetZlibs | src/web/vnc-static/core/decoders/tight.js:62-68 | Exactly the streams named by the low four bits restart. |
| TightDecoding.TightDecoder.Dispatch | src/web/vnc-static/core/decoders/tight.js:73-99 | The kinds of rectangle, and an exception for the rest. |
| TightDecoding.TightDecoder.FillRect | src/web/vnc-static/core/decoders/tight.js:110-123 | Three bytes or none are consumed, and the fill has their colour. |
| TightDecoding.TightDecoder.ReadData | src/web/vnc-static/core/decoders/tight.js:432-460 | Length and data, with the saved length. |
| TightDecoding.TightDecoder.ReadLength | src/web/vnc-static/core/decoders/tight.js:433-450 | The length field, consumed whole. |
| TightDecoding.TightDecoder.BasicRect | src/web/vnc-static/core/decoders/tight.js:241-282 | The filter byte is read once and remembered. |
| TightDecoding.TightDecoder.RunFilter | src/web/vnc-static/core/decoders/tight.js:257-281 | The remembered filter runs, and is forgotten when the rectangle is complete. |
| TightDecoding.TightDecoder.PixelData | src/web/vnc-static/core/decoders/tight.js:295-309 | Fewer than 12 bytes come plain, the rest through the named stream, which then remembers the chunk. |
| TightDecoding.TightDecoder.CopyFilter | src/web/vnc-static/core/decoders/tight.js:284-320 | The blit shows the true-colour pixels. |
| TightDecoding.TightDecoder.PaletteFilter | src/web/vnc-static/core/decoders/tight.js:322-378 | The palette is read once; the blit shows the indexed pixels. |
| TightDecoding.TightDecoder.ReadPalette | src/web/vnc-static/core/decoders/tight.js:323-339 | The palette is consumed with its count or not at all. |
| TightDecoding.TightDecoder.SetPalette | src/web/vnc-static/core/decoders/tight.js:335-338 | The first bytes of the palette buffer are replaced, the rest keeps an older palette. |
| TightDecoding.TightDecoder.IndexedData | src/web/vnc-static/core/decoders/tight.js:341-378 | The pixel data behind the palette. |
| TightDecoding.TightDecoder.DrawIndexed | src/web/vnc-static/core/decoders/tight.js:368-375 | Two colours are read as bits, others as bytes, and the palette count is cleared. |
| UdpDecoding.DataInDatagram | src/web/vnc-static/core/decoders/udp.js:248-275 | The rest of a datagram behind its length field is the data. |
| UdpDecoding.BodyInDatagram | src/web/vnc-static/core/decoders/udp.js:134-150 | Plain or compressed pixel data in a datagram. |
| UdpDecoding.TrueColorInDatagram | src/web/vnc-static/core/decoders/udp.js:126-157 | A true-colour datagram draws its pixels. |
| UdpDecoding.IndexedInDatagram | src/web/vnc-static/core/decoders/udp.js:159-194 | A palette datagram draws its pixels. |
| UdpDecoding.DatagramDecodes | src/web/vnc-static/core/decoders/udp.js:25-194 | A datagram that holds one legal rectangle makes the call that is its meaning. |
| UdpDecoding.UdpAgreesWithTight | src/web/vnc-static/core/decoders/udp.js:25-194 | From equal streams both decoders make the same call on the same rectangle, and their streams agree afterwards if and only if the rectangle holds pixels or resets nothing. |
| UdpDecoding.FillResetsNothing | src/web/vnc-static/core/decoders/udp.js:25-58 | A fill that asks for a reset of stream 0: over the stream it is emptied, over UDP it stays as it was. |
| UdpDecoding.StreamDecodesIndexed | src/web/vnc-static/core/decoders/udp.js:159-194 | The stream decoder on a palette rectangle with arbitrary pixel bytes: an index past the palette shows what an older palette left. |
| UdpDecoding.DatagramDecodesIndexed | src/web/vnc-static/core/decoders/udp.js:159-194 | The same rectangle over UDP: such an index is black. |
| UdpDecoding.IndexPastPalette | src/web/vnc-static/core/decoders/udp.js:159-194 | On any palette rectangle with arbitrary pixel bytes the two decoders make the same call if and only if the palette has two colours, or every index is in it or names an entry that an older palette left black. |
| UdpDecoding.LeftoverColorShows | src/web/vnc-static/core/decoders/udp.js:159-194 | Two rectangles, the first of which leaves behind the colour that the second shows over the stream, and black over UDP. |
| UdpDecoding.EmptyPictureDropped | src/web/vnc-static/core/decoders/udp.js:57-77 | For any JPEG or WebP picture with enough bytes behind it the two decoders make the same call if and only if it is not empty; an empty one is dropped over UDP. |
| UdpDecoding.UDPDecoder.constructor | src/web/vnc-static/core/decoders/udp.js:14-23 | Four fresh streams. |
| UdpDecoding.UDPDecoder.DecodeDatagram | src/web/vnc-static/core/decoders/udp.js:25-47 | The method does what the pure decoder does, on datagrams of any length, truncated ones included. |
| UdpDecoding.UDPDecoder.DecodeBasic | src/web/vnc-static/core/decoders/udp.js:84-124 | Stream resets and filter choice. |
| UdpDecoding.UDPDecoder.ResetZlibs | src/web/vnc-static/core/decoders/udp.js:88-96 | Exactly the named streams restart. |
| UdpDecoding.UDPDecoder.DecodeCopy | src/web/vnc-static/core/decoders/udp.js:126-157 | The true-colour filter. |
| UdpDecoding.UDPDecoder.DecodePalette | src/web/vnc-static/core/decoders/udp.js:159-194 | The palette filter, with the arithmetic of a missing count. |
| UdpDecoding.UDPDecoder.DrawMono | src/web/vnc-static/core/decoders/udp.js:196-227 | Bits to pixels, missing bytes reading as 0. |
| UdpDecoding.UDPDecoder.DrawIndexed | src/web/vnc-static/core/decoders/udp.js:229-242 | Bytes to pixels. |
| UdpDecoding.HeaderOnly | src/web/vnc-static/core/decoders/udp.js:25-47 | A datagram that ends before the control byte is read as a copy of pixels that did not come: black for up to three of them, dropped for more. |
| UdpDecoding.ShortFill | src/web/vnc-static/core/decoders/udp.js:57-77 | A fill cut short anywhere in its colour is drawn with the components that came, the others being undefined. |
| UdpDecoding.ShortTrueColor | src/web/vnc-static/core/decoders/udp.js:126-157 | Uncompressed true-colour pixels cut short anywhere are drawn, every component whose byte has come as it was sent and the others as 0. |
| UdpDecoding.ShortIndexed | src/web/vnc-static/core/decoders/udp.js:159-242 | The same with uncompressed palette pixels behind a palette that is all there: a bit that has not come is 0, an index that has not, or that is past the palette, is black. |
| UdpDecoding.PaletteNotCome | src/web/vnc-static/core/decoders/udp.js:159-194 | A datagram that ends behind the palette filter's number: up to eleven pixels are black; for more, the whole datagram goes to the library as compressed data, and what comes of it is drawn with an empty palette. |
| UdpDecoding.ShortPicture | src/web/vnc-static/core/decoders/udp.js:60-77 | A JPEG or WebP picture cut short anywhere is dropped if and only if fewer than two bytes have come behind the control byte; otherwise exactly as much of its file as has come is handed on. |
| UdpDecoding.UdpRefuses | src/web/vnc-static/core/decoders/udp.js:25-124 | PNG rectangles are dropped; control numbers from 12 on and a filter that is unknown or has not come make the decoder throw. |
| TightEncoding.ResetsAre | src/web/vnc-static/core/decoders/tight.js:62-68 | Each of the four low bits of the control byte makes exactly its own stream start afresh. |
| TightEncoding.RefusedRect | src/web/vnc-static/core/decoders/tight.js:73-106 | Control numbers 10, 14 and 15 end the connection, and so does a filter that is neither copy nor palette. |
| TightEncoding.HandedOn | src/web/vnc-static/core/decoders/tight.js:83-95 | A QOI or transparent payload is handed on as it came, and what follows it is left. |
| TightEncoding.OneColour | src/web/vnc-static/core/decoders/tight.js:341-378 | A palette of one colour comes with a bit a pixel and is drawn as if with a byte: as many pixels as there are bytes have the colour, and all others are black. |
| TightEncoding.EmptyCopy | src/web/vnc-static/core/decoders/tight.js:284-290 | An empty true-colour rectangle has no pixel bytes and draws nothing. |
| TightEncoding.EmptyPalette | src/web/vnc-static/core/decoders/tight.js:322-350 | An empty palette rectangle draws nothing, and leaves its number of colours behind. |
| TightEncoding.LeftoverCount | src/web/vnc-static/core/decoders/tight.js:322-350 | With a number of colours left behind, the next palette rectangle's palette is read as its pixels. |
| TightEncoding.InflatedIff | src/web/vnc-static/core/decoders/tight.js:295-309 | Compressed pixels are drawn if and only if the library inflates them to exactly the size the rectangle needs; otherwise the connection ends. |
| HextileEncoding.TileFailsIff | src/web/vnc-static/core/decoders/hextile.js:36-140 | A subencoding above 30 ends the connection before anything else is read. Any other tile that is all there does if and only if it uses a background or foreground that has not been sent; a blank tile is not asked. |
| FrameQueue.SubmittedOnce | src/web/vnc-static/core/display.js:1003-1070 | Each submission counts once, so the accounting below places it exactly once. |
| FrameQueue.PushFlow | src/web/vnc-static/core/display.js:1138-1242 | A push moves the front slot's rectangles to the canvas in order, or moves nothing; it never loses or reorders any. |
| FrameQueue.CompleteFlow | src/web/vnc-static/core/display.js:1088-1133 | Completing or forcing a slot, of any number, moves rectangles only from the front of the queue to the canvas. |
| FrameQueue.SubmitAccounted | src/web/vnc-static/core/display.js:1003-1070 | A submission is queued or discarded, in whichever branch, and nothing else disappears unaccounted. |
| FrameQueue.StepSound | src/web/vnc-static/core/display.js:1003-1242 | Every call and callback, in any mode, keeps three or four slots, and every submission is in exactly one of queued, rendered and discarded. |
| TcpFrames.SubmitTcp | src/web/vnc-static/core/display.js:1003-1070 | In TCP mode a rectangle always finds a slot, so the drop branches are not reached, and it goes behind everything queued. |
| TcpFrames.HeaderTcp | src/web/vnc-static/core/rfb.js:3824-3845 | An update header, with its pending and flush, leaves a slot for the new update. |
| TcpFrames.StepTcp | src/web/vnc-static/core/display.js:1003-1242 | Every step of a TCP connection keeps order, room and the FIFO property. |
| TcpFrames.TcpIsFifo | src/web/vnc-static/core/display.js:1003-1242 | Over every TCP run with callbacks anywhere: nothing is discarded, rendered followed by queued is what was submitted in order, three slots, occupied ones a prefix with increasing frame ids. |
| TcpFrames.InitialTcp | src/web/vnc-static/core/display.js:1075-1083 | The empty queue satisfies the TCP invariant. |
| TcpFrames.RunIsSound | src/web/vnc-static/core/display.js:1003-1242 | Over every run in any mode, with clearing, the accounting and the slot bound hold. |
| TcpFrames.InitialSound | src/web/vnc-static/core/display.js:1075-1083 | The empty queue is accounted for. |
| DisplayQueue.Display.constructor | src/web/vnc-static/core/display.js:1075-1083 | Three free slots. |
| DisplayQueue.Display.IsPending | src/web/vnc-static/core/display.js:615-618 | Whether the third slot is in use. |
| DisplayQueue.Display.Flush | src/web/vnc-static/core/display.js:626-632 | The oldest frame is forced out. |
| DisplayQueue.Display.ClearQueue | src/web/vnc-static/core/display.js:1075-1083 | Three free slots again; what was queued counts as discarded. |
| DisplayQueue.Display.Scan | src/web/vnc-static/core/display.js:1004-1024 | The loop finds the first slot with the frame or free, and otherwise the extreme frame numbers. |
| DisplayQueue.Display.RenderQPush | src/web/vnc-static/core/display.js:1003-1070 | The in-place method computes the state function of a submission, whose slots, counts and readiness in any mode are those of CountIsFlips, ReadyExactly and TurnedAwayIff below. |
| DisplayQueue.Display.MakeRoom | src/web/vnc-static/core/display.js:1053-1065 | A ready front frame is rendered, an unready one dropped; the newer frame gets a slot of its own behind the others, ready if and only if a flip that counts one begins it. |
| DisplayQueue.Display.CompleteFrame | src/web/vnc-static/core/display.js:1088-1133 | The loops over a slot's rectangles compute the state function of completing or forcing a frame. |
| DisplayQueue.Display.PushFrame | src/web/vnc-static/core/display.js:1138-1242 | The in-place method computes the state function of a push, the six-tries rule included. |
| FrameUpdates.CopyRectResumes | src/web/vnc-static/core/decoders/copyrect.js:12-26 | A copy rectangle resumes. |
| FrameUpdates.PseudoRectStable | src/web/vnc-static/core/rfb.js:4040-4110 | The size of a cursor, desktop name or screen layout, once known, is not changed by more bytes; it is the size of what was written, mask included (PseudoReads). |
| FrameUpdates.HandleRectResumes | src/web/vnc-static/core/rfb.js:3872-3909 | A Tight, hextile, copy, last-rectangle or pseudo-rectangle resumes. |
| FrameUpdates.RectsResume | src/web/vnc-static/core/rfb.js:3848-3870 | The loop over an update's rectangles resumes, in or between rectangles and headers, last-rectangle marker included. |
| FrameUpdates.PumpResumes | src/web/vnc-static/core/rfb.js:2003-2030 | From wherever the message loop stopped, paused or not, a loop that does not pause gets to where it would have got with everything at once. |
| FrameUpdates.HearResumes | src/web/vnc-static/core/rfb.js:3590-3671 | The same with a message that is not an update in front: bell, cut text, clipboard, relay, upgrade, fence, power control. |
| FrameUpdates.FinishResumes | src/web/vnc-static/core/rfb.js:3848-3870 | The same with an update in hand. |
| FrameUpdates.FenceLeftover | src/web/vnc-static/core/rfb.js:3525-3565 | A fence of 65 bytes, the last of which is taken for a bell. |
| FrameUpdates.ExtendedLeftover | src/web/vnc-static/core/rfb.js:3256-3395 | A provided text of an unwanted format, the last byte of which is taken for a bell. |
| StreamToScreen.StreamResumes | src/web/vnc-static/core/rfb.js:2003-2030 | A client that does not pause satisfies the resumption law, updates and other messages together. |
| StreamToScreen.FragmentationIrrelevant | src/web/vnc-static/core/rfb.js:2003-2030 | For such a client, calls, notices, state and unread bytes for any cut of a stream are those of one uncut message. |
| StreamToScreen.StopsWhere | src/web/vnc-static/core/rfb.js:2017-2027 | The client's own loop stops only where no further step can be taken, or behind a UDP upgrade, a relay subscription or relay data. |
| StreamToScreen.PausingLosesNothing | src/web/vnc-static/core/rfb.js:2003-2030 | Whatever the cut, going on from where the client stands gives the calls, notices and state of the uncut stream: a pause delays, and neither loses, doubles nor reorders. |
| StreamToScreen.HeldUp | src/web/vnc-static/core/rfb.js:3761-3822 | Whatever comes in one piece behind such a message is left unread, whole messages included. |
| StreamToScreen.PumpInOrder | src/web/vnc-static/core/rfb.js:3824-3870 | The calls of any stream number the updates one by one, and each draws only under its own number. |
| StreamToScreen.OrderIsTcp | src/web/vnc-static/core/rfb.js:3824-3870 | Such calls, among any callbacks, make a TCP run of the frame queue. |
| StreamToScreen.LoggedIff | src/web/vnc-static/core/display.js:642-805 | Of any call at all: it is submitted, once, if and only if it is not an update's header, an image of no width or height, or a payload handed on that is not a transparent rectangle of some area. |
| StreamToScreen.RunLogs | src/web/vnc-static/core/display.js:1003-1070 | In any run the queue's log is the list of calls made, without exactly those. |
| StreamToScreen.StreamIsDrawnInOrder | src/web/vnc-static/core/display.js:1003-1242 | End to end: for any cut of any stream and any interleaving of browser callbacks, nothing is dropped, and rendered followed by queued is a beginning of the calls that one parse of the uncut stream makes, without those of LoggedIff, and all of them unless the client stands paused as above. |
| UpdateEncoding.HeaderReads | src/web/vnc-static/core/rfb.js:3851-3857 | A rectangle header is read as it was written, for every area and every signed encoding. |
| UpdateEncoding.PseudoReads | src/web/vnc-static/core/rfb.js:3872-3909 | A cursor (its pixels, and a mask of whole bytes a row), a desktop name, a list of screens, and the three kinds without a payload take exactly the bytes that were written for them. |
| UpdateEncoding.NegativeName | src/web/vnc-static/core/rfb.js:4077-4094 | A desktop name of a negative length takes the four bytes of its length, and nothing else. |
| UpdateEncoding.UnknownFails | src/web/vnc-static/core/rfb.js:4192-4198 | A rectangle whose encoding has neither decoder nor handler ends the connection, and nothing behind its header is read. |
| UpdateEncoding.RectShows | src/web/vnc-static/core/rfb.js:3872-3909 | Any legal Tight, hextile or copy rectangle or pseudo-rectangle, in any decoder state that matches the sender's, makes the calls it means, none for a pseudo-rectangle, leaves a matching state, and is counted if and only if it draws. |
| UpdateEncoding.RectsShow | src/web/vnc-static/core/rfb.js:3848-3865 | Any list of them, streams and colours threaded from one to the next, shows the list of their meanings. |
| UpdateEncoding.UpdateShows | src/web/vnc-static/core/rfb.js:3824-3870 | A whole update, its count exact or closed by a last-rectangle marker, shows its rectangles under the next frame number and closes with the count of those that draw, pseudo-rectangles left out and the marker counted. |
| UpdateEncoding.MessagesShow | src/web/vnc-static/core/rfb.js:2003-2030 | Any list of updates and other messages is taken in full: it shows what the updates mean, in order, and each other message is noticed once, in order. |
| SentToScreen.PartWaits | src/web/vnc-static/core/rfb.js:3824-3870 | With less than all of a message the client waits, makes the calls of what is there, and goes on from there with what comes next. |
| SentToScreen.NoPauseYet | src/web/vnc-static/core/rfb.js:2003-2030 | Before the end of the first message behind which the client pauses, it is where a client without pauses is, whatever has arrived. |
| SentToScreen.FirstPause | src/web/vnc-static/core/rfb.js:3761-3822 | Once that message is all there the client stands right behind it, everything before it shown and noticed and nothing after it read. |
| SentToScreen.WhereItStands | src/web/vnc-static/core/rfb.js:2003-2030 | After any arrivals it has paused behind as many messages as the byte ends of these messages and the lengths of the arrivals say, and stands there, or has gone on from there as far as the bytes go. |
| SentToScreen.AllTakenIff | src/web/vnc-static/core/rfb.js:2003-2030 | For any list of messages and any cut into arrivals: everything is shown and noticed if and only if the arrivals before the last have taken the client past every pause, one at the very end excepted; otherwise all that follows the next one is unread. |
| SentToScreen.CaughtUpIff | src/web/vnc-static/core/rfb.js:2003-2030 | For any part of such a stream and any cut: the client is where a parse of what has arrived ends if and only if the last arrival has not taken it past a pause, or has brought less than the next message, or update header, behind it. |
| SentToScreen.SecondMessageWaits | src/web/vnc-static/core/rfb.js:3761-3822 | Relay data and a bell: in one arrival the bell stays unread, in two it is heard. |
| SentToScreen.MessagesAreDrawn | src/web/vnc-static/core/display.js:642-805 | Of the calls that any legal messages cause, only the headers of updates stay out of the queue. |
| SentToScreen.SentIsShown | src/web/vnc-static/core/rfb.js:2003-2030 | Server to canvas: for any list of legal messages, any cut into arrivals and any callbacks, rendered followed by queued is a beginning of all that the messages draw: every fill, blit, image, copy and flip, and nothing else. It is all of it, and everything is noticed, if and only if the arrivals before the last have passed every pause but one at the very end. |
| WholeFrames.WatchStep | src/web/vnc-static/core/display.js:1003-1148 | While the rectangles of an update come in, each event keeps: its slot is ready only once a load event has hit it with no image missing there, stays ready until it is rendered, and something of it is on the canvas exactly if an animation frame came after that while the slot was in front. |
| WholeFrames.TornIff | src/web/vnc-static/core/display.js:1088-1148 | Over any TCP run in which the flip comes last: something of an update is on the canvas while its rectangles are still being submitted if and only if a load event has hit its slot with no image missing there, and afterwards an animation frame has come while that slot was in front. |
| WholeFrames.UpdateTornIff | src/web/vnc-static/core/display.js:1088-1148 | The same for the calls that any cut of any stream causes, with any callbacks between them. |
| WholeFrames.ReadyIff | src/web/vnc-static/core/display.js:1112-1132 | In one event the slot of an update whose flip has not come becomes ready if and only if such a load event names it. |
| WholeFrames.FrontIsRendered | src/web/vnc-static/core/display.js:1138-1242 | Animation frames alone render the front frame if and only if it is ready, which takes one, or has exactly as many rectangles as its flip counts, which takes what is left of six; otherwise they change nothing. |
| WholeFrames.PumpShaped | src/web/vnc-static/core/rfb.js:3824-3870 | In the calls of any stream nothing of an update follows its flip. |
| TornUpdate.HalfAnUpdate | src/web/vnc-static/core/display.js:1088-1148 | A TCP run of seventeen events in which half of update 4 reaches the canvas: the image of update 1 is loading at its flip, update 1 is forced out, and the load event comes when update 4 is in its slot. |
| ReadySlots.CountIsFlips | src/web/vnc-static/core/display.js:1030-1036 | In any run, over any transport, every slot counts what the flips among its rectangles count, frames that displaced others included. |
| ReadySlots.ReadyExactly | src/web/vnc-static/core/display.js:1003-1133 | In any run, over any transport, the slot of a frame is ready if and only if an earlier load event named it and found none of its images missing, or an earlier submission joined it and made its rectangles as many as its flips count while none was missing, or a flip that counts one gave it its frame. |
| ReadySlots.FliplessReadyIff | src/web/vnc-static/core/display.js:1112-1132 | In particular a frame whose flip has not come, in whatever way it got its slot, is ready if and only if such a load event has found its slot. |
| ReadySlots.NewSlotTells | src/web/vnc-static/core/display.js:1063-1064 | A frame that displaces another is ready at once only if a flip that counts one begins it. |
| ReadySlots.StepTells | src/web/vnc-static/core/display.js:1003-1242 | The same for one event of any kind: what it makes ready, and that nothing ever makes a slot unready again. |
| LeavingFrames.TurnedAwayIff | src/web/vnc-static/core/display.js:1003-1069 | A submission joins the first slot that is free or its frame's, as an image if and only if it is one. Without such a slot it is dropped if and only if its frame is older than some frame that has one; otherwise the oldest frame leaves, to the canvas if ready and for good if not, and the rectangle gets a slot behind the others. |
| LeavingFrames.SplitIff | src/web/vnc-static/core/display.js:1053-1065 | A frame that displaces another is torn in two if and only if the other was ready: its next rectangle takes the free slot that rendering has left, ahead of its own. |
| LeavingFrames.FlushIff | src/web/vnc-static/core/display.js:615-632 | In any run the header of an update changes nothing unless the third slot is in use; then the oldest frame goes to the canvas, ready or not, without exactly its images that have not loaded. |
| LeavingFrames.SkippedIff | src/web/vnc-static/core/display.js:1088-1133 | In any run, over any transport, a frame is drawn without one of its images if and only if an update's header has found every slot in use and this image, in the oldest frame, not loaded. |
| FrameOrder.SubmitRisingIff | src/web/vnc-static/core/display.js:1003-1070 | In any mode, a submission keeps rendered followed by queued ordered by frame number if and only if its rectangle does not go behind something newer or before something older. |
| FrameOrder.RisingThroughoutIff | src/web/vnc-static/core/display.js:1003-1242 | Over any run, clearing and callbacks included, they are ordered all along if and only if no rectangle is misplaced when it is submitted. |
| FrameOrder.OlderBehindNewer | src/web/vnc-static/core/display.js:1003-1070 | A rectangle of frame 2 and then one of frame 1: the older frame is queued behind the newer one. |
| UpdateLoop.RfbClient.constructor | src/web/vnc-static/core/rfb.js:3824-3870 | No update in hand, no notices. |
| UpdateLoop.RfbClient.HandleMessage | src/web/vnc-static/core/rfb.js:2003-2030 | The loop on mutable fields makes the calls, and takes the messages, of the pure message loop, pauses included. |
| UpdateLoop.RfbClient.NormalMsg | src/web/vnc-static/core/rfb.js:3590-3671 | One turn of it: a message of any type modelled, or the update in hand. |
| UpdateLoop.RfbClient.StartMessage | src/web/vnc-static/core/rfb.js:3590-3660 | A whole message of another type, or an update's header, whole or not at all; a new update announces its number. |
| UpdateLoop.RfbClient.OtherMsg | src/web/vnc-static/core/rfb.js:3613-3660 | A message that is not an update is taken whole and noticed, or put back; behind three types the loop ends. |
| UpdateLoop.RfbClient.UpdateInHand | src/web/vnc-static/core/rfb.js:3848-3870 | The update in hand is taken as far as the bytes go. |
| UpdateLoop.RfbClient.ReadUpdateHeader | src/web/vnc-static/core/rfb.js:3825-3833 | Count and number of the new update; with bytes missing the queue is back at the message type. |
| UpdateLoop.RfbClient.FramebufferUpdate | src/web/vnc-static/core/rfb.js:3848-3870 | All rectangles that are there, and the flip that closes an update of more than one. |
| UpdateLoop.RfbClient.HeaderOrRect | src/web/vnc-static/core/rfb.js:3849-3862 | One turn of the loop over rectangles. |
| UpdateLoop.RfbClient.OneRect | src/web/vnc-static/core/rfb.js:3872-3909 | The encodings modelled; a rectangle that is drawn counts, a pseudo-rectangle does not. |
| UpdateLoop.RfbClient.HandlePseudo | src/web/vnc-static/core/rfb.js:4027-4115 | Cursor, desktop name, screen layout and the empty ones: all of the payload, as long as PseudoReads says it was written, or nothing. |
| UpdateLoop.RfbClient.HandleCursor | src/web/vnc-static/core/rfb.js:4040-4075 | All of pixels and mask, and the picture they make; or nothing. |
| UpdateLoop.RfbClient.HandleDesktopName | src/web/vnc-static/core/rfb.js:4077-4094 | Length and name, or the queue back at the length; a negative length takes no name. |
| UpdateLoop.RfbClient.DecodeCopyRect | src/web/vnc-static/core/decoders/copyrect.js:12-26 | Four bytes or none are consumed; an empty area draws nothing. |
| CursorDecoding.CursorReads | src/web/vnc-static/core/rfb.js:4057-4069 | For a cursor of any size: every pixel of the picture has the colour it was sent with, and is opaque if and only if its bit was set. |
| CursorDecoding.Decode | src/web/vnc-static/core/rfb.js:4057-4069 | The loops over rows and columns compute the picture. |
| CursorDecoding.PixelAt | src/web/vnc-static/core/rfb.js:4062-4067 | The bit that decides about pixel (x, y) is in the mask, in row y, and is bit 7 - x % 8 of byte x / 8 there. |
| MessageParsing.UdpUpgradeStable | src/web/vnc-static/core/rfb.js:3761-3766 | A decision once made is not changed by more bytes: UDP upgrade. |
| MessageParsing.SubscribeStable | src/web/vnc-static/core/rfb.js:3788-3797 | The same for the relay subscription. |
| MessageParsing.UnixRelayStable | src/web/vnc-static/core/rfb.js:3809-3819 | The same for relay data. |
| MessageParsing.ServerCutTextStable | src/web/vnc-static/core/rfb.js:3229-3398 | The same for ServerCutText, plain and extended. |
| MessageParsing.ServerFenceStable | src/web/vnc-static/core/rfb.js:3525-3565 | The same for a fence. |
| MessageParsing.BinaryClipboardStable | src/web/vnc-static/core/rfb.js:3400-3466 | The same for the binary clipboard, for any number of items. |
| MessageParsing.OtherMessageStable | src/web/vnc-static/core/rfb.js:3590-3671 | The same for every message type modelled. |
| MessageParsing.ServerInitStable | src/web/vnc-static/core/rfb.js:3005-3057 | The same for ServerInit, in both modes. |
| MessageParsing.ProperPrefixWaits | src/web/vnc-static/core/rfb.js:3590-3822 | Every proper prefix of a complete message of any of these types is waited on. |
| MessageParsing.ExtendedIsWhole | src/web/vnc-static/core/rfb.js:3256-3395 | What is read of an extended cut text is all of it if and only if the text it provides is wanted, or nothing follows what its action needs; what is left is taken for the next message. |
| MessageParsing.FenceIsWhole | src/web/vnc-static/core/rfb.js:3525-3565 | A complete fence with the request bit is consumed whole if and only if its payload is not above 64 bytes. |
| MessageParsing.ClipboardReads | src/web/vnc-static/core/rfb.js:3400-3434 | Any list of items is read back as it was written, except an empty one with nothing behind it. |
| MessageParsing.TextsAnnouncedAgain | src/web/vnc-static/core/rfb.js:3415-3466 | The clipboard events of an attempt on a prefix are dispatched again by every later attempt. |
| MessageParsing.TextAnnouncedEarly | src/web/vnc-static/core/rfb.js:3415-3466 | A message for which that happens. |
| MessageEncoding.NoticeReads | src/web/vnc-static/core/rfb.js:3590-3822 | A message of any of the ten kinds is read back as it was sent, whatever follows it, and to its own end; the one exception is a clipboard without items that nothing follows. The client stops behind types 181, 182 and 183, and behind no other. |
| MessageEncoding.ExtendedReads | src/web/vnc-static/core/rfb.js:3256-3395 | An extended cut text of any action and formats is read with its flags, and to its own end if and only if it is not a text that nobody wants, of which only the flags are read. |
| MessageEncoding.OnesAreFormats | src/web/vnc-static/core/rfb.js:3266-3281 | As many sizes are read as formats are announced. |
| MessageEncoding.UnknownRefused | src/web/vnc-static/core/rfb.js:3596-3669 | A type for which there is no handler ends the connection. |
| MessageEncoding.XvpRefusedIff | src/web/vnc-static/core/rfb.js:3567-3588 | A power control message is refused if and only if its code is neither 0 nor 1. |
| MessageEncoding.FenceReads | src/web/vnc-static/core/rfb.js:3525-3565 | Of a request's flags, whatever they are, the client keeps block-before and block-after. |
| MessageEncoding.FenceRefused | src/web/vnc-static/core/rfb.js:3525-3554 | A fence whose top bit says that it is a response is refused. |
| MessageEncoding.RelayRefused | src/web/vnc-static/core/rfb.js:3809-3819 | Relay data of a negative length is refused. |
| MessageEncoding.ItemRefused | src/web/vnc-static/core/rfb.js:3425-3434 | A clipboard item of a negative length is refused once as many bytes have come as the length says. |
| MessageEncoding.ExtendedRefusedIff | src/web/vnc-static/core/rfb.js:3256-3395 | An extended cut text that is all there is refused if and only if its action is unknown or it is too short for what its action reads. |
| MessageEncoding.FlaglessRefused | src/web/vnc-static/core/rfb.js:3256-3260 | One too short to hold its flags is refused. |
| MessageEncoding.TextPlainIs | src/web/vnc-static/core/rfb.js:3436-3440 | The kind of item that raises clipboard events is text/plain. |
| MessageEncoding.ServerInitReads | src/web/vnc-static/core/rfb.js:3005-3057 | A ServerInit with any size, pixel format and name, and in TightVNC mode any capability lists, is read back: size and name as sent, and to its own end. |
| ClipboardEvents.CutReads | src/web/vnc-static/core/rfb.js:3400-3434 | An attempt with the first k bytes of a message reads exactly the items that end at or before k. |
| ClipboardEvents.EachTextAnnounced | src/web/vnc-static/core/rfb.js:3415-3466 | For any list of attempts, each text is dispatched once for every attempt that had all of it. |
| ClipboardEvents.TextsAnnouncedTwice | src/web/vnc-static/core/rfb.js:3415-3466 | All attempts together announce each text of the message exactly once if and only if every attempt but the last ended before the end of the first text item. |
| MessageHandlers.WaitFor | src/web/vnc-static/core/rfb.js:3229-3239 | A wait whose goback is what has been read cannot throw, and rewinds to where the message began. |
| MessageHandlers.HandleUdpUpgrade | src/web/vnc-static/core/rfb.js:3761-3766 | All or nothing: the payload, or the queue back at the type byte. |
| MessageHandlers.HandleSubscribeUnixRelay | src/web/vnc-static/core/rfb.js:3788-3807 | All or nothing. |
| MessageHandlers.HandleUnixRelay | src/web/vnc-static/core/rfb.js:3809-3822 | All or nothing, or the exception of a negative length. |
| MessageHandlers.HandleServerCutText | src/web/vnc-static/core/rfb.js:3229-3398 | All or nothing up to where the handler stops reading, plain and extended. |
| MessageHandlers.ReadExtended | src/web/vnc-static/core/rfb.js:3256-3395 | The flags, and then what the action has read of the body. |
| MessageHandlers.SkipSizes | src/web/vnc-static/core/rfb.js:3266-3281 | The loop over sixteen format bits reads one size for each that is set. |
| MessageHandlers.HandleServerFence | src/web/vnc-static/core/rfb.js:3525-3565 | All of the payload is waited for and at most 64 bytes of it are read; without bit 31 the connection fails. |
| MessageHandlers.HandleXvpMsg | src/web/vnc-static/core/rfb.js:3567-3588 | All or nothing; a code other than 0 and 1 fails the connection. |
| MessageHandlers.HandleOther | src/web/vnc-static/core/rfb.js:3590-3671 | The switch over message types. |
| MessageHandlers.HandleBinaryClipboard | src/web/vnc-static/core/rfb.js:3400-3466 | All or nothing as to position, for any number of items. |
| MessageHandlers.ReadItem | src/web/vnc-static/core/rfb.js:3416-3434 | One item, or a rewind over everything read of the message. |
| MessageHandlers.NegotiateServerInit | src/web/vnc-static/core/rfb.js:3005-3057 | All or nothing if and only if the name length is not negative or the mode is not TightVNC's; otherwise a wait ends exactly that far past the beginning. |
| MessageHandlers.NegativeNameDisplaces | src/web/vnc-static/core/rfb.js:3005-3057 | A name length of -5 and no capabilities yet: the wait ends five bytes too far. |
| MessageHandlers.SkipCapabilities | src/web/vnc-static/core/rfb.js:3035-3057 | The three capability lists are skipped whole, with that displacement of a wait. |
| SendQueue.Word32Reads | src/web/vnc-static/core/rfb.js:4495-4509 | The four bytes written for a length are it modulo 2^32, big-endian. |
| SendQueue.ConservedIff | src/web/vnc-static/core/rfb.js:4487-4640 | On an open socket any list of headers and payloads goes out byte for byte if and only if what does not fit of the headers is zeros, with a payload to come after it. |
| SendQueue.FittingHeadersLoseNothing | src/web/vnc-static/core/rfb.js:4532-4640 | In particular if each header fits behind what is still buffered. |
| SendQueue.LongNameLosesLength | src/web/vnc-static/core/rfb.js:4601-4640 | A relay name as long as the buffer: its last bytes and the payload's length arrive as zeros. |
| SendQueue.LoopEndsIff | src/web/vnc-static/core/rfb.js:4513-4528 | The sending loop ends if and only if nothing is left to send, the socket is open, or the payload fits in the room left. |
| SendQueue.OpenEnds | src/web/vnc-static/core/rfb.js:4513-4528 | On an open socket it ends within one turn more than there are bytes to send and bytes lost. |
| SendQueue.ClosedStalls | src/web/vnc-static/core/rfb.js:4513-4528 | On a closed socket a payload that does not fit never leaves. |
| SendQueue.Sender.Flush | src/web/vnc-static/core/websock.js:170-175 | On an open socket the buffer goes to the wire and is empty; a count past the end throws; on a closed socket nothing changes. |
| SendQueue.Sender.Write | src/web/vnc-static/core/rfb.js:4514-4524 | Bytes inside the buffer are appended, bytes behind its end are dropped while the count runs on. |
| SendQueue.Sender.SendPayload | src/web/vnc-static/core/rfb.js:4513-4528 | For payloads of any size and any count before, the loop ends, no copy leaves the buffer, and what has been sent grows by zeros for what was lost and by exactly the payload. |
| SendQueue.Sender.CopyChunk | src/web/vnc-static/core/rfb.js:4519-4524 | One chunk is copied into the room left. |
| SendQueue.Sender.SendPiece | src/web/vnc-static/core/rfb.js:4487-4530 | A header and its payload, as the queue function says. |
| SendQueue.Sender.ClientCutText | src/web/vnc-static/core/rfb.js:4487-4530 | Header and payload, each byte once and in order, under the condition of the list of pieces; what a server reads in them is CutTextReadsIff. |
| SendQueue.Sender.SendUnixRelay | src/web/vnc-static/core/rfb.js:4601-4640 | Name, length and payload, under the same condition; read back by RelayReadsIff. |
| SendQueue.Sender.SendBinaryClipboard | src/web/vnc-static/core/rfb.js:4532-4585 | Any number of items of any size, under the same condition; read back by ClipboardReadsIff. |
| SendQueue.Sender.SendItem | src/web/vnc-static/core/rfb.js:4546-4584 | One item. |
| ClientMessages.CutTextReadsIff | src/web/vnc-static/core/rfb.js:4487-4509 | A server that follows section 7.5.6 of RFC 6143 and its extension reads the text back, in the form it was sent in, if and only if it is below 2^31 bytes in the plain form, and 1 to 2^31 in the extended form. |
| ClientMessages.RelayReadsIff | src/web/vnc-static/core/rfb.js:4601-4622 | Relayed data is read back under its name if and only if the name is at most 255 bytes long and the data below 2^32. |
| ClientMessages.NamedReadsIff | src/web/vnc-static/core/rfb.js:4546-4560 | The same for one clipboard item; otherwise something else is read. |
| ClientMessages.ClipboardReadsIff | src/web/vnc-static/core/rfb.js:4532-4560 | A list of clipboard items is read back if and only if it has at most 255 items and each is. |
| Base64.EncodeByLetters | src/web/vnc-static/core/base64.js:20-52 | The grouped encoding is, letter by letter, six bits of the input at a time, and padding. |
| Base64.EncodeLength | src/web/vnc-static/core/base64.js:20-52 | The output is a multiple of four long, and exactly the characters behind the data are padding. |
| Base64.CorruptIff | src/web/vnc-static/core/base64.js:65-96 | From any offset, any string is rejected if and only if its table characters, padding included, do not come in fours. |
| Base64.BitsLeft | src/web/vnc-static/core/base64.js:65-89 | The number of bits left over is six times the table characters, modulo eight. |
| Base64.EncodingDecodes | src/web/vnc-static/core/base64.js:20-98 | The accumulator ends empty on an encoding and has appended the input. |
| Base64.RoundTrip | src/web/vnc-static/core/base64.js:20-98 | decode(encode(b)) is b for every list of bytes, and is never taken for corrupted. Behind an offset it is b if and only if no padding comes before the offset or the encoding has none, since padding is looked for from the start. |
| Base64.JunkSkipped | src/web/vnc-static/core/base64.js:65-96 | Any other character, anywhere, is skipped: a string is rejected or decoded as it is without those, except that they count towards the length allotted, which zeros fill up. |
| Base64.EncodeBytes | src/web/vnc-static/core/base64.js:20-52 | The method computes the encoding of section 4 of RFC 4648. |
| Base64.EncodeGroups | src/web/vnc-static/core/base64.js:29-40 | The loop writes four letters for three bytes, the last group filled up with zero bits. |
| Base64.DecodeString | src/web/vnc-static/core/base64.js:55-98 | The loop over bits left and data left computes the decoding from any offset, dropping what does not fit the allotted length. |
| Des.OpenClose | src/web/vnc-static/core/des.js:190-251 | The opening swaps undo the closing ones. |
| Des.CloseOpen | src/web/vnc-static/core/des.js:190-251 | The closing swaps undo the opening ones, halves exchanged. |
| Des.FeistelUndone | src/web/vnc-static/core/des.js:208-233 | Rounds run with the keys reversed on exchanged halves undo themselves, for any round function. |
| Des.CipherUndone | src/web/vnc-static/core/des.js:182-260 | So does the whole cipher, for any round function and any list of keys. |
| Des.OpenIsInitial | src/web/vnc-static/core/des.js:190-206 | The five swaps are the initial permutation of FIPS PUB 46-3, on rotated halves. |
| Des.CloseIsFinal | src/web/vnc-static/core/des.js:235-251 | The closing swaps are its inverse. |
| Des.Table1 | src/web/vnc-static/core/des.js:88-92 | Each entry of the first table is S-box 1 followed by permutation P and the rotation. |
| Des.Table2 | src/web/vnc-static/core/des.js:93-97 | The same for S-box 2. |
| Des.Table3 | src/web/vnc-static/core/des.js:98-102 | The same for S-box 3. |
| Des.Table4 | src/web/vnc-static/core/des.js:103-107 | The same for S-box 4. |
| Des.Table5 | src/web/vnc-static/core/des.js:108-112 | The same for S-box 5. |
| Des.Table6 | src/web/vnc-static/core/des.js:113-117 | The same for S-box 6. |
| Des.Table7 | src/web/vnc-static/core/des.js:118-122 | The same for S-box 7. |
| Des.Table8 | src/web/vnc-static/core/des.js:123-127 | The same for S-box 8. |
| Des.FvalIsF | src/web/vnc-static/core/des.js:209-219 | One half round is the cipher function f(R, K), on rotated words and rearranged keys. |
| Des.RoundsMatch | src/web/vnc-static/core/des.js:208-233 | Any number of rounds matches the standard's. |
| Des.CipherIsStandard | src/web/vnc-static/core/des.js:182-260 | For every block and every list of round keys the client computes the enciphering computation of the standard. |
| Des.Enc8Undone | src/web/vnc-static/core/des.js:182-260 | enc8 on its own output with the key pairs reversed restores the input, for every block and every keys. |
| Des.PairsAreCooked | src/web/vnc-static/core/des.js:165-178 | The keys of the constructor are the standard's round keys, rearranged, in order. |
| Des.DES.constructor | src/web/vnc-static/core/des.js:132-179 | For a password of any length, the keys are those of the standard's key schedule under VNC's reversed bit order. |
| Des.DES.Enc8 | src/web/vnc-static/core/des.js:182-260 | The unrolled method computes the cipher on eight bytes. |
| Des.DES.AllRounds | src/web/vnc-static/core/des.js:208-233 | Eight passes of two half rounds use the sixteen key pairs in order. |
| Des.DES.Encrypt | src/web/vnc-static/core/des.js:263-265 | Sixteen bytes are two blocks. |
| Des.GenDes | src/web/vnc-static/core/rfb.js:4305-4308 | The response to a challenge is DES of both its blocks as FIPS PUB 46-3 defines it, keyed by the password. |
| DesKeys.MirroredKey | src/web/vnc-static/core/des.js:138-142 | A password character gives its eight low bits to the key, the lowest first, and nothing of what is above them. |
| DesKeys.RunningIndex | src/web/vnc-static/core/des.js:138-142 | The adjusted running index goes through permuted choice 1. |
| DesKeys.ChooseBits | src/web/vnc-static/core/des.js:138-142 | The loop computes permuted choice 1 of the reversed password bits. |
| DesKeys.TotalIsShifted | src/web/vnc-static/core/des.js:84 | The table of total rotations is the sum of the standard's shifts. |
| DesKeys.Rotate | src/web/vnc-static/core/des.js:148-153 | Both halves are rotated by the shifts so far. |
| DesKeys.ChoiceIsPC2 | src/web/vnc-static/core/des.js:81-83 | The table is permuted choice 2, counted from 0. |
| DesKeys.Choose | src/web/vnc-static/core/des.js:154-161 | The loop reads permuted choice 2 as two numbers of 24 bits. |
| DesKeys.Cookey0IsCooked | src/web/vnc-static/core/des.js:168-171 | The masks and shifts bring together groups 1, 3, 5 and 7 of the round key. |
| DesKeys.Cookey1IsCooked | src/web/vnc-static/core/des.js:173-176 | And groups 2, 4, 6 and 8. |
| DesKeys.Schedule | src/web/vnc-static/core/des.js:132-179 | All 32 words are the rearranged round keys of the standard's schedule. |
| Reassembly.PieceArrives | src/web/vnc-static/core/rfb.js:1354-1390 | One more piece keeps the buffer in step with what has arrived; if it completes a block of as many pieces as the message has, the message is delivered if they are all different, and the handler throws otherwise. |
| Reassembly.NoHoleIff | src/web/vnc-static/core/rfb.js:1358-1376 | As many pieces as the message has leave no empty slot if and only if no two are the same. |
| Reassembly.FullIsWhole | src/web/vnc-static/core/rfb.js:1364-1376 | An entry with every part yields the message, its parts in index order. |
| Reassembly.ThrowsIffRepeated | src/web/vnc-static/core/rfb.js:1354-1390 | For any arrivals, repeated or not, of any messages in any order: nothing throws if and only if no message repeats a piece within one block of its arrivals; then the deliveries are the completed messages, whole and in order of completion. |
| Reassembly.CompletedOften | src/web/vnc-static/core/rfb.js:1354-1390 | A message of n pieces is among the completed ones once for every n of its pieces that have arrived. |
| Reassembly.PieceGoesOn | src/web/vnc-static/core/rfb.js:1354-1390 | The same for a buffer in which exceptions have left entries behind: such an entry never delivers, and the others are in step. |
| Reassembly.GoesOn | src/web/vnc-static/core/rfb.js:1354-1390 | For any arrivals, exceptions included: the deliveries are, in order, the messages completed while none of their blocks has had a repetition, whole; what comes of other messages makes no difference. |
| Reassembly.NeverAgain | src/web/vnc-static/core/rfb.js:1354-1390 | A message one of whose blocks has had a repetition is never delivered again, whatever arrives. |
| Reassembly.AnyOrderDelivers | src/web/vnc-static/core/rfb.js:1354-1390 | In particular if each piece arrives at most once, whatever the order and the interleaving. |
| Reassembly.DeliveredOnce | src/web/vnc-static/core/rfb.js:1354-1390 | Then a message is delivered once if all its pieces have arrived and not at all otherwise. |
| Reassembly.OnePieceTwice | src/web/vnc-static/core/rfb.js:1354-1390 | A one-piece datagram that comes twice is delivered twice. |
| Reassembly.RepeatedEarly | src/web/vnc-static/core/rfb.js:1358-1376 | A piece that comes again before the others makes the handler throw. |
| Reassembly.RepeatedLate | src/web/vnc-static/core/rfb.js:1354-1390 | One that comes again after the others leaves an entry behind, and nothing throws. |
| Reassembly.PutTogetherIff | src/web/vnc-static/core/rfb.js:1354-1390 | As many datagrams as a message announces pieces, with any indices at all, negative and too large ones included, are put together if and only if the indices are those of its pieces, each once; otherwise the last of them makes the handler throw. |
| Reassembly.UdpChannel.OnMessage | src/web/vnc-static/core/rfb.js:1354-1390 | The handler on its mutable map computes the buffer function, exceptions included. |
| Reassembly.Combine | src/web/vnc-static/core/rfb.js:1366-1373 | The loop puts the pieces one behind the other, or meets an empty slot. |
| UdpToScreen.DatagramReads | src/web/vnc-static/core/rfb.js:1326-1352 | The numbers at the front of a datagram, signed and least significant byte first, are read as they were written, and the payload is what is behind them. |
| UdpToScreen.MessageShown | src/web/vnc-static/core/rfb.js:3680-3714 | A rectangle that has been put together makes the call it means, under the frame of its datagrams, and a last-rectangle message the flip that counts what it says. |
| UdpToScreen.AllShown | src/web/vnc-static/core/rfb.js:3680-3714 | The same for any list of them, with the zlib streams as each leaves them to the next. |
| UdpToScreen.Located | src/web/vnc-static/core/display.js:1003-1242 | In any run every call submitted is in exactly one place. |
| UdpToScreen.UdpIsShown | src/web/vnc-static/core/rfb.js:1354-1390 | Server to queue over UDP: rectangles of any frames, each cut into pieces, the pieces arriving once in any order and interleaving, any callbacks, flushes and clearing between: what is submitted is what the completed messages show, in order of completion, each in its frame, and each is on the canvas, queued or dropped, and only one of them; a message is completed once if all its pieces have arrived, and else never. |
| UdpToScreen.OnUdpRect | src/web/vnc-static/core/rfb.js:3680-3714 | The handler on the decoder's fields computes that. |
| CommandClient.LinesOfSum | src/services/mt5-command-client.ts:170-177 | What one chunk leaves over and the next chunk give the lines of both together. |
| CommandClient.ChunksDoNotMatter | src/services/mt5-command-client.ts:170-177 | The lines of a stream do not depend on how it is cut into chunks. |
| CommandClient.LeftoverSpoilsFirstLine | src/services/mt5-command-client.ts:153-172 | In any run: a connection fails, and after anything but data the next data comes on a new connection; the lines dispatched are that data's own if and only if nothing was left over of the old one or the data has no newline. |
| CommandClient.ResponseLost | src/services/mt5-command-client.ts:153-182 | A run in which the response to a pending command is not recognised, and its timeout stays armed; without the leftover the same data settles the command. |
| CommandClient.RestHasNoNewline | src/services/mt5-command-client.ts:170-177 | In every run the buffer holds no complete line between events. |
| CommandClient.StepKeepsCommands | src/services/mt5-command-client.ts:72-238 | Every step keeps: timers are armed for exactly the pending commands, and a written command is pending exactly while it has no outcome. |
| CommandClient.StepKeepsConnection | src/services/mt5-command-client.ts:137-206 | Every step keeps: before destroy exactly one of an unfailed socket and an armed reconnect timer. |
| CommandClient.EveryRunKeeps | src/services/mt5-command-client.ts:72-238 | All of it in every interleaving of dispatches, data, timeouts, write errors, socket errors, closes, reconnects and destroy. |
| CommandClient.PendingIsUnsettled | src/services/mt5-command-client.ts:90-122 | Pending is the written, unsettled commands and those registered without a socket. |
| CommandClient.ExactThroughout | src/services/mt5-command-client.ts:90-122 | Pending is exactly the written, unsettled commands all along a run if and only if the socket is there whenever a command is registered. |
| CommandClient.OrphanStays | src/services/mt5-command-client.ts:90-135 | A run for which it is not: destroy falls between the socket check and the registration. |
| CommandClient.LinesSettle | src/services/mt5-command-client.ts:216-238 | Received lines settle exactly the pending commands they answer, each by the first response with its own id. |
| CommandClient.OutcomesAreFinal | src/services/mt5-command-client.ts:72-238 | A settled command stays settled as it is, whatever happens later. |
| CommandClient.ResolvedByOwnResponse | src/services/mt5-command-client.ts:216-238 | A command resolves only from the response with its own id, received while it is written and pending. |
| CommandClient.NothingForgotten | src/services/mt5-command-client.ts:72-122 | Every command begun is settled, waiting for the socket, or pending with its timeout armed. |
| CommandClient.DestroyEndsIt | src/services/mt5-command-client.ts:124-135 | destroy settles every registered command, and no socket is opened after it. |
| CommandClient.FailureSettles | src/services/mt5-command-client.ts:124-214 | In any run, when any socket fails or closes, or the client is destroyed, no command is pending and no timeout armed; every pending command that had no outcome is rejected with that reason, and no other is touched. The socket that failed, or was there at destroy, is destroyed. |
| CommandClient.RegisteredSince | src/services/mt5-command-client.ts:92-214 | Hence a pending command was registered after the last failure or close of any socket. |
| CommandClient.CommandEnds | src/services/mt5-command-client.ts:92-238 | From its registration on a command is pending, with its timeout armed, if and only if nothing has come for it; and its outcome is the first thing that has: its response, its timeout, its failed write, the failure or close of a socket, or destroy. |
| CommandClient.UnregisteredOutcome | src/services/mt5-command-client.ts:72-90 | A command settled without having been registered gave up waiting for a socket, or came after destroy. |
| CommandClient.BufferIsRest | src/services/mt5-command-client.ts:153-182 | In every run the buffer is what follows the last newline of all that was received on all connections. |
| CommandClient.OverflowIff | src/services/mt5-command-client.ts:170-182 | Data makes the client destroy its socket if and only if more than 65536 characters have then come since the last newline on any connection. |
| CommandClient.Mt5CommandClient.constructor | src/services/mt5-command-client.ts:60-65 | The first socket is opened. |
| CommandClient.Mt5CommandClient.RejectPending | src/services/mt5-command-client.ts:208-214 | The loop rejects every pending command, disarms its timer and empties the map. |
| CommandClient.Mt5CommandClient.Dispatch | src/services/mt5-command-client.ts:72-90 | A call is refused after destroy and otherwise waits for the socket. |
| CommandClient.Mt5CommandClient.ConnectTimeout | src/services/mt5-command-client.ts:240-249 | No socket in time rejects the command. |
| CommandClient.Mt5CommandClient.RegisterAndWrite | src/services/mt5-command-client.ts:92-121 | Timer and map entry come before the write, which throws if the socket has gone. |
| CommandClient.Mt5CommandClient.OnWriteError | src/services/mt5-command-client.ts:114-120 | A failed write removes and rejects its command. |
| CommandClient.Mt5CommandClient.HandleFrame | src/services/mt5-command-client.ts:216-238 | A line settles at most the pending command it names. |
| CommandClient.Mt5CommandClient.OnChunk | src/services/mt5-command-client.ts:170-182 | The loop over newlines dispatches exactly the complete lines, keeps the rest, and tears the socket down on overflow. |
| CommandClient.Mt5CommandClient.OnSocketError | src/services/mt5-command-client.ts:155-168 | Pending commands are rejected, their timeouts disarmed, the socket is destroyed and one reconnect is scheduled, as FailureSettles says. |
| CommandClient.Mt5CommandClient.OnSocketClose | src/services/mt5-command-client.ts:184-196 | Pending commands are rejected and their timeouts disarmed, as FailureSettles says; a close after an error schedules nothing more. |
| CommandClient.Mt5CommandClient.OnReconnectTimer | src/services/mt5-command-client.ts:201-206 | The timer connects unless the client was destroyed. |
| CommandClient.Mt5CommandClient.DestroyClient | src/services/mt5-command-client.ts:124-135 | Pending commands are rejected and the socket is destroyed. |
| EventStream.ParkedMeansEmpty | src/connectors/mt5.ts:635-672 | In every run a parked resolver implies an empty queue. |
| EventStream.NothingLost | src/connectors/mt5.ts:626-680 | Until an abort or the consumer's leaving: handed over, then in flight, then queued are the events emitted for the account since the subscription. |
| EventStream.AfterAbort | src/connectors/mt5.ts:649-675 | An aborted stream hands over what was in flight and nothing else. |
| EventStream.AtMostOneAfterAbort | src/connectors/mt5.ts:649-675 | At most one event is yielded after the abort, the one that was in flight, and the whole output is a prefix of what was emitted. |
| EventStream.QueueDrains | src/connectors/mt5.ts:662-667 | A consumer that keeps asking empties the queue in order, and then parks. |
| EventStream.EverythingArrives | src/connectors/mt5.ts:661-675 | For every run there is a number of further turns after which everything emitted has been handed over. |
| EventStream.Stream.constructor | src/connectors/mt5.ts:626-659 | Subscribed, nothing queued. |
| EventStream.Stream.Listener | src/connectors/mt5.ts:635-646 | An event of the account goes to the parked resolver or to the queue. |
| EventStream.Stream.AbortSignal | src/connectors/mt5.ts:649-659 | An abort resolves a parked consumer as done and unsubscribes. |
| EventStream.Stream.Resume | src/connectors/mt5.ts:661-675 | The loop from one stop to the next hands over what the step function says. |
| EventStream.Stream.ReturnCall | src/connectors/mt5.ts:676-679 | A consumer that leaves ends the generator. |
| EventStream.SimulatorMixesAccounts | src/connectors/sim.ts:383-426 | The simulator's stream ignores its account: after any run, once the consumers have asked often enough, its consumer and one of a stream for the account alone have been handed the same events if and only if no other account had any. |
| EventStream.EndsIff | src/connectors/mt5.ts:649-679 | Whatever has happened, a consumer that keeps asking comes to the end of the stream, within two turns, if and only if the signal has aborted or the consumer has left at a yield; then the listener is gone. |
| EventStream.WaitingEndsAtOnce | src/connectors/mt5.ts:649-675 | A consumer that waits when the signal aborts gets the end as soon as the generator runs on, and nothing before it. |
| EventStream.DoneForGood | src/connectors/mt5.ts:676-679 | A stream that has ended stays so and hands nothing over. |
| Positions.SameSideAndQuantity | src/connectors/sim.ts:303-351 | After any fills, simulator and ledger list the same instruments with the same side and quantity. |
| Positions.ListedIff | src/ledger.ts:239-250 | Both list an instrument if and only if what was bought and what was sold of it differ by a billionth or more: long if and only if more was bought, and with the difference as quantity. |
| Positions.UnknownIsBought | src/ledger.ts:203-251 | A recorded fill whose side is not to be found is listed as if it had been bought, whatever the other rows. |
| Positions.HeldIsNet | src/connectors/sim.ts:313-351 | The simulator's signed quantity is the ledger's net, for every instrument. |
| Positions.CostStep | src/connectors/sim.ts:322-351 | Where cost and net agree before a fill, they agree after it if and only if the fill adds to the position, is at its average price, or moves nothing. |
| Positions.CostsAgreeThroughout | src/ledger.ts:224-250 | The costs of every instrument, closed ones included, agree all along a list of fills if and only if every fill against a position is at that position's average price. |
| Positions.CarriedIsCost | src/connectors/sim.ts:322-351 | For any fills, the simulator's cost of an instrument is the ledger's plus the sum of what its fills against a position have deviated by. |
| Positions.SameListing | src/ledger.ts:239-250 | For any fills both listings are identical, average prices included, if and only if for every listed instrument those deviations cancel out; where they do not, its average prices differ by their sum over the quantity. |
| Positions.DeviationForgottenWhenClosed | src/connectors/sim.ts:337-341 | One bought at 100 and sold at 110: the fill is away from the average, and the listings are equal, since both are empty. |
| Positions.OneSided | src/ledger.ts:224-250 | In particular while each instrument's fills are all on one side. |
| Positions.AveragesDiffer | src/connectors/sim.ts:329-335 | Two bought at 100 and one sold at 110: 103 1/3 in the simulator, 90 in the ledger. |
| Positions.SimulatorKeepsEntry | src/connectors/sim.ts:322-350 | The simulator's average is the average entry price of the open quantity all along if and only if every fill that closes part of a position is at its average. |
| Positions.LedgerListsEntry | src/ledger.ts:203-250 | The ledger lists the average entry price of the open quantity for every instrument if and only if the profit realised on each of them is zero; where it is not, the price is off by that profit over the quantity. |
| Positions.AverageInRange | src/connectors/sim.ts:322-350 | The simulator's average lies between the lowest and the highest fill price. |
| Positions.ClosesIff | src/connectors/sim.ts:362-381 | A close ordered with one book and filled against another leaves what has been held since less what was to be closed; it closes the position if and only if the two are equal. |
| Positions.CloseLeavesWhatCameBetween | src/connectors/sim.ts:362-381 | For any fills before the order and any between order and fill, in whole or in part: what is left is the part not to be closed plus the net of the fills between; a close of the whole position closes it if and only if they net to zero. |
| Positions.ClosedTwiceIsReversed | src/connectors/sim.ts:362-381 | The smallest case: of two closes ordered before the first is filled, the second opens the same quantity the other way. |
| Positions.SimAccount.constructor | src/connectors/sim.ts:303-351 | No positions. |
| Positions.SimAccount.Filled | src/connectors/sim.ts:303-351 | The callback on the mutable map computes the position function, branch by branch. |
| Positions.SimAccount.Listing | src/connectors/sim.ts:266-283 | The loop lists exactly the positions that are not dust. |
| Positions.PositionsFor | src/ledger.ts:203-251 | The two loops over maps compute, for every instrument traded, net, side and cost per unit of the fills. |
| Positions.Listed | src/ledger.ts:239-250 | The second loop: exactly the instruments whose net is not dust. |

## Left out

- ReceiveQueue.Websock.DecodeMessage: after the overflow exception the class makes no promise, since the recorded size is then larger than the buffer; re-attaching a socket, whose `init` leaves the old fill count, is not modelled.
- HextileDecoding.HextileDecoder.DecodeRect: when a colour is used that was never sent, only the exception is stated, not the fields it leaves behind; the tile buffer is modelled per pixel, not per byte.
- HextileDecoding.HextileDecoder.BlitRaw: states the arguments of the blit; that `blitImage` then copies from buffer offset 0 is not modelled.
- HextileEncoding.AnyFragmentationDecodes: the encodings are those the standard allows: colours are sent before they are used, and subrectangles lie inside their tiles.
- TightEncoding.AnyFragmentationDecodes: rectangles are not empty and palettes have 2 to 256 colours; what comes of empty rectangles and of one colour is said by `EmptyCopy`, `EmptyPalette` and `OneColour`.
- FrameQueue.StepSound: callbacks may come at any time and name any slot, more than a browser does; performance counters, secondary screens and the canvas are not modelled. A transparent rectangle of no area submits nothing; in the code making its `ImageData` throws, so that it is never the one that a later rectangle repeats.
- TcpFrames.TcpIsFifo: switching transports, which clears the queue, is excluded here and counted as discarding in `RunIsSound`; RRE rectangles, which carry no frame number, end the model.
- FrameUpdates.HandleRectResumes: covers Tight, hextile, copy, last-rectangle, and cursor, desktop and key-event pseudo-encodings; raw, RRE, TightPNG and VMware cursor rectangles end the parse, since the calls of the first depend on fragments, and the last reads a byte it has not waited for.
- FrameUpdates.PumpResumes: statistics messages (178) end the parse: their header is read without being waited for, so that a short one is read from stale bytes; failures of the connection end it, too.
- StreamToScreen.StreamIsDrawnInOrder: the same types and encodings; the pause between a flush and its `onflush` is part of the cut of the stream. A QOI rectangle submits nothing here: its worker pushes the pixels later, under the number it was read with, and runs with such pushes are outside the hypothesis on `CallsMade`.
- StreamToScreen.StreamResumes: the same types and encodings.
- StreamToScreen.FragmentationIrrelevant: the same types and encodings.
- UpdateLoop.RfbClient.HandleMessage: when decoding throws, the queue and the fields are left unspecified; replies to the server and the frame statistics are not modelled.
- UpdateLoop.RfbClient.NormalMsg: when decoding throws, the same; statistics messages end the parse.
- UpdateLoop.RfbClient.OneRect: the same encodings as `HandleRectResumes`; the cursor's picture is decoded and not shown, and what a desktop name or a list of screens changes is not modelled.
- MessageHandlers.HandleServerCutText: states how much is read, not what is done with it; inflating a provided text may fail, and an extended body shorter than what its action reads ends the model.
- MessageHandlers.HandleBinaryClipboard: text decoding and the clipboard interface are left out.
- MessageHandlers.HandleOther: what a handler does after it has read its message, such as parsing an upgrade's JSON, may throw, which ends the loop just as returning nothing does.
- SentToScreen.SentIsShown: hextile rectangles show the tiles that are not skipped; fences above 64 bytes and extended cut texts that are not consumed whole are not among the messages sent.
- WholeFrames.TornIff: for frames without a flip it is about what is rendered before the last rectangle; a frame that is forced out by a later update's header may lack images that had not loaded. Load events may name any slot, whether or not the code has registered a listener.
- FrameOrder.RisingThroughoutIff: is about what is rendered followed by what is queued; a misplaced rectangle may still be dropped with its slot before it is rendered.
- Base64.DecodeString: an offset past the end of the string is not modelled.
- Reassembly.AnyOrderDelivers: starts behind the header of a datagram, which `DatagramReads` is about; datagrams shorter than their header and the switch of transport state are not modelled.
- UdpToScreen.UdpIsShown: pieces arrive at most once, repeated ones being the subject of `GoesOn`; compressed pixels are those that inflate in the order in which the messages are completed; flushes and clearing may come anywhere, more often than the code makes them.
- UpdateEncoding.UnknownFails: says nothing of the encodings that are left out of this model, raw, RRE, TightPNG and VMware cursor among them.
- MessageEncoding.UnknownRefused: says nothing of statistics messages (178).
- LeavingFrames.SkippedIff: is about images that an update's header gives up on; one that has not loaded when an animation frame renders its slot is not drawn either, and stays marked as an image.
- CommandClient.EveryRunKeeps: sockets are numbers, a line's JSON is an arbitrary function of its text, and characters that a chunk boundary splits are not modelled.
- Positions.CostsAgreeThroughout: quantities and prices are reals; rounding, random mark prices and the order of listed positions are not modelled.
- RRE, raw, QOI and transparent rectangle decoding: pixel contents depend on fragments, workers or libraries.
- zlib, canvas, DOM, input handling, WebRTC negotiation and the HTML application: interfaces and libraries.
- SQL, REST routes, authentication and the legacy TCP dispatch of the slot service: library calls and input or output.
