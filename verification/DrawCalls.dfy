/** The calls a decoder makes on the display. */
module DrawCalls {
  import opened Bytes

  /** An opaque pixel: the decoders store alpha 255 beside these three bytes. */
  datatype Color = Color(r: Byte, g: Byte, b: Byte)

  const BLACK := Color(0, 0, 0)

  datatype Area = Area(x: nat, y: nat, w: nat, h: nat)

  datatype ImageType = Jpeg | Webp

  datatype Call =
      /** `pending()` and, when it holds, `flush()`, at the header of an update. */
    | NewFrame(frameId: int)
      /** A colour of None is the JavaScript value undefined. */
    | Fill(area: Area, color: Option<Color>, frameId: int)
      /** A colour of which only these first components are there, the others being undefined. */
    | PartFill(area: Area, components: seq<Byte>, frameId: int)
    | Blit(area: Area, pixels: seq<Color>, frameId: int)
      /** A blit straight out of the receive queue: four bytes a pixel, alpha already set. */
    | RawBlit(area: Area, data: seq<Byte>, frameId: int)
    | ImageRect(area: Area, mime: ImageType, data: seq<Byte>, frameId: int)
      /** The payload of a QOI or transparent rectangle, which leaves the decoder's own control. */
    | Handoff(area: Area, kind: nat, data: seq<Byte>, frameId: int)
    | CopyImage(fromX: nat, fromY: nat, area: Area, frameId: int)
    | Flip(frameId: int, rectCount: nat)

  /** Every call draws into the given frame. */
  predicate InFrame(calls: seq<Call>, frameId: int) {
    forall k :: 0 <= k < |calls| ==> !calls[k].NewFrame? && !calls[k].Flip? && calls[k].frameId == frameId
  }

  /** The display as its callers see it: the calls made on it, in order. */
  class CallLog {
    var calls: seq<Call>

    constructor ()
      ensures calls == []
    {
      calls := [];
    }

    method Record(c: Call)
      modifies this
      ensures calls == old(calls) + [c]
    {
      calls := calls + [c];
    }
  }
}
