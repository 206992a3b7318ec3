/**
 * A stand-in for OpenCV's VideoCapture. Opening, property queries and frame
 * decoding are the library's business; the model fixes what they report as
 * data: whether the capture opened, the properties it reports, how it answers
 * a resolution request, and the script of outcomes its successive reads give.
 */
module Backend {
  import opened Outcomes
  import opened Frames

  /** What a capture was opened on: a device index or a video file path. */
  datatype Origin = Device(index: int) | File(path: string)

  class VideoCapture {
    const origin: Origin
    /** Whether the capture opened. */
    const isOpen: bool
    /** The frame rate and frame count the capture reports. */
    const fps: real
    const frameCount: int
    /** How the device answers a requested (width, height). */
    const negotiate: (int, int) -> (int, int)
    /** The frame width and height the capture reports. */
    var width: int
    var height: int
    /** Outcomes of the reads still to come; `None` is a failed read. */
    var stream: seq<Option<Image>>

    constructor (origin: Origin, isOpen: bool, fps: real, frameCount: int,
                 negotiate: (int, int) -> (int, int), width: int, height: int,
                 stream: seq<Option<Image>>)
      ensures this.origin == origin && this.isOpen == isOpen
      ensures this.fps == fps && this.frameCount == frameCount && this.negotiate == negotiate
      ensures this.width == width && this.height == height && this.stream == stream
    {
      this.origin := origin;
      this.isOpen := isOpen;
      this.fps := fps;
      this.frameCount := frameCount;
      this.negotiate := negotiate;
      this.width := width;
      this.height := height;
      this.stream := stream;
    }

    /** What the next `read` will deliver: nothing once closed or exhausted. */
    ghost function Peek(): Option<Image>
      reads this
    {
      if isOpen && stream != [] then stream[0] else None
    }

    /** Reading a frame: consumes one scripted outcome while the capture is open. */
    method Read() returns (r: Option<Image>)
      modifies this`stream
      ensures r == old(Peek())
      ensures stream == if isOpen && old(stream) != [] then old(stream)[1..] else old(stream)
    {
      if isOpen && stream != [] {
        r := stream[0];
        stream := stream[1..];
      } else {
        r := None;
      }
    }

    /** Setting the frame width, then the frame height: the device settles on what it supports. */
    method RequestSize(w: int, h: int)
      modifies this`width, this`height
      ensures (width, height) == negotiate(w, h)
    {
      var achieved := negotiate(w, h);
      width, height := achieved.0, achieved.1;
    }
  }
}
