/**
 * The `Capture` session of the camera interop layer: one frame source built
 * from a webcam, a video file or a list of image files, polled frame by frame.
 */
module Session {
  import opened Outcomes
  import opened Frames
  import opened Backend

  /** The three `CaptureFailedException`s the constructors throw. */
  datatype CaptureFailed = WebcamNotOpened | WebcamResolutionRejected | VideoFileNotOpened

  function Min(a: int, b: int): int
  {
    if a <= b then a else b
  }

  /**
   * `GetProgress()` before its conversion to a double: the webcam's -1, or
   * the pair whose quotient is reported.
   */
  datatype Progress = Live | Fraction(frames: int, length: int)
  {
    /** The double returned; a zero length has no defined quotient. */
    function Value(): (v: real)
      requires Live? || length != 0
      ensures Live? ==> v == -1.0
      ensures Fraction? ==> v * (length as real) == frames as real
      ensures Fraction? && length > 0 ==> (v >= 1.0 <==> frames >= length)
      ensures Fraction? && length > 0 && frames >= 0 ==> v >= 0.0
    {
      if Live? then -1.0 else QuotientBounds(frames, length); frames as real / length as real
    }
  }

  lemma QuotientBounds(n: int, d: int)
    requires d != 0
    ensures d > 0 ==> (n as real / d as real >= 1.0 <==> n >= d)
    ensures d > 0 && n >= 0 ==> n as real / d as real >= 0.0
  {
    if d > 0 {
      var q := n as real / d as real;
      assert q * d as real == n as real;
    }
  }

  class Capture {
    /** The OpenCV capture; null for an image sequence. */
    var vc: VideoCapture?
    var latestFrame: RawImage
    var grayFrame: RawImage?
    var fps: real
    var isWebcam: bool
    var isImageSeq: bool
    var frameNum: int
    /** The image paths still to be read, front first (empty unless an image sequence). */
    var imageFiles: seq<string>
    var vidLength: int
    var width: int
    var height: int

    /** The image paths the session was built from. */
    ghost var playlist: seq<string>
    /** Every frame obtained so far (before mirroring), oldest first. */
    ghost var delivered: seq<Image>

    ghost predicate Valid()
      reads this
    {
      && frameNum >= 0
      && grayFrame != latestFrame
      // exactly one backing store: a capture, or a list of paths
      && (vc == null <==> isImageSeq)
      && (isWebcam ==> !isImageSeq && vidLength == 0 && fps == 0.0)
      && (vc != null && !isWebcam ==> fps == vc.fps)
      // the paths are consumed front to back, one per call
      && (isImageSeq ==> fps == 0.0 && vidLength == |playlist|
                         && imageFiles == playlist[Min(frameNum, |playlist|)..])
      && (!isImageSeq ==> imageFiles == [])
      // the grey buffer exists exactly once a frame of positive width was seen
      && (grayFrame == null <==> forall i :: 0 <= i < |delivered| ==> delivered[i].width == 0)
    }

    /**
     * `Capture(device, width, height)` up to its checks: opens the device,
     * requests the resolution, and fills in the fields. Fields the source
     * leaves alone keep the runtime's zero values.
     */
    constructor Webcam(device: int, width: int, height: int, cam: VideoCapture)
      requires device >= 0 && cam.origin == Device(device)
      modifies cam
      ensures Valid() && fresh(latestFrame)
      ensures vc == cam && isWebcam && !isImageSeq && frameNum == 0 && vidLength == 0
      ensures this.width == width && this.height == height && fps == 0.0
      ensures latestFrame.mat == EmptyImage && grayFrame == null && delivered == []
      ensures (cam.width, cam.height) == cam.negotiate(width, height)
      ensures cam.stream == old(cam.stream)
    {
      latestFrame := new RawImage();
      vc := cam;
      cam.RequestSize(width, height);
      isWebcam := true;
      isImageSeq := false;
      this.width := width;
      this.height := height;
      vidLength := 0;
      frameNum := 0;
      fps := 0.0;
      grayFrame := null;
      imageFiles := [];
      playlist := [];
      delivered := [];
    }

    /**
     * The webcam constructor with its two throws: the device must be open,
     * and must report back exactly the requested resolution.
     */
    static method OpenWebcam(device: int, width: int, height: int, cam: VideoCapture)
      returns (r: Result<Capture, CaptureFailed>)
      requires device >= 0 && cam.origin == Device(device)
      modifies cam
      ensures (cam.width, cam.height) == cam.negotiate(width, height)
      ensures cam.stream == old(cam.stream)
      ensures !cam.isOpen ==> r == Failure(WebcamNotOpened)
      ensures cam.isOpen && (cam.width != width || cam.height != height)
              ==> r == Failure(WebcamResolutionRejected)
      ensures r.Success? <==> cam.isOpen && cam.width == width && cam.height == height
      ensures r.Success? ==>
                var c := r.value;
                && fresh(c) && fresh(c.latestFrame) && c.Valid()
                && c.vc == cam && c.isWebcam && c.frameNum == 0 && c.vidLength == 0
                && c.width == width && c.height == height
                && c.latestFrame.mat == EmptyImage && c.grayFrame == null
    {
      var c := new Capture.Webcam(device, width, height, cam);
      var setWidth, setHeight := cam.width, cam.height;
      if !cam.isOpen {
        return Failure(WebcamNotOpened);
      }
      if setWidth != width || setHeight != height {
        return Failure(WebcamResolutionRejected);
      }
      r := Success(c);
    }

    /** `Capture(videoFile)` up to its check: the properties are read right after opening. */
    constructor Video(path: string, cam: VideoCapture)
      requires cam.origin == File(path)
      ensures Valid() && fresh(latestFrame)
      ensures vc == cam && !isWebcam && !isImageSeq && frameNum == 0
      ensures fps == cam.fps && width == cam.width && height == cam.height
      ensures vidLength == cam.frameCount
      ensures latestFrame.mat == EmptyImage && grayFrame == null && delivered == []
    {
      latestFrame := new RawImage();
      vc := cam;
      fps := cam.fps;
      isWebcam := false;
      isImageSeq := false;
      width := cam.width;
      height := cam.height;
      vidLength := cam.frameCount;
      frameNum := 0;
      grayFrame := null;
      imageFiles := [];
      playlist := [];
      delivered := [];
    }

    /** The video-file constructor with its throw: the file must have opened. */
    static method OpenVideo(path: string, cam: VideoCapture)
      returns (r: Result<Capture, CaptureFailed>)
      requires cam.origin == File(path)
      ensures r.Failure? <==> !cam.isOpen
      ensures r.Failure? ==> r.error == VideoFileNotOpened
      ensures r.Success? ==>
                var c := r.value;
                && fresh(c) && fresh(c.latestFrame) && c.Valid()
                && c.vc == cam && !c.isWebcam && !c.isImageSeq && c.frameNum == 0
                && c.fps == cam.fps && c.vidLength == cam.frameCount
                && c.width == cam.width && c.height == cam.height
                && c.latestFrame.mat == EmptyImage && c.grayFrame == null
    {
      var c := new Capture.Video(path, cam);
      if !cam.isOpen {
        return Failure(VideoFileNotOpened);
      }
      r := Success(c);
    }

    /**
     * `Capture(image_files)`: copies the paths in order and touches no
     * backend. `vc`, `frame_num`, `fps`, `width` and `height` are never
     * assigned there, so they keep the runtime's zero values.
     */
    constructor ImageSequence(files: seq<string>)
      ensures Valid() && fresh(latestFrame)
      ensures vc == null && isImageSeq && !isWebcam
      ensures imageFiles == files && playlist == files && vidLength == |files|
      ensures frameNum == 0 && fps == 0.0 && width == 0 && height == 0
      ensures latestFrame.mat == EmptyImage && grayFrame == null && delivered == []
    {
      latestFrame := new RawImage();
      isWebcam := false;
      isImageSeq := true;
      var copied := [];
      var i := 0;
      while i < |files|
        invariant 0 <= i <= |files|
        invariant copied == files[..i]
      {
        copied := copied + [files[i]];
        i := i + 1;
      }
      imageFiles := copied;
      vidLength := |files|;
      vc := null;
      frameNum := 0;
      fps := 0.0;
      width := 0;
      height := 0;
      grayFrame := null;
      delivered := [];
      playlist := files;
    }

    /** The frame the next `GetNextFrame` obtains, if any (before mirroring). */
    ghost function Pending(imread: string -> Image): Option<Image>
      reads this, vc
    {
      if vc != null then vc.Peek()
      else if isImageSeq && imageFiles != [] then Some(imread(imageFiles[0]))
      else None
    }

    /**
     * `GetNextFrame(mirror)`: counts the call, then reads from the capture
     * or decodes the front path with `imread`. With nothing obtained it
     * returns the emptied colour buffer and stops there; otherwise it
     * allocates the grey buffer once, mirrors, and refreshes the grey buffer.
     */
    method GetNextFrame(mirror: bool, imread: string -> Image) returns (frame: RawImage)
      requires Valid()
      modifies this, latestFrame, grayFrame, vc
      ensures Valid()
      ensures frame == latestFrame == old(latestFrame)
      ensures frameNum == old(frameNum) + 1
      ensures vc == old(vc) && isWebcam == old(isWebcam) && isImageSeq == old(isImageSeq)
      ensures vidLength == old(vidLength) && fps == old(fps)
      ensures width == old(width) && height == old(height) && playlist == old(playlist)
      ensures vc != null ==> vc.width == old(vc.width) && vc.height == old(vc.height)
      ensures vc != null ==> vc.stream == if vc.isOpen && old(vc.stream) != [] then old(vc.stream)[1..] else old(vc.stream)
      ensures imageFiles == if old(imageFiles) == [] then [] else old(imageFiles)[1..]
      // the exhausted signal: an empty colour buffer, nothing else touched
      ensures old(Pending(imread)).None? ==>
                && latestFrame.mat == EmptyImage
                && delivered == old(delivered)
                && grayFrame == old(grayFrame)
                && (grayFrame != null ==> grayFrame.mat == old(grayFrame.mat))
      ensures old(Pending(imread)).Some? ==>
                var img := old(Pending(imread)).value;
                && delivered == old(delivered) + [img]
                && latestFrame.mat == (if mirror then Flip(img) else img)
                && (old(grayFrame) != null ==> grayFrame == old(grayFrame))
                && (old(grayFrame) == null && img.width > 0 ==> grayFrame != null && fresh(grayFrame))
                && (old(grayFrame) == null && img.width == 0 ==> grayFrame == null)
                && (grayFrame != null ==> grayFrame.mat == ToGray(latestFrame.mat))
    {
      frameNum := frameNum + 1;
      if vc != null {
        var read := vc.Read();
        if read.None? {
          latestFrame.mat := EmptyImage;
          return latestFrame;
        }
        latestFrame.mat := read.value;
        delivered := delivered + [read.value];
      } else if isImageSeq {
        if imageFiles == [] {
          latestFrame.mat := EmptyImage;
          return latestFrame;
        }
        var img := imread(imageFiles[0]);
        latestFrame.mat := img;
        imageFiles := imageFiles[1..];
        delivered := delivered + [img];
      }
      ghost var obtained := latestFrame.mat;
      assert delivered == old(delivered) + [obtained];
      RefreshBuffers(mirror);
      assert forall i :: 0 <= i < |old(delivered)| ==> delivered[i] == old(delivered)[i];
      assert delivered[|delivered| - 1] == obtained;
      frame := latestFrame;
    }

    /**
     * The tail of `GetNextFrame` once a frame is in the colour buffer:
     * allocate the grey buffer if it is missing and the frame has a width,
     * mirror if asked, and convert into the grey buffer if there is one.
     */
    method RefreshBuffers(mirror: bool)
      requires grayFrame != latestFrame
      modifies this`grayFrame, latestFrame, grayFrame
      ensures grayFrame != latestFrame
      ensures old(grayFrame) != null ==> grayFrame == old(grayFrame)
      ensures old(grayFrame) == null && old(latestFrame.mat).width > 0 ==> grayFrame != null && fresh(grayFrame)
      ensures old(grayFrame) == null && old(latestFrame.mat).width == 0 ==> grayFrame == null
      ensures latestFrame.mat == if mirror then Flip(old(latestFrame.mat)) else old(latestFrame.mat)
      ensures grayFrame != null ==> grayFrame.mat == ToGray(latestFrame.mat)
    {
      if grayFrame == null {
        if latestFrame.Width() > 0 {
          grayFrame := new RawImage.Sized(latestFrame.mat.width, latestFrame.mat.height);
        }
      }
      if mirror {
        latestFrame.mat := Flip(latestFrame.mat);
      }
      if grayFrame != null {
        grayFrame.mat := ToGray(latestFrame.mat);
      }
    }

    /** `GetProgress()`: -1 for a webcam, frames over length otherwise. */
    function GetProgress(): (p: Progress)
      reads this
      requires Valid()
      ensures p.Live? <==> isWebcam
      ensures p.Fraction? ==> p.frames == frameNum && p.length == vidLength
    {
      if vc != null && isWebcam then Live else Fraction(frameNum, vidLength)
    }

    /**
     * `isOpened()`: the capture's own flag, or for an image sequence whether
     * paths remain, which is whether fewer calls than paths were made.
     */
    function IsOpened(): (b: bool)
      reads this
      requires Valid()
      ensures vc != null ==> b == vc.isOpen
      ensures isImageSeq ==> (b <==> frameNum < vidLength)
    {
      if vc != null then vc.isOpen else isImageSeq && |imageFiles| > 0
    }

    /** `GetCurrentFrameGray()`: null until a frame of positive width has been seen. */
    function GetCurrentFrameGray(): (g: RawImage?)
      reads this
      requires Valid()
      ensures g == null <==> forall i :: 0 <= i < |delivered| ==> delivered[i].width == 0
      ensures g != latestFrame
    {
      grayFrame
    }

    /** `GetFPS()`: the file's reported rate; zero for the other origins. */
    function GetFPS(): (f: real)
      reads this
      requires Valid()
      ensures vc != null && !isWebcam ==> f == vc.fps
      ensures isWebcam || isImageSeq ==> f == 0.0
    {
      fps
    }
  }

  /**
   * An image sequence reaches full progress exactly when it stops reporting
   * itself open.
   */
  lemma ImageSequenceProgressAtEnd(c: Capture)
    requires c.Valid() && c.isImageSeq && c.vidLength > 0
    ensures c.GetProgress().Value() >= 1.0 <==> !c.IsOpened()
  {
  }

  /**
   * A caller polling any session `k` times: the counter advances by exactly
   * `k` whatever the reads deliver, so a webcam keeps reporting -1 and any
   * other session reports its new count over its unchanged length.
   */
  method Poll(c: Capture, k: nat, mirror: bool, imread: string -> Image)
    requires c.Valid()
    modifies c, c.latestFrame, c.grayFrame, c.vc
    ensures c.Valid()
    ensures c.frameNum == old(c.frameNum) + k
    ensures c.isWebcam == old(c.isWebcam) && c.vidLength == old(c.vidLength)
    ensures c.GetProgress() == if c.isWebcam then Live else Fraction(old(c.frameNum) + k, c.vidLength)
  {
    var n := 0;
    while n < k
      invariant 0 <= n <= k
      invariant c.Valid()
      invariant c.frameNum == old(c.frameNum) + n
      invariant c.isWebcam == old(c.isWebcam) && c.vidLength == old(c.vidLength)
      invariant c.latestFrame == old(c.latestFrame) && c.vc == old(c.vc)
      invariant c.grayFrame == old(c.grayFrame) || (c.grayFrame != null && fresh(c.grayFrame))
    {
      var _ := c.GetNextFrame(mirror, imread);
      n := n + 1;
    }
  }

  /**
   * The polling loop a caller runs over an image sequence: while the session
   * says it is open, take the next frame. The paths come back in input
   * order, one frame per path, and the call after the last returns the
   * empty signal with the session closed.
   */
  method PlayImageSequence(files: seq<string>, mirror: bool, imread: string -> Image)
    returns (frames: seq<Image>, last: Image, openAfter: bool)
    ensures |frames| == |files|
    ensures forall i :: 0 <= i < |files| ==>
              frames[i] == (if mirror then Flip(imread(files[i])) else imread(files[i]))
    ensures last == EmptyImage && !openAfter
  {
    var c := new Capture.ImageSequence(files);
    frames := [];
    while c.IsOpened()
      invariant c.Valid() && fresh(c) && fresh(c.latestFrame)
      invariant c.grayFrame != null ==> fresh(c.grayFrame)
      invariant c.vc == null && c.isImageSeq && c.playlist == files && c.vidLength == |files|
      invariant c.frameNum == |frames| <= |files|
      invariant forall i :: 0 <= i < |frames| ==>
                  frames[i] == (if mirror then Flip(imread(files[i])) else imread(files[i]))
      decreases |files| - c.frameNum
    {
      var f := c.GetNextFrame(mirror, imread);
      frames := frames + [f.mat];
    }
    var f := c.GetNextFrame(mirror, imread);
    last := f.mat;
    openAfter := c.IsOpened();
  }
}
