# Camera interop capture layer, modelled in Dafny

This project models the decision logic of `Camera_Interop.h`, the C++/CLI layer that gives a managed host one frame-source object, `Capture`, and a camera listing, `GetCameras`.

- **`Capture` session** (`capture.dfy`, module `Session`). A session comes from one of three origins: a webcam at a requested resolution, a video file, or a list of image files. `GetNextFrame` first counts the call. It then reads a frame from the OpenCV capture, or decodes the path at the front of the list and removes it. When nothing is obtained, it returns the colour buffer emptied; this is the "exhausted" signal. Otherwise it allocates the grey buffer once, mirrors the frame if asked, and converts it into the grey buffer. `GetProgress`, `isOpened`, `GetCurrentFrameGray` and `GetFPS` only read this state.
- **The class keeps the source's fields.** A ghost invariant `Valid()` records what the constructors and `GetNextFrame` maintain:
  - exactly one backing store, either a capture or a path list;
  - the paths are consumed front to back, one per call;
  - the grey buffer exists exactly when some obtained frame had a positive width.
- **Constructors that throw.** In the source, the webcam and video constructors throw `CaptureFailedException`. Here each is a constructor, which does the field assignments, plus a static factory (`OpenWebcam`, `OpenVideo`) that returns `Failure(...)` where the source throws.
- **Backend** (`backend.dfy`). OpenCV's `VideoCapture` is a stand-in class that holds data:
  - whether it opened;
  - the frame rate, frame count and frame size it reports;
  - how it answers a resolution request;
  - the script of outcomes its successive reads give. A failed read is `None`.

  Image decoding (`imread`) is a function passed to `GetNextFrame`.
- **Frames** (`frames.dfy`). A frame is a width, a height and an opaque pixel description. Mirroring and grey conversion show up in that description, but nothing is claimed about pixel values.
- **`GetCameras`** (`cameras.dfy`, module `Cameras`).
  - Each device's media types are split into an MJPG set and an RGB24 set. Each set holds ordered, unique `(resolution, media type)` pairs.
  - The MJPG resolutions are listed. The RGB24 set is consulted only when the MJPG list is empty.
  - The preview is taken once, at the first listed resolution of at least 640x480.
  - `Describe` is the reference definition. `ProbeCamera` and `GetCameras` are the source's loops, proved equal to it.

The model keeps these behaviours of the header:
- The sets remove duplicates of the whole `(resolution, media type)` pair, not of the resolution alone. One resolution offered by two MJPG media types is therefore listed twice (`DuplicateResolutionsKept`).
- An empty image sequence divides 0 by 0 in `GetProgress`. No sentinel value is substituted.
- Disposal is not idempotent.
- A failing device probe is not isolated from the other devices.

## Model

| member | source | states |
|---|---|---|
| `Session.Capture.Webcam` | lib/local/CLM_Interop/Camera_Interop.h:64-85 | The webcam session starts with `frame_num = 0` and `vid_length = 0`. It is flagged as a webcam, owns the capture built for the device, and records the requested size. `fps` keeps its zero default. The capture has been asked for the requested resolution. |
| `Session.Capture.OpenWebcam` | lib/local/CLM_Interop/Camera_Interop.h:64-94 | Fails with "not opened" when the capture did not open. Otherwise it fails with "resolution" when the reported width or height differs from the request. It succeeds exactly when neither failure applies, with a fresh valid webcam session. |
| `Session.Capture.Video` | lib/local/CLM_Interop/Camera_Interop.h:96-108 | The file session takes its frame rate, frame size and length from what the capture reports just after opening, and starts at frame 0. |
| `Session.Capture.OpenVideo` | lib/local/CLM_Interop/Camera_Interop.h:96-114 | Fails exactly when the file's capture did not open. On success it returns a fresh valid file session. |
| `Session.Capture.ImageSequence` | lib/local/CLM_Interop/Camera_Interop.h:117-131 | The paths are stored in input order and `vid_length` is their number. The session has no capture, is flagged as an image sequence, and keeps zero defaults for `frame_num`, `fps`, `width` and `height`. |
| `Session.Capture.GetNextFrame` | lib/local/CLM_Interop/Camera_Interop.h:226-276 | Every call raises `frame_num` by exactly one. A capture consumes one read. An image list loses exactly its front path, or stays unchanged when empty. When nothing is obtained, the colour buffer is emptied and the grey buffer is neither allocated nor touched. Otherwise the colour buffer holds the frame, mirrored if asked. The grey buffer is then allocated only if missing and the frame has a positive width. Once it exists it is never replaced, and it holds the grey conversion of the colour buffer, with the same size. The invariant `Valid()` is preserved. |
| `Session.Capture.RefreshBuffers` | lib/local/CLM_Interop/Camera_Interop.h:259-275 | The success-path tail. The grey buffer is allocated once, and only for a frame of positive width. The colour buffer is mirrored on request. The grey buffer holds the conversion of the final colour buffer. |
| `Session.Capture.GetProgress` | lib/local/CLM_Interop/Camera_Interop.h:278-288 | Reports -1 exactly for a webcam session, because under the invariant every webcam session has a capture. Otherwise it reports the frame count over the length. |
| `Session.Progress.Value` | lib/local/CLM_Interop/Camera_Interop.h:278-288 | The reported double is -1 for a webcam. For any non-zero length it is the frame count divided by the length, with no clamping. For a positive length it is at least 1 exactly when the count has reached the length, and it is never negative for a non-negative count. |
| `Session.Capture.IsOpened` | lib/local/CLM_Interop/Camera_Interop.h:290-301 | With a capture, it is the capture's own open flag. For an image sequence it is true exactly while fewer calls than paths have been made. |
| `Session.Capture.GetCurrentFrameGray` | lib/local/CLM_Interop/Camera_Interop.h:303-305 | Null exactly until a frame of positive width has been obtained. Never the colour buffer. |
| `Session.Capture.GetFPS` | lib/local/CLM_Interop/Camera_Interop.h:307-309 | For a file session, the file's reported frame rate. For a webcam or an image sequence, the zero default. |
| `Session.ImageSequenceProgressAtEnd` | lib/local/CLM_Interop/Camera_Interop.h:278-301 | A non-empty image sequence reaches progress 1 exactly when it stops reporting itself open. |
| `Session.Poll` | lib/local/CLM_Interop/Camera_Interop.h:226-288 | After `k` calls, the count has advanced by exactly `k`, whatever the reads delivered. A webcam still reports -1. Any other session reports the new count over its unchanged length. |
| `Session.PlayImageSequence` | lib/local/CLM_Interop/Camera_Interop.h:226-301 | Polling an image sequence of N paths while it reports itself open yields exactly N frames, in input order, each the decoded path (mirrored if asked). The next call returns the empty frame, and the session is then closed. |
| `Backend.VideoCapture.Read` | lib/local/CLM_Interop/Camera_Interop.h:233 | A read delivers the next scripted outcome only while the capture is open, and consumes exactly that outcome. |
| `Backend.VideoCapture.RequestSize` | lib/local/CLM_Interop/Camera_Interop.h:71-72 | After a size request, the reported size is whatever the device settles on for that request. |
| `Frames.RawImage.constructor` | lib/local/CLM_Interop/Camera_Interop.h:68 | Library stand-in for the managed image wrapper that each constructor creates: a new wrapper holds the empty matrix. |
| `Frames.RawImage.Sized` | lib/local/CLM_Interop/Camera_Interop.h:261 | Library stand-in for allocating the grey buffer: a new single-channel wrapper of the given width and height. |
| `Backend.VideoCapture.constructor` | lib/local/CLM_Interop/Camera_Interop.h:70 | Library stand-in for opening a capture on a device or a file: the new capture holds exactly the open flag, reported properties, resolution answer and read script it is given. |
| `Cameras.Insert` | lib/local/CLM_Interop/Camera_Interop.h:165-169 | Inserting into an ordered set keeps it strictly ordered, and its elements become the old elements plus the new one. |
| `Cameras.Partition` | lib/local/CLM_Interop/Camera_Interop.h:154-171 | The set built for a format is strictly ordered by (width, height, media type). It holds exactly the `(resolution, media type)` pairs of that format's media types. |
| `Cameras.FirstLarge` | lib/local/CLM_Interop/Camera_Interop.h:173-191 | The `found` flag's choice is the first position whose resolution is at least 640x480. There is no choice exactly when no such position exists. |
| `Cameras.MjpgPreferred` | lib/local/CLM_Interop/Camera_Interop.h:194-197 | The MJPG list is non-empty exactly when the device offers an MJPG media type, so RGB24 is consulted only when none is offered. |
| `Cameras.DescribeListsOneFormat` | lib/local/CLM_Interop/Camera_Interop.h:175-217 | The listed resolutions are exactly those of the listed format's media types. That format is MJPG if any MJPG media type exists, else RGB24. The two formats are never mixed. |
| `Cameras.DescribeAscending` | lib/local/CLM_Interop/Camera_Interop.h:154-178 | The listed resolutions ascend by width, then by height. |
| `Cameras.DuplicateResolutionsKept` | lib/local/CLM_Interop/Camera_Interop.h:154-178 | Two listed-format media types with the same resolution and different media types list that resolution twice. |
| `Cameras.ListedEntriesDistinct` | lib/local/CLM_Interop/Camera_Interop.h:154-178 | There is one listed resolution per distinct `(resolution, media type)` pair of the listed format. |
| `Cameras.DescribePreview` | lib/local/CLM_Interop/Camera_Interop.h:173-216 | A preview is taken at most once, at the first listed resolution of at least 640x480. There is no preview exactly when no listed resolution qualifies. |
| `Cameras.MjpgOnlyExample` | lib/local/CLM_Interop/Camera_Interop.h:154-192 | MJPG media types at 1280x720, 320x240 and 640x480 list as 320x240, 640x480, 1280x720, with the preview at 640x480. |
| `Cameras.RgbFallbackExample` | lib/local/CLM_Interop/Camera_Interop.h:194-217 | With no MJPG media type, only RGB24 resolutions are listed, and a media type of another format contributes nothing. |
| `Cameras.ProbeCamera` | lib/local/CLM_Interop/Camera_Interop.h:145-221 | The per-device loops produce exactly the reference listing `Describe`: the partition loop, the MJPG loop with its `found` flag, and the RGB24 fallback loop. |
| `Cameras.GetCameras` | lib/local/CLM_Interop/Camera_Interop.h:133-224 | One listing per device, in enumeration order, each equal to that device's reference listing. |

## Left out

- Pixel content is not modelled: decoding of image files, what the flip and the grey conversion do to pixels, and the copying of matrices. Frames are sizes with an opaque pixel description. In particular, nothing is claimed about mirroring twice.
- The grey conversion's own failures are not modelled. OpenCV rejects an empty or non-colour source, for example after an unreadable image file once the grey buffer exists; here the conversion always succeeds and keeps the source's size.
- Camera hardware is not modelled: the Media Foundation scope, device enumeration and activation, querying the device for its name, switching the media type, the five warm-up reads, the RGB24 path's reopening of the device by index, and the captured preview's pixels. A device is its name and its media types, and the preview is identified by its position in the resolution list.
- The ordering of media types within a set is abstracted as an integer `rank`. The device library's own comparison of media types is not part of this model.
- Managed interop is left out: string and list marshalling, and the exception class, which becomes the `CaptureFailed` error values.
- The finalizer and destructor are left out. They delete the capture and the path list without clearing the pointers, so repeated disposal is not safe in the source and is not claimed here.
- The values the capture reports are inputs, including the frame rate, frame count and frame size. Their conversion from doubles to integers happens before they enter the model.
- Session.Capture.GetNextFrame: `frame_num` is an unbounded integer. The source's 32-bit counter overflow after 2^31-1 calls is not modelled.
- Session.Progress.Value: progress is the pair (count, length), and its real quotient is defined only for a non-zero length. The 0/0 of an empty image sequence, which gives NaN in the source, and the infinities of other zero lengths are not modelled.
- Backend.VideoCapture.RequestSize: the source sets the width and then the height as two separate property writes. They are modelled as one request that the device answers as a whole.
- A capture's open flag is fixed for its lifetime, so a device that closes mid-stream is not modelled. Its reads can still fail at any point, as the read script dictates.
- For a session without a path list, the source leaves the list pointer null. Here that list is the empty sequence.
- The public `width` and `height` fields are modelled as fields. Nothing in the source updates them after construction.
