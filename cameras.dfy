/**
 * The resolution rule of `GetCameras`: each device's media types are sorted
 * into an MJPG set and an RGB24 set, the MJPG resolutions are listed, the
 * RGB24 ones only when there is no MJPG one, and a preview is captured once,
 * at the first listed resolution of at least 640 by 480.
 *
 * Device activation, format switching and frame capture are effects outside
 * the model; the preview is identified by the position, in the listed
 * resolutions, at which it was captured.
 */
module Cameras {
  import opened Outcomes

  datatype MediaFormat = MJPG | RGB24 | OtherFormat

  /**
   * A media type a device advertises. `rank` stands for the media type's
   * place under the device library's own ordering of media types; two media
   * types of equal rank compare equal in that ordering.
   */
  datatype MediaType = MediaType(width: int, height: int, format: MediaFormat, rank: int)

  datatype Resolution = Resolution(width: int, height: int)

  /** An element of a per-format set: `pair<pair<int, int>, media_type>`. */
  datatype Entry = Entry(width: int, height: int, rank: int)

  datatype Camera = Camera(name: string, mediaTypes: seq<MediaType>)

  /** One device of the listing: its name, its resolutions, and where the preview was taken. */
  datatype CameraInfo = CameraInfo(name: string, resolutions: seq<Resolution>, preview: Option<nat>)

  function EntryOf(m: MediaType): Entry
  {
    Entry(m.width, m.height, m.rank)
  }

  function ResolutionOf(e: Entry): Resolution
  {
    Resolution(e.width, e.height)
  }

  /** The set's ordering: by width, then height, then media type. */
  predicate Before(a: Entry, b: Entry)
  {
    || a.width < b.width
    || (a.width == b.width && a.height < b.height)
    || (a.width == b.width && a.height == b.height && a.rank < b.rank)
  }

  predicate StrictlyOrdered(s: seq<Entry>)
  {
    forall i, j :: 0 <= i < j < |s| ==> Before(s[i], s[j])
  }

  /** Ascending by width, then by height; equal resolutions may repeat. */
  predicate Ascending(rs: seq<Resolution>)
  {
    forall i, j :: 0 <= i < j < |rs| ==>
      rs[i].width < rs[j].width || (rs[i].width == rs[j].width && rs[i].height <= rs[j].height)
  }

  /** The preview threshold. */
  predicate Large(r: Resolution)
  {
    r.width >= 640 && r.height >= 480
  }

  /** The entries a format's set receives. */
  ghost function Offered(types: seq<MediaType>, f: MediaFormat): set<Entry>
  {
    set m | m in types && m.format == f :: EntryOf(m)
  }

  predicate HasFormat(types: seq<MediaType>, f: MediaFormat)
  {
    exists m :: m in types && m.format == f
  }

  /** `std::set::insert`: keeps the sequence ordered and adds `e` unless it is present. */
  function Insert(s: seq<Entry>, e: Entry): (r: seq<Entry>)
    requires StrictlyOrdered(s)
    ensures StrictlyOrdered(r)
    ensures forall x :: x in r <==> x in s || x == e
  {
    if s == [] then [e]
    else if s[0] == e then s
    else if Before(e, s[0]) then [e] + s
    else
      var tail := Insert(s[1..], e);
      assert forall x :: x in tail ==> Before(s[0], x);
      [s[0]] + tail
  }

  /**
   * The set one format's media types produce, in iteration order: the
   * ordered, duplicate-free sequence of exactly the offered entries.
   */
  function Partition(types: seq<MediaType>, f: MediaFormat): (r: seq<Entry>)
    ensures StrictlyOrdered(r)
    ensures forall e :: e in r <==> e in Offered(types, f)
  {
    if types == [] then []
    else
      var init := types[..|types| - 1];
      var last := types[|types| - 1];
      var rest := Partition(init, f);
      OfferedSnoc(init, last, f);
      if last.format == f then Insert(rest, EntryOf(last)) else rest
  }

  lemma OfferedSnoc(init: seq<MediaType>, last: MediaType, f: MediaFormat)
    ensures Offered(init + [last], f)
            == Offered(init, f) + (if last.format == f then {EntryOf(last)} else {})
  {
  }

  function Resolutions(s: seq<Entry>): (rs: seq<Resolution>)
    ensures |rs| == |s|
    ensures forall i :: 0 <= i < |s| ==> rs[i] == ResolutionOf(s[i])
  {
    if s == [] then [] else [ResolutionOf(s[0])] + Resolutions(s[1..])
  }

  /** The `found` flag's choice: the first listed resolution over the threshold. */
  function FirstLarge(rs: seq<Resolution>): (k: Option<nat>)
    ensures k.Some? ==> k.value < |rs| && Large(rs[k.value])
    ensures k.Some? ==> forall j :: 0 <= j < k.value ==> !Large(rs[j])
    ensures k.None? ==> forall j :: 0 <= j < |rs| ==> !Large(rs[j])
  {
    if rs == [] then None
    else if Large(rs[0]) then Some(0)
    else match FirstLarge(rs[1..])
      case None => None
      case Some(i) => Some(i + 1)
  }

  /** The device's entry in the listing, as a value. */
  function Describe(cam: Camera): CameraInfo
  {
    var mjpg := Partition(cam.mediaTypes, MJPG);
    var listed := if mjpg != [] then mjpg else Partition(cam.mediaTypes, RGB24);
    var rs := Resolutions(listed);
    CameraInfo(cam.name, rs, FirstLarge(rs))
  }

  /** The format whose resolutions a device's entry lists. */
  function ListedFormat(cam: Camera): MediaFormat
  {
    if HasFormat(cam.mediaTypes, MJPG) then MJPG else RGB24
  }

  // ---------------------------------------------------------------------
  // Properties of the listing

  /** MJPG is listed exactly when the device offers it; listing it never depends on RGB24. */
  lemma MjpgPreferred(cam: Camera)
    ensures HasFormat(cam.mediaTypes, MJPG) <==> Partition(cam.mediaTypes, MJPG) != []
  {
    var p := Partition(cam.mediaTypes, MJPG);
    if m :| m in cam.mediaTypes && m.format == MJPG {
      assert EntryOf(m) in Offered(cam.mediaTypes, MJPG);
      assert EntryOf(m) in p;
    }
    if p != [] {
      assert p[0] in Offered(cam.mediaTypes, MJPG);
    }
  }

  /**
   * The listed resolutions are those of the listed format's media types and
   * no other: every one comes from a media type of that format, and every
   * media type of that format is listed. The two formats are never mixed.
   */
  lemma {:induction false} DescribeListsOneFormat(cam: Camera)
    ensures var info := Describe(cam);
            forall r :: r in info.resolutions <==>
              exists m :: m in cam.mediaTypes && m.format == ListedFormat(cam)
                          && r == Resolution(m.width, m.height)
  {
    MjpgPreferred(cam);
    var info := Describe(cam);
    var f := ListedFormat(cam);
    var listed := Partition(cam.mediaTypes, f);
    assert info.resolutions == Resolutions(listed);
    forall r | r in info.resolutions
      ensures exists m :: m in cam.mediaTypes && m.format == f && r == Resolution(m.width, m.height)
    {
      var i :| 0 <= i < |info.resolutions| && info.resolutions[i] == r;
      assert listed[i] in Offered(cam.mediaTypes, f);
      var m :| m in cam.mediaTypes && m.format == f && EntryOf(m) == listed[i];
      assert r == Resolution(m.width, m.height);
    }
    forall m | m in cam.mediaTypes && m.format == f
      ensures Resolution(m.width, m.height) in info.resolutions
    {
      assert EntryOf(m) in Offered(cam.mediaTypes, f);
      var i :| 0 <= i < |listed| && listed[i] == EntryOf(m);
      assert info.resolutions[i] == Resolution(m.width, m.height);
    }
  }

  /** The listed resolutions ascend by width, then height, as the set iterates. */
  lemma DescribeAscending(cam: Camera)
    ensures Ascending(Describe(cam).resolutions)
  {
  }

  /**
   * The sets collapse duplicates of the whole (resolution, media type) pair
   * only: two media types of the listed format with the same resolution but
   * different places in the media-type order list that resolution twice.
   */
  lemma DuplicateResolutionsKept(cam: Camera, a: MediaType, b: MediaType)
    requires a in cam.mediaTypes && b in cam.mediaTypes
    requires a.format == b.format == ListedFormat(cam)
    requires a.width == b.width && a.height == b.height && a.rank != b.rank
    ensures var rs := Describe(cam).resolutions;
            exists i, j :: 0 <= i < j < |rs| && rs[i] == rs[j] == Resolution(a.width, a.height)
  {
    MjpgPreferred(cam);
    var f := ListedFormat(cam);
    var listed := Partition(cam.mediaTypes, f);
    var rs := Describe(cam).resolutions;
    assert rs == Resolutions(listed);
    assert EntryOf(a) in Offered(cam.mediaTypes, f) && EntryOf(b) in Offered(cam.mediaTypes, f);
    var i :| 0 <= i < |listed| && listed[i] == EntryOf(a);
    var j :| 0 <= j < |listed| && listed[j] == EntryOf(b);
    assert rs[i] == rs[j] == Resolution(a.width, a.height);
    if i < j {
      assert 0 <= i < j < |rs|;
    } else {
      assert 0 <= j < i < |rs|;
    }
  }

  /**
   * The listed resolutions are pairwise distinct as (resolution, media type)
   * pairs: a listed resolution appears once per media type offering it.
   */
  lemma {:induction false} ListedEntriesDistinct(cam: Camera)
    ensures var f := ListedFormat(cam);
            |Describe(cam).resolutions| == |Offered(cam.mediaTypes, f)|
  {
    MjpgPreferred(cam);
    var f := ListedFormat(cam);
    var listed := Partition(cam.mediaTypes, f);
    OrderedCardinality(listed);
    assert (set e | e in listed) == Offered(cam.mediaTypes, f);
  }

  lemma {:induction false} OrderedCardinality(s: seq<Entry>)
    requires StrictlyOrdered(s)
    ensures |set e | e in s| == |s|
  {
    if s != [] {
      OrderedCardinality(s[1..]);
      assert (set e | e in s) == (set e | e in s[1..]) + {s[0]};
      assert s[0] !in s[1..] by {
        forall k | 0 <= k < |s[1..]| ensures s[1..][k] != s[0] {
          assert Before(s[0], s[k + 1]);
        }
      }
    }
  }

  /** A preview is taken at most once, at the first listed resolution of at least 640x480. */
  lemma DescribePreview(cam: Camera)
    ensures var info := Describe(cam);
            && (info.preview.Some? ==>
                  && info.preview.value < |info.resolutions|
                  && Large(info.resolutions[info.preview.value])
                  && forall j :: 0 <= j < info.preview.value ==> !Large(info.resolutions[j]))
            && (info.preview.None? <==> forall r :: r in info.resolutions ==> !Large(r))
  {
  }

  /**
   * A device offering MJPG at 320x240, 640x480 and 1280x720 lists all three
   * in ascending order and takes its preview at 640x480.
   */
  lemma {:induction false} MjpgOnlyExample()
    ensures var types := [MediaType(1280, 720, MJPG, 0), MediaType(320, 240, MJPG, 0),
                          MediaType(640, 480, MJPG, 0)];
            Describe(Camera("cam", types))
              == CameraInfo("cam", [Resolution(320, 240), Resolution(640, 480), Resolution(1280, 720)], Some(1))
  {
    var types := [MediaType(1280, 720, MJPG, 0), MediaType(320, 240, MJPG, 0),
                  MediaType(640, 480, MJPG, 0)];
    assert types[..2][..1] == [types[0]] && types[..1][..0] == [];
    assert types[..2] == [types[0], types[1]];
    assert Partition(types[..1], MJPG) == [Entry(1280, 720, 0)];
    assert Partition(types[..2], MJPG) == [Entry(320, 240, 0), Entry(1280, 720, 0)];
    assert Insert([Entry(1280, 720, 0)], Entry(640, 480, 0)) == [Entry(640, 480, 0), Entry(1280, 720, 0)];
    assert [Entry(320, 240, 0), Entry(1280, 720, 0)][1..] == [Entry(1280, 720, 0)];
    assert Partition(types, MJPG) == [Entry(320, 240, 0), Entry(640, 480, 0), Entry(1280, 720, 0)];
    var rs := [Resolution(320, 240), Resolution(640, 480), Resolution(1280, 720)];
    assert Resolutions(Partition(types, MJPG)) == rs;
    assert FirstLarge(rs[2..]) == Some(0);
    assert FirstLarge(rs[1..]) == Some(0);
  }

  /**
   * A device with no MJPG media type lists its RGB24 resolutions only; a
   * media type of another format contributes nothing.
   */
  lemma {:induction false} RgbFallbackExample()
    ensures var types := [MediaType(800, 600, OtherFormat, 0), MediaType(640, 480, RGB24, 0)];
            Describe(Camera("cam", types)) == CameraInfo("cam", [Resolution(640, 480)], Some(0))
  {
    var types := [MediaType(800, 600, OtherFormat, 0), MediaType(640, 480, RGB24, 0)];
    assert types[..1] == [types[0]] && types[..1][..0] == [];
    assert Partition(types[..1], MJPG) == [];
    assert Partition(types, MJPG) == [];
    assert Partition(types[..1], RGB24) == [];
    assert Partition(types, RGB24) == [Entry(640, 480, 0)];
  }

  // ---------------------------------------------------------------------
  // The enumeration loops

  /**
   * One device's pass of `GetCameras`: sort the media types into the two
   * sets, list the MJPG resolutions, fall back to RGB24 when none were
   * listed, and take the preview at the first large resolution.
   */
  method ProbeCamera(cam: Camera) returns (info: CameraInfo)
    ensures info == Describe(cam)
  {
    var types := cam.mediaTypes;
    var mjpg: seq<Entry> := [];
    var rgb: seq<Entry> := [];
    for m := 0 to |types|
      invariant mjpg == Partition(types[..m], MJPG)
      invariant rgb == Partition(types[..m], RGB24)
    {
      assert types[..m + 1][..m] == types[..m];
      var t := types[m];
      if t.format == MJPG {
        mjpg := Insert(mjpg, EntryOf(t));
      } else if t.format == RGB24 {
        rgb := Insert(rgb, EntryOf(t));
      }
    }
    assert types[..|types|] == types;

    var resolutions: seq<Resolution> := [];
    var preview: Option<nat> := None;
    var found := false;
    for k := 0 to |mjpg|
      invariant resolutions == Resolutions(mjpg[..k])
      invariant preview == FirstLarge(resolutions)
      invariant found <==> preview.Some?
    {
      var r := ResolutionOf(mjpg[k]);
      resolutions := resolutions + [r];
      if Large(r) && !found {
        found := true;
        preview := Some(k);
      }
      FirstLargeSnoc(resolutions[..k], r);
      assert resolutions[..k] == Resolutions(mjpg[..k]);
      assert mjpg[..k + 1] == mjpg[..k] + [mjpg[k]];
      ResolutionsSnoc(mjpg[..k], mjpg[k]);
    }
    assert mjpg[..|mjpg|] == mjpg;

    if |resolutions| == 0 {
      for k := 0 to |rgb|
        invariant resolutions == Resolutions(rgb[..k])
        invariant preview == FirstLarge(resolutions)
        invariant found <==> preview.Some?
      {
        var r := ResolutionOf(rgb[k]);
        resolutions := resolutions + [r];
        if Large(r) && !found {
          found := true;
          preview := Some(k);
        }
        FirstLargeSnoc(resolutions[..k], r);
        assert resolutions[..k] == Resolutions(rgb[..k]);
        assert rgb[..k + 1] == rgb[..k] + [rgb[k]];
        ResolutionsSnoc(rgb[..k], rgb[k]);
      }
      assert rgb[..|rgb|] == rgb;
    }
    info := CameraInfo(cam.name, resolutions, preview);
  }

  lemma {:induction false} ResolutionsSnoc(s: seq<Entry>, e: Entry)
    ensures Resolutions(s + [e]) == Resolutions(s) + [ResolutionOf(e)]
  {
  }

  lemma FirstLargeSnoc(rs: seq<Resolution>, r: Resolution)
    ensures FirstLarge(rs + [r]) ==
              if FirstLarge(rs).Some? then FirstLarge(rs)
              else if Large(r) then Some(|rs|) else None
  {
    var k := FirstLarge(rs + [r]);
    assert forall j :: 0 <= j < |rs| ==> (rs + [r])[j] == rs[j];
    assert (rs + [r])[|rs|] == r;
  }

  /** The whole listing, as a value: one reference entry per device, in order. */
  function DescribeAll(cameras: seq<Camera>): (listing: seq<CameraInfo>)
    ensures |listing| == |cameras|
  {
    if cameras == [] then []
    else DescribeAll(cameras[..|cameras| - 1]) + [Describe(cameras[|cameras| - 1])]
  }

  lemma {:induction false} DescribeAllAt(cameras: seq<Camera>, i: nat)
    requires i < |cameras|
    ensures DescribeAll(cameras)[i] == Describe(cameras[i])
  {
    if i < |cameras| - 1 {
      var init := cameras[..|cameras| - 1];
      DescribeAllAt(init, i);
      assert init[i] == cameras[i];
    }
  }

  /** `GetCameras()`: one entry per device, in enumeration order. */
  method GetCameras(cameras: seq<Camera>) returns (listing: seq<CameraInfo>)
    ensures listing == DescribeAll(cameras)
    ensures |listing| == |cameras|
    ensures forall i :: 0 <= i < |cameras| ==> listing[i] == Describe(cameras[i])
  {
    listing := [];
    for i := 0 to |cameras|
      invariant listing == DescribeAll(cameras[..i])
    {
      var info := ProbeCamera(cameras[i]);
      listing := listing + [info];
      assert cameras[..i + 1][..i] == cameras[..i];
    }
    assert cameras[..|cameras|] == cameras;
    forall i | 0 <= i < |cameras| ensures listing[i] == Describe(cameras[i]) {
      DescribeAllAt(cameras, i);
    }
  }
}
