/** The archiver of CAM2ImageArchiver/CAM2ImageArchiver.py: turning camera
    objects into cameras, spreading them over camera handlers, and turning a
    manifest of camera URLs into camera descriptors.

    Camera objects are Python dicts; they are maps from key to value here.
    The file system (the manifest's existence, the result path's
    writability, the manifest's rows, the result directories) is given as
    inputs, and starting and joining the handler processes is not modelled:
    `Archive` returns the handlers it would start, in start order. */
module Archiver {
  import opened Wrappers
  import opened Text
  import opened Sharding

  /** A value in a camera object: a string or an integer. */
  datatype Value = Str(s: string) | Int(i: int)

  /** A camera object of the CAM2 camera API, or a descriptor built from a
      manifest row: a dict from key to value. */
  type CameraObject = map<string, Value>

  /** The three archiver camera kinds, with the fields each is built from. */
  datatype Camera =
    | IPCamera(id: Value, ip: Value, imagePath: Value, videoPath: Value, port: Value)
    | NonIPCamera(id: Value, snapshotUrl: Value)
    | StreamCamera(id: Value, m3u8Url: Value)

  /** The exceptions raised: the two `IOError`s of `retrieve_csv`, the
      `IndexError` of an empty manifest row, the `KeyError` of a camera object
      without a key it needs, and the error raised for an unknown camera type. */
  datatype ArchiveError =
    | ManifestMissing
    | ResultPathUnwritable
    | EmptyRow
    | MissingKey(key: string)
    | UnknownCameraType

  /** One camera handler `archive` starts: its cameras, its chunk number and
      the settings it is given. */
  datatype HandlerLaunch = HandlerLaunch(
    cameras: seq<Camera>, chunk: nat, duration: int, interval: int,
    resultPath: string, removeAfterFailure: bool, removeDuplicatesThreshold: int)

  // ---------------------------------------------------------------------
  // Camera objects

  /** `cam[key]`. */
  function Get(cam: CameraObject, key: string): (r: Result<Value, ArchiveError>)
    ensures r.Success? <==> key in cam
    ensures r.Success? ==> r.value == cam[key]
    ensures r.Failure? ==> r.error == MissingKey(key)
  {
    if key in cam then Success(cam[key]) else Failure(MissingKey(key))
  }

  /** `__get_camera_from_object`: the camera type picks the kind, then the
      kind's fields are looked up from left to right; the first missing key
      raises. */
  function CameraFromObject(cam: CameraObject): (r: Result<Camera, ArchiveError>)
    ensures r.Success? ==> "camera_type" in cam && KindOf(r.value) == cam["camera_type"]
    ensures r.Failure? ==> r.error == UnknownCameraType || (r.error.MissingKey? && r.error.key !in cam)
  {
    var kind :- Get(cam, "camera_type");
    if kind == Str("ip") then
      var id :- Get(cam, "cameraID");
      var ip :- Get(cam, "ip");
      var imagePath :- Get(cam, "image_path");
      var videoPath :- Get(cam, "video_path");
      var port :- Get(cam, "port");
      Success(IPCamera(id, ip, imagePath, videoPath, port))
    else if kind == Str("non_ip") then
      var id :- Get(cam, "cameraID");
      var url :- Get(cam, "snapshot_url");
      Success(NonIPCamera(id, url))
    else if kind == Str("stream") then
      var id :- Get(cam, "cameraID");
      var url :- Get(cam, "m3u8_url");
      Success(StreamCamera(id, url))
    else
      Failure(UnknownCameraType)
  }

  /** The keys each camera type is read from, in the order they are read. */
  function KindFields(kind: Value): Option<seq<string>> {
    if kind == Str("ip") then Some(["cameraID", "ip", "image_path", "video_path", "port"])
    else if kind == Str("non_ip") then Some(["cameraID", "snapshot_url"])
    else if kind == Str("stream") then Some(["cameraID", "m3u8_url"])
    else None
  }

  /** The camera type a camera was built for. */
  function KindOf(c: Camera): Value {
    match c
    case IPCamera(_, _, _, _, _) => Str("ip")
    case NonIPCamera(_, _) => Str("non_ip")
    case StreamCamera(_, _) => Str("stream")
  }

  /** The field values of a camera, in the order of its kind's keys. */
  function FieldValues(c: Camera): seq<Value> {
    match c
    case IPCamera(id, ip, imagePath, videoPath, port) => [id, ip, imagePath, videoPath, port]
    case NonIPCamera(id, url) => [id, url]
    case StreamCamera(id, url) => [id, url]
  }

  /** The first of `keys` that `cam` lacks. */
  function FirstMissing(cam: CameraObject, keys: seq<string>): (r: Option<string>)
    ensures r.None? <==> forall i :: 0 <= i < |keys| ==> keys[i] in cam
    ensures r.Some? ==> exists i :: (0 <= i < |keys| && keys[i] == r.value && r.value !in cam &&
      forall j :: 0 <= j < i ==> keys[j] in cam)
  {
    if |keys| == 0 then None
    else if keys[0] !in cam then Some(keys[0])
    else
      var r := FirstMissing(cam, keys[1..]);
      assert forall i :: 0 < i < |keys| ==> keys[i] == keys[1..][i - 1];
      r
  }

  /** The three camera types map to their own kind, each built from the keys
      listed for it, in that order; the first of those keys that is missing
      raises `KeyError`, and any other camera type raises, with no default
      kind to fall back on. */
  lemma CameraFromObjectSpec(cam: CameraObject)
    ensures "camera_type" !in cam ==> CameraFromObject(cam) == Failure(MissingKey("camera_type"))
    ensures "camera_type" in cam && KindFields(cam["camera_type"]).None? ==>
      CameraFromObject(cam) == Failure(UnknownCameraType)
    ensures "camera_type" in cam && KindFields(cam["camera_type"]).Some? ==>
      var keys := KindFields(cam["camera_type"]).value;
      && (FirstMissing(cam, keys).Some? ==> CameraFromObject(cam) == Failure(MissingKey(FirstMissing(cam, keys).value)))
      && (FirstMissing(cam, keys).None? ==>
            && CameraFromObject(cam).Success?
            && KindOf(CameraFromObject(cam).value) == cam["camera_type"]
            && FieldValues(CameraFromObject(cam).value) == seq(|keys|, i requires 0 <= i < |keys| => cam[keys[i]]))
  {
    if "camera_type" in cam && KindFields(cam["camera_type"]).Some? {
      var keys := KindFields(cam["camera_type"]).value;
      assert keys[0] == "cameraID" && keys[1] in keys;
      if |keys| == 5 {
        assert keys[2] == "image_path" && keys[3] == "video_path" && keys[4] == "port";
      }
      if FirstMissing(cam, keys).Some? {
        var m := FirstMissing(cam, keys).value;
        var i :| 0 <= i < |keys| && keys[i] == m && m !in cam && forall j :: 0 <= j < i ==> keys[j] in cam;
      }
    }
  }

  /** `[self.__get_camera_from_object(cam) for cam in camObjects]`: the objects
      are converted in order, and the first that fails stops the conversion. */
  function ConvertAll(objs: seq<CameraObject>): (r: Result<seq<Camera>, ArchiveError>)
    ensures r.Success? ==> |r.value| == |objs|
    ensures r.Failure? ==> r.error == UnknownCameraType || r.error.MissingKey?
  {
    if |objs| == 0 then Success([])
    else
      var cams :- ConvertAll(objs[..|objs| - 1]);
      var c :- CameraFromObject(objs[|objs| - 1]);
      Success(cams + [c])
  }

  /** Converting succeeds exactly when every object converts, and then gives
      their cameras in order; otherwise it fails with the error of the first
      object that does not convert. */
  lemma {:induction false} ConvertAllSpec(objs: seq<CameraObject>)
    ensures ConvertAll(objs).Success? <==> forall i :: 0 <= i < |objs| ==> CameraFromObject(objs[i]).Success?
    ensures ConvertAll(objs).Success? ==>
      && |ConvertAll(objs).value| == |objs|
      && forall i :: 0 <= i < |objs| ==> ConvertAll(objs).value[i] == CameraFromObject(objs[i]).value
    ensures ConvertAll(objs).Failure? ==> exists i :: (
      && 0 <= i < |objs|
      && CameraFromObject(objs[i]) == Failure(ConvertAll(objs).error)
      && forall j :: 0 <= j < i ==> CameraFromObject(objs[j]).Success?)
  {
    if |objs| > 0 {
      var init := objs[..|objs| - 1];
      ConvertAllSpec(init);
      assert forall i :: 0 <= i < |init| ==> init[i] == objs[i];
    }
  }

  // ---------------------------------------------------------------------
  // Manifest rows

  /** `url.split(".")[-1]`: the text after the last dot, or the whole URL
      when it has no dot. */
  function LastDotSegment(url: string): (seg: string)
    ensures '.' !in seg
  {
    SplitSpec(url, '.');
    var parts := Split(url, '.');
    parts[|parts| - 1]
  }

  /** The last dot segment is the longest dot-free end of the URL: it is a
      suffix without a dot, and either it is the whole URL or a dot stands
      right before it. */
  lemma {:induction false} LastDotSegmentSpec(url: string)
    ensures var seg := LastDotSegment(url);
      && |seg| <= |url| && seg == url[|url| - |seg|..] && '.' !in seg
      && (|seg| == |url| || url[|url| - |seg| - 1] == '.')
  {
    if |url| > 0 {
      var tail := url[1..];
      LastDotSegmentSpec(tail);
      var rest := Split(tail, '.');
      var seg := LastDotSegment(url);
      var seg' := LastDotSegment(tail);
      SplitOnePieceIff(tail, '.');
      if url[0] != '.' && |rest| == 1 {
        assert seg == [url[0]] + seg';
        assert url == [url[0]] + tail;
      } else {
        assert seg == seg';
        assert tail[|tail| - |seg|..] == url[|url| - |seg|..];
        if |seg| < |tail| {
          assert url[|url| - |seg| - 1] == tail[|tail| - |seg| - 1];
        }
      }
    }
  }

  /** A manifest URL is a stream exactly when its last dot segment is `m3u8`:
      when it ends in `.m3u8` or is `m3u8` itself. A query string after the
      extension makes it a snapshot URL. */
  lemma StreamUrlIff(url: string)
    ensures LastDotSegment(url) == "m3u8" <==> url == "m3u8" || (|url| >= 5 && url[|url| - 5..] == ".m3u8")
  {
    LastDotSegmentSpec(url);
    var seg := LastDotSegment(url);
    if url == "m3u8" {
      SplitWithoutSeparator(url, '.');
    } else if |url| >= 5 && url[|url| - 5..] == ".m3u8" {
      var front := url[..|url| - 5];
      assert url == front + ['.'] + "m3u8";
      SplitConcat(front, "m3u8", '.');
      SplitWithoutSeparator("m3u8", '.');
    }
    if seg == "m3u8" && |url| != 4 {
      assert url[|url| - 5..] == [url[|url| - 5]] + seg;
    }
  }

  /** An example: the query string hides the extension. */
  lemma QueryStringIsSnapshot()
    ensures LastDotSegment("a.m3u8?x=1") != "m3u8"
  {
    StreamUrlIff("a.m3u8?x=1");
    assert "a.m3u8?x=1"[5..] != ".m3u8" by {
      assert "a.m3u8?x=1"[5..][0] == '8';
    }
  }

  /** The descriptor `retrieve_csv` builds for the manifest row whose first
      cell is `url`, numbered `id`. */
  function CsvDescriptor(url: string, id: int): (d: CameraObject)
    ensures d.Keys == {"type", "id", if LastDotSegment(url) == "m3u8" then "m3u8_url" else "snapshot_url"}
  {
    if LastDotSegment(url) == "m3u8" then map["type" := Str("stream"), "id" := Int(id), "m3u8_url" := Str(url)]
    else map["type" := Str("non_ip"), "id" := Int(id), "snapshot_url" := Str(url)]
  }

  /** A descriptor is tagged `stream` with the URL under `m3u8_url` exactly
      when the URL's last dot segment is `m3u8`, and `non_ip` with the URL
      under `snapshot_url` otherwise; it carries its number under `id`. */
  lemma CsvDescriptorSpec(url: string, id: int)
    ensures CsvDescriptor(url, id)["id"] == Int(id)
    ensures CsvDescriptor(url, id)["type"] == Str("stream") <==> url == "m3u8" || (|url| >= 5 && url[|url| - 5..] == ".m3u8")
    ensures CsvDescriptor(url, id)["type"] == Str("stream") ==> CsvDescriptor(url, id)["m3u8_url"] == Str(url)
    ensures CsvDescriptor(url, id)["type"] != Str("stream") ==>
      CsvDescriptor(url, id)["type"] == Str("non_ip") && CsvDescriptor(url, id)["snapshot_url"] == Str(url)
  {
    StreamUrlIff(url);
  }

  /** The descriptors `retrieve_csv` builds carry `type` and `id`, while
      `__get_camera_from_object` reads `camera_type` and `cameraID`: handed to
      `archive`, every one of them raises `KeyError: 'camera_type'`. */
  lemma CsvDescriptorNotACameraObject(url: string, id: int)
    ensures CameraFromObject(CsvDescriptor(url, id)) == Failure(MissingKey("camera_type"))
  {
    assert "camera_type" !in CsvDescriptor(url, id);
  }

  /** What `retrieve_csv` ends with: nothing when the manifest has no rows,
      otherwise a call of `archive` on the descriptors with these settings. */
  datatype CsvOutcome =
    | NothingToArchive
    | ArchiveRequested(cams: seq<CameraObject>, duration: int, interval: int, resultPath: string, removeAfterFailure: bool)

  /** The result path `archive` uses: the one given, or the archiver's own
      when none is given. */
  function EffectivePath(given: Option<string>, configured: string): (path: string)
    ensures given.None? ==> path == configured
    ensures given.Some? ==> path == given.value
  {
    if given.None? then configured else given.value
  }

  // ---------------------------------------------------------------------
  // The archiver

  class ImageArchiver {
    const numProcesses: int
    const resultPath: string
    const removeDuplicatesThreshold: int

    /** `CAM2ImageArchiver(num_processes=1, result_path='results/',
        remove_duplicates_threshold=10)`. */
    constructor (numProcesses: int := 1, resultPath: string := "results/", removeDuplicatesThreshold: int := 10)
      ensures this.numProcesses == numProcesses && this.resultPath == resultPath
      ensures this.removeDuplicatesThreshold == removeDuplicatesThreshold
    {
      this.numProcesses := numProcesses;
      this.resultPath := resultPath;
      this.removeDuplicatesThreshold := removeDuplicatesThreshold;
    }

    /** `retrieve_csv`. A missing manifest is reported before an unwritable
        result path; an empty row raises; otherwise row `i` (from 0) becomes
        the descriptor numbered `i + 1`, and `archive` is called on them when
        there is at least one. */
    method RetrieveCsv(manifestExists: bool, resultPathWritable: bool, rows: seq<seq<string>>,
                       duration: int, interval: int, resultPath: string, removeAfterFailure: bool := true)
      returns (r: Result<CsvOutcome, ArchiveError>)
      ensures !manifestExists ==> r == Failure(ManifestMissing)
      ensures manifestExists && !resultPathWritable ==> r == Failure(ResultPathUnwritable)
      ensures manifestExists && resultPathWritable ==>
        && (r.Failure? <==> exists i :: 0 <= i < |rows| && rows[i] == [])
        && (r.Failure? ==> r.error == EmptyRow)
        && (r.Success? && |rows| == 0 ==> r.value == NothingToArchive)
      ensures r.Success? && |rows| > 0 ==>
        && r.value.ArchiveRequested?
        && |r.value.cams| == |rows|
        && (forall i :: 0 <= i < |rows| ==> |rows[i]| > 0 && r.value.cams[i] == CsvDescriptor(rows[i][0], i + 1))
        && r.value.duration == duration && r.value.interval == interval
        && r.value.resultPath == resultPath && r.value.removeAfterFailure == removeAfterFailure
    {
      if !manifestExists {
        return Failure(ManifestMissing);
      }
      if !resultPathWritable {
        return Failure(ResultPathUnwritable);
      }
      var id := 1;
      var cams: seq<CameraObject> := [];
      for k := 0 to |rows|
        invariant id == k + 1 && |cams| == k
        invariant forall i :: 0 <= i < k ==> |rows[i]| > 0 && cams[i] == CsvDescriptor(rows[i][0], i + 1)
      {
        if |rows[k]| == 0 {
          return Failure(EmptyRow);
        }
        var url := rows[k][0];
        var camera;
        if LastDotSegment(url) == "m3u8" {
          camera := map["type" := Str("stream"), "id" := Int(id), "m3u8_url" := Str(url)];
        } else {
          camera := map["type" := Str("non_ip"), "id" := Int(id), "snapshot_url" := Str(url)];
        }
        id := id + 1;
        cams := cams + [camera];
      }
      if |cams| > 0 {
        return Success(ArchiveRequested(cams, duration, interval, resultPath, removeAfterFailure));
      }
      return Success(NothingToArchive);
    }

    /** `archive`. The camera objects are converted in order (the first that
        fails raises); the cameras are split round robin over `numProcesses`
        shards, the empty shards are dropped, and one handler is started per
        remaining shard, numbered from 1 in shard order. */
    method Archive(camObjects: seq<CameraObject>, duration: int := 1, interval: int := 1,
                   resultPath: Option<string> := None, removeAfterFailure: bool := true)
      returns (r: Result<seq<HandlerLaunch>, ArchiveError>)
      ensures ConvertAll(camObjects).Failure? ==> r == Failure(ConvertAll(camObjects).error)
      ensures ConvertAll(camObjects).Success? ==>
        var cams := ConvertAll(camObjects).value;
        && r.Success?
        && |r.value| == ShardCount(numProcesses, |cams|)
        && forall j :: 0 <= j < |r.value| ==>
             && r.value[j].cameras != []
             && r.value[j] == HandlerLaunch(RoundRobin(cams, numProcesses)[j], j + 1, duration, interval,
                                           EffectivePath(resultPath, this.resultPath), removeAfterFailure,
                                           removeDuplicatesThreshold)
    {
      var path := if resultPath.None? then this.resultPath else resultPath.value;
      var cams: seq<Camera> := [];
      for k := 0 to |camObjects|
        invariant ConvertAll(camObjects[..k]) == Success(cams)
      {
        assert camObjects[..k + 1][..k] == camObjects[..k];
        var camera := CameraFromObject(camObjects[k]);
        if camera.Failure? {
          ConvertAllStops(camObjects, k + 1);
          return Failure(camera.error);
        }
        cams := cams + [camera.value];
      }
      assert camObjects[..|camObjects|] == camObjects;

      var cameraLists := NonEmpty(RoundRobin(cams, numProcesses));
      KeptShards(cams, numProcesses);
      var handlers: seq<HandlerLaunch> := [];
      var chunk := 0;
      for j := 0 to |cameraLists|
        invariant chunk == j && |handlers| == j
        invariant forall i :: 0 <= i < j ==>
          handlers[i] == HandlerLaunch(cameraLists[i], i + 1, duration, interval, path, removeAfterFailure,
                                       removeDuplicatesThreshold)
      {
        chunk := chunk + 1;
        var handler := HandlerLaunch(cameraLists[j], chunk, duration, interval, path, removeAfterFailure,
                                     removeDuplicatesThreshold);
        handlers := handlers + [handler];
      }
      r := Success(handlers);
    }
  }

  /** Once a prefix of the objects fails to convert, the whole list fails
      with the same error. */
  lemma {:induction false} ConvertAllStops(objs: seq<CameraObject>, k: nat)
    requires k <= |objs| && ConvertAll(objs[..k]).Failure?
    ensures ConvertAll(objs) == ConvertAll(objs[..k])
    decreases |objs|
  {
    if k < |objs| {
      var init := objs[..|objs| - 1];
      assert init[..k] == objs[..k];
      ConvertAllStops(init, k);
    } else {
      assert objs[..k] == objs;
    }
  }
}
