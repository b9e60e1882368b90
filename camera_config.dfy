/** camera/CameraConfig.java: the camera configuration, its builder and its capture requests. */
module CameraConfigs {
  import opened Wrappers
  import opened JavaInt
  import Preconditions
  import CameraUtils

  /** A preview or capture surface, by identity. */
  datatype Surface = Surface(id: nat)

  /** A CaptureRequest.Key and a value stored under it. */
  datatype Key = Key(name: string)
  datatype KeyValue = KeyValue(id: nat)

  /** What a Request hands to the Camera2 builder: template, target surface and key values. */
  datatype CaptureRequest = CaptureRequest(template: Int32, target: Surface, keys: map<Key, KeyValue>)

  /** CameraConfig.Request: a template and surface, and the keys set on it. */
  class Request {
    const surface: Surface
    const requestTemplate: Int32
    var requestKeys: map<Key, KeyValue>

    constructor (requestTemplate: Int32, surface: Surface)
      ensures this.requestTemplate == requestTemplate && this.surface == surface && requestKeys == map[]
    {
      this.requestTemplate := requestTemplate;
      this.surface := surface;
      requestKeys := map[];
    }

    /** The capture request built from this request's current state. */
    function Snapshot(): CaptureRequest
      reads this
    {
      CaptureRequest(requestTemplate, surface, requestKeys)
    }

    /** set(key, value): a null key, then a null value, is rejected; otherwise the value is put
        under the key, replacing any earlier one, and the request itself is returned. */
    method Set(key: Option<Key>, value: Option<KeyValue>) returns (r: Result<Request>)
      modifies this
      ensures key.None? ==> r == Throws(IllegalArgument(Preconditions.NullReturnMessage(Some("key"))))
      ensures key.Some? && value.None? ==> r == Throws(IllegalArgument(Preconditions.NullReturnMessage(Some("value"))))
      ensures r.Throws? ==> requestKeys == old(requestKeys)
      ensures r.Ok? <==> key.Some? && value.Some?
      ensures r.Ok? ==> r.value == this && requestKeys == old(requestKeys)[key.value := value.value]
    {
      var k := Preconditions.AssertReturnNotNull(key, Some("key"));
      if k.Throws? {
        return Throws(k.error);
      }
      var v := Preconditions.AssertReturnNotNull(value, Some("value"));
      if v.Throws? {
        return Throws(v.error);
      }
      requestKeys := requestKeys[k.value := v.value];
      return Ok(this);
    }
  }

  /** The Request constructor: a null surface is rejected. */
  method NewRequest(requestTemplate: Int32, surface: Option<Surface>) returns (r: Result<Request>)
    ensures r.Ok? <==> surface.Some?
    ensures r.Throws? ==> r.error == IllegalArgument(Preconditions.NullReturnMessage(Some("surface")))
    ensures r.Ok? ==> fresh(r.value) && r.value.surface == surface.value &&
                      r.value.requestTemplate == requestTemplate && r.value.requestKeys == map[]
  {
    var s := Preconditions.AssertReturnNotNull(surface, Some("surface"));
    if s.Throws? {
      return Throws(s.error);
    }
    var request := new Request(requestTemplate, s.value);
    return Ok(request);
  }

  /** Setting one key twice on any request: the later value wins and every other key keeps
      what it held. */
  method LaterSetWins(request: Request, key: Key, first: KeyValue, second: KeyValue)
    modifies request
    ensures request.requestKeys == old(request.requestKeys)[key := second]
    ensures request.requestKeys[key] == second
    ensures forall other :: other != key && other in old(request.requestKeys) ==>
              other in request.requestKeys && request.requestKeys[other] == old(request.requestKeys)[other]
  {
    var r := request.Set(Some(key), Some(first));
    r := request.Set(Some(key), Some(second));
  }

  /** Two sets of one key on a fresh request leave the second value; a null value changes nothing. */
  method RequestKeysScenario(surface: Surface, key: Key, first: KeyValue, second: KeyValue) returns (request: Request)
    ensures request.requestKeys == map[key := second]
  {
    request := new Request(1, surface);
    var r := request.Set(Some(key), Some(first));
    r := request.Set(Some(key), None);
    assert r.Throws?;
    r := request.Set(Some(key), Some(second));
  }

  /** The surfaces list holds the requests' surfaces, in the same order. */
  ghost predicate InLockstep(surfaces: seq<Surface>, requests: seq<Request>)
  {
    |surfaces| == |requests| && forall i :: 0 <= i < |requests| ==> surfaces[i] == requests[i].surface
  }

  /** The built configuration. */
  class CameraConfig {
    const cameraId: string
    const useUiThread: bool
    const surfaces: seq<Surface>
    const requests: seq<Request>

    constructor (cameraId: string, useUiThread: bool, surfaces: seq<Surface>, requests: seq<Request>)
      ensures this.cameraId == cameraId && this.useUiThread == useUiThread
      ensures this.surfaces == surfaces && this.requests == requests
    {
      this.cameraId := cameraId;
      this.useUiThread := useUiThread;
      this.surfaces := surfaces;
      this.requests := requests;
    }

    /** getRequests: "No requests" when there are none, else one capture request per request,
        in order. */
    method GetRequests() returns (r: Result<seq<CaptureRequest>>)
      ensures r.Ok? <==> |requests| > 0
      ensures r.Throws? ==> r.error == Runtime("No requests")
      ensures r.Ok? ==> |r.value| == |requests| && forall i :: 0 <= i < |requests| ==> r.value[i] == requests[i].Snapshot()
    {
      if |requests| == 1 {
        return Ok([requests[0].Snapshot()]);
      } else if |requests| > 1 {
        var res: seq<CaptureRequest> := [];
        for i := 0 to |requests|
          invariant |res| == i
          invariant forall k :: 0 <= k < i ==> res[k] == requests[k].Snapshot()
        {
          res := res + [requests[i].Snapshot()];
        }
        return Ok(res);
      } else {
        return Throws(Runtime("No requests"));
      }
    }
  }

  /** CameraConfig.Builder. */
  class Builder {
    var size: Option<CameraUtils.Size>
    var imageFormat: Int32
    const cameraId: string
    var cameraOrientation: Int32
    var useUiThread: bool
    var surfaces: seq<Surface>
    var requests: seq<Request>

    ghost predicate Valid()
      reads this
    {
      cameraId != "" && InLockstep(surfaces, requests)
    }

    constructor (cameraId: string)
      requires cameraId != ""
      ensures Valid()
      ensures this.cameraId == cameraId && size == None && imageFormat == 0 && cameraOrientation == 0
      ensures !useUiThread && surfaces == [] && requests == []
    {
      this.cameraId := cameraId;
      size := None;
      imageFormat := 0;
      cameraOrientation := 0;
      useUiThread := false;
      surfaces := [];
      requests := [];
    }

    method SetCameraOrientation(cameraOrientation: Int32) returns (b: Builder)
      modifies this
      ensures b == this && this.cameraOrientation == cameraOrientation
      ensures size == old(size) && imageFormat == old(imageFormat) && useUiThread == old(useUiThread)
      ensures surfaces == old(surfaces) && requests == old(requests)
    {
      this.cameraOrientation := cameraOrientation;
      return this;
    }

    method SetUseUiThread(useUiThread: bool) returns (b: Builder)
      modifies this
      ensures b == this && this.useUiThread == useUiThread
      ensures size == old(size) && imageFormat == old(imageFormat) && cameraOrientation == old(cameraOrientation)
      ensures surfaces == old(surfaces) && requests == old(requests)
    {
      this.useUiThread := useUiThread;
      return this;
    }

    /** setSize accepts null. */
    method SetSize(size: Option<CameraUtils.Size>) returns (b: Builder)
      modifies this
      ensures b == this && this.size == size
      ensures imageFormat == old(imageFormat) && cameraOrientation == old(cameraOrientation) && useUiThread == old(useUiThread)
      ensures surfaces == old(surfaces) && requests == old(requests)
    {
      this.size := size;
      return this;
    }

    /** setResolution rejects null and otherwise does what setSize does. */
    method SetResolution(size: Option<CameraUtils.Size>) returns (r: Result<Builder>)
      modifies this
      ensures r.Ok? <==> size.Some?
      ensures r.Throws? ==> r.error == IllegalArgument(Preconditions.NullParameterMessage(Some("size")))
      ensures r.Ok? ==> r.value == this && this.size == size
      ensures r.Throws? ==> this.size == old(this.size)
      ensures imageFormat == old(imageFormat) && cameraOrientation == old(cameraOrientation) && useUiThread == old(useUiThread)
      ensures surfaces == old(surfaces) && requests == old(requests)
    {
      var s := Preconditions.AssertParameterNotNull(size, Some("size"));
      if s.Throws? {
        return Throws(s.error);
      }
      this.size := size;
      return Ok(this);
    }

    method SetImageFormat(imageFormat: Int32) returns (b: Builder)
      modifies this
      ensures b == this && this.imageFormat == imageFormat
      ensures size == old(size) && cameraOrientation == old(cameraOrientation) && useUiThread == old(useUiThread)
      ensures surfaces == old(surfaces) && requests == old(requests)
    {
      this.imageFormat := imageFormat;
      return this;
    }

    /** addRequest rejects null; otherwise the request and its surface are appended together. */
    method AddRequest(request: Option<Request>) returns (r: Result<Builder>)
      requires Valid()
      modifies this
      ensures Valid()
      ensures r.Ok? <==> request.Some?
      ensures r.Throws? ==> r.error == IllegalArgument(Preconditions.NullParameterMessage(Some("request")))
      ensures r.Ok? ==> r.value == this && requests == old(requests) + [request.value] &&
                        surfaces == old(surfaces) + [request.value.surface]
      ensures r.Throws? ==> requests == old(requests) && surfaces == old(surfaces)
      ensures size == old(size) && imageFormat == old(imageFormat)
      ensures cameraOrientation == old(cameraOrientation) && useUiThread == old(useUiThread)
    {
      var q := Preconditions.AssertParameterNotNull(request, Some("request"));
      if q.Throws? {
        return Throws(q.error);
      }
      requests := requests + [q.value];
      surfaces := surfaces + [q.value.surface];
      return Ok(this);
    }

    /** build carries the id, the thread choice and both lists; size, format and orientation stay
        behind in the builder. */
    method Build() returns (config: CameraConfig)
      requires Valid()
      ensures fresh(config)
      ensures config.cameraId == cameraId && config.useUiThread == useUiThread
      ensures config.surfaces == surfaces && config.requests == requests
      ensures InLockstep(config.surfaces, config.requests)
    {
      config := new CameraConfig(cameraId, useUiThread, surfaces, requests);
    }
  }

  /** The Builder constructor: a null or empty camera id is rejected. */
  method NewBuilder(cameraId: Option<string>) returns (r: Result<Builder>)
    ensures r.Ok? <==> cameraId.Some? && cameraId.value != ""
    ensures r.Throws? ==> r.error == IllegalArgument(Preconditions.EmptyParameterMessage(Some("cameraId")))
    ensures r.Ok? ==> fresh(r.value) && r.value.Valid() && r.value.cameraId == cameraId.value &&
                      r.value.requests == [] && r.value.surfaces == []
  {
    var id := Preconditions.AssertStringNotEmpty(cameraId, Some("cameraId"));
    if id.Throws? {
      return Throws(id.error);
    }
    var builder := new Builder(id.value);
    return Ok(builder);
  }

  /** Building a configuration with two requests: getRequests lists them in insertion order;
      with none, it throws. */
  method TwoRequestScenario(first: Surface, second: Surface) returns (requests: Result<seq<CaptureRequest>>)
    ensures requests == Ok([CaptureRequest(1, first, map[]), CaptureRequest(2, second, map[])])
  {
    var builder := new Builder("0");
    var empty := builder.Build();
    var none := empty.GetRequests();
    assert none == Throws(Runtime("No requests"));
    var a := new Request(1, first);
    var b := new Request(2, second);
    var added := builder.AddRequest(Some(a));
    added := builder.AddRequest(Some(b));
    var config := builder.Build();
    assert config.requests == [a, b];
    requests := config.GetRequests();
    assert requests.value == [CaptureRequest(1, first, map[]), CaptureRequest(2, second, map[])];
  }
}
