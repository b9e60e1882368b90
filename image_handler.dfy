/** alpr/ImageHandler.java: a fixed set of workers recognising plates and lanes on frames posted
    through recognize, which closes every frame it is given.

    The workers are modelled as a sequential interleaving: each worker is an index into `phases`
    and `stops`, and one pass through its poll loop is split into three atomic steps (PollStep,
    AcquireStep, FinishStep) that any scheduler may interleave with the public operations. */
module ImageHandlers {
  import opened Wrappers
  import opened JavaInt
  import opened Openalpr
  import opened FramePipeline
  import Preconditions

  /** The calls made on ImageHandlerCallback, in order. `bitmap` tells whether a bitmap was
      decoded for the result. */
  datatype Callback =
    | Failure(failure: Exception)
    | LicensePlateDetected(bitmap: bool, result: AlprResult)
    | LaneDetected(width: Int32, height: Int32, lanes: LaneDetectorResult)

  /** The exception a call lets out of the per-image try: IllegalStateException, thrown once the
      image is closed, is caught there. */
  function Uncaught<T>(o: Outcome<T>): (e: Option<Exception>)
    ensures e.Some? <==> o.Failed? && o.error != IllegalState
    ensures e.Some? ==> e.value == o.error
  {
    if o.Failed? && o.error != IllegalState then Some(o.error) else None
  }

  /** What the calls one worker pass makes into code this model does not contain did, in the
      order they run: reading the Y buffer (a null buffer is given as Done(0)), plate
      recognition, the onLicensePlateDetected call, lane detection and the onLaneDetected call.
      A callback posted to a callback handler runs later on that handler's thread, so its call
      in the worker is Done(()). */
  datatype Pass = Pass(yBuffer: Outcome<nat>, plate: Outcome<AlprResult>, plateCallback: Outcome<()>,
                       lanes: Outcome<LaneDetectorResult>, laneCallback: Outcome<()>)

  /** Whether the remaining bytes of the Y buffer let recognition go ahead. */
  predicate HasLuma(yBuffer: Outcome<nat>)
  {
    yBuffer.Done? && yBuffer.value > 0
  }

  /** The exception that leaves one pass of the worker loop for its outer catch: the first
      failure, in the order the calls run, that is not an IllegalStateException. */
  function Escaping(p: Pass): (e: Option<Exception>)
    ensures p.yBuffer.Failed? ==> e == Uncaught(p.yBuffer)
    ensures p.yBuffer == Done(0) ==> e == None
    ensures HasLuma(p.yBuffer) && p.plate.Failed? ==> e == Uncaught(p.plate)
    ensures HasLuma(p.yBuffer) && p.plate.Done? && p.plateCallback.Failed? ==> e == Uncaught(p.plateCallback)
    ensures HasLuma(p.yBuffer) && p.plate.Done? && p.plateCallback.Done? && p.lanes.Failed? ==> e == Uncaught(p.lanes)
    ensures HasLuma(p.yBuffer) && p.plate.Done? && p.plateCallback.Done? && p.lanes.Done? ==> e == Uncaught(p.laneCallback)
    ensures e.Some? ==> e.value != IllegalState
  {
    if p.yBuffer.Failed? then Uncaught(p.yBuffer)
    else if p.yBuffer.value == 0 then None
    else if p.plate.Failed? then Uncaught(p.plate)
    else if p.plateCallback.Failed? then Uncaught(p.plateCallback)
    else if p.lanes.Failed? then Uncaught(p.lanes)
    else Uncaught(p.laneCallback)
  }

  /** The callbacks one pass of the worker loop makes for `image`, in order: the plate result
      (with a bitmap only when there are plates and a bitmap width was set), the lanes once
      that call returned, and onFailure for an exception reaching the outer catch, a callback's
      own included. */
  function Delivered(image: Image, p: Pass, outWidth: Int32): (r: seq<Callback>)
    ensures |r| <= 3
    ensures forall i :: 0 <= i < |r| && r[i].Failure? ==> i == |r| - 1
    ensures (r != [] && r[|r| - 1].Failure?) <==> Escaping(p).Some?
    ensures r != [] && r[|r| - 1].Failure? ==> r[|r| - 1].failure == Escaping(p).value
    ensures (r != [] && r[0].LicensePlateDetected?) <==> HasLuma(p.yBuffer) && p.plate.Done?
    ensures r != [] && r[0].LicensePlateDetected? ==>
              r[0].result == p.plate.value && (r[0].bitmap <==> |p.plate.value.plates| > 0 && outWidth > 0)
    ensures forall i :: 0 <= i < |r| && r[i].LaneDetected? ==>
              i == 1 && r[0].LicensePlateDetected? && p.plateCallback.Done? && p.lanes.Done? &&
              r[i] == LaneDetected(image.width, image.height, p.lanes.value)
    ensures HasLuma(p.yBuffer) && p.plate.Done? && p.plateCallback.Done? && p.lanes.Done? ==>
              |r| >= 2 && r[1] == LaneDetected(image.width, image.height, p.lanes.value)
    ensures !HasLuma(p.yBuffer) ==> |r| <= 1
  {
    var failure := Escaping(p);
    Recognized(image, p, outWidth) + (if failure.Some? then [Failure(failure.value)] else [])
  }

  /** The callbacks made inside the per-image try. */
  function Recognized(image: Image, p: Pass, outWidth: Int32): seq<Callback>
  {
    if HasLuma(p.yBuffer) && p.plate.Done? then
      [LicensePlateDetected(|p.plate.value.plates| > 0 && outWidth > 0, p.plate.value)] +
      (if p.plateCallback.Done? && p.lanes.Done? then [LaneDetected(image.width, image.height, p.lanes.value)] else [])
    else []
  }

  class ImageHandler {
    /** THREADS, and the queue capacity THREADS * 2. */
    const threads: nat
    const capacity: nat
    /** imageHandlers: the worker in each slot, or null. */
    const handlers: array<Option<nat>>
    var queue: seq<Image>
    /** The semaphore's available permits. */
    var permits: nat
    var imageQueueTimeout: int
    var lastImageQueueTime: int
    var handledImageCounter: int
    var handlingTime: int
    /** bitmapOptions.outWidth and outHeight. */
    var outWidth: Int32
    var outHeight: Int32
    /** Every worker ever started: its stop flag and where it is in its loop. */
    var stops: seq<bool>
    var phases: seq<Phase>
    var callbacks: seq<Callback>
    /** Every image recognize was given, and every close() call, in order. */
    ghost var submitted: set<Image>
    ghost var closeCalls: seq<Image>

    ghost predicate Valid()
      reads this, handlers
    {
      threads > 0 && capacity == 2 * threads && handlers.Length == threads &&
      |queue| <= capacity && |stops| == |phases| &&
      (forall i :: 0 <= i < threads ==> (handlers[i].Some? <==> handlers[0].Some?)) &&
      (forall i :: 0 <= i < threads && handlers[i].Some? ==> handlers[i].value < |phases|) &&
      (handlers[0].None? ==> queue == []) &&
      permits + BusyCount(phases) == threads &&
      NoLeak()
    }

    /** Every image recognize was given is queued, closed or held by a worker. */
    ghost predicate NoLeak()
      reads this
    {
      FramePipeline.NoLeak(submitted, queue, closeCalls, phases)
    }

    /** imageHandlers[0] != null. */
    predicate Started()
      reads handlers
    {
      handlers.Length > 0 && handlers[0].Some?
    }

    ghost function Intake(): FramePipeline.Intake
      reads this
    {
      FramePipeline.Intake(queue, lastImageQueueTime, closeCalls)
    }

    ghost function GateNow(): Gate
      reads this, handlers
    {
      Gate(Started(), permits, imageQueueTimeout, capacity)
    }

    constructor (threads: nat)
      requires threads > 0
      ensures Valid() && fresh(handlers) && !Started()
      ensures this.threads == threads && capacity == 2 * threads
      ensures queue == [] && permits == threads && stops == [] && phases == [] && callbacks == []
      ensures imageQueueTimeout == 0 && lastImageQueueTime == 0 && handledImageCounter == 0 && handlingTime == 0
      ensures outWidth == 0 && outHeight == 0 && submitted == {} && closeCalls == []
    {
      this.threads := threads;
      capacity := 2 * threads;
      handlers := new Option<nat>[threads] (_ => None);
      queue := [];
      permits := threads;
      imageQueueTimeout, lastImageQueueTime, handledImageCounter, handlingTime := 0, 0, 0, 0;
      outWidth, outHeight := 0, 0;
      stops, phases, callbacks := [], [], [];
      submitted, closeCalls := {}, [];
    }

    /** The public constructor: null checks on the directory and the callback, in that order,
        then the configuration check. */
    static method Create(threads: nat, configDir: Option<string>, hasCallback: bool, fs: FileSystem)
      returns (r: Result<ImageHandler>)
      requires threads > 0
      ensures configDir.None? ==> r == Throws(IllegalArgument(Preconditions.NullParameterMessage(Some("configDir"))))
      ensures configDir.Some? && !hasCallback ==> r == Throws(IllegalArgument(Preconditions.NullParameterMessage(Some("callback"))))
      ensures configDir.Some? && hasCallback && CheckAlprConfiguration(configDir.value, fs).Throws? ==>
                r == Throws(CheckAlprConfiguration(configDir.value, fs).error)
      ensures r.Ok? <==> configDir.Some? && hasCallback && CheckAlprConfiguration(configDir.value, fs).Ok?
      ensures r.Ok? ==> fresh(r.value) && fresh(r.value.handlers) && r.value.Valid() && !r.value.Started() &&
                        r.value.threads == threads && r.value.queue == [] && r.value.permits == threads
    {
      var dir := Preconditions.AssertParameterNotNull(configDir, Some("configDir"));
      if dir.Throws? {
        return Throws(dir.error);
      }
      var cb := Preconditions.AssertParameterNotNull(if hasCallback then Some(()) else None, Some("callback"));
      if cb.Throws? {
        return Throws(cb.error);
      }
      var check := CheckAlprConfiguration(dir.value, fs);
      if check.Throws? {
        return Throws(check.error);
      }
      var handler := new ImageHandler(threads);
      return Ok(handler);
    }

    /** ArrayBlockingQueue.poll: the head, removed, or null on an empty queue. */
    method PollQueue() returns (head: Option<Image>)
      modifies this`queue
      ensures old(queue) == [] ==> head == None && queue == []
      ensures old(queue) != [] ==> head == Some(old(queue)[0]) && queue == old(queue)[1..]
      ensures permits == old(permits) && stops == old(stops) && phases == old(phases) && callbacks == old(callbacks)
      ensures imageQueueTimeout == old(imageQueueTimeout) && lastImageQueueTime == old(lastImageQueueTime) && handledImageCounter == old(handledImageCounter) && handlingTime == old(handlingTime)
      ensures outWidth == old(outWidth) && outHeight == old(outHeight) && submitted == old(submitted) && closeCalls == old(closeCalls)
    {
      if queue == [] {
        return None;
      }
      head := Some(queue[0]);
      queue := queue[1..];
    }

    /** recognize(image) at time `now`: a null image throws; otherwise the ordered admission
        decision, closing every image it does not queue. */
    method Recognize(image: Option<Image>, now: int) returns (r: Result<Decision>)
      requires Valid()
      modifies this`submitted, this`closeCalls, this`lastImageQueueTime, this`queue
      ensures Valid()
      ensures image.None? ==> r == Throws(IllegalArgument(Preconditions.NullParameterMessage(Some("image")))) &&
                              Intake() == old(Intake()) && submitted == old(submitted)
      ensures image.Some? ==>
                r == Ok(Admit(old(Started()), old(permits), now, old(lastImageQueueTime), old(imageQueueTimeout), old(|queue|), capacity)) &&
                Intake() == Submit(old(Intake()), old(GateNow()), image.value, now) &&
                submitted == old(submitted) + {image.value}
      ensures r.Ok? && r.value == Queued ==> queue == old(queue) + [image.value] && closeCalls == old(closeCalls)
      ensures r.Ok? && r.value != Queued ==> queue == old(queue) && closeCalls == old(closeCalls) + [image.value]
      ensures r.Ok? && !Stamps(r.value) ==> lastImageQueueTime == old(lastImageQueueTime)
      ensures r.Ok? && Stamps(r.value) ==> lastImageQueueTime == now && now - old(lastImageQueueTime) >= old(imageQueueTimeout)
      ensures permits == old(permits) && stops == old(stops) && phases == old(phases) && callbacks == old(callbacks)
      ensures imageQueueTimeout == old(imageQueueTimeout) && handledImageCounter == old(handledImageCounter) && handlingTime == old(handlingTime) && outWidth == old(outWidth)
      ensures outHeight == old(outHeight)
    {
      var checked := Preconditions.AssertParameterNotNull(image, Some("image"));
      if checked.Throws? {
        return Throws(checked.error);
      }
      var img := checked.value;
      submitted := submitted + {img};
      if handlers[0] == None {
        closeCalls := closeCalls + [img];
        return Ok(NotStarted);
      }
      if permits == 0 {
        closeCalls := closeCalls + [img];
        return Ok(NoPermits);
      }
      if now - lastImageQueueTime < imageQueueTimeout {
        closeCalls := closeCalls + [img];
        return Ok(TooSoon);
      }
      lastImageQueueTime := now;
      if |queue| < capacity {
        queue := queue + [img];
        return Ok(Queued);
      }
      closeCalls := closeCalls + [img];
      return Ok(QueueFull);
    }

    /** resetTimeoutsAndStatistics, on its integer fields. */
    method ResetTimeoutsAndStatistics()
      modifies this`handledImageCounter, this`handlingTime, this`imageQueueTimeout, this`lastImageQueueTime
      ensures handledImageCounter == 0 && handlingTime == 0
      ensures imageQueueTimeout == DEFAULT_IMAGE_QUEUE_TIMEOUT && lastImageQueueTime == 0
      ensures queue == old(queue) && permits == old(permits) && stops == old(stops) && phases == old(phases)
      ensures callbacks == old(callbacks) && outWidth == old(outWidth) && outHeight == old(outHeight) && submitted == old(submitted)
      ensures closeCalls == old(closeCalls)
    {
      handledImageCounter := 0;
      handlingTime := 0;
      imageQueueTimeout := DEFAULT_IMAGE_QUEUE_TIMEOUT;
      lastImageQueueTime := 0;
    }

    /** start: nothing when started; otherwise the statistics are reset and every slot gets a
        new worker, slot i the i-th. */
    method Start()
      requires Valid()
      modifies this`handledImageCounter, this`handlingTime, this`imageQueueTimeout, this`lastImageQueueTime
      modifies this`phases, this`stops, handlers
      ensures Valid()
      ensures old(Started()) ==> unchanged(this) && unchanged(handlers)
      ensures !old(Started()) ==>
                Started() &&
                handledImageCounter == 0 && handlingTime == 0 &&
                imageQueueTimeout == DEFAULT_IMAGE_QUEUE_TIMEOUT && lastImageQueueTime == 0 &&
                stops == old(stops) + seq(threads, _ => false) &&
                phases == old(phases) + seq(threads, _ => Polling) &&
                (forall i :: 0 <= i < threads ==> handlers[i] == Some(old(|phases|) + i))
    {
      if handlers[0] == None {
        ResetTimeoutsAndStatistics();
        StartWorkers();
      }
    }

    /** The loop of start: slot i gets the i-th new worker. */
    method StartWorkers()
      requires Valid() && !Started()
      modifies this`phases, this`stops, handlers
      ensures Valid() && Started()
      ensures stops == old(stops) + seq(threads, _ => false) && phases == old(phases) + seq(threads, _ => Polling)
      ensures forall i :: 0 <= i < threads ==> handlers[i] == Some(old(|phases|) + i)
    {
      var workers, flags := phases, stops;
      for i := 0 to threads
        modifies handlers
        invariant workers == old(phases) + seq(i, _ => Polling)
        invariant flags == old(stops) + seq(i, _ => false)
        invariant BusyCount(workers) == BusyCount(phases) && FramePipeline.NoLeak(submitted, queue, closeCalls, workers)
        invariant forall k :: 0 <= k < i ==> handlers[k] == Some(|phases| + k)
      {
        handlers[i] := Some(|workers|);
        NoLeakAfterAppend(submitted, queue, closeCalls, workers, Polling);
        workers, flags := workers + [Polling], flags + [false];
      }
      assert forall k :: 0 <= k < threads ==> handlers[k].Some? && handlers[k].value < |workers|;
      phases, stops := workers, flags;
    }

    /** stop: nothing when stopped; otherwise every slot, from the last down to the first, has
        its worker flagged and is cleared, and then the queue is drained, each image closed in
        queue order. */
    method Stop()
      requires Valid()
      modifies this`stops, this`queue, this`closeCalls, handlers
      ensures Valid()
      ensures !old(Started()) ==> unchanged(this) && unchanged(handlers)
      ensures old(Started()) ==>
                !Started() && (forall i :: 0 <= i < threads ==> handlers[i] == None) &&
                queue == [] && closeCalls == old(closeCalls) + old(queue) &&
                |stops| == old(|stops|) &&
                (forall k :: 0 <= k < |stops| ==> stops[k] == (old(stops)[k] || Some(k) in old(handlers[..])))
    {
      if handlers[0] == None {
        return;
      }
      StopWorkers();
      NoLeakAfterDrain(submitted, queue, closeCalls, phases);
      DrainQueue();
    }

    /** The slot loop of stop: from the last slot down to the first, the worker's stop flag is
        set and the slot cleared. */
    method StopWorkers()
      requires handlers.Length == threads && forall i :: 0 <= i < threads ==> handlers[i].Some? && handlers[i].value < |stops|
      modifies this`stops, handlers
      ensures forall i :: 0 <= i < threads ==> handlers[i] == None
      ensures |stops| == old(|stops|)
      ensures forall k :: 0 <= k < |stops| ==> stops[k] == (old(stops)[k] || Some(k) in old(handlers[..]))
      ensures queue == old(queue) && permits == old(permits) && phases == old(phases) && callbacks == old(callbacks)
      ensures imageQueueTimeout == old(imageQueueTimeout) && lastImageQueueTime == old(lastImageQueueTime) && handledImageCounter == old(handledImageCounter) && handlingTime == old(handlingTime)
      ensures outWidth == old(outWidth) && outHeight == old(outHeight) && submitted == old(submitted) && closeCalls == old(closeCalls)
    {
      var i: int := threads - 1;
      while i >= 0
        invariant -1 <= i < threads
        invariant forall k :: i < k < threads ==> handlers[k] == None
        invariant forall k :: 0 <= k <= i ==> handlers[k] == old(handlers[k])
        invariant |stops| == old(|stops|)
        invariant forall k :: 0 <= k < |stops| ==> stops[k] == (old(stops)[k] || Some(k) in old(handlers[..])[i + 1..])
        invariant queue == old(queue) && permits == old(permits) && phases == old(phases) && callbacks == old(callbacks)
        invariant imageQueueTimeout == old(imageQueueTimeout) && lastImageQueueTime == old(lastImageQueueTime)
        invariant handledImageCounter == old(handledImageCounter) && handlingTime == old(handlingTime)
        invariant outWidth == old(outWidth) && outHeight == old(outHeight)
        invariant submitted == old(submitted) && closeCalls == old(closeCalls)
      {
        var w := handlers[i].value;
        stops := stops[w := true];
        handlers[i] := None;
        i := i - 1;
      }
    }

    /** The drain loop of stop: poll and close until the queue is empty. */
    method DrainQueue()
      modifies this`queue, this`closeCalls
      ensures queue == [] && closeCalls == old(closeCalls) + old(queue)
      ensures permits == old(permits) && stops == old(stops) && phases == old(phases) && callbacks == old(callbacks)
      ensures imageQueueTimeout == old(imageQueueTimeout) && lastImageQueueTime == old(lastImageQueueTime) && handledImageCounter == old(handledImageCounter) && handlingTime == old(handlingTime)
      ensures outWidth == old(outWidth) && outHeight == old(outHeight) && submitted == old(submitted)
    {
      var img := PollQueue();
      while img.Some?
        invariant img.None? ==> queue == []
        invariant |closeCalls| >= |old(closeCalls)| && closeCalls[..|old(closeCalls)|] == old(closeCalls)
        invariant old(queue) == closeCalls[|old(closeCalls)|..] + (if img.Some? then [img.value] else []) + queue
        invariant permits == old(permits) && stops == old(stops) && phases == old(phases) && callbacks == old(callbacks)
        invariant imageQueueTimeout == old(imageQueueTimeout) && lastImageQueueTime == old(lastImageQueueTime)
        invariant handledImageCounter == old(handledImageCounter) && handlingTime == old(handlingTime)
        invariant outWidth == old(outWidth) && outHeight == old(outHeight) && submitted == old(submitted)
        decreases |queue| + (if img.Some? then 1 else 0)
      {
        closeCalls := closeCalls + [img.value];
        img := PollQueue();
      }
      assert closeCalls == old(closeCalls) + old(queue);
    }

    /** One turn of a polling worker: poll the queue head; with the stop flag set the worker
        ends, closing the image it polled, if any; with nothing polled it polls again;
        otherwise it goes on to acquire a permit for the image. */
    method PollStep(w: nat) returns (polled: Option<Image>)
      requires Valid() && w < |phases| && phases[w] == Polling
      modifies this`queue, this`closeCalls, this`phases
      ensures Valid()
      ensures old(queue) == [] ==> polled == None && queue == []
      ensures old(queue) != [] ==> polled == Some(old(queue)[0]) && queue == old(queue)[1..]
      ensures old(stops[w]) && polled.Some? ==> closeCalls == old(closeCalls) + [polled.value]
      ensures !(old(stops[w]) && polled.Some?) ==> closeCalls == old(closeCalls)
      ensures old(stops[w]) ==> phases == old(phases)[w := Terminated]
      ensures !old(stops[w]) && polled.None? ==> phases == old(phases)
      ensures !old(stops[w]) && polled.Some? ==> phases == old(phases)[w := Acquiring(polled.value)]
      ensures permits == old(permits) && stops == old(stops) && callbacks == old(callbacks) && imageQueueTimeout == old(imageQueueTimeout)
      ensures lastImageQueueTime == old(lastImageQueueTime) && handledImageCounter == old(handledImageCounter) && handlingTime == old(handlingTime) && outWidth == old(outWidth)
      ensures outHeight == old(outHeight) && submitted == old(submitted)
    {
      ghost var queue0, phases0 := queue, phases;
      polled := PollQueue();
      if stops[w] {
        if polled.Some? {
          NoLeakAfterClose(submitted, queue0, closeCalls, phases0, [polled.value]);
          closeCalls := closeCalls + [polled.value];
          NoLeakAfterTake(submitted, queue0, closeCalls, phases0, w, Terminated);
        } else {
          NoLeakAfterSettle(submitted, queue, closeCalls, phases, w, Terminated);
        }
        BusyCountUpdate(phases, w, Terminated);
        phases := phases[w := Terminated];
      } else if polled.Some? {
        NoLeakAfterTake(submitted, queue0, closeCalls, phases0, w, Acquiring(polled.value));
        BusyCountUpdate(phases, w, Acquiring(polled.value));
        phases := phases[w := Acquiring(polled.value)];
      }
    }

    /** recognitionSemaphore.acquire() by a worker holding an image; it blocks while no permit
        is available, so it is only taken with one. */
    method AcquireStep(w: nat)
      requires Valid() && w < |phases| && phases[w].Acquiring? && permits > 0
      modifies this`permits, this`phases
      ensures Valid()
      ensures permits == old(permits) - 1 && phases == old(phases)[w := Busy(old(phases)[w].image)]
      ensures queue == old(queue) && stops == old(stops) && callbacks == old(callbacks) && imageQueueTimeout == old(imageQueueTimeout)
      ensures lastImageQueueTime == old(lastImageQueueTime) && handledImageCounter == old(handledImageCounter) && handlingTime == old(handlingTime) && outWidth == old(outWidth)
      ensures outHeight == old(outHeight) && submitted == old(submitted) && closeCalls == old(closeCalls)
    {
      var p := Busy(phases[w].image);
      forall image | image in submitted
        ensures image in queue || image in closeCalls || IsHeld(phases[w := p], image)
      {
        HeldAfterUpdate(phases, w, p, image);
      }
      BusyCountUpdate(phases, w, p);
      permits := permits - 1;
      phases := phases[w := p];
    }

    /** logStats on its integer counters: one more image, its processing time added; the new
        queue timeout, computed from the float pace, is given. */
    method LogStats(imgHandlingTime: int, adaptedTimeout: nat)
      modifies this`handledImageCounter, this`handlingTime, this`imageQueueTimeout
      ensures handledImageCounter == old(handledImageCounter) + 1
      ensures handlingTime == old(handlingTime) + imgHandlingTime
      ensures imageQueueTimeout == adaptedTimeout
      ensures queue == old(queue) && permits == old(permits) && stops == old(stops) && phases == old(phases)
      ensures callbacks == old(callbacks) && lastImageQueueTime == old(lastImageQueueTime) && outWidth == old(outWidth) && outHeight == old(outHeight)
      ensures submitted == old(submitted) && closeCalls == old(closeCalls)
    {
      handledImageCounter := handledImageCounter + 1;
      handlingTime := handlingTime + imgHandlingTime;
      imageQueueTimeout := adaptedTimeout;
    }

    /** The per-image try of a worker pass over `image`: what it delivers and counts, and how
        it ends (the exception it lets out, or the `continue` for an empty Y buffer). */
    method RecognizeImage(image: Image, p: Pass, adaptedTimeout: nat)
      returns (failure: Option<Exception>, skipped: bool)
      modifies this`callbacks, this`handledImageCounter, this`handlingTime, this`imageQueueTimeout
      ensures failure == Escaping(p)
      ensures skipped <==> p.yBuffer == Done(0)
      ensures callbacks == old(callbacks) + Recognized(image, p, old(outWidth))
      ensures HasLuma(p.yBuffer) && p.plate.Done? ==>
                handledImageCounter == old(handledImageCounter) + 1 &&
                handlingTime == old(handlingTime) + p.plate.value.totalProcessingTime &&
                imageQueueTimeout == adaptedTimeout
      ensures !(HasLuma(p.yBuffer) && p.plate.Done?) ==>
                handledImageCounter == old(handledImageCounter) && handlingTime == old(handlingTime) &&
                imageQueueTimeout == old(imageQueueTimeout)
      ensures queue == old(queue) && permits == old(permits) && stops == old(stops) && phases == old(phases)
      ensures lastImageQueueTime == old(lastImageQueueTime) && outWidth == old(outWidth) && outHeight == old(outHeight) && submitted == old(submitted)
      ensures closeCalls == old(closeCalls)
    {
      failure, skipped := None, false;
      if p.yBuffer.Failed? {
        failure := Uncaught(p.yBuffer);
      } else if p.yBuffer.value == 0 {
        skipped := true;
      } else if p.plate.Failed? {
        failure := Uncaught(p.plate);
      } else {
        var result := p.plate.value;
        LogStats(result.totalProcessingTime, adaptedTimeout);
        var bitmap := |result.plates| > 0 && outWidth > 0;
        callbacks := callbacks + [LicensePlateDetected(bitmap, result)];
        if p.plateCallback.Failed? {
          failure := Uncaught(p.plateCallback);
        } else if p.lanes.Failed? {
          failure := Uncaught(p.lanes);
        } else {
          callbacks := callbacks + [LaneDetected(image.width, image.height, p.lanes.value)];
          failure := Uncaught(p.laneCallback);
        }
      }
    }

    /** The rest of a pass for the image worker `w` holds a permit for: read the Y buffer,
        recognise plates and lanes, then in `finally` release the permit and close the image.
        An empty Y buffer goes straight back to polling; an exception other than
        IllegalStateException reaches onFailure and ends the worker, whose outer `finally`
        closes the image again; otherwise a set stop flag ends the worker, again closing the
        image a second time. */
    method FinishStep(w: nat, p: Pass, adaptedTimeout: nat)
      requires Valid() && w < |phases| && phases[w].Busy?
      modifies this`callbacks, this`handledImageCounter, this`handlingTime, this`imageQueueTimeout, this`permits, this`closeCalls, this`phases
      ensures Valid()
      ensures permits == old(permits) + 1
      ensures |closeCalls| > |old(closeCalls)| && closeCalls[..|old(closeCalls)| + 1] == old(closeCalls) + [old(phases)[w].image]
      ensures callbacks == old(callbacks) + Delivered(old(phases)[w].image, p, old(outWidth))
      ensures HasLuma(p.yBuffer) && p.plate.Done? ==>
                handledImageCounter == old(handledImageCounter) + 1 &&
                handlingTime == old(handlingTime) + p.plate.value.totalProcessingTime &&
                imageQueueTimeout == adaptedTimeout
      ensures !(HasLuma(p.yBuffer) && p.plate.Done?) ==>
                handledImageCounter == old(handledImageCounter) && handlingTime == old(handlingTime) &&
                imageQueueTimeout == old(imageQueueTimeout)
      ensures Escaping(p).Some? ==>
                phases == old(phases)[w := Terminated] && closeCalls == old(closeCalls) + [old(phases)[w].image, old(phases)[w].image]
      ensures Escaping(p).None? && p.yBuffer == Done(0) ==>
                phases == old(phases)[w := Polling] && closeCalls == old(closeCalls) + [old(phases)[w].image]
      ensures Escaping(p).None? && p.yBuffer != Done(0) && old(stops[w]) ==>
                phases == old(phases)[w := Terminated] && closeCalls == old(closeCalls) + [old(phases)[w].image, old(phases)[w].image]
      ensures Escaping(p).None? && p.yBuffer != Done(0) && !old(stops[w]) ==>
                phases == old(phases)[w := Polling] && closeCalls == old(closeCalls) + [old(phases)[w].image]
      ensures queue == old(queue) && stops == old(stops) && lastImageQueueTime == old(lastImageQueueTime) && outWidth == old(outWidth)
      ensures outHeight == old(outHeight) && submitted == old(submitted)
    {
      var image := phases[w].image;
      var failure, skipped := RecognizeImage(image, p, adaptedTimeout);
      Settle(w, failure, skipped);
    }

    /** The end of a worker pass: the `finally` releasing the permit and closing the image, then
        onFailure for an exception that got out, ending the worker with a second close in the
        outer `finally`. After a `continue`, the stop flag is not read; otherwise a set one ends
        the worker the same way. */
    method Settle(w: nat, failure: Option<Exception>, skipped: bool)
      requires Valid() && w < |phases| && phases[w].Busy?
      modifies this`permits, this`callbacks, this`closeCalls, this`phases
      ensures Valid()
      ensures permits == old(permits) + 1
      ensures callbacks == old(callbacks) + (if failure.Some? then [Failure(failure.value)] else [])
      ensures failure.Some? || (!skipped && old(stops[w])) ==>
                phases == old(phases)[w := Terminated] && closeCalls == old(closeCalls) + [old(phases)[w].image, old(phases)[w].image]
      ensures failure.None? && (skipped || !old(stops[w])) ==>
                phases == old(phases)[w := Polling] && closeCalls == old(closeCalls) + [old(phases)[w].image]
      ensures queue == old(queue) && stops == old(stops) && imageQueueTimeout == old(imageQueueTimeout) && lastImageQueueTime == old(lastImageQueueTime)
      ensures handledImageCounter == old(handledImageCounter) && handlingTime == old(handlingTime) && outWidth == old(outWidth) && outHeight == old(outHeight)
      ensures submitted == old(submitted)
    {
      var image := phases[w].image;
      // the inner finally closes the image once; a failure or a stop closes it again
      var next := Polling;
      ghost var closes := [image];
      if failure.Some? || (!skipped && stops[w]) {
        next := Terminated;
        closes := [image, image];
      }
      NoLeakAfterSettle(submitted, queue, closeCalls + closes, phases, w, next);
      BusyCountUpdate(phases, w, next);
      permits := permits + 1;
      if failure.Some? {
        callbacks := callbacks + [Failure(failure.value)];
      }
      closeCalls := closeCalls + closes;
      phases := phases[w := next];
    }

    /** The permits in use are those of the busy workers: never more than THREADS are
        available, and all of them are while no worker is busy. */
    lemma PermitsBounded()
      requires Valid()
      ensures permits <= threads
      ensures (forall v :: 0 <= v < |phases| ==> !phases[v].Busy?) ==> permits == threads
    {
      BusyCountBounded(phases);
    }

    /** setBitmapSize. */
    method SetBitmapSize(width: Int32, height: Int32)
      modifies this`outWidth, this`outHeight
      ensures outWidth == width && outHeight == height
      ensures queue == old(queue) && permits == old(permits) && stops == old(stops) && phases == old(phases)
      ensures callbacks == old(callbacks) && imageQueueTimeout == old(imageQueueTimeout) && lastImageQueueTime == old(lastImageQueueTime) && handledImageCounter == old(handledImageCounter)
      ensures handlingTime == old(handlingTime) && submitted == old(submitted) && closeCalls == old(closeCalls)
    {
      outHeight := height;
      outWidth := width;
    }
  }

  /** A started handler with one worker, one frame handed in at time 1000: it is queued. */
  method QueuedScenario() returns (handler: ImageHandler)
    ensures fresh(handler) && fresh(handler.handlers) && handler.Valid() && handler.Started()
    ensures handler.queue == [Image(7, 640, 480)] && handler.closeCalls == [] && handler.callbacks == []
    ensures handler.phases == [Polling] && handler.stops == [false] && handler.permits == 1
    ensures handler.lastImageQueueTime == 1000 && handler.handledImageCounter == 0 && handler.handlingTime == 0
    ensures handler.outWidth == 0
  {
    handler := new ImageHandler(1);
    handler.Start();
    assert handler.phases == [Polling] && handler.stops == [false] && handler.handlers[0] == Some(0);
    var decision := handler.Recognize(Some(Image(7, 640, 480)), 1000);
    assert decision == Ok(Queued);
  }

  /** One worker, one frame: started, the frame queued at time 1000 is recognised with a
      plate result and lanes, and closed once. */
  method RecognitionScenario(result: AlprResult, lanes: LaneDetectorResult) returns (handler: ImageHandler)
    ensures fresh(handler) && fresh(handler.handlers) && handler.Valid() && handler.Started()
    ensures handler.callbacks == [LicensePlateDetected(false, result), LaneDetected(640, 480, lanes)]
    ensures handler.closeCalls == [Image(7, 640, 480)]
    ensures handler.phases == [Polling] && handler.stops == [false] && handler.permits == 1 && handler.queue == []
    ensures handler.handledImageCounter == 1 && handler.handlingTime == result.totalProcessingTime
    ensures handler.imageQueueTimeout == 500
  {
    var image := Image(7, 640, 480);
    handler := QueuedScenario();
    var polled := handler.PollStep(0);
    assert polled == Some(image) && handler.phases == [Acquiring(image)];
    handler.AcquireStep(0);
    assert handler.phases == [Busy(image)];
    var pass := Pass(Done(100), Done(result), Done(()), Done(lanes), Done(()));
    assert Delivered(image, pass, 0) == [LicensePlateDetected(false, result), LaneDetected(640, 480, lanes)];
    handler.FinishStep(0, pass, 500);
  }

  /** After stop, the worker ends on its next poll and nothing further is closed. */
  method StopScenario(result: AlprResult, lanes: LaneDetectorResult) returns (handler: ImageHandler)
    ensures handler.Valid() && !handler.Started()
    ensures handler.callbacks == [LicensePlateDetected(false, result), LaneDetected(640, 480, lanes)]
    ensures handler.closeCalls == [Image(7, 640, 480)]
    ensures handler.phases == [Terminated] && handler.permits == 1 && handler.queue == []
  {
    handler := RecognitionScenario(result, lanes);
    handler.Stop();
    assert handler.stops == [true];
    var polled := handler.PollStep(0);
  }

  /** A throwing onLaneDetected: the lanes are delivered and the exception then reaches
      onFailure, which ends the worker and closes the frame a second time. */
  method LaneCallbackFailureScenario(result: AlprResult, lanes: LaneDetectorResult) returns (handler: ImageHandler)
    ensures handler.Valid() && handler.Started()
    ensures handler.callbacks == [LicensePlateDetected(false, result), LaneDetected(640, 480, lanes), Failure(Runtime("callback"))]
    ensures handler.closeCalls == [Image(7, 640, 480), Image(7, 640, 480)]
    ensures handler.phases == [Terminated] && handler.permits == 1 && handler.queue == []
  {
    var image := Image(7, 640, 480);
    handler := QueuedScenario();
    var polled := handler.PollStep(0);
    assert polled == Some(image) && handler.phases == [Acquiring(image)];
    handler.AcquireStep(0);
    var pass := Pass(Done(100), Done(result), Done(()), Done(lanes), Failed(Runtime("callback")));
    assert Delivered(image, pass, 0) == [LicensePlateDetected(false, result), LaneDetected(640, 480, lanes), Failure(Runtime("callback"))];
    handler.FinishStep(0, pass, 500);
  }

  /** An onLicensePlateDetected that finds the frame closed: its IllegalStateException is
      caught by the per-image catch, lane detection is skipped and the worker polls again. */
  method ClosedInCallbackScenario(result: AlprResult, lanes: LaneDetectorResult) returns (handler: ImageHandler)
    ensures handler.Valid() && handler.Started()
    ensures handler.callbacks == [LicensePlateDetected(false, result)]
    ensures handler.closeCalls == [Image(7, 640, 480)]
    ensures handler.phases == [Polling] && handler.permits == 1 && handler.queue == []
  {
    var image := Image(7, 640, 480);
    handler := QueuedScenario();
    var polled := handler.PollStep(0);
    assert polled == Some(image) && handler.phases == [Acquiring(image)];
    handler.AcquireStep(0);
    var pass := Pass(Done(100), Done(result), Failed(IllegalState), Done(lanes), Done(()));
    assert Delivered(image, pass, 0) == [LicensePlateDetected(false, result)];
    handler.FinishStep(0, pass, 500);
  }
}
