/** What alpr/ImageHandler.java and alpr/AlprHandler.java share, written once: the camera
    frames, the ordered admission decision of recognize, the queue intake it drives, the phases
    of a worker, and the configuration check of the constructors. */
module FramePipeline {
  import opened Wrappers
  import opened JavaInt

  const DEFAULT_IMAGE_QUEUE_TIMEOUT: int := 1000
  const CONFIG_FILE_NAME: string := "openalpr.conf"
  const RUNTIME_DIR: string := "runtime_data"

  /** A camera frame (android.media.Image), by identity and size. */
  datatype Image = Image(id: nat, width: Int32, height: Int32)

  /** The five ways recognize can end. */
  datatype Decision = NotStarted | NoPermits | TooSoon | Queued | QueueFull

  /** Whether recognize stamps lastImageQueueTime: exactly when the image passes the gate. */
  predicate Stamps(d: Decision)
  {
    d == Queued || d == QueueFull
  }

  /** recognize's ordered checks: not started, then no permits, then the gate interval not yet
      elapsed; otherwise the image is offered to the queue, which refuses it when full. */
  function Admit(started: bool, permits: nat, now: int, lastQueued: int, timeout: int, queued: nat, capacity: nat): (d: Decision)
    ensures d == NotStarted <==> !started
    ensures d == NoPermits <==> started && permits == 0
    ensures d == TooSoon <==> started && permits > 0 && now - lastQueued < timeout
    ensures Stamps(d) <==> started && permits > 0 && now - lastQueued >= timeout
    ensures d == Queued ==> queued < capacity
    ensures d == QueueFull ==> queued >= capacity
  {
    if !started then NotStarted
    else if permits == 0 then NoPermits
    else if now - lastQueued < timeout then TooSoon
    else if queued < capacity then Queued
    else QueueFull
  }

  /** The handler state recognize reads but does not change. */
  datatype Gate = Gate(started: bool, permits: nat, timeout: int, capacity: nat)

  /** The part of the handler state recognize changes: the queue, the gate stamp and the list of
      images closed so far. */
  datatype Intake = Intake(queue: seq<Image>, lastQueued: int, closed: seq<Image>)

  /** One recognize call on an image at time `now`. */
  function Submit(s: Intake, g: Gate, image: Image, now: int): (r: Intake)
    ensures s.queue <= r.queue && s.closed <= r.closed
    ensures |r.queue| + |r.closed| == |s.queue| + |s.closed| + 1
    ensures r.lastQueued == s.lastQueued || r.lastQueued == now
  {
    var d := Admit(g.started, g.permits, now, s.lastQueued, g.timeout, |s.queue|, g.capacity);
    Intake(if d == Queued then s.queue + [image] else s.queue,
           if Stamps(d) then now else s.lastQueued,
           if d == Queued then s.closed else s.closed + [image])
  }

  /** Every submitted image is either appended at the tail of the queue or closed, never both,
      and the queue stays within its capacity. */
  lemma SubmitQueuesOrCloses(s: Intake, g: Gate, image: Image, now: int)
    requires |s.queue| <= g.capacity
    ensures var r := Submit(s, g, image, now);
            |r.queue| <= g.capacity &&
            ((r.queue == s.queue + [image] && r.closed == s.closed) ||
             (r.queue == s.queue && r.closed == s.closed + [image]))
  {
  }

  /** A camera frame arriving at a given time. */
  datatype Frame = Frame(image: Image, now: int)

  /** A run of recognize calls with no worker step in between. */
  function Run(s: Intake, g: Gate, frames: seq<Frame>): (r: Intake)
    ensures s.queue <= r.queue && s.closed <= r.closed
    ensures |r.queue| + |r.closed| == |s.queue| + |s.closed| + |frames|
    decreases |frames|
  {
    if frames == [] then s else Run(Submit(s, g, frames[0].image, frames[0].now), g, frames[1..])
  }

  /** The times at which a run stamps lastImageQueueTime. */
  function StampTimes(s: Intake, g: Gate, frames: seq<Frame>): seq<int>
    decreases |frames|
  {
    if frames == [] then []
    else
      var d := Admit(g.started, g.permits, frames[0].now, s.lastQueued, g.timeout, |s.queue|, g.capacity);
      var rest := StampTimes(Submit(s, g, frames[0].image, frames[0].now), g, frames[1..]);
      if Stamps(d) then [frames[0].now] + rest else rest
  }

  /** The images a run queues, in arrival order, and those it closes. */
  function Admitted(s: Intake, g: Gate, frames: seq<Frame>): seq<Image>
    decreases |frames|
  {
    if frames == [] then []
    else
      var d := Admit(g.started, g.permits, frames[0].now, s.lastQueued, g.timeout, |s.queue|, g.capacity);
      (if d == Queued then [frames[0].image] else []) + Admitted(Submit(s, g, frames[0].image, frames[0].now), g, frames[1..])
  }

  function Rejected(s: Intake, g: Gate, frames: seq<Frame>): seq<Image>
    decreases |frames|
  {
    if frames == [] then []
    else
      var d := Admit(g.started, g.permits, frames[0].now, s.lastQueued, g.timeout, |s.queue|, g.capacity);
      (if d == Queued then [] else [frames[0].image]) + Rejected(Submit(s, g, frames[0].image, frames[0].now), g, frames[1..])
  }

  function Images(frames: seq<Frame>): seq<Image>
  {
    if frames == [] then [] else [frames[0].image] + Images(frames[1..])
  }

  /** A run appends the images it admits to the queue tail, in arrival order, closes the others
      in arrival order, and keeps the queue within capacity. */
  lemma RunIsFifo(s: Intake, g: Gate, frames: seq<Frame>)
    requires |s.queue| <= g.capacity
    ensures Run(s, g, frames).queue == s.queue + Admitted(s, g, frames)
    ensures Run(s, g, frames).closed == s.closed + Rejected(s, g, frames)
    ensures |Run(s, g, frames).queue| <= g.capacity
  {
    RunQueues(s, g, frames);
    RunCloses(s, g, frames);
    RunWithinCapacity(s, g, frames);
  }

  lemma {:induction false} RunWithinCapacity(s: Intake, g: Gate, frames: seq<Frame>)
    requires |s.queue| <= g.capacity
    ensures |Run(s, g, frames).queue| <= g.capacity
    decreases |frames|
  {
    if frames != [] {
      SubmitQueuesOrCloses(s, g, frames[0].image, frames[0].now);
      RunWithinCapacity(Submit(s, g, frames[0].image, frames[0].now), g, frames[1..]);
    }
  }

  lemma {:induction false} RunQueues(s: Intake, g: Gate, frames: seq<Frame>)
    ensures Run(s, g, frames).queue == s.queue + Admitted(s, g, frames)
    decreases |frames|
  {
    if frames != [] {
      var s1 := Submit(s, g, frames[0].image, frames[0].now);
      RunQueues(s1, g, frames[1..]);
      QueueStep(s, g, frames);
    }
  }

  /** The first frame of a run: what it adds to the queue and what the rest then admits. */
  lemma {:induction false} QueueStep(s: Intake, g: Gate, frames: seq<Frame>)
    requires frames != []
    ensures var s1 := Submit(s, g, frames[0].image, frames[0].now);
            s1.queue + Admitted(s1, g, frames[1..]) == s.queue + Admitted(s, g, frames)
  {
    var f := frames[0];
    var s1 := Submit(s, g, f.image, f.now);
    var later := Admitted(s1, g, frames[1..]);
    var d := Admit(g.started, g.permits, f.now, s.lastQueued, g.timeout, |s.queue|, g.capacity);
    var head := if d == Queued then [f.image] else [];
    assert Admitted(s, g, frames) == head + later;
    assert s1.queue == s.queue + head;
    ConcatAssociates(s.queue, head, later);
  }

  lemma ConcatAssociates<T>(a: seq<T>, b: seq<T>, c: seq<T>)
    ensures (a + b) + c == a + (b + c)
  {
  }

  lemma {:induction false} RunCloses(s: Intake, g: Gate, frames: seq<Frame>)
    ensures Run(s, g, frames).closed == s.closed + Rejected(s, g, frames)
    decreases |frames|
  {
    if frames != [] {
      var f := frames[0];
      var s1 := Submit(s, g, f.image, f.now);
      RunCloses(s1, g, frames[1..]);
      var d := Admit(g.started, g.permits, f.now, s.lastQueued, g.timeout, |s.queue|, g.capacity);
      var head := if d == Queued then [] else [f.image];
      assert s1.closed == s.closed + head;
      ConcatAssociates(s.closed, head, Rejected(s1, g, frames[1..]));
    }
  }

  /** A run loses no image: each one is admitted or rejected. */
  lemma {:induction false} RunIsLossless(s: Intake, g: Gate, frames: seq<Frame>)
    ensures multiset(Admitted(s, g, frames)) + multiset(Rejected(s, g, frames)) == multiset(Images(frames))
    decreases |frames|
  {
    if frames != [] {
      var image := frames[0].image;
      var s1 := Submit(s, g, image, frames[0].now);
      var rest := frames[1..];
      RunIsLossless(s1, g, rest);
      var d := Admit(g.started, g.permits, frames[0].now, s.lastQueued, g.timeout, |s.queue|, g.capacity);
      var a1 := Admitted(s1, g, rest);
      var r1 := Rejected(s1, g, rest);
      assert multiset(Images(frames)) == multiset{image} + multiset(Images(rest));
      if d == Queued {
        assert Admitted(s, g, frames) == [image] + a1 && Rejected(s, g, frames) == r1;
        assert multiset(Admitted(s, g, frames)) == multiset{image} + multiset(a1);
      } else {
        assert Admitted(s, g, frames) == a1 && Rejected(s, g, frames) == [image] + r1;
        assert multiset(Rejected(s, g, frames)) == multiset{image} + multiset(r1);
      }
    }
  }

  /** Every stamp is at least the gate interval after the previous one (the first after the
      stamp the run started from), and the run ends with the last stamp. */
  lemma {:induction false} StampsAreSpaced(s: Intake, g: Gate, frames: seq<Frame>)
    ensures var p := StampTimes(s, g, frames);
            (|p| > 0 ==> p[0] - s.lastQueued >= g.timeout) &&
            (forall i :: 0 < i < |p| ==> p[i] - p[i - 1] >= g.timeout) &&
            Run(s, g, frames).lastQueued == (if |p| == 0 then s.lastQueued else p[|p| - 1])
    decreases |frames|
  {
    if frames != [] {
      var s1 := Submit(s, g, frames[0].image, frames[0].now);
      StampsAreSpaced(s1, g, frames[1..]);
    }
  }

  lemma {:induction false} AdmittedAreStamped(s: Intake, g: Gate, frames: seq<Frame>)
    ensures |Admitted(s, g, frames)| <= |StampTimes(s, g, frames)|
    decreases |frames|
  {
    if frames != [] {
      AdmittedAreStamped(Submit(s, g, frames[0].image, frames[0].now), g, frames[1..]);
    }
  }

  /** Once a frame of time `t` has been stamped, later frames of the same time are all turned
      away by the gate. */
  lemma {:induction false} GateClosedWithinInterval(s: Intake, g: Gate, frames: seq<Frame>, t: int)
    requires g.timeout > 0 && s.lastQueued == t
    requires forall i :: 0 <= i < |frames| ==> frames[i].now == t
    ensures Admitted(s, g, frames) == []
    decreases |frames|
  {
    if frames != [] {
      GateClosedWithinInterval(Submit(s, g, frames[0].image, frames[0].now), g, frames[1..], t);
    }
  }

  /** A burst of frames arriving in the same millisecond queues at most one of them, whenever
      the gate interval is positive. */
  lemma {:induction false} SameInstantQueuesAtMostOne(s: Intake, g: Gate, frames: seq<Frame>, t: int)
    requires g.timeout > 0
    requires forall i :: 0 <= i < |frames| ==> frames[i].now == t
    ensures |Admitted(s, g, frames)| <= 1
    decreases |frames|
  {
    if frames != [] {
      var s1 := Submit(s, g, frames[0].image, frames[0].now);
      var d := Admit(g.started, g.permits, frames[0].now, s.lastQueued, g.timeout, |s.queue|, g.capacity);
      if Stamps(d) {
        GateClosedWithinInterval(s1, g, frames[1..], t);
      } else {
        SameInstantQueuesAtMostOne(s1, g, frames[1..], t);
      }
    }
  }

  /** Where a worker is in its poll loop, and the image it holds there. */
  datatype Phase =
    | Polling                 // about to poll the queue
    | Acquiring(image: Image) // holds a polled image, about to acquire a permit
    | Busy(image: Image)      // holds an image and a permit
    | Terminated              // left the loop

  /** The outcome of a call into code this model does not contain: a value, or the exception it
      threw. */
  datatype Outcome<+T> = Done(value: T) | Failed(error: Exception)

  /** The number of workers holding a permit. */
  function BusyCount(phases: seq<Phase>): nat
  {
    if phases == [] then 0
    else BusyCount(phases[..|phases| - 1]) + (if phases[|phases| - 1].Busy? then 1 else 0)
  }

  lemma {:induction false} BusyCountBounded(phases: seq<Phase>)
    ensures BusyCount(phases) <= |phases|
    ensures (forall v :: 0 <= v < |phases| ==> !phases[v].Busy?) ==> BusyCount(phases) == 0
  {
    if phases != [] {
      BusyCountBounded(phases[..|phases| - 1]);
    }
  }

  /** Changing one worker's phase changes the count by what that worker contributes. */
  lemma {:induction false} BusyCountUpdate(phases: seq<Phase>, w: nat, p: Phase)
    requires w < |phases|
    ensures BusyCount(phases[w := p]) ==
              BusyCount(phases) - (if phases[w].Busy? then 1 else 0) + (if p.Busy? then 1 else 0)
    decreases |phases|
  {
    var n := |phases| - 1;
    if w < n {
      assert phases[w := p][..n] == phases[..n][w := p];
      BusyCountUpdate(phases[..n], w, p);
    } else {
      assert phases[w := p][..n] == phases[..n];
    }
  }

  lemma BusyCountAppend(phases: seq<Phase>, p: Phase)
    ensures BusyCount(phases + [p]) == BusyCount(phases) + (if p.Busy? then 1 else 0)
  {
    assert (phases + [p])[..|phases|] == phases;
  }

  predicate Holds(p: Phase, image: Image)
  {
    (p.Acquiring? || p.Busy?) && p.image == image
  }

  /** Some worker holds the image. */
  ghost predicate IsHeld(phases: seq<Phase>, image: Image)
  {
    exists v :: 0 <= v < |phases| && Holds(phases[v], image)
  }

  /** Changing one worker's phase keeps every image another worker holds held, and holds the
      image of the new phase. */
  lemma HeldAfterUpdate(phases: seq<Phase>, w: nat, p: Phase, image: Image)
    requires w < |phases|
    ensures IsHeld(phases, image) && !Holds(phases[w], image) ==> IsHeld(phases[w := p], image)
    ensures Holds(p, image) ==> IsHeld(phases[w := p], image)
  {
    if IsHeld(phases, image) && !Holds(phases[w], image) {
      var v :| 0 <= v < |phases| && Holds(phases[v], image);
      assert phases[w := p][v] == phases[v];
    }
    if Holds(p, image) {
      assert phases[w := p][w] == p;
    }
  }

  lemma HeldAfterAppend(phases: seq<Phase>, p: Phase, image: Image)
    ensures IsHeld(phases, image) ==> IsHeld(phases + [p], image)
  {
    if IsHeld(phases, image) {
      var v :| 0 <= v < |phases| && Holds(phases[v], image);
      assert (phases + [p])[v] == phases[v];
    }
  }

  /** No image is lost: each one ever handed in is still queued, has been closed, or is held by
      a worker. */
  ghost predicate NoLeak(submitted: set<Image>, queue: seq<Image>, closed: seq<Image>, phases: seq<Phase>)
  {
    forall image :: image in submitted ==> image in queue || image in closed || IsHeld(phases, image)
  }

  /** A new worker loses no image and holds no permit. */
  lemma NoLeakAfterAppend(submitted: set<Image>, queue: seq<Image>, closed: seq<Image>, phases: seq<Phase>, p: Phase)
    requires NoLeak(submitted, queue, closed, phases)
    ensures NoLeak(submitted, queue, closed, phases + [p])
    ensures BusyCount(phases + [p]) == BusyCount(phases) + (if p.Busy? then 1 else 0)
  {
    forall image | image in submitted
      ensures image in queue || image in closed || IsHeld(phases + [p], image)
    {
      HeldAfterAppend(phases, p, image);
    }
    BusyCountAppend(phases, p);
  }

  /** Closing more images loses none. */
  lemma NoLeakAfterClose(submitted: set<Image>, queue: seq<Image>, closed: seq<Image>, phases: seq<Phase>, more: seq<Image>)
    requires NoLeak(submitted, queue, closed, phases)
    ensures NoLeak(submitted, queue, closed + more, phases)
  {
  }

  /** Closing the whole queue loses nothing. */
  lemma NoLeakAfterDrain(submitted: set<Image>, queue: seq<Image>, closed: seq<Image>, phases: seq<Phase>)
    requires NoLeak(submitted, queue, closed, phases)
    ensures NoLeak(submitted, [], closed + queue, phases)
  {
  }

  /** A worker that lets go of its image loses nothing once that image is closed. */
  lemma NoLeakAfterSettle(submitted: set<Image>, queue: seq<Image>, closed: seq<Image>, phases: seq<Phase>, w: nat, p: Phase)
    requires NoLeak(submitted, queue, closed, phases) && w < |phases|
    requires (phases[w].Acquiring? || phases[w].Busy?) ==> phases[w].image in closed
    ensures NoLeak(submitted, queue, closed, phases[w := p])
  {
    forall image | image in submitted
      ensures image in queue || image in closed || IsHeld(phases[w := p], image)
    {
      HeldAfterUpdate(phases, w, p, image);
    }
  }

  /** A polling worker that takes the queue head and holds or closes it loses nothing. */
  lemma NoLeakAfterTake(submitted: set<Image>, queue: seq<Image>, closed: seq<Image>, phases: seq<Phase>, w: nat, p: Phase)
    requires NoLeak(submitted, queue, closed, phases) && queue != [] && w < |phases| && phases[w] == Polling
    requires Holds(p, queue[0]) || queue[0] in closed
    ensures NoLeak(submitted, queue[1..], closed, phases[w := p])
  {
    forall image | image in submitted
      ensures image in queue[1..] || image in closed || IsHeld(phases[w := p], image)
    {
      HeldAfterUpdate(phases, w, p, image);
      if image == queue[0] {
      } else if image in queue {
        var k :| 0 <= k < |queue| && queue[k] == image;
        assert queue[1..][k - 1] == image;
      }
    }
  }

  /** What a path names in Java's file system model. */
  datatype FileKind = RegularFile | Directory
  type FileSystem = map<string, FileKind>

  /** new File(dir, name): the child path below the directory. */
  function ChildPath(dir: string, name: string): (path: string)
    ensures |path| > |name| && path[|path| - |name|..] == name && path[..|path| - |name|] == dir + (if |path| - |name| > |dir| then "/" else "")
  {
    if |dir| > 0 && dir[|dir| - 1] == '/' then dir + name else dir + "/" + name
  }

  predicate IsFile(fs: FileSystem, path: string)
  {
    path in fs && fs[path] == RegularFile
  }

  predicate IsDirectory(fs: FileSystem, path: string)
  {
    path in fs && fs[path] == Directory
  }

  /** checkAlprConfiguration: the configuration file must exist as a file and the runtime data
      directory as a directory, checked in that order. */
  function CheckAlprConfiguration(configDir: string, fs: FileSystem): (r: Result<()>)
    ensures r.Ok? <==> IsFile(fs, ChildPath(configDir, CONFIG_FILE_NAME)) && IsDirectory(fs, ChildPath(configDir, RUNTIME_DIR))
    ensures !IsFile(fs, ChildPath(configDir, CONFIG_FILE_NAME)) ==>
              r == Throws(Runtime("No alpr config file " + ChildPath(configDir, CONFIG_FILE_NAME)))
    ensures IsFile(fs, ChildPath(configDir, CONFIG_FILE_NAME)) && !IsDirectory(fs, ChildPath(configDir, RUNTIME_DIR)) ==>
              r == Throws(Runtime("No alpr runtime dir " + ChildPath(configDir, RUNTIME_DIR)))
  {
    var configFile := ChildPath(configDir, CONFIG_FILE_NAME);
    var runtimeDir := ChildPath(configDir, RUNTIME_DIR);
    if !IsFile(fs, configFile) then Throws(Runtime("No alpr config file " + configFile))
    else if !IsDirectory(fs, runtimeDir) then Throws(Runtime("No alpr runtime dir " + runtimeDir))
    else Ok(())
  }

  /** A directory that is itself a file, or whose runtime data is a plain file, is refused. */
  lemma ConfigurationKindsMatter(configDir: string)
    ensures CheckAlprConfiguration(configDir, map[ChildPath(configDir, CONFIG_FILE_NAME) := Directory,
                                                  ChildPath(configDir, RUNTIME_DIR) := Directory]).Throws?
    ensures CheckAlprConfiguration(configDir, map[ChildPath(configDir, CONFIG_FILE_NAME) := RegularFile,
                                                  ChildPath(configDir, RUNTIME_DIR) := RegularFile]).Throws?
  {
    ConfigPathsDiffer(configDir);
  }

  /** The two configuration paths are different. */
  lemma ConfigPathsDiffer(configDir: string)
    ensures ChildPath(configDir, CONFIG_FILE_NAME) != ChildPath(configDir, RUNTIME_DIR)
  {
  }
}
