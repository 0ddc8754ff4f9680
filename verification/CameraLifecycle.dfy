/** The life of the camera object: which of its parts are up, as a machine over the public calls,
    with the outcome of every creation attempt part of the call. */
module CameraLifecycle {
  import opened CameraParameters

  datatype Camera = Camera(
    isOpen: bool,            // m_is_opened
    ready: bool,             // m_are_video_components_ready
    preview: bool,           // m_is_video_preview_opened
    recording: bool,         // m_is_video_recording
    still: bool,             // m_is_still_preview_opened
    videoPort: bool,         // the resizer's output port is enabled with the preview callback
    stillPort: bool,         // so is the camera's preview port
    params: Params,
    device: Registers)

  /** One attempt to create the video components: whether opening the camera succeeds if it is
      needed, with which registers the new component starts, and whether the rest succeeds. */
  datatype Attempt = Attempt(opens: bool, blank: Registers, builds: bool)

  datatype Event =
    | Open(ok: bool, blank: Registers)
    | Release
    | StartPreview(first: Attempt, second: Attempt, works: bool)   // works: the resizer is set up
    | StopPreview
    | StartRecord(first: Attempt, second: Attempt)
    | StopRecord
    | StartStill(first: Attempt, second: Attempt, works: bool)     // works: the preview port is
    | StopStill
    | Set(setting: Setting)

  function New(blank: Registers): Camera {
    Camera(false, false, false, false, false, false, false, Defaults(), blank)
  }

  function Opened(c: Camera, ok: bool, blank: Registers): Camera {
    if c.isOpen || !ok then c
    else c.(isOpen := true, params := AtOpen(c.params), device := Committed(blank, c.params))
  }

  /** Tearing down the video components takes whatever runs on them down too, but only while they
      are up: the stop calls it makes do nothing otherwise. */
  function Destroyed(c: Camera): Camera {
    if c.isOpen && c.ready then
      c.(ready := false, preview := false, recording := false, videoPort := c.videoPort && !c.preview)
    else c.(ready := false)
  }

  function Created(c: Camera, a: Attempt): Camera {
    var o := Opened(c, a.opens, a.blank);
    if a.builds then o.(ready := true) else Destroyed(o)
  }

  function EnsureReady(c: Camera, a: Attempt): Camera {
    if c.ready then c else Created(c, a)
  }

  /** An attempt changes no flag but readiness and openness. */
  lemma EnsureKeeps(c: Camera, a: Attempt)
    ensures var d := EnsureReady(c, a);
            && d.preview == c.preview && d.recording == c.recording && d.still == c.still
            && d.videoPort == c.videoPort && d.stillPort == c.stillPort
            && (c.isOpen ==> d.isOpen) && (c.ready ==> d.ready) && (d.ready ==> c.ready || a.builds)
  {
  }

  lemma EnsureTwice(c: Camera, first: Attempt, second: Attempt)
    ensures var d := EnsureReady(EnsureReady(c, first), second);
            && d.preview == c.preview && d.recording == c.recording && d.still == c.still
            && d.videoPort == c.videoPort && d.stillPort == c.stillPort
            && (c.isOpen ==> d.isOpen) && (c.ready ==> d.ready) && (d.ready ==> c.ready || first.builds || second.builds)
  {
    EnsureKeeps(c, first);
    EnsureKeeps(EnsureReady(c, first), second);
  }

  function PreviewStopped(c: Camera): Camera {
    if !c.isOpen || !c.ready || !c.preview then c
    else c.(preview := false, ready := c.recording, videoPort := false)
  }

  function RecordStopped(c: Camera): Camera {
    if !c.isOpen || !c.ready || !c.recording then c
    else c.(recording := false, ready := c.preview)
  }

  function StillStopped(c: Camera): Camera {
    if !c.isOpen || !c.still then c else c.(still := false, stillPort := false)
  }

  function PreviewStarted(c: Camera, first: Attempt, second: Attempt, works: bool): Camera {
    var d := EnsureReady(EnsureReady(c, first), second);
    d.(preview := true, videoPort := works && d.ready && d.isOpen)
  }

  function StillStarted(c: Camera, first: Attempt, second: Attempt, works: bool): Camera {
    var o := if c.isOpen || c.recording then c else Opened(c, first.opens, first.blank);
    var d := Opened(o, second.opens, second.blank);
    d.(still := true, stillPort := works && d.isOpen)
  }

  /** Everything that runs on ready components is stopped; what is only marked as running stays so. */
  function Released(c: Camera): Camera {
    if !c.isOpen then c
    else c.(isOpen := false, ready := false, still := false,
            preview := c.preview && !c.ready, recording := c.recording && !c.ready,
            videoPort := false, stillPort := false)
  }

  function SetTo(c: Camera, s: Setting): Camera {
    var p := Changed(c.params, s);
    c.(params := p, device := if c.isOpen then Written(c.device, p, s) else c.device)
  }

  function Step(c: Camera, e: Event): Camera {
    match e
    case Open(ok, blank) => Opened(c, ok, blank)
    case Release => Released(c)
    case StartPreview(first, second, works) => PreviewStarted(c, first, second, works)
    case StopPreview => PreviewStopped(c)
    case StartRecord(first, second) => EnsureReady(EnsureReady(c, first), second).(recording := true)
    case StopRecord => RecordStopped(c)
    case StartStill(first, second, works) => StillStarted(c, first, second, works)
    case StopStill => StillStopped(c)
    case Set(s) => SetTo(c, s)
  }

  function Exec(c: Camera, events: seq<Event>): Camera
    decreases |events|
  {
    if events == [] then c else Exec(Step(c, events[0]), events[1..])
  }

  // ------------------------------------------------------------ flags

  /** What the flags are meant to say. */
  predicate Coherent(c: Camera) {
    && (c.ready <==> c.preview || c.recording)
    && (c.ready ==> c.isOpen)
    && (c.still ==> c.isOpen)
  }

  predicate Idle(c: Camera) { !c.isOpen && !c.ready && !c.preview && !c.recording && !c.still }

  /** Whether an attempt leaves usable components. */
  predicate BringsUp(c: Camera, first: Attempt, second: Attempt) {
    || c.ready
    || (first.builds && (c.isOpen || first.opens))
    || (!first.builds && second.builds && (c.isOpen || first.opens || second.opens))
  }

  /** The outcome of an event that the flags afterwards take for granted. */
  predicate Succeeds(c: Camera, e: Event) {
    match e
    case StartPreview(first, second, _) => BringsUp(c, first, second)
    case StartRecord(first, second) => BringsUp(c, first, second)
    case StartStill(first, second, _) => c.isOpen || first.opens || second.opens
    case _ => true
  }

  /** An event keeps the flags coherent exactly when, if it starts something, one of its attempts
      succeeded: nothing else in the object can disturb them. */
  lemma CoherentExactlyOnSuccess(c: Camera, e: Event)
    requires Coherent(c)
    ensures Coherent(Step(c, e)) <==> Succeeds(c, e)
  {
    match e
    case StartPreview(first, second, _) => StartOutcome(c, first, second);
    case StartRecord(first, second) => StartOutcome(c, first, second);
    case _ =>
  }

  lemma StartOutcome(c: Camera, first: Attempt, second: Attempt)
    requires Coherent(c)
    ensures var d := EnsureReady(EnsureReady(c, first), second);
            && (d.ready && d.isOpen <==> BringsUp(c, first, second))
            && d.preview == c.preview && d.recording == c.recording && d.still == c.still
            && (c.isOpen ==> d.isOpen)
  {
    var d1 := EnsureReady(c, first);
    assert !c.ready ==> !c.preview && !c.recording;
    assert first.builds && !c.ready ==> d1.ready;
  }

  predicate AllSucceed(c: Camera, events: seq<Event>)
    decreases |events|
  {
    events == [] || (Succeeds(c, events[0]) && AllSucceed(Step(c, events[0]), events[1..]))
  }

  /** In every run whose starts find or create what they need, the flags are coherent between calls
      and releasing leaves all of them false. */
  lemma {:induction false} SuccessfulRunsStayCoherent(blank: Registers, events: seq<Event>)
    requires AllSucceed(New(blank), events)
    ensures Coherent(Exec(New(blank), events)) && Idle(Released(Exec(New(blank), events)))
  {
    KeepsCoherent(New(blank), events);
  }

  lemma {:induction false} KeepsCoherent(c: Camera, events: seq<Event>)
    requires Coherent(c) && AllSucceed(c, events)
    ensures Coherent(Exec(c, events))
    decreases |events|
  {
    if events != [] {
      CoherentExactlyOnSuccess(c, events[0]);
      KeepsCoherent(Step(c, events[0]), events[1..]);
    }
  }

  // ------------------------------------------------------------ grab and its frames

  /** The guard of grab. */
  predicate GrabWaits(c: Camera) { c.isOpen && (c.still || c.preview) }

  /** Some port hands its frames to the preview callback. */
  predicate Produces(c: Camera) { c.videoPort || c.stillPort }

  /** grab waits and nothing can end its wait. */
  predicate GrabBlocks(c: Camera) { GrabWaits(c) && !Produces(c) }

  predicate DeliversVideo(c: Camera, e: Event)
    requires e.StartPreview?
  {
    var d := EnsureReady(EnsureReady(c, e.first), e.second);
    e.works && d.ready && d.isOpen
  }

  predicate DeliversStill(c: Camera, e: Event)
    requires e.StartStill?
  {
    e.works && (c.isOpen || (!c.recording && e.first.opens) || e.second.opens)
  }

  predicate Delivers(c: Camera, e: Event) {
    (e.StartPreview? ==> DeliversVideo(c, e)) && (e.StartStill? ==> DeliversStill(c, e))
  }

  /** Ports are enabled only for what is marked as running. */
  predicate PortsOk(c: Camera) {
    (c.videoPort ==> c.preview && c.ready && c.isOpen) && (c.stillPort ==> c.still && c.isOpen)
  }

  /** Everything marked as a preview has a port that produces. */
  predicate Backed(c: Camera) {
    PortsOk(c) && (c.preview ==> c.videoPort) && (c.still ==> c.stillPort)
  }

  predicate StartsVideo(e: Event) { e.StartPreview? || e.StartRecord? }

  /** Whether any attempt of an event builds the components. */
  predicate Builds(e: Event) {
    StartsVideo(e) && (e.first.builds || e.second.builds)
  }

  /** What a video start does to the flags and ports. */
  lemma VideoStart(c: Camera, e: Event)
    requires StartsVideo(e)
    ensures var d := Step(c, e);
            && d.preview == (c.preview || e.StartPreview?) && d.recording == (c.recording || e.StartRecord?)
            && d.still == c.still && d.stillPort == c.stillPort
            && d.videoPort == (if e.StartPreview? then DeliversVideo(c, e) else c.videoPort)
            && (d.videoPort && e.StartPreview? ==> d.ready && d.isOpen)
            && (c.isOpen ==> d.isOpen) && (c.ready ==> d.ready) && (d.ready ==> c.ready || Builds(e))
  {
    EnsureTwice(c, e.first, e.second);
  }

  /** The flags and the ports agree from call to call exactly while every preview start gets its
      port going. */
  lemma BackedExactly(c: Camera, e: Event)
    requires Backed(c)
    ensures Backed(Step(c, e)) <==> Delivers(c, e)
  {
    StepKeepsPorts(c, e);
    if StartsVideo(e) { VideoStart(c, e); } else { OtherStep(c, e); OtherPorts(c, e); }
  }

  lemma StepKeepsPorts(c: Camera, e: Event)
    requires PortsOk(c)
    ensures PortsOk(Step(c, e))
  {
    if StartsVideo(e) { VideoStart(c, e); } else { OtherStep(c, e); OtherPorts(c, e); }
  }

  /** What any other call does to the flags. */
  lemma OtherStep(c: Camera, e: Event)
    requires !StartsVideo(e)
    ensures var d := Step(c, e);
            && (d.preview <==> c.preview && !(c.isOpen && c.ready && (e.StopPreview? || e.Release?)))
            && (d.recording <==> c.recording && !(c.isOpen && c.ready && (e.StopRecord? || e.Release?)))
            && (d.still <==> e.StartStill? || (c.still && !(c.isOpen && (e.StopStill? || e.Release?))))
            && (!c.ready ==> !d.ready)
  {
    match e
    case Open(_, _) =>
    case Release =>
    case StopPreview =>
    case StopRecord =>
    case StartStill(_, _, _) =>
    case StopStill =>
    case Set(_) =>
  }

  /** ... and to the ports. */
  lemma OtherPorts(c: Camera, e: Event)
    requires !StartsVideo(e) && PortsOk(c)
    ensures var d := Step(c, e);
            && (e.StartStill? ==> d.stillPort == DeliversStill(c, e))
            && PortsOk(d) && (d.preview ==> d.videoPort == c.videoPort)
            && (d.still && !e.StartStill? ==> d.stillPort == c.stillPort)
  {
    match e
    case Open(_, _) =>
    case Release =>
    case StopPreview =>
    case StopRecord =>
    case StartStill(_, _, _) =>
    case StopStill =>
    case Set(_) =>
  }

  /** Whether the latest startVideoPreview of a run got its port going. */
  predicate LatestPreviewDelivers(c: Camera, events: seq<Event>)
    decreases |events|
  {
    if events == [] then false else
    var n := |events| - 1;
    if events[n].StartPreview? then DeliversVideo(Exec(c, events[..n]), events[n])
    else LatestPreviewDelivers(c, events[..n])
  }

  predicate LatestStillDelivers(c: Camera, events: seq<Event>)
    decreases |events|
  {
    if events == [] then false else
    var n := |events| - 1;
    if events[n].StartStill? then DeliversStill(Exec(c, events[..n]), events[n])
    else LatestStillDelivers(c, events[..n])
  }

  lemma {:induction false} ExecLast(c: Camera, events: seq<Event>)
    requires events != []
    ensures Exec(c, events) == Step(Exec(c, events[..|events| - 1]), events[|events| - 1])
    decreases |events|
  {
    if |events| > 1 {
      var n := |events| - 1;
      ExecLast(Step(c, events[0]), events[1..]);
      assert events[1..][..n - 1] == events[..n][1..];
    }
  }

  lemma {:induction false} PortsFollowStarts(blank: Registers, events: seq<Event>)
    ensures var c := Exec(New(blank), events);
            && PortsOk(c)
            && (c.preview ==> (c.videoPort <==> LatestPreviewDelivers(New(blank), events)))
            && (c.still ==> (c.stillPort <==> LatestStillDelivers(New(blank), events)))
    decreases |events|
  {
    if events != [] {
      var n := |events| - 1;
      var c, e := Exec(New(blank), events[..n]), events[n];
      PortsFollowStarts(blank, events[..n]);
      ExecLast(New(blank), events);
      StepKeepsPorts(c, e);
      PortsKept(c, e);
    }
  }

  /** A port whose flag stays up changes only with its own start. */
  lemma PortsKept(c: Camera, e: Event)
    requires PortsOk(c)
    ensures Step(c, e).preview && !e.StartPreview? ==> c.preview && Step(c, e).videoPort == c.videoPort
    ensures Step(c, e).still && !e.StartStill? ==> c.still && Step(c, e).stillPort == c.stillPort
    ensures e.StartPreview? ==> Step(c, e).videoPort == DeliversVideo(c, e)
    ensures e.StartStill? ==> Step(c, e).stillPort == DeliversStill(c, e)
  {
    if StartsVideo(e) { VideoStart(c, e); } else { OtherStep(c, e); OtherPorts(c, e); }
  }

  /** After any run, grab waits with nothing to end its wait exactly when the camera is open, some
      preview is marked as running, and the latest start of each one so marked did not get its port
      going. */
  lemma GrabBlocksExactly(blank: Registers, events: seq<Event>)
    ensures var c := Exec(New(blank), events);
            GrabBlocks(c) <==>
              && c.isOpen && (c.preview || c.still)
              && (c.preview ==> !LatestPreviewDelivers(New(blank), events))
              && (c.still ==> !LatestStillDelivers(New(blank), events))
  {
    PortsFollowStarts(blank, events);
  }

  predicate AllDeliver(c: Camera, events: seq<Event>)
    decreases |events|
  {
    events == [] || (Delivers(c, events[0]) && AllDeliver(Step(c, events[0]), events[1..]))
  }

  /** If every preview start gets its port going, grab waits exactly while frames are produced. */
  lemma GrabHasSource(blank: Registers, events: seq<Event>)
    requires AllDeliver(New(blank), events)
    ensures GrabWaits(Exec(New(blank), events)) <==> Produces(Exec(New(blank), events))
  {
    KeepsBacked(New(blank), events);
  }

  lemma {:induction false} KeepsBacked(c: Camera, events: seq<Event>)
    requires Backed(c) && AllDeliver(c, events)
    ensures Backed(Exec(c, events))
    decreases |events|
  {
    if events != [] {
      BackedExactly(c, events[0]);
      KeepsBacked(Step(c, events[0]), events[1..]);
    }
  }

  /** Coherent flags do not help: a resizer that cannot be set up on ready components leaves them
      coherent and grab waiting for nothing. */
  lemma FailedResizerBlocksGrab(c: Camera, first: Attempt, second: Attempt)
    requires Coherent(c) && PortsOk(c) && !c.stillPort && BringsUp(c, first, second)
    ensures Coherent(Step(c, StartPreview(first, second, false))) && GrabBlocks(Step(c, StartPreview(first, second, false)))
  {
    StartOutcome(c, first, second);
    VideoStart(c, StartPreview(first, second, false));
  }

  // ------------------------------------------------------------ after a failed start

  /** Releasing clears every flag exactly when nothing is marked as running without components
      (or, for a camera that is not open, when there is nothing to clear). */
  lemma ReleaseClearsExactly(c: Camera)
    ensures Idle(Released(c)) <==> if c.isOpen then c.ready || (!c.preview && !c.recording) else Idle(c)
  {
  }

  /** Components are never up with nothing running on them, whatever fails. */
  predicate NothingIdles(c: Camera) { c.ready ==> c.preview || c.recording }

  lemma {:induction false} NothingIdlesEver(c: Camera, events: seq<Event>)
    requires NothingIdles(c)
    ensures NothingIdles(Exec(c, events))
    decreases |events|
  {
    if events != [] {
      NothingIdlesEver(Step(c, events[0]), events[1..]);
    }
  }

  /** A video preview or a recording marked as running by a start that failed stays so, through
      stops, releases and reopenings, until some later start builds the components. */
  lemma {:induction false} FailedStartSticks(c: Camera, events: seq<Event>)
    requires !c.ready && forall e :: e in events ==> !Builds(e)
    ensures var d := Exec(c, events);
            !d.ready && (c.preview ==> d.preview) && (c.recording ==> d.recording)
    decreases |events|
  {
    if events != [] {
      assert events[0] in events;
      if StartsVideo(events[0]) { VideoStart(c, events[0]); } else { OtherStep(c, events[0]); }
      FailedStartSticks(Step(c, events[0]), events[1..]);
    }
  }

  /** A video start without components leaves its flag set and no components exactly when neither of
      its attempts builds them.  The code gets that far only if the resizer or the encoder cannot be
      created either: with one, it goes on to the port of the splitter it does not have. */
  lemma FailedStart(c: Camera, e: Event)
    requires Coherent(c) && !c.ready && StartsVideo(e)
    ensures var d := Step(c, e);
            && (if e.StartPreview? then d.preview else d.recording)
            && (!d.ready <==> !e.first.builds && !e.second.builds)
  {
    StartOutcome(c, e.first, e.second);
    assert e.first.builds ==> EnsureReady(c, e.first).ready;
  }

  /** A still preview is marked as running on a camera that is not open exactly when its start could
      not open it, if opening returns: the code reads through the camera component it could not create. */
  lemma FailedStillStart(c: Camera, e: Event)
    requires Coherent(c) && e.StartStill?
    ensures Step(c, e).still
    ensures !Step(c, e).isOpen <==> !c.isOpen && !e.first.opens && !e.second.opens
  {
  }

  /** Some event of the run is a stop of the still preview or a release that finds the camera open. */
  predicate StillEnds(c: Camera, events: seq<Event>)
    decreases |events|
  {
    events != [] && ((c.isOpen && (events[0].StopStill? || events[0].Release?)) || StillEnds(Step(c, events[0]), events[1..]))
  }

  /** However it was set, the flag of the still preview is cleared by the first stop or release on an
      open camera, and by nothing else, unless the preview is started again. */
  lemma {:induction false} StillFlagLife(c: Camera, events: seq<Event>)
    requires forall e :: e in events ==> !e.StartStill?
    ensures Exec(c, events).still <==> c.still && !StillEnds(c, events)
    decreases |events|
  {
    if events != [] {
      assert events[0] in events;
      StillFlagStep(c, events[0]);
      StillFlagLife(Step(c, events[0]), events[1..]);
    }
  }

  lemma StillFlagStep(c: Camera, e: Event)
    requires !e.StartStill?
    ensures Step(c, e).still <==> c.still && !(c.isOpen && (e.StopStill? || e.Release?))
  {
    if StartsVideo(e) { VideoStart(c, e); } else { OtherStep(c, e); }
  }

  /** Some event of the run stops the video preview or releases the camera, and finds it open with its
      video components up. */
  predicate PreviewEnds(c: Camera, events: seq<Event>)
    decreases |events|
  {
    events != [] && ((c.isOpen && c.ready && (events[0].StopPreview? || events[0].Release?))
                     || PreviewEnds(Step(c, events[0]), events[1..]))
  }

  predicate RecordEnds(c: Camera, events: seq<Event>)
    decreases |events|
  {
    events != [] && ((c.isOpen && c.ready && (events[0].StopRecord? || events[0].Release?))
                     || RecordEnds(Step(c, events[0]), events[1..]))
  }

  /** What a call makes of the flags. */
  lemma FlagsAfter(c: Camera, e: Event)
    ensures var d := Step(c, e);
            && (d.preview <==> e.StartPreview? || (c.preview && !(c.isOpen && c.ready && (e.StopPreview? || e.Release?))))
            && (d.recording <==> e.StartRecord? || (c.recording && !(c.isOpen && c.ready && (e.StopRecord? || e.Release?))))
            && (d.still <==> e.StartStill? || (c.still && !(c.isOpen && (e.StopStill? || e.Release?))))
  {
    if StartsVideo(e) { VideoStart(c, e); } else { OtherStep(c, e); }
  }

  /** Between two starts of it, and whatever happens to the recording and the still preview, the video preview
      is marked as running if and only if it was and no stop of it and no release has found the camera open
      with its components up. */
  lemma {:induction false} PreviewFlagLife(c: Camera, events: seq<Event>)
    requires forall e :: e in events ==> !e.StartPreview?
    ensures Exec(c, events).preview <==> c.preview && !PreviewEnds(c, events)
    decreases |events|
  {
    if events != [] {
      assert events[0] in events;
      FlagsAfter(c, events[0]);
      PreviewFlagLife(Step(c, events[0]), events[1..]);
    }
  }

  /** The same for the recording: stopping the preview does not end it, and stopping it does not end the
      preview. */
  lemma {:induction false} RecordFlagLife(c: Camera, events: seq<Event>)
    requires forall e :: e in events ==> !e.StartRecord?
    ensures Exec(c, events).recording <==> c.recording && !RecordEnds(c, events)
    decreases |events|
  {
    if events != [] {
      assert events[0] in events;
      FlagsAfter(c, events[0]);
      RecordFlagLife(Step(c, events[0]), events[1..]);
    }
  }

  /** The call opens a camera that is not open: open itself, a video start that has to create the components,
      in its second attempt if the first one fails, and a still start, in its first attempt unless a
      recording is marked as running. */
  predicate Opens(c: Camera, e: Event) {
    match e
    case Open(ok, _) => ok
    case StartPreview(first, second, _) => !c.ready && (first.opens || (!first.builds && second.opens))
    case StartRecord(first, second) => !c.ready && (first.opens || (!first.builds && second.opens))
    case StartStill(first, second, _) => (!c.recording && first.opens) || second.opens
    case _ => false
  }

  /** The video components are brought up by a start with an attempt that builds them, and taken down by a
      release, or with the last of the two consumers that is stopped. */
  predicate UpAfter(c: Camera, e: Event) {
    match e
    case StartPreview(first, second, _) => c.ready || first.builds || second.builds
    case StartRecord(first, second) => c.ready || first.builds || second.builds
    case StopPreview => c.ready && !(c.isOpen && c.preview && !c.recording)
    case StopRecord => c.ready && !(c.isOpen && c.recording && !c.preview)
    case Release => c.ready && !c.isOpen
    case _ => c.ready
  }

  lemma AttemptAfter(c: Camera, a: Attempt)
    ensures var d := EnsureReady(c, a);
            (d.isOpen <==> c.isOpen || (!c.ready && a.opens)) && (d.ready <==> c.ready || a.builds)
  {
  }

  lemma OpenAndUpAfter(c: Camera, e: Event)
    ensures Step(c, e).isOpen <==> !e.Release? && (c.isOpen || Opens(c, e))
    ensures Step(c, e).ready <==> UpAfter(c, e)
  {
    if StartsVideo(e) {
      AttemptAfter(c, e.first);
      AttemptAfter(EnsureReady(c, e.first), e.second);
    }
  }

  /** Some call of the run has opened the camera and none has released it since. */
  predicate OpenIn(c: Camera, events: seq<Event>)
    decreases |events|
  {
    if events == [] then c.isOpen else
    var n := |events| - 1;
    !events[n].Release? && (Opens(Exec(c, events[..n]), events[n]) || OpenIn(c, events[..n]))
  }

  predicate UpIn(c: Camera, events: seq<Event>)
    decreases |events|
  {
    if events == [] then c.ready else UpAfter(Exec(c, events[..|events| - 1]), events[|events| - 1])
  }

  /** After any run the camera is open exactly if some call has opened it since the latest release, and the
      video components are up exactly as the latest call has left them. */
  lemma {:induction false} OpenLife(c: Camera, events: seq<Event>)
    ensures Exec(c, events).isOpen <==> OpenIn(c, events)
    ensures Exec(c, events).ready <==> UpIn(c, events)
    decreases |events|
  {
    if events != [] {
      var n := |events| - 1;
      OpenLife(c, events[..n]);
      ExecLast(c, events);
      OpenAndUpAfter(Exec(c, events[..n]), events[n]);
    }
  }

  // ------------------------------------------------------------ parameters

  /** New components start with an automatic shutter. */
  predicate BlankShutter(e: Event) {
    match e
    case Open(_, blank) => blank.shutter == 0
    case StartPreview(first, second, _) => first.blank.shutter == 0 == second.blank.shutter
    case StartRecord(first, second) => first.blank.shutter == 0 == second.blank.shutter
    case StartStill(first, second, _) => first.blank.shutter == 0 == second.blank.shutter
    case _ => true
  }

  predicate InSync(c: Camera) { c.isOpen ==> c.device == Encode(c.params) }

  lemma OpenedInSync(c: Camera, ok: bool, blank: Registers)
    requires InSync(c) && blank.shutter == 0
    ensures InSync(Opened(c, ok, blank))
  {
    OpenWritesThrough(blank, c.params);
  }

  lemma StepInSync(c: Camera, e: Event)
    requires InSync(c) && BlankShutter(e)
    ensures InSync(Step(c, e))
  {
    match e
    case Open(ok, blank) => OpenedInSync(c, ok, blank);
    case StartPreview(first, second, _) => AttemptsInSync(c, first, second);
    case StartRecord(first, second) => AttemptsInSync(c, first, second);
    case StartStill(first, second, _) =>
      OpenedInSync(c, first.opens, first.blank);
      var o := if c.isOpen || c.recording then c else Opened(c, first.opens, first.blank);
      OpenedInSync(o, second.opens, second.blank);
    case Set(s) => SetterWritesThrough(c.params, s);
    case _ =>
  }

  lemma AttemptsInSync(c: Camera, first: Attempt, second: Attempt)
    requires InSync(c) && first.blank.shutter == 0 == second.blank.shutter
    ensures InSync(EnsureReady(EnsureReady(c, first), second))
  {
    OpenedInSync(c, first.opens, first.blank);
    OpenedInSync(EnsureReady(c, first), second.opens, second.blank);
  }

  /** In every run, whichever creations fail, an open camera's registers are the encoding of m_cam_params
      and lie in the ranges the component accepts. */
  lemma {:induction false} WriteThrough(blank: Registers, events: seq<Event>)
    requires forall e :: e in events ==> BlankShutter(e)
    ensures var c := Exec(New(blank), events);
            c.isOpen ==> c.device == Encode(c.params) && RegistersInRange(c.device)
  {
    KeepsInSync(New(blank), events);
    KeepsParamsInRange(New(blank), events);
    EncodeInRange(Exec(New(blank), events).params);
  }

  lemma {:induction false} KeepsInSync(c: Camera, events: seq<Event>)
    requires InSync(c) && forall e :: e in events ==> BlankShutter(e)
    ensures InSync(Exec(c, events))
    decreases |events|
  {
    if events != [] {
      assert events[0] in events;
      StepInSync(c, events[0]);
      KeepsInSync(Step(c, events[0]), events[1..]);
    }
  }

  predicate OnlyOpened(p: Params, q: Params) { q == p || q == AtOpen(p) }

  /** The parameters change by a setter or by an opening, in no other way. */
  lemma StepParams(c: Camera, e: Event)
    ensures if e.Set? then Step(c, e).params == Changed(c.params, e.setting)
            else OnlyOpened(c.params, Step(c, e).params)
  {
    match e
    case StartPreview(first, second, _) => AttemptParams(c, first); AttemptParams(EnsureReady(c, first), second);
    case StartRecord(first, second) => AttemptParams(c, first); AttemptParams(EnsureReady(c, first), second);
    case _ =>
  }

  lemma AttemptParams(c: Camera, a: Attempt)
    ensures OnlyOpened(c.params, EnsureReady(c, a).params)
  {
  }

  lemma {:induction false} KeepsParamsInRange(c: Camera, events: seq<Event>)
    requires ParamsInRange(c.params)
    ensures ParamsInRange(Exec(c, events).params)
    decreases |events|
  {
    if events != [] {
      StepParams(c, events[0]);
      assert ParamsInRange(Step(c, events[0]).params) by {
        if events[0].Set? { ChangedInRange(c.params, events[0].setting); }
      }
      KeepsParamsInRange(Step(c, events[0]), events[1..]);
    }
  }

  predicate ClosedThroughout(c: Camera, events: seq<Event>)
    decreases |events|
  {
    !c.isOpen && (events != [] ==> ClosedThroughout(Step(c, events[0]), events[1..]))
  }

  /** While the camera is closed nothing is written to a component, whatever is set. */
  lemma {:induction false} ClosedUntouched(c: Camera, events: seq<Event>)
    requires ClosedThroughout(c, events)
    ensures Exec(c, events).device == c.device
    decreases |events|
  {
    if events != [] {
      StillClosed(c, events[0]);
      ClosedUntouched(Step(c, events[0]), events[1..]);
    }
  }

  lemma StillClosed(c: Camera, e: Event)
    requires !c.isOpen && !Step(c, e).isOpen
    ensures Step(c, e).device == c.device
  {
    if StartsVideo(e) {
      AttemptCloses(c, e.first);
      AttemptCloses(EnsureReady(c, e.first), e.second);
    }
  }

  lemma AttemptCloses(c: Camera, a: Attempt)
    ensures var d := EnsureReady(c, a); (c.isOpen ==> d.isOpen) && (!d.isOpen ==> d.device == c.device)
  {
  }

  /** No call of the run is of the same set function as s. */
  predicate NotSetAgain(events: seq<Event>, s: Setting) {
    forall e :: e in events ==> !(e.Set? && SameSetter(e.setting, s))
  }

  lemma StepSays(c: Camera, e: Event, s: Setting)
    requires Says(c.params, s) && !(e.Set? && SameSetter(e.setting, s))
    ensures Says(Step(c, e).params, s) || s.Exposure?
  {
    StepParams(c, e);
    if e.Set? { SetterLeaves(c.params, e.setting, s); }
  }

  lemma {:induction false} KeepsSaying(c: Camera, events: seq<Event>, s: Setting)
    requires Says(c.params, s) && !s.Exposure? && NotSetAgain(events, s)
    ensures Says(Exec(c, events).params, s)
    decreases |events|
  {
    if events != [] {
      assert events[0] in events;
      StepSays(c, events[0], s);
      KeepsSaying(Step(c, events[0]), events[1..], s);
    }
  }

  /** Whatever else is called, with the camera open or not, each parameter is what its set function was last
      given, cut to its range, and the registers of an open camera show it.  (The exposure mode, which an
      opening may overwrite, is the subject of ExposureLife.) */
  lemma SettingsStick(blank: Registers, before: seq<Event>, s: Setting, after: seq<Event>)
    requires NotSetAgain(after, s) && forall e :: e in before + [Set(s)] + after ==> BlankShutter(e)
    ensures var c := Exec(Exec(New(blank), before + [Set(s)]), after);
            && (!s.Exposure? || after == [] ==> Says(c.params, s))
            && (c.isOpen ==> Shows(c.device, c.params))
  {
    var run := before + [Set(s)];
    var c := Exec(New(blank), run);
    ExecLast(New(blank), run);
    assert run[..|run| - 1] == before;
    SetterSays(Exec(New(blank), before).params, s);
    if !s.Exposure? { KeepsSaying(c, after, s); }
    KeepsInSync(New(blank), run);
    KeepsInSync(c, after);
    EncodeShows(Exec(c, after).params);
  }

  /** What the parameters of a new camera say. */
  predicate Default(s: Setting) {
    s in {Stabilisation(false), Brightness(50), Shutter(0), Rotation(0), Iso(100), Sharpness(0), Contrast(0), Saturation(0),
          AwbGains(0.0, 0.0), Awb(1), Effect(0), Metering(0), Compensation(0), HFlip(false), VFlip(false), FrameRate(30)}
  }

  /** A parameter whose set function is never called keeps its default; exposure is automatic to begin with. */
  lemma DefaultsStick(blank: Registers, events: seq<Event>, s: Setting)
    requires Default(s) && NotSetAgain(events, s)
    ensures Says(Exec(New(blank), events).params, s) && New(blank).params.exposure == 1
  {
    KeepsSaying(New(blank), events, s);
  }

  /** Once a camera has been opened with a shutter speed, its exposure mode is the fixed-rate one in
      every later state, also after the shutter is set back to automatic and the camera reopened,
      until setExposure is called. */
  lemma {:induction false} FixedRateSticks(c: Camera, events: seq<Event>)
    requires c.params.exposure == EXPOSURE_FIXED_FPS
    requires forall e :: e in events ==> !(e.Set? && e.setting.Exposure?)
    ensures Exec(c, events).params.exposure == EXPOSURE_FIXED_FPS
    decreases |events|
  {
    if events != [] {
      assert events[0] in events;
      StepParams(c, events[0]);
      assert Step(c, events[0]).params.exposure == EXPOSURE_FIXED_FPS;
      FixedRateSticks(Step(c, events[0]), events[1..]);
    }
  }

  /** Whichever call opens a camera that has a shutter speed, the component has the fixed-rate mode in
      every later state in which the camera is open, until setExposure is called. */
  lemma OpeningFixesRate(c: Camera, e: Event, events: seq<Event>)
    requires !c.isOpen && c.params.shutter != 0 && Step(c, e).isOpen && BlankShutter(e)
    requires forall e' :: e' in events ==> BlankShutter(e') && !(e'.Set? && e'.setting.Exposure?)
    ensures var d := Exec(Step(c, e), events);
            d.isOpen ==> d.device.exposure == EXPOSURE_FIXED_FPS
  {
    StepInSync(c, e);
    OpeningStep(c, e);
    FixedRateSticks(Step(c, e), events);
    KeepsInSync(Step(c, e), events);
  }

  lemma OpeningStep(c: Camera, e: Event)
    requires !c.isOpen && c.params.shutter != 0 && Step(c, e).isOpen
    ensures Step(c, e).params.exposure == EXPOSURE_FIXED_FPS
  {
    match e
    case StartPreview(first, second, _) => OpeningAttempts(c, first, second);
    case StartRecord(first, second) => OpeningAttempts(c, first, second);
    case _ =>
  }

  lemma OpeningAttempts(c: Camera, first: Attempt, second: Attempt)
    requires !c.isOpen && c.params.shutter != 0 && EnsureReady(EnsureReady(c, first), second).isOpen
    ensures EnsureReady(EnsureReady(c, first), second).params.exposure == EXPOSURE_FIXED_FPS
  {
    AttemptOpens(c, first);
    AttemptOpens(EnsureReady(c, first), second);
  }

  lemma AttemptOpens(c: Camera, a: Attempt)
    ensures var d := EnsureReady(c, a);
            if d.isOpen == c.isOpen then d.params == c.params else d.isOpen && d.params == AtOpen(c.params)
  {
  }

  /** The exposure mode a run leads to: what setExposure was last given, unless the camera has been opened
      with a shutter speed since. */
  function ExposureIn(c: Camera, events: seq<Event>): int
    decreases |events|
  {
    if events == [] then c.params.exposure else
    var before, e := Exec(c, events[..|events| - 1]), events[|events| - 1];
    if e.Set? && e.setting.Exposure? then e.setting.e
    else if !before.isOpen && Opens(before, e) && before.params.shutter != 0 then EXPOSURE_FIXED_FPS
    else ExposureIn(c, events[..|events| - 1])
  }

  ghost predicate ExposureStep(c: Camera, e: Event) {
    Step(c, e).params.exposure ==
      if e.Set? && e.setting.Exposure? then e.setting.e
      else if !c.isOpen && Opens(c, e) && c.params.shutter != 0 then EXPOSURE_FIXED_FPS
      else c.params.exposure
  }

  lemma StepExposure(c: Camera, e: Event)
    ensures ExposureStep(c, e)
  {
    match e
    case StartPreview(first, second, _) => AttemptsExposure(c, first, second);
    case StartRecord(first, second) => AttemptsExposure(c, first, second);
    case Set(s) => SetExposure(c.params, s);
    case _ =>
  }

  lemma SetExposure(p: Params, s: Setting)
    ensures Changed(p, s).exposure == if s.Exposure? then s.e else p.exposure
  {
  }

  lemma AttemptsExposure(c: Camera, first: Attempt, second: Attempt)
    ensures EnsureReady(EnsureReady(c, first), second).params.exposure ==
      if !c.isOpen && !c.ready && (first.opens || (!first.builds && second.opens)) && c.params.shutter != 0
      then EXPOSURE_FIXED_FPS else c.params.exposure
  {
    AttemptExposure(c, first);
    AttemptExposure(EnsureReady(c, first), second);
  }

  lemma AttemptExposure(c: Camera, a: Attempt)
    ensures var d := EnsureReady(c, a);
            && (d.isOpen <==> c.isOpen || (!c.ready && a.opens)) && (d.ready <==> c.ready || a.builds)
            && d.params.shutter == c.params.shutter
            && d.params.exposure == if !c.isOpen && d.isOpen && c.params.shutter != 0 then EXPOSURE_FIXED_FPS else c.params.exposure
  {
  }

  /** An opening overwrites the exposure mode exactly when a shutter speed is set; nothing else but
      setExposure changes it. */
  lemma {:induction false} ExposureLife(c: Camera, events: seq<Event>)
    ensures Exec(c, events).params.exposure == ExposureIn(c, events)
    decreases |events|
  {
    if events != [] {
      var n := |events| - 1;
      ExposureLife(c, events[..n]);
      ExecLast(c, events);
      StepExposure(Exec(c, events[..n]), events[n]);
    }
  }
}
