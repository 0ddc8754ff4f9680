/** VideoMMALObject: the flags, the parameters and the component they are written to. */
module VideoCamera {
  import opened CameraLifecycle
  import opened CameraParameters
  import GrabProtocol
  import opened Limits

  /** How often the teardown of each kind of component has run. */
  datatype Teardowns = Teardowns(preview: nat, encoder: nat, splitter: nat)

  class VideoMMALObject {
    var isOpen: bool
    var ready: bool
    var preview: bool
    var recording: bool
    var still: bool
    var videoPort: bool      // resizer_output_port is enabled with preview_buffer_callback
    var stillPort: bool      // camera_preview_output_port is
    var params: Params
    var device: Registers
    ghost var torn: Teardowns

    ghost function View(): Camera
      reads this
    {
      Camera(isOpen, ready, preview, recording, still, videoPort, stillPort, params, device)
    }

    constructor (blank: Registers)
      requires ThreeOutputs(blank)
      ensures View() == New(blank) && torn == Teardowns(0, 0, 0)
    {
      isOpen, ready, preview, recording, still, videoPort, stillPort := false, false, false, false, false, false, false;
      params, device := Defaults(), blank;
      torn := Teardowns(0, 0, 0);
    }

    // ---------------------------------------------------------- stopping

    /** How many of the two video consumers are marked as running. */
    ghost function Running(): nat
      reads this
    {
      (if preview then 1 else 0) + (if recording then 1 else 0)
    }

    /** The mutual recursion takes each running consumer down once; the splitter's own teardown
        runs a second time when there was one, from inside the last stop. */
    ghost function TornDown(): Teardowns
      reads this
    {
      if isOpen && ready && (preview || recording) then
        Teardowns(torn.preview + (if preview then 1 else 0), torn.encoder + (if recording then 1 else 0), torn.splitter + 2)
      else torn.(splitter := torn.splitter + 1)
    }

    method DestroyVideoComponents()
      modifies this`ready, this`preview, this`recording, this`videoPort, this`torn
      ensures View() == Destroyed(old(View())) && torn == old(TornDown())
      ensures !ready && if old(isOpen && ready) then !preview && !recording
                        else preview == old(preview) && recording == old(recording)
      decreases Running(), 1
    {
      if preview { StopVideoPreview(); }
      if recording { StopVideoRecord(); }
      torn := torn.(splitter := torn.splitter + 1);
      ready := false;
    }

    /** The port part of destroyVideoPreviewComponent. */
    method DestroyVideoPreviewComponent()
      modifies this`videoPort
      ensures !videoPort
    {
      if videoPort { videoPort := false; }
    }

    method StopVideoPreview()
      modifies this`ready, this`preview, this`recording, this`videoPort, this`torn
      ensures View() == PreviewStopped(old(View()))
      ensures recording == old(recording) && (preview <==> old(preview) && !(isOpen && old(ready)))
      ensures ready <==> old(ready) && !(isOpen && old(preview) && !recording)
      ensures videoPort <==> old(videoPort) && !(isOpen && old(ready) && old(preview))
      ensures torn == if View() == old(View()) then old(torn)
                      else Teardowns(old(torn.preview) + 1, old(torn.encoder), old(torn.splitter) + if recording then 0 else 1)
      decreases Running(), 0
    {
      if !isOpen || !ready || !preview { return; }
      torn := torn.(preview := torn.preview + 1);
      DestroyVideoPreviewComponent();
      preview := false;
      if !recording && ready { DestroyVideoComponents(); }
    }

    method StopVideoRecord()
      modifies this`ready, this`preview, this`recording, this`videoPort, this`torn
      ensures View() == RecordStopped(old(View()))
      ensures preview == old(preview) && videoPort == old(videoPort)
      ensures recording <==> old(recording) && !(isOpen && old(ready))
      ensures ready <==> old(ready) && !(isOpen && old(recording) && !preview)
      ensures torn == if View() == old(View()) then old(torn)
                      else Teardowns(old(torn.preview), old(torn.encoder) + 1, old(torn.splitter) + if preview then 0 else 1)
      decreases Running(), 0
    {
      if !isOpen || !ready || !recording { return; }
      torn := torn.(encoder := torn.encoder + 1);
      recording := false;
      if !preview && ready { DestroyVideoComponents(); }
    }

    method StopStillPreview()
      modifies this`still, this`stillPort
      ensures View() == StillStopped(old(View()))
    {
      if !isOpen || !still { return; }
      if stillPort { stillPort := false; }
      still := false;
    }

    method Release()
      modifies this
      ensures View() == Released(old(View()))
    {
      if !isOpen { return; }
      if recording { StopVideoRecord(); }
      if ready { DestroyVideoComponents(); }
      if still { StopStillPreview(); }
      isOpen, videoPort, stillPort := false, false, false;   // the ports go with the camera component
    }

    // ---------------------------------------------------------- starting

    method Open(ok: bool, blank: Registers) returns (opens: bool)
      requires ThreeOutputs(blank)
      modifies this`isOpen, this`params, this`device
      ensures View() == Opened(old(View()), ok, blank)
      ensures opens <==> !old(isOpen) && ok
    {
      if isOpen { return false; }
      if !ok { return false; }
      device := blank;
      CommitParameters();
      isOpen := true;
      return true;
    }

    method CreateVideoComponents(a: Attempt)
      requires ThreeOutputs(a.blank)
      modifies this
      ensures View() == Created(old(View()), a)
    {
      if !isOpen { var _ := Open(a.opens, a.blank); }
      if !a.builds {
        DestroyVideoComponents();
        return;
      }
      ready := true;
    }

    /** createVideoPreviewComponent, whose own part is the resizer with its port and pool. */
    method CreateVideoPreviewComponent(a: Attempt, works: bool)
      requires ThreeOutputs(a.blank)
      modifies this
      ensures var d := EnsureReady(old(View()), a);
              View() == d.(videoPort := works && d.ready && d.isOpen)
    {
      if !ready { CreateVideoComponents(a); }
      if !works || !ready || !isOpen {
        DestroyVideoPreviewComponent();
        return;
      }
      videoPort := true;
    }

    method StartVideoPreview(first: Attempt, second: Attempt, works: bool)
      requires ThreeOutputs(first.blank) && ThreeOutputs(second.blank)
      modifies this
      ensures View() == Step(old(View()), StartPreview(first, second, works))
    {
      if !ready { CreateVideoComponents(first); }
      CreateVideoPreviewComponent(second, works);
      preview := true;
    }

    method StartVideoRecord(first: Attempt, second: Attempt)
      requires ThreeOutputs(first.blank) && ThreeOutputs(second.blank)
      modifies this
      ensures View() == Step(old(View()), StartRecord(first, second))
    {
      if !ready { CreateVideoComponents(first); }
      if !ready { CreateVideoComponents(second); }
      recording := true;
    }

    /** createStillPreviewComponent. */
    method CreateStillPreviewComponent(a: Attempt, works: bool)
      requires ThreeOutputs(a.blank)
      modifies this`isOpen, this`params, this`device, this`stillPort
      ensures var d := Opened(old(View()), a.opens, a.blank);
              View() == d.(stillPort := works && d.isOpen)
    {
      if !isOpen { var _ := Open(a.opens, a.blank); }
      stillPort := works && isOpen;
    }

    method StartStillPreview(first: Attempt, second: Attempt, works: bool)
      requires ThreeOutputs(first.blank) && ThreeOutputs(second.blank)
      modifies this
      ensures View() == StillStarted(old(View()), first, second, works)
    {
      if !isOpen && !recording { var _ := Open(first.opens, first.blank); }
      CreateStillPreviewComponent(second, works);
      still := true;
    }

    // ---------------------------------------------------------- parameters

    /** Reduction of the angle by the loop and the remainder of setRotation. */
    method Normalise(rotation: int) returns (r: int)
      ensures r == rotation % 360
    {
      r := rotation;
      while r < 0
        invariant r % 360 == rotation % 360 && (r == rotation || r < 360)
      {
        r := r + 360;
      }
      if r >= 360 { r := r % 360; }
    }

    method CommitRotation()
      requires ThreeOutputs(device)
      modifies this`device
      ensures device == old(device).(rotation := Encode(params).rotation)
    {
      var rotation := params.rotation / 90 * 90;
      device := device.(rotation := device.rotation[0 := rotation]);
      device := device.(rotation := device.rotation[1 := rotation]);
      device := device.(rotation := device.rotation[2 := rotation]);
      assert device.rotation == [rotation, rotation, rotation];
    }

    method CommitFlips()
      requires ThreeOutputs(device)
      modifies this`device
      ensures device == old(device).(mirror := Encode(params).mirror)
    {
      var mirror := Unmirrored;
      if params.hflip && params.vflip { mirror := Both; }
      else if params.hflip { mirror := Horizontal; }
      else if params.vflip { mirror := Vertical; }
      device := device.(mirror := device.mirror[0 := mirror]);
      device := device.(mirror := device.mirror[1 := mirror]);
      device := device.(mirror := device.mirror[2 := mirror]);
      assert device.mirror == [mirror, mirror, mirror];
    }

    /** commitParameters on the component just created; the commit functions of one line are
        written out. */
    method CommitParameters()
      requires ThreeOutputs(device)
      modifies this`params, this`device
      ensures params == AtOpen(old(params)) && device == Committed(old(device), old(params))
    {
      device := device.(saturation := params.saturation);
      device := device.(sharpness := params.sharpness);
      device := device.(contrast := params.contrast);
      device := device.(brightness := params.brightness);
      device := device.(iso := params.iso % WRAP);
      if params.shutter != 0 {
        device := device.(shutter := params.shutter);
        params := params.(exposure := EXPOSURE_FIXED_FPS);
        device := device.(exposure := params.exposure);
      } else {
        device := device.(exposure := params.exposure);
      }
      device := device.(compensation := params.compensation);
      device := device.(metering := params.metering);
      device := device.(effect := params.effect);
      CommitRotation();
      CommitFlips();
      device := device.(stabilisation := params.stabilisation);
      device := device.(awb := params.awb);
      device := device.(redGain := FixedPoint(params.red), blueGain := FixedPoint(params.blue));
    }

    // The set functions: each stores its parameter and, on an open camera, commits it.

    method SetRotation(rotation: int)
      requires ThreeOutputs(device)
      modifies this`params, this`device
      ensures View() == SetTo(old(View()), Rotation(rotation))
    {
      var r := Normalise(rotation);
      params := params.(rotation := r);
      if isOpen { CommitRotation(); }
    }

    method SetHorizontalFlip(hFlip: bool)
      requires ThreeOutputs(device)
      modifies this`params, this`device
      ensures View() == SetTo(old(View()), HFlip(hFlip))
    {
      params := params.(hflip := hFlip);
      if isOpen { CommitFlips(); }
    }

    method SetVerticalFlip(vFlip: bool)
      requires ThreeOutputs(device)
      modifies this`params, this`device
      ensures View() == SetTo(old(View()), VFlip(vFlip))
    {
      params := params.(vflip := vFlip);
      if isOpen { CommitFlips(); }
    }

    method SetFrameRate(framerate: nat)
      modifies this`params
      ensures View() == SetTo(old(View()), FrameRate(framerate))
    {
      params := params.(framerate := AsInt(framerate));
    }

    method SetVideoStabilization(v: bool)
      modifies this`params, this`device
      ensures View() == SetTo(old(View()), Stabilisation(v))
    {
      params := params.(stabilisation := v);
      if isOpen { device := device.(stabilisation := params.stabilisation); }
    }

    method SetBrightness(brightness: nat)
      modifies this`params, this`device
      ensures View() == SetTo(old(View()), Brightness(brightness))
    {
      var b := if brightness > 100 then 100 else brightness;
      params := params.(brightness := b);
      if isOpen { device := device.(brightness := params.brightness); }
    }

    method SetShutterSpeed(shutter: nat)
      modifies this`params, this`device
      ensures View() == SetTo(old(View()), Shutter(shutter))
    {
      var s := if shutter > MAX_SHUTTER then MAX_SHUTTER else shutter;
      params := params.(shutter := s);
      if isOpen { device := device.(shutter := params.shutter); }
    }

    method SetISO(iso: int)
      modifies this`params, this`device
      ensures View() == SetTo(old(View()), Iso(iso))
    {
      params := params.(iso := iso);
      if isOpen { device := device.(iso := params.iso % WRAP); }
    }

    method SetSharpness(sharpness: int)
      modifies this`params, this`device
      ensures View() == SetTo(old(View()), Sharpness(sharpness))
    {
      params := params.(sharpness := Clamp(-100, sharpness, 100));
      if isOpen { device := device.(sharpness := params.sharpness); }
    }

    method SetContrast(contrast: int)
      modifies this`params, this`device
      ensures View() == SetTo(old(View()), Contrast(contrast))
    {
      params := params.(contrast := Clamp(-100, contrast, 100));
      if isOpen { device := device.(contrast := params.contrast); }
    }

    method SetSaturation(saturation: int)
      modifies this`params, this`device
      ensures View() == SetTo(old(View()), Saturation(saturation))
    {
      params := params.(saturation := Clamp(-100, saturation, 100));
      if isOpen { device := device.(saturation := params.saturation); }
    }

    method SetAWBGains(red: Gain, blue: Gain)
      modifies this`params, this`device
      ensures View() == SetTo(old(View()), AwbGains(red, blue))
    {
      params := params.(blue := blue, red := red);
      if isOpen { device := device.(redGain := FixedPoint(params.red), blueGain := FixedPoint(params.blue)); }
    }

    method SetExposure(exposure: int)
      modifies this`params, this`device
      ensures View() == SetTo(old(View()), Exposure(exposure))
    {
      params := params.(exposure := exposure);
      if isOpen { device := device.(exposure := params.exposure); }
    }

    method SetAWB(awb: int)
      modifies this`params, this`device
      ensures View() == SetTo(old(View()), Awb(awb))
    {
      params := params.(awb := awb);
      if isOpen { device := device.(awb := params.awb); }
    }

    method SetImageEffect(effect: int)
      modifies this`params, this`device
      ensures View() == SetTo(old(View()), Effect(effect))
    {
      params := params.(effect := effect);
      if isOpen { device := device.(effect := params.effect); }
    }

    method SetMetering(metering: int)
      modifies this`params, this`device
      ensures View() == SetTo(old(View()), Metering(metering))
    {
      params := params.(metering := metering);
      if isOpen { device := device.(metering := params.metering); }
    }

    method SetExposureCompensation(val: int)
      modifies this`params, this`device
      ensures View() == SetTo(old(View()), Compensation(val))
    {
      params := params.(compensation := Clamp(-10, val, 10));
      if isOpen { device := device.(compensation := params.compensation); }
    }

    // ---------------------------------------------------------- frames

    /** grab, up to its wait: the request is made exactly when the guard lets it through. */
    method Grab(data: GrabProtocol.PreviewUserdata) returns (waits: bool)
      modifies data
      ensures waits == GrabWaits(View())
      ensures data.View() == if waits then GrabProtocol.Requested(old(data.View())) else old(data.View())
    {
      if !isOpen || (!still && !preview) { return false; }
      data.Request();
      return true;
    }
  }
}
