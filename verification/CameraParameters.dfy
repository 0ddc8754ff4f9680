/** The camera parameters: what the setters store, what the commit functions write to the camera
    component, and that the two never drift apart while the camera is open. */
module CameraParameters {
  import opened Limits

  /** A white balance gain whose conversion to unsigned 16.16 fixed point is defined. */
  type Gain = g: real | 0.0 <= g < 65536.0

  const EXPOSURE_AUTO := 1         // MMAL_PARAM_EXPOSUREMODE_AUTO
  const EXPOSURE_FIXED_FPS := 10   // MMAL_PARAM_EXPOSUREMODE_FIXEDFPS
  const MAX_SHUTTER := 330000

  datatype Mirror = Unmirrored | Vertical | Horizontal | Both

  /** The fields of m_cam_params that have a setter. */
  datatype Params = Params(
    framerate: int, sharpness: int, contrast: int, brightness: int, saturation: int, iso: int,
    stabilisation: bool, compensation: int, shutter: nat, exposure: int, metering: int, awb: int,
    effect: int, rotation: int, hflip: bool, vflip: bool, red: Gain, blue: Gain)

  function Defaults(): Params {
    Params(30, 0, 0, 50, 0, 100, false, 0, 0, EXPOSURE_AUTO, 0, 1, 0, 0, false, false, 0.0, 0.0)
  }

  /** The parameters of the camera component the commit functions set; percentages over 100, gains
      over 65536; rotation and mirror once for each of the three outputs. */
  datatype Registers = Registers(
    sharpness: int, contrast: int, brightness: int, saturation: int, iso: nat, stabilisation: bool,
    compensation: int, shutter: nat, exposure: int, metering: int, awb: int, effect: int,
    rotation: seq<int>, mirror: seq<Mirror>, redGain: int, blueGain: int)

  predicate ThreeOutputs(d: Registers) { |d.rotation| == 3 && |d.mirror| == 3 }

  function MirrorOf(hflip: bool, vflip: bool): Mirror {
    if hflip && vflip then Both else if hflip then Horizontal else if vflip then Vertical else Unmirrored
  }

  function Quarter(rotation: int): int { rotation / 90 * 90 }

  function FixedPoint(g: Gain): int { (g * 65536.0).Floor }

  /** The registers a set of parameters stands for. */
  function Encode(p: Params): Registers {
    Registers(p.sharpness, p.contrast, p.brightness, p.saturation, p.iso % WRAP, p.stabilisation,
              p.compensation, p.shutter, p.exposure, p.metering, p.awb, p.effect,
              [Quarter(p.rotation), Quarter(p.rotation), Quarter(p.rotation)],
              [MirrorOf(p.hflip, p.vflip), MirrorOf(p.hflip, p.vflip), MirrorOf(p.hflip, p.vflip)],
              FixedPoint(p.red), FixedPoint(p.blue))
  }

  /** The calls of the set functions. */
  datatype Setting =
    | Stabilisation(on: bool)
    | Brightness(b: nat)
    | Shutter(micros: nat)
    | Rotation(degrees: int)
    | Iso(i: int)
    | Sharpness(s: int)
    | Contrast(c: int)
    | Saturation(t: int)
    | AwbGains(r: Gain, bl: Gain)
    | Exposure(e: int)
    | Awb(w: int)
    | Effect(fx: int)
    | Metering(m: int)
    | Compensation(v: int)
    | HFlip(h: bool)
    | VFlip(f: bool)
    | FrameRate(fps: nat)

  function Clamp(lo: int, x: int, hi: int): int {
    if x < lo then lo else if x > hi then hi else x
  }

  /** An unsigned int stored in an int. */
  function AsInt(u: nat): int { if u % WRAP < 0x8000_0000 then u % WRAP else u % WRAP - WRAP }

  /** What a setter leaves in m_cam_params. */
  function Changed(p: Params, s: Setting): Params {
    match s
    case Stabilisation(on) => p.(stabilisation := on)
    case Brightness(b) => p.(brightness := Clamp(0, b, 100))
    case Shutter(micros) => p.(shutter := Clamp(0, micros, MAX_SHUTTER))
    case Rotation(degrees) => p.(rotation := degrees % 360)
    case Iso(i) => p.(iso := i)
    case Sharpness(x) => p.(sharpness := Clamp(-100, x, 100))
    case Contrast(x) => p.(contrast := Clamp(-100, x, 100))
    case Saturation(x) => p.(saturation := Clamp(-100, x, 100))
    case AwbGains(r, bl) => p.(red := r, blue := bl)
    case Exposure(e) => p.(exposure := e)
    case Awb(w) => p.(awb := w)
    case Effect(fx) => p.(effect := fx)
    case Metering(m) => p.(metering := m)
    case Compensation(v) => p.(compensation := Clamp(-10, v, 10))
    case HFlip(h) => p.(hflip := h)
    case VFlip(f) => p.(vflip := f)
    case FrameRate(fps) => p.(framerate := AsInt(fps))
  }

  /** What the setter's commit function writes when the camera is open: the registers named by the
      setting and no others. */
  function Written(d: Registers, p: Params, s: Setting): Registers {
    var e := Encode(p);
    match s
    case Stabilisation(_) => d.(stabilisation := e.stabilisation)
    case Brightness(_) => d.(brightness := e.brightness)
    case Shutter(_) => d.(shutter := e.shutter)
    case Rotation(_) => d.(rotation := e.rotation)
    case Iso(_) => d.(iso := e.iso)
    case Sharpness(_) => d.(sharpness := e.sharpness)
    case Contrast(_) => d.(contrast := e.contrast)
    case Saturation(_) => d.(saturation := e.saturation)
    case AwbGains(_, _) => d.(redGain := e.redGain, blueGain := e.blueGain)
    case Exposure(_) => d.(exposure := e.exposure)
    case Awb(_) => d.(awb := e.awb)
    case Effect(_) => d.(effect := e.effect)
    case Metering(_) => d.(metering := e.metering)
    case Compensation(_) => d.(compensation := e.compensation)
    case HFlip(_) => d.(mirror := e.mirror)
    case VFlip(_) => d.(mirror := e.mirror)
    case FrameRate(_) => d
  }

  /** Opening turns a fixed shutter speed into the fixed-rate exposure mode, for good. */
  function AtOpen(p: Params): Params {
    if p.shutter != 0 then p.(exposure := EXPOSURE_FIXED_FPS) else p
  }

  /** What commitParameters leaves in a camera component that has just been created: everything but
      an automatic shutter is written. */
  function Committed(blank: Registers, p: Params): Registers {
    var e := Encode(AtOpen(p));
    if p.shutter != 0 then e else e.(shutter := blank.shutter)
  }

  /** The registers agree with the parameters right after opening exactly when a shutter speed was
      set or the new component starts with an automatic one. */
  lemma OpenWritesThrough(blank: Registers, p: Params)
    ensures Committed(blank, p) == Encode(AtOpen(p)) <==> p.shutter != 0 || blank.shutter == 0
  {
    if Committed(blank, p) == Encode(AtOpen(p)) && p.shutter == 0 {
      assert Committed(blank, p).shutter == Encode(AtOpen(p)).shutter;
    }
  }

  /** A setter changes no parameter whose register its commit function leaves alone. */
  lemma SetterWritesThrough(p: Params, s: Setting)
    ensures Written(Encode(p), Changed(p, s), s) == Encode(Changed(p, s))
  {
    var a, b := Written(Encode(p), Changed(p, s), s), Encode(Changed(p, s));
    match s
    case Rotation(_) =>
    case HFlip(_) =>
    case VFlip(_) =>
    case _ =>
  }

  // ------------------------------------------------------------ what the component is ever given

  predicate ParamsInRange(p: Params) {
    && -100 <= p.sharpness <= 100 && -100 <= p.contrast <= 100 && -100 <= p.saturation <= 100
    && 0 <= p.brightness <= 100 && -10 <= p.compensation <= 10 && p.shutter <= MAX_SHUTTER
    && 0 <= p.rotation < 360
  }

  lemma ChangedInRange(p: Params, s: Setting)
    requires ParamsInRange(p)
    ensures ParamsInRange(Changed(p, s))
  {
  }

  /** The values the camera component documents. */
  predicate RegistersInRange(d: Registers) {
    && -100 <= d.sharpness <= 100 && -100 <= d.contrast <= 100 && -100 <= d.saturation <= 100
    && 0 <= d.brightness <= 100 && -10 <= d.compensation <= 10 && d.shutter <= MAX_SHUTTER
    && (exists q :: q in {0, 90, 180, 270} && d.rotation == [q, q, q])
    && (exists m: Mirror :: d.mirror == [m, m, m])
    && 0 <= d.redGain < WRAP && 0 <= d.blueGain < WRAP && d.iso < WRAP
  }

  lemma EncodeInRange(p: Params)
    requires ParamsInRange(p)
    ensures RegistersInRange(Encode(p))
  {
    var d := Encode(p);
    assert Quarter(p.rotation) in {0, 90, 180, 270} && d.rotation == [Quarter(p.rotation), Quarter(p.rotation), Quarter(p.rotation)];
    var m := MirrorOf(p.hflip, p.vflip);
    assert d.mirror == [m, m, m];
    GainInRange(p.red);
    GainInRange(p.blue);
  }

  lemma GainInRange(g: Gain)
    ensures 0 <= FixedPoint(g) < WRAP
  {
    assert 0.0 <= g * 65536.0 < 65536.0 * 65536.0;
  }

  // ------------------------------------------------------------ what a setter is for

  /** x cut to the range from lo to hi. */
  predicate IsCut(y: int, lo: int, x: int, hi: int) {
    (x < lo ==> y == lo) && (x > hi ==> y == hi) && (lo <= x <= hi ==> y == x)
  }

  /** The parameters say what the setter was given: cut to its range, the angle as one below 360 that is the
      same up to full turns, the frame rate as the int with the same 32 bits. */
  predicate Says(p: Params, s: Setting) {
    match s
    case Stabilisation(on) => p.stabilisation == on
    case Brightness(b) => IsCut(p.brightness, 0, b, 100)
    case Shutter(micros) => IsCut(p.shutter, 0, micros, 330000)
    case Rotation(degrees) => 0 <= p.rotation < 360 && (p.rotation - degrees) % 360 == 0
    case Iso(i) => p.iso == i
    case Sharpness(x) => IsCut(p.sharpness, -100, x, 100)
    case Contrast(x) => IsCut(p.contrast, -100, x, 100)
    case Saturation(x) => IsCut(p.saturation, -100, x, 100)
    case AwbGains(r, bl) => p.red == r && p.blue == bl
    case Exposure(e) => p.exposure == e
    case Awb(w) => p.awb == w
    case Effect(fx) => p.effect == fx
    case Metering(m) => p.metering == m
    case Compensation(v) => IsCut(p.compensation, -10, v, 10)
    case HFlip(h) => p.hflip == h
    case VFlip(f) => p.vflip == f
    case FrameRate(fps) => -0x8000_0000 <= p.framerate < 0x8000_0000 && (p.framerate - fps) % WRAP == 0
  }

  /** Two calls of the same set function. */
  predicate SameSetter(s: Setting, t: Setting) {
    || (s.Stabilisation? && t.Stabilisation?) || (s.Brightness? && t.Brightness?) || (s.Shutter? && t.Shutter?)
    || (s.Rotation? && t.Rotation?) || (s.Iso? && t.Iso?) || (s.Sharpness? && t.Sharpness?)
    || (s.Contrast? && t.Contrast?) || (s.Saturation? && t.Saturation?) || (s.AwbGains? && t.AwbGains?)
    || (s.Exposure? && t.Exposure?) || (s.Awb? && t.Awb?) || (s.Effect? && t.Effect?)
    || (s.Metering? && t.Metering?) || (s.Compensation? && t.Compensation?) || (s.HFlip? && t.HFlip?)
    || (s.VFlip? && t.VFlip?) || (s.FrameRate? && t.FrameRate?)
  }

  /** A setter stores what it was given. */
  lemma SetterSays(p: Params, s: Setting)
    ensures Says(Changed(p, s), s)
  {
    match s
    case Rotation(degrees) => assert (degrees % 360 - degrees) % 360 == 0;
    case FrameRate(fps) => assert (AsInt(fps) - fps) % WRAP == 0;
    case _ =>
  }

  /** ... and disturbs no other parameter. */
  lemma SetterLeaves(p: Params, s: Setting, t: Setting)
    requires !SameSetter(s, t) && Says(p, t)
    ensures Says(Changed(p, s), t)
  {
    var q := Changed(p, s);
    match t
    case Stabilisation(_) => assert q.stabilisation == p.stabilisation;
    case Brightness(_) => assert q.brightness == p.brightness;
    case Shutter(_) => assert q.shutter == p.shutter;
    case Rotation(_) => assert q.rotation == p.rotation;
    case Iso(_) => assert q.iso == p.iso;
    case Sharpness(_) => assert q.sharpness == p.sharpness;
    case Contrast(_) => assert q.contrast == p.contrast;
    case Saturation(_) => assert q.saturation == p.saturation;
    case AwbGains(_, _) => assert q.red == p.red && q.blue == p.blue;
    case Exposure(_) => assert q.exposure == p.exposure;
    case Awb(_) => assert q.awb == p.awb;
    case Effect(_) => assert q.effect == p.effect;
    case Metering(_) => assert q.metering == p.metering;
    case Compensation(_) => assert q.compensation == p.compensation;
    case HFlip(_) => assert q.hflip == p.hflip;
    case VFlip(_) => assert q.vflip == p.vflip;
    case FrameRate(_) => assert q.framerate == p.framerate;
  }

  /** The registers show the parameters: percentages, modes and the fixed shutter as they are, the angle as
      the quarter turn below it and the flips as the mirror for both, one or neither, each on all three
      outputs, gains in 16.16 fixed point rounded down. */
  ghost predicate Shows(d: Registers, p: Params) {
    && d.sharpness == p.sharpness && d.contrast == p.contrast && d.brightness == p.brightness
    && d.saturation == p.saturation && d.stabilisation == p.stabilisation && d.compensation == p.compensation
    && d.shutter == p.shutter && d.exposure == p.exposure && d.metering == p.metering && d.awb == p.awb
    && d.effect == p.effect && d.iso < WRAP && (d.iso - p.iso) % WRAP == 0
    && |d.rotation| == 3
    && (forall k :: 0 <= k < 3 ==> d.rotation[k] % 90 == 0 && d.rotation[k] <= p.rotation < d.rotation[k] + 90)
    && |d.mirror| == 3
    && (forall k :: 0 <= k < 3 ==>
          && (d.mirror[k] == Both <==> p.hflip && p.vflip)
          && (d.mirror[k] == Horizontal <==> p.hflip && !p.vflip)
          && (d.mirror[k] == Vertical <==> !p.hflip && p.vflip)
          && (d.mirror[k] == Unmirrored <==> !p.hflip && !p.vflip))
    && d.redGain as real <= p.red * 65536.0 < d.redGain as real + 1.0
    && d.blueGain as real <= p.blue * 65536.0 < d.blueGain as real + 1.0
  }

  lemma EncodeShows(p: Params)
    ensures Shows(Encode(p), p)
  {
    var d := Encode(p);
    assert forall k :: 0 <= k < 3 ==> d.rotation[k] == Quarter(p.rotation) && d.mirror[k] == MirrorOf(p.hflip, p.vflip);
  }
}
