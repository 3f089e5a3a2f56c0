/**
  An application that alternates two networks: frames are analysed by the detection until an object is
  found; its box becomes the crop of the sensor, and frames are analysed by the classification until
  one succeeds. Every frame is released, and an image sent from it is awaited first.
 */
module SwitchDnn {
  import opened Arithmetic
  import opened Basics

  const RETRY_MAX: nat := 10

  datatype Crop = Crop(left: int, top: int, width: int, height: int)

  /** A detected object in the coordinates of the input tensor; one of them is marked for the crop. */
  datatype Detection = Detection(used: bool, xmin: int, ymin: int, xmax: int, ymax: int)

  // ------------------------------------------------------------------ the crop of a detection

  /** The scales are quotients of integers: an image is scaled by a whole number or not at all. */
  function ScaledBox(d: Detection, camera: Crop, width: nat, height: nat): Crop
    requires width > 0 && height > 0
  {
    var sx, sy := camera.width / width, camera.height / height;
    Crop(d.xmin * sx, d.ymin * sy, (d.xmax - d.xmin) * sx, (d.ymax - d.ymin) * sy)
  }

  predicate InsideTensor(d: Detection, width: nat, height: nat) {
    0 <= d.xmin <= d.xmax <= width && 0 <= d.ymin <= d.ymax <= height
  }

  predicate InsideCamera(c: Crop, camera: Crop) {
    && 0 <= c.left && 0 <= c.width && c.left + c.width <= camera.width
    && 0 <= c.top && 0 <= c.height && c.top + c.height <= camera.height
  }

  lemma AxisInside(lo: int, hi: int, size: nat, camera: nat)
    requires 0 < size && 0 <= lo <= hi <= size
    ensures var s := camera / size;
      && 0 <= lo * s && 0 <= (hi - lo) * s
      && lo * s + (hi - lo) * s <= camera
      && ((hi - lo) * s > 0 <==> lo < hi && size <= camera)
  {
    QuotientBounds(camera, size);
    AxisProducts(lo, hi - lo, size - hi, camera / size);
    assert lo + (hi - lo) + (size - hi) == size;
    if size <= camera {
      assert camera / size > 0 by { PositiveQuotient(camera, size); }
    } else {
      DivModIs(camera, size, 0, camera);
    }
  }

  lemma PositiveQuotient(v: nat, d: nat)
    requires 0 < d <= v
    ensures v / d > 0
  {
    QuotientBounds(v, d);
    assert v / d * d > 0;
  }

  /** Three stretches that make up an axis, each scaled. */
  lemma AxisProducts(a: nat, b: nat, c: nat, s: nat)
    ensures 0 <= a * s && 0 <= b * s && a * s + b * s <= s * (a + b + c)
    ensures b * s > 0 <==> b > 0 && s > 0
  {
    assert s * (a + b + c) == a * s + b * s + c * s;
    if b > 0 {
      AtMostMultiple(s, b);
    }
  }

  /** A box inside the input tensor gives a crop inside the camera image, and a pixel of it iff the box has one and the image is not the smaller. */
  lemma BoxCropsInside(d: Detection, camera: Crop, width: nat, height: nat)
    requires width > 0 && height > 0 && InsideTensor(d, width, height) && camera.width >= 0 && camera.height >= 0
    ensures var c := ScaledBox(d, camera, width, height);
      && InsideCamera(c, camera)
      && (c.width > 0 <==> d.xmin < d.xmax && width <= camera.width)
      && (c.height > 0 <==> d.ymin < d.ymax && height <= camera.height)
  {
    AxisInside(d.xmin, d.xmax, width, camera.width);
    AxisInside(d.ymin, d.ymax, height, camera.height);
  }

  /** A coordinate or length of the tensor at its place in the image: `scaled` of `camera` as `v` of `size`. */
  predicate InProportion(scaled: int, v: int, camera: int, size: int) {
    scaled * size == v * camera
  }

  /** What a scaled coordinate is short of its place, in units of the tensor, and when it is not. */
  lemma ScaledExactlyIff(v: int, camera: nat, size: nat)
    requires 0 < size
    ensures v * camera - v * (camera / size) * size == v * (camera % size)
    ensures InProportion(v * (camera / size), v, camera, size) <==> v == 0 || camera % size == 0
  {
    QuotientBounds(camera, size);
    var q, r := camera / size, camera % size;
    assert camera == q * size + r;
    assert v * camera == v * (q * size) + v * r;
    assert v * q * size == v * (q * size);
    ZeroProductIff(v, r);
  }

  lemma ZeroProductIff(v: int, r: nat)
    ensures v * r == 0 <==> v == 0 || r == 0
  {
    if v > 0 && r > 0 {
      AtMostMultiple(v, r);
    } else if v < 0 && r > 0 {
      AtMostMultiple(-v, r);
      assert -v * r == -(v * r);
    }
  }

  /** The crop is the box in proportion to the image. */
  predicate Proportional(c: Crop, d: Detection, camera: Crop, width: nat, height: nat) {
    && InProportion(c.left, d.xmin, camera.width, width) && InProportion(c.width, d.xmax - d.xmin, camera.width, width)
    && InProportion(c.top, d.ymin, camera.height, height) && InProportion(c.height, d.ymax - d.ymin, camera.height, height)
  }

  /**
    The integer quotient as a scale keeps the proportions of a box iff on each axis the size of the tensor
    divides that of the image, or the box begins and ends at the origin.
   */
  lemma ProportionalIff(d: Detection, camera: Crop, width: nat, height: nat)
    requires width > 0 && height > 0 && camera.width >= 0 && camera.height >= 0
    ensures Proportional(ScaledBox(d, camera, width, height), d, camera, width, height) <==>
      && (camera.width % width == 0 || d.xmin == d.xmax == 0)
      && (camera.height % height == 0 || d.ymin == d.ymax == 0)
  {
    ScaledExactlyIff(d.xmin, camera.width, width);
    ScaledExactlyIff(d.xmax - d.xmin, camera.width, width);
    ScaledExactlyIff(d.ymin, camera.height, height);
    ScaledExactlyIff(d.ymax - d.ymin, camera.height, height);
  }

  /** A box at the right edge of a 320 pixel tensor ends at 960 of 1279 pixels of the image. */
  lemma DisplacedBox()
    ensures var d, camera := Detection(true, 160, 0, 320, 320), Crop(0, 0, 1279, 1280);
      var c := ScaledBox(d, camera, 320, 320);
      c == Crop(480, 0, 480, 1280) && !Proportional(c, d, camera, 320, 320)
  {
    ProportionalIff(Detection(true, 160, 0, 320, 320), Crop(0, 0, 1279, 1280), 320, 320);
  }

  const DUMMY := Crop(50, 50, 1000, 1000)

  /** The first detection marked for the crop. */
  ghost predicate IsFirstUsed(data: seq<Detection>, i: nat) {
    i < |data| && data[i].used && forall j :: 0 <= j < i ==> !data[j].used
  }

  method GetCropIc(data: seq<Detection>, camera: Crop, width: nat, height: nat) returns (crop: Option<Crop>)
    requires width > 0 && height > 0
    ensures crop.None? <==> forall i :: 0 <= i < |data| ==> !data[i].used
    ensures crop.Some? ==> exists i: nat :: IsFirstUsed(data, i) && crop.value == ScaledBox(data[i], camera, width, height)
  {
    var i := 0;
    while i < |data| && !data[i].used
      invariant i <= |data| && forall j :: 0 <= j < i ==> !data[j].used
    {
      i := i + 1;
    }
    if i >= |data| {
      return None;
    }
    assert IsFirstUsed(data, i);
    return Some(ScaledBox(data[i], camera, width, height));
  }

  // ------------------------------------------------------------------ what an iteration may do

  datatype Mode = Detecting | Classifying | Finished

  /** The calls that an iteration makes; frames are numbered by the tries. */
  datatype Event =
    | Got(frame: nat)
    | ImageSent(frame: nat)
    | DataSent(mode: Mode)
    | CropSet(crop: Crop)
    | Switched(from: Mode)
    | Awaited(frame: nat)
    | Cleaned(frame: nat)
    | Released(frame: nat)

  datatype Image = NoImage | InFlight | Arrived | Gone

  datatype Data = Unsent | Sent | Switch

  /**
    Where an iteration is: the frame it holds, the image and the data sent from it, the mode, the crop
    that belongs to the mode, and the one last set for the mode that follows.
   */
  datatype Progress = Progress(frame: Option<nat>, image: Image, data: Data, mode: Mode, crop: Crop, target: Crop, next: nat)

  function Begun(camera: Crop): Progress {
    Progress(None, NoImage, Unsent, Detecting, camera, camera, 0)
  }

  function Following(m: Mode): Mode {
    if m == Detecting then Classifying else Finished
  }

  predicate Holds(p: Progress, k: nat) {
    p.frame == Some(k)
  }

  /** One call; `None` where it is out of place. */
  function After(p: Progress, e: Event): Option<Progress> {
    match e
    case Got(k) =>
      if p.frame.None? && p.next <= k && p.mode != Finished then
        Some(p.(frame := Some(k), image := NoImage, data := Unsent, next := k + 1))
      else None
    case ImageSent(k) => if Holds(p, k) && p.image == NoImage && p.data == Unsent then Some(p.(image := InFlight)) else None
    case DataSent(m) => if p.frame.Some? && p.data == Unsent && p.mode == m && m != Finished then Some(p.(data := Sent)) else None
    case CropSet(c) =>
      if p.frame.Some? && p.data == Unsent && c == p.crop then Some(p)
      else if p.frame.Some? && p.data == Sent then Some(p.(target := c))
      else None
    case Switched(m) =>
      if p.frame.Some? && p.data == Sent && p.mode == m && m != Finished then
        Some(p.(data := Switch, mode := Following(m), crop := p.target))
      else None
    case Awaited(k) => if Holds(p, k) && p.image == InFlight then Some(p.(image := Arrived)) else None
    case Cleaned(k) => if Holds(p, k) && p.image == Arrived then Some(p.(image := Gone)) else None
    case Released(k) => if Holds(p, k) && (p.image == NoImage || p.image == Gone) then Some(p.(frame := None)) else None
  }

  function Replayed(log: seq<Event>, camera: Crop): Option<Progress> {
    if log == [] then Some(Begun(camera)) else
      var p := Replayed(log[..|log| - 1], camera);
      if p.Some? then After(p.value, log[|log| - 1]) else None
  }

  lemma ReplayedAppended(log: seq<Event>, e: Event, camera: Crop)
    requires Replayed(log, camera).Some?
    ensures Replayed(log + [e], camera) == After(Replayed(log, camera).value, e)
  {
    assert (log + [e])[..|log|] == log;
  }

  // ------------------------------------------------------------------ what every such iteration keeps

  lemma {:induction false} NotYet(log: seq<Event>, camera: Crop, k: nat)
    requires Replayed(log, camera).Some? && Replayed(log, camera).value.next <= k
    ensures Occurrences(log, Got(k)) == 0
    ensures Replayed(log, camera).value.frame != Some(k)
  {
    if log != [] {
      NotYet(log[..|log| - 1], camera, k);
    }
  }

  /** A frame is got at most once, and released exactly as often, unless it is still held. */
  lemma {:induction false} ReleasedOnce(log: seq<Event>, camera: Crop, k: nat)
    requires Replayed(log, camera).Some?
    ensures Occurrences(log, Got(k)) <= 1
    ensures Occurrences(log, Got(k)) == Occurrences(log, Released(k)) + if Replayed(log, camera).value.frame == Some(k) then 1 else 0
  {
    if log != [] {
      var before := log[..|log| - 1];
      ReleasedOnce(before, camera, k);
      if log[|log| - 1] == Got(k) {
        NotYet(before, camera, k);
      }
    }
  }

  /** An image is sent at most once per frame, and awaited and cleaned up exactly as often once the frame is released. */
  lemma {:induction false} ImageAwaitedOnce(log: seq<Event>, camera: Crop, k: nat)
    requires Replayed(log, camera).Some?
    ensures var p := Replayed(log, camera).value;
      var held := p.frame == Some(k);
      var sent := Occurrences(log, ImageSent(k));
      && sent <= Occurrences(log, Got(k)) - (if held && p.image == NoImage then 1 else 0)
      && Occurrences(log, Awaited(k)) == sent - (if held && p.image == InFlight then 1 else 0)
      && Occurrences(log, Cleaned(k)) == sent - (if held && (p.image == InFlight || p.image == Arrived) then 1 else 0)
  {
    if log != [] {
      var before := log[..|log| - 1];
      ImageAwaitedOnce(before, camera, k);
      ReleasedOnce(before, camera, k);
      if log[|log| - 1] == Got(k) {
        NotYet(before, camera, k);
      }
    }
  }

  /** The modes whose data were sent, in order. */
  function Sends(log: seq<Event>): seq<Mode> {
    if log == [] then [] else
      var sends := Sends(log[..|log| - 1]);
      var e := log[|log| - 1];
      if e.DataSent? then sends + [e.mode] else sends
  }

  function Copies(m: Mode, n: nat): (r: seq<Mode>)
    ensures |r| == n
  {
    seq(n, i => m)
  }

  /** The data sent are those of `m` detections and then those of `n` classifications. */
  ghost predicate SendsInOrder(log: seq<Event>, m: nat, n: nat) {
    Sends(log) == Copies(Detecting, m) + Copies(Classifying, n)
  }

  lemma MoreSent(log: seq<Event>, e: Event, m: nat, n: nat)
    requires SendsInOrder(log, m, n) && e.DataSent?
    ensures e.mode == Detecting && n == 0 ==> SendsInOrder(log + [e], m + 1, 0)
    ensures e.mode == Classifying ==> SendsInOrder(log + [e], m, n + 1)
  {
    assert (log + [e])[..|log|] == log;
    assert Copies(Detecting, m + 1) == Copies(Detecting, m) + [Detecting];
    assert Copies(Classifying, n + 1) == Copies(Classifying, n) + [Classifying];
  }

  /**
    The sends are detections and then classifications, with at least one of each kind that the mode has
    passed; so the last send of a finished iteration is a classification.
   */
  lemma {:induction false} SendsAreOrdered(log: seq<Event>, camera: Crop) returns (m: nat, n: nat)
    requires Replayed(log, camera).Some?
    ensures SendsInOrder(log, m, n)
    ensures var p := Replayed(log, camera).value;
      && (p.mode == Detecting ==> n == 0 && (p.frame.Some? && p.data == Sent ==> m > 0))
      && (p.mode == Classifying ==> m > 0 && (p.frame.Some? && p.data == Sent ==> n > 0))
      && (p.mode == Finished ==> m > 0 && n > 0)
  {
    if log == [] {
      m, n := 0, 0;
    } else {
      var before, e := log[..|log| - 1], log[|log| - 1];
      m, n := SendsAreOrdered(before, camera);
      if e.DataSent? {
        MoreSent(before, e, m, n);
        assert before + [e] == log;
        if e.mode == Detecting { m := m + 1; } else { n := n + 1; }
      }
    }
  }

  /** The mode changes at most once to the classification, and once to the end. */
  lemma {:induction false} SwitchesOnce(log: seq<Event>, camera: Crop)
    requires Replayed(log, camera).Some?
    ensures Occurrences(log, Switched(Detecting)) == if Replayed(log, camera).value.mode == Detecting then 0 else 1
    ensures Occurrences(log, Switched(Classifying)) == if Replayed(log, camera).value.mode == Finished then 1 else 0
  {
    if log != [] {
      SwitchesOnce(log[..|log| - 1], camera);
    }
  }

  // ------------------------------------------------------------------ the code

  /** What the sensor, the analysers and the exports answer while a frame is handled. */
  datatype Answers = Answers(channel: bool, sameNetwork: bool, sameCrop: bool, raw: bool, image: bool, analysed: bool,
                             detections: seq<Detection>, forced: bool, serialised: bool, cropAccepted: bool, networkAccepted: bool)

  datatype Frame = Timeout | Error | Frame(answers: Answers)

  /** The frame comes from the network and with the crop of the mode, and its data can be read. */
  predicate Usable(a: Answers) {
    a.channel && a.sameNetwork && a.sameCrop && a.raw
  }

  /** The frame comes from the network of the mode, but the crop is another one. */
  predicate Stray(a: Answers) {
    a.channel && a.sameNetwork && !a.sameCrop
  }

  /** The network of the mode finds what it is to find in the frame. */
  predicate Finds(isOd: bool, a: Answers) {
    Usable(a) && a.analysed && (isOd ==> a.detections != [] || a.forced)
  }

  ghost predicate HasUsed(data: seq<Detection>) {
    exists i :: 0 <= i < |data| && data[i].used
  }

  /** The frame passes the mode: its data are sent, and the sensor is set up for the other mode. */
  ghost predicate Passes(isOd: bool, f: Frame) {
    && f.Frame? && Finds(isOd, f.answers) && f.answers.serialised
    && (isOd && !f.answers.forced ==> HasUsed(f.answers.detections))
    && f.answers.cropAccepted && f.answers.networkAccepted
  }

  /** The mode after `n` tries, and whether a sensor error has ended them. */
  ghost function ModeAfter(frames: nat -> Frame, n: nat): (Mode, bool) {
    if n == 0 then (Detecting, false) else
      var (m, ended) := ModeAfter(frames, n - 1);
      if ended || m == Finished then (m, ended)
      else if frames(n - 1).Error? then (m, true)
      else (if Passes(m == Detecting, frames(n - 1)) then Following(m) else m, false)
  }

  ghost predicate NoError(frames: nat -> Frame, n: nat) {
    forall i: nat :: i < n ==> !frames(i).Error?
  }

  /** Tries `i` and `j` pass the two modes. */
  ghost predicate PassBoth(frames: nat -> Frame, i: nat, j: nat) {
    i < j && Passes(true, frames(i)) && Passes(false, frames(j)) && NoError(frames, j)
  }

  ghost predicate Detects(frames: nat -> Frame, n: nat) {
    exists i: nat :: i < n && Passes(true, frames(i))
  }

  ghost predicate Completes(frames: nat -> Frame, n: nat) {
    exists i: nat, j: nat :: j < n && PassBoth(frames, i, j)
  }

  lemma {:induction false} ModeAfterIff(frames: nat -> Frame, n: nat)
    ensures var (m, ended) := ModeAfter(frames, n);
      && (m == Finished <==> Completes(frames, n))
      && (m == Detecting && !ended ==> !Detects(frames, n))
      && (m == Classifying ==> Detects(frames, n))
      && (ended ==> !NoError(frames, n))
      && (!ended && m != Finished ==> NoError(frames, n))
  {
    if n > 0 {
      ModeAfterIff(frames, n - 1);
      var (m, ended) := ModeAfter(frames, n - 1);
      if i: nat, j: nat :| j < n && PassBoth(frames, i, j) {
        assert j < n - 1 ==> Completes(frames, n - 1);
        assert j == n - 1 ==> Detects(frames, n - 1) && NoError(frames, n - 1);
      }
      if m == Classifying && !ended && Passes(false, frames(n - 1)) {
        var i: nat :| i < n - 1 && Passes(true, frames(i));
        assert PassBoth(frames, i, n - 1);
      }
    }
  }

  lemma ModeStep(frames: nat -> Frame, n: nat)
    requires !ModeAfter(frames, n).1 && ModeAfter(frames, n).0 != Finished
    ensures var m := ModeAfter(frames, n).0;
      ModeAfter(frames, n + 1) ==
        if frames(n).Error? then (m, true) else (if Passes(m == Detecting, frames(n)) then Following(m) else m, false)
  {
  }

  /** Once ended or finished, the iteration makes no more tries. */
  lemma {:induction false} EndsWith(frames: nat -> Frame, k: nat, n: nat)
    requires k <= n && (ModeAfter(frames, k).1 || ModeAfter(frames, k).0 == Finished)
    ensures ModeAfter(frames, n) == ModeAfter(frames, k)
  {
    if k < n {
      EndsWith(frames, k, n - 1);
    }
  }

  class Application {
    const width: nat
    const height: nat
    /** The calls of the running iteration. */
    var log: seq<Event>

    constructor (width: nat, height: nat)
      ensures this.width == width && this.height == height
    {
      this.width, this.height, log := width, height, [];
    }

    ghost predicate At(camera: Crop, p: Progress)
      reads this
    {
      Replayed(log, camera) == Some(p)
    }

    method Do(e: Event, ghost camera: Crop, ghost p: Progress) returns (ghost q: Progress)
      requires At(camera, p) && After(p, e).Some?
      modifies this`log
      ensures At(camera, q) && q == After(p, e).value && log == old(log) + [e]
    {
      ReplayedAppended(log, e, camera);
      log := log + [e];
      q := After(p, e).value;
    }

    /** Whether the frame comes from the network and the crop of the mode; a stray crop is set again. */
    method IsUsable(crop: Crop, a: Answers, ghost camera: Crop, ghost p: Progress) returns (ok: bool)
      requires At(camera, p) && p.frame.Some? && p.data == Unsent && p.crop == crop
      modifies this
      ensures At(camera, p) && ok == (a.channel && a.sameNetwork && a.sameCrop && a.raw)
      ensures log == old(log) + if Stray(a) then [CropSet(crop)] else []
    {
      if !a.channel || !a.sameNetwork {
        return false;
      }
      if !a.sameCrop {
        ghost var q := Do(CropSet(crop), camera, p);
        return false;
      }
      return a.raw;
    }

    method NextCrop(isOd: bool, crop: Crop, camera: Crop, a: Answers) returns (next: Option<Crop>)
      requires width > 0 && height > 0
      ensures next.Some? <==> (isOd && !a.forced ==> HasUsed(a.detections))
      ensures next.Some? && isOd && !a.forced ==>
        exists i: nat :: IsFirstUsed(a.detections, i) && next.value == ScaledBox(a.detections[i], camera, width, height)
      ensures next.Some? && isOd && a.forced ==> next.value == Crop(50, 50, 1000, 1000)
      ensures !isOd ==> next == Some(camera)
    {
      if !isOd {
        return Some(camera);
      }
      if a.forced {
        return Some(DUMMY);
      }
      next := GetCropIc(a.detections, camera, width, height);
    }

    /** Sends the data of the mode; with the crop and the network of the other one set, the mode is passed. */
    method SendAndSwitch(isOd: bool, camera: Crop, crop: Crop, a: Answers, ghost p: Progress)
      returns (switched: bool, next: Crop, ghost q: Progress)
      requires width > 0 && height > 0
      requires At(camera, p) && p.frame.Some? && p.data == Unsent && p.mode == (if isOd then Detecting else Classifying) && p.crop == crop
      modifies this
      ensures At(camera, q) && q.frame == p.frame && q.image == p.image && q.next == p.next
      ensures q.mode == (if switched then Following(p.mode) else p.mode) && q.crop == next
      ensures old(log) <= log
      ensures q.data == if switched then Switch else if a.serialised then Sent else Unsent
      ensures switched <==> a.serialised && a.cropAccepted && a.networkAccepted && (isOd && !a.forced ==> HasUsed(a.detections))
    {
      switched, next, q := false, crop, p;
      if !a.serialised {
        return;
      }
      q := Do(DataSent(if isOd then Detecting else Classifying), camera, q);
      var target := NextCrop(isOd, crop, camera, a);
      if target.None? {
        return;
      }
      q := Do(CropSet(target.value), camera, q);
      if !a.cropAccepted || !a.networkAccepted {
        return;
      }
      q := Do(Switched(if isOd then Detecting else Classifying), camera, q);
      switched, next := true, target.value;
    }

    /** Takes a frame and sends its image; tells whether the network of the mode finds what it is to find. */
    method TakeFrame(k: nat, isOd: bool, camera: Crop, crop: Crop, a: Answers, ghost p: Progress) returns (found: bool, ghost q: Progress)
      requires At(camera, p) && p.frame.None? && p.next <= k && p.mode != Finished && p.crop == crop
      modifies this
      ensures At(camera, q)
      ensures found == (a.channel && a.sameNetwork && a.sameCrop && a.raw && a.analysed && (isOd ==> |a.detections| > 0 || a.forced))
      ensures q == Progress(Some(k), if a.image then InFlight else NoImage, Unsent, p.mode, crop, p.target, k + 1)
      ensures log == old(log) + [Got(k)] + (if Stray(a) then [CropSet(crop)] else []) + (if a.image then [ImageSent(k)] else [])
    {
      q := Do(Got(k), camera, p);
      var usable := IsUsable(crop, a, camera, q);
      if a.image {
        q := Do(ImageSent(k), camera, q);
      }
      found := usable && a.analysed && (!isOd || |a.detections| > 0 || a.forced);
    }

    method GiveBack(k: nat, camera: Crop, a: Answers, ghost p: Progress) returns (ghost q: Progress)
      requires At(camera, p) && Holds(p, k) && p.image == if a.image then InFlight else NoImage
      modifies this
      ensures At(camera, q) && q == p.(frame := None, image := if a.image then Gone else NoImage)
      ensures log == old(log) + (if a.image then [Awaited(k), Cleaned(k)] else []) + [Released(k)]
    {
      q := p;
      if a.image {
        q := Do(Awaited(k), camera, q);
        q := Do(Cleaned(k), camera, q);
      }
      q := Do(Released(k), camera, q);
    }

    /** One frame, from the sensor and back to it. */
    method HandleFrame(k: nat, isOd: bool, camera: Crop, crop: Crop, a: Answers, ghost p: Progress)
      returns (switched: bool, next: Crop, ghost q: Progress)
      requires width > 0 && height > 0
      requires At(camera, p) && p.frame.None? && p.next <= k && p.mode == (if isOd then Detecting else Classifying) && p.crop == crop
      modifies this
      ensures At(camera, q) && q.frame.None? && q.next == k + 1 && q.image == (if a.image then Gone else NoImage)
      ensures q.data == if switched then Switch else if Finds(isOd, a) && a.serialised then Sent else Unsent
      ensures switched <==> Passes(isOd, Frame(a))
      ensures q.mode == (if switched then Following(p.mode) else p.mode) && q.crop == next
      ensures old(log) + [Got(k)] + (if Stray(a) then [CropSet(crop)] else []) <= log && log[|log| - 1] == Released(k)
    {
      var found;
      switched, next := false, crop;
      found, q := TakeFrame(k, isOd, camera, crop, a, p);
      if found {
        switched, next, q := SendAndSwitch(isOd, camera, crop, a, q);
      }
      q := GiveBack(k, camera, a, q);
    }

    /** A sensor error ends the tries. */
    method HandleFrames(camera: Crop, frames: nat -> Frame, tries: nat) returns (finished: bool, ghost p: Progress)
      requires width > 0 && height > 0 && log == []
      modifies this
      ensures At(camera, p) && p.frame.None? && p.next <= tries
      ensures p.mode == ModeAfter(frames, tries).0 && (finished <==> p.mode == Finished)
    {
      var isOd, crop := true, camera;
      p := Begun(camera);
      for retry := 0 to tries
        invariant At(camera, p) && p.frame.None? && p.next <= retry && p.crop == crop
        invariant p.mode == (if isOd then Detecting else Classifying) && ModeAfter(frames, retry) == (p.mode, false)
      {
        ModeStep(frames, retry);
        var frame := frames(retry);
        if frame.Error? {
          EndsWith(frames, retry + 1, tries);
          return false, p;
        }
        if frame.Frame? {
          var switched;
          switched, crop, p := HandleFrame(retry, isOd, camera, crop, frame.answers, p);
          if switched && !isOd {
            EndsWith(frames, retry + 1, tries);
            return true, p;
          }
          isOd := isOd && !switched;
        }
      }
      return false, p;
    }

    /**
      An iteration makes its calls in order and holds no frame in the end; it is finished iff some frame
      passes the detection and a later one the classification before the sensor fails.
     */
    method OnIterate(camera: Option<Crop>, frames: nat -> Frame) returns (code: int, finished: bool)
      requires width > 0 && height > 0
      modifies this
      ensures camera.None? ==> code == -1 && log == [] && !finished
      ensures camera.Some? ==>
        var p := Replayed(log, camera.value);
        && code == 0 && p.Some? && p.value.frame.None? && p.value.next <= 10
        && p.value.mode == ModeAfter(frames, RETRY_MAX).0
        && (finished <==> Completes(frames, 10))
    {
      log := [];
      if camera.None? {
        return -1, false;
      }
      ghost var p;
      finished, p := HandleFrames(camera.value, frames, RETRY_MAX);
      ModeAfterIff(frames, RETRY_MAX);
      return 0, finished;
    }
  }
}
