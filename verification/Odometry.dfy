/** The encoder total of a servo: reads that may fail, and mode changes that give the
    position register a new base. */
module Odometry {
  import opened Basics

  type i32 = x: int | -0x8000_0000 <= x < 0x8000_0000

  predicate InI32(x: int) {
    -0x8000_0000 <= x < 0x8000_0000
  }

  // --------------------------------------------------------------- abstract runs

  /** The driver's total and last count, the position register, and how far the wheel has
      really turned. */
  datatype World = World(total: int, last: int, position: int, turned: int)

  datatype Event =
    | Move(d: int)
    | Sample(ok: bool)
    | ModeChange(firstOk: bool, written: bool, newBase: int, secondOk: bool)

  /** A read gives the register, or 0 when it fails. */
  function Count(w: World, ok: bool): int {
    if ok then w.position else 0
  }

  function Sampled(w: World, ok: bool): World {
    w.(total := w.total + (Count(w, ok) - w.last), last := Count(w, ok))
  }

  /** The wheel does not move during a mode change; a change that was not written leaves the
      register alone. */
  function Step(w: World, e: Event): World {
    match e
    case Move(d) => w.(position := w.position + d, turned := w.turned + d)
    case Sample(ok) => Sampled(w, ok)
    case ModeChange(firstOk, written, newBase, secondOk) =>
      var w' := Sampled(w, firstOk);
      if !written then w'
      else
        var w'' := w'.(position := newBase);
        w''.(last := Count(w'', secondOk))
  }

  /** The signed 32-bit numbers of the driver and the register do not overflow. */
  predicate Fits(w: World, e: Event) {
    match e
    case Move(d) => InI32(w.position + d)
    case Sample(ok) => InI32(Count(w, ok) - w.last)
    case ModeChange(firstOk, _, newBase, _) => InI32(Count(w, firstOk) - w.last) && InI32(newBase)
  }

  function Run(w: World, es: seq<Event>): World
    decreases |es|
  {
    if es == [] then w else Run(Step(w, es[0]), es[1..])
  }

  /** The steps in numbers: a good read adds what the register moved since the last count, a
      failed one counts 0; a mode change reads, and if it was written reads again for a new
      base without adding. */
  lemma StepsOnNumbers(total: int, last: int, position: int, turned: int, d: int, base: int)
    ensures var w := World(total, last, position, turned);
            && Step(w, Move(d)) == World(total, last, position + d, turned + d)
            && Step(w, Sample(true)) == World(total + position - last, position, position, turned)
            && Step(w, Sample(false)) == World(total - last, 0, position, turned)
            && Step(w, ModeChange(true, true, base, true)) == World(total + position - last, base, base, turned)
            && Step(w, ModeChange(true, true, base, false)) == World(total + position - last, 0, base, turned)
            && Step(w, ModeChange(false, true, base, true)) == World(total - last, base, base, turned)
            && Step(w, ModeChange(true, false, base, true)) == World(total + position - last, position, position, turned)
            && Step(w, ModeChange(false, false, base, true)) == World(total - last, 0, position, turned)
  {
  }

  /** What the next good read will report beyond the true displacement. */
  function Drift(w: World): int {
    w.total - w.last + w.position - w.turned
  }

  /** The counts that a mode change loses: what its second read misses of the new register
      less what its first one missed of the old. */
  function Loss(w: World, e: Event): int {
    match e
    case ModeChange(firstOk, true, newBase, secondOk) =>
      (if secondOk then 0 else newBase) - (if firstOk then 0 else w.position)
    case _ => 0
  }

  function Losses(w: World, es: seq<Event>): int
    decreases |es|
  {
    if es == [] then 0 else Loss(w, es[0]) + Losses(Step(w, es[0]), es[1..])
  }

  /** Moving and reading, well or badly, keep the drift; a mode change adds its loss. */
  lemma DriftStep(w: World, e: Event)
    ensures Drift(Step(w, e)) == Drift(w) + Loss(w, e)
  {
  }

  lemma {:induction false} DriftRun(w: World, es: seq<Event>)
    ensures Drift(Run(w, es)) == Drift(w) + Losses(w, es)
    decreases |es|
  {
    if es != [] {
      DriftStep(w, es[0]);
      DriftRun(Step(w, es[0]), es[1..]);
    }
  }

  lemma {:induction false} RunSnoc(w: World, es: seq<Event>, e: Event)
    ensures Run(w, es + [e]) == Step(Run(w, es), e)
    decreases |es|
  {
    if es == [] {
      assert es + [e] == [e] && [e][1..] == [];
    } else {
      RunSnoc(Step(w, es[0]), es[1..], e);
      assert (es + [e])[1..] == es[1..] + [e];
    }
  }

  /** From one good read to another, over any moves, failed reads and mode changes between
      them, the total changes by the true displacement exactly when the mode changes lost
      nothing on the whole. */
  lemma EncoderConserved(w: World, es: seq<Event>)
    requires w.last == w.position
    ensures var w' := Run(w, es + [Sample(true)]);
            && w'.total - w.total == w'.turned - w.turned + Losses(w, es)
            && (w'.total - w.total == w'.turned - w.turned <==> Losses(w, es) == 0)
  {
    RunSnoc(w, es, Sample(true));
    DriftRun(w, es);
  }

  predicate GoodChange(e: Event) {
    e.ModeChange? && e.written ==> e.firstOk && e.secondOk
  }

  /** In particular when both reads of every mode change are good; the reads between the
      mode changes may fail at will. */
  lemma {:induction false} GoodChangesLoseNothing(w: World, es: seq<Event>)
    requires forall e :: e in es ==> GoodChange(e)
    ensures Losses(w, es) == 0
    decreases |es|
  {
    if es != [] {
      assert es[0] in es;
      GoodChangesLoseNothing(Step(w, es[0]), es[1..]);
    }
  }

  /** A failed first read is never made good: the count it missed is gone. */
  lemma FailedFirstReadLoses(w: World, newBase: int)
    requires w.last == w.position
    ensures var w' := Run(w, [ModeChange(false, true, newBase, true), Sample(true)]);
            w'.total - w.total == w'.turned - w.turned - w.position
  {
    var e := ModeChange(false, true, newBase, true);
    EncoderConserved(w, [e]);
    assert [e] + [Sample(true)] == [e, Sample(true)] && [e][1..] == [];
    assert Losses(w, [e]) == Loss(w, e) + Losses(Step(w, e), []);
  }

  // ----------------------------------------------------------------- the driver

  datatype Mode = NoModeSet | VelocityMode | PositionMode | ExtendedPositionMode | PwmMode

  /** The servo on the bus. Each exchange succeeds or not as scripted, and afterwards always
      does; a mode change puts the register on a scripted new base. */
  class Device {
    var position: i32
    var mode: Mode
    var torque: bool
    var links: seq<bool>
    var bases: seq<i32>
    ghost var turned: int

    constructor (position: i32, mode: Mode, links: seq<bool>, bases: seq<i32>)
      ensures this.position == position && this.mode == mode && this.links == links && this.bases == bases && turned == 0
    {
      this.position, this.mode, this.torque, this.links, this.bases, this.turned := position, mode, false, links, bases, 0;
    }

    method Exchange() returns (ok: bool)
      modifies `links
      ensures ok == (old(links) == [] || old(links)[0])
      ensures links == if old(links) == [] then [] else old(links)[1..]
    {
      ok := links == [] || links[0];
      links := if links == [] then [] else links[1..];
    }

    method WriteMode(m: Mode) returns (ok: bool)
      modifies `links, `mode, `position, `bases
      ensures old(links) == [] ==> ok && links == []
      ensures !ok ==> position == old(position) && mode == old(mode)
      ensures ok ==> mode == m && position == if old(bases) == [] then old(position) else old(bases)[0]
    {
      ok := Exchange();
      if ok {
        mode := m;
        if bases != [] {
          position, bases := bases[0], bases[1..];
        }
      }
    }
  }

  class Servo {
    const dev: Device
    var totalEncoderCount: int
    var lastEncoderCount: i32

    /** The last count starts out as whatever was in memory. */
    constructor (dev: Device, garbage: i32)
      ensures this.dev == dev && totalEncoderCount == 0 && lastEncoderCount == garbage
    {
      this.dev, totalEncoderCount, lastEncoderCount := dev, 0, garbage;
    }

    ghost function Now(): World
      reads this, dev
    {
      World(totalEncoderCount, lastEncoderCount, dev.position, dev.turned)
    }

    /** No difference of counts that the next reads may form overflows. */
    ghost predicate NoOverflow()
      reads this, dev
    {
      InI32(dev.position - lastEncoderCount) && InI32(0 - lastEncoderCount)
    }

    method GetPresentPosition() returns (position: i32, ghost ok: bool)
      modifies dev`links
      ensures position == Count(Now(), ok)
      ensures old(dev.links) == [] ==> ok && dev.links == []
    {
      var good := dev.Exchange();
      position := if good then dev.position else 0;
      ok := good;
    }

    method UpdateEncoderCount(modeChanged: bool) returns (ghost ok: bool)
      requires !modeChanged ==> NoOverflow()
      modifies `totalEncoderCount, `lastEncoderCount, dev`links
      ensures Now() == if modeChanged then old(Now()).(last := Count(old(Now()), ok)) else Sampled(old(Now()), ok)
      ensures old(dev.links) == [] ==> ok && dev.links == []
    {
      var encoderCount;
      encoderCount, ok := GetPresentPosition();
      if modeChanged {
        lastEncoderCount := encoderCount;
      } else {
        var delta: i32 := encoderCount - lastEncoderCount;
        lastEncoderCount := encoderCount;
        totalEncoderCount := totalEncoderCount + delta;
      }
    }

    method GetTotalEncoderCount() returns (total: int, ghost ok: bool)
      requires NoOverflow()
      modifies `totalEncoderCount, `lastEncoderCount, dev`links
      ensures Now() == Step(old(Now()), Sample(ok)) && total == totalEncoderCount
    {
      ok := UpdateEncoderCount(false);
      total := totalEncoderCount;
    }

    /** Changing the mode is one sample, and one more step of the abstract run. */
    method SetOperatingMode(mode: Mode) returns (modeSet: bool, ghost e: Event)
      requires NoOverflow()
      modifies `totalEncoderCount, `lastEncoderCount, dev`links, dev`mode, dev`position, dev`bases
      ensures e.ModeChange? && Fits(old(Now()), e) && Now() == Step(old(Now()), e)
      ensures modeSet == e.written && (modeSet ==> dev.mode == mode) && (!modeSet ==> dev.mode == old(dev.mode))
      ensures mode == NoModeSet ==> !modeSet
      ensures old(dev.links) == [] ==> modeSet == (mode != NoModeSet) && GoodChange(e) && dev.links == []
    {
      ghost var firstOk := UpdateEncoderCount(false);
      e := ModeChange(firstOk, false, 0, true);
      modeSet := false;
      if mode != NoModeSet {
        modeSet := dev.WriteMode(mode);
        if modeSet {
          var _ := dev.Exchange();
          var _ := dev.Exchange();
          ghost var secondOk := UpdateEncoderCount(true);
          e := ModeChange(firstOk, true, dev.position, secondOk);
        }
      }
    }

    method GetOperatingMode() returns (mode: Mode)
      modifies dev`links
      ensures mode == if old(dev.links) == [] || old(dev.links)[0] then dev.mode else NoModeSet
      ensures old(dev.links) == [] ==> dev.links == []
    {
      var ok := dev.Exchange();
      mode := if ok then dev.mode else NoModeSet;
    }

    method EnableTorque(enable: bool) returns (ok: bool)
      modifies dev`links, dev`torque
      ensures dev.torque == if ok then enable else old(dev.torque)
      ensures old(dev.links) == [] ==> ok && dev.links == []
    {
      ok := dev.Exchange();
      if ok {
        dev.torque := enable;
      }
    }

    /** Brings the servo into a mode. Either the odometry is left alone, or it makes one mode
        change of the abstract run. Over a good link the mode is always reached, the change
        loses no counts and the torque is back on. */
    method ConfigureControlMode(newMode: Mode) returns (ghost e: Option<Event>)
      requires NoOverflow()
      modifies `totalEncoderCount, `lastEncoderCount
      modifies dev`links, dev`mode, dev`position, dev`bases, dev`torque
      ensures match e
              case None => Now() == old(Now()) && dev.mode == old(dev.mode)
              case Some(x) =>
                && x.ModeChange? && Fits(old(Now()), x) && Now() == Step(old(Now()), x)
                && (x.written ==> dev.mode == newMode)
      ensures old(dev.mode) == newMode && (old(dev.links) == [] || old(dev.links)[0]) ==> e == None
      ensures old(dev.links) == [] && newMode != NoModeSet ==>
                && dev.mode == newMode
                && (e == None ==> old(dev.mode) == newMode && dev.torque == old(dev.torque))
                && (e != None ==> GoodChange(e.value) && dev.torque)
    {
      e := None;
      var mode := GetOperatingMode();
      if mode != newMode {
        var _, _ := GetPresentPosition();
        var ok := EnableTorque(false);
        if ok {
          var changed;
          ghost var change;
          changed, change := SetOperatingMode(newMode);
          e := Some(change);
          if changed {
            var _ := EnableTorque(true);
          }
        }
      }
    }
  }
}
