/**
  The `LedRing` module object: its flags, counters and pin values are
  fields that `on_idle`, `on_second_tick` and `on_gcode_received` update
  in place. Each handler is proved to leave the state its step function
  in `LedRingSpec` gives.
 */
module LedRings {

  import S = LedRingSpec
  import G = GcodeSpec
  import Gcodes

  class LedRing {
    var autorun: bool
    var reachedTemp: bool
    var fadeDir: bool
    var printFinished: bool
    var printing: bool
    var lastTimeUs: int
    var seconds: int
    var queueCnt: int
    var cooledCnt: int
    var currentValue: int
    /** The values last given to the red, green, blue and hot pins. */
    var red: int
    var green: int
    var blue: int
    var hot: int
    /** The configuration `on_module_loaded` read; it does not change afterwards. */
    const ready: S.Rgb
    const printingRgb: S.Rgb
    const blinkTimeout: int
    const hotConnected: bool

    function Abs(): S.Ring
      reads this
    {
      S.Ring(autorun, reachedTemp, fadeDir, printFinished, printing,
             lastTimeUs, seconds, queueCnt, cooledCnt, currentValue,
             S.Rgb(red, green, blue), hot)
    }

    function Cfg(): S.Config {
      S.Config(ready, printingRgb, blinkTimeout, hotConnected)
    }

    predicate Valid()
      reads this
    {
      S.Valid(Abs()) && S.ValidConfig(Cfg())
    }

    /**
      `LedRing()` followed by `on_module_loaded` with the pins present:
      autorun on, the counters at 0, the pins off, and the colours confined
      to 0..255. The other flags and counters are not initialised.
     */
    constructor (readyColour: S.Rgb, printingColour: S.Rgb, timeout: int, hotPin: bool)
      requires 0 <= timeout < S.U16
      ensures Valid()
      ensures autorun && queueCnt == 0 && lastTimeUs == 0
      ensures red == 0 && green == 0 && blue == 0 && (hotPin ==> hot == 0)
      ensures ready == S.SetLeds(readyColour) && printingRgb == S.SetLeds(printingColour)
      ensures blinkTimeout == timeout && hotConnected == hotPin
    {
      autorun := true;
      queueCnt := 0;
      lastTimeUs := 0;
      var b1: bool :| true;
      var b2: bool :| true;
      var b3: bool :| true;
      var b4: bool :| true;
      reachedTemp, fadeDir, printFinished, printing := b1, b2, b3, b4;
      var sec: int :| 0 <= sec < S.U16;
      var cooled: int :| true;
      var cv: int :| true;
      var h: int :| true;
      seconds, cooledCnt, currentValue, hot := sec, cooled, cv, h;
      red, green, blue := 0, 0, 0;
      hotConnected := hotPin;
      if hotPin {
        hot := 0;
      }
      ready := S.SetLeds(readyColour);
      printingRgb := S.SetLeds(printingColour);
      blinkTimeout := timeout;
    }

    /** `setLeds`: each pin gets its channel confined to 0..255. */
    method SetLeds(c: S.Rgb)
      modifies this`red, this`green, this`blue
      ensures S.Rgb(red, green, blue) == S.SetLeds(c)
    {
      red := S.Confine(c.r);
      green := S.Confine(c.g);
      blue := S.Confine(c.b);
    }

    /** `on_idle`. */
    method OnIdle(halted: bool, tus: int, queueEmpty: bool, readings: seq<S.Reading>, fade: int -> int)
      requires Valid() && 0 <= tus < S.U32
      modifies this
      ensures Abs() == S.Idle(old(Abs()), Cfg(), halted, tus, queueEmpty, readings, fade)
      ensures Valid()
    {
      if !autorun {
        return;
      }
      if halted {
        return;
      }
      if (tus - lastTimeUs) % S.U32 >= S.IdlePeriod {
        lastTimeUs := tus;
      } else {
        return;
      }
      if !queueEmpty {
        QueueBusy();
        return;
      }
      QueueEmpty();
      var h := SurveyHeaters(readings);
      Settle(h, fade);
    }

    /** The non-empty-queue branch of `on_idle`: the printing colour, and the print guess. */
    method QueueBusy()
      requires Valid()
      modifies this`red, this`green, this`blue, this`queueCnt, this`printing
      ensures Abs() == S.Busy(old(Abs()), Cfg())
      ensures Valid()
    {
      SetLeds(printingRgb);
      if !printing {
        queueCnt := (queueCnt + 1) % S.U16;
        if queueCnt > S.PrintGuess {
          printing := true;
        }
      }
    }

    /** The empty-queue branch of `on_idle`: an assumed print has finished. */
    method QueueEmpty()
      requires Valid()
      modifies this`printFinished, this`currentValue, this`printing, this`seconds, this`queueCnt
      ensures Abs() == S.Finish(old(Abs()))
      ensures Valid()
    {
      if printing {
        printFinished := true;
        currentValue := 255;
        printing := false;
        seconds := 0;
      }
      queueCnt := 0;
    }

    /** The loop of `on_idle` over the temperature controllers. */
    static method SurveyHeaters(readings: seq<S.Reading>) returns (h: S.Heat)
      ensures h == S.Survey(readings)
    {
      var heating, isHot := false, false;
      var rh := 255;
      var heCnt, rtCnt := 0, 0;
      for i := 0 to |readings|
        invariant S.Heat(heating, isHot, rh, heCnt, rtCnt) == S.Survey(readings[..i])
      {
        var c := readings[i];
        assert readings[..i + 1][..i] == readings[..i];
        if c.hot {
          isHot := true;
        }
        if c.heating {
          heating := true;
          heCnt := heCnt + 1;
          var pc := S.Map2Range(c.current, 25, c.target, 0, 255);
          rh := if pc < rh then pc else rh;
          if c.reached {
            rtCnt := rtCnt + 1;
          }
        }
      }
      assert readings[..|readings|] == readings;
      h := S.Heat(heating, isHot, rh, heCnt, rtCnt);
    }

    /** The rest of `on_idle` once the queue is empty: the hysteresis, the hot pin and the colours. */
    method Settle(h: S.Heat, fade: int -> int)
      requires Valid()
      modifies this`reachedTemp, this`cooledCnt, this`hot, this`currentValue, this`fadeDir
      modifies this`red, this`green, this`blue
      ensures Abs() == S.Settle(old(Abs()), Cfg(), h, fade)
      ensures Valid()
    {
      var finished := printFinished;
      UpdateHeat(h);
      assert Abs() == S.Heated(old(Abs()), Cfg(), h);
      var r, g, b := ready.r, ready.g, ready.b;
      if h.heating && !reachedTemp {
        var lr := fade(h.rh);
        var lb := 255 - lr;
        g := 0;
        r := lr;
        b := lb;
      }
      assert S.Rgb(r, g, b) == S.Colour(Cfg(), h, reachedTemp, fade);
      Show(S.Rgb(r, g, b), finished, fade);
    }

    /** The lights: the finished fade, else the red pulse at temperature, else `colour`. */
    method Show(colour: S.Rgb, finished: bool, fade: int -> int)
      requires Valid()
      modifies this`currentValue, this`fadeDir, this`red, this`green, this`blue
      ensures Abs() == S.Show(old(Abs()), colour, finished, fade)
      ensures Valid()
    {
      if finished {
        FadeStep(fade);
      } else if reachedTemp {
        PulseStep();
      } else {
        SetLeds(colour);
      }
    }

    /** The `reached_temp` hysteresis and the hot pin. */
    method UpdateHeat(h: S.Heat)
      modifies this`reachedTemp, this`cooledCnt, this`hot
      ensures (reachedTemp, cooledCnt) == S.Hysteresis(old(reachedTemp), old(cooledCnt), h)
      ensures hot == if hotConnected then (if h.isHot then 255 else 0) else old(hot)
    {
      if h.heating {
        if h.heCnt == h.rtCnt {
          reachedTemp := true;
          cooledCnt := 0;
        } else if reachedTemp {
          cooledCnt := cooledCnt + 1;
          if cooledCnt > S.CoolGuess {
            reachedTemp := false;
          }
        }
      } else {
        reachedTemp := false;
      }
      if hotConnected {
        hot := if h.isHot then 255 else 0;
      }
    }

    /** The finished-print fade: `current_value` moves by 2 and all three channels show its fade. */
    method FadeStep(fade: int -> int)
      modifies this`currentValue, this`fadeDir, this`red, this`green, this`blue
      ensures (currentValue, fadeDir) == S.FadeStep(old(currentValue), old(fadeDir))
      ensures S.Rgb(red, green, blue) == S.SetLeds(S.Rgb(fade(currentValue), fade(currentValue), fade(currentValue)))
    {
      if fadeDir {
        currentValue := currentValue + 2;
        if currentValue >= 255 {
          fadeDir := false;
        }
      } else {
        currentValue := currentValue - 2;
        if currentValue <= 0 {
          fadeDir := true;
        }
      }
      var v := fade(currentValue);
      SetLeds(S.Rgb(v, v, v));
    }

    /** The reached-temperature pulse: red moves by 2 from the pin's value; green and blue are off. */
    method PulseStep()
      modifies this`fadeDir, this`red, this`green, this`blue
      ensures var ps := S.PulseStep(old(red), old(fadeDir));
        fadeDir == ps.1 && S.Rgb(red, green, blue) == S.SetLeds(S.Rgb(ps.0, 0, 0))
    {
      var r := red;
      if fadeDir {
        r := r + 2;
        if r >= 250 {
          fadeDir := false;
        }
      } else {
        r := r - 2;
        if r <= 10 {
          fadeDir := true;
        }
      }
      SetLeds(S.Rgb(r, 0, 0));
    }

    /** `on_second_tick`. */
    method OnSecondTick(halted: bool)
      requires Valid()
      modifies this
      ensures Abs() == S.Second(old(Abs()), Cfg(), halted)
      ensures Valid()
    {
      seconds := (seconds + 1) % S.U16;
      if halted {
        if seconds % 3 == 0 {
          SetLeds(S.Rgb(if red == 255 then 0 else 255, 0, 0));
        }
        return;
      }
      if autorun && printFinished && seconds > blinkTimeout {
        printFinished := false;
      }
    }

    /** `on_gcode_received`: only M150 is handled. */
    method OnGcodeReceived(gcode: Gcodes.Gcode)
      requires Valid() && gcode.Aligned()
      modifies this
      ensures Abs() == S.M150(old(Abs()), gcode.Args())
      ensures Valid()
    {
      if gcode.hasM {
        if gcode.code == 150 {
          if gcode.NumArgs() == 0 {
            autorun := true;
            return;
          }
          var r, g, b := red, green, blue;
          var has := gcode.HasLetter('R');
          if has {
            var v := gcode.GetValue('R');
            r := G.Trunc(v);
            autorun := false;
          }
          has := gcode.HasLetter('U');
          if has {
            var v := gcode.GetValue('U');
            g := G.Trunc(v);
            autorun := false;
          }
          has := gcode.HasLetter('B');
          if has {
            var v := gcode.GetValue('B');
            b := G.Trunc(v);
            autorun := false;
          }
          SetLeds(S.Rgb(r, g, b));
        }
      }
    }
  }
}
