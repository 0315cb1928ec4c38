/**
 * The active-period controller of the sketch: `setup()`, `loop()` and
 * `goToDeepSleep()` acting on the globals `activePeriod` (kept in RTC memory
 * across deep sleep), `lastButton`, `awakeStart` and the LED output levels.
 *
 * Hardware is abstracted: `millis()` is the parameter `now`, the button
 * reads of one scan pass are the sequences `first`/`second`, the Wi-Fi
 * status answers for the press of line i are `link[i]`, the wake cause is
 * an input, and deep sleep is the terminal `Outcome.DeepSleep`.
 */
module Controller {
  import opened Config
  import opened Debounce
  import SleepMask
  import WiFi

  /** Modulus of the 32-bit `unsigned long` that `millis()` returns. */
  const MillisModulus: int := 0x1_0000_0000

  /** A value of `millis()`. */
  type Millis = x: int | 0 <= x < 0x1_0000_0000

  /** The value `millis()` shows t ms after it showed start: the 32-bit counter wraps at 2^32. */
  function Advance(start: Millis, t: nat): Millis
  {
    (start + t) % MillisModulus
  }

  /** `now - start` on 32-bit unsigned values: the forward distance from start to now, wrapping at 2^32. */
  function Elapsed(now: Millis, start: Millis): (d: Millis)
    ensures Advance(start, d) == now
  {
    (now - start) % MillisModulus
  }

  /** The wrapping subtraction gives the true elapsed time as long as that is below 2^32 ms (about 49.7 days). */
  lemma ElapsedAcrossWrap(start: Millis, t: nat)
    requires t < MillisModulus
    ensures Elapsed(Advance(start, t), start) == t
  {
  }

  /**
   * The comparison of line 84 holds exactly when `now` is not reached from
   * `start` within the first 10 minutes of the (wrapping) counter.
   */
  lemma ElapsedBeyondWindow(now: Millis, start: Millis)
    ensures Elapsed(now, start) >= StayAwakeDuration <==>
      forall t :: 0 <= t < StayAwakeDuration ==> Advance(start, t) != now
  {
    forall t | 0 <= t < StayAwakeDuration && Advance(start, t) == now
      ensures Elapsed(now, start) == t
    {
      ElapsedAcrossWrap(start, t);
    }
  }

  /** The stay-awake window is over: no instant of the 10 minutes after `start` shows `now`. */
  predicate TimedOut(now: Millis, start: Millis)
    ensures TimedOut(now, start) <==>
      forall t :: 0 <= t < StayAwakeDuration ==> Advance(start, t) != now
  {
    ElapsedBeyondWindow(now, start);
    Elapsed(now, start) >= StayAwakeDuration
  }

  /** Why the chip started: woken by the EXT1 button mask, or anything else (power-on, reset, timer, ...). */
  datatype WakeCause = Ext1Wake | OtherCause

  /** EXT1 wake condition passed to the sleep API; the sketch passes ALL_LOW. */
  datatype Ext1Mode = WakeAllLow | WakeAnyHigh

  /** Result of one `loop()` call: it returns, or the chip enters deep sleep and never returns. */
  datatype Outcome =
    | Returned
    | DeepSleep(mask: bv64, mode: Ext1Mode, retainedActive: bool)

  /** LED levels with every LED LOW. */
  function AllOff(): seq<bool>
  {
    seq(NumButtons, _ => false)
  }

  /** LED levels with LED i HIGH and every other LED LOW. */
  function OnlyLit(i: nat): seq<bool>
  {
    seq(NumButtons, k => k == i)
  }

  /**
   * The LED levels that handling the presses in s one after another passes
   * through: for each, only that button's LED lit, then every LED LOW.
   */
  function Flashes(s: seq<nat>): seq<seq<bool>>
  {
    if s == [] then [] else [OnlyLit(s[0]), AllOff()] + Flashes(s[1..])
  }

  /** Press k of s shows as entries 2k (only its LED lit) and 2k + 1 (all LOW) of the history. */
  lemma {:induction false} FlashesSpec(s: seq<nat>)
    ensures |Flashes(s)| == 2 * |s|
    ensures forall k :: 0 <= k < |s| ==>
      Flashes(s)[2 * k] == OnlyLit(s[k]) && Flashes(s)[2 * k + 1] == AllOff()
  {
    if s != [] {
      var tail := s[1..];
      var rest := Flashes(tail);
      FlashesSpec(tail);
      assert Flashes(s) == [OnlyLit(s[0]), AllOff()] + rest;
      forall k | 0 <= k < |s|
        ensures Flashes(s)[2 * k] == OnlyLit(s[k]) && Flashes(s)[2 * k + 1] == AllOff()
      {
        if k > 0 {
          assert s[k] == tail[k - 1];
          assert Flashes(s)[2 * k] == rest[2 * (k - 1)];
          assert Flashes(s)[2 * k + 1] == rest[2 * (k - 1) + 1];
        }
      }
    }
  }

  /** Handling the presses of a + b one after another shows the history of a, then that of b. */
  lemma {:induction false} FlashesAppend(a: seq<nat>, b: seq<nat>)
    ensures Flashes(a + b) == Flashes(a) + Flashes(b)
  {
    if a == [] {
      assert a + b == b;
    } else {
      assert (a + b)[0] == a[0] && (a + b)[1..] == a[1..] + b;
      FlashesAppend(a[1..], b);
      var head := [OnlyLit(a[0]), AllOff()];
      assert Flashes(a + b) == head + (Flashes(a[1..]) + Flashes(b));
      assert head + (Flashes(a[1..]) + Flashes(b)) == (head + Flashes(a[1..])) + Flashes(b);
    }
  }

  lemma ConcatAssoc<T>(a: seq<T>, b: seq<T>, c: seq<T>)
    ensures (a + b) + c == a + (b + c)
  {
  }

  /** One step of the loop scan: line i's flash, if it is confirmed, comes before those of the lines above it. */
  lemma ScanStep(first: seq<Level>, second: seq<Level>, i: nat)
    requires |first| == |second| && i < |first|
    ensures ConfirmedFrom(first, second, i) ==
      (if Confirmed(first, second, i) then [i] else []) + ConfirmedFrom(first, second, i + 1)
    ensures Flashes(ConfirmedFrom(first, second, i)) ==
      (if Confirmed(first, second, i) then [OnlyLit(i), AllOff()] else []) + Flashes(ConfirmedFrom(first, second, i + 1))
  {
    FlashesAppend(if Confirmed(first, second, i) then [i] else [], ConfirmedFrom(first, second, i + 1));
    assert [i][1..] == [];
  }

  /** The press a scan with `break` confirmed, as a list of at most one line. */
  function PressList(o: Option<nat>): seq<nat>
  {
    if o.Some? then [o.value] else []
  }

  predicate AllLow(levels: seq<bool>)
  {
    forall k :: 0 <= k < |levels| ==> !levels[k]
  }

  predicate AtMostOneLit(levels: seq<bool>)
  {
    forall a, b :: 0 <= a < |levels| && 0 <= b < |levels| && levels[a] && levels[b] ==> a == b
  }

  class Device {
    /** Retained across deep sleep (RTC memory); false only after power loss. */
    var activePeriod: bool
    /** Index of the button confirmed in `setup()`, or -1. */
    var lastButton: int
    /** `millis()` at the start of `setup()`. */
    var awakeStart: Millis
    /** Output level of LED i (true = HIGH). */
    const leds: array<bool>

    /** Every LED level vector the outputs have passed through, oldest first. */
    ghost var ledTrace: seq<seq<bool>>
    /** Every handled press (LED lit, Wi-Fi attempted, LED cleared), oldest first. */
    ghost var presses: seq<nat>

    ghost predicate Valid()
      reads this, leds
    {
      && leds.Length == NumButtons
      && -1 <= lastButton < NumButtons
      && |ledTrace| > 0
      && ledTrace[|ledTrace| - 1] == leds[..]
      && (forall t :: 0 <= t < |ledTrace| ==> |ledTrace[t]| == NumButtons && AtMostOneLit(ledTrace[t]))
    }

    /**
     * A fresh process after power-on or a deep-sleep wake: the ordinary globals
     * take their initial values, `activePeriod` is whatever RTC memory holds
     * (false after power loss).
     */
    constructor Boot(retainedActive: bool)
      ensures Valid() && fresh(leds)
      ensures activePeriod == retainedActive && lastButton == -1 && awakeStart == 0
      ensures AllLow(leds[..]) && ledTrace == [AllOff()] && presses == []
    {
      activePeriod := retainedActive;
      lastButton := -1;
      awakeStart := 0;
      leds := new bool[NumButtons](_ => false);
      new;
      assert leds[..] == AllOff();
      ledTrace := [leds[..]];
      presses := [];
    }

    /**
     * Handling of one confirmed press: light LED i, try the Wi-Fi link (and
     * print the time), wait the display time, switch LED i off again.
     */
    method HandlePress(i: nat, linkUp: nat -> bool) returns (retries: nat, connected: bool)
      requires Valid() && i < NumButtons && AllLow(leds[..])
      modifies leds, this`ledTrace, this`presses
      ensures Valid() && AllLow(leds[..])
      ensures ledTrace == old(ledTrace) + [OnlyLit(i), AllOff()]
      ensures presses == old(presses) + [i]
      ensures retries <= MaxWiFiRetries
      ensures forall k :: 0 <= k < retries ==> !linkUp(k)
      ensures retries < MaxWiFiRetries ==> linkUp(retries)
      ensures connected == linkUp(retries + 1)
    {
      leds[i] := true;
      assert leds[..] == OnlyLit(i);
      ledTrace := ledTrace + [leds[..]];
      presses := presses + [i];
      retries, connected := WiFi.ConnectWiFi(linkUp);
      leds[i] := false;
      assert leds[..] == AllOff();
      ledTrace := ledTrace + [leds[..]];
    }

    /**
     * The scan of `setup()`, the same in both wake-cause branches: the lowest
     * confirmed line becomes `lastButton`, starts the active period and is
     * handled, then the scan stops; with no confirmed line nothing changes.
     */
    method ScanForPress(first: seq<Level>, second: seq<Level>, link: seq<nat -> bool>)
      requires Valid() && AllLow(leds[..])
      requires |first| == NumButtons && |second| == NumButtons && |link| == NumButtons
      modifies leds, this`lastButton, this`activePeriod, this`ledTrace, this`presses
      ensures Valid() && AllLow(leds[..])
      ensures match FirstConfirmed(first, second)
        case Some(i) => lastButton == i && activePeriod && presses == old(presses) + [i]
        case None =>
          lastButton == old(lastButton) && activePeriod == old(activePeriod) && presses == old(presses)
      ensures ledTrace == old(ledTrace) + Flashes(PressList(FirstConfirmed(first, second)))
    {
      var i := 0;
      while i < NumButtons
        invariant 0 <= i <= NumButtons
        invariant Valid() && AllLow(leds[..])
        invariant FirstConfirmedFrom(first, second, i) == FirstConfirmed(first, second)
        invariant lastButton == old(lastButton) && activePeriod == old(activePeriod)
        invariant presses == old(presses) && ledTrace == old(ledTrace)
      {
        if first[i] == Low {
          if second[i] == Low {
            lastButton := i;
            activePeriod := true;
            var retries, connected := HandlePress(i, link[i]);
            assert [i][1..] == [];
            break;
          }
        }
        i := i + 1;
      }
    }

    /**
     * `setup()`: drive every LED LOW, stamp `awakeStart`, then run the press
     * scan. What it does does not depend on the wake cause.
     */
    method Setup(cause: WakeCause, now: Millis, first: seq<Level>, second: seq<Level>, link: seq<nat -> bool>)
      requires Valid()
      requires |first| == NumButtons && |second| == NumButtons && |link| == NumButtons
      modifies this, leds
      ensures Valid() && AllLow(leds[..])
      ensures awakeStart == now
      ensures activePeriod == (old(activePeriod) || FirstConfirmed(first, second).Some?)
      ensures match FirstConfirmed(first, second)
        case Some(i) => lastButton == i && presses == old(presses) + [i]
        case None => lastButton == old(lastButton) && presses == old(presses)
      ensures |ledTrace| == |old(ledTrace)| + NumButtons + 2 * |PressList(FirstConfirmed(first, second))|
      ensures ledTrace[..|old(ledTrace)|] == old(ledTrace)
      ensures forall t, j :: |old(ledTrace)| <= t < |old(ledTrace)| + NumButtons && 0 <= j <= t - |old(ledTrace)| ==>
        !ledTrace[t][j]
      ensures forall t, j :: |old(ledTrace)| <= t < |old(ledTrace)| + NumButtons && t - |old(ledTrace)| < j < NumButtons ==>
        ledTrace[t][j] == old(leds[j])
      ensures ledTrace[|old(ledTrace)| + NumButtons..] == Flashes(PressList(FirstConfirmed(first, second)))
    {
      ClearLeds();
      awakeStart := now;
      if cause == Ext1Wake {
        ScanForPress(first, second, link);
      } else {
        ScanForPress(first, second, link);
      }
    }

    /**
     * The output loop at the start of `setup()`: drive LED 0, 1, 2, 3 LOW in
     * turn. The LED history grows by one entry per step; after step m the
     * LEDs 0..m are LOW and the others still show their old levels.
     */
    method ClearLeds()
      requires Valid()
      modifies leds, this`ledTrace
      ensures Valid() && AllLow(leds[..])
      ensures |ledTrace| == |old(ledTrace)| + NumButtons
      ensures ledTrace[..|old(ledTrace)|] == old(ledTrace)
      ensures forall t, j :: |old(ledTrace)| <= t < |ledTrace| && 0 <= j <= t - |old(ledTrace)| ==>
        !ledTrace[t][j]
      ensures forall t, j :: |old(ledTrace)| <= t < |ledTrace| && t - |old(ledTrace)| < j < NumButtons ==>
        ledTrace[t][j] == old(leds[j])
    {
      ghost var start := |ledTrace|;
      for k := 0 to NumButtons
        invariant Valid()
        invariant forall j :: 0 <= j < k ==> !leds[j]
        invariant |ledTrace| == start + k && ledTrace[..start] == old(ledTrace)
        invariant forall t, j :: start <= t < |ledTrace| && 0 <= j <= t - start ==> !ledTrace[t][j]
        invariant forall j :: k <= j < NumButtons ==> leds[j] == old(leds[j])
        invariant forall t, j :: start <= t < |ledTrace| && t - start < j < NumButtons ==>
          ledTrace[t][j] == old(leds[j])
      {
        leds[k] := false;
        ghost var levels := leds[..];
        assert AtMostOneLit(levels) by {
          assert AtMostOneLit(ledTrace[|ledTrace| - 1]);
        }
        ledTrace := ledTrace + [levels];
      }
    }

    /**
     * `goToDeepSleep()`: arm the EXT1 wake-up on the button mask and sleep.
     * The outcome carries the mask and the `activePeriod` value RTC memory
     * keeps for the next boot.
     */
    method GoToDeepSleep() returns (outcome: Outcome)
      ensures outcome == DeepSleep(SleepMask.WakeMask(), WakeAllLow, activePeriod)
      ensures forall p: bv6 :: SleepMask.BitSet(outcome.mask, p) <==> p in ButtonPins
    {
      outcome := DeepSleep(SleepMask.WakeMask(), WakeAllLow, activePeriod);
    }

    /**
     * One line of the scan of `loop()`: a line read LOW twice is handled;
     * otherwise nothing happens.
     */
    method HandleLine(first: seq<Level>, second: seq<Level>, i: nat, linkUp: nat -> bool)
      requires Valid() && AllLow(leds[..])
      requires |first| == NumButtons && |second| == NumButtons && i < NumButtons
      modifies leds, this`ledTrace, this`presses
      ensures Valid() && AllLow(leds[..])
      ensures presses == old(presses) + (if Confirmed(first, second, i) then [i] else [])
      ensures ledTrace == old(ledTrace) + (if Confirmed(first, second, i) then [OnlyLit(i), AllOff()] else [])
    {
      if first[i] == Low {
        if second[i] == Low {
          var retries, connected := HandlePress(i, linkUp);
          return;
        }
      }
      assert !Confirmed(first, second, i);
    }

    /**
     * The scan of `loop()`: no `break` and no lock-out, so every confirmed line
     * of the pass is handled, in ascending order.
     */
    method HandleAllPresses(first: seq<Level>, second: seq<Level>, link: seq<nat -> bool>)
      requires Valid() && AllLow(leds[..])
      requires |first| == NumButtons && |second| == NumButtons && |link| == NumButtons
      modifies leds, this`ledTrace, this`presses
      ensures Valid() && AllLow(leds[..])
      ensures presses == old(presses) + ConfirmedAll(first, second)
      ensures ledTrace == old(ledTrace) + Flashes(ConfirmedAll(first, second))
    {
      ghost var all := ConfirmedFrom(first, second, 0);
      var i := 0;
      while i < NumButtons
        invariant 0 <= i <= NumButtons
        invariant Valid() && AllLow(leds[..])
        invariant presses + ConfirmedFrom(first, second, i) == old(presses) + all
        invariant ledTrace + Flashes(ConfirmedFrom(first, second, i)) == old(ledTrace) + Flashes(all)
      {
        ghost var rest := ConfirmedFrom(first, second, i + 1);
        ghost var here := if Confirmed(first, second, i) then [i] else [];
        ghost var flash: seq<seq<bool>> := if Confirmed(first, second, i) then [OnlyLit(i), AllOff()] else [];
        ScanStep(first, second, i);
        ConcatAssoc(presses, here, rest);
        ConcatAssoc(ledTrace, flash, Flashes(rest));
        HandleLine(first, second, i, link[i]);
        i := i + 1;
      }
    }

    /**
     * One call of `loop()`: sleep if no active period is running; sleep
     * (clearing the flag first) once 10 minutes have passed since
     * `awakeStart`; otherwise handle every confirmed line of the pass in
     * ascending order. `awakeStart` and `lastButton` are never touched, so a
     * press here does not extend the window; the flag carried into deep sleep
     * is always false.
     */
    method Loop(now: Millis, first: seq<Level>, second: seq<Level>, link: seq<nat -> bool>)
      returns (outcome: Outcome)
      requires Valid() && AllLow(leds[..])
      requires |first| == NumButtons && |second| == NumButtons && |link| == NumButtons
      modifies leds, this`activePeriod, this`ledTrace, this`presses
      ensures Valid() && AllLow(leds[..])
      ensures outcome.DeepSleep? <==> !old(activePeriod) || TimedOut(now, awakeStart)
      ensures activePeriod == !outcome.DeepSleep?
      ensures outcome.DeepSleep? ==>
        outcome == DeepSleep(SleepMask.WakeMask(), WakeAllLow, false)
      ensures presses == old(presses) + (if outcome.DeepSleep? then [] else ConfirmedAll(first, second))
      ensures ledTrace == old(ledTrace) + Flashes(if outcome.DeepSleep? then [] else ConfirmedAll(first, second))
    {
      if !activePeriod {
        outcome := GoToDeepSleep();
        return;
      }
      if Elapsed(now, awakeStart) >= StayAwakeDuration {
        activePeriod := false;
        outcome := GoToDeepSleep();
        return;
      }
      HandleAllPresses(first, second, link);
      outcome := Returned;
    }
  }
}
