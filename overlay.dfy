/** The "night" overlay of script.js:231-261 as a timer state machine: the
    overlay is shown or hidden, a repeating spawn timer and a one-shot stop
    timer may be pending, and some growing flowers are on screen. The
    browser's timer registry is part of the state (the handles it still
    considers live), so that leaked timers would be visible. */
module Overlay {
  import opened Wrappers

  /** The handles held in an optional timer variable. */
  function Handles(t: Option<nat>): (hs: set<nat>)
    ensures |hs| <= 1
    ensures forall h :: h in hs <==> t == Some(h)
  {
    if t.Some? then {t.value} else {}
  }

  /** The timer part of the overlay invariant: the registry holds exactly
      the handles the program still remembers; the spawn timer and the stop
      timer are pending together; handles are positive (so the truthiness
      tests of script.js:258-259 see them) and below the next fresh
      handle; a hidden overlay has no timers and no flowers. */
  ghost predicate TimersInv(hidden: bool, growInterval: Option<nat>, growTimeout: Option<nat>,
                            liveIntervals: set<nat>, liveTimeouts: set<nat>, nextHandle: nat, flowers: nat)
  {
    && liveIntervals == Handles(growInterval)
    && liveTimeouts == Handles(growTimeout)
    && (growInterval.Some? <==> growTimeout.Some?)
    && 1 <= nextHandle
    && (forall h :: h in liveIntervals + liveTimeouts ==> 1 <= h < nextHandle)
    && (hidden ==> growInterval == None && growTimeout == None && flowers == 0)
  }

  /** Under the invariant at most one spawn timer and at most one stop timer
      are ever live, and a live spawn timer only runs while the overlay is
      shown. The registry conjuncts of TimersInv, with the contract of
      Handles, carry the proof. */
  lemma {:induction false} AtMostOneTimerEach(hidden: bool, growInterval: Option<nat>, growTimeout: Option<nat>,
                                              liveIntervals: set<nat>, liveTimeouts: set<nat>, nextHandle: nat, flowers: nat)
    requires TimersInv(hidden, growInterval, growTimeout, liveIntervals, liveTimeouts, nextHandle, flowers)
    ensures |liveIntervals| <= 1 && |liveTimeouts| <= 1
    ensures liveIntervals != {} ==> !hidden && |liveTimeouts| == 1
  {
  }

  class NightOverlay {
    var hidden: bool
    var growInterval: Option<nat>
    var growTimeout: Option<nat>
    /** The number of growing-flower elements inside the overlay. */
    var flowers: nat
    /** The browser's registry of live repeating timers. */
    var liveIntervals: set<nat>
    /** The browser's registry of live one-shot timers. */
    var liveTimeouts: set<nat>
    /** The handle the browser returns for the next timer. */
    var nextHandle: nat

    ghost predicate Valid()
      reads this
    {
      TimersInv(hidden, growInterval, growTimeout, liveIntervals, liveTimeouts, nextHandle, flowers)
    }

    /** The overlay starts hidden, with no timers and no flowers. */
    constructor ()
      ensures Valid() && hidden && flowers == 0
      ensures growInterval == None && growTimeout == None
    {
      hidden := true;
      growInterval, growTimeout := None, None;
      flowers := 0;
      liveIntervals, liveTimeouts := {}, {};
      nextHandle := 1;
    }

    /** script.js:257-260: cancel the spawn timer and the stop timer, if
        any, and forget their handles. */
    method ClearGrowTimers()
      modifies this`growInterval, this`growTimeout, this`liveIntervals, this`liveTimeouts
      ensures growInterval == None && growTimeout == None
      ensures liveIntervals == old(liveIntervals) - Handles(old(growInterval))
      ensures liveTimeouts == old(liveTimeouts) - Handles(old(growTimeout))
    {
      if growInterval.Some? {
        liveIntervals := liveIntervals - {growInterval.value};
        growInterval := None;
      }
      if growTimeout.Some? {
        liveTimeouts := liveTimeouts - {growTimeout.value};
        growTimeout := None;
      }
    }

    /** A fresh handle from the browser. */
    method FreshHandle() returns (h: nat)
      modifies this`nextHandle
      ensures h == old(nextHandle) && nextHandle == h + 1
    {
      h := nextHandle;
      nextHandle := nextHandle + 1;
    }

    /** script.js:232-246: clear any timers, show the overlay, grow one
        flower, then start the 180 ms spawn timer and the 3000 ms stop
        timer. Whatever the state before, exactly one timer of each kind is
        live afterwards. */
    method OpenNight()
      requires Valid()
      modifies this
      ensures Valid() && !hidden
      ensures flowers == old(flowers) + 1
      ensures growInterval.Some? && growTimeout.Some?
      ensures liveIntervals == {growInterval.value} && liveTimeouts == {growTimeout.value}
      ensures growInterval.value >= old(nextHandle) && growTimeout.value >= old(nextHandle)
    {
      ClearGrowTimers();
      assert liveIntervals == {} && liveTimeouts == {};
      hidden := false;
      flowers := flowers + 1;
      var i := FreshHandle();
      var t := FreshHandle();
      liveIntervals, growInterval := {i}, Some(i);
      liveTimeouts, growTimeout := {t}, Some(t);
    }

    /** script.js:248-255: clear the timers, hide the overlay and remove
        every growing flower. */
    method CloseNightOverlay()
      requires Valid()
      modifies this
      ensures Valid() && hidden && flowers == 0
      ensures growInterval == None && growTimeout == None
      ensures liveIntervals == {} && liveTimeouts == {}
      ensures nextHandle == old(nextHandle)
    {
      ClearGrowTimers();
      hidden := true;
      flowers := 0;
    }

    /** script.js:242: the spawn timer `h` fires and grows one more flower.
        Only a live timer fires. */
    method SpawnTick(h: nat)
      requires Valid() && h in liveIntervals
      modifies this`flowers
      ensures Valid() && flowers == old(flowers) + 1
    {
      flowers := flowers + 1;
    }

    /** script.js:243-245: the stop timer `h` fires and clears both timers;
        the overlay and its flowers stay. */
    method StopTimerFires(h: nat)
      requires Valid() && h in liveTimeouts
      modifies this`growInterval, this`growTimeout, this`liveIntervals, this`liveTimeouts
      ensures Valid()
      ensures growInterval == None && growTimeout == None
      ensures liveIntervals == {} && liveTimeouts == {}
    {
      ClearGrowTimers();
    }

    /** script.js:284-286: a flower's growth animation ends and it removes
        itself. */
    method FlowerAnimationEnds()
      requires Valid() && flowers > 0
      modifies this`flowers
      ensures Valid() && flowers == old(flowers) - 1
    {
      flowers := flowers - 1;
    }

    /** script.js:294-300: the night button opens a hidden overlay and
        closes a shown one. */
    method ToggleNight()
      requires Valid()
      modifies this
      ensures Valid() && hidden == !old(hidden)
      ensures hidden ==> flowers == 0 && liveIntervals == {} && liveTimeouts == {}
      ensures !hidden ==> |liveIntervals| == 1 && |liveTimeouts| == 1 && flowers == 1
    {
      if hidden {
        OpenNight();
      } else {
        CloseNightOverlay();
      }
    }

    /** script.js:309-311: Escape closes a shown overlay and does nothing
        otherwise. */
    method EscapePressed()
      requires Valid()
      modifies this
      ensures Valid() && hidden
      ensures old(hidden) ==> unchanged(this)
    {
      if !hidden {
        CloseNightOverlay();
      }
    }

    /** script.js:305-307: a click inside the overlay closes it only when it
        lands on the backdrop itself, not on a flower. */
    method OverlayClicked(onBackdrop: bool)
      requires Valid()
      modifies this
      ensures Valid()
      ensures onBackdrop ==> hidden && flowers == 0 && liveIntervals == {} && liveTimeouts == {}
      ensures !onBackdrop ==> unchanged(this)
    {
      if onBackdrop {
        CloseNightOverlay();
      }
    }
  }
}
