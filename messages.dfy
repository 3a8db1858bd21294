/** The occasional-message rule of script.js:117-156: which move counts are
    "interesting", the chance of a message, and how the per-game tally of
    shown messages and evaluated move counts evolves. */
module Messages {
  const MESSAGE_POOL: seq<string> := [
    "Demasiados intentos gusano perdedor",
    "levantate y sigue adelante",
    "Fracasar no es una opción",
    "¡Victoria! Lo lograste, felicidades",
    "MMm ya vas en 5 movimientos, ya hubieras terminado",
    "Uy, vas por buen camino... ¿lo harás en menos?",
    "Ey, eso estuvo cerca, ¡anímate!",
    "Casi, casi... sigue así",
    "¡Qué habilidad! o ¿pura suerte?",
    "No está mal, pero podrías hacerlo mejor 😉",
    "Se puso interesante, mantén la concentración",
    "Ese movimiento fue curioso... 😏",
    "Si sigues así, te quedará fácil"
  ]

  const INTERESTING_THRESHOLDS: seq<int> := [3, 4, 5, 6, 7, 8, 10, 12, 15]

  /** At most this many messages per game. */
  const MAX_ALERTS_PER_GAME: nat := 2

  /** `m` lies within 1 of threshold number `i`. */
  predicate NearThresholdAt(m: int, i: nat)
    requires i < |INTERESTING_THRESHOLDS|
  {
    -1 <= m - INTERESTING_THRESHOLDS[i] <= 1
  }

  /** `m` lies within 1 of some threshold. */
  predicate NearThreshold(m: int) {
    exists i :: 0 <= i < |INTERESTING_THRESHOLDS| && NearThresholdAt(m, i)
  }

  /** The thresholds 3..8, 10, 12 and 15 with their neighbours cover exactly
      the move counts 2 to 16. */
  lemma {:induction false} NearThresholdRange(m: int)
    ensures NearThreshold(m) <==> 2 <= m <= 16
  {
    if 2 <= m <= 16 {
      var i := if m <= 8 then (if m <= 3 then 0 else m - 3)
               else if m <= 11 then 6 else if m <= 13 then 7 else 8;
      assert NearThresholdAt(m, i);
    }
    if NearThreshold(m) {
      var i :| 0 <= i < |INTERESTING_THRESHOLDS| && NearThresholdAt(m, i);
      assert 3 <= INTERESTING_THRESHOLDS[i] <= 15;
    }
  }

  /** script.js:125-131: scan the thresholds and stop at the first one
      within 1 of the move count. */
  method IsInteresting(movesCount: int) returns (interesting: bool)
    ensures interesting <==> NearThreshold(movesCount)
  {
    interesting := false;
    var k := 0;
    while k < |INTERESTING_THRESHOLDS|
      invariant 0 <= k <= |INTERESTING_THRESHOLDS|
      invariant !interesting
      invariant forall i :: 0 <= i < k ==> !NearThresholdAt(movesCount, i)
    {
      var t := INTERESTING_THRESHOLDS[k];
      if -1 <= movesCount - t <= 1 {
        assert NearThresholdAt(movesCount, k);
        interesting := true;
        break;
      }
      k := k + 1;
    }
  }

  /** The chance of a message, in percent, as a table over the move count:
      9 up to 1 move, 23 for 2 to 4, 20 for 5 to 16 and 6 from 17 on. */
  function ChancePercent(movesCount: int): (percent: nat)
  {
    if movesCount <= 1 then 9
    else if movesCount <= 4 then 23
    else if movesCount <= 16 then 20
    else 6
  }

  /** script.js:133-137: 6 percent, or 20 when the count is interesting,
      plus 3 when the count is at most 4. The result agrees with the table. */
  method Chance(movesCount: int) returns (percent: nat)
    ensures percent == ChancePercent(movesCount)
    ensures percent == (if NearThreshold(movesCount) then 20 else 6) + (if movesCount <= 4 then 3 else 0)
  {
    var interesting := IsInteresting(movesCount);
    percent := 6;
    if interesting {
      percent := 20;
    }
    if movesCount <= 4 {
      percent := percent + 3;
    }
    NearThresholdRange(movesCount);
  }

  /** script.js:140: the draw `draw` of `Math.random()` falls below the chance. */
  predicate Fires(movesCount: int, draw: real) {
    draw * 100.0 < ChancePercent(movesCount) as real
  }

  /** One evaluation of the rule for move count `m` takes the tally
      (`a0` messages shown, move counts `s0` evaluated) to (`a1`, `s1`) and
      shows a message or not. */
  ghost predicate RuleStep(a0: nat, s0: set<nat>, m: nat, draw: real, a1: nat, s1: set<nat>, shown: bool) {
    if a0 >= MAX_ALERTS_PER_GAME || m in s0 then
      a1 == a0 && s1 == s0 && !shown
    else
      s1 == s0 + {m} && shown == Fires(m, draw) && a1 == a0 + (if shown then 1 else 0)
  }

  /** The rule keeps the tally bounded: never more than two messages, never
      more messages than evaluated counts; the evaluated set only grows, by
      `m`, which it records unless two messages were already shown; a count
      already evaluated never shows a message again. */
  lemma {:induction false} RuleStepKeepsTally(a0: nat, s0: set<nat>, m: nat, draw: real, a1: nat, s1: set<nat>, shown: bool)
    requires a0 <= MAX_ALERTS_PER_GAME && a0 <= |s0|
    requires RuleStep(a0, s0, m, draw, a1, s1, shown)
    ensures a1 <= MAX_ALERTS_PER_GAME && a1 <= |s1|
    ensures s0 <= s1 <= s0 + {m}
    ensures m in s1 <==> m in s0 || a0 < MAX_ALERTS_PER_GAME
    ensures m in s0 ==> !shown && a1 == a0
    ensures shown ==> a0 < MAX_ALERTS_PER_GAME && m !in s0
  {
    // A recording step adds the new count m to s0, so |s1| == |s0| + 1.
  }
}
