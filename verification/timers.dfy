/**
 The timers (chip8/base.py, `update_timers`), ticked once per pass of `run`.
 Each timer counts down to 0 and stays there; the sound is played on the tick
 that brings the sound timer from 1 to 0. A negative timer, which only a
 register holding a negative difference can load, is never touched.
 */
module Timers {
  import opened State
  import opened Interpreter

  /** `n` calls of `update_timers`, and how many of them call `play_sound`. */
  function Ticks(m: Machine, n: nat): (Machine, nat)
  {
    if n == 0 then (m, 0)
    else
      var (m1, beeps) := Ticks(m, n - 1);
      var (m2, beep) := Tick(m1);
      (m2, beeps + if beep then 1 else 0)
  }

  /** A timer started at `t` after `n` ticks. */
  function CountDown(t: int, n: nat): int
  {
    if t <= 0 then t else if t <= n then 0 else t - n
  }

  /** After `n` ticks both timers have counted down by `n`, stopping at 0,
      nothing else has changed, and the sound was played once if the sound
      timer ran out within the `n` ticks and never otherwise. */
  lemma {:induction false} TicksCountDown(m: Machine, n: nat)
    ensures Ticks(m, n).0 == m.(delay := CountDown(m.delay, n), sound := CountDown(m.sound, n))
    ensures Ticks(m, n).1 == if 1 <= m.sound <= n then 1 else 0
    ensures m.delay >= 0 ==> Ticks(m, n).0.delay >= 0
    ensures m.sound >= 0 ==> Ticks(m, n).0.sound >= 0
  {
    if n > 0 {
      TicksCountDown(m, n - 1);
    }
  }

  /** A sound timer loaded with `s > 0` sounds after exactly `s` ticks. */
  lemma SoundAfter(m: Machine)
    requires m.sound > 0
    ensures Ticks(m, m.sound - 1).1 == 0
    ensures Ticks(m, m.sound).1 == 1
    ensures Ticks(m, m.sound).0.sound == 0
  {
    TicksCountDown(m, m.sound - 1);
    TicksCountDown(m, m.sound);
  }

  /** One pass of the run loop: the instruction runs, the redraw clears the
      `drawing` flag, and both timers count down by one tick, stopping at 0.
      The beep sounds exactly when the sound timer ran out on this tick. */
  lemma CycleTicks(m: Machine, keys: seq<int>, rnd: int)
    requires Step(m, keys, rnd).Ok?
    ensures var s := Step(m, keys, rnd).value;
      && Cycle(m, keys, rnd).Ok?
      && Cycle(m, keys, rnd).value.0
         == s.(drawing := false, delay := CountDown(s.delay, 1), sound := CountDown(s.sound, 1))
      && (Cycle(m, keys, rnd).value.1 <==> s.sound == 1)
  {
    var s := Step(m, keys, rnd).value;
    TicksCountDown(s.(drawing := false), 1);
  }
}
