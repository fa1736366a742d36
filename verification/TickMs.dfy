/// When the loop of `tick_ms` that makes up for replayed delays can run into the next event of a
/// macro (src/kanata/mod.rs).

module TickMs {
  import opened Types
  import opened MacroModel
  import opened DynamicMacro

  /// The ticks up to the next event of a replay.
  function Slack(s: Option<Replay>): (n: nat)
  {
    if s.None? || s.value.delayRemaining == 0 then 1 else s.value.delayRemaining
  }

  lemma {:induction false} PlaysKeepSlack(s: Option<Replay>, plays: Plays)
    ensures Slack(PlayAll(s, plays)) == Slack(s)
    ensures s.Some? ==> PlayAll(s, plays).Some?
    decreases |plays|
  {
    if plays != [] {
      PlaysKeepSlack(s, plays[..|plays| - 1]);
    }
  }

  /// The extra ticks never outrun the iterations done and the delay still to come.
  lemma {:induction false} ExtraTicksBounded(s: Option<Replay>, b: DelayBehaviour, env: nat -> Plays, n: nat)
    ensures var (s1, extra) := Catch(s, b, env, n);
            extra <= n + Slack(s1) - 1
    decreases n
  {
    if n > 0 {
      ExtraTicksBounded(s, b, env, n - 1);
      PlaysKeepSlack(Catch(s, b, env, n - 1).0, env(n - 1));
    }
  }

  lemma {:induction false} NoEventWithin(s: Option<Replay>, b: DelayBehaviour, env: nat -> Plays, start: nat, n: nat)
    requires n < Slack(s)
    ensures var (s1, overshot) := Extra(s, b, env, start, n);
            !overshot && Slack(s1) == Slack(s) - n
    decreases n
  {
    if n > 0 {
      NoEventWithin(s, b, env, start, n - 1);
      PlaysKeepSlack(Extra(s, b, env, start, n - 1).0, env(start + n - 1));
    }
  }

  /// The branch that reports broken code is not reached: for fewer than 65536 elapsed
  /// milliseconds, or for a number that its 16-bit truncation makes 65535.
  lemma NeverOvershoots(s: Option<Replay>, b: DelayBehaviour, env: nat -> Plays, ms: nat)
    requires ms < 0x1_0000 || ms % 0x1_0000 == U16_MAX
    ensures !CatchUp(s, b, env, ms).1
  {
    ExtraTicksBounded(s, b, env, ms);
    var (s1, extra) := Catch(s, b, env, ms);
    NoEventWithin(s1, b, env, ms, ExtraIterations(extra, ms));
  }

  /// With constant delays there is nothing to make up for: one tick for each millisecond.
  lemma {:induction false} ConstantNeedsNoExtra(s: Option<Replay>, env: nat -> Plays, ms: nat)
    ensures Catch(s, Constant, env, ms).1 == 0
    ensures CatchUp(s, Constant, env, ms) == (Catch(s, Constant, env, ms).0, false)
    decreases ms
  {
    if ms > 0 {
      ConstantNeedsNoExtra(s, env, ms - 1);
    }
    assert Extra(Catch(s, Constant, env, ms).0, Constant, env, ms, 0) == (Catch(s, Constant, env, ms).0, false);
  }

  function NoPlays(): nat -> Plays
  {
    (i: nat) => []
  }

  /// A macro of presses one tick apart.
  function Steady(n: nat): (items: seq<Item>)
    ensures |items| == n
  {
    seq(n, i => KeyItem(true, 0, 1))
  }

  lemma {:induction false} SteadyCatch(length: nat, n: nat)
    requires n <= length
    ensures var (s, extra) := Catch(Some(Replay({0}, 0, Steady(length))), Recorded, NoPlays(), n);
            && s == Some(Replay({0}, if n == 0 then 0 else 1, Steady(length - n)))
            && extra == if n < U16_MAX then n else U16_MAX
    decreases n
  {
    if n > 0 {
      SteadyCatch(length, n - 1);
      assert Steady(length - n + 1)[1..] == Steady(length - n);
    }
  }

  lemma SteadyOvershoots(ms: nat)
    requires ms >= 0x1_0000 && ms % 0x1_0000 != U16_MAX
    ensures CatchUp(Some(Replay({0}, 0, Steady(ms + 1))), Recorded, NoPlays(), ms).1
  {
    SteadyCatch(ms + 1, ms);
    var (s, extra) := Catch(Some(Replay({0}, 0, Steady(ms + 1))), Recorded, NoPlays(), ms);
    var n := ExtraIterations(extra, ms);
    assert Extra(s, Recorded, NoPlays(), ms, 0) == (s, false);
    assert Extra(s, Recorded, NoPlays(), ms, 1).1;
    OvershotStays(s, Recorded, NoPlays(), ms, 1, n);
  }

  /// Exactly when some replay overshoots.
  lemma OvershootPossibleIff(ms: nat)
    ensures (exists s, b, env :: CatchUp(s, b, env, ms).1) <==> ms >= 0x1_0000 && ms % 0x1_0000 != U16_MAX
  {
    if ms >= 0x1_0000 && ms % 0x1_0000 != U16_MAX {
      SteadyOvershoots(ms);
    } else {
      forall s, b, env ensures !CatchUp(s, b, env, ms).1 {
        NeverOvershoots(s, b, env, ms);
      }
    }
  }
}
