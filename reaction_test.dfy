/** The reaction test of the first site: a three-second countdown, a target
    that turns green after a random delay, and the time from then to the
    click; after the attempts the game succeeds when the average time is
    below 500 ms. */
module ReactionTest {
  import opened Options
  import opened Seqs

  datatype Phase = Ready | Waiting | Click | Result | Complete

  const CountdownStart := 3
  /** The success bound on the average reaction time, in milliseconds. */
  const TimeLimit := 500

  // ---------------------------------------------------------------------
  // Averages
  // ---------------------------------------------------------------------

  predicate Positive(t: int) { t > 0 }

  function Sum(s: seq<int>): int
  {
    if s == [] then 0 else s[0] + Sum(s[1..])
  }

  /** `validAttempts` averages below 500 ms: the positive times are not all
      missing (an empty average is `NaN`, which is not below anything) and
      their sum is below 500 per time. */
  predicate MeanBelow(times: seq<int>)
  {
    var valid := Filter(times, Positive);
    |valid| > 0 && Sum(valid) < TimeLimit * |valid|
  }

  lemma {:induction false} SumAtMost(v: seq<int>, b: int)
    requires forall i :: 0 <= i < |v| ==> v[i] <= b
    ensures Sum(v) <= b * |v|
  {
    if v != [] {
      assert forall i :: 0 <= i < |v[1..]| ==> v[1..][i] == v[i + 1];
      SumAtMost(v[1..], b);
    }
  }

  lemma {:induction false} SumAtLeast(v: seq<int>, b: int)
    requires forall i :: 0 <= i < |v| ==> v[i] >= b
    ensures Sum(v) >= b * |v|
  {
    if v != [] {
      assert forall i :: 0 <= i < |v[1..]| ==> v[1..][i] == v[i + 1];
      SumAtLeast(v[1..], b);
    }
  }

  /** Times all below 500 ms, at least one of them positive, average below
      500 ms. */
  lemma FastTimesSucceed(times: seq<int>)
    requires forall i :: 0 <= i < |times| ==> times[i] < TimeLimit
    requires exists i :: 0 <= i < |times| && times[i] > 0
    ensures MeanBelow(times)
  {
    var valid := Filter(times, Positive);
    FilterMembers(times, Positive);
    var i :| 0 <= i < |times| && times[i] > 0;
    assert times[i] in valid;
    forall k | 0 <= k < |valid|
      ensures valid[k] <= TimeLimit - 1
    {
      assert valid[k] in times;
    }
    SumAtMost(valid, TimeLimit - 1);
  }

  /** Positive times all of at least 500 ms never average below 500 ms. */
  lemma SlowTimesFail(times: seq<int>)
    requires forall i :: 0 <= i < |times| && times[i] > 0 ==> times[i] >= TimeLimit
    ensures !MeanBelow(times)
  {
    var valid := Filter(times, Positive);
    FilterMembers(times, Positive);
    forall k | 0 <= k < |valid|
      ensures valid[k] >= TimeLimit
    {
      assert valid[k] in times;
    }
    SumAtLeast(valid, TimeLimit);
  }

  /** What `handleNextAttempt` reports: the average over the attempts with
      the current reaction time appended. */
  predicate ReportedSuccess(attempts: seq<int>, reactionTime: int)
  {
    MeanBelow(attempts + [reactionTime])
  }

  // ---------------------------------------------------------------------
  // The component state
  // ---------------------------------------------------------------------

  class ReactionTest {
    var gameState: Phase
    var startTime: int
    var reactionTime: int
    var attempts: seq<int>
    var countdown: int

    ghost predicate Valid()
      reads this
    {
      && 0 <= countdown <= CountdownStart
      && (gameState == Ready ==> attempts == [])
      && (gameState == Result && reactionTime > 0 ==>
            |attempts| > 0 && attempts[|attempts| - 1] == reactionTime)
    }

    constructor ()
      ensures Valid()
      ensures gameState == Ready && startTime == 0 && reactionTime == 0
      ensures attempts == [] && countdown == CountdownStart
    {
      gameState := Ready;
      startTime := 0;
      reactionTime := 0;
      attempts := [];
      countdown := CountdownStart;
    }

    /** `startGame`: waiting, the countdown back at three, no attempts. */
    method StartGame()
      requires Valid()
      modifies this
      ensures Valid()
      ensures gameState == Waiting && countdown == CountdownStart && attempts == []
      ensures reactionTime == old(reactionTime) && startTime == old(startTime)
    {
      gameState := Waiting;
      countdown := CountdownStart;
      attempts := [];
    }

    /** The countdown effect's one-second timer: one less. */
    method CountdownTick()
      requires Valid() && gameState == Waiting && countdown > 0
      modifies this
      ensures Valid()
      ensures countdown == old(countdown) - 1
      ensures gameState == Waiting && attempts == old(attempts) && reactionTime == old(reactionTime)
    {
      countdown := countdown - 1;
    }

    /** The countdown effect's delay timer, once the countdown is at zero:
        the target turns green at `now`. */
    method TargetAppears(now: int)
      requires Valid() && gameState == Waiting && countdown == 0
      modifies this
      ensures Valid()
      ensures gameState == Click && startTime == now
      ensures attempts == old(attempts) && reactionTime == old(reactionTime) && countdown == 0
    {
      startTime := now;
      gameState := Click;
    }

    /** `handleEarlyClick`, on the red target shown once the countdown is
        over: the result of a too-early click, with no attempt recorded. */
    method HandleEarlyClick()
      requires Valid() && gameState == Waiting && countdown == 0
      modifies this
      ensures Valid()
      ensures gameState == Result && reactionTime == -1
      ensures attempts == old(attempts) && countdown == old(countdown)
    {
      gameState := Result;
      reactionTime := -1;
    }

    /** `handleClick` at `clickTime`: in the click state the time since the
        target turned green becomes the reaction time and is appended to the
        attempts; in any other state nothing happens. */
    method HandleClick(clickTime: int)
      requires Valid()
      modifies this
      ensures Valid()
      ensures old(gameState) == Click ==>
        && reactionTime == clickTime - old(startTime)
        && attempts == old(attempts) + [clickTime - old(startTime)]
        && gameState == Result && countdown == old(countdown)
      ensures old(gameState) != Click ==> unchanged(this)
    {
      if gameState == Click {
        var time := clickTime - startTime;
        reactionTime := time;
        attempts := attempts + [time];
        gameState := Result;
      }
    }

    /** `handleNextAttempt` as written: with at least four attempts and a
        positive reaction time the game is complete and reports the average
        over the attempts with the reaction time appended once more;
        otherwise back to waiting with the countdown at three. */
    method HandleNextAttempt() returns (outcome: Option<bool>)
      requires Valid()
      modifies this
      ensures Valid()
      ensures outcome.Some? <==> |old(attempts)| >= 4 && old(reactionTime) > 0
      ensures outcome.Some? ==> gameState == Complete && outcome.value == ReportedSuccess(attempts, reactionTime)
      ensures outcome.None? ==> gameState == Waiting && countdown == CountdownStart
      ensures attempts == old(attempts) && reactionTime == old(reactionTime)
    {
      if |attempts| >= 4 && reactionTime > 0 {
        gameState := Complete;
        outcome := Some(MeanBelow(attempts + [reactionTime]));
      } else {
        gameState := Waiting;
        countdown := CountdownStart;
        outcome := None;
      }
    }

    /** `handleNextAttempt` as the game describes itself: five attempts, and
        the average the complete screen shows, over the attempts alone. */
    method HandleNextAttemptOnce() returns (outcome: Option<bool>)
      requires Valid()
      modifies this
      ensures Valid()
      ensures outcome.Some? <==> |old(attempts)| >= 5 && old(reactionTime) > 0
      ensures outcome.Some? ==> gameState == Complete && outcome.value == MeanBelow(attempts)
      ensures outcome.None? ==> gameState == Waiting && countdown == CountdownStart
      ensures attempts == old(attempts) && reactionTime == old(reactionTime)
    {
      if |attempts| >= 5 && reactionTime > 0 {
        gameState := Complete;
        outcome := Some(MeanBelow(attempts));
      } else {
        gameState := Waiting;
        countdown := CountdownStart;
        outcome := None;
      }
    }

    /** `resetGame`: ready again, with no attempts. */
    method ResetGame()
      requires Valid()
      modifies this
      ensures Valid()
      ensures gameState == Ready && attempts == []
      ensures reactionTime == old(reactionTime) && countdown == old(countdown)
    {
      gameState := Ready;
      attempts := [];
    }
  }

  /** On a result screen with a positive time, that time is the last
      attempt, so the reported average counts it twice. */
  lemma ReportedCountsLastTwice(game: ReactionTest)
    requires game.Valid() && game.gameState == Result && game.reactionTime > 0
    ensures ReportedSuccess(game.attempts, game.reactionTime) ==
            MeanBelow(game.attempts + [game.attempts[|game.attempts| - 1]])
  {
  }

  /** A countdown from three, the target at time 0 and a click at `time`. */
  method PlayRound(game: ReactionTest, time: int)
    requires game.Valid() && game.gameState == Waiting && game.countdown == CountdownStart
    modifies game
    ensures game.Valid() && game.gameState == Result
    ensures game.attempts == old(game.attempts) + [time] && game.reactionTime == time
  {
    game.CountdownTick();
    game.CountdownTick();
    game.CountdownTick();
    game.TargetAppears(0);
    game.HandleClick(time);
  }

  /** Four attempts of 400, 400, 400 and 700 ms complete the game, which
      reports failure, while the complete screen averages 475 ms and shows
      success. */
  method FourAttemptsReportFailure() returns (attempts: seq<int>, outcome: Option<bool>)
    ensures attempts == [400, 400, 400, 700]
    ensures outcome == Some(false) && MeanBelow(attempts)
  {
    var game := new ReactionTest();
    game.StartGame();
    PlayRound(game, 400);
    outcome := game.HandleNextAttempt();
    PlayRound(game, 400);
    outcome := game.HandleNextAttempt();
    PlayRound(game, 400);
    outcome := game.HandleNextAttempt();
    PlayRound(game, 700);
    outcome := game.HandleNextAttempt();
    attempts := game.attempts;
    ReportedAndShown();
  }

  /** The two averages of the four attempts above: 520 ms reported, 475 ms
      shown. */
  lemma ReportedAndShown()
    ensures !ReportedSuccess([400, 400, 400, 700], 700)
    ensures MeanBelow([400, 400, 400, 700])
  {
    var shown := [400, 400, 400, 700];
    var reported := [400, 400, 400, 700, 700];
    assert shown + [700] == reported;
    FilterAll(shown, Positive);
    FilterAll(reported, Positive);
    assert reported[1..] == shown[1..] + [700];
    assert Sum(shown[3..]) == 700;
    assert Sum(reported[3..]) == 1400;
    assert Sum(shown) == 1900;
    assert Sum(reported) == 2600;
  }

  /** Under the five-attempt rule the same four attempts continue to a fifth,
      and the outcome is the average the complete screen shows. */
  method FourAttemptsContinue() returns (attempts: seq<int>, outcome: Option<bool>)
    ensures attempts == [400, 400, 400, 700] && outcome == None
  {
    var game := new ReactionTest();
    game.StartGame();
    PlayRound(game, 400);
    outcome := game.HandleNextAttemptOnce();
    PlayRound(game, 400);
    outcome := game.HandleNextAttemptOnce();
    PlayRound(game, 400);
    outcome := game.HandleNextAttemptOnce();
    PlayRound(game, 700);
    outcome := game.HandleNextAttemptOnce();
    attempts := game.attempts;
  }
}
