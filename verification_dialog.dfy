/** The "Verifying..." dialog of the second site: while open, an interval
    advances a progress counter by 4 up to 100, then stops and schedules the
    completion callback. */
module VerificationDialog {

  /** One interval tick on the previous progress: below 100 it adds 4; at
      100 or more it stays at 100 and the interval stops (`stops`), which is
      also when `onComplete` is scheduled. */
  function ProgressStep(prev: int): (r: (int, bool))
    ensures r.1 <==> prev >= 100
    ensures r.1 ==> r.0 == 100
    ensures !r.1 ==> r.0 == prev + 4 && r.0 < 104
  {
    if prev >= 100 then (100, true) else (prev + 4, false)
  }

  /** The progress after `k` ticks from 0, the interval running throughout. */
  function ProgressAfter(k: nat): int
  {
    if k == 0 then 0 else ProgressStep(ProgressAfter(k - 1)).0
  }

  /** The progress goes 0, 4, ..., 100 over the first 25 ticks and stays 100. */
  lemma {:induction false} ProgressValues(k: nat)
    ensures ProgressAfter(k) == if k <= 25 then 4 * k else 100
  {
    if k > 0 {
      ProgressValues(k - 1);
    }
  }

  /** The interval stops on the 26th tick and no earlier. */
  lemma StopsOnTick26(k: nat)
    requires k >= 1
    ensures ProgressStep(ProgressAfter(k - 1)).1 <==> k >= 26
  {
    ProgressValues(k - 1);
  }

  /** The dialog's state. `pendingCompletes` counts the 400 ms `onComplete`
      timeouts scheduled and not yet fired; no cleanup cancels them.
      `completions` counts the calls of `onComplete` made so far. */
  class Dialog {
    var isOpen: bool
    var progress: int
    var intervalRunning: bool
    var pendingCompletes: nat
    var completions: nat

    ghost predicate Valid()
      reads this
    {
      && 0 <= progress <= 100 && progress % 4 == 0
      && (intervalRunning ==> isOpen)
    }

    constructor ()
      ensures Valid()
      ensures !isOpen && progress == 0 && !intervalRunning
      ensures pendingCompletes == 0 && completions == 0
    {
      isOpen := false;
      progress := 0;
      intervalRunning := false;
      pendingCompletes := 0;
      completions := 0;
    }

    /** The effect, run with the current `isOpen`: the cleanup clears the
        previous interval; the progress goes back to 0; an open dialog
        starts a new interval. A call with an unchanged `open` stands for
        the re-run caused by a new `onComplete` identity. A scheduled
        `onComplete` stays scheduled. */
    method SetOpen(open: bool)
      requires Valid()
      modifies this
      ensures Valid()
      ensures isOpen == open && progress == 0
      ensures intervalRunning == open
      ensures pendingCompletes == old(pendingCompletes) && completions == old(completions)
    {
      isOpen := open;
      progress := 0;
      intervalRunning := open;
    }

    /** One interval callback. When the interval stops, one more
        `onComplete` is scheduled. */
    method Tick()
      requires Valid() && intervalRunning
      modifies this
      ensures Valid()
      ensures (progress, !intervalRunning) == ProgressStep(old(progress))
      ensures pendingCompletes == old(pendingCompletes) + (if intervalRunning then 0 else 1)
      ensures isOpen && completions == old(completions)
    {
      var step := ProgressStep(progress);
      progress := step.0;
      if step.1 {
        intervalRunning := false;
        pendingCompletes := pendingCompletes + 1;
      }
    }

    /** A 400 ms timeout fires and calls `onComplete`, whether the dialog
        is still open or not. */
    method CompleteTimerFires()
      requires Valid() && pendingCompletes > 0
      modifies this
      ensures Valid()
      ensures pendingCompletes == old(pendingCompletes) - 1 && completions == old(completions) + 1
      ensures isOpen == old(isOpen) && progress == old(progress) && intervalRunning == old(intervalRunning)
    {
      pendingCompletes := pendingCompletes - 1;
      completions := completions + 1;
    }
  }

  /** An opened dialog left alone schedules `onComplete` after exactly 26
      ticks, with the progress at 100. */
  method RunToCompletion(dialog: Dialog) returns (ticks: nat)
    requires dialog.Valid()
    modifies dialog
    ensures ticks == 26
    ensures dialog.pendingCompletes == old(dialog.pendingCompletes) + 1
    ensures dialog.progress == 100 && dialog.isOpen && !dialog.intervalRunning
    ensures dialog.completions == old(dialog.completions)
  {
    dialog.SetOpen(true);
    ticks := 0;
    while dialog.intervalRunning
      invariant dialog.Valid() && dialog.isOpen
      invariant ticks <= 26
      invariant dialog.progress == ProgressAfter(ticks)
      invariant dialog.completions == old(dialog.completions)
      invariant dialog.intervalRunning ==> ticks <= 25 && dialog.pendingCompletes == old(dialog.pendingCompletes)
      invariant !dialog.intervalRunning ==> ticks == 26 && dialog.pendingCompletes == old(dialog.pendingCompletes) + 1
      decreases 26 - ticks
    {
      ProgressValues(ticks);
      StopsOnTick26(ticks + 1);
      dialog.Tick();
      ticks := ticks + 1;
    }
    ProgressValues(ticks);
  }

  /** Closing the dialog after the interval has stopped and before the
      400 ms timeout does not cancel `onComplete`: it is still called once,
      with the dialog closed and its progress back at 0. */
  method CompletesAfterClose() returns (completions: nat, isOpen: bool, progress: int)
    ensures completions == 1 && !isOpen && progress == 0
  {
    var dialog := new Dialog();
    var ticks := RunToCompletion(dialog);
    dialog.SetOpen(false);
    dialog.CompleteTimerFires();
    completions, isOpen, progress := dialog.completions, dialog.isOpen, dialog.progress;
  }
}
