/** Links that lose and duplicate what they carry, and the steps of a system with two of them. */
module Links {

  /** One step of a system of a queue, a receiver and the two links between them: the application
      sends a command, the queue is looked at, or stopped, a frame arrives, or a link misbehaves. */
  datatype Step<C> =
    | Send(cmd: C)
    | Check(now: nat, ok: bool)
    | StopQueue
    | DataArrives
    | AckArrives
    | LoseData(i: nat)
    | LoseAck(i: nat)
    | DuplicateData(i: nat)
    | DuplicateAck(i: nat)

  /** Steps of the run that need no new command: the timer fires and the transport takes the
      frame, or a frame arrives. */
  predicate Progress<C>(step: Step<C>) {
    (step.Check? && step.ok) || step.DataArrives? || step.AckArrives?
  }

  /** A step at which no link duplicates what it carries. */
  predicate Unduplicated<C>(step: Step<C>) {
    !step.DuplicateData? && !step.DuplicateAck?
  }

  /** A step at which nothing is duplicated, lost or refused, and the queue goes on. */
  predicate Faithful<C>(step: Step<C>) {
    Unduplicated(step) && !step.LoseData? && !step.LoseAck? && !step.StopQueue? && (step.Check? ==> step.ok)
  }

  /** The times of the looks never go back, and are not before `from`. */
  predicate Clock<C>(steps: seq<Step<C>>, from: nat)
    decreases |steps|
  {
    steps == [] ||
    if steps[0].Check? then from <= steps[0].now && Clock(steps[1..], steps[0].now) else Clock(steps[1..], from)
  }

  /** Each time is at least `gap` after the one before it. */
  predicate Spaced(times: seq<nat>, gap: int) {
    forall i :: 0 <= i < |times| - 1 ==> times[i + 1] >= times[i] + gap
  }

  /** Times with a gap between them are few: the gaps add up. */
  lemma {:induction false} SpacedFew(times: seq<nat>, gap: int)
    requires Spaced(times, gap) && times != []
    ensures times[|times| - 1] - times[0] >= (|times| - 1) * gap
  {
    if |times| > 1 {
      SpacedFew(times[1..], gap);
      assert (|times| - 1) * gap == (|times| - 2) * gap + gap;
    }
  }

  /** A link loses the frame at place `i`. */
  function Lose<T>(link: seq<T>, i: nat): seq<T>
    requires i < |link|
  {
    link[..i] + link[i + 1..]
  }

  /** A link duplicates the frame at place `i`. */
  function Duplicate<T>(link: seq<T>, i: nat): seq<T>
    requires i < |link|
  {
    link[..i + 1] + link[i..]
  }
}
