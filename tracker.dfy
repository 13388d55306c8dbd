/**
 * Live step tracking (`routeData`, `startCurrentStepUpdates`, the position
 * callback, `stopCurrentStepUpdates`, `sendCurrentStep`). Position samples and
 * the step matcher are inputs; a watch subscription is an integer handle.
 */
module Tracker {
  import opened Wrappers
  import opened Protocol

  datatype Sample = Sample(latitude: int, longitude: int, accuracy: int)

  /**
   * The external position matcher: the route's waypoints, a sample and the
   * current step give a step index, or None when it throws.
   */
  type StepMatcher = (seq<Waypoint>, Sample, int) -> Option<int>

  /** The current step after one sample: it moves only to a strictly greater index. */
  function NextStep(current: int, matched: Option<int>): (next: int)
    ensures next >= current
    ensures next > current <==> matched.Some? && matched.value > current
    ensures next != current ==> matched == Some(next)
  {
    match matched
    case Some(step) => if step > current then step else current
    case None => current
  }

  /**
   * The CURRENT messages handed to the transport for one update: one attempt,
   * and when `shouldRetry` is set and the attempt is rejected, one more.
   * `outcomes` are the outcomes of these attempts in order.
   */
  function SendCurrentStep(index: int, shouldRetry: bool, outcomes: seq<bool>): (attempts: seq<Message>)
    ensures 1 <= |attempts| <= (if shouldRetry then 2 else 1)
    ensures forall m :: m in attempts ==> m == Current(index)
    ensures |attempts| == 2 <==> shouldRetry && outcomes != [] && !outcomes[0]
    decreases shouldRetry
  {
    if shouldRetry && outcomes != [] && !outcomes[0] then
      [Current(index)] + SendCurrentStep(index, false, outcomes[1..])
    else
      [Current(index)]
  }

  predicate StrictlyIncreasing(s: seq<int>)
  {
    forall i, j :: 0 <= i < j < |s| ==> s[i] < s[j]
  }

  /** The `routeData` record, together with the watches the position service keeps alive. */
  class RouteData {
    var stepPositionList: seq<Waypoint>
    var currentStep: int
    /** The handle of the last watch started; `clearWatch` never resets it. */
    var watchId: Option<int>
    /** Watches the position service still delivers samples to. */
    var liveWatches: set<int>
    /** The step indices sent as CURRENT updates since the last start. */
    ghost var emitted: seq<int>

    ghost predicate Valid()
      reads this
    {
      0 <= currentStep && StrictlyIncreasing(emitted) &&
      forall i :: 0 <= i < |emitted| ==> 0 < emitted[i] <= currentStep
    }

    constructor ()
      ensures Valid()
      ensures stepPositionList == [] && currentStep == 0 && watchId == None
      ensures liveWatches == {} && emitted == []
    {
      stepPositionList := [];
      currentStep := 0;
      watchId := None;
      liveWatches := {};
      emitted := [];
    }

    /**
     * `startCurrentStepUpdates`: store the waypoints, reset the step, open a
     * watch. The position service hands out a new handle for every watch.
     */
    method Start(positions: seq<Waypoint>, handle: int)
      requires handle !in liveWatches
      modifies this
      ensures Valid()
      ensures stepPositionList == positions && currentStep == 0
      ensures watchId == Some(handle) && liveWatches == old(liveWatches) + {handle}
      ensures emitted == []
    {
      stepPositionList := positions;
      currentStep := 0;
      watchId := Some(handle);
      liveWatches := liveWatches + {handle};
      emitted := [];
    }

    /** `stopCurrentStepUpdates`: close the watch the handle names; nothing else changes. */
    method Stop()
      requires Valid()
      modifies this`liveWatches
      ensures Valid()
      ensures liveWatches == match watchId
                             case Some(h) => old(liveWatches) - {h}
                             case None => old(liveWatches)
    {
      match watchId
      case Some(h) => liveWatches := liveWatches - {h};
      case None =>
    }

    /**
     * The position callback: ask the matcher, and only on strictly forward
     * progress send a CURRENT update (with one retry) and advance the step.
     * A sample the matcher fails on changes nothing. Samples arrive only
     * while some watch is open.
     */
    method OnPosition(sample: Sample, matcher: StepMatcher, outcomes: seq<bool>)
      returns (sent: seq<Message>)
      requires Valid() && liveWatches != {}
      modifies this`currentStep, this`emitted
      ensures Valid()
      ensures currentStep == NextStep(old(currentStep), matcher(stepPositionList, sample, old(currentStep)))
      ensures currentStep > old(currentStep) ==>
                sent == SendCurrentStep(currentStep, true, outcomes) && emitted == old(emitted) + [currentStep]
      ensures currentStep == old(currentStep) ==> sent == [] && emitted == old(emitted)
    {
      var matched := matcher(stepPositionList, sample, currentStep);
      sent := [];
      match matched
      case Some(newStep) =>
        if newStep > currentStep {
          sent := SendCurrentStep(newStep, true, outcomes);
          currentStep := newStep;
          emitted := emitted + [newStep];
        }
      case None =>
    }
  }

  /** A stopped single watch leaves no watch alive, and starting after that leaves exactly one. */
  method RestartScenario(data: RouteData, positions: seq<Waypoint>, handle: int)
    requires data.Valid() && data.watchId.Some? && data.liveWatches == {data.watchId.value}
    modifies data
    ensures data.Valid() && data.liveWatches == {handle} && data.watchId == Some(handle) && data.currentStep == 0
  {
    data.Stop();
    data.Start(positions, handle);
  }
}
