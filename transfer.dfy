/**
 * The chunked transfer of one route result (`sendRoute` / `sendStepItem`):
 * an overview message, then the step strings one by one, each sent only once
 * the previous send was acknowledged, then one terminal status. A rejected
 * send ends the chain silently. Transport is abstracted as the sequence of
 * ack (true) / fail (false) outcomes of the sends that wait for one.
 */
module Transfer {
  import opened Protocol

  /** What the routing collaborator hands back for one request. */
  datatype RouteResult = RouteResult(
    success: bool,
    distance: int,
    time: int,
    stepList: seq<string>,
    stepIconsString: string,
    stepPositionList: seq<Waypoint>)

  /**
   * Where the chain stands once the given outcomes are used up:
   * still waiting for an acknowledgement, stopped by a rejected send,
   * finished with its terminal status sent, or stopped by the exception the
   * acknowledgement callback throws for a found route without steps.
   */
  datatype Phase = AwaitingAck | Failed | Finished | Crashed

  /** The overview (and the step chain) is sent only for a found route within the step limit. */
  predicate SendsOverview(route: RouteResult)
  {
    route.success && |route.stepList| <= MaxStepCount
  }

  /** A found route without steps: `stepList[0]` is undefined once the overview is acknowledged. */
  predicate Crashes(route: RouteResult)
  {
    SendsOverview(route) && |route.stepList| == 0
  }

  function OverviewOf(route: RouteResult): (m: Message)
  {
    Overview(route.distance, route.time, route.stepIconsString)
  }

  function StatusMessage(code: nat, messageNumber: nat): (m: Message)
  {
    Status(EncodeStatus(code, messageNumber))
  }

  function StepItems(stepList: seq<string>): (items: seq<Message>)
  {
    seq(|stepList|, i requires 0 <= i < |stepList| => StepItem(TruncateStep(stepList[i])))
  }

  /** The messages handed to the transport when every send is acknowledged. */
  function FullTransfer(route: RouteResult, messageNumber: nat): (full: seq<Message>)
    ensures |full| == AcksNeeded(route) + (if Crashes(route) then 0 else 1)
    ensures full[|full| - 1].Status? <==> !Crashes(route)
    ensures forall j :: 0 <= j < |full| - 1 ==> !full[j].Status?
  {
    if SendsOverview(route) then
      if |route.stepList| == 0 then [OverviewOf(route)]
      else [OverviewOf(route)] + StepItems(route.stepList) + [StatusMessage(SuccessCode, messageNumber)]
    else if MaxStepCount < |route.stepList| then [StatusMessage(TooManyStepsCode, messageNumber)]
    else [StatusMessage(RouteNotFoundCode, messageNumber)]
  }

  /** How many sends wait for an acknowledgement before the chain can end. */
  function AcksNeeded(route: RouteResult): (n: nat)
  {
    if SendsOverview(route) then 1 + |route.stepList| else 0
  }

  /** The number of acknowledgements before the first rejected send. */
  function LeadingAcks(acks: seq<bool>): (n: nat)
  {
    if acks == [] || !acks[0] then 0 else 1 + LeadingAcks(acks[1..])
  }

  /** The status code that ends the transfer when nothing goes wrong. */
  function ExpectedCode(route: RouteResult): (code: nat)
  {
    if SendsOverview(route) then SuccessCode
    else if MaxStepCount < |route.stepList| then TooManyStepsCode
    else RouteNotFoundCode
  }

  /** LeadingAcks counts exactly the acknowledged sends before the first failure. */
  lemma {:induction false} LeadingAcksSpec(acks: seq<bool>)
    ensures LeadingAcks(acks) <= |acks|
    ensures forall j :: 0 <= j < LeadingAcks(acks) ==> acks[j]
    ensures LeadingAcks(acks) < |acks| ==> !acks[LeadingAcks(acks)]
  {
    if acks != [] && acks[0] {
      LeadingAcksSpec(acks[1..]);
      forall j | 0 <= j < LeadingAcks(acks) ensures acks[j] {
        if j > 0 {
          assert acks[j] == acks[1..][j - 1];
        }
      }
    }
  }

  /** Any run of acknowledgements is counted. */
  lemma LeadingAcksAtLeast(acks: seq<bool>, k: nat)
    requires k <= |acks|
    requires forall j :: 0 <= j < k ==> acks[j]
    ensures LeadingAcks(acks) >= k
  {
    LeadingAcksSpec(acks);
  }

  /**
   * The step chain for one route. `acks[0]` is the outcome of the overview
   * send and `acks[i + 1]` that of step `i`; the terminal status send waits
   * for nothing (its outcome is only logged).
   */
  method SendRoute(route: RouteResult, messageNumber: nat, acks: seq<bool>)
    returns (outbox: seq<Message>, phase: Phase)
    ensures outbox == FullTransfer(route, messageNumber)[..Min(LeadingAcks(acks) + 1, |FullTransfer(route, messageNumber)|)]
    ensures phase == Finished <==> LeadingAcks(acks) >= AcksNeeded(route) && !Crashes(route)
    ensures phase == Crashed <==> LeadingAcks(acks) >= AcksNeeded(route) && Crashes(route)
    ensures phase == Failed <==> LeadingAcks(acks) < AcksNeeded(route) && LeadingAcks(acks) < |acks|
    ensures phase == AwaitingAck <==> LeadingAcks(acks) < AcksNeeded(route) && LeadingAcks(acks) == |acks|
  {
    LeadingAcksSpec(acks);
    ghost var full := FullTransfer(route, messageNumber);
    if route.success && MaxStepCount >= |route.stepList| {
      outbox := [OverviewOf(route)];
      if |acks| == 0 {
        phase := AwaitingAck;
        return;
      }
      if !acks[0] {
        phase := Failed;
        return;
      }
      if |route.stepList| == 0 {
        // sendStepItem reads stepList[0].substr, which throws
        phase := Crashed;
        return;
      }
      var index := 0;
      outbox := outbox + [StepItem(TruncateStep(route.stepList[index]))];
      while index + 1 < |acks| && acks[index + 1] && index + 1 < |route.stepList| && index + 1 < MaxStepCount
        invariant 0 <= index < |route.stepList|
        invariant index + 1 <= |acks|
        invariant forall j :: 0 <= j <= index ==> acks[j]
        invariant outbox == full[..index + 2]
        decreases |route.stepList| - index
      {
        index := index + 1;
        outbox := outbox + [StepItem(TruncateStep(route.stepList[index]))];
      }
      if index + 1 == |acks| {
        phase := AwaitingAck;
      } else if !acks[index + 1] {
        phase := Failed;
      } else {
        LeadingAcksAtLeast(acks, index + 2);
        outbox := outbox + [StatusMessage(SuccessCode, messageNumber)];
        phase := Finished;
      }
    } else if MaxStepCount < |route.stepList| {
      outbox := [StatusMessage(TooManyStepsCode, messageNumber)];
      phase := Finished;
    } else {
      outbox := [StatusMessage(RouteNotFoundCode, messageNumber)];
      phase := Finished;
    }
  }
  /**
   * Branch selection of `sendRoute`: the overview goes out first exactly for a
   * found route within the step limit; too many steps gives status 2 alone,
   * found or not; anything else gives status 1 alone.
   */
  lemma BranchSelection(route: RouteResult, messageNumber: nat)
    ensures |FullTransfer(route, messageNumber)| >= 1
    ensures FullTransfer(route, messageNumber)[0].Overview? <==> SendsOverview(route)
    ensures MaxStepCount < |route.stepList| ==>
              FullTransfer(route, messageNumber) == [StatusMessage(TooManyStepsCode, messageNumber)]
    ensures !route.success && |route.stepList| <= MaxStepCount ==>
              FullTransfer(route, messageNumber) == [StatusMessage(RouteNotFoundCode, messageNumber)]
  {
  }

  /**
   * A complete transfer of a found route: the overview, every step in index
   * order cut to the per-item limit, then one status with code 0 and the
   * request's number, and no status before it.
   */
  lemma CompleteTransferOrder(route: RouteResult, messageNumber: nat)
    requires SendsOverview(route) && |route.stepList| >= 1
    ensures |FullTransfer(route, messageNumber)| == |route.stepList| + 2
    ensures FullTransfer(route, messageNumber)[0] == OverviewOf(route)
    ensures forall i :: 0 <= i < |route.stepList| ==>
              FullTransfer(route, messageNumber)[i + 1] == StepItem(TruncateStep(route.stepList[i]))
    ensures forall i :: 0 <= i < |route.stepList| ==>
              var text := FullTransfer(route, messageNumber)[i + 1].text;
              text <= route.stepList[i] && |text| <= MaxStepStringLength
    ensures FullTransfer(route, messageNumber)[|route.stepList| + 1] == StatusMessage(SuccessCode, messageNumber)
    ensures forall j :: 0 <= j <= |route.stepList| ==> !FullTransfer(route, messageNumber)[j].Status?
  {
    var full := FullTransfer(route, messageNumber);
    forall i | 0 <= i < |route.stepList|
      ensures full[i + 1] == StepItem(TruncateStep(route.stepList[i]))
    {
      assert full[i + 1] == StepItems(route.stepList)[i];
    }
  }

  /**
   * Unless the chain crashes, a transfer ends in exactly one status message,
   * its last, and the watch decodes it to the expected code and the request's
   * number.
   */
  lemma {:induction false} TerminalStatus(route: RouteResult, messageNumber: nat)
    requires !Crashes(route)
    ensures var full := FullTransfer(route, messageNumber);
            full[|full| - 1].Status? &&
            DecodeStatus(full[|full| - 1].value) == (ExpectedCode(route), messageNumber)
    ensures var full := FullTransfer(route, messageNumber);
            forall j :: 0 <= j < |full| - 1 ==> !full[j].Status?
  {
    StatusRoundTrip(ExpectedCode(route), messageNumber);
    if SendsOverview(route) {
      CompleteTransferOrder(route, messageNumber);
    }
  }

  /** When every send that waits for one is acknowledged, everything is sent. */
  lemma AllAckedSendsEverything(route: RouteResult, messageNumber: nat, acks: seq<bool>)
    requires AcksNeeded(route) <= |acks|
    requires forall j :: 0 <= j < AcksNeeded(route) ==> acks[j]
    ensures var full := FullTransfer(route, messageNumber);
            full[..Min(LeadingAcks(acks) + 1, |full|)] == full
  {
    LeadingAcksAtLeast(acks, AcksNeeded(route));
  }

  /**
   * A rejected send leaves the watch without any status: what was sent is a
   * strict prefix of the full transfer (unless the chain would crash anyway)
   * and contains no status message.
   */
  lemma FailedTransferIsSilent(route: RouteResult, messageNumber: nat, acks: seq<bool>)
    requires LeadingAcks(acks) < AcksNeeded(route)
    ensures var full := FullTransfer(route, messageNumber);
            var sent := full[..Min(LeadingAcks(acks) + 1, |full|)];
            (forall m :: m in sent ==> !m.Status?) &&
            (!Crashes(route) ==> |sent| < |full|)
  {
    var full := FullTransfer(route, messageNumber);
    var sent := full[..Min(LeadingAcks(acks) + 1, |full|)];
    if !Crashes(route) {
      CompleteTransferOrder(route, messageNumber);
      forall m | m in sent ensures !m.Status? {
        var j :| 0 <= j < |sent| && sent[j] == m;
        assert full[j] == m;
      }
    }
  }

  /** The scenario of a found three-step route: overview, three steps, status 0. */
  lemma ThreeStepScenario(distance: int, time: int, icons: string, a: string, b: string, c: string,
                          positions: seq<Waypoint>, messageNumber: nat)
    requires |a| <= MaxStepStringLength && |b| <= MaxStepStringLength && |c| <= MaxStepStringLength
    ensures FullTransfer(RouteResult(true, distance, time, [a, b, c], icons, positions), messageNumber)
            == [Overview(distance, time, icons), StepItem(a), StepItem(b), StepItem(c), Status(messageNumber * MessagePadding)]
  {
    var route := RouteResult(true, distance, time, [a, b, c], icons, positions);
    CompleteTransferOrder(route, messageNumber);
  }
}
