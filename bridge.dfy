/**
 * The phone side as one object: the request counter and the single
 * `routeData` slot, driven by the two events of a request: the SEARCH app
 * message arriving, and the route lookup completing.
 */
module App {
  import opened Wrappers
  import opened Protocol
  import opened Transfer
  import opened Intake
  import opened Tracker

  /** An accepted search: its number, its one-character route type and the resolved address. */
  datatype Request = Request(messageNumber: nat, routeType: string, address: string)

  /** Live tracking follows bike ("1") and walk ("3") routes only. */
  predicate IsTrackable(routeType: string)
  {
    routeType == "1" || routeType == "3"
  }

  class Bridge {
    var currentMessageNumber: nat
    var routeData: RouteData
    /** The request numbers handed out so far, in order. */
    ghost var issued: seq<nat>

    ghost predicate Valid()
      reads this, routeData
    {
      routeData.Valid() &&
      |issued| == currentMessageNumber &&
      forall i :: 0 <= i < |issued| ==> issued[i] == i
    }

    constructor ()
      ensures Valid() && fresh(routeData)
      ensures currentMessageNumber == 0 && issued == []
      ensures routeData.watchId == None && routeData.liveWatches == {}
    {
      currentMessageNumber := 0;
      routeData := new RouteData();
      issued := [];
    }

    /**
     * The `appmessage` handler. A present, non-empty SEARCH field takes the
     * next request number, is split into type and address, has its address
     * resolved through the named addresses, and stops live tracking.
     * Anything else is ignored.
     */
    method OnAppMessage(search: Option<string>, named: seq<NamedAddress>, lower: CaseFold)
      returns (request: Option<Request>)
      requires Valid()
      modifies this, routeData`liveWatches
      ensures Valid() && routeData == old(routeData)
      ensures request.Some? <==> search.Some? && search.value != []
      ensures request.Some? ==>
                request.value.messageNumber == old(currentMessageNumber) &&
                currentMessageNumber == old(currentMessageNumber) + 1 &&
                issued == old(issued) + [request.value.messageNumber] &&
                request.value.routeType == ParseSearch(search.value).routeType &&
                request.value.address == Substituted(named, ParseSearch(search.value).address, lower) &&
                routeData.liveWatches == match routeData.watchId
                                         case Some(h) => old(routeData.liveWatches) - {h}
                                         case None => old(routeData.liveWatches)
      ensures request.None? ==>
                currentMessageNumber == old(currentMessageNumber) && issued == old(issued) &&
                routeData.liveWatches == old(routeData.liveWatches)
    {
      request := None;
      if search.Some? && search.value != [] {
        var messageNumber := currentMessageNumber;
        currentMessageNumber := currentMessageNumber + 1;
        issued := issued + [messageNumber];
        var parsed := ParseSearch(search.value);
        var address := ResolveNamedAddress(named, parsed.address, lower);
        request := Some(Request(messageNumber, parsed.routeType, address));
        routeData.Stop();
      }
    }

    /**
     * The lookup's completion callback: transfer the route, then start live
     * tracking for a found route of a trackable type, whatever became of the
     * transfer.
     */
    method OnRouteLoaded(request: Request, route: RouteResult, acks: seq<bool>, handle: int)
      returns (outbox: seq<Message>, phase: Phase)
      requires Valid()
      requires handle !in routeData.liveWatches
      modifies routeData
      ensures Valid()
      ensures outbox == FullTransfer(route, request.messageNumber)
                          [..Min(LeadingAcks(acks) + 1, |FullTransfer(route, request.messageNumber)|)]
      ensures phase == Finished <==> LeadingAcks(acks) >= AcksNeeded(route) && !Crashes(route)
      ensures phase == Crashed <==> LeadingAcks(acks) >= AcksNeeded(route) && Crashes(route)
      ensures phase == Failed <==> LeadingAcks(acks) < AcksNeeded(route) && LeadingAcks(acks) < |acks|
      ensures phase == AwaitingAck <==> LeadingAcks(acks) < AcksNeeded(route) && LeadingAcks(acks) == |acks|
      ensures route.success && IsTrackable(request.routeType) ==>
                routeData.stepPositionList == route.stepPositionList && routeData.currentStep == 0 &&
                routeData.watchId == Some(handle) &&
                routeData.liveWatches == old(routeData.liveWatches) + {handle} &&
                routeData.emitted == []
      ensures !(route.success && IsTrackable(request.routeType)) ==>
                unchanged(routeData)
    {
      outbox, phase := SendRoute(route, request.messageNumber, acks);
      if route.success && IsTrackable(request.routeType) {
        routeData.Start(route.stepPositionList, handle);
      }
    }
  }

  /** Request numbers are handed out as 0, 1, 2, ...: strictly increasing, one per accepted search. */
  lemma IssuedNumbersIncrease(bridge: Bridge)
    requires bridge.Valid()
    ensures forall i, j :: 0 <= i < j < |bridge.issued| ==> bridge.issued[i] < bridge.issued[j]
    ensures forall i :: 0 <= i < |bridge.issued| ==> bridge.issued[i] < bridge.currentMessageNumber
  {
  }

  /**
   * Two searches in a row get consecutive numbers and their own route types;
   * an empty SEARCH field after them takes no number.
   */
  method TwoSearches(bridge: Bridge, named: seq<NamedAddress>, lower: CaseFold)
    returns (first: Option<Request>, second: Option<Request>, ignored: Option<Request>)
    requires bridge.Valid()
    modifies bridge, bridge.routeData`liveWatches
    ensures bridge.Valid()
    ensures first == Some(Request(old(bridge.currentMessageNumber), "0", Substituted(named, "Brockhofweg 9", lower)))
    ensures second.Some? && second.value.messageNumber == old(bridge.currentMessageNumber) + 1
    ensures second.value.routeType == "2"
    ensures ignored == None && bridge.currentMessageNumber == old(bridge.currentMessageNumber) + 2
  {
    first := bridge.OnAppMessage(Some("0Brockhofweg 9"), named, lower);
    second := bridge.OnAppMessage(Some("2UnknownPlace"), named, lower);
    ignored := bridge.OnAppMessage(Some(""), named, lower);
    ParseSearchExample();
    assert "2UnknownPlace"[..1] == "2";
  }
}
