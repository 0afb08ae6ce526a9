/** The scan of one repository's events, newest first: stop at the event cap
    or at the first id below `latest`, claim every other event by its id in a
    transaction, fill the claim in or roll it back, count what was scanned and
    what was detected, and return the id of the last event visited. */
module Scanning {
  import opened Wrappers
  import opened Events
  import opened FactStores

  /** The classifier the scan hands each newly claimed record to. The
      scanner uses `FillUp`; the properties of the scan hold for any. */
  type Classifier = (Fact, Event) -> Outcome

  /** A classifier that never changes the event id of the record it fills. */
  ghost predicate KeepsClaimId(classify: Classifier) {
    forall claim: Fact, e: Event :: classify(claim, e).Derive? ==>
      classify(claim, e).fact.eventId == claim.eventId
  }

  /** What one transaction did with one event. */
  datatype Step = Skipped | Committed | RolledBack | Faulted
  datatype TxnResult = TxnResult(facts: seq<Fact>, step: Step)

  /** One event's transaction on the store `facts`: insert-if-absent by the
      event's id, then commit the classifier's fact or roll the claim back. */
  function Txn(facts: seq<Fact>, e: Event, classify: Classifier): (r: TxnResult)
    ensures r.step == Skipped <==> HasEvent(facts, e.id)
    ensures r.step == Committed <==> !HasEvent(facts, e.id) && classify(Claim(e.id), e).Derive?
    ensures r.step == Faulted <==> !HasEvent(facts, e.id) && classify(Claim(e.id), e).Fault?
    ensures r.step == Committed ==> r.facts == facts + [classify(Claim(e.id), e).fact]
    ensures r.step != Committed ==> r.facts == facts
  {
    if HasEvent(facts, e.id) then TxnResult(facts, Skipped)
    else
      match classify(Claim(e.id), e)
      case Derive(f) => TxnResult(facts + [f], Committed)
      case Discard => TxnResult(facts, RolledBack)
      case Fault => TxnResult(facts, Faulted)
  }

  /** A transaction keeps at most one fact per event id, and leaves a fact
      with the event's id exactly when it did not roll back or fail. */
  lemma TxnKeepsClaimsUnique(facts: seq<Fact>, e: Event, classify: Classifier)
    requires KeepsClaimId(classify)
    ensures ClaimsUnique(facts) ==> ClaimsUnique(Txn(facts, e, classify).facts)
    ensures var step := Txn(facts, e, classify).step;
      HasEvent(Txn(facts, e, classify).facts, e.id) <==> step != RolledBack && step != Faulted
  {
  }

  /** The scanner's classifier keeps the claimed id. */
  lemma FillUpKeepsClaimId()
    ensures KeepsClaimId(FillUp)
  {
  }

  /** The scan's state between two events: the store, the id of the last
      event visited, how many events were visited and how many detected.
      The next event to visit is `events[total]`. */
  datatype Scan = Scan(facts: seq<Fact>, last: Option<int>, total: nat, detected: nat)

  /** A scan ends normally or by an error escaping a transaction. */
  datatype ScanEnd = Finished(scan: Scan) | Aborted(scan: Scan)

  /** What visiting one event does: stop the scan there, raise out of it,
      or go on to the next event. */
  datatype Visit = Stop(scan: Scan) | Raise(scan: Scan) | Next(scan: Scan)

  /** Visits event `e`, the next one, once the cap has been checked: count
      it and remember its id, stop if it is below `latest`, and otherwise run
      its transaction. */
  function VisitEvent(s: Scan, e: Event, latest: int, classify: Classifier): (v: Visit)
    ensures v.scan.total == s.total + 1 && v.scan.last == Some(e.id)
    ensures v.Stop? <==> e.id < latest
    ensures v.Raise? <==> e.id >= latest && Txn(s.facts, e, classify).step == Faulted
    ensures !v.Next? ==> v.scan.facts == s.facts && v.scan.detected == s.detected
    ensures v.Next? ==>
      && v.scan.facts == Txn(s.facts, e, classify).facts
      && v.scan.detected == s.detected + (if Txn(s.facts, e, classify).step == Committed then 1 else 0)
  {
    var visited := s.(last := Some(e.id), total := s.total + 1);
    if e.id < latest then Stop(visited)
    else
      var t := Txn(s.facts, e, classify);
      match t.step
      case Faulted => Raise(visited)
      case Committed => Next(visited.(facts := t.facts, detected := s.detected + 1))
      case _ => Next(visited)
  }

  /** The rest of a scan from state `s`: the cap is checked before an event
      is counted, so at most `maxEvents` events are ever visited. */
  function Run(s: Scan, events: seq<Event>, latest: int, maxEvents: int, classify: Classifier): (r: ScanEnd)
    requires s.total <= |events|
    ensures s.total <= r.scan.total <= |events|
    ensures s.total < maxEvents ==> r.scan.total <= maxEvents
    ensures maxEvents <= s.total ==> r == Finished(s)
    ensures r.scan.detected - s.detected == |r.scan.facts| - |s.facts| <= r.scan.total - s.total
    ensures r.scan.total == s.total ==> r.scan.last == s.last
    ensures r.scan.total > s.total ==> r.scan.last == Some(events[r.scan.total - 1].id)
    decreases |events| - s.total
  {
    if s.total == |events| || s.total >= maxEvents then Finished(s)
    else
      match VisitEvent(s, events[s.total], latest, classify)
      case Stop(v) => Finished(v)
      case Raise(v) => Aborted(v)
      case Next(v) => Run(v, events, latest, maxEvents, classify)
  }

  /** One step of a scan that goes on past an event. */
  lemma RunGoesOn(s: Scan, events: seq<Event>, latest: int, maxEvents: int, classify: Classifier)
    requires s.total < |events| && s.total < maxEvents && events[s.total].id >= latest
    requires Txn(s.facts, events[s.total], classify).step != Faulted
    ensures var t := Txn(s.facts, events[s.total], classify);
      var next := Scan(t.facts, Some(events[s.total].id), s.total + 1,
                       s.detected + if t.step == Committed then 1 else 0);
      Run(s, events, latest, maxEvents, classify) == Run(next, events, latest, maxEvents, classify)
  {
  }

  /** The scan of a whole repository with the scanner's classifier. */
  function ScanAll(facts: seq<Fact>, events: seq<Event>, latest: int, maxEvents: int): (r: ScanEnd)
    ensures r.scan.detected <= r.scan.total <= |events|
    ensures r.scan.total <= if maxEvents < 0 then 0 else maxEvents
    ensures |r.scan.facts| == |facts| + r.scan.detected
    ensures r.scan.last == if r.scan.total == 0 then None else Some(events[r.scan.total - 1].id)
  {
    Run(Scan(facts, None, 0, 0), events, latest, maxEvents, FillUp)
  }

  /** One transaction of the loop: claim `e` by its id and, if the claim is
      new, fill it in or roll it back as the classifier decides. */
  method Transact(store: FactStore, e: Event) returns (step: Step)
    requires store.Valid()
    modifies store
    ensures store.Valid()
    ensures TxnResult(store.facts, step) == Txn(old(store.facts), e, FillUp)
  {
    var snapshot := store.facts;
    var claimed := store.IfAbsent(e.id);
    if !claimed {
      return Skipped;
    }
    match FillUp(Claim(e.id), e)
    case Derive(f) =>
      store.Fill(f);
      assert store.facts == snapshot + [f];
      step := Committed;
    case Discard =>
      store.Restore(snapshot);
      step := RolledBack;
    case Fault =>
      store.Restore(snapshot);
      step := Faulted;
  }

  /** The scanner's loop: visits `events` newest first against `store`.
      `raised` says that an error escaped a transaction; the scanner then
      returns nothing and the other results are the counters at that point. */
  method ScanRepository(store: FactStore, events: seq<Event>, latest: int, maxEvents: int)
    returns (last: Option<int>, total: nat, detected: nat, raised: bool)
    requires store.Valid()
    modifies store
    ensures store.Valid()
    ensures var r := ScanAll(old(store.facts), events, latest, maxEvents);
      && store.facts == r.scan.facts
      && last == r.scan.last && total == r.scan.total && detected == r.scan.detected
      && raised == r.Aborted?
  {
    ghost var expected := ScanAll(store.facts, events, latest, maxEvents);
    last, total, detected, raised := None, 0, 0, false;
    while total < |events|
      invariant total <= |events|
      invariant store.Valid()
      invariant Run(Scan(store.facts, last, total, detected), events, latest, maxEvents, FillUp) == expected
      decreases |events| - total
    {
      if total >= maxEvents {
        break;
      }
      ghost var before := Scan(store.facts, last, total, detected);
      var e := events[total];
      total := total + 1;
      last := Some(e.id);
      if e.id < latest {
        break;
      }
      var step := Transact(store, e);
      if step == Faulted {
        raised := true;
        break;
      }
      RunGoesOn(before, events, latest, maxEvents, FillUp);
      if step == Committed {
        detected := detected + 1;
      }
    }
  }
}
