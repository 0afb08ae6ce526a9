/** Concrete scans: the two event scenarios of the scanner's tests, and the
    value the scan returns when it stops on an old event. */
module Scenarios {
  import opened Wrappers
  import opened Events
  import opened FactStores
  import opened Scanning
  import opened ScanProperties

  const NoPayload := Payload(None, None, None, None, None, None, None)

  /** An event whose type the classifier does not dispatch on. */
  function WatchEvent(id: int, t: Time): Event {
    Event(id, OtherType("WatchEvent"), t, 42, None, NoPayload)
  }

  /** A tag created in repository 42 by user 42 is recorded as a
      `tag-was-created` fact naming the user and the tag. */
  lemma TagCreationIsRecorded(t: Time, latest: int, maxEvents: int)
    requires latest <= 42 && maxEvents >= 1
    ensures var e := Event(42, CreateEvent, t, 42, Some(42), NoPayload.(refType := Some(Tag), refName := Some("foo")));
      var r := ScanAll([], [e], latest, maxEvents);
      && r.Finished?
      && r.scan.total == 1 && r.scan.detected == 1 && r.scan.last == Some(42)
      && |r.scan.facts| == 1
      && r.scan.facts[0].eventId == Some(42)
      && r.scan.facts[0].what == Some("tag-was-created")
      && r.scan.facts[0].who == Some(42)
      && r.scan.facts[0].tag == Some("foo")
  {
    var e := Event(42, CreateEvent, t, 42, Some(42), NoPayload.(refType := Some(Tag), refName := Some("foo")));
    var f := FillUp(Claim(42), e).fact;
    assert !HasEvent([], 42);
    var done := Scan([f], Some(42), 1, 1);
    assert VisitEvent(Scan([], None, 0, 0), e, latest, FillUp) == Next(done);
    assert Run(done, [e], latest, maxEvents, FillUp) == Finished(done);
  }

  /** A watch event is visited but leaves the store as it was. */
  lemma WatchEventLeavesNoFact(facts: seq<Fact>, t: Time, latest: int, maxEvents: int)
    requires latest <= 42 && maxEvents >= 1
    ensures var r := ScanAll(facts, [WatchEvent(42, t)], latest, maxEvents);
      && r.Finished?
      && r.scan.facts == facts
      && r.scan.total == 1 && r.scan.detected == 0 && r.scan.last == Some(42)
  {
    VisitsDiscarded(facts, [WatchEvent(42, t)], latest, maxEvents, FillUp, 0);
  }

  /** With `latest` at 100, three newer watch events are all visited and
      discarded, and the scan returns the id of the last one, 101, not the
      highest one, 103. */
  lemma ReturnsLastVisitedId(facts: seq<Fact>, t: Time)
    ensures var r := ScanAll(facts, [WatchEvent(103, t), WatchEvent(102, t), WatchEvent(101, t)], 100, 10);
      && r.Finished?
      && r.scan.facts == facts
      && r.scan.total == 3 && r.scan.detected == 0 && r.scan.last == Some(101)
  {
    VisitsDiscarded(facts, [WatchEvent(103, t), WatchEvent(102, t), WatchEvent(101, t)], 100, 10, FillUp, 0);
  }

  /** The event that stops the scan is counted and its id, below `latest`,
      is returned. */
  lemma ReturnsIdBelowLatest(facts: seq<Fact>, t: Time)
    ensures var r := ScanAll(facts, [WatchEvent(103, t), WatchEvent(99, t), WatchEvent(98, t)], 100, 10);
      && r.Finished?
      && r.scan.facts == facts
      && r.scan.total == 2 && r.scan.last == Some(99)
  {
    var events := [WatchEvent(103, t), WatchEvent(99, t), WatchEvent(98, t)];
    var s1 := Scan(facts, Some(103), 1, 0);
    assert VisitEvent(Scan(facts, None, 0, 0), events[0], 100, FillUp) == Next(s1);
    assert Run(Scan(facts, None, 0, 0), events, 100, 10, FillUp) == Run(s1, events, 100, 10, FillUp);
    assert VisitEvent(s1, events[1], 100, FillUp) == Stop(Scan(facts, Some(99), 2, 0));
  }

  /** The cap is checked before anything else: with a cap of one, only the
      newest event is visited. */
  lemma CapStopsBeforeCounting(facts: seq<Fact>, t: Time)
    ensures var r := ScanAll(facts, [WatchEvent(103, t), WatchEvent(99, t)], 100, 1);
      r.Finished? && r.scan.total == 1 && r.scan.last == Some(103)
  {
  }
}
