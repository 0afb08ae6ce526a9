/** What a scan guarantees: where it stops, which facts it adds, that a
    discarded event leaves no trace, and that scanning the same events again
    changes nothing. */
module ScanProperties {
  import opened Wrappers
  import opened Events
  import opened FactStores
  import opened Scanning

  /** A scan only adds facts, and keeps at most one fact per event id. */
  lemma {:induction false} RunExtendsStore(s: Scan, events: seq<Event>, latest: int, maxEvents: int, classify: Classifier)
    requires s.total <= |events|
    ensures s.facts <= Run(s, events, latest, maxEvents, classify).scan.facts
    ensures KeepsClaimId(classify) && ClaimsUnique(s.facts) ==>
      ClaimsUnique(Run(s, events, latest, maxEvents, classify).scan.facts)
    decreases |events| - s.total
  {
    if s.total < |events| && s.total < maxEvents {
      var v := VisitEvent(s, events[s.total], latest, classify);
      if v.Next? {
        if KeepsClaimId(classify) {
          TxnKeepsClaimsUnique(s.facts, events[s.total], classify);
        }
        RunExtendsStore(v.scan, events, latest, maxEvents, classify);
      }
    }
  }

  /** Every event visited before the last one was at or above `latest`. */
  lemma {:induction false} VisitedAreAtOrAboveLatest(s: Scan, events: seq<Event>, latest: int, maxEvents: int, classify: Classifier)
    requires s.total <= |events|
    ensures var r := Run(s, events, latest, maxEvents, classify);
      forall k :: s.total <= k < r.scan.total - 1 ==> events[k].id >= latest
    decreases |events| - s.total
  {
    if s.total < |events| && s.total < maxEvents {
      var v := VisitEvent(s, events[s.total], latest, classify);
      if v.Next? {
        var r := Run(v.scan, events, latest, maxEvents, classify);
        assert Run(s, events, latest, maxEvents, classify) == r;
        VisitedAreAtOrAboveLatest(v.scan, events, latest, maxEvents, classify);
        assert events[s.total].id >= latest;
      }
    }
  }

  /** A scan that ends short of both the cap and the events ended on the
      first id below `latest`, which it counted and returns. */
  lemma {:induction false} StopsBelowLatest(s: Scan, events: seq<Event>, latest: int, maxEvents: int, classify: Classifier)
    requires s.total <= |events|
    ensures var r := Run(s, events, latest, maxEvents, classify);
      r.Finished? && r.scan.total < |events| && r.scan.total < maxEvents ==>
        r.scan.total > s.total && events[r.scan.total - 1].id < latest
    decreases |events| - s.total
  {
    if s.total < |events| && s.total < maxEvents {
      var v := VisitEvent(s, events[s.total], latest, classify);
      if v.Next? {
        StopsBelowLatest(v.scan, events, latest, maxEvents, classify);
      }
    }
  }

  /** An id below `latest` always ends the scan normally, and an error ends
      it only on an event whose fill-up failed. */
  lemma {:induction false} AbortsOnlyOnFault(s: Scan, events: seq<Event>, latest: int, maxEvents: int, classify: Classifier)
    requires s.total <= |events|
    ensures var r := Run(s, events, latest, maxEvents, classify);
      && (r.scan.total > s.total && events[r.scan.total - 1].id < latest ==> r.Finished?)
      && (r.Aborted? ==>
            r.scan.total > s.total &&
            classify(Claim(events[r.scan.total - 1].id), events[r.scan.total - 1]).Fault?)
    decreases |events| - s.total
  {
    if s.total < |events| && s.total < maxEvents {
      var v := VisitEvent(s, events[s.total], latest, classify);
      if v.Next? {
        AbortsOnlyOnFault(v.scan, events, latest, maxEvents, classify);
      }
    }
  }

  /** Every fact a scan adds was derived by the classifier from a visited
      event at or above `latest` whose id the store did not hold before. */
  lemma {:induction false} AddedFactsAreDerived(s: Scan, events: seq<Event>, latest: int, maxEvents: int, classify: Classifier)
    requires s.total <= |events|
    ensures var r := Run(s, events, latest, maxEvents, classify);
      forall j :: |s.facts| <= j < |r.scan.facts| ==>
        exists k ::
          && s.total <= k < r.scan.total
          && events[k].id >= latest
          && !HasEvent(s.facts, events[k].id)
          && classify(Claim(events[k].id), events[k]) == Derive(r.scan.facts[j])
    decreases |events| - s.total
  {
    if s.total < |events| && s.total < maxEvents {
      var e := events[s.total];
      var v := VisitEvent(s, e, latest, classify);
      if v.Next? {
        var r := Run(s, events, latest, maxEvents, classify);
        AddedFactsAreDerived(v.scan, events, latest, maxEvents, classify);
        RunExtendsStore(v.scan, events, latest, maxEvents, classify);
        forall j | |s.facts| <= j < |r.scan.facts|
          ensures exists k ::
            && s.total <= k < r.scan.total
            && events[k].id >= latest
            && !HasEvent(s.facts, events[k].id)
            && classify(Claim(events[k].id), events[k]) == Derive(r.scan.facts[j])
        {
          if j < |v.scan.facts| {
            assert r.scan.facts[j] == v.scan.facts[j];
            assert classify(Claim(e.id), e) == Derive(r.scan.facts[j]);
          } else {
            var k :|
              && v.scan.total <= k < r.scan.total
              && events[k].id >= latest
              && !HasEvent(v.scan.facts, events[k].id)
              && classify(Claim(events[k].id), events[k]) == Derive(r.scan.facts[j]);
          }
        }
      }
    }
  }

  /** After a scan, the store holds a fact for every visited event at or above
      `latest` that it already held or that the classifier derives. */
  lemma {:induction false} ClaimedEventsArePresent(s: Scan, events: seq<Event>, latest: int, maxEvents: int, classify: Classifier)
    requires s.total <= |events|
    requires KeepsClaimId(classify)
    ensures var r := Run(s, events, latest, maxEvents, classify);
      forall k :: s.total <= k < r.scan.total && events[k].id >= latest ==>
        (HasEvent(s.facts, events[k].id) || classify(Claim(events[k].id), events[k]).Derive?) ==>
        HasEvent(r.scan.facts, events[k].id)
    decreases |events| - s.total
  {
    if s.total < |events| && s.total < maxEvents {
      var e := events[s.total];
      var v := VisitEvent(s, e, latest, classify);
      if v.Next? {
        var r := Run(s, events, latest, maxEvents, classify);
        ClaimedEventsArePresent(v.scan, events, latest, maxEvents, classify);
        RunExtendsStore(v.scan, events, latest, maxEvents, classify);
        forall k | s.total <= k < r.scan.total && events[k].id >= latest
          && (HasEvent(s.facts, events[k].id) || classify(Claim(events[k].id), events[k]).Derive?)
          ensures HasEvent(r.scan.facts, events[k].id)
        {
          if k == s.total {
            TxnKeepsClaimsUnique(s.facts, e, classify);
            PrefixHasEvent(v.scan.facts, r.scan.facts, e.id);
          } else if HasEvent(s.facts, events[k].id) {
            PrefixHasEvent(s.facts, v.scan.facts, events[k].id);
          }
        }
      }
    }
  }

  /** Event ids are pairwise distinct, as the event source guarantees. */
  predicate DistinctIds(events: seq<Event>) {
    forall a, b :: 0 <= a < b < |events| ==> events[a].id != events[b].id
  }

  /** A visited event that the classifier does not derive, and that the store
      did not hold before, leaves no fact with its id behind: its claim was
      rolled back. */
  lemma DiscardLeavesNoTrace(facts: seq<Fact>, events: seq<Event>, latest: int, maxEvents: int, classify: Classifier, k: nat)
    requires DistinctIds(events) && KeepsClaimId(classify)
    requires k < Run(Scan(facts, None, 0, 0), events, latest, maxEvents, classify).scan.total
    requires !HasEvent(facts, events[k].id)
    requires !classify(Claim(events[k].id), events[k]).Derive?
    ensures !HasEvent(Run(Scan(facts, None, 0, 0), events, latest, maxEvents, classify).scan.facts, events[k].id)
  {
    var s := Scan(facts, None, 0, 0);
    var r := Run(s, events, latest, maxEvents, classify);
    var id := events[k].id;
    AddedFactsAreDerived(s, events, latest, maxEvents, classify);
    RunExtendsStore(s, events, latest, maxEvents, classify);
    forall f | f in r.scan.facts
      ensures f.eventId != Some(id)
    {
      var j :| 0 <= j < |r.scan.facts| && r.scan.facts[j] == f;
      if j < |facts| {
        assert facts[j] == f;
      } else {
        var k' :|
          && 0 <= k' < r.scan.total
          && events[k'].id >= latest
          && !HasEvent(facts, events[k'].id)
          && classify(Claim(events[k'].id), events[k']) == Derive(f);
        assert f.eventId == Some(events[k'].id);
        assert k' != k;
      }
    }
  }

  /** Scanning from `s2`, whose store is what the scan from `s1` ends with,
      revisits the same events, commits nothing and ends the same way. */
  lemma {:induction false} RescanChangesNothing(s1: Scan, s2: Scan, events: seq<Event>, latest: int, maxEvents: int, classify: Classifier)
    requires KeepsClaimId(classify)
    requires s1.total == s2.total <= |events| && s1.last == s2.last
    requires s2.facts == Run(s1, events, latest, maxEvents, classify).scan.facts
    ensures var r1 := Run(s1, events, latest, maxEvents, classify);
      var r2 := Run(s2, events, latest, maxEvents, classify);
      && r2.scan == s2.(last := r1.scan.last, total := r1.scan.total)
      && r2.Aborted? == r1.Aborted?
    decreases |events| - s1.total
  {
    if s1.total < |events| && s1.total < maxEvents {
      var e := events[s1.total];
      var v1 := VisitEvent(s1, e, latest, classify);
      var v2 := VisitEvent(s2, e, latest, classify);
      if e.id >= latest {
        var t1 := Txn(s1.facts, e, classify);
        RunExtendsStore(s1, events, latest, maxEvents, classify);
        match t1.step
        case Faulted =>
        case Committed =>
          RunExtendsStore(v1.scan, events, latest, maxEvents, classify);
          TxnKeepsClaimsUnique(s1.facts, e, classify);
          PrefixHasEvent(t1.facts, s2.facts, e.id);
          RescanChangesNothing(v1.scan, v2.scan, events, latest, maxEvents, classify);
        case Skipped =>
          PrefixHasEvent(s1.facts, s2.facts, e.id);
          RescanChangesNothing(v1.scan, v2.scan, events, latest, maxEvents, classify);
        case RolledBack =>
          RescanChangesNothing(v1.scan, v2.scan, events, latest, maxEvents, classify);
      }
    }
  }

  /** Scanning the same events twice: the second scan derives nothing,
      leaves the store as the first left it, and visits and returns the same. */
  lemma ScanIsIdempotent(facts: seq<Fact>, events: seq<Event>, latest: int, maxEvents: int, classify: Classifier)
    requires KeepsClaimId(classify)
    ensures var r1 := Run(Scan(facts, None, 0, 0), events, latest, maxEvents, classify);
      var r2 := Run(Scan(r1.scan.facts, None, 0, 0), events, latest, maxEvents, classify);
      && r2.scan.facts == r1.scan.facts
      && r2.scan.detected == 0
      && r2.scan.total == r1.scan.total
      && r2.scan.last == r1.scan.last
      && r2.Aborted? == r1.Aborted?
  {
    var r1 := Run(Scan(facts, None, 0, 0), events, latest, maxEvents, classify);
    RescanChangesNothing(Scan(facts, None, 0, 0), Scan(r1.scan.facts, None, 0, 0), events, latest, maxEvents, classify);
  }

  /** A scan of events that are all discarded and all at or above `latest`
      visits every one of them, up to the cap, and leaves the store as it was. */
  lemma {:induction false} VisitsDiscarded(facts: seq<Fact>, events: seq<Event>, latest: int, maxEvents: int, classify: Classifier, from: nat)
    requires from <= |events| && (from == 0 || from <= maxEvents)
    requires forall k :: 0 <= k < |events| ==>
      events[k].id >= latest && classify(Claim(events[k].id), events[k]).Discard?
    ensures var r := Run(Scan(facts, if from == 0 then None else Some(events[from - 1].id), from, 0),
                         events, latest, maxEvents, classify);
      && r.Finished?
      && r.scan.facts == facts
      && r.scan.detected == 0
      && r.scan.total == if maxEvents < 0 then 0 else if |events| < maxEvents then |events| else maxEvents
    decreases |events| - from
  {
    if from < |events| && from < maxEvents {
      VisitsDiscarded(facts, events, latest, maxEvents, classify, from + 1);
    }
  }

  /** The scanner's own scan keeps at most one fact per event id, and every
      visited event at or above `latest` that it derives ends up recorded. */
  lemma ScanAllKeepsClaimsUnique(facts: seq<Fact>, events: seq<Event>, latest: int, maxEvents: int)
    requires ClaimsUnique(facts)
    ensures var r := ScanAll(facts, events, latest, maxEvents);
      && ClaimsUnique(r.scan.facts)
      && forall k :: 0 <= k < r.scan.total && events[k].id >= latest ==>
           FillUp(Claim(events[k].id), events[k]).Derive? ==> HasEvent(r.scan.facts, events[k].id)
  {
    FillUpKeepsClaimId();
    RunExtendsStore(Scan(facts, None, 0, 0), events, latest, maxEvents, FillUp);
    ClaimedEventsArePresent(Scan(facts, None, 0, 0), events, latest, maxEvents, FillUp);
  }

  /** Running the scanner's own scan twice over the same events: the second
      run detects nothing, leaves the store as it was and returns the same id. */
  lemma ScanAllIsIdempotent(facts: seq<Fact>, events: seq<Event>, latest: int, maxEvents: int)
    ensures var r1 := ScanAll(facts, events, latest, maxEvents);
      var r2 := ScanAll(r1.scan.facts, events, latest, maxEvents);
      && r2.scan.facts == r1.scan.facts
      && r2.scan.detected == 0
      && r2.scan.total == r1.scan.total
      && r2.scan.last == r1.scan.last
      && r2.Aborted? == r1.Aborted?
  {
    FillUpKeepsClaimId();
    ScanIsIdempotent(facts, events, latest, maxEvents, FillUp);
  }
}
