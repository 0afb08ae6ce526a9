/** The fact store as the scanner sees it: a list of facts, at most one per
    event id, with insert-if-absent keyed by event id and the two ends of a
    transaction (keep the filled-in record, or restore the snapshot). */
module FactStores {
  import opened Wrappers
  import opened Events

  /** Some fact in `facts` carries event id `id`. */
  predicate HasEvent(facts: seq<Fact>, id: int) {
    exists f :: f in facts && f.eventId == Some(id)
  }

  /** At most one fact per event id (facts without an event id are unconstrained). */
  ghost predicate ClaimsUnique(facts: seq<Fact>) {
    forall i, j :: 0 <= i < j < |facts| && facts[i].eventId.Some? ==>
      facts[i].eventId != facts[j].eventId
  }

  lemma PrefixHasEvent(a: seq<Fact>, b: seq<Fact>, id: int)
    requires a <= b && HasEvent(a, id)
    ensures HasEvent(b, id)
  {
  }

  /** Appending a fact whose id is not yet present keeps ids unique. */
  lemma {:induction false} AppendFreshKeepsUnique(facts: seq<Fact>, f: Fact, id: int)
    requires f.eventId == Some(id) && !HasEvent(facts, id)
    ensures ClaimsUnique(facts) ==> ClaimsUnique(facts + [f])
    ensures HasEvent(facts + [f], id)
  {
  }

  class FactStore {
    var facts: seq<Fact>

    ghost predicate Valid()
      reads this
    {
      ClaimsUnique(facts)
    }

    constructor (initial: seq<Fact>)
      requires ClaimsUnique(initial)
      ensures Valid() && facts == initial
    {
      facts := initial;
    }

    /** Insert-if-absent by event id: appends a bare claim unless a fact
        with that id already exists, and says whether it did. */
    method IfAbsent(id: int) returns (claimed: bool)
      requires Valid()
      modifies this
      ensures Valid()
      ensures claimed <==> !HasEvent(old(facts), id)
      ensures facts == if claimed then old(facts) + [Claim(id)] else old(facts)
      ensures claimed ==> HasEvent(facts, id)
    {
      claimed := !HasEvent(facts, id);
      if claimed {
        AppendFreshKeepsUnique(facts, Claim(id), id);
        facts := facts + [Claim(id)];
      }
    }

    /** Fills in the record claimed last, keeping its event id. */
    method Fill(f: Fact)
      requires Valid() && |facts| > 0 && f.eventId == facts[|facts| - 1].eventId
      modifies this
      ensures Valid()
      ensures facts == old(facts)[..|old(facts)| - 1] + [f]
    {
      var n := |facts| - 1;
      ghost var prefix := facts[..n];
      assert facts == prefix + [facts[n]];
      facts := facts[..n] + [f];
      forall i, j | 0 <= i < j < |facts| && facts[i].eventId.Some?
        ensures facts[i].eventId != facts[j].eventId
      {
        assert facts[i].eventId == old(facts)[i].eventId;
        assert facts[j].eventId == old(facts)[j].eventId;
      }
    }

    /** Rolls a transaction back to the snapshot taken when it began. */
    method Restore(snapshot: seq<Fact>)
      requires ClaimsUnique(snapshot)
      modifies this
      ensures Valid() && facts == snapshot
    {
      facts := snapshot;
    }
  }
}
