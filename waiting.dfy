/** Invariants of the waiting list that the events keep: groups stand in order of
    arrival, and every identifier is distinct and was issued from an arrival counter
    below the next one to be handed out. */
module Waiting {
  import opened Net
  import opened Sequences
  import Decimal
  import Events
  import Reneging

  /** Groups stand in the order in which they arrived. */
  ghost predicate ArrivalOrdered(w: seq<Group>)
  {
    Pairwise(w, (g: Group, h: Group) => g.time <= h.time)
  }

  /** No two groups share an identifier. */
  ghost predicate DistinctIds(w: seq<Group>)
  {
    Pairwise(w, (g: Group, h: Group) => g.id != h.id)
  }

  /** id is "g" followed by the decimal rendering of a counter below a. */
  predicate IssuedBelow(id: string, a: int)
  {
    |id| > 1 && id[0] == 'g' && Decimal.IsDecimal(id[1..]) && Decimal.ParseInt(id[1..]) < a
  }

  /** The waiting list is in arrival order, its identifiers are distinct, and each of them
      was issued before arrival counter a. */
  ghost predicate WaitingInvariant(w: seq<Group>, a: int)
  {
    && ArrivalOrdered(w)
    && DistinctIds(w)
    && forall i :: 0 <= i < |w| ==> IssuedBelow(w[i].id, a)
  }

  /** The initial state of the net: an empty waiting list and the counter at 1. */
  lemma InitialWaitingInvariant()
    ensures WaitingInvariant([], 1)
  {
  }

  /** arrive keeps the invariant, with the re-armed counter as the new bound, provided the
      bound time is not earlier than any waiting group's arrival. */
  lemma ArriveKeepsInvariant(t: real, a: int, w: seq<Group>, arrivalDelay: real)
    requires WaitingInvariant(w, a)
    requires forall i :: 0 <= i < |w| ==> w[i].time <= t
    ensures var r := Events.Arrive(t, a, w, arrivalDelay);
      r[0].value == Count(a + 1) && WaitingInvariant(r[1].value.groups, a + 1)
  {
  }

  /** start_service keeps the invariant on the groups left waiting. */
  lemma StartServiceKeepsInvariant(free: Value, w: seq<Group>, serviceDuration: real, a: int)
    requires WaitingInvariant(w, a)
    ensures WaitingInvariant(Events.StartService(free, w, serviceDuration)[1].value.groups, a)
  {
  }

  /** First come, first served: on a list in arrival order, start_service takes into service
      a group that has waited at least as long as every group in the list. */
  lemma StartServiceServesEarliest(free: Value, w: seq<Group>, serviceDuration: real)
    requires ArrivalOrdered(w)
    requires Events.StartServiceGuard(free, w)
    ensures var busy := Events.StartService(free, w, serviceDuration)[2].value.groups;
      |busy| == 1 && busy[0] == w[0] && forall i :: 0 <= i < |w| ==> busy[0].time <= w[i].time
  {
  }

  /** reneging_event keeps the invariant on the groups that stay. */
  lemma RenegingKeepsInvariant(t: real, w: seq<Group>, draws: seq<real>, a: int)
    requires |draws| == |w|
    requires WaitingInvariant(w, a)
    ensures WaitingInvariant(Reneging.Remaining(t, w, draws), a)
  {
    var rem := Reneging.Remaining(t, w, draws);
    Reneging.RenegingKeepsOrder(t, w, draws);
    SubsequencePairwise(rem, w, (g: Group, h: Group) => g.time <= h.time);
    SubsequencePairwise(rem, w, (g: Group, h: Group) => g.id != h.id);
    SubsequenceMembers(rem, w);
    forall k | 0 <= k < |rem| ensures IssuedBelow(rem[k].id, a) {
      var m :| 0 <= m < |w| && w[m] == rem[k];
    }
  }
}
