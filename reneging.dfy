/** Reneging: the guard that some waiting group is overdue, and the event that splits
    the waiting list into the groups that stay and the groups that leave. */
module Reneging {
  import opened Net
  import opened Sequences

  /** The group has waited strictly longer than the patience threshold at time t. */
  predicate Overdue(t: real, g: Group)
  {
    t - g.time > PATIENCE
  }

  /** leave_condition: some waiting group is overdue (`any` over the list). */
  function LeaveCondition(t: real, waiting: seq<Group>, left: seq<Group>): (r: bool)
    ensures r <==> exists i :: 0 <= i < |waiting| && Overdue(t, waiting[i])
    ensures waiting == [] ==> !r
    decreases |waiting|
  {
    if waiting == [] then false
    else
      assert forall i :: 0 < i < |waiting| ==> waiting[i] == waiting[1..][i - 1];
      Overdue(t, waiting[0]) || LeaveCondition(t, waiting[1..], left)
  }

  /** A group leaves when it is overdue and its draw falls at or below 0.05. */
  predicate Leaves(t: real, g: Group, draw: real)
  {
    Overdue(t, g) && draw <= RENEGE_PROBABILITY
  }

  /** The groups that stay, in queue order. draws[i] is the draw made for waiting[i]. */
  function Remaining(t: real, waiting: seq<Group>, draws: seq<real>): (stay: seq<Group>)
    requires |draws| == |waiting|
    decreases |waiting|
  {
    if waiting == [] then []
    else
      Remaining(t, DropLast(waiting), DropLast(draws))
      + (if Leaves(t, Last(waiting), Last(draws)) then [] else [Last(waiting)])
  }

  /** The groups that leave, in queue order. */
  function Leaving(t: real, waiting: seq<Group>, draws: seq<real>): (leave: seq<Group>)
    requires |draws| == |waiting|
    decreases |waiting|
  {
    if waiting == [] then []
    else
      Leaving(t, DropLast(waiting), DropLast(draws))
      + (if Leaves(t, Last(waiting), Last(draws)) then [Last(waiting)] else [])
  }

  /** reneging_event: walks the waiting list once, appending each group to the leaving
      list or the remaining list; gone receives its old list extended by the leavers.
      The source draws random() only for overdue groups; draws[i] stands for the draw
      made for waiting[i] and is not consulted otherwise. */
  method RenegingEvent(t: real, waiting: seq<Group>, left: seq<Group>, draws: seq<real>)
    returns (out: seq<Token>)
    requires |draws| == |waiting|
    ensures |out| == |RenegingDecl.outputs|
    ensures out[0] == Token(GroupList(Remaining(t, waiting, draws)), 0.0)
    ensures out[1] == Token(GroupList(left + Leaving(t, waiting, draws)), 0.0)
  {
    var remaining: seq<Group> := [];
    var leaving: seq<Group> := [];
    for i := 0 to |waiting|
      invariant remaining == Remaining(t, waiting[..i], draws[..i])
      invariant leaving == Leaving(t, waiting[..i], draws[..i])
    {
      assert DropLast(waiting[..i + 1]) == waiting[..i] && Last(waiting[..i + 1]) == waiting[i];
      assert DropLast(draws[..i + 1]) == draws[..i] && Last(draws[..i + 1]) == draws[i];
      var group := waiting[i];
      var waited := t - group.time;
      if waited > PATIENCE {
        if draws[i] <= RENEGE_PROBABILITY {
          leaving := leaving + [group];
          continue;
        }
      }
      remaining := remaining + [group];
    }
    assert waiting[..|waiting|] == waiting && draws[..|draws|] == draws;
    out := [Token(GroupList(remaining), 0.0), Token(GroupList(left + leaving), 0.0)];
  }

  /** Both the groups that stay and the groups that leave keep their queue order. */
  lemma {:induction false} RenegingKeepsOrder(t: real, waiting: seq<Group>, draws: seq<real>)
    requires |draws| == |waiting|
    ensures IsSubsequence(Remaining(t, waiting, draws), waiting)
    ensures IsSubsequence(Leaving(t, waiting, draws), waiting)
    decreases |waiting|
  {
    if waiting != [] {
      var w, d := DropLast(waiting), DropLast(draws);
      RenegingKeepsOrder(t, w, d);
      var rem, lea := Remaining(t, waiting, draws), Leaving(t, waiting, draws);
      if Leaves(t, Last(waiting), Last(draws)) {
        assert rem == Remaining(t, w, d);
        assert DropLast(lea) == Leaving(t, w, d) && Last(lea) == Last(waiting);
      } else {
        assert lea == Leaving(t, w, d);
        assert DropLast(rem) == Remaining(t, w, d) && Last(rem) == Last(waiting);
      }
    }
  }

  /** Together the two lists hold exactly the waiting groups: no group is lost or duplicated. */
  lemma {:induction false} RenegingConservesGroups(t: real, waiting: seq<Group>, draws: seq<real>)
    requires |draws| == |waiting|
    ensures |Remaining(t, waiting, draws)| + |Leaving(t, waiting, draws)| == |waiting|
    ensures multiset(Remaining(t, waiting, draws)) + multiset(Leaving(t, waiting, draws)) == multiset(waiting)
    decreases |waiting|
  {
    if waiting != [] {
      var w, d := DropLast(waiting), DropLast(draws);
      RenegingConservesGroups(t, w, d);
      assert waiting == w + [Last(waiting)];
    }
  }

  /** Only overdue groups ever leave. */
  lemma {:induction false} LeaversAreOverdue(t: real, waiting: seq<Group>, draws: seq<real>)
    requires |draws| == |waiting|
    ensures forall k :: 0 <= k < |Leaving(t, waiting, draws)| ==> Overdue(t, Leaving(t, waiting, draws)[k])
    decreases |waiting|
  {
    if waiting != [] {
      LeaversAreOverdue(t, DropLast(waiting), DropLast(draws));
    }
  }

  /** Where each waiting group ends up: with a draw that makes it leave it is among the
      leavers, otherwise among those who stay; in particular a group that has waited at most
      the threshold always stays, whatever its draw. */
  lemma {:induction false} GroupFate(t: real, waiting: seq<Group>, draws: seq<real>, i: int)
    requires |draws| == |waiting|
    requires 0 <= i < |waiting|
    ensures Leaves(t, waiting[i], draws[i]) ==> waiting[i] in Leaving(t, waiting, draws)
    ensures !Leaves(t, waiting[i], draws[i]) ==> waiting[i] in Remaining(t, waiting, draws)
    ensures !Overdue(t, waiting[i]) ==> waiting[i] in Remaining(t, waiting, draws)
    decreases |waiting|
  {
    if i < |waiting| - 1 {
      GroupFate(t, DropLast(waiting), DropLast(draws), i);
      assert DropLast(waiting)[i] == waiting[i] && DropLast(draws)[i] == draws[i];
    }
  }

  /** When the guard does not hold nobody leaves: the waiting list comes back unchanged. */
  lemma {:induction false} NoOverdueNoneLeave(t: real, waiting: seq<Group>, left: seq<Group>, draws: seq<real>)
    requires |draws| == |waiting|
    requires !LeaveCondition(t, waiting, left)
    ensures Remaining(t, waiting, draws) == waiting
    ensures Leaving(t, waiting, draws) == []
    decreases |waiting|
  {
    if waiting != [] {
      assert !LeaveCondition(t, DropLast(waiting), left) by {
        forall i | 0 <= i < |DropLast(waiting)| ensures !Overdue(t, DropLast(waiting)[i]) {
          assert DropLast(waiting)[i] == waiting[i];
        }
      }
      NoOverdueNoneLeave(t, DropLast(waiting), left, DropLast(draws));
      assert !Overdue(t, waiting[|waiting| - 1]);
    }
  }
}
