/** The action and guard functions of the instruction net's arrival, service and
    break events. Each takes the values bound from its input places and returns
    one token per output place of its declaration; every random draw of the
    source is a parameter. */
module Events {
  import opened Net
  import Decimal

  /** The identifier of the group created for arrival counter a: "g" followed by str(a);
      reading the counter back out of the identifier gives a. */
  function GroupId(a: int): (id: string)
    ensures |id| > 1 && id[0] == 'g' && Decimal.IsDecimal(id[1..])
    ensures Decimal.ParseInt(id[1..]) == a
  {
    Decimal.StrRoundTrip(a);
    assert ("g" + Decimal.Str(a))[1..] == Decimal.Str(a);
    "g" + Decimal.Str(a)
  }

  /** Distinct arrival counters give distinct group identifiers. */
  lemma GroupIdInjective(a: int, b: int)
    ensures GroupId(a) == GroupId(b) <==> a == b
  {
  }

  /** arrive: appends a new group stamped with the bound time to the waiting list and
      re-arms the arrival counter. `arrivalDelay` is the exponential draw. */
  function Arrive(t: real, a: int, w: seq<Group>, arrivalDelay: real): (r: seq<Token>)
    ensures |r| == |ArriveDecl.outputs|
    ensures r[0] == Token(Count(a + 1), arrivalDelay)
    ensures r[1].delay == 0.0 && r[1].value.GroupList?
    ensures |r[1].value.groups| == |w| + 1
    ensures r[1].value.groups[..|w|] == w
    ensures r[1].value.groups[|w|] == Group(GroupId(a), t)
  {
    var token := Group(GroupId(a), t);
    [Token(Count(a + 1), arrivalDelay), Token(GroupList(w + [token]), 0.0)]
  }

  /** The guard registered with start_service: the instructor is free and someone waits.
      It holds exactly when the action's own early-return test does not fire. */
  predicate StartServiceGuard(free: Value, waiting: seq<Group>): (r: bool)
    ensures r <==> !(free != INSTRUCTOR || waiting == [])
  {
    free == INSTRUCTOR && |waiting| > 0
  }

  /** start_service: takes the head of the waiting list into service for
      `serviceDuration`; the free place gets None. Without a free instructor or a
      waiting group, the inputs are handed back and busy gets an empty list. */
  function StartService(free: Value, waiting: seq<Group>, serviceDuration: real): (r: seq<Token>)
    ensures |r| == |StartServiceDecl.outputs|
    ensures r[1].value.GroupList? && r[2].value.GroupList?
    ensures StartServiceGuard(free, waiting) ==>
      && r[0] == Token(Nothing, 0.0)
      && r[2].value.groups + r[1].value.groups == waiting
      && |r[2].value.groups| == 1
      && r[1].delay == 0.0
      && r[2].delay == serviceDuration
    ensures !StartServiceGuard(free, waiting) ==>
      r == [Token(free, 0.0), Token(GroupList(waiting), 0.0), Token(GroupList([]), 0.0)]
  {
    if free != INSTRUCTOR || waiting == [] then
      [Token(free, 0.0), Token(GroupList(waiting), 0.0), Token(GroupList([]), 0.0)]
    else
      var group := waiting[0];
      assert [group] + waiting[1..] == waiting;
      [Token(Nothing, 0.0), Token(GroupList(waiting[1..]), 0.0), Token(GroupList([group]), serviceDuration)]
  }

  /** The guard registered with end_service: some group is in service. It holds exactly
      when the action's own early-return test does not fire; served and free play no part. */
  predicate EndServiceGuard(busy: seq<Group>, served: seq<Group>, free: Value): (r: bool)
    ensures r <==> busy != []
  {
    |busy| > 0
  }

  /** end_service: the first busy group joins the served list, busy is emptied and the
      instructor is put back on free. With nothing busy the inputs are handed back. */
  function EndService(busy: seq<Group>, served: seq<Group>, free: Value): (r: seq<Token>)
    ensures |r| == |EndServiceDecl.outputs|
    ensures forall k :: 0 <= k < |r| ==> r[k].delay == 0.0
    ensures r[0].value.GroupList? && r[1].value.GroupList?
    ensures EndServiceGuard(busy, served, free) ==>
      && r[0].value.groups == []
      && |r[1].value.groups| == |served| + 1
      && r[1].value.groups[..|served|] == served
      && r[1].value.groups[|served|] == busy[0]
      && r[2].value == INSTRUCTOR
    ensures !EndServiceGuard(busy, served, free) ==>
      r[0].value == GroupList(busy) && r[1].value == GroupList(served) && r[2].value == free
  {
    if busy == [] then
      [Token(GroupList(busy), 0.0), Token(GroupList(served), 0.0), Token(free, 0.0)]
    else
      var group := busy[0];
      [Token(GroupList([]), 0.0), Token(GroupList(served + [group]), 0.0), Token(INSTRUCTOR, 0.0)]
  }

  /** The break decision: the instructor is free and the draw falls at or below 0.7. */
  predicate TakesBreak(free: Value, draw: real)
  {
    free == INSTRUCTOR && draw <= BREAK_PROBABILITY
  }

  /** should_take_break (event choose_break, no guard): on a break the instructor leaves
      free (None) and reappears on break after `breakDuration`; otherwise free keeps its
      value and break gets an empty list. `currentTime` is only printed by the source. */
  function ShouldTakeBreak(free: Value, currentTime: real, draw: real, breakDuration: real): (r: seq<Token>)
    ensures |r| == |ChooseBreakDecl.outputs|
    ensures TakesBreak(free, draw) ==> r == [Token(Nothing, 0.0), Token(INSTRUCTOR, breakDuration)]
    ensures !TakesBreak(free, draw) ==> r == [Token(free, 0.0), Token(GroupList([]), 0.0)]
  {
    if free == INSTRUCTOR && draw <= BREAK_PROBABILITY then
      [Token(Nothing, 0.0), Token(INSTRUCTOR, breakDuration)]
    else
      [Token(free, 0.0), Token(GroupList([]), 0.0)]
  }

  /** instructor_return: whatever the break place held, the instructor is free again at once. */
  function InstructorReturn(instructor: Value): (r: seq<Token>)
    ensures |r| == |InstructorReturnDecl.outputs|
    ensures r[0] == Token(INSTRUCTOR, 0.0)
  {
    [Token(INSTRUCTOR, 0.0)]
  }

  /** A started service ends with the head of the waiting list appended to the served
      list, the rest still waiting, busy emptied and the instructor free. */
  lemma ServiceCycle(free: Value, waiting: seq<Group>, served: seq<Group>, serviceDuration: real, freeAtEnd: Value)
    requires StartServiceGuard(free, waiting)
    ensures var s := StartService(free, waiting, serviceDuration);
      && s[1].value.groups == waiting[1..]
      && var e := EndService(s[2].value.groups, served, freeAtEnd);
      && EndServiceGuard(s[2].value.groups, served, freeAtEnd)
      && e[0].value == GroupList([])
      && e[1].value == GroupList(served + [waiting[0]])
      && e[2].value == INSTRUCTOR
  {
  }

  /** end_service keeps the served list and the first busy group, and discards any further
      busy groups; with at most one busy group no group is lost or duplicated. */
  lemma EndServiceConservation(busy: seq<Group>, served: seq<Group>, free: Value)
    ensures var r := EndService(busy, served, free);
      multiset(r[0].value.groups) + multiset(r[1].value.groups) == multiset(served) + multiset(busy[..if |busy| > 0 then 1 else 0])
    ensures |busy| <= 1 ==> var r := EndService(busy, served, free);
      multiset(r[0].value.groups) + multiset(r[1].value.groups) == multiset(served) + multiset(busy)
  {
  }

  /** should_take_break's own two outputs carry the instructor exactly as often as the value
      bound from free did. This is about this one firing only: a declined break puts [] on
      break, and instructor_return turns whatever it is given into the instructor. */
  lemma ShouldTakeBreakKeepsInstructor(free: Value, currentTime: real, draw: real, breakDuration: real)
    ensures InstructorCount(ShouldTakeBreak(free, currentTime, draw, breakDuration))
         == InstructorCount([Token(free, 0.0)])
  {
  }

  /** A break lasts exactly `breakDuration`: the instructor token is available on break after
      that delay, and instructor_return puts it back on free with no further delay. */
  lemma BreakCycle(currentTime: real, draw: real, breakDuration: real)
    requires draw <= BREAK_PROBABILITY
    ensures var r := ShouldTakeBreak(INSTRUCTOR, currentTime, draw, breakDuration);
      && r[0].value == Nothing
      && var back := InstructorReturn(r[1].value);
      && back[0].value == INSTRUCTOR
      && r[1].delay + back[0].delay == breakDuration
  {
  }
}
