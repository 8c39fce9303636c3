/** The values that travel through the instruction net: student groups, the
    payloads a place can hold, the timed tokens an event produces, and the
    static wiring of every registered event (its input and output places). */
module Net {

  /** A student group: its identifier ("g1", "g2", ...) and the instant it joined the queue. */
  datatype Group = Group(id: string, time: real)

  /** The payload of a token. The source's places hold an arrival counter, a list of
      groups, the string "Instructor", or Python's None. */
  datatype Value =
    | Count(n: int)
    | GroupList(groups: seq<Group>)
    | Text(text: string)
    | Nothing

  /** A produced token: a payload and the delay after which it becomes available. */
  datatype Token = Token(value: Value, delay: real)

  /** A registered event: its name and the places it reads from and writes to, in order. */
  datatype EventDecl = EventDecl(name: string, inputs: seq<string>, outputs: seq<string>)

  /** The instructor resource token. */
  const INSTRUCTOR: Value := Text("Instructor")

  /** A group that has waited strictly longer than this may renege. */
  const PATIENCE: real := 10.0

  /** A uniform draw at or below this makes an overdue group leave. */
  const RENEGE_PROBABILITY: real := 0.05

  /** A uniform draw at or below this sends a free instructor on a break. */
  const BREAK_PROBABILITY: real := 0.7

  const ArriveDecl: EventDecl :=
    EventDecl("arrive", ["time_var", "arrival", "waiting"], ["arrival", "waiting"])

  const RenegingDecl: EventDecl :=
    EventDecl("reneging_event", ["time_var", "waiting", "gone"], ["waiting", "gone"])

  const StartServiceDecl: EventDecl :=
    EventDecl("start_service", ["free", "waiting"], ["free", "waiting", "busy"])

  const EndServiceDecl: EventDecl :=
    EventDecl("end_service", ["busy", "served", "free"], ["busy", "served", "free"])

  const ChooseBreakDecl: EventDecl :=
    EventDecl("choose_break", ["free", "time_var"], ["free", "break"])

  const InstructorReturnDecl: EventDecl :=
    EventDecl("instructor_return", ["break"], ["free"])

  /** Number of tokens whose payload is the instructor. */
  function InstructorCount(tokens: seq<Token>): (n: nat)
    ensures n <= |tokens|
    ensures n == 0 <==> forall k :: 0 <= k < |tokens| ==> tokens[k].value != INSTRUCTOR
    decreases |tokens|
  {
    if tokens == [] then 0
    else
      assert forall k :: 0 < k < |tokens| ==> tokens[k] == tokens[1..][k - 1];
      (if tokens[0].value == INSTRUCTOR then 1 else 0) + InstructorCount(tokens[1..])
  }
}
