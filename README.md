# Instruction queue: a Dafny model of the event functions

This project models the event functions of the student-instruction queue in
`model_1.py`. One instructor serves student groups. Groups arrive, wait in a single
list, may renege after waiting too long, are served one at a time, and the
instructor sometimes takes a break.

The scheduling engine (`simpn`) binds one value from each input place of an event,
calls the event's function, and deposits the returned tokens into the output places.
This model covers only those functions. Each one takes the bound values and returns
one `Token(value, delay)` per output place of its `add_event` declaration. Each
random draw of the source is an explicit parameter:

- the exponential inter-arrival delay;
- one uniform draw per waiting group for reneging, compared with 0.05;
- one uniform draw for the break decision, compared with 0.7;
- the service and break durations. The source draws these once, when the module
  loads.

Modules:

- `Net` (`net.dfy`): groups, token payloads (counter, group list, the text
  `"Instructor"`, `None`), tokens, and the constants 10, 0.05 and 0.7. Six constants
  record the input and output places of the `add_event` declarations at
  `model_1.py:71`, `:99-105`, `:126-132`, `:149-155`, `:165-170` and `:176-181`. The
  first ensures of each event function ties its token count to the number of
  output places in its declaration.
- `Decimal` (`decimal.dfy`): Python's `str(int)`, which builds group identifiers,
  and a parser that inverts it.
- `Sequences` (`sequences.dfy`): order-preserving subsequences and pairwise
  properties.
- `Events` (`events.dfy`): `arrive`, `start_service` and its guard, `end_service` and
  its guard, `should_take_break` and `instructor_return`, as functions. Beside them
  are lemmas about a full service and a full break.
- `Reneging` (`reneging.dfy`): the guard `leave_condition` as a function, and
  `reneging_event` as a method with a loop. The method is proved against the
  functions `Remaining` and `Leaving`, and lemmas about those functions state the
  partition properties.
- `Waiting` (`waiting.dfy`): invariants that every event touching the waiting list
  keeps. The list stays in arrival order. Identifiers stay distinct, and each was
  issued below the current arrival counter. Service is first come, first served.

Behaviour of the code worth knowing when reading the model:

- `reneging_event` gives both output tokens delay 0, so there is no periodic re-check (`model_1.py:94-97`).
- An overdue group leaves only on the 5% draw, whatever the instructor is doing (`model_1.py:88-91`). The docstring at `model_1.py:80` says every group leaves when the instructor is on a break; the code does not do that.
- `start_service` puts `None` on `free` and a one-group list on `busy`. The instructor value itself never goes to `busy` (`model_1.py:120-122`).
- `end_service` keeps only the first busy group and empties `busy` (`model_1.py:141-146`).

## Model

| member | source | states |
|---|---|---|
| Decimal.Str | model_1.py:64 | `str(a)`: a minus sign exactly when `a` is negative, followed by decimal digits |
| Decimal.NatDigits | model_1.py:64 | the rendering of a counter is a non-empty string of digits with no leading zero |
| Decimal.DigitsRoundTrip | model_1.py:64 | parsing the digits of n gives back n |
| Decimal.StrRoundTrip | model_1.py:64 | `str(a)` is a well-formed decimal that parses back to `a`, negative values included |
| Decimal.StrInjective | model_1.py:64 | `str(m) == str(n)` exactly when `m == n` |
| Events.GroupId | model_1.py:64 | the identifier `f"g{a}"` is `g` followed by a well-formed decimal, and reading that decimal back gives `a` |
| Events.GroupIdInjective | model_1.py:64 | group ids `"g"+str(a)` are equal exactly when their counters are equal |
| Events.Arrive | model_1.py:59-71 | two tokens, one for `arrival` and one for `waiting`; the first is counter `a + 1` with the drawn delay; the second is the old waiting list, unchanged as a prefix, with exactly one group `{id: "g"+a, time: t}` appended, delay 0 |
| Events.StartServiceGuard | model_1.py:113-130 | the registered guard, exactly `f == "Instructor" and len(w) > 0`, holds exactly when the action's early-return test at line 113 does not fire |
| Events.StartService | model_1.py:111-132 | three tokens for `free`, `waiting` and `busy`. When the instructor is free and someone waits (the registered guard): `None` goes to `free`, and the busy list followed by the new waiting list is exactly the old waiting list. The busy list has one group with delay `service_duration`; the waiting list has delay 0. Otherwise the inputs come back unchanged and `busy` gets `[]` |
| Events.EndServiceGuard | model_1.py:136-153 | the registered guard, exactly `len(b) > 0`, holds exactly when the action's early-return test at line 136 does not fire; `served` and `free` play no part |
| Events.EndService | model_1.py:134-155 | three tokens for `busy`, `served` and `free`, all with delay 0. With a busy group (the registered guard): `busy` becomes empty, `served` gains the first busy group at its end with its old entries as a prefix, and `free` gets `"Instructor"`. Otherwise the three inputs come back unchanged |
| Events.ShouldTakeBreak | model_1.py:157-170 | two tokens for `free` and `break`. When the instructor is free and the draw is at most 0.7: `None` goes to `free` and the instructor goes to `break` after `break_duration`. Otherwise `free` keeps its value and `break` gets `[]`, both with delay 0 |
| Events.InstructorReturn | model_1.py:172-181 | exactly one token, `"Instructor"` with delay 0, whatever value was bound |
| Events.ServiceCycle | model_1.py:111-155 | a service that starts and then ends appends the head of the waiting list to `served`, leaves the rest waiting, empties `busy` and frees the instructor |
| Events.EndServiceConservation | model_1.py:134-146 | `end_service` keeps the served groups plus the first busy group and drops any further busy groups; with at most one busy group, no group is lost or duplicated |
| Events.ShouldTakeBreakKeepsInstructor | model_1.py:157-163 | the two tokens one `should_take_break` firing returns carry the instructor exactly as often as the value bound from `free` did |
| Events.BreakCycle | model_1.py:157-181 | a break moves the instructor off `free`; `instructor_return` brings it back, and the whole break takes exactly `break_duration` |
| Reneging.LeaveCondition | model_1.py:73-75 | true exactly when some waiting group has `t - time > 10`; false on an empty list |
| Reneging.RenegingEvent | model_1.py:77-105 | two tokens, both with delay 0: `waiting` gets the groups that stay, and `gone` gets the old gone list, unchanged as a prefix, followed by the groups that leave. Both lists are computed by the loop, in queue order |
| Reneging.RenegingKeepsOrder | model_1.py:83-97 | the groups that stay and the groups that leave are each an order-preserving subsequence of the waiting list |
| Reneging.RenegingConservesGroups | model_1.py:83-92 | the two lists' lengths sum to the waiting list's length, and together, as multisets, they are exactly the waiting list |
| Reneging.LeaversAreOverdue | model_1.py:86-91 | every group that leaves has waited strictly more than 10 |
| Reneging.GroupFate | model_1.py:86-92 | a waiting group that is overdue with a draw of at most 0.05 is among the leavers; any other group stays; a group that waited at most 10 stays whatever its draw |
| Reneging.NoOverdueNoneLeave | model_1.py:73-105 | when the guard is false, the waiting list comes back unchanged and nobody leaves |
| Waiting.InitialWaitingInvariant | model_1.py:23-33 | the initial empty waiting list, with counter 1, satisfies the waiting-list invariant |
| Waiting.ArriveKeepsInvariant | model_1.py:59-69 | `arrive` keeps arrival order and distinct identifiers, and every identifier stays below the re-armed counter, provided `t` is not earlier than any queued arrival |
| Waiting.StartServiceKeepsInvariant | model_1.py:111-123 | the groups left waiting after `start_service` keep the invariant |
| Waiting.StartServiceServesEarliest | model_1.py:118-123 | on a list in arrival order, the group taken into service is the head and has waited at least as long as every waiting group |
| Waiting.RenegingKeepsInvariant | model_1.py:83-95 | the groups that stay after reneging keep the invariant |

## Left out

- The `simpn` engine (`model_1.py:1`, `:16`, `:194`) is not modelled: place declarations, binding selection, clock advance and the firing loop. The model claims nothing about firing order, about which value the engine binds to `t`, or about how the engine treats `None` and `[]` outputs. For that reason no invariant spans the whole net, for example "exactly one of free, busy and break holds the instructor".
- Random number generation (`expovariate`, `uniform`, `random`) is replaced by parameters. Nothing is claimed about the distributions. Because `service_duration` and `break_duration` are drawn once at `model_1.py:12-13`, a caller must pass the same value to every firing.
- Events.InstructorReturn: has no guard and returns the instructor whatever it is given, so it also turns the `[]` a declined break leaves on `break` (`model_1.py:162-163`) into an instructor on `free`. The same happens after `choose_break` fires on the `None` that `start_service` leaves on `free`. Whether the engine passes such a token to `instructor_return` is not modelled, so the model does not claim that the instructor is never duplicated across firings.
- Reneging.RenegingEvent: takes one draw per waiting group, but the source calls `random()` only for overdue groups. The draw given for a group that is not overdue is never consulted, so the outcomes are the same.
- Floating-point arithmetic is modelled by exact reals (`t - time > 10`, `draw <= 0.05`).
- The unused `service_guard` (`model_1.py:107-109`) is never registered, so it is not modelled.
- Printing, the reporter and the visualisation (`model_1.py:159`, `:187-205`) only produce output, so they are not modelled.
- test.py and main.py are not part of this model. They build tokens for the engine and hold no event logic of this net.
