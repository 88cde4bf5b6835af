# Scalar-clock replicated blackboard — a Dafny model

This project models one node of the distributed blackboard in
`server/server.py`. Each node keeps a blackboard (a map from entry key to
entry text) and a scalar logical clock. A local write (add, modify or
delete) increments the clock and changes the board. It then broadcasts the
node's full snapshot, with the new clock, to every peer. A peer that
receives a snapshot (POST `/update`) installs it only when the carried clock
is strictly greater than its own clock, and it then adopts that clock. The
peer first removes the control fields `clock`, `entry` and `delete`.

The model is purely functional. A node is `Node(board, clock)`. Each request
handler is a function from the node before the request to an `Outcome`,
which holds three things: the node after the request, the sends the handler
would start, and how the handler ended. When a Python exception escapes a
handler midway, any mutation made before it stays in place. So a failing
handler still returns the node it leaves behind. For example, a modify of an
absent key keeps its clock bump.

Modules:
- `Wrappers` (`wrappers.dfy`): `Option`.
- `Decimal` (`decimal.dfy`): Python's `str(int)` and base-10 `int(str)`, and the round trip between them.
- `Blackboard` (`blackboard.dfy`): the map operations of class `Blackboard`.
- `Server` (`server.dfy`): node state, the clock helpers, the recipient list, the snapshot message and the three write handlers.
- `Replication` (`replication.dfy`): properties that span several handler calls. These cover how snapshots combine at a receiver, replication from a writer to its peers, and invariants of any run.

Modelling choices:
- An HTTP form is a `map<string, string>`. Bottle's form dictionary appends on assignment, and its `get` returns the last value. So the outgoing message is the request form, then `clock`, then every board entry, with a later field overriding an earlier one of the same name. That is the right-biased map union in `Server.Message`. The clock travels as decimal text, as the HTTP client sends it.
- The random id of an add is a parameter with `0 <= id <= 9999`.
- A send is the triple (peer address, URI, form). Delivery, status codes and threads are not modelled.

Two snapshots with equal clocks: the strict `>` at server/server.py:167 means the first one to arrive is kept and the second is refused (`Replication.EqualClocksFirstArrivalWins`). This file implements only the scalar-clock broadcast.

## Model

| member | source | states |
|---|---|---|
| `Blackboard.ModifyContent` | server/server.py:34-37 | afterwards the key maps to the new entry; the key set grows by at most that key; every other entry keeps its value; an existing key is overwritten, not duplicated |
| `Blackboard.DeleteContent` | server/server.py:39-42 | defined only for a present key (`pop` raises otherwise); afterwards the key is absent, the board is one entry smaller, and every other entry is unchanged |
| `Blackboard.SetContent` | server/server.py:44-47 | every key of the new content is present with its new value, no key of the old board outside the new content survives, and the size is that of the new content |
| `Blackboard.SetContentReplaces` | server/server.py:44-47 | replacing the content does not merge: the result is the same whatever the previous board held, and has exactly the new keys |
| `Blackboard.DeleteUndoesFreshModify` | server/server.py:34-42 | deleting a key that a modify has just added restores the earlier board |
| `Blackboard.ModifyAfterDeleteIsOverwrite` | server/server.py:194-197 | deleting a key and then writing it again gives the same board as overwriting it in place |
| `Blackboard.ContentAsList` | server/server.py:26-32 | the list has one (key, entry) pair per board entry: every pair is an entry of the board, every key appears, no key appears twice |
| `Decimal.NatToString` | server/server.py:36 | the text of a natural number is a non-empty run of decimal digits without a leading zero |
| `Decimal.IntToString` | server/server.py:181 | the text of a non-negative clock is all digits; a negative one is a minus sign followed by digits |
| `Decimal.ParseInt` | server/server.py:165 | text parses exactly when it is digits, optionally after one sign; a minus sign gives a non-positive value, anything else a non-negative one |
| `Decimal.ParseIntUnsigned` | server/server.py:165 | unsigned text reads as the number its digits denote: leading zeros do not change it |
| `Decimal.ParseIntSigned` | server/server.py:165 | a `+` sign and leading zeros do not change the value; a `-` sign negates it, so `-0…0` reads as 0 |
| `Decimal.DigitsValueOfNatToString` | server/server.py:165 | reading back the digits printed for a natural number yields that number |
| `Decimal.ParseIntOfIntToString` | server/server.py:165-181 | parsing the text of any integer gives back that integer, so the receiver reads exactly the clock the sender wrote |
| `Decimal.IntToStringInjective` | server/server.py:179 | two integers print the same exactly when they are equal, so distinct random ids never share a key |
| `Server.InitialNode` | server/server.py:52-59 | a node starts with an empty board and clock 0, so no control key is stored |
| `Server.UpdateClock` | server/server.py:81-84 | the clock becomes exactly one past the given value and the board is untouched |
| `Server.GetAndUpdateClock` | server/server.py:86-96 | with no clock field the clock grows by one; with a readable one it becomes that value plus one, even below the current clock; an unreadable one raises and leaves the node unchanged |
| `Server.Recipients` | server/server.py:143-146 | the recipients are the server list with every copy of the node's own address removed: the same multiset minus self, in list order as a subsequence, never self |
| `Server.Propagate` | server/server.py:143-146 | one send per recipient, in recipient order, each to a listed peer other than the node itself, each carrying the same URI and message |
| `Server.Message` | server/server.py:181-185 | the message holds the request fields, `clock` and every board entry; every board entry is carried verbatim, request fields not shadowed keep their value, and `clock` is the node's clock unless the board shadows it |
| `Server.Strip` | server/server.py:169-172 | the installed board has exactly the form's keys other than `clock`, `entry` and `delete`, with values copied verbatim |
| `Server.UpdateBlackboardContent` | server/server.py:164-173 | missing or unreadable clock: error, node unchanged; the clock rises exactly when the carried clock is strictly greater, and then it equals the carried clock and the board is the stripped form; otherwise the node is unchanged; a board without control keys keeps none |
| `Server.AddEntry` | server/server.py:175-187 | the clock rises by exactly one; exactly the key `str(id)` is added or overwritten with the entry, the other entries are unchanged; the snapshot message is sent to every peer but self; no control key is ever stored |
| `Server.ModifyEntry` | server/server.py:190-206 | the clock rises by exactly one even when the key is absent; an absent key raises with the board unchanged and nothing sent; otherwise with `delete=0` the key maps to the new entry, else it is gone; other entries are unchanged; the snapshot is sent to every peer |
| `Replication.DistinctClocksCommute` | server/server.py:164-173 | two snapshots with different clocks give the same node in either arrival order: the higher-clock snapshot if it is ahead of the node, else the node unchanged |
| `Replication.EqualClocksFirstArrivalWins` | server/server.py:167-168 | for two snapshots with the same clock ahead of the node, the first to arrive is installed and the second is refused; the result is one of the two, never a mixture |
| `Replication.DeliverAllConcat` | server/server.py:164-173 | delivering two batches one after the other is the same as delivering their concatenation |
| `Replication.DeliverAllIsMax` | server/server.py:164-173 | after any sequence of snapshots the clock is at least the starting clock and every carried clock; the node is unchanged or is exactly one snapshot's installation |
| `Replication.StaleSnapshotsIgnored` | server/server.py:167 | snapshots whose clocks are not ahead of the node leave it unchanged |
| `Replication.HighestClockWins` | server/server.py:164-173 | in any arrival order, a snapshot whose clock is strictly above the node's and every other carried clock ends up installed |
| `Replication.ClockNeverDecreases` | server/server.py:167-168 | along any delivery sequence, a longer prefix never leaves a smaller clock |
| `Replication.MessageCarriesClock` | server/server.py:181-185 | when the board holds no control key, the message's clock field reads back as the sender's clock |
| `Replication.StripMessage` | server/server.py:169-185 | a receiver keeps the request's non-control fields with the sender's board laid over them |
| `Replication.SnapshotDelivery` | server/server.py:164-187 | a peer behind the sender adopts the sender's clock and board, plus any extra request fields; a peer not behind ignores the message; either way the handler succeeds |
| `Replication.ReplicaOfSender` | server/server.py:164-187 | a message built from a request with only control fields turns a peer that is behind into an exact copy of the sender |
| `Replication.AddEntryDelivers` | server/server.py:175-187 | after an add, every peer the broadcast reaches that was not ahead of the writer takes the writer's clock and board, plus the request's fields other than `clock`, `entry` and `delete` |
| `Replication.AddEntryReplicates` | server/server.py:175-187 | when the add request holds only the fields `clock`, `entry` and `delete`, every peer the broadcast reaches that was not ahead of the writer becomes an exact replica of the writer |
| `Replication.ModifyEntryDelivers` | server/server.py:190-206 | after a successful modify or delete, every peer the broadcast reaches that was not ahead of the writer takes the writer's clock and board, plus the request's non-control fields |
| `Replication.ModifyEntryReplicates` | server/server.py:190-206 | when the modify request holds only the fields `clock`, `entry` and `delete`, every peer the broadcast reaches that was not ahead of the writer becomes an exact replica of the writer |
| `Replication.EqualClockWritesDiverge` | server/server.py:164-187 | two nodes in one state that add different ids concurrently reach equal clocks; each refuses the other's snapshot, and their boards stay different |
| `Replication.RunKeepsInvariants` | server/server.py:164-206 | over any run of receives, adds and modifies, the clock never goes back and the board never stores a control key |
| `Replication.RunFromInitialNode` | server/server.py:52-206 | every run of receives, adds and modifies from a freshly started node keeps a non-negative clock and never stores a control key |

## Left out

- HTTP plumbing (Bottle routes, `index`, `get_board`, `post_index`, `get_template`, templates, static files) is left out. It is I/O and rendering over a library that is not modelled.
- Reading `entry` from the request is left out. `AddEntry` and `ModifyEntry` take the entry as a string. A request without an `entry` field makes the source store Python `None`, and the model does not represent that.
- `request.params`, which mixes the query string with the form, is modelled as the request form alone. The `delete` flag is read from that form.
- `contact_another_server` and the HTTP client are left out. The model produces the sends that would be made, not their delivery, failures or status codes.
- `do_parallel_task`, `do_parallel_task_after_delay`, `_wrapper_delay_and_execute` and the locks are left out. Every handler is atomic and sequential. So the model does not cover lost clock increments from the unlocked `self.clock = self.clock + 1` under concurrent requests.
- `random.randint(0, 9999)` becomes the parameter `id` with that range as a precondition.
- `main` (argument parsing, address derivation, server start-up) is left out as process bootstrap.
- The load-generation scripts `server/evaluation/evaluation.py`, `evaluation/testlab3.py` and `server/postScript.py` are left out. They only fire concurrent requests.
- Decimal.ParseInt: accepts only an optional sign followed by ASCII digits. Python's `int()` also accepts surrounding whitespace, single underscores between digits and non-ASCII decimal digits. The model does not cover those inputs.
- Blackboard.ContentAsList: does not fix the order of the pairs. Python lists a dict in insertion order.
- Bottle form dictionaries can hold several values per field. The model keeps only the last value, which is the one the handlers read.
- Replication.SnapshotDelivery: assumes the HTTP round trip leaves every field's text unchanged. That holds for ASCII text. The client sends UTF-8 and the receiving framework may decode it differently, so non-ASCII entries can arrive altered.
- Replication.ReplicaOfSender: makes the same assumption that field text survives the HTTP round trip unchanged, which holds for ASCII text.
- Replication.AddEntryDelivers: makes the same assumption that field text survives the HTTP round trip unchanged, which holds for ASCII text.
- Replication.AddEntryReplicates: makes the same assumption that field text survives the HTTP round trip unchanged, which holds for ASCII text.
- Replication.ModifyEntryDelivers: makes the same assumption that field text survives the HTTP round trip unchanged, which holds for ASCII text.
- Replication.ModifyEntryReplicates: makes the same assumption that field text survives the HTTP round trip unchanged, which holds for ASCII text.
