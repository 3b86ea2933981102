# A verified model of a chat system's wire codecs, Lamport clock VM and leader write path

This Dafny project models four self-contained parts of a small Python chat system and proves
properties of each:

- **BinaryProtocol** (`binary_protocol.dfy`, HW1/protocol.py `CustomProtocol`): the binary wire
  codec.
  - A string field is written as one length byte, or as `0x00` plus a 4-byte big-endian length for
    fields of 255 bytes or more.
  - A frame is an action byte, a field-count byte and the fields, behind a 4-byte length header.
  - `receive` walks an offset through the fields and fills a dictionary keyed by the action's field
    names.
- **TextProtocol** (`text_protocol.dfy`, protocol.py): the text codec.
  - The 4-byte big-endian length framing is shared by `JSONProtocol` and `CustomProtocol`.
  - `CustomProtocol` writes the text `action|k=v&k=v`.
  - `receive` splits at the first `|`, then on every `&`, then each item at its first `=`, and turns
    all-digit `message_id`/`limit` values into integers.
- **LamportVm** (`lamport.dfy`, HW3/run.py): the logical-clock virtual machine.
  - Messages carry `(clock, sender)` as JSON.
  - Each iteration of `run` either processes the oldest queued message with the receive rule
    `max(local, received) + 1`, or performs one send, broadcast or internal event, each adding one
    to the clock.
- **ChatServer** (`chat_server.dfy`, HW4/server.py `ChatService`): the leader write path and the
  session table.
  - Only the leader takes writes: it stores the message, then asks each replica in turn.
  - A write is reported successful when `ack_count` (its own write plus successful replicas)
    reaches 2.
  - Read limits are clamped to [0, 10].
  - `Login`, `Logout` and `DeleteAccount` maintain `online_users`.

Shared modules:

- **Wrappers**: `Option` and `Result`. A Python exception becomes an `Err`, named after the
  exception.
- **Bytes**: bytes, Python slicing and big-endian integers.
- **Decimal**: `str(n)`, `str.isdigit`, `int(s)` and JSON integer literals.
- **Search**: the first occurrence of a separator byte.

Modelling conventions:

- Text is carried as its UTF-8 bytes (`seq<byte>`, with `byte` an int subset 0..255).
- A socket is the byte stream the peer wrote. `recv(n)` returns up to n of its bytes.
- Sockets, the clock and randomness become parameters: a `random.randint` draw, `int(time.time())`,
  storage replies, replica replies.
- Where the code works step by step, the model is imperative and proved against a specification
  function:
  - `VirtualMachine` and `ChatService` are classes whose methods update their fields.
  - The field loops of both `receive`s are methods with loop invariants.
- Replication, as HW4/server.py does it: inside `SendMessage` the leader asks each replica
  synchronously, one `ReplicateMessage` call per replica carrying the single new message. It
  reports failure ("Failed to replicate to quorum.") when no replica acknowledges.

## Model

| member | source | states |
|---|---|---|
| BinaryProtocol.ActionOf | HW1/protocol.py:131-141 | a code maps to "unknown" exactly when it is outside 1..7 |
| BinaryProtocol.EncodeField | HW1/protocol.py:33-41 | fails (struct.error) exactly for 2^32 bytes or more; a short value is its length byte then its bytes (1+n); a long one is 0x00, a 4-byte big-endian n, then the bytes (5+n) |
| BinaryProtocol.ExtractField | HW1/protocol.py:191-205 | fails exactly when the length byte is missing or a 0x00 marker lacks its 4 length bytes; the value is never longer than the reported size |
| BinaryProtocol.DecodeField | HW1/protocol.py:44-60 | None exactly for an exhausted stream; fails exactly for a 0x00 marker with fewer than 4 bytes after it; the value and what is left make up the data after the prefix |
| BinaryProtocol.ExtractEncoded | HW1/protocol.py:191-205 | a non-empty value encoded at any offset is extracted back, with a size equal to its encoding's length |
| BinaryProtocol.EmptyFieldMisread | HW1/protocol.py:197-205 | the empty string encodes to the single byte 0x00, which the reader takes for the long-form marker: it fails or reads the next 4 bytes as a length |
| BinaryProtocol.DecodeEncoded | HW1/protocol.py:33-60 | reading a non-empty encoded value off a stream gives the value and leaves exactly the following bytes |
| BinaryProtocol.PackByte | HW1/protocol.py:79-86 | `struct.pack(">B", n)` succeeds exactly for 0 <= n < 256 and is the byte n |
| BinaryProtocol.PackU32 | HW1/protocol.py:90 | `struct.pack(">I", n)` succeeds exactly for 0 <= n < 2^32 and reads back as n |
| BinaryProtocol.EncodeAll | HW1/protocol.py:94-96 | the action-7 fields are one encoding per value in order; it fails exactly when some value is too long |
| BinaryProtocol.Frame | HW1/protocol.py:98-105 | the header is the big-endian body length; the body is the action byte, a count byte equal to the number of fields, then the fields concatenated; it succeeds whenever all of these fit |
| BinaryProtocol.EncodeValues | HW1/protocol.py:94-96 | the loop appending one encoding per keyword argument computes EncodeAll |
| BinaryProtocol.BuildFields | HW1/protocol.py:71-96 | the branches building `fields` compute Fields, with KeyError for actions 1-6 called without their arguments |
| BinaryProtocol.Send | HW1/protocol.py:63-105 | `send` computes Frame |
| BinaryProtocol.Decode | HW1/protocol.py:117-128 | an empty stream gives None; a dictionary is only returned for a stream of at least 6 bytes |
| BinaryProtocol.ReadField | HW1/protocol.py:145-185 | one iteration of the field loop computes Step: the key chosen by action and index, the value read and the offset advanced |
| BinaryProtocol.ReadFields | HW1/protocol.py:144-185 | the field loop with its advancing offset computes Walk from offset 2 |
| BinaryProtocol.Receive | HW1/protocol.py:117-188 | `receive` computes Decode |
| BinaryProtocol.EncodeAllPrefixErr | HW1/protocol.py:94-96 | once a prefix of the values fails to encode, the whole list fails |
| BinaryProtocol.StepText | HW1/protocol.py:145-185 | for the string-field actions one iteration stores the extracted value under the field's key and advances by its size |
| BinaryProtocol.WalkTexts | HW1/protocol.py:144-185 | walking a body of encoded non-empty strings stores each value under its key, in order |
| BinaryProtocol.WalkOneText | HW1/protocol.py:144-150 | one iteration consumes exactly one encoding |
| BinaryProtocol.FillResponse | HW1/protocol.py:181-185 | a response stores its first value under "status" and its last (of two or more) under "message" |
| BinaryProtocol.DecodeFrame | HW1/protocol.py:98-128 | decoding a stream starting with a frame reads exactly that frame's body |
| BinaryProtocol.SentTexts | HW1/protocol.py:144-185 | the frame of a string-only request walks to the values under their keys |
| BinaryProtocol.SentLogin | HW1/protocol.py:145-150 | a received login holds the action, then username and password |
| BinaryProtocol.SentSendMessage | HW1/protocol.py:156-160 | a received send_message holds the recipient and the message |
| BinaryProtocol.SentDeleteAccount | HW1/protocol.py:175-179 | a received delete_account holds the password |
| BinaryProtocol.SentResponse | HW1/protocol.py:181-185 | a received response holds "status" and "message" as FillResponse says |
| BinaryProtocol.SentDeleteMessage | HW1/protocol.py:166-173 | field 0 is a length-prefixed recipient and field 1 a raw 4-byte big-endian message_id |
| BinaryProtocol.ReceiveSent | HW1/protocol.py:63-188 | `receive(send(req))` gives the request's fields under their keys for every request with non-empty strings, whatever bytes follow the frame (list_accounts and read_messages as a single byte) |
| BinaryProtocol.WalkKeepsAction | HW1/protocol.py:142-185 | no field iteration touches the action key |
| BinaryProtocol.ReceivedHasAction | HW1/protocol.py:141-142 | a received dictionary always holds the action name of the code in the body's first byte |
| BinaryProtocol.WalkUnknown | HW1/protocol.py:144-185 | for "unknown" no branch of the loop fires, whatever the count |
| BinaryProtocol.UnknownActionOnlyKey | HW1/protocol.py:141-142 | for a code outside 1..7 the result holds only the action key |
| TextProtocol.Frame | protocol.py:5-8 | the frame is the payload's length as 4 big-endian bytes, then the payload; OverflowError exactly from 2^32 bytes |
| TextProtocol.ReadFrame | protocol.py:11-16 | None exactly for an empty stream; the payload never exceeds the header's length |
| TextProtocol.ReadFramed | protocol.py:5-16 | reading a stream that starts with a frame gives exactly the framed payload |
| TextProtocol.Find | protocol.py:31 | `d.get(k)` finds a value exactly when k is a key, and the entry is in d |
| TextProtocol.KeysAppend | protocol.py:61-65 | appending an entry adds its key |
| TextProtocol.Insert | protocol.py:61-65 | after `d[k] = v`, k maps to v; a new key goes last; an existing key leaves the length unchanged |
| TextProtocol.InsertInPlace | protocol.py:61-65 | `d[k] = v` on an existing key keeps every key in its place and every other key's value |
| TextProtocol.InsertKeys | protocol.py:61-65 | `d[k] = v` adds k to the keys and nothing else |
| TextProtocol.InsertOther | protocol.py:61-65 | `d[k] = v` leaves every other key's value alone |
| TextProtocol.InsertUnique | protocol.py:61-65 | `d[k] = v` keeps the keys distinct |
| TextProtocol.Others | protocol.py:33 | the entries other than "action", in dict order: exactly their keys, distinct when d's are |
| TextProtocol.PairTextsSeparated | protocol.py:33 | one `k=v` text per entry; none holds '&' when keys and values do not |
| TextProtocol.Send | protocol.py:27-38 | succeeds exactly when the text fits the 4-byte length, and reading the frame gives back `action|k=v&...` |
| TextProtocol.SplitOnce | protocol.py:51-57 | `split(sep, 1)`: one piece (the whole text) exactly when sep is absent, else the text before the first sep and the text after it |
| TextProtocol.Split | protocol.py:56 | `split(sep)`: at least one piece, none holding sep, and joining them with sep gives the text back |
| TextProtocol.Convert | protocol.py:60-63 | `message_id` and `limit` become integers exactly when their text is all digits; everything else stays the text |
| TextProtocol.ConvertedInt | protocol.py:61 | an integer made this way is non-negative and is `int(value)` |
| TextProtocol.ParseItemsStep | protocol.py:56-63 | the item loop takes one item at a time, in order |
| TextProtocol.Decode | protocol.py:45-47 | `receive` returns None exactly for an empty stream |
| TextProtocol.ReadItem | protocol.py:57-63 | one iteration of the item loop computes ParseItem |
| TextProtocol.ParsePayload | protocol.py:51-65 | the item loop inserting into the dictionary in place, then "action", computes Parse |
| TextProtocol.Receive | protocol.py:41-66 | `receive` computes Decode |
| TextProtocol.ParseHasAction | protocol.py:51-65 | the result always holds "action", bound to the text before the first pipe character |
| TextProtocol.ParseNoPairs | protocol.py:51-65 | a payload with no pipe character (the empty one too), or with a single one at its end, gives just the action |
| TextProtocol.SplitOnceAt | protocol.py:51 | splitting a + [c] + b once at c, with no c in a, gives [a, b] |
| TextProtocol.SplitJoin | protocol.py:33-56 | splitting a '&'-join of items without '&' gives the items back |
| TextProtocol.ConvertAllKeys | protocol.py:60-63 | conversion keeps the keys |
| TextProtocol.PlainKeysOf | protocol.py:57 | the recursive form of "no key holds '='" |
| TextProtocol.FreshKeysStep | protocol.py:61-65 | moving an entry's key into the dictionary keeps the rest of the keys apart from it |
| TextProtocol.ParsePair | protocol.py:57-63 | an item `k=v` whose key holds no '=' parses to k and the converted v |
| TextProtocol.ParsePairs | protocol.py:56-63 | the item loop over the pairs of distinct '='-free keys appends them, converted, in order |
| TextProtocol.ConvertAllCons | protocol.py:60-63 | the conversion of a list is the first entry's conversion followed by the rest's |
| TextProtocol.ParseSerialized | protocol.py:31-65 | the text `send` writes parses back to the entries other than "action", converted and in order, then "action" |
| TextProtocol.ReceiveSent | protocol.py:27-66 | when the action has no pipe character, keys no '=' or '&', and values no '&', `receive(send(d))` gives d's other entries, converted and in order, then "action" bound to `str(d.get("action", ""))` |
| TextProtocol.ConvertCanonical | protocol.py:60-63 | a value `receive` could have produced is converted to itself |
| TextProtocol.ConvertAllCanonical | protocol.py:60-63 | the same for every entry of a list |
| TextProtocol.ReceivedCanonical | protocol.py:27-66 | when every value already has that form, the round trip returns d's entries unchanged, "action" moved last |
| LamportVm.ToJson | HW3/run.py:13-14 | the `json.dumps` text: it starts with `{"clock": ` and ends with `}` (the clock's and sender's decimal forms between the key texts) |
| LamportVm.FromJson | HW3/run.py:16-19 | reads back only that text: a message comes out only when the input is `{"clock": `, a JSON integer, `, "sender": `, a JSON integer and `}`, and carries those two integers |
| LamportVm.JsonRoundTrip | HW3/run.py:13-19 | `from_json(to_json(m))` has m's clock and sender |
| LamportVm.DecNoComma | HW3/run.py:14 | a written integer holds no comma |
| LamportVm.OuterShape | HW3/run.py:14-18 | a `to_json` text is the braces and the first key around clock, second key, sender |
| LamportVm.InnerShape | HW3/run.py:14-18 | inside the braces the first comma ends the clock's digits |
| LamportVm.ReceiveRule | HW3/run.py:64-65 | the new clock exceeds both the local and the received clock and is one past one of them |
| LamportVm.BroadcastPackets | HW3/run.py:93-95 | a broadcast sends one message per peer, in order, to port 5000 + peer |
| LamportVm.NextActs | HW3/run.py:82-100 | with an empty queue the clock rises by exactly 1; action 1/2 sends one message to its peer, 3 one to every peer, anything else none; each message carries the pre-step clock and the id |
| LamportVm.SendHappensBefore | HW3/run.py:57-97 | every message sent decodes at the receiver to a clock below the sender's clock after the step and below the receiver's clock after processing it |
| LamportVm.RunClock | HW3/run.py:75-100 | n iterations raise the clock by at least n |
| LamportVm.RunDrains | HW3/run.py:79-81 | while messages wait, n iterations remove exactly the n oldest (FIFO), and nothing is sent |
| LamportVm.VirtualMachine.constructor | HW3/run.py:22-31 | id and peers as given; clock 0; empty queue; running; peers[0] and peers[1] are the targets of actions 1 and 2 |
| LamportVm.VirtualMachine.Deliver | HW3/run.py:47-49 | a non-empty text that decodes is appended to the end of the queue; nothing else changes |
| LamportVm.VirtualMachine.SendMessage | HW3/run.py:57-62 | sends Message(logical_clock, id) to port 5000 + target without changing the clock |
| LamportVm.VirtualMachine.ProcessMessage | HW3/run.py:64-65 | the clock becomes ReceiveRule(old clock, message clock); the queue is untouched |
| LamportVm.VirtualMachine.SendToAll | HW3/run.py:94-95 | the broadcast loop sends Broadcast(peers, current message) |
| LamportVm.VirtualMachine.Step | HW3/run.py:78-100 | one iteration: the new clock, queue and messages sent are those of Next |
| LamportVm.VirtualMachine.RunLoop | HW3/run.py:75-100 | a running machine goes through one iteration per draw, as Run says; a stopped one does nothing |
| Decimal.JsonIntDec | HW3/run.py:14-18 | `str(n)` is a JSON integer literal that reads back as n |
| ChatServer.ClampLimit | HW4/server.py:80 | `max(0, min(limit, 10))` lies in [0, 10]; it is the limit inside that range, 0 below it and 10 above it |
| ChatServer.SuccessesBound | HW4/server.py:50-57 | no more acknowledgements are counted than there are replicas |
| ChatServer.QuorumIff | HW4/server.py:50-62 | `ack_count >= 2` exactly when some replica answered "success"; with no replicas it never holds |
| ChatServer.ReplicaCallsEach | HW4/server.py:51-53 | the leader calls every replica once, in order, with the same message |
| ChatServer.ChatService.constructor | HW4/server.py:13-24 | the replica list is the given addresses exactly when the server is leader and the list is non-empty, otherwise empty; no users online |
| ChatServer.ChatService.Login | HW4/server.py:26-30 | the user goes online with an empty queue exactly when storage reports success; the storage's status and message are passed on |
| ChatServer.ChatService.Logout | HW4/server.py:32-34 | the user is offline afterwards, whether or not it was online; always success |
| ChatServer.ChatService.SendMessage | HW4/server.py:36-62 | a follower answers "error" with no storage or replica call; the leader stores first, then calls every replica in order; success exactly when AckCount reaches 2 |
| ChatServer.ChatService.ReadMessages | HW4/server.py:79-91 | a clamped limit of 0 answers success with no messages and no storage read; otherwise storage is read with the clamped limit and its reply passed on |
| ChatServer.ChatService.DeleteAccount | HW4/server.py:113-117 | the user goes offline only when storage reports success; the reply is passed on |

## Left out

- The leader/follower election and full-state sync layer (heartbeats, bully election, `AnnounceLeader`, `SyncData`). HW4/server.py contains none of it: it forwards the single message with `ReplicateMessage`.
- Storage: `Storage` and its sqlite/bcrypt behaviour is not part of this model. Its replies are method parameters, and the calls to it are recorded in `ChatService.trace`.
- gRPC transport: replica stubs are addresses, and a `grpc.RpcError` is the replica reply `RpcError`. The printed replication error is not modelled.
- ChatServer.ChatService.SendMessage: the message built for replicas is recorded with `now` as its id. The leader's own `storage.send_message` call takes no id, and which id storage assigns is not modelled.
- `ReplicateMessage`, `ListAccounts` and `DeleteMessage` (HW4/server.py:64-77, 109-111) are not modelled: they forward a storage reply and keep no state.
- `ListenForMessages` (HW4/server.py:93-107) and `serve` are not modelled: they are blocking loops over queues and a gRPC server. So queued messages are never delivered in the model. It also omits the removal from `online_users` on an `RpcError` while streaming.
- Sockets and threads: `listen_for_messages` accept/timeout handling (HW3/run.py:37-54) and the `__main__` orchestration (HW3/run.py:102-120). `Deliver` models what one accepted connection does to the queue.
- Concurrency: the listener thread appends while `run` pops, and the model runs them as separate sequential methods. `RunLoop` does not interleave deliveries; a caller interleaves `Deliver` and `Step`.
- Randomness and time: `random.randint(1, 6)` (clock speed) and `random.randint(1, 10)` (action) are parameters. `time.sleep(1 / clock_speed)` and `time.time()` are left out. The clock speed is stored but has no effect on the model.
- Logging: `log`, the log file and all `print` calls.
- LamportVm.VirtualMachine.constructor: fewer than two peers raises IndexError in the source. The model requires at least two instead of modelling the exception.
- LamportVm.Next: the `is not None` tests on `peer_for_action_1/2` are not modelled. Peers are integers here, so the tests always pass, as they do for every machine `__main__` builds.
- LamportVm.FromJson: reads only the texts `json.dumps` writes for `{"clock": int, "sender": int}`. `json.loads` also accepts other spacing, key order, extra keys and non-integer values; those inputs are not modelled. On them the model gives None where Python would produce a message.
- LamportVm.VirtualMachine.Deliver: an exception from `from_json` ends the listener thread in the source. The model returns false and leaves the queue unchanged.
- `recv(1024)` in the listener and `recv(n)` in the codecs may return fewer bytes than are available. The model reads everything available up to n.
- UTF-8 decoding errors (`.decode('utf-8')` raising on invalid bytes) are not modelled. Text is its bytes throughout.
- `str.isdigit` is modelled on ASCII digits only. Non-ASCII digits such as '²' are not modelled.
- TextProtocol: dictionary values other than strings and integers are not modelled, and `str()` of other types is not modelled.
- `JSONProtocol` is modelled only as its length framing, the same in HW1/protocol.py:4-21 and protocol.py:3-17. The JSON text is an opaque payload, and `json.dumps`/`json.loads` of general data is not modelled.
- BinaryProtocol.ExtractEncoded: stated for non-empty values only. The empty string does not survive the trip (see `EmptyFieldMisread`), and the model keeps that behaviour as written.
- BinaryProtocol.ReceiveSent: stated for requests whose string fields are non-empty, for the same reason.
- TextProtocol.ReceiveSent: stated under the separator conditions in `Transmittable` (no '|' in the action, no '=' or '&' in keys, no '&' in values). Outside them the text does not parse back unambiguously.
