/** The leader-side write path and the session table of HW4/server.py's `ChatService`. Storage
    results, replica replies and the clock are inputs; every call the service makes to its storage
    or to a replica is recorded in a trace, so that what is called, and in which order, can be
    stated. */
module ChatServer {
  import opened Wrappers

  const SUCCESS: string := "success"
  const ERROR: string := "error"
  const NOT_LEADER: string := "This server is not the leader."
  const REPLICATED: string := "Message replicated successfully."
  const NO_QUORUM: string := "Failed to replicate to quorum."
  const LOGGED_OUT: string := "User logged out."
  /** `ReadMessages` never asks the storage for more than this many messages. */
  const MAX_READ: int := 10

  /** `chat_pb2.Response(status, message)`. */
  datatype Response = Response(status: string, message: string)

  /** `chat_pb2.Message(id, sender, message)`. */
  datatype ChatMessage = ChatMessage(id: int, sender: string, message: string)

  /** A storage call's result dictionary: its "status" and, when present, its "message". */
  datatype StorageReply = StorageReply(status: string, message: Option<string>)

  /** `read_messages`'s result: its "status" and, when present, its "messages". */
  datatype ReadReply = ReadReply(status: string, messages: Option<seq<ChatMessage>>)

  /** `chat_pb2.ReadMessagesResponse(status, messages)`. */
  datatype ReadResponse = ReadResponse(status: string, messages: seq<ChatMessage>)

  /** What one `stub.ReplicateMessage` call gave: a response with a status, or a `grpc.RpcError`. */
  datatype ReplicaReply = Replied(status: string) | RpcError

  /** A call the service makes to its own storage or to a replica. */
  datatype Event =
    | LoginRegister(username: string, password: string)
    | StoreMessage(sender: string, recipient: string, text: string, status: string)
    | Replicate(replica: string, message: ChatMessage, recipient: string)
    | ReadStored(username: string, limit: int)
    | DeleteStoredAccount(username: string, password: string)

  /** `response.get("message", "")`. */
  function MessageOf(reply: StorageReply): string {
    match reply.message
    case Some(m) => m
    case None => ""
  }

  /** `max(0, min(limit, 10))`. */
  function ClampLimit(limit: int): (r: int)
    ensures 0 <= r <= MAX_READ
    ensures 0 <= limit <= MAX_READ ==> r == limit
    ensures limit < 0 ==> r == 0
    ensures limit > MAX_READ ==> r == MAX_READ
  {
    var low := if limit < MAX_READ then limit else MAX_READ;
    if 0 < low then low else 0
  }

  /** The number of replicas that answered "success"; a failed call counts nothing. */
  function Successes(outcomes: seq<ReplicaReply>): nat {
    if outcomes == [] then 0
    else Successes(outcomes[..|outcomes| - 1]) + (if outcomes[|outcomes| - 1] == Replied(SUCCESS) then 1 else 0)
  }

  /** `ack_count` after the replica loop: the leader's own write plus one per successful replica. */
  function AckCount(outcomes: seq<ReplicaReply>): nat {
    1 + Successes(outcomes)
  }

  lemma {:induction false} SuccessesBound(outcomes: seq<ReplicaReply>)
    ensures Successes(outcomes) <= |outcomes|
    decreases |outcomes|
  {
    if outcomes != [] {
      SuccessesBound(outcomes[..|outcomes| - 1]);
    }
  }

  /** The quorum test `ack_count >= 2` holds exactly when some replica answered "success": one
      acknowledgement is enough, and with no replicas the write is always reported as failed. */
  lemma {:induction false} QuorumIff(outcomes: seq<ReplicaReply>)
    ensures AckCount(outcomes) >= 2 <==> exists j :: 0 <= j < |outcomes| && outcomes[j] == Replied(SUCCESS)
    decreases |outcomes|
  {
    if outcomes != [] {
      var init := outcomes[..|outcomes| - 1];
      QuorumIff(init);
      if exists j :: 0 <= j < |init| && init[j] == Replied(SUCCESS) {
        var j :| 0 <= j < |init| && init[j] == Replied(SUCCESS);
        assert outcomes[j] == init[j];
      }
      if exists j :: 0 <= j < |outcomes| && outcomes[j] == Replied(SUCCESS) {
        var j :| 0 <= j < |outcomes| && outcomes[j] == Replied(SUCCESS);
        if j < |init| {
          assert init[j] == outcomes[j];
        }
      }
    }
  }

  /** The replication calls the leader's loop makes, one per replica in order. */
  function ReplicaCalls(replicas: seq<string>, message: ChatMessage, recipient: string): seq<Event> {
    if replicas == [] then []
    else ReplicaCalls(replicas[..|replicas| - 1], message, recipient)
           + [Replicate(replicas[|replicas| - 1], message, recipient)]
  }

  lemma {:induction false} ReplicaCallsEach(replicas: seq<string>, message: ChatMessage, recipient: string)
    ensures |ReplicaCalls(replicas, message, recipient)| == |replicas|
    ensures forall j :: 0 <= j < |replicas| ==>
              ReplicaCalls(replicas, message, recipient)[j] == Replicate(replicas[j], message, recipient)
    decreases |replicas|
  {
    if replicas != [] {
      ReplicaCallsEach(replicas[..|replicas| - 1], message, recipient);
    }
  }

  class ChatService {
    /** username -> the messages waiting for the user's `ListenForMessages` stream. */
    var onlineUsers: map<string, seq<ChatMessage>>
    const isLeader: bool
    /** The addresses of the replicas a leader forwards writes to. */
    const replicas: seq<string>
    /** Every storage and replica call made so far, in order. */
    var trace: seq<Event>

    /** `ChatService(is_leader, replica_addresses)`: a leader given a non-empty address list
        replicates to those addresses, any other server to none. */
    constructor (isLeader: bool, replicaAddresses: Option<seq<string>>)
      ensures this.isLeader == isLeader
      ensures replicas == if isLeader && replicaAddresses.Some? && replicaAddresses.value != []
                          then replicaAddresses.value else []
      ensures onlineUsers == map[] && trace == []
    {
      this.isLeader := isLeader;
      if isLeader && replicaAddresses.Some? && replicaAddresses.value != [] {
        replicas := replicaAddresses.value;
      } else {
        replicas := [];
      }
      onlineUsers := map[];
      trace := [];
    }

    /** `Login`: the user goes online with an empty queue exactly when the storage reports success. */
    method Login(username: string, password: string, reply: StorageReply) returns (r: Response)
      modifies this
      ensures onlineUsers == if reply.status == SUCCESS then old(onlineUsers)[username := []] else old(onlineUsers)
      ensures trace == old(trace) + [LoginRegister(username, password)]
      ensures r == Response(reply.status, MessageOf(reply))
    {
      trace := trace + [LoginRegister(username, password)];
      if reply.status == SUCCESS {
        onlineUsers := onlineUsers[username := []];
      }
      r := Response(reply.status, MessageOf(reply));
    }

    /** `Logout`: the user is offline afterwards, whether or not it was online; always a success. */
    method Logout(username: string) returns (r: Response)
      modifies this
      ensures onlineUsers == old(onlineUsers) - {username}
      ensures trace == old(trace)
      ensures r == Response(SUCCESS, LOGGED_OUT)
    {
      onlineUsers := onlineUsers - {username};
      r := Response(SUCCESS, LOGGED_OUT);
    }

    /** `SendMessage`, with `int(time.time())` as `now` and the reply of each replica in order. A
        follower refuses without calling anything; the leader stores the message, then asks every
        replica in order, and reports success exactly when the acknowledgements reach two. */
    method SendMessage(username: string, recipient: string, text: string, now: int,
                       outcomes: seq<ReplicaReply>) returns (r: Response)
      requires |outcomes| == |replicas|
      modifies this
      ensures onlineUsers == old(onlineUsers)
      ensures !isLeader ==> r == Response(ERROR, NOT_LEADER) && trace == old(trace)
      ensures isLeader ==>
                trace == old(trace) + [StoreMessage(username, recipient, text, "read")]
                         + ReplicaCalls(replicas, ChatMessage(now, username, text), recipient)
      ensures isLeader ==> r == if AckCount(outcomes) >= 2 then Response(SUCCESS, REPLICATED) else Response(ERROR, NO_QUORUM)
    {
      if !isLeader {
        return Response(ERROR, NOT_LEADER);
      }
      var message := ChatMessage(now, username, text);
      trace := trace + [StoreMessage(username, recipient, text, "read")];
      ghost var stored := trace;
      var ackCount := 1;
      for i := 0 to |replicas|
        invariant ackCount == 1 + Successes(outcomes[..i])
        invariant trace == stored + ReplicaCalls(replicas[..i], message, recipient)
        invariant onlineUsers == old(onlineUsers)
      {
        trace := trace + [Replicate(replicas[i], message, recipient)];
        assert replicas[..i + 1][..i] == replicas[..i];
        assert outcomes[..i + 1][..i] == outcomes[..i];
        if outcomes[i] == Replied(SUCCESS) {
          ackCount := ackCount + 1;
        }
      }
      assert replicas[..|replicas|] == replicas;
      assert outcomes[..|outcomes|] == outcomes;
      if ackCount >= 2 {
        r := Response(SUCCESS, REPLICATED);
      } else {
        r := Response(ERROR, NO_QUORUM);
      }
    }

    /** `ReadMessages`: a limit clamped to 0 answers at once with no messages and without reading
        the storage; otherwise the storage is read with the clamped limit and its answer passed on. */
    method ReadMessages(username: string, limit: int, reply: ReadReply) returns (r: ReadResponse)
      modifies this
      ensures onlineUsers == old(onlineUsers)
      ensures ClampLimit(limit) == 0 ==> r == ReadResponse(SUCCESS, []) && trace == old(trace)
      ensures ClampLimit(limit) != 0 ==>
                && trace == old(trace) + [ReadStored(username, ClampLimit(limit))]
                && r == ReadResponse(reply.status, if reply.messages.Some? then reply.messages.value else [])
    {
      var clamped := ClampLimit(limit);
      if clamped == 0 {
        return ReadResponse(SUCCESS, []);
      }
      trace := trace + [ReadStored(username, clamped)];
      var messages := if reply.messages.Some? then reply.messages.value else [];
      r := ReadResponse(reply.status, messages);
    }

    /** `DeleteAccount`: the user goes offline only when the storage reports success. */
    method DeleteAccount(username: string, password: string, reply: StorageReply) returns (r: Response)
      modifies this
      ensures onlineUsers == if reply.status == SUCCESS then old(onlineUsers) - {username} else old(onlineUsers)
      ensures trace == old(trace) + [DeleteStoredAccount(username, password)]
      ensures r == Response(reply.status, MessageOf(reply))
    {
      trace := trace + [DeleteStoredAccount(username, password)];
      if reply.status == SUCCESS {
        onlineUsers := onlineUsers - {username};
      }
      r := Response(reply.status, MessageOf(reply));
    }
  }
}
