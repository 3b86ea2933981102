/** The Lamport logical-clock virtual machine of HW3/run.py: messages carry the sender's clock as
    JSON, and every iteration of `run` either processes the oldest queued message with the receive
    rule or performs one send, broadcast or internal event, each advancing the clock by one. */
module LamportVm {
  import opened Wrappers
  import opened Bytes
  import opened Decimal
  import opened Search

  /** `Message(clock, sender)`. */
  datatype Message = Message(clock: int, sender: int)

  /** A connection to `localhost:port` carrying one UTF-8 JSON text. */
  datatype Packet = Packet(port: int, payload: seq<byte>)

  const BASE_PORT: int := 5000

  /** `{"clock": ` : json.dumps writes keys in insertion order with ", " and ": " separators. */
  const OPEN: seq<byte> := [0x7B, 0x22, 0x63, 0x6C, 0x6F, 0x63, 0x6B, 0x22, 0x3A, 0x20]
  /** `, "sender": ` */
  const MIDDLE: seq<byte> := [0x2C, 0x20, 0x22, 0x73, 0x65, 0x6E, 0x64, 0x65, 0x72, 0x22, 0x3A, 0x20]
  const COMMA: byte := 0x2C
  const CLOSE: byte := 0x7D  // '}'

  /** `to_json`: `json.dumps({"clock": clock, "sender": sender})`, the decimal clock and sender
      between the key texts inside braces. */
  function ToJson(m: Message): (r: seq<byte>)
    ensures |r| > |OPEN| && r[..|OPEN|] == OPEN && r[|r| - 1] == CLOSE
  {
    var c, d := Dec(m.clock), Dec(m.sender);
    OuterShape(c, d);
    OPEN + c + MIDDLE + d + [CLOSE]
  }

  /** `from_json` on the texts `json.dumps` writes for a two-key object of integers: None where
      `json.loads` would raise or the key lookup would fail. */
  function FromJson(s: seq<byte>): (r: Option<Message>)
    ensures r.Some? ==> exists c, d :: s == OPEN + c + MIDDLE + d + [CLOSE]
                                       && JsonInt(c) == Some(r.value.clock) && JsonInt(d) == Some(r.value.sender)
  {
    if |s| < |OPEN| + 1 || s[..|OPEN|] != OPEN || s[|s| - 1] != CLOSE then None
    else
      var inner := s[|OPEN|..|s| - 1];
      match IndexOf(inner, COMMA)
      case None => None
      case Some(i) =>
        var tail := inner[i..];
        if |tail| < |MIDDLE| || tail[..|MIDDLE|] != MIDDLE then None
        else
          match (JsonInt(inner[..i]), JsonInt(tail[|MIDDLE|..]))
          case (Some(clock), Some(sender)) =>
            Reassemble(s, i, clock, sender);
            Some(Message(clock, sender))
          case _ => None
  }

  /** A text `from_json` reads, with the first comma inside the braces at i, is the braces and the
      two keys around the two numbers it reads. */
  lemma Reassemble(s: seq<byte>, i: nat, clock: int, sender: int)
    requires |s| >= |OPEN| + 1 && s[..|OPEN|] == OPEN && s[|s| - 1] == CLOSE
    requires var inner := s[|OPEN|..|s| - 1];
             && i <= |inner| && |inner[i..]| >= |MIDDLE| && inner[i..][..|MIDDLE|] == MIDDLE
             && JsonInt(inner[..i]) == Some(clock) && JsonInt(inner[i..][|MIDDLE|..]) == Some(sender)
    ensures exists c, d :: s == OPEN + c + MIDDLE + d + [CLOSE]
                           && JsonInt(c) == Some(clock) && JsonInt(d) == Some(sender)
  {
    var inner := s[|OPEN|..|s| - 1];
    var c, d := inner[..i], inner[i..][|MIDDLE|..];
    assert inner == c + MIDDLE + d by {
      assert inner[i..] == MIDDLE + d;
    }
    Surround(s, |OPEN|);
    assert s == OPEN + c + MIDDLE + d + [CLOSE];
  }

  /** A text is its first k bytes, its inside and its last byte. */
  lemma Surround(s: seq<byte>, k: nat)
    requires k < |s|
    ensures s == s[..k] + s[k..|s| - 1] + [s[|s| - 1]]
  {
  }

  /** `str(n)` holds no comma. */
  lemma DecNoComma(n: int)
    ensures COMMA !in Dec(n)
  {
    DecCharacters(n);
  }

  /** The outer shape of a `to_json` text: the braces and the first key around the rest. */
  lemma OuterShape(c: seq<byte>, d: seq<byte>)
    ensures var s := OPEN + c + MIDDLE + d + [CLOSE];
            && |s| >= |OPEN| + 1 && s[..|OPEN|] == OPEN && s[|s| - 1] == CLOSE
            && s[|OPEN|..|s| - 1] == c + MIDDLE + d
  {
    var s := OPEN + c + MIDDLE + d + [CLOSE];
    assert s == OPEN + (c + MIDDLE + d) + [CLOSE];
  }

  /** Between the braces, the first comma ends the clock's digits and starts the second key. */
  lemma InnerShape(c: seq<byte>, d: seq<byte>)
    requires COMMA !in c
    ensures var inner := c + MIDDLE + d;
            && IndexOf(inner, COMMA) == Some(|c|)
            && inner[..|c|] == c && inner[|c|..] == MIDDLE + d
  {
    assert MIDDLE == [COMMA] + MIDDLE[1..];
    assert c + MIDDLE + d == c + [COMMA] + (MIDDLE[1..] + d);
    IndexOfAt(c, COMMA, MIDDLE[1..] + d);
  }

  /** `Message.from_json(m.to_json())` has m's clock and sender. */
  lemma JsonRoundTrip(m: Message)
    ensures FromJson(ToJson(m)) == Some(m)
  {
    var c, d := Dec(m.clock), Dec(m.sender);
    OuterShape(c, d);
    DecNoComma(m.clock);
    InnerShape(c, d);
    var tail := MIDDLE + d;
    assert tail[..|MIDDLE|] == MIDDLE && tail[|MIDDLE|..] == d;
    JsonIntDec(m.clock);
    JsonIntDec(m.sender);
  }

  /** The Lamport receive rule of `process_message`: one past the larger of the two clocks. */
  function ReceiveRule(local: int, received: int): (r: int)
    ensures r > local && r > received
    ensures r == local + 1 || r == received + 1
  {
    (if local >= received then local else received) + 1
  }

  /** The packets a broadcast sends, one per target in order, each carrying m. */
  function Broadcast(targets: seq<int>, m: Message): seq<Packet> {
    if targets == [] then []
    else Broadcast(targets[..|targets| - 1], m) + [Packet(BASE_PORT + targets[|targets| - 1], ToJson(m))]
  }

  lemma {:induction false} BroadcastPackets(targets: seq<int>, m: Message)
    ensures |Broadcast(targets, m)| == |targets|
    ensures forall j :: 0 <= j < |targets| ==>
              Broadcast(targets, m)[j] == Packet(BASE_PORT + targets[j], ToJson(m))
    decreases |targets|
  {
    if targets != [] {
      BroadcastPackets(targets[..|targets| - 1], m);
    }
  }

  /** The part of a machine's state one iteration of `run` changes. */
  datatype State = State(clock: int, queue: seq<Message>)

  /** One iteration of `run` for machine `id`: `action` is the value random.randint(1, 10) gives
      when the queue is empty (it is not drawn otherwise). */
  function Next(id: int, peer1: int, peer2: int, peers: seq<int>, s: State, action: int): (State, seq<Packet>) {
    if s.queue != [] then
      (State(ReceiveRule(s.clock, s.queue[0].clock), s.queue[1..]), [])
    else
      var m := Message(s.clock, id);
      var sent :=
        if action == 1 then [Packet(BASE_PORT + peer1, ToJson(m))]
        else if action == 2 then [Packet(BASE_PORT + peer2, ToJson(m))]
        else if action == 3 then Broadcast(peers, m)
        else [];
      (State(s.clock + 1, s.queue), sent)
  }

  /** With an empty queue the clock advances by exactly one; action 1 and 2 send one message to
      their peer, 3 one to every peer in order, anything else nothing; every message carries the clock
      from before the step and the machine's id. */
  lemma {:induction false} NextActs(id: int, peer1: int, peer2: int, peers: seq<int>, s: State, action: int)
    requires s.queue == []
    ensures var (s', sent) := Next(id, peer1, peer2, peers, s, action);
            && s' == State(s.clock + 1, [])
            && |sent| == (if action == 1 || action == 2 then 1 else if action == 3 then |peers| else 0)
            && (action == 1 ==> sent[0].port == BASE_PORT + peer1)
            && (action == 2 ==> sent[0].port == BASE_PORT + peer2)
            && (action == 3 ==> forall j :: 0 <= j < |peers| ==> sent[j].port == BASE_PORT + peers[j])
            && forall j :: 0 <= j < |sent| ==> sent[j].payload == ToJson(Message(s.clock, id))
  {
    if action == 3 {
      BroadcastPackets(peers, Message(s.clock, id));
    }
  }

  /** Lamport's clock condition across one message: whatever a receiver's clock was, after it
      processes a message sent in a step its clock exceeds the sender's clock at the send, and so does
      the sender's own clock after the step. */
  lemma {:induction false} SendHappensBefore(id: int, peer1: int, peer2: int, peers: seq<int>, s: State,
                                            action: int, j: nat, receiverClock: int)
    requires j < |Next(id, peer1, peer2, peers, s, action).1|
    ensures var (s', sent) := Next(id, peer1, peer2, peers, s, action);
            && FromJson(sent[j].payload).Some?
            && var m := FromJson(sent[j].payload).value;
               m.clock < s'.clock && m.clock < ReceiveRule(receiverClock, m.clock)
  {
    var m := Message(s.clock, id);
    NextActs(id, peer1, peer2, peers, s, action);
    JsonRoundTrip(m);
    assert FromJson(Next(id, peer1, peer2, peers, s, action).1[j].payload) == Some(m);
  }

  /** Several iterations of `run`, with the draw of each; the packets in the order sent. */
  function Run(id: int, peer1: int, peer2: int, peers: seq<int>, s: State, actions: seq<int>): (State, seq<Packet>)
    decreases |actions|
  {
    if actions == [] then (s, [])
    else
      var (s1, sent1) := Run(id, peer1, peer2, peers, s, actions[..|actions| - 1]);
      var (s2, sent2) := Next(id, peer1, peer2, peers, s1, actions[|actions| - 1]);
      (s2, sent1 + sent2)
  }

  /** The clock is monotonic: n iterations advance it by at least n. */
  lemma {:induction false} RunClock(id: int, peer1: int, peer2: int, peers: seq<int>, s: State, actions: seq<int>)
    ensures Run(id, peer1, peer2, peers, s, actions).0.clock >= s.clock + |actions|
    decreases |actions|
  {
    if actions != [] {
      RunClock(id, peer1, peer2, peers, s, actions[..|actions| - 1]);
    }
  }

  /** The queue is served first in, first out: while messages remain, n iterations remove exactly
      the n oldest and send nothing. */
  lemma {:induction false} RunDrains(id: int, peer1: int, peer2: int, peers: seq<int>, s: State, actions: seq<int>)
    requires |actions| <= |s.queue|
    ensures Run(id, peer1, peer2, peers, s, actions).0.queue == s.queue[|actions|..]
    ensures Run(id, peer1, peer2, peers, s, actions).1 == []
    decreases |actions|
  {
    if actions != [] {
      RunDrains(id, peer1, peer2, peers, s, actions[..|actions| - 1]);
    }
  }

  class VirtualMachine {
    const id: int
    const peers: seq<int>
    const peerForAction1: int
    const peerForAction2: int
    /** Iterations per second of `run`; it only sets the sleep between them. */
    const clockSpeed: int
    var logicalClock: int
    var messageQueue: seq<Message>
    var running: bool

    /** `VirtualMachine(id, peers)`, with the value random.randint(1, 6) gave for the clock speed; the
        first two peers are the targets of actions 1 and 2. */
    constructor (id: int, peers: seq<int>, clockSpeed: int)
      requires |peers| >= 2
      requires 1 <= clockSpeed <= 6
      ensures this.id == id && this.peers == peers && this.clockSpeed == clockSpeed
      ensures peerForAction1 == peers[0] && peerForAction2 == peers[1]
      ensures logicalClock == 0 && messageQueue == [] && running
    {
      this.id := id;
      this.peers := peers;
      this.clockSpeed := clockSpeed;
      peerForAction1 := peers[0];
      peerForAction2 := peers[1];
      logicalClock := 0;
      messageQueue := [];
      running := true;
    }

    /** What `listen_for_messages` does with the text of one connection: a non-empty text is decoded
        and appended to the queue; false where `from_json` raises, leaving the queue as it was. */
    method Deliver(data: seq<byte>) returns (ok: bool)
      modifies this
      ensures ok <==> data == [] || FromJson(data).Some?
      ensures messageQueue == if data != [] && ok then old(messageQueue) + [FromJson(data).value] else old(messageQueue)
      ensures logicalClock == old(logicalClock) && running == old(running)
    {
      ok := true;
      if data != [] {
        var m := FromJson(data);
        if m.None? {
          return false;
        }
        messageQueue := messageQueue + [m.value];
      }
    }

    /** `send_message(target_id)`: the current clock and the id, as JSON, to port 5000 + target_id. */
    method SendMessage(targetId: int) returns (p: Packet)
      ensures p == Packet(BASE_PORT + targetId, ToJson(Message(logicalClock, id)))
    {
      var message := Message(logicalClock, id);
      p := Packet(BASE_PORT + targetId, ToJson(message));
    }

    /** `process_message`: the receive rule; the queue is left alone. */
    method ProcessMessage(message: Message)
      modifies this
      ensures logicalClock == ReceiveRule(old(logicalClock), message.clock)
      ensures messageQueue == old(messageQueue) && running == old(running)
    {
      logicalClock := if logicalClock >= message.clock then logicalClock + 1 else message.clock + 1;
    }

    /** Action 3's loop: one `send_message` per peer, in order. */
    method SendToAll() returns (sent: seq<Packet>)
      ensures sent == Broadcast(peers, Message(logicalClock, id))
    {
      sent := [];
      for j := 0 to |peers|
        invariant sent == Broadcast(peers[..j], Message(logicalClock, id))
      {
        var p := SendMessage(peers[j]);
        assert peers[..j + 1][..j] == peers[..j];
        sent := sent + [p];
      }
      assert peers[..|peers|] == peers;
    }

    /** One iteration of `run`'s loop body, returning what it sent. */
    method Step(action: int) returns (sent: seq<Packet>)
      modifies this
      ensures (State(logicalClock, messageQueue), sent)
              == Next(id, peerForAction1, peerForAction2, peers, State(old(logicalClock), old(messageQueue)), action)
      ensures running == old(running)
    {
      if messageQueue != [] {
        var message := messageQueue[0];
        messageQueue := messageQueue[1..];
        ProcessMessage(message);
        sent := [];
      } else if action == 1 {
        var p := SendMessage(peerForAction1);
        logicalClock := logicalClock + 1;
        sent := [p];
      } else if action == 2 {
        var p := SendMessage(peerForAction2);
        logicalClock := logicalClock + 1;
        sent := [p];
      } else if action == 3 {
        sent := SendToAll();
        logicalClock := logicalClock + 1;
      } else {
        logicalClock := logicalClock + 1;
        sent := [];
      }
    }

    /** `run`: while the machine is running, one iteration per draw; nothing when it is stopped (the
        flag is only cleared from outside). */
    method RunLoop(actions: seq<int>) returns (sent: seq<Packet>)
      modifies this
      ensures running == old(running)
      ensures old(running) ==>
                (State(logicalClock, messageQueue), sent)
                == Run(id, peerForAction1, peerForAction2, peers, State(old(logicalClock), old(messageQueue)), actions)
      ensures !old(running) ==> logicalClock == old(logicalClock) && messageQueue == old(messageQueue) && sent == []
    {
      sent := [];
      if !running {
        return;
      }
      var i := 0;
      while i < |actions| && running
        invariant 0 <= i <= |actions| && running
        invariant (State(logicalClock, messageQueue), sent)
                  == Run(id, peerForAction1, peerForAction2, peers, State(old(logicalClock), old(messageQueue)), actions[..i])
        decreases |actions| - i
      {
        var step := Step(actions[i]);
        sent := sent + step;
        assert actions[..i + 1][..i] == actions[..i];
        i := i + 1;
      }
      assert actions[..|actions|] == actions;
    }
  }
}
