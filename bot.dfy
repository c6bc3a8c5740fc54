/** `MatrixChatBot`: the buffer state of the chat listener and the part of `_handle_message`
    that filters an incoming event, stores it, and decides whether to answer. */
module Bot {
  import opened Options
  import opened Clock
  import opened History
  import opened Text
  import opened Context

  /** The parts of a Matrix text event (`RoomMessageText`) that the bot reads. */
  datatype RoomMessage = RoomMessage(sender: string, body: string, serverTimestamp: int)

  /** What `_handle_message` does with one event. */
  datatype Handling =
    | OtherRoom             // sent in a room other than the configured one: ignored
    | BeforeStart           // sent before the bot started: ignored
    | OwnMessage            // stored, but the bot does not answer its own account
    | Reply(prompt: string) // stored; `prompt` is the text handed to the chat model

  /** The two gates in front of the buffer: the configured room, and a server timestamp (in
      milliseconds) no earlier than the bot's start time (given in microseconds, so the
      comparison `ts < start_seconds * 1000` is exact). */
  predicate Admits(roomId: string, startTimeMicros: int, room: string, event: RoomMessage) {
    room == roomId && !(event.serverTimestamp * 1000 < startTimeMicros)
  }

  /** The time gate read as a threshold in milliseconds: an event in the configured room is
      admitted exactly when its server timestamp is at or after the first millisecond that does
      not precede the start time (the start time rounded up to whole milliseconds). */
  lemma AdmitsFromFirstMillisecond(roomId: string, startTimeMicros: int, room: string, event: RoomMessage)
    ensures var firstMillis := (startTimeMicros + 999) / 1000;
            Admits(roomId, startTimeMicros, room, event) <==> room == roomId && event.serverTimestamp >= firstMillis
  {
    var q := (startTimeMicros + 999) / 1000;
    var r := (startTimeMicros + 999) % 1000;
    assert startTimeMicros + 999 == 1000 * q + r && 0 <= r < 1000;
    var ts := event.serverTimestamp;
    if ts >= q {
      assert ts * 1000 >= q * 1000;
    } else {
      assert ts <= q - 1;
      assert ts * 1000 <= q * 1000 - 1000;
    }
  }

  /** Admission is monotone in time: a later event in an admitted room is admitted too. */
  lemma AdmitsLaterEvent(roomId: string, startTimeMicros: int, room: string, e1: RoomMessage, e2: RoomMessage)
    requires Admits(roomId, startTimeMicros, room, e1)
    requires e1.serverTimestamp <= e2.serverTimestamp
    ensures Admits(roomId, startTimeMicros, room, e2)
  {
    assert e1.serverTimestamp * 1000 <= e2.serverTimestamp * 1000;
  }

  /** One event as delivered to the listener: its room, the event, and the local time it arrived. */
  datatype Delivery = Delivery(room: string, event: RoomMessage, receivedAt: DateTime)

  /** The record the buffer keeps for a delivery. */
  function RecordOf(d: Delivery): Record {
    Record(d.event.sender, d.event.body, d.receivedAt)
  }

  /** The buffer after one delivery. */
  function Next(roomId: string, startTimeMicros: int, h: seq<Record>, d: Delivery): (r: seq<Record>)
    requires |h| <= Capacity
    ensures |r| <= Capacity
    ensures !Admits(roomId, startTimeMicros, d.room, d.event) ==> r == h
    ensures Admits(roomId, startTimeMicros, d.room, d.event) ==> r != [] && r[|r| - 1] == RecordOf(d)
  {
    if Admits(roomId, startTimeMicros, d.room, d.event) then BoundedAppend(h, RecordOf(d), Capacity) else h
  }

  /** The buffer after a stream of deliveries, handled one after the other. */
  function Replay(roomId: string, startTimeMicros: int, h: seq<Record>, ds: seq<Delivery>): (r: seq<Record>)
    requires |h| <= Capacity
    ensures |r| <= Capacity
    decreases |ds|
  {
    if ds == [] then h else Replay(roomId, startTimeMicros, Next(roomId, startTimeMicros, h, ds[0]), ds[1..])
  }

  /** The records of the deliveries that pass both gates, in arrival order. */
  function AdmittedRecords(roomId: string, startTimeMicros: int, ds: seq<Delivery>): seq<Record>
    decreases |ds|
  {
    if ds == [] then []
    else (if Admits(roomId, startTimeMicros, ds[0].room, ds[0].event) then [RecordOf(ds[0])] else [])
         + AdmittedRecords(roomId, startTimeMicros, ds[1..])
  }

  lemma {:induction false} ReplayIsAppendAll(roomId: string, startTimeMicros: int, h: seq<Record>, ds: seq<Delivery>)
    requires |h| <= Capacity
    ensures Replay(roomId, startTimeMicros, h, ds) == AppendAll(h, AdmittedRecords(roomId, startTimeMicros, ds), Capacity)
    decreases |ds|
  {
    if ds != [] {
      var h' := Next(roomId, startTimeMicros, h, ds[0]);
      var rest := AdmittedRecords(roomId, startTimeMicros, ds[1..]);
      ReplayIsAppendAll(roomId, startTimeMicros, h', ds[1..]);
      if Admits(roomId, startTimeMicros, ds[0].room, ds[0].event) {
        var xs := [RecordOf(ds[0])] + rest;
        assert xs[0] == RecordOf(ds[0]) && xs[1..] == rest;
      } else {
        assert AdmittedRecords(roomId, startTimeMicros, ds) == rest;
      }
    }
  }

  /** Whatever arrives, the buffer holds the newest ten admitted messages in arrival order;
      rejected events never enter it and older admitted ones have been evicted. */
  lemma ReplayKeepsNewestAdmitted(roomId: string, startTimeMicros: int, h: seq<Record>, ds: seq<Delivery>)
    requires |h| <= Capacity
    ensures Replay(roomId, startTimeMicros, h, ds) == Last(h + AdmittedRecords(roomId, startTimeMicros, ds), Capacity)
  {
    ReplayIsAppendAll(roomId, startTimeMicros, h, ds);
    AppendAllKeepsNewest(h, AdmittedRecords(roomId, startTimeMicros, ds), Capacity);
  }

  /** From a fresh buffer, the prompt after any stream of events lists exactly the newest ten
      admitted messages, oldest first: no rejected or evicted message reaches the model. */
  lemma PromptListsNewestAdmitted(roomId: string, startTimeMicros: int, systemUsername: Option<string>,
                                  ds: seq<Delivery>)
    requires AdmittedRecords(roomId, startTimeMicros, ds) != []
    ensures BuildConversationContext(Replay(roomId, startTimeMicros, [], ds), systemUsername)
            == Join('\n', [Header] + Lines(Last(AdmittedRecords(roomId, startTimeMicros, ds), Capacity), systemUsername, false))
               + ReplyInstruction
  {
    var admitted := AdmittedRecords(roomId, startTimeMicros, ds);
    ReplayKeepsNewestAdmitted(roomId, startTimeMicros, [], ds);
    assert [] + admitted == admitted;
    BuildListsWholeBuffer(Last(admitted, Capacity), systemUsername);
  }

  /** The prompt built right after an admitted message ends with that message's line and the
      reply instruction: "the most recent message" is the one just received. */
  lemma ReplyPromptEndsWithIncoming(roomId: string, startTimeMicros: int, systemUsername: Option<string>,
                                    h: seq<Record>, d: Delivery)
    requires |h| <= Capacity
    requires Admits(roomId, startTimeMicros, d.room, d.event)
    ensures var newest := "\n" + RenderLine(RecordOf(d), systemUsername, false) + ReplyInstruction;
            var prompt := BuildConversationContext(Next(roomId, startTimeMicros, h, d), systemUsername);
            |newest| <= |prompt| && prompt[|prompt| - |newest|..] == newest
  {
    BuildEndsWithNewest(Next(roomId, startTimeMicros, h, d), systemUsername);
  }

  class MatrixChatBot {
    const userId: string
    const roomId: string
    const systemUsername: Option<string>
    /** `start_time`, as microseconds since the Unix epoch. */
    const startTimeMicros: int
    /** `conversation_history`, oldest first. */
    var conversationHistory: seq<Record>

    /** The deque never holds more than its `maxlen`. */
    ghost predicate Valid()
      reads this
    {
      |conversationHistory| <= Capacity
    }

    /** A bot with an empty buffer; the clock reading taken at start-up is a parameter. */
    constructor (userId: string, roomId: string, systemUsername: Option<string>, startTimeMicros: int)
      ensures Valid()
      ensures this.userId == userId && this.roomId == roomId
      ensures this.systemUsername == systemUsername && this.startTimeMicros == startTimeMicros
      ensures conversationHistory == []
    {
      this.userId := userId;
      this.roomId := roomId;
      this.systemUsername := systemUsername;
      this.startTimeMicros := startTimeMicros;
      conversationHistory := [];
    }

    /** The filter-and-store part of `_handle_message`; `now` is the clock reading taken when
        the record is stored. */
    method HandleMessage(room: string, event: RoomMessage, now: DateTime) returns (handling: Handling)
      requires Valid()
      modifies this
      ensures Valid()
      ensures conversationHistory == Next(roomId, startTimeMicros, old(conversationHistory), Delivery(room, event, now))
      ensures room != roomId ==> handling == OtherRoom
      ensures room == roomId && event.serverTimestamp * 1000 < startTimeMicros ==> handling == BeforeStart
      ensures Admits(roomId, startTimeMicros, room, event) && event.sender == userId ==> handling == OwnMessage
      ensures Admits(roomId, startTimeMicros, room, event) && event.sender != userId
              ==> handling == Reply(BuildConversationContext(conversationHistory, systemUsername))
    {
      if room != roomId {
        return OtherRoom;
      }
      if event.serverTimestamp * 1000 < startTimeMicros {
        return BeforeStart;
      }
      var history := conversationHistory + [Record(event.sender, event.body, now)];
      if |history| > Capacity {
        history := history[1..];
      }
      conversationHistory := history;
      if event.sender == userId {
        return OwnMessage;
      }
      handling := Reply(BuildConversationContext(conversationHistory, systemUsername));
    }
  }
}
