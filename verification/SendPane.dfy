/** One send from the conversation pane: the streamed events of a reply are
    folded into the message list and the streaming bubble. */
module SendPane {
  import opened Text
  import opened LineSplit
  import opened FrameReader

  datatype StreamEvent =
    | Run(runId: string)
    | Delta(text: string)
    | Done(model: Option<string>)
    | Error(message: string)
    | Ignored
  {
    predicate Ends() { Done? || Error? }
  }

  datatype Role = User | Assistant

  datatype Message = Message(role: Role, content: string, model: Option<string>, error: Option<string>)

  // ------------------------------------------------ what one reply amounts to

  /** The text received so far. */
  function DeltaText(events: seq<StreamEvent>): string {
    if events == [] then ""
    else
      var last := events[|events| - 1];
      DeltaText(events[..|events| - 1]) + (if last.Delta? then last.text else "")
  }

  /** The message that an ending event posts, given the text before it. */
  function Posted(event: StreamEvent, content: string): Message
    requires event.Ends()
  {
    match event
    case Done(model) => Message(Assistant, content, model, None)
    case Error(message) => Message(Assistant, content, None, Some(message))
  }

  /** How many messages a run of events posts. */
  function Endings(events: seq<StreamEvent>): nat {
    if events == [] then 0
    else Endings(events[..|events| - 1]) + (if events[|events| - 1].Ends() then 1 else 0)
  }

  /** The bubble is showing text unless the last event that touched it ended the reply. */
  predicate Showing(events: seq<StreamEvent>) {
    forall i :: 0 <= i < |events| && events[i].Ends() ==>
      exists j :: i < j < |events| && events[j].Delta?
  }

  /** The state the event handler updates. */
  datatype Turn = Turn(assembled: string, messages: seq<Message>, streaming: Option<string>)

  function Handle(turn: Turn, event: StreamEvent): Turn {
    match event
    case Delta(text) =>
      turn.(assembled := turn.assembled + text, streaming := Some(turn.assembled + text))
    case Done(model) =>
      turn.(messages := turn.messages + [Message(Assistant, turn.assembled, model, None)], streaming := None)
    case Error(message) =>
      turn.(messages := turn.messages + [Message(Assistant, turn.assembled, None, Some(message))], streaming := None)
    case Run(_) => turn
    case Ignored => turn
  }

  function Replay(turn: Turn, events: seq<StreamEvent>): Turn {
    if events == [] then turn
    else Handle(Replay(turn, events[..|events| - 1]), events[|events| - 1])
  }

  function Opening(messages: seq<Message>): Turn {
    Turn("", messages, Some(""))
  }

  lemma {:induction false} ReplayAppend(turn: Turn, a: seq<StreamEvent>, b: seq<StreamEvent>)
    ensures Replay(turn, a + b) == Replay(Replay(turn, a), b)
  {
    if b == [] {
      assert a + b == a;
    } else {
      var n := |b| - 1;
      assert (a + b)[..|a + b| - 1] == a + b[..n] && (a + b)[|a + b| - 1] == b[n];
      ReplayAppend(turn, a, b[..n]);
    }
  }

  /** Replay in closed form: earlier messages are untouched, one message is posted
      per ending event, and the bubble shows all text received so far or nothing. */
  lemma {:induction false} ReplayClosedForm(messages: seq<Message>, events: seq<StreamEvent>)
    ensures var turn := Replay(Opening(messages), events);
            && turn.assembled == DeltaText(events)
            && |turn.messages| == |messages| + Endings(events)
            && messages <= turn.messages
            && turn.streaming == (if Showing(events) then Some(DeltaText(events)) else None)
  {
    if events != [] {
      var n := |events| - 1;
      ReplayClosedForm(messages, events[..n]);
      ShowingStep(events);
      assert DeltaText(events[..n]) + "" == DeltaText(events[..n]);
    }
  }

  lemma ShowingStep(events: seq<StreamEvent>)
    requires events != []
    ensures var n := |events| - 1;
            Showing(events) ==
            if events[n].Delta? then true else if events[n].Ends() then false else Showing(events[..n])
  {
    var n := |events| - 1;
    var before := events[..n];
    if !events[n].Delta? && !events[n].Ends() {
      if Showing(events) {
        forall i | 0 <= i < n && before[i].Ends()
          ensures exists j :: i < j < n && before[j].Delta?
        {
          assert events[i].Ends();
          var j :| i < j < |events| && events[j].Delta?;
          assert before[j].Delta?;
        }
      }
      if Showing(before) {
        forall i | 0 <= i < |events| && events[i].Ends()
          ensures exists j :: i < j < |events| && events[j].Delta?
        {
          assert before[i].Ends();
          var j :| i < j < n && before[j].Delta?;
          assert events[j].Delta?;
        }
      }
    }
  }

  /** Every message pushed on `Done` or `Error` carries the concatenation of all
      the text before it, whatever ended in between. */
  lemma {:induction false} PostedContent(messages: seq<Message>, events: seq<StreamEvent>, i: nat)
    requires i < |events| && events[i].Ends()
    ensures Endings(events[..i]) < Endings(events)
    ensures |Replay(Opening(messages), events).messages| == |messages| + Endings(events)
    ensures Replay(Opening(messages), events).messages[|messages| + Endings(events[..i])]
         == Posted(events[i], DeltaText(events[..i]))
    ensures var posted := Posted(events[i], DeltaText(events[..i]));
            && posted.role == Assistant && posted.content == DeltaText(events[..i])
            && posted.model == (if events[i].Done? then events[i].model else None)
            && posted.error == (if events[i].Error? then Some(events[i].message) else None)
  {
    var n := |events| - 1;
    var before := events[..n];
    ReplayClosedForm(messages, events);
    ReplayClosedForm(messages, before);
    if i < n {
      PostedContent(messages, before, i);
      assert before[..i] == events[..i];
    }
  }

  // ------------------------------------------------------------------ the pane

  /** What comes back from the request: refused before any body, a plain JSON
      acknowledgement, or a byte stream that may break off with an error. */
  datatype Reply =
    | Refused(error: string)
    | Acknowledged
    | Streamed(chunks: seq<seq<Byte>>, failure: Option<string>)

  function ReplyEvents(wire: Wire<StreamEvent>, reply: Reply): seq<StreamEvent> {
    if reply.Streamed? then FedEvents(Reading(wire), [], Flat(reply.chunks)) else []
  }

  function ReplyError(reply: Reply): Option<string> {
    match reply
    case Refused(error) => Some(error)
    case Acknowledged => None
    case Streamed(_, failure) => failure
  }

  class Pane {
    var messages: seq<Message>
    var streaming: Option<string>
    var sending: bool
    var loadError: Option<string>
    var threadRefresh: nat
    var assembled: string

    constructor ()
      ensures messages == [] && streaming == None && !sending && loadError == None && threadRefresh == 0
    {
      messages, streaming, sending, loadError, threadRefresh, assembled := [], None, false, None, 0, "";
    }

    ghost function Current(): Turn
      reads this
    {
      Turn(assembled, messages, streaming)
    }

    method OnEvent(event: StreamEvent)
      modifies this`assembled, this`messages, this`streaming
      ensures Current() == Handle(old(Current()), event)
    {
      match event
      case Delta(text) =>
        assembled := assembled + text;
        streaming := Some(assembled);
      case Done(model) =>
        messages := messages + [Message(Assistant, assembled, model, None)];
        streaming := None;
      case Error(message) =>
        messages := messages + [Message(Assistant, assembled, None, Some(message))];
        streaming := None;
      case Run(_) =>
      case Ignored =>
    }

    method OnEvents(events: seq<StreamEvent>)
      modifies this`assembled, this`messages, this`streaming
      ensures Current() == Replay(old(Current()), events)
    {
      for e := 0 to |events|
        invariant Current() == Replay(old(Current()), events[..e])
      {
        OnEvent(events[e]);
        assert events[..e + 1][..e] == events[..e];
      }
      assert events[..|events|] == events;
    }

    /** The chunk loop: every event of every chunk, in order. */
    method Receive(wire: Wire<StreamEvent>, chunks: seq<seq<Byte>>)
      modifies this`assembled, this`messages, this`streaming
      ensures Current() == Replay(old(Current()), FedEvents(Reading(wire), [], Flat(chunks)))
    {
      var buffer := new ByteBuffer();
      ghost var read := Reading(wire);
      ghost var seen := [];
      for c := 0 to |chunks|
        invariant Current() == Replay(old(Current()), seen)
        invariant FedAll(read, [], chunks).0 == seen + FedAll(read, buffer.bytes, chunks[c..]).0
      {
        FedAllStep(read, buffer.bytes, chunks, c);
        var events := Feed(wire, buffer, chunks[c]);
        OnEvents(events);
        ReplayAppend(old(Current()), seen, events);
        AppendIsAssociative(seen, events, FedAll(read, buffer.bytes, chunks[c + 1..]).0);
        seen := seen + events;
      }
      assert seen == FedAll(read, [], chunks).0;
      ChunkInvariance(read, [], chunks);
    }

    /** One send: the user's message, then whatever the reply amounts to. The
        outcome mentions the chunks only through their concatenation. */
    method Send(wire: Wire<StreamEvent>, text: string, reply: Reply)
      modifies this
      ensures var asked := old(messages) + [Message(User, text, None, None)];
              var final := Replay(Opening(asked), ReplyEvents(wire, reply));
              && messages == final.messages
              && streaming == (if ReplyError(reply).Some? then None else final.streaming)
      ensures loadError == (if ReplyError(reply).Some? then ReplyError(reply) else old(loadError))
      ensures !sending && threadRefresh == old(threadRefresh) + 1
    {
      messages := messages + [Message(User, text, None, None)];
      streaming := Some("");
      sending := true;
      assembled := "";
      var result := None;
      match reply {
        case Refused(error) => result := Some(error);
        case Acknowledged =>
        case Streamed(chunks, failure) =>
          Receive(wire, chunks);
          result := failure;
      }
      if result.Some? {
        streaming := None;
        loadError := result;
      }
      sending := false;
      threadRefresh := threadRefresh + 1;
    }
  }

  /** The whole outcome of a send depends only on the bytes received: any two
      cuttings that end the same way post the same messages and leave the same bubble. */
  lemma SendIgnoresChunking(wire: Wire<StreamEvent>, messages: seq<Message>, a: seq<seq<Byte>>, b: seq<seq<Byte>>)
    requires Flat(a) == Flat(b)
    ensures Replay(Opening(messages), FedAll(Reading(wire), [], a).0) ==
            Replay(Opening(messages), FedAll(Reading(wire), [], b).0)
  {
    ChunkInvariance(Reading(wire), [], a);
    ChunkInvariance(Reading(wire), [], b);
  }

  /** The accumulator is not reset between endings, so a second answer on one
      stream repeats the first one's text in front of its own. */
  lemma SecondAnswerRepeatsFirst(messages: seq<Message>, first: seq<StreamEvent>, end1: StreamEvent,
                                 second: seq<StreamEvent>, end2: StreamEvent)
    requires end1.Ends() && end2.Ends()
    ensures var turn := Replay(Opening(messages), first + [end1] + second + [end2]);
            && turn.messages != []
            && turn.messages[|turn.messages| - 1] == Posted(end2, DeltaText(first) + DeltaText(second))
  {
    var events := first + [end1] + second + [end2];
    var before := first + [end1] + second;
    assert events[..|events| - 1] == before;
    ReplayClosedForm(messages, before);
    DeltaTextAppend(first + [end1], second);
    DeltaTextAppend(first, [end1]);
    assert DeltaText([end1]) == "";
    assert DeltaText(first) + "" == DeltaText(first);
  }

  lemma {:induction false} DeltaTextAppend(a: seq<StreamEvent>, b: seq<StreamEvent>)
    ensures DeltaText(a + b) == DeltaText(a) + DeltaText(b)
  {
    if b == [] {
      assert a + b == a;
    } else {
      var n := |b| - 1;
      assert (a + b)[..|a + b| - 1] == a + b[..n] && (a + b)[|a + b| - 1] == b[n];
      DeltaTextAppend(a, b[..n]);
    }
  }
}
