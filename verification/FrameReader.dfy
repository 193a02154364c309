/** The incremental reader of a `data:` line stream: bytes arrive in chunks of
    any size, complete lines are drained from a buffer, and each line yields at
    most one event. Both the message stream and the change stream use it. */
module FrameReader {
  import opened Text
  import opened LineSplit

  const RETURN: Byte := 13

  /** What the reader is parameterised over: the lossy UTF-8 decoder and the
      payload parser, both total. */
  datatype Wire<!E> = Wire(lossy: seq<Byte> -> string, parse: string -> Option<E>)

  /** The line without a carriage return at its end. */
  function Bare(line: seq<Byte>): seq<Byte> {
    if line != [] && line[|line| - 1] == RETURN then line[..|line| - 1] else line
  }

  /** The trimmed payload of one line, if it is a non-empty `data:` line. */
  function Payload<E>(wire: Wire<E>, line: seq<Byte>): Option<string> {
    var text := wire.lossy(Bare(line));
    if !("data:" <= text) then None
    else
      var payload := Trim(text[5..]);
      if payload == "" then None else Some(payload)
  }

  function LineEvents<E>(wire: Wire<E>, line: seq<Byte>): seq<E> {
    match Payload(wire, line)
    case None => []
    case Some(payload) =>
      match wire.parse(payload)
      case None => []
      case Some(event) => [event]
  }

  /** The reading of one line, as a value. */
  function Reading<E>(wire: Wire<E>): seq<Byte> -> seq<E> {
    line => LineEvents(wire, line)
  }

  /** `text` is a data line around `payload`. */
  ghost predicate Carries(text: string, payload: string) {
    && Trimmed(payload)
    && exists pad, pad' :: AllWhite(pad) && AllWhite(pad') && text == "data:" + (pad + (payload + pad'))
  }

  lemma PayloadExactly<E>(wire: Wire<E>, line: seq<Byte>, payload: string)
    ensures Payload(wire, line) == Some(payload) <==> Carries(wire.lossy(Bare(line)), payload)
  {
    var text := wire.lossy(Bare(line));
    if Payload(wire, line) == Some(payload) {
      var pad, pad' := TrimSplits(text[5..]);
      assert text == "data:" + text[5..];
      assert text == "data:" + (pad + (payload + pad'));
    }
    if Carries(text, payload) {
      var pad, pad' :| AllWhite(pad) && AllWhite(pad') && text == "data:" + (pad + (payload + pad'));
      assert text[5..] == pad + (payload + pad');
      TrimPadded(pad, payload, pad');
    }
  }

  /** A line yields an event exactly when it decodes to `data:` and, somewhere between
      whitespace, the text of that event; and it never yields more than one. */
  lemma LineReadsExactly<E>(wire: Wire<E>, line: seq<Byte>, event: E)
    ensures LineEvents(wire, line) == [event] <==>
            exists payload :: Carries(wire.lossy(Bare(line)), payload) && wire.parse(payload) == Some(event)
    ensures |LineEvents(wire, line)| <= 1
  {
    if LineEvents(wire, line) == [event] {
      var payload := Payload(wire, line).value;
      PayloadExactly(wire, line, payload);
      assert wire.parse(payload) == Some(event);
    }
    if payload :| Carries(wire.lossy(Bare(line)), payload) && wire.parse(payload) == Some(event) {
      PayloadExactly(wire, line, payload);
    }
  }

  /** What a text says, wherever it comes from. */
  ghost predicate Says<E>(wire: Wire<E>, text: string, event: E) {
    exists payload :: Carries(text, payload) && wire.parse(payload) == Some(event)
  }

  /** One carriage return at the end is no part of the line, a second one is; and a line that
      does not decode to the prefix yields nothing. */
  lemma ReturnAndPrefix<E>(wire: Wire<E>, line: seq<Byte>, event: E)
    ensures LineEvents(wire, line + [RETURN]) == [event] <==> Says(wire, wire.lossy(line), event)
    ensures line == [] || line[|line| - 1] != RETURN ==>
              (LineEvents(wire, line) == [event] <==> Says(wire, wire.lossy(line), event))
    ensures !("data:" <= wire.lossy(line)) ==> LineEvents(wire, line + [RETURN]) == []
  {
    var returned := line + [RETURN];
    assert returned[..|returned| - 1] == line;
    LineReadsExactly(wire, returned, event);
    LineReadsExactly(wire, line, event);
  }

  // --------------------------------------------------------------- the reader

  /** The caller-owned byte buffer that the reader extends and drains in place. */
  class ByteBuffer {
    var bytes: seq<Byte>

    constructor ()
      ensures bytes == []
    {
      bytes := [];
    }
  }

  method Feed<E>(wire: Wire<E>, buffer: ByteBuffer, chunk: seq<Byte>) returns (events: seq<E>)
    modifies buffer
    ensures events == FedEvents(Reading(wire), old(buffer.bytes), chunk)
    ensures buffer.bytes == Rest(old(buffer.bytes) + chunk)
  {
    buffer.bytes := buffer.bytes + chunk;
    ghost var whole := buffer.bytes;
    events := [];
    var pos := FirstNewline(buffer.bytes);
    while pos < |buffer.bytes|
      invariant pos == FirstNewline(buffer.bytes) <= |buffer.bytes|
      invariant Decoded(Reading(wire), Lines(whole)) == events + Decoded(Reading(wire), Lines(buffer.bytes))
      invariant Rest(whole) == Rest(buffer.bytes)
      decreases |buffer.bytes|
    {
      DrainOneLine(Reading(wire), buffer.bytes, pos);
      var line := buffer.bytes[..pos];
      buffer.bytes := buffer.bytes[pos + 1..];
      var found := ReadLine(wire, line);
      AppendIsAssociative(events, found, Decoded(Reading(wire), Lines(buffer.bytes)));
      events := events + found;
      pos := FirstNewline(buffer.bytes);
    }
  }

  /** The body of the reader's loop: at most one event from one drained line. */
  method ReadLine<E>(wire: Wire<E>, drained: seq<Byte>) returns (found: seq<E>)
    ensures found == Reading(wire)(drained)
    ensures |found| <= 1
    ensures found != [] ==>
              exists payload :: Carries(wire.lossy(Bare(drained)), payload) && wire.parse(payload) == Some(found[0])
  {
    ghost var meant := LineEvents(wire, drained);
    if meant != [] {
      LineReadsExactly(wire, drained, meant[0]);
    }
    var line := drained;
    if line != [] && line[|line| - 1] == RETURN {
      line := line[..|line| - 1];
    }
    var text := wire.lossy(line);
    if !("data:" <= text) {
      return [];
    }
    var payload := Trim(text[5..]);
    if payload == "" {
      return [];
    }
    match wire.parse(payload)
    case None => return [];
    case Some(event) => return [event];
  }
}
