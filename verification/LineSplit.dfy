/** Splitting a byte stream into lines, one chunk at a time. */
module LineSplit {
  import opened Text

  type Byte = bv8

  const NEWLINE: Byte := 10

  /** No newline anywhere in `s`. */
  predicate Quiet(s: seq<Byte>) {
    forall k :: 0 <= k < |s| ==> s[k] != NEWLINE
  }

  function FirstNewline(s: seq<Byte>): (i: nat)
    ensures i <= |s|
    ensures i < |s| ==> s[i] == NEWLINE
    ensures forall k :: 0 <= k < i ==> s[k] != NEWLINE
  {
    if s == [] || s[0] == NEWLINE then 0 else 1 + FirstNewline(s[1..])
  }

  /** The complete lines of `s`, without their newlines. */
  function Lines(s: seq<Byte>): seq<seq<Byte>>
    decreases |s|
  {
    var i := FirstNewline(s);
    if i == |s| then [] else [s[..i]] + Lines(s[i + 1..])
  }

  /** What is left in the buffer once every complete line is drained. */
  function Rest(s: seq<Byte>): seq<Byte>
    decreases |s|
  {
    var i := FirstNewline(s);
    if i == |s| then s else Rest(s[i + 1..])
  }

  /** The bytes that a list of lines was cut from. */
  function Joined(lines: seq<seq<Byte>>): seq<Byte> {
    if lines == [] then [] else lines[0] + [NEWLINE] + Joined(lines[1..])
  }

  function Flat(chunks: seq<seq<Byte>>): seq<Byte> {
    if chunks == [] then [] else chunks[0] + Flat(chunks[1..])
  }

  /** Consumed lines and leftover reconstruct the input. */
  lemma {:induction false} SplitReconstructs(s: seq<Byte>)
    ensures Joined(Lines(s)) + Rest(s) == s
    decreases |s|
  {
    var i := FirstNewline(s);
    if i < |s| {
      var tail := s[i + 1..];
      SplitReconstructs(tail);
      JoinedCons(s[..i], Lines(tail));
      Reassembled(s, i, Joined(Lines(tail)), Rest(tail));
    }
  }

  lemma Reassembled(s: seq<Byte>, i: nat, joined: seq<Byte>, rest: seq<Byte>)
    requires i < |s| && s[i] == NEWLINE && s[i + 1..] == joined + rest
    ensures s[..i] + [NEWLINE] + joined + rest == s
  {
  }

  lemma JoinedCons(line: seq<Byte>, lines: seq<seq<Byte>>)
    ensures Joined([line] + lines) == line + [NEWLINE] + Joined(lines)
  {
    assert ([line] + lines)[1..] == lines;
  }

  /** Neither the leftover nor any line holds a newline. */
  lemma {:induction false} SplitIsQuiet(s: seq<Byte>)
    ensures Quiet(Rest(s))
    ensures forall k :: 0 <= k < |Lines(s)| ==> Quiet(Lines(s)[k])
    decreases |s|
  {
    var i := FirstNewline(s);
    if i < |s| {
      SplitIsQuiet(s[i + 1..]);
    }
  }

  /** There is only one such decomposition, so the split is exactly "every byte
      after the last newline stays". */
  lemma {:induction false} SplitIsUnique(lines: seq<seq<Byte>>, rest: seq<Byte>)
    requires Quiet(rest)
    requires forall k :: 0 <= k < |lines| ==> Quiet(lines[k])
    ensures Lines(Joined(lines) + rest) == lines && Rest(Joined(lines) + rest) == rest
  {
    if lines == [] {
      assert Joined(lines) + rest == rest;
    } else {
      var tail := Joined(lines[1..]) + rest;
      SplitIsUnique(lines[1..], rest);
      assert Joined(lines) + rest == lines[0] + [NEWLINE] + tail;
      FirstLine(lines[0], tail);
    }
  }

  lemma FirstLine(line: seq<Byte>, tail: seq<Byte>)
    requires Quiet(line)
    ensures Lines(line + [NEWLINE] + tail) == [line] + Lines(tail)
    ensures Rest(line + [NEWLINE] + tail) == Rest(tail)
  {
    var s := line + [NEWLINE] + tail;
    FirstNewlineIs(s, |line|);
    assert s[..|line|] == line && s[|line| + 1..] == tail;
  }

  lemma FirstNewlineIs(s: seq<Byte>, i: nat)
    requires i < |s| && s[i] == NEWLINE
    requires forall k :: 0 <= k < i ==> s[k] != NEWLINE
    ensures FirstNewline(s) == i
  {
  }

  /** Splitting `a` first and carrying its leftover loses nothing. */
  lemma {:induction false} SplitAppend(a: seq<Byte>, b: seq<Byte>)
    ensures Lines(a + b) == Lines(a) + Lines(Rest(a) + b)
    ensures Rest(a + b) == Rest(Rest(a) + b)
    decreases |a|
  {
    var i := FirstNewline(a);
    if i < |a| {
      var line, tail := a[..i], a[i + 1..];
      SplitAppend(tail, b);
      SplitAppendLine(a, line, tail, b);
    } else {
      SplitAppendRest(a, b, a + b);
    }
  }

  lemma SplitAppendRest(a: seq<Byte>, b: seq<Byte>, whole: seq<Byte>)
    requires Quiet(a) && whole == a + b
    ensures Lines(whole) == Lines(a) + Lines(Rest(a) + b) && Rest(whole) == Rest(Rest(a) + b)
  {
    RestOfWhole(a);
    assert [] + Lines(whole) == Lines(whole);
  }

  lemma SplitAppendLine(a: seq<Byte>, line: seq<Byte>, tail: seq<Byte>, b: seq<Byte>)
    requires a == line + [NEWLINE] + tail && Quiet(line)
    requires Lines(tail + b) == Lines(tail) + Lines(Rest(tail) + b)
    requires Rest(tail + b) == Rest(Rest(tail) + b)
    ensures Lines(a + b) == Lines(a) + Lines(Rest(a) + b)
    ensures Rest(a + b) == Rest(Rest(a) + b)
  {
    FirstLine(line, tail);
    FirstLine(line, tail + b);
    AppendIsAssociative(line + [NEWLINE], tail, b);
    AppendIsAssociative([line], Lines(tail), Lines(Rest(tail) + b));
  }

  // --------------------------------------------- what the lines are read into

  function Decoded<E>(read: seq<Byte> -> seq<E>, lines: seq<seq<Byte>>): seq<E> {
    if lines == [] then [] else read(lines[0]) + Decoded(read, lines[1..])
  }

  lemma {:induction false} DecodedAppend<E>(read: seq<Byte> -> seq<E>, a: seq<seq<Byte>>, b: seq<seq<Byte>>)
    ensures Decoded(read, a + b) == Decoded(read, a) + Decoded(read, b)
  {
    if a == [] {
      assert a + b == b;
    } else {
      assert (a + b)[0] == a[0] && (a + b)[1..] == a[1..] + b;
      DecodedAppend(read, a[1..], b);
    }
  }

  // ------------------------------------------------------- one call, many calls

  /** One call: every complete line of buffer and chunk together is decoded. */
  function FedEvents<E>(read: seq<Byte> -> seq<E>, buffer: seq<Byte>, chunk: seq<Byte>): seq<E> {
    Decoded(read, Lines(buffer + chunk))
  }

  /** Repeated calls: all events in order, and the final buffer. */
  function FedAll<E>(read: seq<Byte> -> seq<E>, buffer: seq<Byte>, chunks: seq<seq<Byte>>): (seq<E>, seq<Byte>)
    decreases |chunks|
  {
    if chunks == [] then ([], buffer)
    else
      var (later, final) := FedAll(read, Rest(buffer + chunks[0]), chunks[1..]);
      (FedEvents(read, buffer, chunks[0]) + later, final)
  }

  lemma FedAllStep<E>(read: seq<Byte> -> seq<E>, buffer: seq<Byte>, chunks: seq<seq<Byte>>, c: nat)
    requires c < |chunks|
    ensures FedAll(read, buffer, chunks[c..]).0
         == FedEvents(read, buffer, chunks[c]) + FedAll(read, Rest(buffer + chunks[c]), chunks[c + 1..]).0
  {
    assert chunks[c..][1..] == chunks[c + 1..];
  }

  lemma RestOfWhole(s: seq<Byte>)
    requires Quiet(s)
    ensures Lines(s) == [] && Rest(s) == s
  {
  }

  /** Chunk invariance. However a byte sequence is cut, the events and the final
      buffer are those of one call on the whole of it. The only exception is a
      caller that makes no call at all on a buffer that already holds a line. */
  lemma {:induction false} ChunkInvariance<E>(read: seq<Byte> -> seq<E>, buffer: seq<Byte>, chunks: seq<seq<Byte>>)
    requires chunks != [] || Quiet(buffer)
    ensures FedAll(read, buffer, chunks) ==
            (FedEvents(read, buffer, Flat(chunks)), Rest(buffer + Flat(chunks)))
    decreases |chunks|
  {
    if chunks == [] {
      assert buffer + Flat(chunks) == buffer;
      RestOfWhole(buffer);
    } else {
      var head := buffer + chunks[0];
      var tail := Flat(chunks[1..]);
      assert buffer + Flat(chunks) == head + tail;
      SplitIsQuiet(head);
      ChunkInvariance(read, Rest(head), chunks[1..]);
      SplitAppend(head, tail);
      DecodedAppend(read, Lines(head), Lines(Rest(head) + tail));
    }
  }

  /** The exception is exact: with no call, a line already in the buffer stays. */
  lemma ChunkInvarianceExactly<E>(read: seq<Byte> -> seq<E>, buffer: seq<Byte>, chunks: seq<seq<Byte>>)
    ensures FedAll(read, buffer, chunks) ==
            (FedEvents(read, buffer, Flat(chunks)), Rest(buffer + Flat(chunks)))
       <==> (chunks != [] || Quiet(buffer))
  {
    if chunks != [] || Quiet(buffer) {
      ChunkInvariance(read, buffer, chunks);
    } else {
      assert buffer + Flat(chunks) == buffer;
      SplitIsQuiet(buffer);
    }
  }

  /** Two cuttings of the same bytes cannot be told apart. */
  lemma CuttingIsInvisible<E>(read: seq<Byte> -> seq<E>, buffer: seq<Byte>, a: seq<seq<Byte>>, b: seq<seq<Byte>>)
    requires a != [] && b != [] && Flat(a) == Flat(b)
    ensures FedAll(read, buffer, a) == FedAll(read, buffer, b)
  {
    ChunkInvariance(read, buffer, a);
    ChunkInvariance(read, buffer, b);
  }

  /** A stream that ends without a final newline loses exactly its last line:
      the same bytes with a newline added yield that line's events too. */
  lemma UnterminatedLineIsHeldBack<E>(read: seq<Byte> -> seq<E>, s: seq<Byte>)
    ensures FedEvents(read, s, [NEWLINE]) == FedEvents(read, s, []) + read(Rest(s))
    ensures Rest(s + [NEWLINE]) == []
  {
    var rest := Rest(s);
    SplitIsQuiet(s);
    SplitAppend(s, [NEWLINE]);
    assert rest + [NEWLINE] + [] == rest + [NEWLINE];
    FirstLine(rest, []);
    assert s + [] == s;
    assert Lines([]) == [];
    assert [rest] + Lines([]) == [rest];
    DecodedAppend(read, Lines(s), [rest]);
    DecodedSingle(read, rest);
  }

  lemma DecodedSingle<E>(read: seq<Byte> -> seq<E>, line: seq<Byte>)
    ensures Decoded(read, [line]) == read(line)
  {
    assert [line][1..] == [];
  }

  lemma DecodedCons<E>(read: seq<Byte> -> seq<E>, line: seq<Byte>, lines: seq<seq<Byte>>)
    ensures Decoded(read, [line] + lines) == read(line) + Decoded(read, lines)
  {
    assert ([line] + lines)[1..] == lines;
  }

  lemma FirstLineOf(s: seq<Byte>, i: nat, tail: seq<Byte>)
    requires i == FirstNewline(s) < |s| && tail == s[i + 1..]
    ensures Lines(s) == [s[..i]] + Lines(tail)
  {
  }

  lemma RestOfTail(s: seq<Byte>, i: nat, tail: seq<Byte>)
    requires i == FirstNewline(s) < |s| && tail == s[i + 1..]
    ensures Rest(s) == Rest(tail)
  {
  }

  /** Draining the first line moves its events from the front of what is to come. */
  lemma DrainOneLine<E>(read: seq<Byte> -> seq<E>, s: seq<Byte>, i: nat)
    requires i == FirstNewline(s) < |s|
    ensures Decoded(read, Lines(s)) == read(s[..i]) + Decoded(read, Lines(s[i + 1..]))
    ensures Rest(s) == Rest(s[i + 1..])
  {
    FirstLineOf(s, i, s[i + 1..]);
    RestOfTail(s, i, s[i + 1..]);
    DecodedCons(read, s[..i], Lines(s[i + 1..]));
  }
}
