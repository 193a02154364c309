/** What the line cleanup keeps: a text is lines with their endings, and each is cleaned by itself. */
module SpokenLines {
  import opened Text
  import opened StripMarkdown
  import opened SpokenText
  import opened SpokenTargets
  import F = SpokenFences

  // --------------------------------------------------------------- one line

  predicate IsLead(c: char) {
    IsWhite(c) || c == '#'
  }

  lemma {:induction false} LeadIsDropped(lead: string, rest: string)
    requires forall i :: 0 <= i < |lead| ==> IsLead(lead[i])
    requires rest != "" ==> !IsLead(rest[0])
    ensures DropLead(lead + rest) == rest
    decreases |lead|
  {
    if lead == "" {
      assert lead + rest == rest;
    } else {
      assert (lead + rest)[1..] == lead[1..] + rest;
      LeadIsDropped(lead[1..], rest);
    }
  }

  /** A line loses the whitespace and the hashes in front of it, in any mixture, and nothing else. */
  lemma LineIsCleaned(lead: string, body: string)
    requires forall i :: 0 <= i < |lead| ==> IsLead(lead[i])
    requires body != "" ==> !IsLead(body[0]) && body[0] != '>'
    ensures CleanedLine(lead + body) == body
  {
    LeadIsDropped(lead, body);
  }

  /** Or up to one quote marker and the whitespace behind it. */
  lemma QuotedLineIsCleaned(lead: string, pad: string, body: string, quoted: string)
    requires forall i :: 0 <= i < |lead| ==> IsLead(lead[i])
    requires AllWhite(pad) && (body != "" ==> !IsWhite(body[0]))
    requires quoted == ">" + (pad + body)
    ensures CleanedLine(lead + quoted) == body
  {
    LeadIsDropped(lead, quoted);
    assert quoted[1..] == pad + body;
    TrimStartPadded(pad, body);
  }

  // -------------------------------------------------------------- many lines

  /** One line that ends: with a newline, or with a return before it. */
  datatype Line = Line(text: string, returned: bool)

  function Ended(line: Line): string {
    line.text + (if line.returned then "\r\n" else "\n")
  }

  /** The lines with their endings, and what stands behind the last of them. */
  function Written(lines: seq<Line>, last: string): string
    decreases |lines|
  {
    if lines == [] then last else Ended(lines[0]) + Written(lines[1..], last)
  }

  predicate IsLine(line: Line) {
    '\n' !in line.text && (!line.returned && line.text != "" ==> line.text[|line.text| - 1] != '\r')
  }

  predicate AreLines(lines: seq<Line>) {
    forall i :: 0 <= i < |lines| ==> IsLine(lines[i])
  }

  function Texts(lines: seq<Line>, last: string): seq<string>
    decreases |lines|
  {
    if lines == [] then (if last == "" then [] else [last]) else [lines[0].text] + Texts(lines[1..], last)
  }

  lemma OneLineOff(line: Line, rest: string, s: string)
    requires IsLine(line) && s == Ended(line) + rest
    ensures LinesOf(s) == [line.text] + LinesOf(rest)
  {
    var i := |Ended(line)| - 1;
    FindCharIsFirst(s, '\n', 0);
    assert s[i] == '\n';
    assert forall j :: 0 <= j < i ==> s[j] != '\n';
    assert FindChar(s, '\n', 0) == Some(i);
    assert s[i + 1..] == rest;
    if line.returned {
      assert s[i - 1] == '\r' && s[..i - 1] == line.text;
    } else {
      assert s[..i] == line.text;
    }
    FirstLineIs(s, i, line.text);
  }

  /** The lines of a text are the lines it was written from, without their endings. */
  lemma {:induction false} LinesAreRead(lines: seq<Line>, last: string)
    requires AreLines(lines) && '\n' !in last
    ensures LinesOf(Written(lines, last)) == Texts(lines, last)
    decreases |lines|
  {
    if lines == [] {
      FindCharIsFirst(last, '\n', 0);
    } else {
      assert IsLine(lines[0]);
      LinesAreRead(lines[1..], last);
      OneLineOff(lines[0], Written(lines[1..], last), Written(lines, last));
    }
  }

  lemma LineIsCut(s: string, i: nat) returns (line: Line)
    requires FindChar(s, '\n', 0) == Some(i)
    ensures IsLine(line) && s == Ended(line) + s[i + 1..]
  {
    FindCharIsFirst(s, '\n', 0);
    if i > 0 && s[i - 1] == '\r' {
      line := Line(s[..i - 1], true);
      assert s == s[..i - 1] + "\r\n" + s[i + 1..];
    } else {
      line := Line(s[..i], false);
      assert s == s[..i] + "\n" + s[i + 1..];
    }
  }

  /** And every text is written in that way. */
  lemma {:induction false} EveryTextIsLines(s: string) returns (lines: seq<Line>, last: string)
    ensures AreLines(lines) && '\n' !in last && s == Written(lines, last)
    decreases |s|
  {
    FindCharIsFirst(s, '\n', 0);
    match FindChar(s, '\n', 0)
    case None =>
      lines, last := [], s;
    case Some(i) =>
      var first := LineIsCut(s, i);
      var more;
      more, last := EveryTextIsLines(s[i + 1..]);
      lines := [first] + more;
      assert lines[1..] == more;
      assert forall k :: 0 < k < |lines| ==> lines[k] == more[k - 1];
  }

  // ------------------------------------------------------------ what is spoken

  /** Each line as it is spoken, with a newline. */
  function Said(texts: seq<string>): string
    decreases |texts|
  {
    if texts == [] then "" else CleanedLine(texts[0]) + "\n" + Said(texts[1..])
  }

  lemma {:induction false} JoinedIsSaid(texts: seq<string>)
    ensures texts != [] ==> Join(CleanedLines(texts)) + "\n" == Said(texts)
    ensures texts == [] ==> Join(CleanedLines(texts)) == ""
    decreases |texts|
  {
    if texts != [] {
      var rest := texts[1..];
      JoinedIsSaid(rest);
      assert texts == [texts[0]] + rest;
      CleanedSplit(texts[0], rest);
      if rest == [] {
        assert Said(texts) == CleanedLine(texts[0]) + "\n" + "";
        assert CleanedLine(texts[0]) + "" == CleanedLine(texts[0]);
      } else {
        LastNewline(CleanedLine(texts[0]), Join(CleanedLines(rest)), Said(rest));
      }
    }
  }

  lemma LastNewline(first: string, rest: string, said: string)
    requires rest + "\n" == said
    ensures first + ("\n" + rest) + "\n" == first + "\n" + said
  {
  }

  /** An answer without backticks and brackets is spoken line by line: every line of it,
      cleaned by itself, in order and apart, with the whitespace around the whole trimmed. */
  lemma PlainAnswerIsSpoken(lines: seq<Line>, last: string, text: string)
    requires AreLines(lines) && '\n' !in last && text == Written(lines, last)
    requires TICK !in text && '[' !in text
    ensures Spoken(text) == Trim(Said(Texts(lines, last)))
  {
    WithoutTicksNothingGoes(text);
    BracketFreeStays(text);
    NoBracketNoLink(text);
    LinesAreRead(lines, last);
    JoinedIsSaid(Texts(lines, last));
    TrimWithNewline(Cleaned(text));
  }

  /** And code blocks are silent: with them an answer is spoken as its prose is, with a space
      where each of them stood. */
  lemma CodeBlocksAreSilent(sections: seq<F.Section>, tail: string)
    requires F.WellCut(sections) && !HasPair(tail, FENCE)
    ensures Spoken(F.Written(sections, tail)) == Spoken(F.Prose(sections, tail))
  {
    F.ProseIsKept(sections, tail);
    F.NoBlockIsLeft(F.Written(sections, tail));
    F.UnclosedStays(F.Prose(sections, tail));
  }

  lemma NoBracketNoLink(text: string)
    requires '[' !in text
    ensures LinksStripped(text) == text
  {
    FindCharIsFirst(text, '[', 0);
    RelabelNone(FirstLink, text);
  }

  lemma TrimWithNewline(s: string)
    ensures Trim(s + "\n") == Trim(s)
  {
    if Trim(s) != "" {
      var pad, pad' := TrimSplits(s);
      assert s + "\n" == pad + (Trim(s) + (pad' + "\n"));
      TrimPadded(pad, Trim(s), pad' + "\n");
    } else {
      BlankTrims(s);
      BlankTrims(s + "\n");
    }
  }

  lemma BlankTrims(s: string)
    ensures Trim(s) == "" <==> AllWhite(s)
  {
    TrimStartShape(s);
    TrimEndShape(TrimStart(s));
  }
}
