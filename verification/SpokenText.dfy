/** The cleanup of each line behind the rewriting passes, and what is read aloud in the end. */
module SpokenText {
  import opened Text
  import opened StripMarkdown

  // ------------------------------------------------------------------- lines

  function DropHashes(s: string): string {
    if s != "" && s[0] == '#' then DropHashes(s[1..]) else s
  }

  /** Dropping every leading whitespace character and hash. */
  function DropLead(s: string): string {
    if s != "" && (IsWhite(s[0]) || s[0] == '#') then DropLead(s[1..]) else s
  }

  lemma {:induction false} DropLeadAfterTrim(s: string)
    ensures DropLead(TrimStart(s)) == DropLead(s)
    ensures |TrimStart(s)| <= |s|
  {
    if s != "" && IsWhite(s[0]) {
      DropLeadAfterTrim(s[1..]);
    }
  }

  lemma {:induction false} DropLeadAfterHashes(s: string)
    ensures DropLead(DropHashes(s)) == DropLead(s)
    ensures |DropHashes(s)| <= |s|
    ensures s != "" && s[0] == '#' ==> |DropHashes(s)| < |s|
  {
    if s != "" && s[0] == '#' {
      DropLeadAfterHashes(s[1..]);
    }
  }

  function CleanedLine(line: string): string {
    var bare := DropLead(line);
    TrimStart(if bare != "" && bare[0] == '>' then bare[1..] else bare)
  }

  /** A heading marker survives at the start of a cleaned line exactly when it
      stood behind a quote marker. */
  lemma HeadingSurvivesOnlyQuoted(line: string)
    ensures var bare := DropLead(line);
            "#" <= CleanedLine(line) <==> ">" <= bare && "#" <= TrimStart(bare[1..])
  {
    DropLeadStops(line);
  }

  lemma {:induction false} DropLeadStops(s: string)
    ensures var d := DropLead(s); d == "" || (!IsWhite(d[0]) && d[0] != '#')
  {
    if s != "" {
      DropLeadStops(s[1..]);
    }
  }

  method CleanLine(line: string) returns (clean: string)
    ensures clean == CleanedLine(line)
  {
    var l := TrimStart(line);
    DropLeadAfterTrim(line);
    TrimStartShape(line);
    while l != "" && l[0] == '#'
      invariant DropLead(l) == DropLead(line)
      invariant l != "" ==> !IsWhite(l[0])
      decreases |l|
    {
      DropLeadAfterHashes(l);
      DropLeadAfterTrim(DropHashes(l));
      TrimStartShape(DropHashes(l));
      l := TrimStart(DropHashes(l));
    }
    assert l == DropLead(l);
    clean := TrimStart(if l != "" && l[0] == '>' then l[1..] else l);
  }

  /** Lines without their endings; a final newline does not start another line. */
  function LinesOf(s: string): seq<string>
    decreases |s|
  {
    if s == "" then []
    else match FindChar(s, '\n', 0)
      case None => [s]
      case Some(i) => [if i > 0 && s[i - 1] == '\r' then s[..i - 1] else s[..i]] + LinesOf(s[i + 1..])
  }

  function CleanedLines(lines: seq<string>): seq<string> {
    if lines == [] then [] else CleanedLines(lines[..|lines| - 1]) + [CleanedLine(lines[|lines| - 1])]
  }

  function Join(lines: seq<string>): string {
    if lines == [] then ""
    else if |lines| == 1 then lines[0]
    else lines[0] + "\n" + Join(lines[1..])
  }

  /** What is spoken for an answer. */
  function Spoken(text: string): string {
    Trim(Join(CleanedLines(LinesOf(LinksStripped(BangsRemoved(Unticked(FencesStripped(text))))))))
  }

  method CleanLines(lines: seq<string>) returns (cleaned: seq<string>)
    ensures cleaned == CleanedLines(lines)
  {
    cleaned := [];
    for i := 0 to |lines|
      invariant cleaned == CleanedLines(lines[..i])
    {
      var clean := CleanLine(lines[i]);
      cleaned := cleaned + [clean];
      assert lines[..i + 1][..i] == lines[..i];
    }
    assert lines[..|lines|] == lines;
  }

  // --------------------------------------------------- cleaning only deletes

  /** `a` is `b` with pieces left out, and none of them in the middle of a line: only from
      the start of a line (`free`), at the very end, or a return before a newline. */
  predicate Thinned(a: string, b: string, free: bool)
    decreases |b|
  {
    a == "" || (b != "" &&
      (|| (a[0] == b[0] && Thinned(a[1..], b[1..], b[0] == '\n'))
       || (free && Thinned(a, b[1..], true))
       || (b[0] == '\r' && |b| > 1 && b[1] == '\n' && Thinned(a, b[1..], false))))
  }

  lemma {:induction false} FreeIsWeaker(a: string, b: string, free: bool)
    requires Thinned(a, b, free)
    ensures Thinned(a, b, true)
    decreases |b|
  {
    if a != "" && !(a[0] == b[0] && Thinned(a[1..], b[1..], b[0] == '\n')) && !free {
      FreeIsWeaker(a, b[1..], false);
    }
  }

  lemma {:induction false} DropFirst(a: string, b: string, free: bool)
    requires a != "" && Thinned(a, b, free)
    ensures Thinned(a[1..], b, true)
    decreases |b|
  {
    if a[0] == b[0] && Thinned(a[1..], b[1..], b[0] == '\n') {
      FreeIsWeaker(a[1..], b[1..], b[0] == '\n');
    } else if free {
      DropFirst(a, b[1..], true);
    } else {
      DropFirst(a, b[1..], false);
    }
  }

  lemma {:induction false} DropLast(a: string, b: string, free: bool, k: nat)
    requires Thinned(a, b, free) && k <= |a|
    ensures Thinned(a[..k], b, free)
    decreases |b|
  {
    if k > 0 {
      if a[0] == b[0] && Thinned(a[1..], b[1..], b[0] == '\n') {
        DropLast(a[1..], b[1..], b[0] == '\n', k - 1);
        assert a[..k][1..] == a[1..][..k - 1];
      } else if free && Thinned(a, b[1..], true) {
        DropLast(a, b[1..], true, k);
      } else {
        DropLast(a, b[1..], false, k);
      }
    }
  }

  lemma {:induction false} DropMany(a: string, b: string, k: nat)
    requires Thinned(a, b, true) && k <= |a|
    ensures Thinned(a[k..], b, true)
    decreases k
  {
    if k > 0 {
      DropFirst(a, b, true);
      DropMany(a[1..], b, k - 1);
      assert a[1..][k - 1..] == a[k..];
    } else {
      assert a[0..] == a;
    }
  }

  lemma TrimThins(a: string, b: string)
    requires Thinned(a, b, true)
    ensures Thinned(Trim(a), b, true)
  {
    var t := TrimStart(a);
    TrimStartShape(a);
    TrimEndShape(t);
    DropMany(a, b, |a| - |t|);
    assert TrimEnd(t) == t[..|TrimEnd(t)|];
    DropLast(t, b, true, |TrimEnd(t)|);
  }

  lemma {:induction false} DropLeadShape(s: string)
    ensures |DropLead(s)| <= |s| && DropLead(s) == s[|s| - |DropLead(s)|..]
  {
    if s != "" && (IsWhite(s[0]) || s[0] == '#') {
      DropLeadShape(s[1..]);
      assert s[1..][|s[1..]| - |DropLead(s)|..] == s[|s| - |DropLead(s)|..];
    }
  }

  /** A cleaned line is an end of the line. */
  lemma CleanedLineShape(line: string)
    ensures |CleanedLine(line)| <= |line| && CleanedLine(line) == line[|line| - |CleanedLine(line)|..]
  {
    var bare := DropLead(line);
    var rest := if bare != "" && bare[0] == '>' then bare[1..] else bare;
    DropLeadShape(line);
    TrimStartShape(rest);
    assert rest == line[|line| - |rest|..];
    assert CleanedLine(line) == rest[|rest| - |CleanedLine(line)|..];
  }

  /** What is left of a line and everything behind it, against all of both. */
  lemma {:induction false} LineThins(line: string, k: nat, ending: string, free: bool, rest: string, after: string)
    requires '\n' !in line && k <= |line| && (k > 0 ==> free)
    requires ending == "" || ending == "\r"
    requires Thinned(rest, after, true)
    ensures Thinned(line[k..] + ("\n" + rest), line + (ending + ("\n" + after)), free)
    decreases |line|
  {
    var a, b := line[k..] + ("\n" + rest), line + (ending + ("\n" + after));
    if line != "" {
      assert b[0] == line[0] && b[1..] == line[1..] + (ending + ("\n" + after));
      if k > 0 {
        assert line[1..][k - 1..] == line[k..];
        LineThins(line[1..], k - 1, ending, true, rest, after);
      } else {
        assert a[1..] == line[1..] + ("\n" + rest) && a[0] == line[0];
        assert line[1..][0..] == line[1..];
        LineThins(line[1..], 0, ending, false, rest, after);
      }
    } else {
      var kept := "\n" + rest;
      assert a == kept && kept[1..] == rest;
      assert ("\n" + after)[1..] == after;
      assert Thinned(kept, "\n" + after, false);
      if ending == "" {
        assert b == "\n" + after;
        assert Thinned(kept, "\n" + after, free);
      } else {
        assert b[0] == '\r' && b[1..] == "\n" + after;
      }
    }
  }

  lemma {:induction false} LastLineThins(line: string, k: nat, free: bool, after: string)
    requires k <= |line| && (k > 0 ==> free)
    ensures Thinned(line[k..], line + after, free)
    decreases |line|
  {
    if line != "" {
      assert (line + after)[1..] == line[1..] + after;
      if k > 0 {
        assert line[1..][k - 1..] == line[k..];
        LastLineThins(line[1..], k - 1, true, after);
      } else {
        assert line[1..][0..] == line[1..] && line[0..] == line;
        LastLineThins(line[1..], 0, line[0] == '\n', after);
      }
    }
  }

  /** The lines of a text, cleaned and put together again. */
  function Cleaned(s: string): string {
    Join(CleanedLines(LinesOf(s)))
  }

  lemma {:induction false} CleanedFirst(line: string, lines: seq<string>)
    ensures CleanedLines([line] + lines) == [CleanedLine(line)] + CleanedLines(lines)
    decreases |lines|
  {
    var all := [line] + lines;
    if lines == [] {
      assert all[..|all| - 1] == [];
      assert CleanedLines(all) == CleanedLines([]) + [CleanedLine(line)];
    } else {
      assert all[..|all| - 1] == [line] + lines[..|lines| - 1];
      CleanedFirst(line, lines[..|lines| - 1]);
    }
  }

  lemma {:induction false} SameNumber(lines: seq<string>)
    ensures |CleanedLines(lines)| == |lines|
  {
    if lines != [] {
      SameNumber(lines[..|lines| - 1]);
    }
  }

  lemma JoinFirst(line: string, lines: seq<string>)
    ensures Join([line] + lines) == if lines == [] then line else line + "\n" + Join(lines)
  {
    assert ([line] + lines)[1..] == lines;
  }

  lemma {:induction false} CleaningThins(s: string)
    ensures Thinned(Cleaned(s), s, true)
    decreases |s|
  {
    if s != "" {
      match FindChar(s, '\n', 0)
      case None =>
        CleanedFirst(s, []);
        JoinFirst(CleanedLine(s), []);
        assert LinesOf(s) == [s] + [];
        CleanedLineShape(s);
        LastLineThins(s, |s| - |CleanedLine(s)|, true, "");
        assert s + "" == s;
      case Some(i) =>
        FindCharIsFirst(s, '\n', 0);
        CleaningThins(s[i + 1..]);
        FirstLineThins(s, i);
    }
  }

  lemma CleanedSplit(line: string, lines: seq<string>)
    ensures Join(CleanedLines([line] + lines)) ==
            CleanedLine(line) + if lines == [] then "" else "\n" + Join(CleanedLines(lines))
  {
    CleanedFirst(line, lines);
    SameNumber(lines);
    JoinFirst(CleanedLine(line), CleanedLines(lines));
    assert CleanedLine(line) + "" == CleanedLine(line);
  }

  lemma FirstLineIs(s: string, i: nat, line: string)
    requires s != "" && FindChar(s, '\n', 0) == Some(i)
    requires line == if i > 0 && s[i - 1] == '\r' then s[..i - 1] else s[..i]
    ensures LinesOf(s) == [line] + LinesOf(s[i + 1..])
  {
  }

  lemma LineAndRest(s: string, i: nat, line: string, ending: string)
    requires i < |s| && s[i] == '\n' && forall j :: 0 <= j < i ==> s[j] != '\n'
    requires if i > 0 && s[i - 1] == '\r' then line == s[..i - 1] && ending == "\r" else line == s[..i] && ending == ""
    ensures s == line + (ending + ("\n" + s[i + 1..])) && '\n' !in line
  {
    assert s[..i] == line + ending;
    assert s == s[..i] + ("\n" + s[i + 1..]);
  }

  lemma FirstLineSplits(s: string, i: nat) returns (line: string, ending: string)
    requires s != "" && FindChar(s, '\n', 0) == Some(i)
    requires forall j :: 0 <= j < i ==> s[j] != '\n'
    ensures LinesOf(s) == [line] + LinesOf(s[i + 1..])
    ensures s == line + (ending + ("\n" + s[i + 1..])) && '\n' !in line && (ending == "" || ending == "\r")
  {
    var returned := i > 0 && s[i - 1] == '\r';
    line, ending := if returned then s[..i - 1] else s[..i], if returned then "\r" else "";
    FirstLineIs(s, i, line);
    LineAndRest(s, i, line, ending);
  }

  lemma FirstLineThins(s: string, i: nat)
    requires s != "" && FindChar(s, '\n', 0) == Some(i)
    requires forall j :: 0 <= j < i ==> s[j] != '\n'
    requires Thinned(Cleaned(s[i + 1..]), s[i + 1..], true)
    ensures Thinned(Cleaned(s), s, true)
  {
    var line, ending := FirstLineSplits(s, i);
    CleanedSplit(line, LinesOf(s[i + 1..]));
    ThinnedLines(line, ending, LinesOf(s[i + 1..]), s[i + 1..]);
  }

  lemma ThinnedLines(line: string, ending: string, lines: seq<string>, after: string)
    requires '\n' !in line && (ending == "" || ending == "\r")
    requires Thinned(Join(CleanedLines(lines)), after, true)
    ensures Thinned(CleanedLine(line) + (if lines == [] then "" else "\n" + Join(CleanedLines(lines))),
                    line + (ending + ("\n" + after)), true)
  {
    CleanedLineShape(line);
    var k := |line| - |CleanedLine(line)|;
    if lines == [] {
      assert CleanedLine(line) + "" == CleanedLine(line);
      LastLineThins(line, k, true, ending + ("\n" + after));
    } else {
      LineThins(line, k, ending, true, Join(CleanedLines(lines)), after);
    }
  }

  // ------------------------------------------- what cleaning cannot bring about

  /** A target, or a link, somewhere in `s`, by what follows each of its marks. */
  predicate TargetIn(s: string) {
    |s| >= 2 && ((s[0] == ']' && s[1] == '(' && ')' in s[2..]) || TargetIn(s[1..]))
  }

  predicate LinkIn(s: string) {
    s != "" && ((s[0] == '[' && TargetIn(s[1..])) || LinkIn(s[1..]))
  }

  lemma {:induction false} TargetInExactly(s: string)
    ensures TargetIn(s) <==> exists mid: nat, close: nat :: TargetAt(s, mid, close)
    decreases |s|
  {
    if |s| >= 2 {
      TargetInExactly(s[1..]);
      if s[0] == ']' && s[1] == '(' && ')' in s[2..] {
        var k :| 0 <= k < |s[2..]| && s[2..][k] == ')';
        assert TargetAt(s, 0, k + 2);
      } else if TargetIn(s[1..]) {
        var mid: nat, close: nat :| TargetAt(s[1..], mid, close);
        assert TargetAt(s, mid + 1, close + 1);
      }
      if mid: nat, close: nat :| TargetAt(s, mid, close) {
        if mid == 0 {
          assert s[2..][close - 2] == ')';
        } else {
          assert TargetAt(s[1..], mid - 1, close - 1);
        }
      }
    }
  }

  predicate TargetAt(s: string, mid: nat, close: nat) {
    mid + 2 <= close < |s| && s[mid] == ']' && s[mid + 1] == '(' && s[close] == ')'
  }

  lemma TargetOccurs(s: string, mid: nat)
    requires mid + 2 <= |s|
    ensures OccursAt(s, "](", mid) <==> s[mid] == ']' && s[mid + 1] == '('
  {
    assert "]("[1..] == "(" && "("[1..] == "";
  }

  lemma {:induction false} LinkInExactly(s: string)
    ensures LinkIn(s) <==> HasLink(s)
    decreases |s|
  {
    if s != "" {
      LinkInExactly(s[1..]);
      TargetInExactly(s[1..]);
      if s[0] == '[' && TargetIn(s[1..]) {
        var mid: nat, close: nat :| TargetAt(s[1..], mid, close);
        TargetOccurs(s, mid + 1);
        assert LinkAt(s, 0, mid + 1, close + 1);
      } else if LinkIn(s[1..]) {
        var open: nat, mid: nat, close: nat :| LinkAt(s[1..], open, mid, close);
        TargetOccurs(s[1..], mid);
        TargetOccurs(s, mid + 1);
        assert LinkAt(s, open + 1, mid + 1, close + 1);
      }
      if open: nat, mid: nat, close: nat :| LinkAt(s, open, mid, close) {
        TargetOccurs(s, mid);
        if open == 0 {
          assert TargetAt(s[1..], mid - 1, close - 1);
        } else {
          TargetOccurs(s[1..], mid - 1);
          assert LinkAt(s[1..], open - 1, mid - 1, close - 1);
        }
      }
    }
  }

  lemma {:induction false} ThinnedChar(a: string, b: string, free: bool, c: char)
    requires Thinned(a, b, free) && c in a
    ensures c in b
    decreases |b|
  {
    if a[0] == b[0] && Thinned(a[1..], b[1..], b[0] == '\n') {
      if c != a[0] {
        ThinnedChar(a[1..], b[1..], b[0] == '\n', c);
      }
    } else if free && Thinned(a, b[1..], true) {
      ThinnedChar(a, b[1..], true, c);
    } else {
      ThinnedChar(a, b[1..], false, c);
    }
  }

  lemma NewlineStays(a: string, b: string)
    requires a != "" && a[0] != '\n'
    ensures b != "" && b[0] == '\n' ==> !Thinned(a, b, false)
  {
  }

  lemma NextIsKept(a: string, b: string)
    requires a != "" && a[0] == '(' && Thinned(a, b, false)
    ensures b != "" && b[0] == '(' && Thinned(a[1..], b[1..], false)
  {
    NewlineStays(a, b[1..]);
  }

  lemma {:induction false} ThinnedTarget(a: string, b: string, free: bool)
    requires Thinned(a, b, free) && TargetIn(a)
    ensures TargetIn(b)
    decreases |b|
  {
    if a[0] == b[0] && Thinned(a[1..], b[1..], b[0] == '\n') {
      if a[0] == ']' && a[1] == '(' && ')' in a[2..] {
        NextIsKept(a[1..], b[1..]);
        assert a[1..][1..] == a[2..] && b[1..][1..] == b[2..];
        ThinnedChar(a[2..], b[2..], false, ')');
      } else {
        ThinnedTarget(a[1..], b[1..], b[0] == '\n');
      }
    } else if free && Thinned(a, b[1..], true) {
      ThinnedTarget(a, b[1..], true);
    } else {
      ThinnedTarget(a, b[1..], false);
    }
  }

  lemma {:induction false} ThinnedLink(a: string, b: string, free: bool)
    requires Thinned(a, b, free) && LinkIn(a)
    ensures LinkIn(b)
    decreases |b|
  {
    if a[0] == b[0] && Thinned(a[1..], b[1..], b[0] == '\n') {
      if a[0] == '[' && TargetIn(a[1..]) {
        ThinnedTarget(a[1..], b[1..], b[0] == '\n');
      } else {
        ThinnedLink(a[1..], b[1..], b[0] == '\n');
      }
    } else if free && Thinned(a, b[1..], true) {
      ThinnedLink(a, b[1..], true);
    } else {
      ThinnedLink(a, b[1..], false);
    }
  }

  lemma {:induction false} ThinnedIsSubsequence(a: string, b: string, free: bool)
    requires Thinned(a, b, free)
    ensures Subsequence(a, b)
    decreases |b|
  {
    if a != "" {
      if a[0] == b[0] && Thinned(a[1..], b[1..], b[0] == '\n') {
        ThinnedIsSubsequence(a[1..], b[1..], b[0] == '\n');
      } else if free && Thinned(a, b[1..], true) {
        ThinnedIsSubsequence(a, b[1..], true);
      } else {
        ThinnedIsSubsequence(a, b[1..], false);
      }
    }
  }

  // --------------------------------------------------------- what is read aloud

  lemma {:induction false} OnlyDeleted(find: string -> Option<nat>, s: string)
    ensures Subsequence(Deleted(find, s), s)
    decreases |s|
  {
    SubsequenceOfItself(s);
    match find(s)
    case None =>
    case Some(i) =>
      if i + 2 <= |s| {
        var rest := Deleted(find, s[i + 2..]);
        OnlyDeleted(find, s[i + 2..]);
        SameHeadSubsequence(s[..i], rest, s[i + 2..]);
        CutOut(s, i, i + 2);
        SubsequenceTransitive(s[..i] + rest, s[..i] + s[i + 2..], s);
      }
  }

  lemma {:induction false} SameHeadSubsequence(head: string, a: string, b: string)
    requires Subsequence(a, b)
    ensures Subsequence(head + a, head + b)
    decreases |head|
  {
    if head == "" {
      assert head + a == a && head + b == b;
    } else {
      SameHeadSubsequence(head[1..], a, b);
      assert (head + a)[1..] == head[1..] + a && (head + b)[1..] == head[1..] + b;
    }
  }

  lemma {:induction false} TicksFront(s: string)
    requires s != ""
    ensures Ticks(s) == (if s[0] == TICK then 1 else 0) + Ticks(s[1..])
    decreases |s|
  {
    if |s| > 1 {
      TicksFront(s[..|s| - 1]);
      assert s[..|s| - 1][1..] == s[1..][..|s| - 2];
    } else {
      assert s[..0] == "" && s[1..] == "";
    }
  }

  lemma {:induction false} SubsequenceTicks(a: string, b: string)
    requires Subsequence(a, b)
    ensures Ticks(a) <= Ticks(b)
    decreases |b|
  {
    if a != "" {
      TicksFront(a);
      TicksFront(b);
      if a[0] == b[0] && Subsequence(a[1..], b[1..]) {
        SubsequenceTicks(a[1..], b[1..]);
      } else {
        SubsequenceTicks(a, b[1..]);
      }
    }
  }

  lemma {:induction false} FenceHasTicks(s: string, i: nat)
    requires OccursAt(s, FENCE, i)
    ensures Ticks(s) >= 2
    decreases |s|
  {
    OccurrenceChar(s, FENCE, i, 0);
    OccurrenceChar(s, FENCE, i, 1);
    TwoTicks(s, i);
  }

  lemma {:induction false} TwoTicks(s: string, i: nat)
    requires i + 1 < |s| && s[i] == TICK && s[i + 1] == TICK
    ensures Ticks(s) >= 2
    decreases |s|
  {
    TicksFront(s);
    if i == 0 {
      TicksFront(s[1..]);
    } else {
      TwoTicks(s[1..], i - 1);
    }
  }

  lemma SpokenOnlyDeletes(text: string)
    ensures var unticked := Unticked(FencesStripped(text));
            Subsequence(Spoken(text), unticked)
  {
    var u := Unticked(FencesStripped(text));
    var b, l := BangsRemoved(u), LinksStripped(BangsRemoved(u));
    OnlyDeleted(FirstBang, u);
    LinksOnlyDeleted(b);
    SubsequenceTransitive(l, b, u);
    CleaningThins(l);
    TrimThins(Cleaned(l), l);
    ThinnedIsSubsequence(Spoken(text), l, true);
    SubsequenceTransitive(Spoken(text), l, u);
  }

  /** What is read aloud holds no fence, no link and at most one backtick, wherever the
      line cleanup brought text together. */
  lemma SpokenIsClean(text: string)
    ensures Ticks(Spoken(text)) <= Ticks(FencesStripped(text)) % 2
    ensures !Contains(Spoken(text), FENCE)
    ensures !HasLink(Spoken(text))
  {
    var f, spoken := FencesStripped(text), Spoken(text);
    SpokenOnlyDeletes(text);
    SubsequenceTicks(spoken, Unticked(f));
    AtMostOneTickLeft(f);
    if i: nat :| i <= |spoken| && OccursAt(spoken, FENCE, i) {
      FenceHasTicks(spoken, i);
    }
    var l := LinksStripped(BangsRemoved(Unticked(f)));
    CleaningThins(l);
    TrimThins(Cleaned(l), l);
    NoLinkRemains(BangsRemoved(Unticked(f)));
    LinkInExactly(l);
    LinkInExactly(spoken);
    if LinkIn(spoken) {
      ThinnedLink(spoken, l, true);
    }
  }

  method StripAll(text: string) returns (spoken: string)
    ensures spoken == Spoken(text)
    ensures Ticks(spoken) <= 1 && !Contains(spoken, FENCE) && !HasLink(spoken)
  {
    var s := StripFences(text);
    s := StripTicks(s);
    s := BangsRemoved(s);
    s := StripLinks(s);
    var cleaned := CleanLines(LinesOf(s));
    spoken := Trim(Join(cleaned));
    SpokenIsClean(text);
  }
}
