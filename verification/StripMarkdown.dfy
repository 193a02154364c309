/** Turning a markdown answer into text that can be read aloud: the four rewriting passes
    over the whole string. */
module StripMarkdown {
  import opened Text

  const FENCE: string := "```"
  const TICK: char := '`'

  // ------------------------------------------------------------ code fences

  /** Two occurrences of `w` that do not overlap. */
  ghost predicate HasPair(s: string, w: string) {
    exists i: nat, j: nat :: OccursAt(s, w, i) && OccursAt(s, w, j) && j >= i + |w|
  }

  /** The first occurrence, and the end of the first one after it. */
  function FirstPair(s: string, w: string): (r: Option<(nat, nat)>)
    ensures r.Some? ==> r.value.0 + |w| + |w| <= r.value.1 <= |s|
  {
    match FindFrom(s, w, 0)
    case None => None
    case Some(i) =>
      match FindFrom(s, w, i + |w|)
      case None => None
      case Some(j) => Some((i, j + |w|))
  }

  /** One pass from left to right: each span found becomes a single space. */
  function Blanked(find: string -> Option<(nat, nat)>, s: string): string
    decreases |s|
  {
    match find(s)
    case None => s
    case Some((i, j)) => if i < j <= |s| then s[..i] + " " + Blanked(find, s[j..]) else s
  }

  function FencePair(s: string): Option<(nat, nat)> {
    FirstPair(s, FENCE)
  }

  /** Code fences and what they enclose, taken out in one pass. */
  function FencesStripped(s: string): string {
    Blanked(FencePair, s)
  }

  lemma FirstPairFindsAny(s: string, w: string)
    ensures FirstPair(s, w).Some? <==> HasPair(s, w)
  {
    FindIsFirst(s, w, 0);
    var first := FindFrom(s, w, 0);
    if first.Some? {
      FindIsFirst(s, w, first.value + |w|);
    }
  }

  /** In the lemmas below `s` is `p + t`. Searching in it is searching in `t` when
      nothing is found inside `p`. */
  lemma ShiftedFind(s: string, p: string, t: string, w: string, from: nat)
    requires s == p + t && from <= |t|
    ensures var r := FindFrom(t, w, from);
            FindFrom(s, w, |p| + from) == (if r.Some? then Some(|p| + r.value) else None)
    decreases |t| - from
  {
    if from + |w| <= |t| {
      OccurrenceIsLocal(s, |p| + from, t, from, w);
    }
    if !OccursAt(t, w, from) && from < |t| {
      ShiftedFind(s, p, t, w, from + 1);
    }
  }

  lemma FindSkips(s: string, w: string, from: nat, later: nat)
    requires from <= later <= |s|
    requires forall k: nat :: from <= k < later ==> !OccursAt(s, w, k)
    ensures FindFrom(s, w, from) == FindFrom(s, w, later)
    decreases later - from
  {
    if from < later {
      FindSkips(s, w, from + 1, later);
    }
  }

  lemma ShiftedFirstPair(s: string, p: string, t: string, w: string)
    requires s == p + t
    requires forall k: nat :: k < |p| ==> !OccursAt(s, w, k)
    ensures var r := FirstPair(t, w);
            FirstPair(s, w) == (if r.Some? then Some((|p| + r.value.0, |p| + r.value.1)) else None)
  {
    FindSkips(s, w, 0, |p|);
    ShiftedFind(s, p, t, w, 0);
    var first := FindFrom(t, w, 0);
    if first.Some? {
      ShiftedFind(s, p, t, w, first.value + |w|);
    }
  }

  lemma CutBeyond(s: string, p: string, t: string, i: nat)
    requires s == p + t && i <= |t|
    ensures s[..|p| + i] == p + t[..i] && s[|p| + i..] == t[i..]
  {
  }

  lemma Regroup(a: string, b: string, c: string, d: string)
    ensures a + b + c + d == a + (b + c + d)
  {
  }

  /** A head that the search passes over stays as it is. */
  lemma FreeHead(find: string -> Option<(nat, nat)>, s: string, p: string, t: string)
    requires s == p + t
    requires find(s) == if find(t).Some? then Some((|p| + find(t).value.0, |p| + find(t).value.1)) else None
    ensures Blanked(find, s) == p + Blanked(find, t)
  {
    match find(t)
    case None =>
    case Some((i, j)) =>
      if i < j <= |t| {
        CutBeyond(s, p, t, i);
        CutBeyond(s, p, t, j);
        Regroup(p, t[..i], " ", Blanked(find, t[j..]));
      }
  }

  /** Starting over after a replacement finds the same things as carrying on: the
      space that was put in keeps the two sides from forming a new fence. */
  lemma RestartIsHarmless(s: string, i: nat, j: nat, next: string)
    requires FencePair(s) == Some((i, j)) && next == s[..i] + " " + s[j..]
    ensures FencesStripped(next) == FencesStripped(s)
  {
    FindIsFirst(s, FENCE, 0);
    forall k: nat | k < i + 1 ensures !OccursAt(next, FENCE, k) {
      ShieldedBySpace(s, FENCE, i, next, k);
    }
    var head, tail := s[..i] + " ", s[j..];
    ShiftedFirstPair(next, head, tail, FENCE);
    FreeHead(FencePair, next, head, tail);
  }

  lemma ShieldedBySpace(s: string, w: string, i: nat, next: string, k: nat)
    requires i < |next| && i <= |s| - |w| && next[i] == ' ' && forall m :: 0 <= m < i ==> next[m] == s[m]
    requires k <= i && (k < i ==> !OccursAt(s, w, k)) && ' ' !in w && w != ""
    ensures !OccursAt(next, w, k)
  {
    if k + |w| <= i {
      OccurrenceIsLocal(next, k, s, k, w);
    } else if OccursAt(next, w, k) {
      OccurrenceChar(next, w, k, i - k);
    }
  }

  method StripFences(text: string) returns (s: string)
    ensures s == FencesStripped(text)
    ensures !HasPair(s, FENCE)
  {
    s := text;
    while true
      invariant FencesStripped(s) == FencesStripped(text)
      decreases |s|
    {
      var start := FindFrom(s, FENCE, 0);
      if start.None? {
        FirstPairFindsAny(s, FENCE);
        return;
      }
      var rest := FindFrom(s, FENCE, start.value + 3);
      if rest.None? {
        FirstPairFindsAny(s, FENCE);
        return;
      }
      ghost var before := s;
      s := s[..start.value] + " " + s[rest.value + 3..];
      RestartIsHarmless(before, start.value, rest.value + 3, s);
    }
  }

  // --------------------------------------------------------- single backticks

  function Ticks(s: string): nat {
    if s == "" then 0 else Ticks(s[..|s| - 1]) + (if s[|s| - 1] == TICK then 1 else 0)
  }

  function WithoutTicks(s: string): string {
    if s == "" then ""
    else if s[|s| - 1] == TICK then WithoutTicks(s[..|s| - 1])
    else WithoutTicks(s[..|s| - 1]) + [s[|s| - 1]]
  }

  /** All other characters in order, and every backtick removed except the last one
      when their number is odd. */
  function Unticked(s: string): string {
    if Ticks(s) % 2 == 0 then WithoutTicks(s)
    else if s[|s| - 1] == TICK then WithoutTicks(s[..|s| - 1]) + [TICK]
    else Unticked(s[..|s| - 1]) + [s[|s| - 1]]
  }

  lemma {:induction false} TickFree(s: string)
    ensures Ticks(s) == 0 <==> forall i :: 0 <= i < |s| ==> s[i] != TICK
    ensures Ticks(s) == 0 ==> WithoutTicks(s) == s
    decreases |s|
  {
    if s != "" {
      var front := s[..|s| - 1];
      TickFree(front);
      assert front + [s[|s| - 1]] == s;
      assert forall i :: 0 <= i < |front| ==> s[i] == front[i];
    }
  }

  /** `r` is `s` without its character at `i`. */
  ghost predicate Removed(s: string, i: nat, r: string)
    ensures Removed(s, i, r) ==> i < |s| && |r| == |s| - 1
    decreases |s|
  {
    && i < |s|
    && if i == |s| - 1 then r == s[..|s| - 1]
       else r != "" && r[|r| - 1] == s[|s| - 1] && Removed(s[..|s| - 1], i, r[..|r| - 1])
  }

  lemma {:induction false} CutIsRemoved(s: string, i: nat, r: string)
    requires i < |s| && r == s[..i] + s[i + 1..]
    ensures Removed(s, i, r)
    decreases |s|
  {
    if i < |s| - 1 {
      CutInFront(s, i, r);
      CutIsRemoved(s[..|s| - 1], i, r[..|r| - 1]);
    }
  }

  lemma CutInFront(s: string, i: nat, r: string)
    requires i < |s| - 1 && r == s[..i] + s[i + 1..]
    ensures var front := s[..|s| - 1];
            r[..|r| - 1] == front[..i] + front[i + 1..] && r[|r| - 1] == s[|s| - 1]
  {
  }

  lemma {:induction false} RemovedKeepsBefore(s: string, i: nat, r: string, k: nat)
    requires Removed(s, i, r) && k < i
    ensures k < |r| && r[k] == s[k]
    decreases |s|
  {
    if i < |s| - 1 {
      RemovedKeepsBefore(s[..|s| - 1], i, r[..|r| - 1], k);
    }
  }

  lemma {:induction false} RemoveTick(s: string, i: nat, r: string)
    requires Removed(s, i, r) && s[i] == TICK
    ensures Ticks(r) == Ticks(s) - 1 && WithoutTicks(r) == WithoutTicks(s)
    decreases |s|
  {
    if i < |s| - 1 {
      RemoveTick(s[..|s| - 1], i, r[..|r| - 1]);
    }
  }

  lemma {:induction false} OnlyTick(s: string, i: nat)
    requires i < |s| && s[i] == TICK
    requires forall k :: 0 <= k < |s| && k != i ==> s[k] != TICK
    ensures Ticks(s) == 1
    decreases |s|
  {
    if i == |s| - 1 {
      TickFree(s[..|s| - 1]);
    } else {
      OnlyTick(s[..|s| - 1], i);
    }
  }

  lemma PairCounts(s: string, i: nat, j: nat, once: string, twice: string)
    requires i < j < |s| && s[i] == TICK && s[j] == TICK
    requires Removed(s, j, once) && Removed(once, i, twice)
    ensures Ticks(twice) == Ticks(s) - 2 && WithoutTicks(twice) == WithoutTicks(s)
  {
    RemovedKeepsBefore(s, j, once, i);
    RemoveTick(s, j, once);
    RemoveTick(once, i, twice);
  }

  lemma PairAtEnd(s: string, i: nat)
    requires i < |s| - 1 && s[i] == TICK && s[|s| - 1] == TICK
    requires forall k :: 0 <= k < |s| - 1 && k != i ==> s[k] != TICK
    ensures Ticks(s) == 2
  {
    OnlyTick(s[..|s| - 1], i);
  }

  /** Removing the first two backticks leaves the closed form as it is. */
  lemma {:induction false} DropPair(s: string, i: nat, j: nat, once: string, twice: string)
    requires i < j < |s| && s[i] == TICK && s[j] == TICK
    requires forall k :: 0 <= k < j && k != i ==> s[k] != TICK
    requires Removed(s, j, once) && Removed(once, i, twice)
    ensures Unticked(twice) == Unticked(s)
    decreases |s|
  {
    PairCounts(s, i, j, once, twice);
    if j == |s| - 1 {
      PairAtEnd(s, i);
    } else {
      var front, once', twice' := s[..|s| - 1], once[..|once| - 1], twice[..|twice| - 1];
      PairCounts(front, i, j, once', twice');
      DropPair(front, i, j, once', twice');
      SameEnding(s, twice);
    }
  }

  /** Two strings that agree in every respect before the same last character agree
      in closed form. */
  lemma SameEnding(a: string, b: string)
    requires a != "" && b != "" && a[|a| - 1] == b[|b| - 1]
    requires Ticks(a) % 2 == Ticks(b) % 2 && WithoutTicks(a) == WithoutTicks(b)
    requires WithoutTicks(a[..|a| - 1]) == WithoutTicks(b[..|b| - 1])
    requires Unticked(a[..|a| - 1]) == Unticked(b[..|b| - 1])
    ensures Unticked(a) == Unticked(b)
  {
  }

  lemma {:induction false} FewTicksStay(s: string)
    requires Ticks(s) <= 1
    ensures Unticked(s) == s
    decreases |s|
  {
    TickFree(s);
    if Ticks(s) == 1 {
      var front := s[..|s| - 1];
      assert front + [s[|s| - 1]] == s;
      if s[|s| - 1] == TICK {
        TickFree(front);
      } else {
        FewTicksStay(front);
      }
    }
  }

  lemma PairGone(s: string, i: nat, j: nat, shorter: string)
    requires FindChar(s, TICK, 0) == Some(i) && FindChar(s, TICK, i + 1) == Some(j)
    requires shorter == s[..i] + s[i + 1..j] + s[j + 1..]
    ensures Unticked(shorter) == Unticked(s)
  {
    FindCharIsFirst(s, TICK, 0);
    FindCharIsFirst(s, TICK, i + 1);
    var once := s[..j] + s[j + 1..];
    CutTwice(s, i, j, once, shorter);
    CutIsRemoved(s, j, once);
    CutIsRemoved(once, i, shorter);
    DropPair(s, i, j, once, shorter);
  }

  lemma CutTwice(s: string, i: nat, j: nat, once: string, shorter: string)
    requires i < j < |s| && once == s[..j] + s[j + 1..]
    requires shorter == s[..i] + s[i + 1..j] + s[j + 1..]
    ensures shorter == once[..i] + once[i + 1..]
  {
  }

  /** At most one backtick is left, and it is there exactly when their number was odd. */
  lemma {:induction false} AtMostOneTickLeft(s: string)
    ensures Ticks(Unticked(s)) == Ticks(s) % 2
    ensures WithoutTicks(Unticked(s)) == WithoutTicks(s)
    decreases |s|
  {
    if Ticks(s) % 2 == 0 {
      WithoutHasNone(s);
    } else {
      var front := s[..|s| - 1];
      if s[|s| - 1] == TICK {
        WithoutHasNone(front);
        OneMore(WithoutTicks(front), TICK);
      } else {
        AtMostOneTickLeft(front);
        OneMore(Unticked(front), s[|s| - 1]);
      }
    }
  }

  lemma OneMore(s: string, c: char)
    ensures Ticks(s + [c]) == Ticks(s) + (if c == TICK then 1 else 0)
    ensures WithoutTicks(s + [c]) == WithoutTicks(s) + (if c == TICK then "" else [c])
  {
    assert (s + [c])[..|s + [c]| - 1] == s;
  }

  lemma {:induction false} WithoutHasNone(s: string)
    ensures Ticks(WithoutTicks(s)) == 0 && WithoutTicks(WithoutTicks(s)) == WithoutTicks(s)
  {
    if s != "" {
      WithoutHasNone(s[..|s| - 1]);
      OneMore(WithoutTicks(s[..|s| - 1]), s[|s| - 1]);
    }
  }

  lemma NoTickLeft(s: string)
    requires FindChar(s, TICK, 0) == None
    ensures Unticked(s) == s
  {
    FindCharIsFirst(s, TICK, 0);
    TickFree(s);
  }

  lemma OneTickLeft(s: string, i: nat)
    requires FindChar(s, TICK, 0) == Some(i) && FindChar(s, TICK, i + 1) == None
    ensures Unticked(s) == s
  {
    FindCharIsFirst(s, TICK, 0);
    FindCharIsFirst(s, TICK, i + 1);
    OnlyTick(s, i);
    FewTicksStay(s);
  }

  lemma {:induction false} TicksAppend(p: string, q: string)
    ensures Ticks(p + q) == Ticks(p) + Ticks(q) && WithoutTicks(p + q) == WithoutTicks(p) + WithoutTicks(q)
    decreases |q|
  {
    if q == "" {
      assert p + q == p;
    } else {
      var front := q[..|q| - 1];
      assert (p + q)[..|p + q| - 1] == p + front;
      TicksAppend(p, front);
    }
  }

  lemma OddGrows(x: string, c: char, s: string)
    requires Ticks(x) % 2 == 1 && c != TICK && s == x + [c]
    ensures Unticked(s) == Unticked(x) + [c] && Ticks(s) == Ticks(x)
  {
    assert s[..|s| - 1] == x;
  }

  lemma OddEnds(p: string, x: string)
    requires Ticks(p) % 2 == 0 && x == p + [TICK]
    ensures Unticked(x) == WithoutTicks(p) + [TICK]
  {
    assert x[..|x| - 1] == p;
  }

  /** In this lemma `s` is `x + q`. */
  lemma {:induction false} OddTail(x: string, q: string, s: string)
    requires Ticks(x) % 2 == 1 && Ticks(q) == 0 && s == x + q
    ensures Ticks(s) == Ticks(x) && Unticked(s) == Unticked(x) + q
    decreases |q|
  {
    if q == "" {
      assert s == x;
    } else {
      var front, c := q[..|q| - 1], q[|q| - 1];
      var before := x + front;
      OddTail(x, front, before);
      OddGrows(before, c, s);
      assert Unticked(x) + front + [c] == Unticked(x) + q;
    }
  }

  /** Which backtick is left: of a text cut at its last one, that one stays exactly when the
      number before it is even, and all others go. */
  lemma LastTickDecides(p: string, x: string, q: string, s: string)
    requires x == p + [TICK] && s == x + q && Ticks(q) == 0
    ensures Unticked(s) == (if Ticks(p) % 2 == 0 then WithoutTicks(p) + [TICK] else WithoutTicks(p)) + q
  {
    OneMore(p, TICK);
    if Ticks(p) % 2 == 0 {
      OddEnds(p, x);
      OddTail(x, q, s);
    } else {
      TickFree(q);
      TicksAppend(x, q);
    }
  }

  method StripTicks(text: string) returns (s: string)
    ensures s == Unticked(text)
  {
    s := text;
    while true
      invariant Unticked(s) == Unticked(text)
      decreases |s|
    {
      var start := FindChar(s, TICK, 0);
      if start.None? {
        NoTickLeft(s);
        return;
      }
      var end := FindChar(s, TICK, start.value + 1);
      if end.None? {
        OneTickLeft(s, start.value);
        return;
      }
      var inner := s[start.value + 1..end.value];
      ghost var before := s;
      s := s[..start.value] + inner + s[end.value + 1..];
      PairGone(before, start.value, end.value, s);
    }
  }

  // ------------------------------------------------------------------- links

  /** Deleting every "![", left to right, without looking at what the deletions bring together. */
  function BangsRemoved(s: string): string {
    Deleted(FirstBang, s)
  }

  function FirstBang(s: string): Option<nat> {
    FindFrom(s, "![", 0)
  }

  /** Each pair of characters found is left out. */
  function Deleted(find: string -> Option<nat>, s: string): string
    decreases |s|
  {
    match find(s)
    case None => s
    case Some(i) => if i + 2 <= |s| then s[..i] + Deleted(find, s[i + 2..]) else s
  }

  /** A bracketed label with a link target behind it. */
  ghost predicate HasLink(s: string) {
    exists open, mid, close ::
      LinkAt(s, open, mid, close)
  }

  predicate LinkAt(s: string, open: nat, mid: nat, close: nat) {
    open < mid && mid + 2 <= close < |s| && s[open] == '[' && OccursAt(s, "](", mid) && s[close] == ')'
  }

  /** The link the rewriting loop finds: the first bracket, the first "](" from there,
      and the first closing parenthesis from there. */
  function FirstLink(s: string): (r: Option<(nat, nat, nat)>)
    ensures r.Some? ==> LinkAt(s, r.value.0, r.value.1, r.value.2)
  {
    match FindChar(s, '[', 0)
    case None => None
    case Some(open) => LinkFrom(s, open)
  }

  function LinkFrom(s: string, open: nat): (r: Option<(nat, nat, nat)>)
    requires open < |s| && s[open] == '['
    ensures r.Some? ==> LinkAt(s, r.value.0, r.value.1, r.value.2) && r.value.0 == open
  {
    BracketBeforeTarget(s, open);
    match FindFrom(s, "](", open)
    case None => None
    case Some(mid) =>
      match FindChar(s, ')', mid + 2)
      case None => None
      case Some(close) => Some((open, mid, close))
  }

  lemma BracketBeforeTarget(s: string, open: nat)
    requires open < |s| && s[open] == '['
    ensures var r := FindFrom(s, "](", open); r.Some? ==> open < r.value && OccursAt(s, "](", r.value)
  {
    FindIsFirst(s, "](", open);
    assert "]("[0] == ']';
  }

  function Unlinked(s: string, open: nat, mid: nat, close: nat): string
    requires open < mid && mid + 2 <= close < |s|
  {
    s[..open] + s[open + 1..mid] + s[close + 1..]
  }

  function LinksStripped(s: string): string {
    Relabelled(FirstLink, s)
  }

  /** Each link found gives way to its label, and the search starts over. */
  function Relabelled(find: string -> Option<(nat, nat, nat)>, s: string): string
    decreases |s|
  {
    match find(s)
    case None => s
    case Some((open, mid, close)) =>
      if open < mid && mid + 2 <= close < |s| then Relabelled(find, Unlinked(s, open, mid, close)) else s
  }

  /** The loop looks only at the first bracket, and that is enough: it finds a link
      exactly when there is one anywhere. */
  lemma FirstLinkFindsAny(s: string)
    ensures FirstLink(s).Some? <==> HasLink(s)
  {
    if HasLink(s) {
      var open, mid, close :| LinkAt(s, open, mid, close);
      FindCharIsFirst(s, '[', 0);
      var open' := FindChar(s, '[', 0);
      assert open'.Some? && open'.value <= open;
      FindIsFirst(s, "](", open'.value);
      var mid' := FindFrom(s, "](", open'.value);
      assert mid'.Some? && mid'.value <= mid;
      FindCharIsFirst(s, ')', mid'.value + 2);
      assert FindChar(s, ')', mid'.value + 2).Some?;
    }
  }

  lemma {:induction false} NoLinkRemains(s: string)
    ensures !HasLink(LinksStripped(s))
    decreases |s|
  {
    FirstLinkFindsAny(s);
    match FirstLink(s)
    case None =>
    case Some((open, mid, close)) => NoLinkRemains(Unlinked(s, open, mid, close));
  }

  /** `a` is `b` with some characters left out. */
  predicate Subsequence(a: string, b: string)
    decreases |b|
  {
    a == "" || (b != "" && ((a[0] == b[0] && Subsequence(a[1..], b[1..])) || Subsequence(a, b[1..])))
  }

  lemma {:induction false} SubsequenceOfItself(a: string)
    ensures Subsequence(a, a)
  {
    if a != "" {
      SubsequenceOfItself(a[1..]);
    }
  }

  lemma {:induction false} SubsequenceTransitive(a: string, b: string, c: string)
    requires Subsequence(a, b) && Subsequence(b, c)
    ensures Subsequence(a, c)
    decreases |c|
  {
    if a != "" {
      if Subsequence(b, c[1..]) {
        SubsequenceTransitive(a, b, c[1..]);
      } else if a[0] == b[0] && Subsequence(a[1..], b[1..]) {
        SubsequenceTransitive(a[1..], b[1..], c[1..]);
      } else {
        SubsequenceTransitive(a, b[1..], c[1..]);
      }
    }
  }

  /** Cutting a piece out leaves a subsequence. */
  lemma {:induction false} CutOut(s: string, i: nat, j: nat)
    requires i <= j <= |s|
    ensures Subsequence(s[..i] + s[j..], s)
    decreases |s|
  {
    if i > 0 {
      CutOut(s[1..], i - 1, j - 1);
      assert (s[..i] + s[j..])[1..] == s[1..][..i - 1] + s[1..][j - 1..];
    } else if j > 0 {
      CutOut(s[1..], 0, j - 1);
      assert s[..i] + s[j..] == s[1..][..0] + s[1..][j - 1..];
    } else {
      assert s[..i] + s[j..] == s;
      SubsequenceOfItself(s);
    }
  }

  lemma UnlinkedInTwoCuts(s: string, open: nat, mid: nat, close: nat, once: string)
    requires open < mid && mid + 2 <= close < |s| && once == s[..mid] + s[close + 1..]
    ensures once[..open] + once[open + 1..] == Unlinked(s, open, mid, close)
  {
  }

  lemma UnlinkedIsSubsequence(s: string, open: nat, mid: nat, close: nat, next: string)
    requires open < mid && mid + 2 <= close < |s| && next == Unlinked(s, open, mid, close)
    ensures Subsequence(next, s)
  {
    var once := s[..mid] + s[close + 1..];
    CutOut(s, mid, close + 1);
    CutOut(once, open, open + 1);
    UnlinkedInTwoCuts(s, open, mid, close, once);
    SubsequenceTransitive(next, once, s);
  }

  /** Link stripping only ever deletes: nothing is added, moved or repeated. */
  lemma {:induction false} LinksOnlyDeleted(s: string)
    ensures Subsequence(LinksStripped(s), s)
    decreases |s|
  {
    match FirstLink(s)
    case None => SubsequenceOfItself(s);
    case Some((open, mid, close)) =>
      var next := Unlinked(s, open, mid, close);
      LinksOnlyDeleted(next);
      UnlinkedIsSubsequence(s, open, mid, close, next);
      SubsequenceTransitive(LinksStripped(s), next, s);
  }

  /** The nested searches of the loop's guard and body. */
  method FindLink(s: string) returns (found: Option<(nat, nat, nat)>)
    ensures found == FirstLink(s)
  {
    var open := FindChar(s, '[', 0);
    if open.None? {
      return None;
    }
    var mid := FindFrom(s, "](", open.value);
    if mid.None? {
      return None;
    }
    var close := FindChar(s, ')', mid.value + 2);
    if close.None? {
      return None;
    }
    return Some((open.value, mid.value, close.value));
  }

  method StripLinks(text: string) returns (s: string)
    ensures s == LinksStripped(text)
    ensures !HasLink(s) && Subsequence(s, text)
  {
    s := text;
    while true
      invariant LinksStripped(s) == LinksStripped(text)
      decreases |s|
    {
      var found := FindLink(s);
      if found.None? {
        break;
      }
      var (open, mid, close) := found.value;
      var inner := s[open + 1..mid];
      s := s[..open] + inner + s[close + 1..];
    }
    NoLinkRemains(text);
    LinksOnlyDeleted(text);
  }
}
