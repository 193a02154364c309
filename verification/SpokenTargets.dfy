/** Which link and image targets are left in the text that is read aloud. */
module SpokenTargets {
  import opened Text
  import opened StripMarkdown
  import opened SpokenText

  // ----------------------------------------------------------- the link pass

  lemma {:induction false} ShiftedChar(s: string, p: string, t: string, c: char, from: nat)
    requires s == p + t && from <= |t|
    ensures var r := FindChar(t, c, from);
            FindChar(s, c, |p| + from) == (if r.Some? then Some(|p| + r.value) else None)
    decreases |t| - from
  {
    if from < |t| && t[from] != c {
      ShiftedChar(s, p, t, c, from + 1);
    }
  }

  lemma {:induction false} CharSkips(s: string, c: char, from: nat, later: nat)
    requires from <= later <= |s|
    requires forall k :: from <= k < later ==> s[k] != c
    ensures FindChar(s, c, from) == FindChar(s, c, later)
    decreases later - from
  {
    if from < later {
      CharSkips(s, c, from + 1, later);
    }
  }

  function Shifted(found: Option<(nat, nat, nat)>, k: nat): Option<(nat, nat, nat)> {
    if found.None? then None else Some((k + found.value.0, k + found.value.1, k + found.value.2))
  }

  lemma ShiftedLinkFrom(s: string, p: string, t: string, open: nat)
    requires s == p + t && open < |t| && t[open] == '['
    ensures LinkFrom(s, |p| + open) == Shifted(LinkFrom(t, open), |p|)
  {
    BracketBeforeTarget(t, open);
    ShiftedFind(s, p, t, "](", open);
    var mid := FindFrom(t, "](", open);
    if mid.Some? {
      ShiftedChar(s, p, t, ')', mid.value + 2);
    }
  }

  lemma ShiftedLink(s: string, p: string, t: string)
    requires s == p + t && '[' !in p
    ensures FirstLink(s) == Shifted(FirstLink(t), |p|)
  {
    assert forall k :: 0 <= k < |p| ==> s[k] == p[k];
    CharSkips(s, '[', 0, |p|);
    ShiftedChar(s, p, t, '[', 0);
    var open := FindChar(t, '[', 0);
    if open.Some? {
      ShiftedLinkFrom(s, p, t, open.value);
    }
  }

  lemma UnlinkedBehind(s: string, p: string, t: string, open: nat, mid: nat, close: nat)
    requires s == p + t && open < mid && mid + 2 <= close < |t|
    ensures Unlinked(s, |p| + open, |p| + mid, |p| + close) == p + Unlinked(t, open, mid, close)
  {
  }

  lemma RelabelNone(find: string -> Option<(nat, nat, nat)>, s: string)
    requires find(s) == None
    ensures Relabelled(find, s) == s
  {
  }

  lemma RelabelStep(find: string -> Option<(nat, nat, nat)>, s: string, open: nat, mid: nat, close: nat, next: string)
    requires find(s) == Some((open, mid, close)) && open < mid && mid + 2 <= close < |s|
    requires next == Unlinked(s, open, mid, close)
    ensures Relabelled(find, s) == Relabelled(find, next)
  {
  }

  /** What stands before the first bracket is left alone. */
  lemma {:induction false} BracketFreeHeadStays(p: string, t: string)
    requires '[' !in p
    ensures LinksStripped(p + t) == p + LinksStripped(t)
    decreases |t|
  {
    var s := p + t;
    ShiftedLink(s, p, t);
    match FirstLink(t)
    case None =>
      RelabelNone(FirstLink, s);
      RelabelNone(FirstLink, t);
    case Some((open, mid, close)) =>
      var next := Unlinked(t, open, mid, close);
      UnlinkedBehind(s, p, t, open, mid, close);
      RelabelStep(FirstLink, s, |p| + open, |p| + mid, |p| + close, p + next);
      RelabelStep(FirstLink, t, open, mid, close, next);
      BracketFreeHeadStays(p, next);
  }

  lemma LinkInside(s: string, h: string, target: string, open: nat)
    requires h + "](" + target + ")" <= s && open < |h| && h[open] == '['
    ensures LinkAt(s, open, |h|, |h| + 2 + |target|)
  {
    var w := h + "](" + target + ")";
    assert s[open] == w[open] && s[|h|] == w[|h|] && s[|h| + 1] == w[|h| + 1];
    assert s[|h| + 2 + |target|] == w[|h| + 2 + |target|];
    TargetOccurs(s, |h|);
  }

  lemma {:induction false} PrefixChar(h: string, x: string, c: char, from: nat)
    requires from <= |h| && FindChar(h, c, from).Some?
    ensures FindChar(h + x, c, from) == FindChar(h, c, from)
    decreases |h| - from
  {
    if h[from] != c {
      PrefixChar(h, x, c, from + 1);
    }
  }

  lemma {:induction false} PrefixFind(h: string, x: string, w: string, from: nat)
    requires from <= |h| && FindFrom(h, w, from).Some?
    ensures FindFrom(h + x, w, from) == FindFrom(h, w, from)
    decreases |h| - from
  {
    OccurrenceIsLocal(h, from, h + x, from, w);
    if !OccursAt(h, w, from) {
      PrefixFind(h, x, w, from + 1);
    }
  }

  lemma PrefixLinkFrom(h: string, x: string, open: nat)
    requires open < |h| && h[open] == '[' && LinkFrom(h, open).Some?
    ensures LinkFrom(h + x, open) == LinkFrom(h, open)
  {
    BracketBeforeTarget(h, open);
    BracketBeforeTarget(h + x, open);
    PrefixFind(h, x, "](", open);
    PrefixChar(h, x, ')', FindFrom(h, "](", open).value + 2);
  }

  /** A link that is complete is found first, whatever follows. */
  lemma PrefixLink(h: string, x: string)
    requires FirstLink(h).Some?
    ensures FirstLink(h + x) == FirstLink(h)
  {
    PrefixChar(h, x, '[', 0);
    PrefixLinkFrom(h, x, FindChar(h, '[', 0).value);
  }

  lemma UnlinkedBefore(h: string, x: string, open: nat, mid: nat, close: nat)
    requires open < mid && mid + 2 <= close < |h|
    ensures Unlinked(h + x, open, mid, close) == Unlinked(h, open, mid, close) + x
  {
  }

  /** The link pass over a text can begin with the pass over any head of it. */
  lemma {:induction false} HeadFirst(h: string, x: string)
    ensures LinksStripped(h + x) == LinksStripped(LinksStripped(h) + x)
    decreases |h|
  {
    match FirstLink(h)
    case None => RelabelNone(FirstLink, h);
    case Some((open, mid, close)) =>
      var next := Unlinked(h, open, mid, close);
      PrefixLink(h, x);
      UnlinkedBefore(h, x, open, mid, close);
      RelabelStep(FirstLink, h, open, mid, close, next);
      RelabelStep(FirstLink, h + x, open, mid, close, next + x);
      HeadFirst(next, x);
  }

  lemma TargetBehindHead(g: string, w: string, target: string, q: string)
    requires '[' !in target && w == g + "](" + target + ")" && !HasLink(g)
    ensures w <= LinksStripped(w + q) <==> '[' !in g
    ensures '[' !in g ==> LinksStripped(w + q) == w + LinksStripped(q)
  {
    if '[' in g {
      var open :| 0 <= open < |g| && g[open] == '[';
      NoLinkRemains(w + q);
      if w <= LinksStripped(w + q) {
        LinkInside(LinksStripped(w + q), g, target, open);
      }
    } else {
      assert '[' !in w;
      BracketFreeHeadStays(w, q);
    }
  }

  lemma HeadOfTarget(h: string, target: string, q: string)
    ensures LinksStripped(h + "](" + target + ")" + q) ==
            LinksStripped(LinksStripped(h) + "](" + target + ")" + q)
  {
    var x := "](" + target + ")" + q;
    HeadFirst(h, x);
    assert h + "](" + target + ")" + q == h + x;
    assert LinksStripped(h) + "](" + target + ")" + q == LinksStripped(h) + x;
  }

  /** In the link pass a target survives, behind what the pass makes of the text before it,
      if and only if that leaves no bracket open. */
  lemma TargetSurvivesExactly(h: string, target: string, q: string)
    requires '[' !in target
    ensures var g := LinksStripped(h);
            var w := g + "](" + target + ")";
            && (w <= LinksStripped(h + "](" + target + ")" + q) <==> '[' !in g)
            && ('[' !in g ==> LinksStripped(h + "](" + target + ")" + q) == w + LinksStripped(q))
  {
    var g := LinksStripped(h);
    NoLinkRemains(h);
    HeadOfTarget(h, target, q);
    TargetBehindHead(g, g + "](" + target + ")", target, q);
  }

  predicate Closes(x: string) {
    |x| >= 2 && x[0] == ']' && x[1] == '('
  }

  /** `x` is a target and more: its first closing parenthesis is at `n`. */
  predicate ClosesAt(x: string, n: nat) {
    Closes(x) && 2 <= n < |x| && x[n] == ')' && forall k :: 2 <= k < n ==> x[k] != ')'
  }

  lemma ClosingParen(g: string, x: string, n: nat, from: nat)
    requires ClosesAt(x, n) && from <= |g| + 2 && forall k :: from <= k < |g| ==> g[k] != ')'
    ensures FindChar(g + x, ')', from) == Some(|g| + n)
  {
    var u := g + x;
    forall k | from <= k < |g| + n ensures u[k] != ')' {
      assert u[k] == if k < |g| then g[k] else x[k - |g|];
    }
    assert u[|g| + n] == ')';
    CharSkips(u, ')', from, |g| + n);
  }

  lemma NoMarkBefore(g: string, x: string, k: nat)
    requires Closes(x) && k < |g| && !OccursAt(g, "](", k)
    ensures !OccursAt(g + x, "](", k)
  {
    var u := g + x;
    TargetOccurs(u, k);
    if k + 2 <= |g| {
      TargetOccurs(g, k);
      assert u[k] == g[k] && u[k + 1] == g[k + 1];
    } else {
      assert u[k + 1] == x[0];
    }
  }

  lemma OpenedMark(g: string, x: string, open: nat)
    requires Closes(x) && open <= |g| && FindFrom(g, "](", open) == None
    ensures FindFrom(g + x, "](", open) == Some(|g|)
  {
    var u := g + x;
    FindIsFirst(g, "](", open);
    forall k: nat | open <= k < |g| ensures !OccursAt(u, "](", k) {
      NoMarkBefore(g, x, k);
    }
    FindSkips(u, "](", open, |g|);
    assert u[|g|] == x[0] && u[|g| + 1] == x[1];
    TargetOccurs(u, |g|);
  }

  /** The mark that the first bracket of `g` is linked by once `x` follows. */
  function MarkOf(g: string, found: Option<nat>): nat {
    if found.Some? then found.value else |g|
  }

  lemma OpenedMid(g: string, x: string, open: nat, found: Option<nat>)
    requires Closes(x) && open <= |g| && FindFrom(g, "](", open) == found
    ensures FindFrom(g + x, "](", open) == Some(MarkOf(g, found)) && MarkOf(g, found) <= |g|
  {
    if found.None? {
      OpenedMark(g, x, open);
    } else {
      PrefixFind(g, x, "](", open);
    }
  }

  lemma NoParenBehindMark(g: string, open: nat, mid: nat)
    requires FirstLink(g) == None && FindChar(g, '[', 0) == Some(open) && FindFrom(g, "](", open) == Some(mid)
    ensures mid + 2 <= |g| && forall k :: mid + 2 <= k < |g| ==> g[k] != ')'
  {
    BracketBeforeTarget(g, open);
    FindCharIsFirst(g, ')', mid + 2);
  }

  lemma OpenedClose(g: string, x: string, n: nat, open: nat, found: Option<nat>)
    requires ClosesAt(x, n) && FirstLink(g) == None
    requires FindChar(g, '[', 0) == Some(open) && FindFrom(g, "](", open) == found
    ensures MarkOf(g, found) + 2 <= |g + x| && FindChar(g + x, ')', MarkOf(g, found) + 2) == Some(|g| + n)
  {
    if found.Some? {
      NoParenBehindMark(g, open, found.value);
    }
    ClosingParen(g, x, n, MarkOf(g, found) + 2);
  }

  lemma LinkFromIs(u: string, open: nat, mid: nat, close: nat)
    requires open < |u| && u[open] == '[' && FindFrom(u, "](", open) == Some(mid)
    requires FindChar(u, ')', mid + 2) == Some(close)
    ensures LinkFrom(u, open) == Some((open, mid, close)) && open < mid && mid + 2 <= close < |u|
  {
    BracketBeforeTarget(u, open);
  }

  lemma FirstLinkFrom(u: string, open: nat, r: Option<(nat, nat, nat)>)
    requires FindChar(u, '[', 0) == Some(open) && LinkFrom(u, open) == r
    ensures FirstLink(u) == r
  {
  }

  lemma OpenedFirst(u: string, g: string, x: string, open: nat, mid: nat, close: nat)
    requires u == g + x && Closes(x)
    requires FindChar(g, '[', 0) == Some(open) && mid == MarkOf(g, FindFrom(g, "](", open))
    requires mid + 2 <= |u| && FindChar(u, ')', mid + 2) == Some(close)
    ensures open < mid <= |g| && FirstLink(u) == Some((open, mid, close))
  {
    PrefixChar(g, x, '[', 0);
    OpenedMid(g, x, open, FindFrom(g, "](", open));
    LinkFromIs(u, open, mid, close);
    FirstLinkFrom(u, open, Some((open, mid, close)));
  }

  lemma OpenedRest(g: string, x: string, n: nat, open: nat, mid: nat)
    requires ClosesAt(x, n) && open < mid <= |g|
    ensures Unlinked(g + x, open, mid, |g| + n) == g[..open] + g[open + 1..mid] + x[n + 1..]
  {
    var u := g + x;
    assert u[|g| + n + 1..] == x[n + 1..];
    assert u[..open] == g[..open] && u[open + 1..mid] == g[open + 1..mid];
  }

  /** What a text with an open bracket keeps of itself when a target closes it: everything
      but the bracket, up to the mark that its first bracket is linked by. */
  function BeforeTarget(g: string): string {
    match FindChar(g, '[', 0)
    case None => g
    case Some(open) =>
      var mid := MarkOf(g, FindFrom(g, "](", open));
      if open < mid <= |g| then g[..open] + g[open + 1..mid] else g
  }

  lemma OpenedStripsTo(u: string, g: string, x: string, n: nat, open: nat, mid: nat, kept: string)
    requires u == g + x && ClosesAt(x, n) && FirstLink(g) == None
    requires FindChar(g, '[', 0) == Some(open) && mid == MarkOf(g, FindFrom(g, "](", open))
    requires open < mid <= |g| && kept == g[..open] + g[open + 1..mid]
    ensures LinksStripped(u) == LinksStripped(kept + x[n + 1..])
  {
    OpenedClose(g, x, n, open, FindFrom(g, "](", open));
    OpenedFirst(u, g, x, open, mid, |g| + n);
    OpenedRest(g, x, n, open, mid);
    RelabelStep(FirstLink, u, open, mid, |g| + n, kept + x[n + 1..]);
  }

  lemma BeforeTargetIs(g: string, open: nat) returns (mid: nat)
    requires FindChar(g, '[', 0) == Some(open)
    ensures mid == MarkOf(g, FindFrom(g, "](", open)) && open < mid <= |g|
    ensures BeforeTarget(g) == g[..open] + g[open + 1..mid]
  {
    mid := MarkOf(g, FindFrom(g, "](", open));
    BracketBeforeTarget(g, open);
  }

  lemma OpenedStrips(g: string, x: string, n: nat, open: nat)
    requires ClosesAt(x, n) && FirstLink(g) == None && FindChar(g, '[', 0) == Some(open)
    ensures LinksStripped(g + x) == LinksStripped(BeforeTarget(g) + x[n + 1..])
  {
    var mid := BeforeTargetIs(g, open);
    OpenedStripsTo(g + x, g, x, n, open, mid, BeforeTarget(g));
  }

  lemma TargetClosesAt(target: string, q: string)
    requires ')' !in target
    ensures var x := "](" + target + ")" + q; ClosesAt(x, 2 + |target|) && x[3 + |target|..] == q
  {
    var x := "](" + target + ")" + q;
    assert forall k :: 2 <= k < 2 + |target| ==> x[k] == target[k - 2];
  }

  /** Where it leaves a bracket open the target is deleted, up to its first closing
      parenthesis: the pass goes on as if it had never been there. */
  lemma TargetIsDeleted(h: string, target: string, q: string)
    requires '[' in LinksStripped(h) && ')' !in target
    ensures LinksStripped(h + "](" + target + ")" + q) == LinksStripped(BeforeTarget(LinksStripped(h)) + q)
  {
    var g, x := LinksStripped(h), "](" + target + ")" + q;
    NoLinkRemains(h);
    FirstLinkFindsAny(g);
    HeadFirst(h, x);
    assert h + "](" + target + ")" + q == h + x;
    FindCharIsFirst(g, '[', 0);
    TargetClosesAt(target, q);
    OpenedStrips(g, x, 2 + |target|, FindChar(g, '[', 0).value);
  }

  // ---------------------------------------------------------- the image pass

  lemma BangOccurs(s: string, k: nat)
    requires k + 2 <= |s|
    ensures OccursAt(s, "![", k) <==> s[k] == '!' && s[k + 1] == '['
  {
    assert "!["[1..] == "[" && "["[1..] == "";
  }

  lemma DeletedStep(find: string -> Option<nat>, s: string, i: nat, head: string, rest: string)
    requires find(s) == Some(i) && i + 2 <= |s| && head == s[..i] && rest == s[i + 2..]
    ensures Deleted(find, s) == head + Deleted(find, rest)
  {
  }

  lemma DeletedBehind(find: string -> Option<nat>, s: string, p: string, t: string)
    requires s == p + t
    requires find(s) == if find(t).Some? then Some(|p| + find(t).value) else None
    ensures Deleted(find, s) == p + Deleted(find, t)
  {
    if find(t).Some? && find(t).value + 2 <= |t| {
      var i := find(t).value;
      CutBeyond(s, p, t, i);
      CutBeyond(s, p, t, i + 2);
      DeletedStep(find, t, i, t[..i], t[i + 2..]);
      DeletedStep(find, s, |p| + i, p + t[..i], t[i + 2..]);
      AppendIsAssociative(p, t[..i], Deleted(find, t[i + 2..]));
    }
  }

  lemma BangBehind(s: string, p: string, t: string)
    requires s == p + t
    requires forall k: nat :: k < |p| ==> !OccursAt(s, "![", k)
    ensures BangsRemoved(s) == p + BangsRemoved(t)
  {
    FindSkips(s, "![", 0, |p|);
    ShiftedFind(s, p, t, "![", 0);
    DeletedBehind(FirstBang, s, p, t);
  }

  /** Text without brackets is left alone by the image pass, unless it ends in the '!' of
      an image. */
  lemma PlainStays(p: string, t: string)
    requires '[' !in p && (p != "" ==> p[|p| - 1] != '!')
    ensures BangsRemoved(p + t) == p + BangsRemoved(t)
  {
    var s := p + t;
    forall k: nat | k < |p| ensures !OccursAt(s, "![", k) {
      if k + 2 <= |s| {
        BangOccurs(s, k);
        assert k + 1 < |p| ==> s[k + 1] == p[k + 1];
      }
    }
    BangBehind(s, p, t);
  }

  lemma DeletedFirst(find: string -> Option<nat>, b: string, t: string)
    requires |b| == 2 + |t| && b[2..] == t && find(b) == Some(0)
    ensures Deleted(find, b) == Deleted(find, t)
  {
    assert b[..0] + Deleted(find, t) == Deleted(find, t);
  }

  lemma BangFirst(b: string, t: string)
    requires b == "![" + t
    ensures BangsRemoved(b) == BangsRemoved(t)
  {
    BangOccurs(b, 0);
    assert b[2..] == t;
    DeletedFirst(FirstBang, b, t);
  }

  lemma BracketStays(t: string)
    ensures BangsRemoved("[" + t) == "[" + BangsRemoved(t)
  {
    var s := "[" + t;
    forall k: nat | k < 1 ensures !OccursAt(s, "![", k) {
      if 2 <= |s| {
        BangOccurs(s, 0);
      }
    }
    BangBehind(s, "[", t);
  }

  lemma PrefixBang(p: string, t: string)
    requires FirstBang(p).Some?
    ensures FirstBang(p + t) == FirstBang(p)
  {
    PrefixFind(p, t, "![", 0);
  }

  predicate Glues(p: string, t: string) {
    p != "" && p[|p| - 1] == '!' && t != "" && t[0] == '['
  }

  lemma NoBangBefore(p: string, t: string)
    requires FirstBang(p) == None && !Glues(p, t)
    ensures forall k: nat :: k < |p| ==> !OccursAt(p + t, "![", k)
  {
    var s := p + t;
    FindIsFirst(p, "![", 0);
    forall k: nat | k < |p| ensures !OccursAt(s, "![", k) {
      if k + 2 <= |s| {
        BangOccurs(s, k);
        if k + 2 <= |p| {
          BangOccurs(p, k);
          assert s[k] == p[k] && s[k + 1] == p[k + 1];
        } else {
          assert s[k] == p[|p| - 1] && s[k + 1] == t[0];
        }
      }
    }
  }

  lemma DeletedNone(find: string -> Option<nat>, s: string)
    requires find(s) == None
    ensures Deleted(find, s) == s
  {
  }

  /** The image pass works on two pieces separately, unless they meet in an image's mark. */
  lemma {:induction false} BangsDistribute(p: string, t: string)
    requires !Glues(p, t)
    ensures BangsRemoved(p + t) == BangsRemoved(p) + BangsRemoved(t)
    decreases |p|
  {
    match FirstBang(p)
    case None =>
      NoBangBefore(p, t);
      BangBehind(p + t, p, t);
      DeletedNone(FirstBang, p);
    case Some(i) =>
      var rest := p[i + 2..];
      PrefixBang(p, t);
      BangsDistribute(rest, t);
      DeletedStep(FirstBang, p, i, p[..i], rest);
      assert (p + t)[..i] == p[..i] && (p + t)[i + 2..] == rest + t;
      DeletedStep(FirstBang, p + t, i, p[..i], rest + t);
      AppendIsAssociative(p[..i], BangsRemoved(rest), BangsRemoved(t));
  }

  lemma BracketFreeStays(s: string)
    requires '[' !in s
    ensures BangsRemoved(s) == s
  {
    FindIsFirst(s, "![", 0);
    forall k: nat | k <= |s| ensures !OccursAt(s, "![", k) {
      if k + 2 <= |s| {
        BangOccurs(s, k);
      }
    }
    DeletedNone(FirstBang, s);
  }

  lemma TargetPassesImagePass(head: string, target: string, q: string)
    requires '[' !in target
    ensures BangsRemoved(head + "](" + target + ")" + q) == BangsRemoved(head) + "](" + target + ")" + BangsRemoved(q)
  {
    var w := "](" + target + ")";
    assert head + "](" + target + ")" + q == head + w + q;
    assert BangsRemoved(head) + "](" + target + ")" == BangsRemoved(head) + w;
    assert (head + w)[|head + w| - 1] == ')' && '[' !in w;
    BangsDistribute(head + w, q);
    BangsDistribute(head, w);
    BracketFreeStays(w);
  }

  /** Through both passes, whatever stands in front and behind: a target is left in the
      text if and only if what they make of the text before it has no bracket open. */
  lemma TargetIsSpokenExactly(head: string, target: string, q: string)
    requires '[' !in target
    ensures var g := LinksStripped(BangsRemoved(head));
            var spoken := LinksStripped(BangsRemoved(head + "](" + target + ")" + q));
            && (g + "](" + target + ")" <= spoken <==> '[' !in g)
            && ('[' !in g ==> spoken == g + "](" + target + ")" + LinksStripped(BangsRemoved(q)))
            && ('[' in g && ')' !in target ==> spoken == LinksStripped(BeforeTarget(g) + BangsRemoved(q)))
  {
    var h := BangsRemoved(head);
    TargetPassesImagePass(head, target, q);
    TargetSurvivesExactly(h, target, BangsRemoved(q));
    if '[' in LinksStripped(h) && ')' !in target {
      TargetIsDeleted(h, target, BangsRemoved(q));
    }
  }

  // -------------------------------------------------------- images and links

  /** Text that cannot complete a link leaves the brackets before it as they are. */
  lemma PlainTailStays(h: string, tail: string)
    requires ')' !in tail
    ensures LinksStripped(h + tail) == LinksStripped(h) + tail
  {
    var g := LinksStripped(h);
    HeadFirst(h, tail);
    NoLinkRemains(h);
    FirstLinkFindsAny(g + tail);
    if open: nat, mid: nat, close: nat :| LinkAt(g + tail, open, mid, close) {
      LinkInHead(g, tail, open, mid, close);
    }
    RelabelNone(FirstLink, g + tail);
  }

  lemma LinkInHead(g: string, tail: string, open: nat, mid: nat, close: nat)
    requires ')' !in tail && LinkAt(g + tail, open, mid, close)
    ensures LinkAt(g, open, mid, close)
  {
    var s := g + tail;
    assert forall k :: 0 <= k < |s| ==> s[k] == if k < |g| then g[k] else tail[k - |g|];
    TargetOccurs(s, mid);
    TargetOccurs(g, mid);
  }

  lemma ImageHead(p: string, alt: string)
    ensures BangsRemoved(p + ("![" + alt)) == BangsRemoved(p) + BangsRemoved(alt)
  {
    BangsDistribute(p, "![" + alt);
    BangFirst("![" + alt, alt);
  }

  /** The image pass deletes an image's own bracket, so the target of an image is read aloud
      if and only if no bracket before it is left open. */
  lemma ImageTargetIsSpokenExactly(p: string, alt: string, target: string, q: string)
    requires '[' !in target
    ensures var g := LinksStripped(BangsRemoved(p) + BangsRemoved(alt));
            var spoken := LinksStripped(BangsRemoved(p + ("![" + alt) + "](" + target + ")" + q));
            && (g + "](" + target + ")" <= spoken <==> '[' !in g)
            && ('[' !in g ==> spoken == g + "](" + target + ")" + LinksStripped(BangsRemoved(q)))
            && ('[' in g && ')' !in target ==> spoken == LinksStripped(BeforeTarget(g) + BangsRemoved(q)))
    ensures '[' !in alt && ')' !in alt ==>
              LinksStripped(BangsRemoved(p) + BangsRemoved(alt)) == LinksStripped(BangsRemoved(p)) + alt
  {
    ImageHead(p, alt);
    TargetIsSpokenExactly(p + ("![" + alt), target, q);
    if '[' !in alt && ')' !in alt {
      BracketFreeStays(alt);
      PlainTailStays(BangsRemoved(p), alt);
    }
  }

  lemma {:induction false} SubsequenceHasNo(a: string, b: string, c: char)
    requires Subsequence(a, b) && c !in b
    ensures c !in a
    decreases |b|
  {
    if a != "" {
      if a[0] == b[0] && Subsequence(a[1..], b[1..]) {
        SubsequenceHasNo(a[1..], b[1..], c);
      } else {
        SubsequenceHasNo(a, b[1..], c);
      }
    }
  }

  lemma LinkHead(p: string, name: string)
    requires p != "" ==> p[|p| - 1] != '!'
    ensures BangsRemoved(p + ("[" + name)) == BangsRemoved(p) + ("[" + BangsRemoved(name))
  {
    BangsDistribute(p, "[" + name);
    BracketStays(name);
  }

  /** A link's own bracket is open before its target unless its name completes another link,
      so its target is deleted, whatever stands in front and behind. */
  lemma LinkTargetIsDeleted(p: string, name: string, target: string, q: string)
    requires (p != "" ==> p[|p| - 1] != '!') && '[' !in target
    ensures var g := LinksStripped(BangsRemoved(p) + ("[" + BangsRemoved(name)));
            var spoken := LinksStripped(BangsRemoved(p + ("[" + name) + "](" + target + ")" + q));
            && (g + "](" + target + ")" <= spoken <==> '[' !in g)
            && ('[' in g && ')' !in target ==> spoken == LinksStripped(BeforeTarget(g) + BangsRemoved(q)))
    ensures ')' !in name ==> '[' in LinksStripped(BangsRemoved(p) + ("[" + BangsRemoved(name)))
  {
    LinkHead(p, name);
    TargetIsSpokenExactly(p + ("[" + name), target, q);
    if ')' !in name {
      var g, tail := LinksStripped(BangsRemoved(p)), "[" + BangsRemoved(name);
      OnlyDeleted(FirstBang, name);
      SubsequenceHasNo(BangsRemoved(name), name, ')');
      PlainTailStays(BangsRemoved(p), tail);
      assert (g + tail)[|g|] == '[';
    }
  }

  lemma NoMark(s: string, from: nat)
    requires from <= |s| && forall k :: from <= k < |s| ==> s[k] != ']'
    ensures FindFrom(s, "](", from) == None
  {
    FindIsFirst(s, "](", from);
    forall k: nat | from <= k <= |s| ensures !OccursAt(s, "](", k) {
      if k + 2 <= |s| {
        TargetOccurs(s, k);
      }
    }
  }

  lemma OneOpen(g: string, name: string)
    requires '[' !in g && '[' !in name && ']' !in name
    ensures var s := g + ("[" + name);
            BeforeTarget(s) == g + name && LinksStripped(s) == s && '[' in s
  {
    var s := g + ("[" + name);
    assert forall k :: 0 <= k < |g| ==> s[k] == g[k];
    assert forall k :: |g| < k < |s| ==> s[k] == name[k - |g| - 1];
    CharSkips(s, '[', 0, |g|);
    NoMark(s, |g|);
    assert s[|g|] == '[' && s[..|g|] == g && s[|g| + 1..] == name;
    OneOpenIs(s, |g|);
  }

  lemma OneOpenIs(s: string, open: nat)
    requires FindChar(s, '[', 0) == Some(open) && FindFrom(s, "](", open) == None
    ensures BeforeTarget(s) == s[..open] + s[open + 1..] && LinksStripped(s) == s
  {
    assert s[open + 1..|s|] == s[open + 1..];
    FirstLinkFrom(s, open, None);
    RelabelNone(FirstLink, s);
  }

  lemma LinkNamed(p: string, mark: string, name: string, target: string, q: string)
    requires (p != "" ==> p[|p| - 1] != '!') && '[' !in LinksStripped(BangsRemoved(p))
    requires BangsRemoved(mark) == name && '[' !in name && ']' !in name && '[' !in target && ')' !in target
    ensures LinksStripped(BangsRemoved(p + ("[" + mark) + "](" + target + ")" + q)) ==
            LinksStripped(LinksStripped(BangsRemoved(p)) + name + BangsRemoved(q))
  {
    var g := LinksStripped(BangsRemoved(p));
    HeadFirst(BangsRemoved(p), "[" + name);
    OneOpen(g, name);
    LinkTargetIsDeleted(p, mark, target, q);
  }

  /** Where nothing is left open before it, a link is read aloud by its name. */
  lemma LinkIsSpokenByName(p: string, name: string, target: string, q: string)
    requires (p != "" ==> p[|p| - 1] != '!') && '[' !in LinksStripped(BangsRemoved(p))
    requires '[' !in name && ']' !in name && '[' !in target && ')' !in target
    ensures LinksStripped(BangsRemoved(p + ("[" + name) + "](" + target + ")" + q)) ==
            LinksStripped(BangsRemoved(p)) + name + LinksStripped(BangsRemoved(q))
  {
    BracketFreeStays(name);
    LinkNamed(p, name, name, target, q);
    BracketFreeHeadStays(LinksStripped(BangsRemoved(p)) + name, BangsRemoved(q));
  }

  lemma BareTargetPasses(target: string, q: string)
    requires '[' !in target
    ensures BangsRemoved("](" + target + ")" + q) == "](" + target + ")" + BangsRemoved(q)
  {
    var w := "](" + target + ")";
    assert w[|w| - 1] == ')' && '[' !in w;
    PlainStays(w, q);
  }

  lemma OuterTargetStays(g: string, target: string, rest: string)
    requires '[' !in g && '[' !in target
    ensures LinksStripped(g + ("](" + target + ")" + rest)) == g + "](" + target + ")" + LinksStripped(rest)
  {
    var w := g + "](" + target + ")";
    assert g + ("](" + target + ")" + rest) == w + rest && '[' !in w;
    BracketFreeHeadStays(w, rest);
  }

  /** An image inside a link is the other way round: its target meets the link's open
      bracket and is deleted, and then nothing is left to delete the link's own target. */
  lemma LinkedImageSwapsTargets(p: string, alt: string, image: string, target: string, q: string)
    requires (p != "" ==> p[|p| - 1] != '!') && '[' !in LinksStripped(BangsRemoved(p))
    requires '[' !in alt && ']' !in alt && '[' !in image && ')' !in image && '[' !in target
    ensures LinksStripped(BangsRemoved(p + ("[" + ("![" + alt)) + "](" + image + ")" + ("](" + target + ")" + q))) ==
            LinksStripped(BangsRemoved(p)) + alt + "](" + target + ")" + LinksStripped(BangsRemoved(q))
  {
    BangFirst("![" + alt, alt);
    BracketFreeStays(alt);
    LinkNamed(p, "![" + alt, alt, image, "](" + target + ")" + q);
    BareTargetPasses(target, q);
    OuterTargetStays(LinksStripped(BangsRemoved(p)) + alt, target, BangsRemoved(q));
  }

  // ----------------------------------------------------------- plain answers

  lemma BlankedNone(find: string -> Option<(nat, nat)>, s: string)
    requires find(s) == None
    ensures Blanked(find, s) == s
  {
  }

  lemma WithoutTicksNothingGoes(s: string)
    requires TICK !in s
    ensures Unticked(FencesStripped(s)) == s
  {
    TickFree(s);
    FirstPairFindsAny(s, FENCE);
    if i: nat, j: nat :| OccursAt(s, FENCE, i) && OccursAt(s, FENCE, j) && j >= i + |FENCE| {
      FenceHasTicks(s, i);
    }
    BlankedNone(FencePair, s);
    FewTicksStay(s);
  }

  predicate Solid(c: char) {
    !IsWhite(c) && c != '#' && c != '>'
  }

  lemma OneLine(s: string)
    requires s != "" && '\n' !in s && Solid(s[0]) && !IsWhite(s[|s| - 1])
    ensures Trim(Cleaned(s)) == s
  {
    FindCharIsFirst(s, '\n', 0);
    assert LinesOf(s) == [s] + [];
    CleanedSplit(s, []);
    assert CleanedLine(s) == s && s + "" == s;
  }

  lemma ImageAlone(alt: string, target: string, text: string, w: string)
    requires '[' !in alt && '[' !in target
    requires w == alt + "](" + target + ")" && text == "![" + alt + "](" + target + ")"
    ensures LinksStripped(BangsRemoved(text)) == w
  {
    assert text == "![" + w;
    BangFirst(text, w);
    assert '[' !in w;
    BracketFreeStays(w);
    BracketFreeHeadStays(w, "");
    NothingComesOfNothing();
    assert w + "" == w;
  }

  lemma NothingComesOfNothing()
    ensures BangsRemoved("") == "" && LinksStripped(BangsRemoved("")) == ""
  {
    assert FirstBang("") == None && BangsRemoved("") == "";
    assert FirstLink("") == None;
    RelabelNone(FirstLink, "");
  }

  lemma SpokenOneLine(text: string, w: string)
    requires TICK !in text && LinksStripped(BangsRemoved(text)) == w
    requires w != "" && '\n' !in w && Solid(w[0]) && !IsWhite(w[|w| - 1])
    ensures Spoken(text) == w
  {
    WithoutTicksNothingGoes(text);
    OneLine(w);
  }

  lemma NoTickIn(alt: string, target: string, text: string)
    requires text == "![" + alt + "](" + target + ")" && TICK !in alt && TICK !in target
    ensures TICK !in text
  {
  }

  /** So an answer that is one image is read aloud with the target. */
  lemma ImageIsSpokenWithTarget(alt: string, target: string)
    requires alt == "" || Solid(alt[0])
    requires '[' !in alt && TICK !in alt && '\n' !in alt
    requires '[' !in target && TICK !in target && '\n' !in target
    ensures Spoken("![" + alt + "](" + target + ")") == alt + "](" + target + ")"
  {
    var text, w := "![" + alt + "](" + target + ")", alt + "](" + target + ")";
    assert w[0] == (if alt == "" then ']' else alt[0]) && w[|w| - 1] == ')';
    ImageAlone(alt, target, text, w);
    NoTickIn(alt, target, text);
    SpokenOneLine(text, w);
  }
}
