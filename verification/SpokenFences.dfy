/** What the first pass keeps: a text is prose and code blocks by turns, and the prose stays. */
module SpokenFences {
  import opened Text
  import opened StripMarkdown

  /** A fence that stands behind `p` begins there and no earlier. */
  predicate EndsBeforeFence(p: string) {
    !Contains(p, FENCE) && (p != "" ==> p[|p| - 1] != TICK)
  }

  /** Prose, and the inside of the block that follows it. */
  datatype Section = Section(prose: string, block: string)

  function Written(sections: seq<Section>, tail: string): string
    decreases |sections|
  {
    if sections == [] then tail
    else sections[0].prose + (FENCE + (sections[0].block + (FENCE + Written(sections[1..], tail))))
  }

  function Prose(sections: seq<Section>, tail: string): string
    decreases |sections|
  {
    if sections == [] then tail else sections[0].prose + (" " + Prose(sections[1..], tail))
  }

  predicate WellCut(sections: seq<Section>) {
    forall i :: 0 <= i < |sections| ==> EndsBeforeFence(sections[i].prose) && EndsBeforeFence(sections[i].block)
  }

  lemma FenceIsTicks(m: nat)
    requires m < |FENCE|
    ensures FENCE[m] == TICK
  {
  }

  lemma NoFenceBefore(s: string, p: string, t: string, k: nat)
    requires s == p + t && EndsBeforeFence(p) && k < |p|
    ensures !OccursAt(s, FENCE, k)
  {
    if k + |FENCE| <= |p| {
      OccurrenceIsLocal(s, k, p, k, FENCE);
    } else if OccursAt(s, FENCE, k) {
      OccurrenceChar(s, FENCE, k, |p| - 1 - k);
      FenceIsTicks(|p| - 1 - k);
    }
  }

  lemma {:induction false} OccursInFront(s: string, w: string, t: string)
    requires s == w + t
    ensures OccursAt(s, w, 0)
  {
    OccursWhole(w, 0);
    OccurrenceIsLocal(s, 0, w, 0, w);
  }

  lemma {:induction false} OccursWhole(w: string, i: nat)
    requires i <= |w|
    ensures OccursAt(w, w[i..], i)
    decreases |w| - i
  {
    if i < |w| {
      OccursWhole(w, i + 1);
      assert w[i..][1..] == w[i + 1..];
    }
  }

  /** The first fence of `p + (FENCE + t)` is the one behind `p`. */
  lemma FenceFound(s: string, p: string, t: string)
    requires s == p + (FENCE + t) && EndsBeforeFence(p)
    ensures FindFrom(s, FENCE, 0) == Some(|p|)
  {
    var u := FENCE + t;
    forall k: nat | k < |p| ensures !OccursAt(s, FENCE, k) {
      NoFenceBefore(s, p, u, k);
    }
    FindSkips(s, FENCE, 0, |p|);
    OccursInFront(u, FENCE, t);
    ShiftedFind(s, p, u, FENCE, 0);
  }

  lemma BlockFound(t: string, block: string, rest: string)
    requires t == FENCE + (block + (FENCE + rest)) && EndsBeforeFence(block)
    ensures FencePair(t) == Some((0, |FENCE| + |block| + |FENCE|))
  {
    var inside := block + (FENCE + rest);
    OccursInFront(t, FENCE, inside);
    FenceFound(inside, block, rest);
    ShiftedFind(t, FENCE, inside, FENCE, 0);
  }

  lemma BlockBecomesSpace(find: string -> Option<(nat, nat)>, t: string, n: nat, rest: string)
    requires 0 < n <= |t| && find(t) == Some((0, n)) && t[n..] == rest
    ensures Blanked(find, t) == " " + Blanked(find, rest)
  {
    assert t[..0] + " " == " ";
  }

  lemma BehindBlock(t: string, block: string, rest: string)
    requires t == FENCE + (block + (FENCE + rest))
    ensures |FENCE| + |block| + |FENCE| <= |t| && t[|FENCE| + |block| + |FENCE|..] == rest
  {
  }

  /** One block goes and leaves a space: what stands before it is kept, and the pass goes on
      with what stands behind it, whatever that is. */
  lemma BlockIsTaken(s: string, prose: string, block: string, rest: string)
    requires s == prose + (FENCE + (block + (FENCE + rest)))
    requires EndsBeforeFence(prose) && EndsBeforeFence(block)
    ensures FencesStripped(s) == prose + (" " + FencesStripped(rest))
  {
    var t := FENCE + (block + (FENCE + rest));
    forall k: nat | k < |prose| ensures !OccursAt(s, FENCE, k) {
      NoFenceBefore(s, prose, t, k);
    }
    ShiftedFirstPair(s, prose, t, FENCE);
    FreeHead(FencePair, s, prose, t);
    BlockFound(t, block, rest);
    BehindBlock(t, block, rest);
    BlockBecomesSpace(FencePair, t, |FENCE| + |block| + |FENCE|, rest);
  }

  /** A text without a fence, or with one that is never closed, stays as it is. */
  lemma UnclosedStays(s: string)
    requires !HasPair(s, FENCE)
    ensures FencesStripped(s) == s
  {
    FirstPairFindsAny(s, FENCE);
  }

  /** The pass in closed form: of prose and blocks by turns it leaves the prose, in order,
      with one space for each block. */
  lemma {:induction false} ProseIsKept(sections: seq<Section>, tail: string)
    requires WellCut(sections) && !HasPair(tail, FENCE)
    ensures FencesStripped(Written(sections, tail)) == Prose(sections, tail)
    decreases |sections|
  {
    if sections == [] {
      UnclosedStays(tail);
    } else {
      assert EndsBeforeFence(sections[0].prose) && EndsBeforeFence(sections[0].block);
      ProseIsKept(sections[1..], tail);
      BlockIsTaken(Written(sections, tail), sections[0].prose, sections[0].block, Written(sections[1..], tail));
    }
  }

  /** The pass leaves no block behind. */
  lemma {:induction false} NoBlockIsLeft(s: string)
    ensures !HasPair(FencesStripped(s), FENCE)
    decreases |s|
  {
    FirstPairFindsAny(s, FENCE);
    match FencePair(s)
    case None =>
      UnclosedStays(s);
    case Some((i, j)) =>
      var next := s[..i] + " " + s[j..];
      RestartIsHarmless(s, i, j, next);
      NoBlockIsLeft(next);
  }

  lemma NothingBefore(s: string, from: nat, found: nat)
    requires from <= |s| && FindFrom(s, FENCE, from) == Some(found)
    ensures EndsBeforeFence(s[from..found]) && OccursAt(s, FENCE, found)
  {
    var p := s[from..found];
    FindIsFirst(s, FENCE, from);
    if Contains(p, FENCE) {
      var i: nat :| i <= |p| && OccursAt(p, FENCE, i);
      OccurrenceIsLocal(s, from + i, p, i, FENCE);
    }
    if p != "" && p[|p| - 1] == TICK {
      TickBefore(s, found);
    }
  }

  lemma TickBefore(s: string, i: nat)
    requires 0 < i && OccursAt(s, FENCE, i) && s[i - 1] == TICK
    ensures OccursAt(s, FENCE, i - 1)
  {
    OccurrenceChar(s, FENCE, i, 0);
    OccurrenceChar(s, FENCE, i, 1);
    TicksAreFence(s, i - 1);
  }

  lemma TicksAreFence(s: string, i: nat)
    requires i + 3 <= |s| && s[i] == TICK && s[i + 1] == TICK && s[i + 2] == TICK
    ensures OccursAt(s, FENCE, i)
  {
    assert FENCE[1..] == "``" && "``"[1..] == "`" && "`"[1..] == "";
  }

  lemma FenceAt(s: string, i: nat)
    requires OccursAt(s, FENCE, i)
    ensures s[i..] == FENCE + s[i + 3..]
  {
    WordAt(s, FENCE, i);
  }

  lemma WordAt(s: string, w: string, i: nat)
    requires OccursAt(s, w, i)
    ensures s[i..] == w + s[i + |w|..]
  {
    forall m: nat | m < |w| ensures s[i + m] == w[m] {
      OccurrenceChar(s, w, i, m);
    }
  }

  lemma FirstPairIs(s: string, i: nat, j: nat)
    requires FencePair(s) == Some((i, j))
    ensures i + 3 <= j - 3 && j <= |s|
    ensures FindFrom(s, FENCE, 0) == Some(i) && FindFrom(s, FENCE, i + 3) == Some(j - 3)
  {
  }

  lemma Rejoined(s: string, w: string, p: string, i: nat, i': nat, q: string, k: nat, j: nat)
    requires i <= i' <= k <= j <= |s| && s[i..] == w + s[i'..] && s[k..] == w + s[j..]
    requires p == s[0..i] && q == s[i'..k]
    ensures s == p + (w + (q + (w + s[j..])))
  {
    assert s[i'..] == q + s[k..];
  }

  lemma FoundIsCut(s: string, from: nat, found: nat) returns (p: string)
    requires from <= |s| && FindFrom(s, FENCE, from) == Some(found)
    ensures p == s[from..found] && EndsBeforeFence(p)
    ensures s[found..] == FENCE + s[found + 3..]
  {
    p := s[from..found];
    NothingBefore(s, from, found);
    FenceAt(s, found);
  }

  /** Cutting at the first pair of fences. */
  lemma CutAtPair(s: string, i: nat, j: nat) returns (prose: string, block: string)
    requires FencePair(s) == Some((i, j))
    ensures i + 3 <= j - 3 && j <= |s|
    ensures EndsBeforeFence(prose) && EndsBeforeFence(block)
    ensures s == prose + (FENCE + (block + (FENCE + s[j..])))
  {
    FirstPairIs(s, i, j);
    prose := FoundIsCut(s, 0, i);
    block := FoundIsCut(s, i + 3, j - 3);
    Rejoined(s, FENCE, prose, i, i + 3, block, j - 3, j);
  }

  lemma WellCutAppends(first: Section, more: seq<Section>)
    requires EndsBeforeFence(first.prose) && EndsBeforeFence(first.block) && WellCut(more)
    ensures WellCut([first] + more)
  {
  }

  /** And every text is of that form: cutting at each pair of fences in turn writes it as
      prose and blocks, with a tail in which no block is closed. */
  lemma {:induction false} EveryTextIsSections(s: string) returns (sections: seq<Section>, tail: string)
    ensures WellCut(sections) && !HasPair(tail, FENCE)
    ensures s == Written(sections, tail)
    decreases |s|
  {
    FirstPairFindsAny(s, FENCE);
    match FencePair(s) {
      case None =>
        sections, tail := [], s;
      case Some((i, j)) =>
        var prose, block := CutAtPair(s, i, j);
        var first := Section(prose, block);
        var more;
        more, tail := EveryTextIsSections(s[j..]);
        sections := [first] + more;
        WellCutAppends(first, more);
        assert sections[1..] == more;
    }
  }
}
