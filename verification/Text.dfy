/** Small string vocabulary shared by the models: optional and fallible values,
    whitespace trimming, searching and ASCII case folding. */
module Text {

  datatype Option<+T> = None | Some(value: T)

  datatype Result<+T, +E> = Ok(value: T) | Err(error: E)

  lemma AppendIsAssociative<T>(a: seq<T>, b: seq<T>, c: seq<T>)
    ensures a + (b + c) == a + b + c
  {
  }

  /** The Unicode `White_Space` property, which is what trimming removes. */
  predicate IsWhite(c: char) {
    || '\t' <= c <= '\r'
    || c == ' ' || c == '\U{85}' || c == '\U{A0}' || c == '\U{1680}'
    || '\U{2000}' <= c <= '\U{200A}'
    || c == '\U{2028}' || c == '\U{2029}' || c == '\U{202F}' || c == '\U{205F}' || c == '\U{3000}'
  }

  function TrimStart(s: string): string {
    if s != "" && IsWhite(s[0]) then TrimStart(s[1..]) else s
  }

  function TrimEnd(s: string): string {
    if s != "" && IsWhite(s[|s| - 1]) then TrimEnd(s[..|s| - 1]) else s
  }

  function Trim(s: string): string {
    TrimEnd(TrimStart(s))
  }

  /** Only whitespace goes from the front, and none is left there. */
  lemma {:induction false} TrimStartShape(s: string)
    ensures |TrimStart(s)| <= |s| && TrimStart(s) == s[|s| - |TrimStart(s)|..]
    ensures TrimStart(s) != "" ==> !IsWhite(TrimStart(s)[0])
    ensures forall i :: 0 <= i < |s| - |TrimStart(s)| ==> IsWhite(s[i])
  {
    if s != "" && IsWhite(s[0]) {
      var tail := s[1..];
      TrimStartShape(tail);
      var k := |tail| - |TrimStart(tail)|;
      assert tail[k..] == s[k + 1..];
      forall i | 0 <= i < k + 1 ensures IsWhite(s[i]) {
        assert i > 0 ==> s[i] == tail[i - 1];
      }
    }
  }

  /** Only whitespace goes from the back, and none is left there. */
  lemma {:induction false} TrimEndShape(s: string)
    ensures TrimEnd(s) <= s
    ensures TrimEnd(s) != "" ==> !IsWhite(TrimEnd(s)[|TrimEnd(s)| - 1])
    ensures forall i :: |TrimEnd(s)| <= i < |s| ==> IsWhite(s[i])
  {
    if s != "" && IsWhite(s[|s| - 1]) {
      var front := s[..|s| - 1];
      TrimEndShape(front);
      forall i | |TrimEnd(s)| <= i < |s| ensures IsWhite(s[i]) {
        assert i < |front| ==> s[i] == front[i];
      }
    }
  }

  lemma TrimIdempotent(s: string)
    ensures Trim(Trim(s)) == Trim(s)
  {
    var t := Trim(s);
    TrimStartShape(s);
    TrimEndShape(TrimStart(s));
    if t != "" {
      assert t[0] == TrimStart(s)[0];
      assert TrimStart(t) == t;
    }
  }

  predicate AllWhite(s: string) {
    forall i :: 0 <= i < |s| ==> IsWhite(s[i])
  }

  /** Not empty, and no whitespace at either end. */
  predicate Trimmed(s: string) {
    s != "" && !IsWhite(s[0]) && !IsWhite(s[|s| - 1])
  }

  lemma {:induction false} TrimStartPadded(pad: string, s: string)
    requires AllWhite(pad) && (s != "" ==> !IsWhite(s[0]))
    ensures TrimStart(pad + s) == s
    decreases |pad|
  {
    if pad == "" {
      assert pad + s == s;
    } else {
      assert (pad + s)[1..] == pad[1..] + s;
      TrimStartPadded(pad[1..], s);
    }
  }

  lemma {:induction false} TrimEndPadded(s: string, pad: string)
    requires AllWhite(pad) && (s != "" ==> !IsWhite(s[|s| - 1]))
    ensures TrimEnd(s + pad) == s
    decreases |pad|
  {
    if pad == "" {
      assert s + pad == s;
    } else {
      assert (s + pad)[..|s + pad| - 1] == s + pad[..|pad| - 1];
      TrimEndPadded(s, pad[..|pad| - 1]);
    }
  }

  /** Trimming takes whitespace, and only that, from around a trimmed text. */
  lemma TrimPadded(pad: string, s: string, pad': string)
    requires AllWhite(pad) && AllWhite(pad') && Trimmed(s)
    ensures Trim(pad + (s + pad')) == s
  {
    TrimStartPadded(pad, s + pad');
    TrimEndPadded(s, pad');
  }

  lemma TrimStartSplits(s: string) returns (pad: string)
    ensures AllWhite(pad) && s == pad + TrimStart(s)
  {
    TrimStartShape(s);
    pad := s[..|s| - |TrimStart(s)|];
  }

  lemma TrimEndSplits(s: string) returns (pad: string)
    ensures AllWhite(pad) && s == TrimEnd(s) + pad
  {
    TrimEndShape(s);
    pad := s[|TrimEnd(s)|..];
  }

  /** Whatever is not all whitespace is a trimmed text with whitespace around it. */
  lemma TrimSplits(s: string) returns (pad: string, pad': string)
    requires Trim(s) != ""
    ensures AllWhite(pad) && AllWhite(pad') && Trimmed(Trim(s)) && s == pad + (Trim(s) + pad')
  {
    var t := TrimStart(s);
    pad := TrimStartSplits(s);
    pad' := TrimEndSplits(t);
    TrimStartShape(s);
    TrimEndShape(t);
    assert Trim(s)[0] == t[0];
  }

  /** `w` occurs in `s` at position `i`. */
  predicate OccursAt(s: string, w: string, i: nat)
    ensures OccursAt(s, w, i) ==> i + |w| <= |s|
    decreases |w|
  {
    if w == "" then i <= |s| else i < |s| && s[i] == w[0] && OccursAt(s, w[1..], i + 1)
  }

  predicate Contains(s: string, w: string) {
    exists i: nat | i <= |s| :: OccursAt(s, w, i)
  }

  /** The first occurrence of `w` at or after `from`, or none. */
  function FindFrom(s: string, w: string, from: nat): (r: Option<nat>)
    requires from <= |s|
    ensures r.Some? ==> from <= r.value && r.value + |w| <= |s|
    decreases |s| - from
  {
    if OccursAt(s, w, from) then Some(from)
    else if from < |s| then FindFrom(s, w, from + 1)
    else None
  }

  lemma {:induction false} FindIsFirst(s: string, w: string, from: nat)
    requires from <= |s|
    ensures var r := FindFrom(s, w, from);
            && (r.Some? ==> OccursAt(s, w, r.value))
            && (forall j: nat :: from <= j && (r.Some? ==> j < r.value) ==> !OccursAt(s, w, j))
    decreases |s| - from
  {
    if !OccursAt(s, w, from) && from < |s| {
      FindIsFirst(s, w, from + 1);
    }
  }

  lemma {:induction false} OccurrenceChar(s: string, w: string, i: nat, m: nat)
    requires OccursAt(s, w, i) && m < |w|
    ensures s[i + m] == w[m]
    decreases |w|
  {
    if m > 0 {
      OccurrenceChar(s, w[1..], i + 1, m - 1);
    }
  }

  /** Whether `w` occurs somewhere depends only on the characters there. */
  lemma {:induction false} OccurrenceIsLocal(s: string, i: nat, t: string, j: nat, w: string)
    requires i + |w| <= |s| && j + |w| <= |t|
    requires forall m :: i <= m < i + |w| ==> s[m] == t[m - i + j]
    ensures OccursAt(s, w, i) <==> OccursAt(t, w, j)
    decreases |w|
  {
    if w != "" {
      OccurrenceIsLocal(s, i + 1, t, j + 1, w[1..]);
    }
  }

  /** The first `c` at or after `from`, or none. */
  function FindChar(s: string, c: char, from: nat): (r: Option<nat>)
    requires from <= |s|
    ensures r.Some? ==> from <= r.value < |s| && s[r.value] == c
    decreases |s| - from
  {
    if from == |s| then None
    else if s[from] == c then Some(from)
    else FindChar(s, c, from + 1)
  }

  lemma {:induction false} FindCharIsFirst(s: string, c: char, from: nat)
    requires from <= |s|
    ensures var r := FindChar(s, c, from);
            forall j :: from <= j < (if r.Some? then r.value else |s|) ==> s[j] != c
    decreases |s| - from
  {
    if from < |s| && s[from] != c {
      FindCharIsFirst(s, c, from + 1);
    }
  }

  function LowerChar(c: char): char {
    if 'A' <= c <= 'Z' then (c as int + 32) as char else c
  }

  function Lower(s: string): (r: string)
    ensures |r| == |s|
    ensures forall i :: 0 <= i < |s| ==> r[i] == LowerChar(s[i])
  {
    seq(|s|, i requires 0 <= i < |s| => LowerChar(s[i]))
  }
}
