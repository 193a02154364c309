/** The filter that links and image sources go through, and what a browser makes of what it
    lets through. */
module SafeLinks {
  import opened Text

  predicate OpensScheme(lower: string) {
    "javascript:" <= lower || "vbscript:" <= lower || "data:" <= lower
  }

  /** The filter's own test: once trimmed and lower-cased the link starts with no script
      or data scheme. */
  predicate Inert(url: string) {
    !OpensScheme(Lower(Trim(url)))
  }

  function SafeHref(url: string): string {
    var trimmed := Trim(url);
    var lower := Lower(trimmed);
    if "javascript:" <= lower || "vbscript:" <= lower || "data:" <= lower then "" else trimmed
  }

  /** The filter's result always passes its own test, a link that passes only loses its
      surrounding whitespace, and filtering twice changes nothing. */
  lemma SafeHrefIsInert(url: string)
    ensures Inert(SafeHref(url))
    ensures Inert(url) <==> SafeHref(url) == Trim(url)
    ensures SafeHref(SafeHref(url)) == SafeHref(url)
  {
    TrimIdempotent(url);
    if !Inert(url) {
      assert Trim("") == "";
      assert Lower("") == "";
      assert Lower(Trim(url)) != "";
    }
  }

  predicate IsBad(w: string) {
    w == "javascript:" || w == "vbscript:" || w == "data:"
  }

  lemma BlankedAs(url: string, t: string, w: string)
    requires Trim(url) == t && w <= Lower(t) && IsBad(w)
    ensures SafeHref(url) == ""
  {
  }

  lemma LowerPrefix(a: string, b: string)
    ensures Lower(a) <= Lower(a + b)
  {
    assert Lower(a + b)[..|a|] == Lower(a);
  }

  /** A script or data scheme in any mixture of cases, whatever stands behind it and around
      it, leaves nothing of the link. */
  lemma SchemeIsBlanked(pad: string, scheme: string, rest: string, pad': string, url: string)
    requires IsBad(Lower(scheme))
    requires AllWhite(pad) && AllWhite(pad') && Trimmed(scheme + rest)
    requires url == pad + ((scheme + rest) + pad')
    ensures SafeHref(url) == ""
  {
    TrimPadded(pad, scheme + rest, pad');
    LowerPrefix(scheme, rest);
    BlankedAs(url, scheme + rest, Lower(scheme));
  }

  /** And nothing else does: any other link that is not blank is only trimmed. */
  lemma OnlySchemesAreBlanked(url: string) returns (scheme: string, rest: string)
    requires SafeHref(url) != Trim(url)
    ensures SafeHref(url) == "" && Trim(url) == scheme + rest
    ensures IsBad(Lower(scheme))
  {
    var t := Trim(url);
    var n := if "javascript:" <= Lower(t) then 11 else if "vbscript:" <= Lower(t) then 9 else 5;
    scheme, rest := t[..n], t[n..];
    assert Lower(t)[..n] == Lower(scheme);
  }

  /** What a URL parser does first (section 4.4 of the WHATWG URL standard): control
      characters and spaces go from both ends, tabs and line breaks from everywhere. */
  function DropFront(s: string): string {
    if s != "" && s[0] <= ' ' then DropFront(s[1..]) else s
  }

  function DropBack(s: string): string {
    if s != "" && s[|s| - 1] <= ' ' then DropBack(s[..|s| - 1]) else s
  }

  predicate IsTabOrBreak(c: char) {
    c == '\t' || c == '\n' || c == '\r'
  }

  function Joined(s: string): string {
    if s == "" then "" else (if IsTabOrBreak(s[0]) then "" else [s[0]]) + Joined(s[1..])
  }

  /** The link opens a script or data scheme in a browser. */
  predicate Live(url: string) {
    OpensScheme(Lower(Joined(DropBack(DropFront(url)))))
  }

  predicate NoControls(s: string) {
    forall i :: 0 <= i < |s| ==> s[i] >= ' '
  }

  lemma {:induction false} NothingToJoin(s: string)
    requires NoControls(s)
    ensures Joined(s) == s
  {
    if s != "" {
      NothingToJoin(s[1..]);
      assert s == [s[0]] + s[1..];
    }
  }

  lemma SafeHrefIsLiveIfMissed(url: string)
    ensures Live(SafeHref(url)) <==> Inert(url) && Live(Trim(url))
  {
    SafeHrefIsInert(url);
    if !Inert(url) {
      assert SafeHref(url) == "" && DropBack(DropFront("")) == "" && Lower(Joined("")) == "";
    }
  }

  /** A character that a URL parser may drop stands before the first colon. */
  predicate Hidden(s: string) {
    match FindChar(s, ':', 0)
    case None => false
    case Some(k) => exists i | 0 <= i < k :: s[i] <= ' '
  }

  /** A scheme: small letters, then a colon. */
  predicate IsScheme(w: string) {
    w != "" && w[|w| - 1] == ':' && forall i :: 0 <= i < |w| - 1 ==> 'a' <= w[i] <= 'z'
  }

  lemma SchemesAreSchemes()
    ensures IsScheme("javascript:") && IsScheme("vbscript:") && IsScheme("data:")
  {
  }

  lemma {:induction false} FirstColon(s: string, k: nat, from: nat)
    requires from <= k < |s| && s[k] == ':' && forall i :: from <= i < k ==> s[i] != ':'
    ensures FindChar(s, ':', from) == Some(k)
    decreases k - from
  {
    if from < k {
      FirstColon(s, k, from + 1);
    }
  }

  /** A text that starts with a scheme hides nothing before its first colon. */
  lemma SchemeIsPlain(t: string, w: string)
    requires IsScheme(w) && w <= Lower(t)
    ensures !Hidden(t)
  {
    var k := |w| - 1;
    forall i | 0 <= i < k ensures t[i] > ' ' && t[i] != ':' {
      assert Lower(t)[i] == w[i];
    }
    assert Lower(t)[k] == w[k];
    FirstColon(t, k, 0);
  }

  lemma {:induction false} FrontStays(s: string)
    ensures s != "" && s[0] > ' ' ==> DropFront(s) == s
  {
  }

  lemma {:induction false} BackKeeps(s: string, k: nat)
    requires k < |s| && s[k] > ' '
    ensures DropBack(s) <= s && |DropBack(s)| > k
    decreases |s|
  {
    if s[|s| - 1] <= ' ' {
      BackKeeps(s[..|s| - 1], k);
    }
  }

  lemma JoinedHead(head: string, rest: string)
    requires NoControls(head)
    ensures head <= Joined(head + rest)
  {
    JoinedAppend(head, rest);
    NothingToJoin(head);
  }

  lemma SameHead(t: string, kept: string, n: nat)
    requires kept <= t && n <= |kept|
    ensures kept == t[..n] + kept[n..]
  {
  }

  lemma KeptHead(t: string, k: nat, kept: string)
    requires k < |kept| && kept <= t && forall i :: 0 <= i <= k ==> t[i] > ' '
    ensures t[..k + 1] <= Joined(kept)
  {
    SameHead(t, kept, k + 1);
    JoinedHead(t[..k + 1], kept[k + 1..]);
  }

  /** Up to a colon with nothing hidden before it, a URL parser leaves the text alone. */
  lemma HeadIsKept(t: string, k: nat)
    requires k < |t| && t[k] == ':' && forall i :: 0 <= i < k ==> t[i] > ' '
    ensures t[..k + 1] <= Joined(DropBack(DropFront(t)))
  {
    FrontStays(t);
    BackKeeps(t, k);
    KeptHead(t, k, DropBack(t));
  }

  lemma LowerHead(t: string, p: string, k: nat, w: string)
    requires k < |t| && t[k] == ':' && t[..k + 1] <= p && (forall i :: 0 <= i < k ==> t[i] != ':')
    requires IsScheme(w) && w <= Lower(p)
    ensures w <= Lower(t)
  {
    assert forall i :: 0 <= i <= k ==> p[i] == t[..k + 1][i] == t[i];
    assert Lower(p)[k] == ':';
    assert Lower(p)[|w| - 1] == w[|w| - 1] == ':';
    assert forall i :: 0 <= i < |w| ==> Lower(p)[i] == w[i];
    assert |w| - 1 == k;
    assert Lower(t)[..k + 1] == w;
  }

  lemma {:induction false} JoinedHas(s: string, c: char)
    requires c in Joined(s)
    ensures c in s
  {
    if s != "" && !(s[0] == c) {
      JoinedHas(s[1..], c);
    }
  }

  lemma {:induction false} DroppedHas(s: string, c: char)
    ensures c in DropFront(s) ==> c in s
  {
    if s != "" && s[0] <= ' ' {
      DroppedHas(s[1..], c);
    }
  }

  lemma {:induction false} DroppedBackHas(s: string, c: char)
    ensures c in DropBack(s) ==> c in s
    decreases |s|
  {
    if s != "" && s[|s| - 1] <= ' ' {
      DroppedBackHas(s[..|s| - 1], c);
    }
  }

  lemma LiveHasColon(t: string, w: string)
    requires IsScheme(w) && w <= Lower(Joined(DropBack(DropFront(t))))
    ensures ':' in t
  {
    var p := Joined(DropBack(DropFront(t)));
    assert Lower(p)[|w| - 1] == w[|w| - 1];
    assert p[|w| - 1] == ':';
    JoinedHas(DropBack(DropFront(t)), ':');
    DroppedBackHas(DropFront(t), ':');
    DroppedHas(t, ':');
  }

  lemma SchemeShows(t: string, w: string)
    requires IsScheme(w) && w <= Lower(Joined(DropBack(DropFront(t)))) && !Hidden(t)
    ensures w <= Lower(t)
  {
    LiveHasColon(t, w);
    FindCharIsFirst(t, ':', 0);
    var k := FindChar(t, ':', 0).value;
    HeadIsKept(t, k);
    LowerHead(t, Joined(DropBack(DropFront(t))), k, w);
  }

  lemma LiveLinksPassExactly(url: string)
    requires Live(Trim(url))
    ensures Inert(url) <==> Hidden(Trim(url))
  {
    var t := Trim(url);
    SchemesAreSchemes();
    LiveNamesScheme(t);
    var w :| IsScheme(w) && IsBad(w) && w <= Lower(Joined(DropBack(DropFront(t))));
    if Hidden(t) && !Inert(url) {
      BadIsPlain(t);
    }
    if !Hidden(t) {
      SchemeShows(t, w);
    }
  }

  /** What the filter returns is live exactly when the link, once trimmed, is live and hides
      a control character or a space before its first colon. */
  lemma SafeHrefIsLiveExactly(url: string)
    ensures Live(SafeHref(url)) <==> Live(Trim(url)) && Hidden(Trim(url))
  {
    SafeHrefIsLiveIfMissed(url);
    if Live(Trim(url)) {
      LiveLinksPassExactly(url);
    }
  }

  lemma LiveNamesScheme(t: string)
    requires Live(t)
    ensures exists w :: IsScheme(w) && IsBad(w) && w <= Lower(Joined(DropBack(DropFront(t))))
  {
    SchemesAreSchemes();
    var p := Lower(Joined(DropBack(DropFront(t))));
    if "javascript:" <= p {
      assert IsBad("javascript:");
    } else if "vbscript:" <= p {
      assert IsBad("vbscript:");
    } else {
      assert IsBad("data:");
    }
  }

  lemma BadIsPlain(t: string)
    requires OpensScheme(Lower(t))
    ensures !Hidden(t)
  {
    SchemesAreSchemes();
    if "javascript:" <= Lower(t) {
      SchemeIsPlain(t, "javascript:");
    } else if "vbscript:" <= Lower(t) {
      SchemeIsPlain(t, "vbscript:");
    } else {
      SchemeIsPlain(t, "data:");
    }
  }

  predicate FirmEnds(s: string) {
    s != "" ==> s[0] > ' ' && s[|s| - 1] > ' '
  }

  lemma LiveAsWritten(s: string)
    requires NoControls(s) && FirmEnds(s)
    ensures Live(s) <==> OpensScheme(Lower(s))
  {
    NothingToJoin(s);
    FirmEndsStay(s);
  }

  lemma FirmEndsStay(s: string)
    requires FirmEnds(s)
    ensures DropBack(DropFront(s)) == s
  {
    assert DropFront(s) == s && DropBack(s) == s;
  }

  /** Without control characters, once trimmed, the filter is right: what it lets through
      is dead. */
  lemma WithoutControlsItIsDead(url: string)
    requires NoControls(Trim(url))
    ensures !Live(SafeHref(url))
    ensures Inert(url) <==> !Live(Trim(url))
  {
    SafeHrefIsLiveIfMissed(url);
    TrimmedEnds(url);
    LiveAsWritten(Trim(url));
  }

  lemma TrimmedEnds(url: string)
    requires NoControls(Trim(url))
    ensures FirmEnds(Trim(url))
  {
    var t := TrimStart(url);
    TrimStartShape(url);
    TrimEndShape(t);
    assert Trim(url) == TrimEnd(t);
    if Trim(url) != "" {
      assert Trim(url)[0] == t[0];
    }
  }

  lemma TabJoined(a: string, tab: string, b: string)
    requires NoControls(a) && NoControls(b) && |tab| == 1 && IsTabOrBreak(tab[0])
    ensures Joined(a + tab + b) == a + b
  {
    JoinedAppend(a + tab, b);
    JoinedAppend(a, tab);
    NothingToJoin(a);
    NothingToJoin(b);
    assert tab[1..] == "";
    assert Joined(tab) == "";
    assert a + "" == a;
  }

  /** A tab or line break inside a link is no part of it for a browser. */
  lemma TabIsDropped(a: string, tab: string, b: string)
    requires NoControls(a) && NoControls(b) && |tab| == 1 && IsTabOrBreak(tab[0])
    requires a != "" && b != "" && FirmEnds(a) && FirmEnds(b)
    ensures Live(a + tab + b) <==> OpensScheme(Lower(a + b))
  {
    var s := a + tab + b;
    assert s[0] == a[0] && s[|s| - 1] == b[|b| - 1];
    FirmEndsStay(s);
    TabJoined(a, tab, b);
  }

  /** The exception is real: a tab inside the scheme. */
  const TABBED := "java" + "\t" + "script:x"

  lemma TabbedIsTrimmed()
    ensures Trim(TABBED) == TABBED
  {
    assert TABBED[|TABBED| - 1] == 'x' && TABBED[0] == 'j';
  }

  lemma TabbedIsInert()
    ensures Inert(TABBED)
  {
    TabbedIsTrimmed();
    var lower := Lower(TABBED);
    assert lower[4] == '\t' && lower[0] == 'j';
    assert "javascript:"[4] == 's' && "vbscript:"[0] == 'v' && "data:"[0] == 'd';
  }

  lemma TabbedIsLive()
    ensures Live(TABBED)
  {
    TabIsDropped("java", "\t", "script:x");
    assert "java" + "script:x" == "javascript:x";
    LowerAlready("javascript:x");
    assert "javascript:" <= "javascript:x";
  }

  lemma LowerAlready(s: string)
    requires forall i :: 0 <= i < |s| ==> LowerChar(s[i]) == s[i]
    ensures Lower(s) == s
  {
  }

  lemma {:induction false} JoinedAppend(a: string, b: string)
    ensures Joined(a + b) == Joined(a) + Joined(b)
    decreases |a|
  {
    if a == "" {
      assert a + b == b;
    } else {
      assert (a + b)[1..] == a[1..] + b;
      JoinedAppend(a[1..], b);
    }
  }
}
