/** What the path checks of the local reader let through, said of the names in a path. */
module PathNames {
  import opened Text
  import opened WindowsPath
  import opened LocalRead

  // ------------------------------------------------------------ where names are

  predicate Splits(c: char, verbatim: bool) {
    c == '\\' || (c == '/' && !verbatim)
  }

  /** A name fills the stretch from `i` to `j`, with nothing or a separator at either side. */
  predicate NameAt(s: string, i: nat, j: nat, verbatim: bool) {
    && i <= j <= |s|
    && (i > 0 ==> Splits(s[i - 1], verbatim))
    && (j < |s| ==> Splits(s[j], verbatim))
    && forall k :: i <= k < j ==> !Splits(s[k], verbatim)
  }

  function NameEnd(s: string, i: nat, verbatim: bool): (r: nat)
    requires i <= |s|
    ensures i <= r <= |s|
    ensures forall k :: i <= k < r ==> !Splits(s[k], verbatim)
    ensures r < |s| ==> Splits(s[r], verbatim)
    decreases |s| - i
  {
    if i == |s| || Splits(s[i], verbatim) then i else NameEnd(s, i + 1, verbatim)
  }

  function NamesFrom(s: string, i: nat, verbatim: bool): seq<string>
    requires i <= |s|
  {
    SplitFrom(s, i, i, verbatim)
  }

  lemma {:induction false} SplitAtNameEnd(s: string, start: nat, i: nat, verbatim: bool)
    requires start <= i <= |s|
    ensures var r := NameEnd(s, i, verbatim);
            SplitFrom(s, start, i, verbatim) ==
            [s[start..r]] + (if r < |s| then NamesFrom(s, r + 1, verbatim) else [])
    decreases |s| - i
  {
    if i < |s| && !Splits(s[i], verbatim) {
      SplitAtNameEnd(s, start, i + 1, verbatim);
    }
  }

  /** Every name is listed, and the one that reaches the end of the path is listed last. */
  lemma {:induction false} NameIsListed(s: string, start: nat, i: nat, j: nat, verbatim: bool) returns (k: nat)
    requires start <= i && NameAt(s, i, j, verbatim)
    ensures k < |NamesFrom(s, start, verbatim)| && NamesFrom(s, start, verbatim)[k] == s[i..j]
    ensures j == |s| ==> k == |NamesFrom(s, start, verbatim)| - 1
    decreases i - start
  {
    SplitAtNameEnd(s, start, start, verbatim);
    if i == start {
      return 0;
    }
    k := NameIsListed(s, NameEnd(s, start, verbatim) + 1, i, j, verbatim);
    k := k + 1;
  }

  /** And nothing else is. */
  lemma {:induction false} ListedIsName(s: string, start: nat, k: nat, verbatim: bool) returns (i: nat, j: nat)
    requires start <= |s| && (start > 0 ==> Splits(s[start - 1], verbatim))
    requires k < |NamesFrom(s, start, verbatim)|
    ensures start <= i && NameAt(s, i, j, verbatim) && NamesFrom(s, start, verbatim)[k] == s[i..j]
    ensures k == |NamesFrom(s, start, verbatim)| - 1 <==> j == |s|
    decreases |s| - start
  {
    SplitAtNameEnd(s, start, start, verbatim);
    var r := NameEnd(s, start, verbatim);
    if k == 0 {
      i, j := start, r;
      if r < |s| { SplitAtNameEnd(s, r + 1, r + 1, verbatim); }
    } else {
      i, j := ListedIsName(s, r + 1, k - 1, verbatim);
    }
  }

  /** Cutting a path at its separators lists exactly the names in it. */
  lemma ComponentsExactly(s: string, verbatim: bool, name: string)
    ensures name in Components(s, verbatim) <==>
            exists i: nat, j: nat :: NameAt(s, i, j, verbatim) && s[i..j] == name
  {
    if name in Components(s, verbatim) {
      var k: nat :| k < |Components(s, verbatim)| && Components(s, verbatim)[k] == name;
      var i, j := ListedIsName(s, 0, k, verbatim);
    }
    if i: nat, j: nat :| NameAt(s, i, j, verbatim) && s[i..j] == name {
      var k := NameIsListed(s, 0, i, j, verbatim);
    }
  }

  // ------------------------------------------------------------- device names

  /** The device itself, or the device with anything behind a dot, in either case. */
  predicate IsDevice(name: string, device: string) {
    Lower(name) == Lower(device) || Lower(device) + "." <= Lower(name)
  }

  lemma DotsStay(s: string, i: nat)
    requires i < |s|
    ensures s[i] == '.' <==> Lower(s)[i] == '.'
  {
  }

  lemma StemIs(name: string, device: string)
    requires '.' !in device
    ensures Lower(Stem(name)) == Lower(device) <==> IsDevice(name, device)
  {
    var dot, d := FindChar(name, '.', 0), Lower(device);
    FindCharIsFirst(name, '.', 0);
    forall i | 0 <= i < |d| ensures d[i] != '.' {
      DotsStay(device, i);
    }
    if dot.None? {
      if d + "." <= Lower(name) {
        assert (d + ".")[|d|] == '.';
        DotsStay(name, |d|);
      }
    } else {
      CutAtDot(name, d, dot.value);
    }
  }

  lemma CutAtDot(name: string, d: string, n: nat)
    requires n < |name| && name[n] == '.' && '.' !in d && forall i :: 0 <= i < n ==> name[i] != '.'
    ensures Lower(name[..n]) == d <==> Lower(name) == d || d + "." <= Lower(name)
  {
    var low := Lower(name);
    assert low[n] == '.' && forall i :: 0 <= i < n ==> low[i] != '.';
    assert Lower(name[..n]) == low[..n];
    if d + "." <= low {
      assert (d + ".")[|d|] == '.' && low[|d|] == '.';
      assert low[..n] == (d + ".")[..n] == d;
    }
    if low[..n] == d {
      assert low[..n + 1] == d + ".";
    }
  }

  ghost predicate HasDevice(rest: string, verbatim: bool) {
    exists i: nat, j: nat, k :: NameAt(rest, i, j, verbatim) && 0 <= k < |DEVICES| && IsDevice(rest[i..j], DEVICES[k])
  }

  lemma DevicesHaveNoDot(k: nat)
    requires k < |DEVICES|
    ensures '.' !in DEVICES[k]
  {
  }

  lemma DeviceNameIs(name: string)
    ensures IsDeviceName(Stem(name)) <==> exists k :: 0 <= k < |DEVICES| && IsDevice(name, DEVICES[k])
  {
    forall k | 0 <= k < |DEVICES|
      ensures Lower(DEVICES[k]) == Lower(Stem(name)) <==> IsDevice(name, DEVICES[k])
    {
      DevicesHaveNoDot(k);
      StemIs(name, DEVICES[k]);
    }
  }

  lemma DevicesExactly(rest: string, verbatim: bool)
    ensures NamesDevice(Components(rest, verbatim)) <==> HasDevice(rest, verbatim)
  {
    var names := Components(rest, verbatim);
    if NamesDevice(names) {
      var n: nat :| n < |names| && IsDeviceName(Stem(names[n]));
      DeviceNameIs(names[n]);
      var i, j := ListedIsName(rest, 0, n, verbatim);
    }
    if HasDevice(rest, verbatim) {
      var i: nat, j: nat, k :| NameAt(rest, i, j, verbatim) && 0 <= k < |DEVICES| && IsDevice(rest[i..j], DEVICES[k]);
      DeviceNameIs(rest[i..j]);
      var n := NameIsListed(rest, 0, i, j, verbatim);
      assert IsDeviceName(Stem(names[n]));
    }
  }

  /** Where what follows the drive begins, if the path is a drive path of either form. */
  function DrivePart(path: string): Option<nat> {
    if VERBATIM <= path then
      if DriveAt(path, 4) && (|path| == 6 || IsSep(path[6])) then Some(6) else None
    else if DriveAt(path, 0) then Some(2)
    else None
  }

  /** The allowed shapes, for all paths: a drive, plain or verbatim, with no further colon and
      with no name behind it that is a device, bare or with an extension. */
  lemma ShapeAllowedExactly(path: string)
    ensures ShapeProblem(path) == None <==>
            && DrivePart(path).Some?
            && ':' !in path[DrivePart(path).value..]
            && !HasDevice(path[DrivePart(path).value..], VERBATIM <= path)
  {
    var at := DrivePart(path);
    if VERBATIM <= path {
      var y := path[4..];
      assert path == VERBATIM + y;
      VerbatimShape(y);
      if at.Some? {
        assert y[2..] == path[6..];
        DevicesExactly(path[6..], true);
      }
    } else {
      PlainShape(path);
      if at.Some? {
        DevicesExactly(path[2..], false);
      }
    }
  }

  /** Every other prefix, of a share or a device say, is refused as such. */
  lemma OtherPrefixIsRefused(path: string)
    requires DrivePart(path).None?
    ensures ShapeProblem(path) == Some(PrefixNotAllowed)
  {
    if VERBATIM <= path {
      assert path == VERBATIM + path[4..];
      VerbatimShape(path[4..]);
    } else {
      PlainShape(path);
    }
  }

  lemma {:induction false} NextSepIs(s: string, i: nat, j: nat)
    requires i <= j <= |s| && (forall k :: i <= k < j ==> !IsSep(s[k])) && (j < |s| ==> IsSep(s[j]))
    ensures NextSep(s, i) == j
    decreases j - i
  {
    if i < j {
      NextSepIs(s, i + 1, j);
    }
  }

  /** A share is absolute, so that is what its path is refused for. */
  lemma ShareIsAbsolute(path: string, n: nat)
    requires 2 < n && n + 1 < |path| && IsSep(path[0]) && IsSep(path[1]) && IsSep(path[n]) && !IsSep(path[n + 1])
    requires forall k :: 2 <= k < n ==> !IsSep(path[k])
    ensures IsAbsolute(path)
  {
    NextSepIs(path, 2, n);
  }

  // ----------------------------------------------------------------- identity

  /** The same letter in either case. */
  predicate SameLetter(a: char, b: char) {
    a == b || (IsLetter(a) && IsLetter(b) && (a as int - b as int == 32 || b as int - a as int == 32))
  }

  predicate SameLetters(x: string, y: string) {
    |x| == |y| && forall i :: 0 <= i < |x| ==> SameLetter(x[i], y[i])
  }

  lemma LowerDecides(a: char, b: char)
    ensures LowerChar(a) == LowerChar(b) <==> SameLetter(a, b)
  {
  }

  lemma LettersDecide(x: string, y: string)
    ensures Lower(x) == Lower(y) <==> SameLetters(x, y)
  {
    if |x| == |y| {
      forall i | 0 <= i < |x| ensures Lower(x)[i] == Lower(y)[i] <==> SameLetter(x[i], y[i]) {
        LowerDecides(x[i], y[i]);
      }
    } else {
      assert |Lower(x)| != |Lower(y)|;
    }
  }

  /** Two paths are one file exactly when they are the same but for the case of letters, and
      for a verbatim prefix that either of them may have. */
  lemma IdentityExactly(typed: string, resolved: string)
    ensures SameFileIdentity(typed, resolved) <==>
            SameLetters(if VERBATIM <= typed then typed[4..] else typed,
                        if VERBATIM <= resolved then resolved[4..] else resolved)
  {
    LettersDecide(StripVerbatim(typed), StripVerbatim(resolved));
  }

  // -------------------------------------------------------- credential shapes

  /** The names of a path, separated by either kind of slash. */
  function Names(s: string): seq<string> {
    Components(s, false)
  }

  predicate HasName(s: string, w: string) {
    exists k | 0 <= k < |Names(s)| :: Lower(Names(s)[k]) == w
  }

  predicate HasNameStarting(s: string, w: string) {
    exists k | 0 <= k < |Names(s)| :: w <= Lower(Names(s)[k])
  }

  /** The last name of a path in lower case; empty if the path ends in a separator. */
  function LastName(s: string): string {
    var names := Names(s);
    if names == [] then "" else Lower(names[|names| - 1])
  }

  predicate EndsWith(s: string, w: string) {
    |w| <= |s| && s[|s| - |w|..] == w
  }

  const SECRET_FOLDERS: seq<string> := [".ssh", ".bullpen", ".aws", ".gnupg"]
  const SECRET_FILES: seq<string> := [".env", "id_rsa", "id_dsa", "id_ecdsa", "id_ed25519"]
  const STORE_NAMES: seq<string> := ["credentials", "secret", "secrets"]
  const STORE_KINDS: seq<string> := [".json", ".yml", ".yaml", ".toml", ".ini", ".txt"]
  const KEY_KINDS: seq<string> := ["key", "pem", "pfx", "p12", "ppk", "keystore", "jks"]

  /** A folder that holds secrets anywhere in the path. */
  predicate InSecretFolder(s: string) {
    exists k | 0 <= k < |SECRET_FOLDERS| :: HasName(s, SECRET_FOLDERS[k])
  }

  /** `w` itself as the last name, or `w` with a dot behind it: then also as a folder. */
  predicate NamesFile(s: string, w: string) {
    LastName(s) == w || HasNameStarting(s, w + ".")
  }

  predicate IsSecretFile(s: string) {
    exists k | 0 <= k < |SECRET_FILES| :: NamesFile(s, SECRET_FILES[k])
  }

  predicate IsStore(s: string) {
    exists h, t | 0 <= h < |STORE_NAMES| && 0 <= t < |STORE_KINDS| :: LastName(s) == STORE_NAMES[h] + STORE_KINDS[t]
  }

  predicate IsKeyFile(s: string) {
    exists t | 0 <= t < |KEY_KINDS| :: EndsWith(LastName(s), "." + KEY_KINDS[t])
  }

  predicate NamesCredential(s: string) {
    InSecretFolder(s) || IsSecretFile(s) || IsStore(s) || LastName(s) == "shadow" || IsKeyFile(s)
  }

  lemma LastNameEnds(s: string) returns (i: nat)
    ensures NameAt(s, i, |s|, false) && LastName(s) == Lower(s[i..])
  {
    SplitAtNameEnd(s, 0, 0, false);
    var j;
    i, j := ListedIsName(s, 0, |Names(s)| - 1, false);
    assert s[i..|s|] == s[i..];
  }

  lemma LastNameIs(s: string, i: nat)
    requires NameAt(s, i, |s|, false)
    ensures LastName(s) == Lower(s[i..])
  {
    var k := NameIsListed(s, 0, i, |s|, false);
    assert s[i..|s|] == s[i..];
  }

  // -------------------------------------------------- one word of one pattern

  predicate SepFree(w: string) {
    forall i :: 0 <= i < |w| ==> !IsSep(w[i])
  }

  lemma LowerKeepsSeps(c: char)
    ensures IsSep(LowerChar(c)) <==> IsSep(c)
  {
  }

  /** A separator-free word that stands at `i` stands inside one name. */
  lemma WordInsideName(s: string, i: nat, w: string)
    requires i + |w| <= |s| && Lower(s[i..i + |w|]) == w && SepFree(w)
    ensures forall k :: i <= k < i + |w| ==> !Splits(s[k], false)
  {
    forall k | i <= k < i + |w| ensures !Splits(s[k], false) {
      assert w[k - i] == LowerChar(s[k]);
      LowerKeepsSeps(s[k]);
    }
  }

  /** A word that needs a separator or the end behind it is a whole name. */
  lemma WholeName(p: Pattern, w: string, s: string)
    requires p.anchored && p.after == SepOrEnd && SepFree(w)
    ensures WordMatches(p, w, s) <==> HasName(s, w)
  {
    if WordMatches(p, w, s) {
      var i: nat :| i <= |s| && MatchesAt(p, w, s, i);
      WordInsideName(s, i, w);
      var k := NameIsListed(s, 0, i, i + |w|, false);
      assert Lower(Names(s)[k]) == w;
    }
    if HasName(s, w) {
      var k :| 0 <= k < |Names(s)| && Lower(Names(s)[k]) == w;
      var i, j := ListedIsName(s, 0, k, false);
      assert j == i + |w|;
      assert MatchesAt(p, w, s, i);
    }
  }

  /** A word that needs the end behind it is the whole last name. */
  lemma WholeLastName(p: Pattern, w: string, s: string)
    requires p.anchored && p.after == End && SepFree(w)
    ensures WordMatches(p, w, s) <==> LastName(s) == w
  {
    if WordMatches(p, w, s) {
      var i: nat :| i <= |s| && MatchesAt(p, w, s, i);
      WordInsideName(s, i, w);
      LastNameIs(s, i);
      assert s[i..i + |w|] == s[i..];
    }
    if LastName(s) == w {
      var i := LastNameEnds(s);
      assert s[i..i + |w|] == s[i..];
      assert MatchesAt(p, w, s, i);
    }
  }

  lemma LowerTail(s: string, i: nat, j: nat)
    requires i <= j <= |s|
    ensures Lower(s[i..])[j - i..] == Lower(s[j..])
  {
    assert s[i..][j - i..] == s[j..];
  }

  /** A word that need not begin a name is the end of the last one. */
  lemma EndOfLastName(p: Pattern, w: string, s: string)
    requires !p.anchored && p.after == End && SepFree(w)
    ensures WordMatches(p, w, s) <==> EndsWith(LastName(s), w)
  {
    var last := LastNameEnds(s);
    if WordMatches(p, w, s) {
      var i: nat :| i <= |s| && MatchesAt(p, w, s, i);
      WordInsideName(s, i, w);
      LowerTail(s, last, i);
      assert s[i..i + |w|] == s[i..];
    }
    if EndsWith(LastName(s), w) {
      var i := |s| - |w|;
      LowerTail(s, last, i);
      assert s[i..i + |w|] == s[i..];
      assert MatchesAt(p, w, s, i);
    }
  }

  /** A word that needs a dot or the end behind it: the whole last name, or the beginning
      of any name, up to a dot. */
  lemma DottedName(p: Pattern, w: string, s: string)
    requires p.anchored && p.after == DotOrEnd && SepFree(w)
    ensures WordMatches(p, w, s) <==> NamesFile(s, w)
  {
    if WordMatches(p, w, s) {
      var i: nat :| i <= |s| && MatchesAt(p, w, s, i);
      WordInsideName(s, i, w);
      if i + |w| == |s| {
        LastNameIs(s, i);
        assert s[i..i + |w|] == s[i..];
      } else {
        DotBehind(s, i, w);
      }
    }
    if LastName(s) == w {
      var i := LastNameEnds(s);
      assert s[i..i + |w|] == s[i..];
      assert MatchesAt(p, w, s, i);
    }
    if HasNameStarting(s, w + ".") {
      var k :| 0 <= k < |Names(s)| && w + "." <= Lower(Names(s)[k]);
      var i, j := ListedIsName(s, 0, k, false);
      DotInside(s, i, j, w);
      assert MatchesAt(p, w, s, i);
    }
  }

  lemma DotBehind(s: string, i: nat, w: string)
    requires i + |w| < |s| && Lower(s[i..i + |w|]) == w && SepFree(w) && s[i + |w|] == '.'
    requires i > 0 ==> IsSep(s[i - 1])
    ensures HasNameStarting(s, w + ".")
  {
    var n, j := w + ".", NameEnd(s, i, false);
    assert Lower(s[i..i + |n|]) == n;
    WordInsideName(s, i, n);
    assert i + |n| <= j;
    var k := NameIsListed(s, 0, i, j, false);
    forall m | 0 <= m < |n| ensures Lower(s[i..j])[m] == n[m] {
      assert s[i..j][m] == s[i..i + |n|][m];
    }
    assert n <= Lower(Names(s)[k]);
  }

  lemma DotInside(s: string, i: nat, j: nat, w: string)
    requires i <= j <= |s| && w + "." <= Lower(s[i..j])
    ensures i + |w| < |s| && Lower(s[i..i + |w|]) == w && s[i + |w|] == '.'
  {
    var name, n := s[i..j], w + ".";
    forall k: nat | k < |n| ensures LowerChar(s[i + k]) == n[k] {
      assert Lower(name)[k] == n[k];
    }
    assert n[|w|] == '.';
    assert forall k :: 0 <= k < |w| ==> n[k] == w[k];
  }

  // ----------------------------------------------------------- whole patterns

  lemma OneWord(p: Pattern, w: string, s: string)
    requires p.heads == [w] && p.tails == [""]
    ensures PatternMatches(p, s) <==> WordMatches(p, w, s)
  {
    assert p.heads[0] + p.tails[0] == w;
  }

  lemma FolderPattern(p: Pattern, w: string, s: string)
    requires p == Pattern(true, [w], [""], SepOrEnd) && SepFree(w)
    ensures PatternMatches(p, s) <==> HasName(s, w)
  {
    OneWord(p, w, s);
    WholeName(p, w, s);
  }

  lemma FilePattern(p: Pattern, w: string, s: string)
    requires p == Pattern(true, [w], [""], DotOrEnd) && SepFree(w)
    ensures PatternMatches(p, s) <==> NamesFile(s, w)
  {
    OneWord(p, w, s);
    DottedName(p, w, s);
  }

  lemma LastNamePattern(p: Pattern, w: string, s: string)
    requires p == Pattern(true, [w], [""], End) && SepFree(w)
    ensures PatternMatches(p, s) <==> LastName(s) == w
  {
    OneWord(p, w, s);
    WholeLastName(p, w, s);
  }

  lemma FolderPatterns(s: string)
    ensures (exists k :: 0 <= k < 4 && PatternMatches(PATTERNS[k], s)) <==> InSecretFolder(s)
  {
    forall k | 0 <= k < 4 ensures PatternMatches(PATTERNS[k], s) <==> HasName(s, SECRET_FOLDERS[k]) {
      FolderPattern(PATTERNS[k], SECRET_FOLDERS[k], s);
    }
  }

  lemma IdentityPattern(p: Pattern, s: string)
    requires p.anchored && p.after == DotOrEnd && p.heads == ["id_"] && p.tails == ["rsa", "dsa", "ecdsa", "ed25519"]
    ensures PatternMatches(p, s) <==> exists k :: 1 <= k < 5 && NamesFile(s, SECRET_FILES[k])
  {
    forall k | 1 <= k < 5
      ensures WordMatches(p, p.heads[0] + p.tails[k - 1], s) <==> NamesFile(s, SECRET_FILES[k])
    {
      assert p.heads[0] + p.tails[k - 1] == SECRET_FILES[k];
      DottedName(p, SECRET_FILES[k], s);
    }
    if PatternMatches(p, s) {
      var h, t :| 0 <= h < 1 && 0 <= t < 4 && WordMatches(p, p.heads[h] + p.tails[t], s);
      assert NamesFile(s, SECRET_FILES[t + 1]);
    }
  }

  lemma StorePattern(p: Pattern, s: string)
    requires p.anchored && p.after == End && p.heads == STORE_NAMES && p.tails == STORE_KINDS
    ensures PatternMatches(p, s) <==> IsStore(s)
  {
    forall h, t | 0 <= h < |p.heads| && 0 <= t < |p.tails|
      ensures WordMatches(p, p.heads[h] + p.tails[t], s) <==> LastName(s) == p.heads[h] + p.tails[t]
    {
      assert SepFree(p.heads[h]) && SepFree(p.tails[t]);
      WholeLastName(p, p.heads[h] + p.tails[t], s);
    }
  }

  lemma KeyPattern(p: Pattern, s: string)
    requires !p.anchored && p.after == End && p.heads == ["."] && p.tails == KEY_KINDS
    ensures PatternMatches(p, s) <==> IsKeyFile(s)
  {
    forall t | 0 <= t < |p.tails|
      ensures WordMatches(p, p.heads[0] + p.tails[t], s) <==> EndsWith(LastName(s), "." + p.tails[t])
    {
      assert SepFree(p.tails[t]);
      EndOfLastName(p, "." + p.tails[t], s);
    }
  }

  lemma FilePatterns(s: string)
    ensures PatternMatches(PATTERNS[4], s) || PatternMatches(PATTERNS[6], s) <==> IsSecretFile(s)
  {
    FilePattern(PATTERNS[4], SECRET_FILES[0], s);
    IdentityPattern(PATTERNS[6], s);
  }

  lemma NinePatterns(s: string)
    ensures IsCredentialShaped(s) <==>
            || (exists k :: 0 <= k < 4 && PatternMatches(PATTERNS[k], s))
            || PatternMatches(PATTERNS[4], s) || PatternMatches(PATTERNS[5], s) || PatternMatches(PATTERNS[6], s)
            || PatternMatches(PATTERNS[7], s) || PatternMatches(PATTERNS[8], s)
  {
    assert |PATTERNS| == 9;
  }

  /** The nine patterns in terms of names: a path is credential shaped if and only if one of
      its names, in either case, is a folder of secrets, or begins like a secret file up to a
      dot, or its last name is a secret file, a store of secrets or a key. */
  lemma CredentialShapedExactly(s: string)
    ensures IsCredentialShaped(s) <==> NamesCredential(s)
  {
    FolderPatterns(s);
    FilePatterns(s);
    KeyPattern(PATTERNS[5], s);
    StorePattern(PATTERNS[7], s);
    LastNamePattern(PATTERNS[8], "shadow", s);
    NinePatterns(s);
  }

  /** What a typed path must be like for the filesystem to be asked about it: rooted on a
      drive, no further colon, and no name in it that is a device or names a credential. */
  lemma AdmittedExactly(path: string)
    ensures Admitted(path) <==>
            && DrivePart(path).Some?
            && (VERBATIM <= path || (|path| > 2 && IsSep(path[2])))
            && ':' !in path[DrivePart(path).value..]
            && !HasDevice(path[DrivePart(path).value..], VERBATIM <= path)
            && !NamesCredential(path)
  {
    ShapeAllowedExactly(path);
    CredentialShapedExactly(path);
    if DrivePart(path).Some? {
      AbsoluteDrive(path);
    }
  }

  lemma AbsoluteDrive(path: string)
    requires DrivePart(path).Some?
    ensures IsAbsolute(path) <==> VERBATIM <= path || (|path| > 2 && IsSep(path[2]))
  {
  }

  /** So no file is ever read whose path, as typed or as resolved, names a credential. */
  lemma NoNamedCredentialIsRead(fs: LocalFs, requested: string)
    requires ReadLocalFile(fs, requested).result.Ok?
    ensures !NamesCredential(Trim(requested))
    ensures !NamesCredential(ReadLocalFile(fs, requested).result.value.resolvedPath)
  {
    NothingCredentialShapedIsRead(fs, requested);
    CredentialShapedExactly(Trim(requested));
    CredentialShapedExactly(ReadLocalFile(fs, requested).result.value.resolvedPath);
  }
}
