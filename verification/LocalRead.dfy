/** Reading a file that a bot asked for: nine guarded steps around an injected
    filesystem, in an order that is itself the point. */
module LocalRead {
  import opened Text
  import opened WindowsPath

  type Byte = bv8

  const MAX_BYTES: nat := 25 * 1024 * 1024

  datatype FileInfo = FileInfo(isDir: bool, isFile: bool, len: nat)

  datatype LocalFs = LocalFs(
    canonicalize: string -> Result<string, string>,
    metadata: string -> Result<FileInfo, string>,
    read: string -> Result<seq<Byte>, string>)

  datatype ShapeViolation = PrefixNotAllowed | ColonOutsideDrive | DosDeviceName

  datatype Refusal =
    | Empty
    | NotAbsolute
    | Shape(violation: ShapeViolation)
    | CredentialShaped
    | NoSuchFile
    | Diverged(resolved: string)
    | IsDirectory
    | NotAFile
    | TooLarge(bytes: nat)
    | ReadFailed(error: string)

  datatype ReadOutcome = ReadOutcome(resolvedPath: string, bytes: seq<Byte>)

  // ------------------------------------------------------------------ shape

  const DEVICES: seq<string> := [
    "CON", "PRN", "AUX", "NUL", "COM1", "COM2", "COM3", "COM4", "COM5", "COM6", "COM7", "COM8",
    "COM9", "LPT1", "LPT2", "LPT3", "LPT4", "LPT5", "LPT6", "LPT7", "LPT8", "LPT9"]

  function Stem(name: string): string {
    match FindChar(name, '.', 0)
    case None => name
    case Some(i) => name[..i]
  }

  predicate IsDeviceName(stem: string) {
    exists i | 0 <= i < |DEVICES| :: Lower(DEVICES[i]) == Lower(stem)
  }

  predicate NamesDevice(names: seq<string>) {
    exists i | 0 <= i < |names| :: IsDeviceName(Stem(names[i]))
  }

  /** Steps 2 and 5: what is wrong with the path's shape, if anything. */
  function ShapeProblem(path: string): Option<ShapeViolation> {
    match PrefixOf(path)
    case Disk => AfterDrive(path[2..], false)
    case VerbatimDisk => AfterDrive(path[6..], true)
    case _ => Some(PrefixNotAllowed)
  }

  function AfterDrive(rest: string, verbatim: bool): Option<ShapeViolation> {
    if ':' in rest then Some(ColonOutsideDrive)
    else if NamesDevice(Components(rest, verbatim)) then Some(DosDeviceName)
    else None
  }

  /** A path of allowed shape has exactly one colon, that of its drive, in one of
      two places: no stream selector, share or device can be hidden behind it. */
  lemma AllowedShapeHasOneColon(path: string)
    requires ShapeProblem(path) == None
    ensures var at := if VERBATIM <= path then 5 else 1;
            && at < |path| && IsLetter(path[at - 1])
            && forall i :: 0 <= i < |path| ==> (path[i] == ':' <==> i == at)
  {
    var n := if PrefixOf(path).Disk? then 2 else 6;
    forall i | 0 <= i < |path|
      ensures path[i] == ':' <==> i == n - 1
    {
      assert i >= n ==> path[i] == path[n..][i - n];
    }
  }

  // ------------------------------------------------------- credential shapes

  datatype After = SepOrEnd | DotOrEnd | End

  /** One fixed pattern: optionally anchored at the start of a name, then one of
      `heads` followed by one of `tails`, then what must come next. */
  datatype Pattern = Pattern(anchored: bool, heads: seq<string>, tails: seq<string>, after: After)

  const PATTERNS: seq<Pattern> := [
    Pattern(true, [".ssh"], [""], SepOrEnd),
    Pattern(true, [".bullpen"], [""], SepOrEnd),
    Pattern(true, [".aws"], [""], SepOrEnd),
    Pattern(true, [".gnupg"], [""], SepOrEnd),
    Pattern(true, [".env"], [""], DotOrEnd),
    Pattern(false, ["."], ["key", "pem", "pfx", "p12", "ppk", "keystore", "jks"], End),
    Pattern(true, ["id_"], ["rsa", "dsa", "ecdsa", "ed25519"], DotOrEnd),
    Pattern(true, ["credentials", "secret", "secrets"], [".json", ".yml", ".yaml", ".toml", ".ini", ".txt"], End),
    Pattern(true, ["shadow"], [""], End)]

  predicate Follows(after: After, s: string, i: nat)
    requires i <= |s|
  {
    || i == |s|
    || (after == SepOrEnd && IsSep(s[i]))
    || (after == DotOrEnd && s[i] == '.')
  }

  /** The word `w` matches at position `i`, ignoring case. */
  predicate MatchesAt(p: Pattern, w: string, s: string, i: nat) {
    && i + |w| <= |s|
    && (p.anchored ==> i == 0 || IsSep(s[i - 1]))
    && Lower(s[i..i + |w|]) == w
    && Follows(p.after, s, i + |w|)
  }

  predicate WordMatches(p: Pattern, w: string, s: string) {
    exists i: nat | i <= |s| :: MatchesAt(p, w, s, i)
  }

  predicate PatternMatches(p: Pattern, s: string) {
    exists h, t | 0 <= h < |p.heads| && 0 <= t < |p.tails| :: WordMatches(p, p.heads[h] + p.tails[t], s)
  }

  predicate AnyMatches(patterns: seq<Pattern>, s: string) {
    exists k | 0 <= k < |patterns| :: PatternMatches(patterns[k], s)
  }

  predicate IsCredentialShaped(s: string) {
    AnyMatches(PATTERNS, s)
  }

  // --------------------------------------------------------------- identity

  function StripVerbatim(s: string): string {
    if VERBATIM <= s then s[4..] else s
  }

  function NormalizeForIdentity(s: string): string {
    Lower(StripVerbatim(s))
  }

  predicate SameFileIdentity(typed: string, resolved: string) {
    NormalizeForIdentity(typed) == NormalizeForIdentity(resolved)
  }

  // ------------------------------------ a pattern cannot tell the forms apart

  lemma LowerTwice(s: string)
    ensures Lower(Lower(s)) == Lower(s)
  {
  }

  lemma LowerMatch(p: Pattern, w: string, s: string, i: nat)
    ensures MatchesAt(p, w, Lower(s), i) <==> MatchesAt(p, w, s, i)
  {
    if i + |w| <= |s| {
      var cut := s[i..i + |w|];
      assert Lower(s)[i..i + |w|] == Lower(cut);
      LowerTwice(cut);
    }
  }

  lemma LowerWord(p: Pattern, w: string, s: string)
    ensures WordMatches(p, w, Lower(s)) <==> WordMatches(p, w, s)
  {
    forall i: nat ensures MatchesAt(p, w, Lower(s), i) <==> MatchesAt(p, w, s, i) {
      LowerMatch(p, w, s, i);
    }
  }

  /** A word that cannot begin inside the verbatim prefix. */
  predicate Plain(w: string) {
    w != "" && w[0] != '\\' && w[0] != '?'
  }

  /** A string that no plain word can begin in, and that ends a path component. */
  predicate Unmatchable(prefix: string) {
    && |prefix| > 0 && IsSep(prefix[|prefix| - 1])
    && forall i :: 0 <= i < |prefix| ==> prefix[i] == '\\' || prefix[i] == '?'
  }

  lemma ShiftedMatch(p: Pattern, w: string, prefix: string, t: string, i: nat)
    requires Unmatchable(prefix)
    ensures MatchesAt(p, w, prefix + t, i + |prefix|) <==> MatchesAt(p, w, t, i)
  {
    if i + |w| <= |t| {
      assert (prefix + t)[i + |prefix|..i + |prefix| + |w|] == t[i..i + |w|];
    }
  }

  lemma NoMatchInside(p: Pattern, w: string, prefix: string, t: string, i: nat)
    requires Unmatchable(prefix) && Plain(w) && i < |prefix|
    ensures !MatchesAt(p, w, prefix + t, i)
  {
    var s := prefix + t;
    if i + |w| <= |s| {
      assert s[i] == prefix[i];
      assert Lower(s[i..i + |w|])[0] == LowerChar(s[i]);
    }
  }

  lemma StrippedWord(p: Pattern, w: string, prefix: string, t: string)
    requires Plain(w) && Unmatchable(prefix)
    ensures WordMatches(p, w, t) <==> WordMatches(p, w, prefix + t)
  {
    var s, n := prefix + t, |prefix|;
    if WordMatches(p, w, t) {
      var i: nat :| i <= |t| && MatchesAt(p, w, t, i);
      ShiftedMatch(p, w, prefix, t, i);
      assert i + n <= |s|;
    }
    if WordMatches(p, w, s) {
      var i: nat :| i <= |s| && MatchesAt(p, w, s, i);
      if i < n {
        NoMatchInside(p, w, prefix, t, i);
      } else {
        ShiftedMatch(p, w, prefix, t, i - n);
      }
    }
  }

  lemma NormalizedWord(p: Pattern, w: string, s: string)
    requires Plain(w)
    ensures WordMatches(p, w, NormalizeForIdentity(s)) <==> WordMatches(p, w, s)
  {
    LowerWord(p, w, StripVerbatim(s));
    if VERBATIM <= s {
      assert s == VERBATIM + s[4..];
      StrippedWord(p, w, VERBATIM, s[4..]);
    }
  }

  ghost predicate PlainHeads(p: Pattern) {
    forall h :: 0 <= h < |p.heads| ==> Plain(p.heads[h])
  }

  lemma NormalizedPattern(p: Pattern, s: string)
    requires PlainHeads(p)
    ensures PatternMatches(p, NormalizeForIdentity(s)) <==> PatternMatches(p, s)
  {
    forall h, t | 0 <= h < |p.heads| && 0 <= t < |p.tails|
      ensures WordMatches(p, p.heads[h] + p.tails[t], NormalizeForIdentity(s)) <==>
              WordMatches(p, p.heads[h] + p.tails[t], s)
    {
      assert Plain(p.heads[h]);
      NormalizedWord(p, p.heads[h] + p.tails[t], s);
    }
  }

  lemma NormalizedAny(patterns: seq<Pattern>, s: string)
    requires forall k :: 0 <= k < |patterns| ==> PlainHeads(patterns[k])
    ensures AnyMatches(patterns, NormalizeForIdentity(s)) <==> AnyMatches(patterns, s)
  {
    forall k | 0 <= k < |patterns|
      ensures PatternMatches(patterns[k], NormalizeForIdentity(s)) <==> PatternMatches(patterns[k], s)
    {
      NormalizedPattern(patterns[k], s);
    }
  }

  /** The credential test gives the same answer on a path and on its normal form,
      for all nine patterns. */
  lemma CredentialShapeIsNormal(s: string)
    ensures IsCredentialShaped(NormalizeForIdentity(s)) <==> IsCredentialShaped(s)
  {
    forall k | 0 <= k < |PATTERNS| ensures PlainHeads(PATTERNS[k]) {
    }
    NormalizedAny(PATTERNS, s);
  }

  /** So two paths with the same identity are refused or cleared together. */
  lemma SameIdentitySameShape(typed: string, resolved: string)
    requires SameFileIdentity(typed, resolved)
    ensures IsCredentialShaped(typed) <==> IsCredentialShaped(resolved)
  {
    CredentialShapeIsNormal(typed);
    CredentialShapeIsNormal(resolved);
  }

  // ------------------------------------------------------------ the pipeline

  datatype Call = Canonicalize(path: string) | Metadata(path: string) | Read(path: string)

  datatype Attempt = Attempt(result: Result<ReadOutcome, Refusal>, calls: seq<Call>)

  function ReadLocalFile(fs: LocalFs, requested: string): Attempt {
    var typed := Trim(requested);
    if typed == "" then Attempt(Err(Empty), [])
    else if !IsAbsolute(typed) then Attempt(Err(NotAbsolute), [])
    else match ShapeProblem(typed)
      case Some(violation) => Attempt(Err(Shape(violation)), [])
      case None =>
        if IsCredentialShaped(typed) then Attempt(Err(CredentialShaped), [])
        else match fs.canonicalize(typed)
          case Err(_) => Attempt(Err(NoSuchFile), [Canonicalize(typed)])
          case Ok(resolved) => ReadResolved(fs, typed, resolved)
  }

  function ReadResolved(fs: LocalFs, typed: string, resolved: string): Attempt {
    var calls := [Canonicalize(typed)];
    match ShapeProblem(resolved)
    case Some(violation) => Attempt(Err(Shape(violation)), calls)
    case None =>
      if IsCredentialShaped(resolved) then Attempt(Err(CredentialShaped), calls)
      else if !SameFileIdentity(typed, resolved) then Attempt(Err(Diverged(resolved)), calls)
      else ReadSame(fs, typed, resolved)
  }

  function ReadSame(fs: LocalFs, typed: string, resolved: string): Attempt {
    var calls := [Canonicalize(typed), Metadata(resolved)];
    match fs.metadata(resolved)
    case Err(_) => Attempt(Err(NoSuchFile), calls)
    case Ok(info) =>
      if info.isDir then Attempt(Err(IsDirectory), calls)
      else if !info.isFile then Attempt(Err(NotAFile), calls)
      else if info.len > MAX_BYTES then Attempt(Err(TooLarge(info.len)), calls)
      else
        var all := calls + [Read(resolved)];
        match fs.read(resolved)
        case Err(error) => Attempt(Err(ReadFailed(error)), all)
        case Ok(bytes) =>
          if |bytes| > MAX_BYTES then Attempt(Err(TooLarge(|bytes|)), all)
          else Attempt(Ok(ReadOutcome(resolved, bytes)), all)
  }

  /** What steps 1 to 3 ask of the typed path. */
  predicate Admitted(typed: string) {
    typed != "" && IsAbsolute(typed) && ShapeProblem(typed) == None && !IsCredentialShaped(typed)
  }

  /** No filesystem call happens before the typed path passes every check that can
      be made without one, and the calls come in one fixed order. */
  lemma CallsAreOrdered(fs: LocalFs, requested: string)
    ensures var typed := Trim(requested);
            var attempt := ReadLocalFile(fs, requested);
            && (attempt.calls != [] <==> Admitted(typed))
            && (|attempt.calls| > 1 ==> fs.canonicalize(typed).Ok?)
            && (var resolved := if fs.canonicalize(typed).Ok? then fs.canonicalize(typed).value else "";
                attempt.calls <= [Canonicalize(typed), Metadata(resolved), Read(resolved)])
  {
    if fs.canonicalize(Trim(requested)).Ok? {
      ResolvedCalls(fs, Trim(requested), fs.canonicalize(Trim(requested)).value);
    }
  }

  lemma ResolvedCalls(fs: LocalFs, typed: string, resolved: string)
    ensures [Canonicalize(typed)] <= ReadResolved(fs, typed, resolved).calls
    ensures ReadResolved(fs, typed, resolved).calls <= [Canonicalize(typed), Metadata(resolved), Read(resolved)]
  {
  }

  /** A read succeeds exactly when both forms are of allowed shape and are one
      identity, the typed form is not credential shaped, and the file is a regular one
      within the limit. That the resolved form is not credential shaped follows:
      step 6 never decides whether something is read, only which refusal is given. */
  lemma ReadsExactly(fs: LocalFs, requested: string, outcome: ReadOutcome)
    ensures ReadLocalFile(fs, requested).result == Ok(outcome) <==>
            var typed := Trim(requested);
            && Admitted(typed)
            && fs.canonicalize(typed) == Ok(outcome.resolvedPath)
            && ShapeProblem(outcome.resolvedPath) == None
            && SameFileIdentity(typed, outcome.resolvedPath)
            && fs.metadata(outcome.resolvedPath).Ok?
            && (var info := fs.metadata(outcome.resolvedPath).value;
                !info.isDir && info.isFile && info.len <= MAX_BYTES)
            && fs.read(outcome.resolvedPath) == Ok(outcome.bytes)
            && |outcome.bytes| <= MAX_BYTES
  {
    var typed := Trim(requested);
    if SameFileIdentity(typed, outcome.resolvedPath) {
      SameIdentitySameShape(typed, outcome.resolvedPath);
    }
  }

  lemma NothingCredentialShapedIsRead(fs: LocalFs, requested: string)
    requires ReadLocalFile(fs, requested).result.Ok?
    ensures var path := ReadLocalFile(fs, requested).result.value.resolvedPath;
            && !IsCredentialShaped(Trim(requested)) && !IsCredentialShaped(path)
            && SameFileIdentity(Trim(requested), path)
  {
    ReadsExactly(fs, requested, ReadLocalFile(fs, requested).result.value);
  }

  /** Step 6 can fire only on a path that step 7 would also have refused, and step 7's
      own message is never given for a credential. */
  lemma StepSixOnlyOnDivergence(fs: LocalFs, requested: string)
    ensures var typed := Trim(requested);
            var attempt := ReadLocalFile(fs, requested);
            && (attempt.result == Err(CredentialShaped) && attempt.calls != [] ==>
                  fs.canonicalize(typed).Ok? && !SameFileIdentity(typed, fs.canonicalize(typed).value))
            && (attempt.result.Err? && attempt.result.error.Diverged? ==>
                  !IsCredentialShaped(attempt.result.error.resolved)
                  && !SameFileIdentity(typed, attempt.result.error.resolved))
  {
    var typed := Trim(requested);
    if Admitted(typed) && fs.canonicalize(typed).Ok? {
      ResolvedRefusals(fs, typed, fs.canonicalize(typed).value);
    }
  }

  lemma ResolvedRefusals(fs: LocalFs, typed: string, resolved: string)
    requires !IsCredentialShaped(typed)
    ensures var result := ReadResolved(fs, typed, resolved).result;
            && (result == Err(CredentialShaped) ==> !SameFileIdentity(typed, resolved))
            && (result.Err? && result.error.Diverged? ==>
                  result.error.resolved == resolved
                  && !IsCredentialShaped(resolved) && !SameFileIdentity(typed, resolved))
  {
    if SameFileIdentity(typed, resolved) {
      SameIdentitySameShape(typed, resolved);
    }
  }

  /** The two forms of one rooted drive path: same identity, and the same rest of the
      path is judged, once with and once without the slash as a separator. */
  lemma TwoForms(drive: char, rest: string)
    requires IsLetter(drive) && rest != "" && rest[0] == '\\'
    ensures var plain := [drive, ':'] + rest;
            var verbatim := VERBATIM + plain;
            && IsAbsolute(plain) && IsAbsolute(verbatim) && SameFileIdentity(verbatim, plain)
            && ShapeProblem(plain) == AfterDrive(rest, false)
            && ShapeProblem(verbatim) == AfterDrive(rest, true)
  {
    var plain := [drive, ':'] + rest;
    assert plain[0] == drive && plain[1] == ':' && plain[2] == '\\' && plain[2..] == rest;
    VerbatimShape(plain);
    PlainShape(plain);
  }

  /** The shape of a verbatim path, in terms of what follows its prefix. */
  lemma VerbatimShape(y: string)
    ensures var v := VERBATIM + y;
            && v[4..] == y && StripVerbatim(v) == y && IsAbsolute(v)
            && ShapeProblem(v) == if DriveAt(y, 0) && (|y| == 2 || IsSep(y[2])) then AfterDrive(y[2..], true)
                                  else Some(PrefixNotAllowed)
  {
    var v := VERBATIM + y;
    assert v[4..] == y;
    assert forall i :: 0 <= i < |y| ==> v[i + 4] == y[i];
    assert |y| >= 2 ==> v[6..] == y[2..];
  }

  lemma PlainShape(y: string)
    requires !(VERBATIM <= y)
    ensures ShapeProblem(y) == if DriveAt(y, 0) then AfterDrive(y[2..], false) else Some(PrefixNotAllowed)
  {
  }

  // ------------------------------------------- when one identity has two shapes

  /** Two texts that differ in the case of letters only. */
  predicate Alike(s: string, t: string) {
    Lower(s) == Lower(t)
  }

  lemma AlikeAt(s: string, t: string, i: nat)
    requires Alike(s, t) && i < |s|
    ensures |s| == |t| && LowerChar(s[i]) == LowerChar(t[i])
    ensures IsLetter(s[i]) == IsLetter(t[i]) && (!IsLetter(s[i]) ==> s[i] == t[i])
  {
    assert Lower(s)[i] == Lower(t)[i];
  }

  lemma AlikeSlice(s: string, t: string, i: nat, j: nat)
    requires Alike(s, t) && i <= j <= |s|
    ensures |s| == |t| && Alike(s[i..j], t[i..j])
  {
    assert |Lower(s)| == |Lower(t)|;
    forall k | 0 <= k < j - i ensures Lower(s[i..j])[k] == Lower(t[i..j])[k] {
      AlikeAt(s, t, i + k);
    }
    assert Lower(s[i..j]) == Lower(t[i..j]);
  }

  lemma {:induction false} AlikeChar(s: string, t: string, c: char, from: nat)
    requires Alike(s, t) && from <= |s| && !IsLetter(c)
    ensures |s| == |t| && FindChar(s, c, from) == FindChar(t, c, from)
    decreases |s| - from
  {
    assert |Lower(s)| == |Lower(t)|;
    if from < |s| {
      AlikeAt(s, t, from);
      AlikeChar(s, t, c, from + 1);
    }
  }

  lemma AlikeDevice(s: string, t: string)
    requires Alike(s, t)
    ensures IsDeviceName(Stem(s)) == IsDeviceName(Stem(t))
  {
    AlikeChar(s, t, '.', 0);
    var dot := FindChar(s, '.', 0);
    if dot.Some? {
      AlikeSlice(s, t, 0, dot.value);
    }
    AlikeDeviceName(Stem(s), Stem(t));
  }

  lemma AlikeDeviceName(s: string, t: string)
    requires Alike(s, t)
    ensures IsDeviceName(s) == IsDeviceName(t)
  {
  }

  /** Component by component alike. */
  ghost predicate AllAlike(a: seq<string>, b: seq<string>) {
    |a| == |b| && forall i :: 0 <= i < |a| ==> Alike(a[i], b[i])
  }

  lemma AllAlikeCons(x: string, y: string, a: seq<string>, b: seq<string>)
    requires Alike(x, y) && AllAlike(a, b)
    ensures AllAlike([x] + a, [y] + b)
  {
  }

  lemma {:induction false} AlikeSplit(s: string, t: string, start: nat, i: nat, verbatim: bool)
    requires Alike(s, t) && start <= i <= |s|
    ensures |s| == |t| && AllAlike(SplitFrom(s, start, i, verbatim), SplitFrom(t, start, i, verbatim))
    decreases |s| - i
  {
    AlikeSlice(s, t, start, i);
    if i < |s| {
      AlikeAt(s, t, i);
      if s[i] == '\\' || (s[i] == '/' && !verbatim) {
        AlikeSplit(s, t, i + 1, i + 1, verbatim);
        AllAlikeCons(s[start..i], t[start..i], SplitFrom(s, i + 1, i + 1, verbatim),
                     SplitFrom(t, i + 1, i + 1, verbatim));
      } else {
        AlikeSplit(s, t, start, i + 1, verbatim);
      }
    }
  }

  lemma AlikeNames(a: seq<string>, b: seq<string>)
    requires AllAlike(a, b)
    ensures NamesDevice(a) == NamesDevice(b)
  {
    forall i | 0 <= i < |a| ensures IsDeviceName(Stem(a[i])) == IsDeviceName(Stem(b[i])) {
      AlikeDevice(a[i], b[i]);
    }
  }

  lemma AlikeAfterDrive(s: string, t: string, verbatim: bool)
    requires Alike(s, t)
    ensures AfterDrive(s, verbatim) == AfterDrive(t, verbatim)
  {
    AlikeChar(s, t, ':', 0);
    FindCharIsFirst(s, ':', 0);
    FindCharIsFirst(t, ':', 0);
    AlikeSplit(s, t, 0, 0, verbatim);
    AlikeNames(Components(s, verbatim), Components(t, verbatim));
  }

  lemma AlikeDrive(s: string, t: string)
    requires Alike(s, t)
    ensures |s| == |t| && DriveAt(s, 0) == DriveAt(t, 0)
    ensures |s| > 2 ==> IsSep(s[2]) == IsSep(t[2])
  {
    assert |Lower(s)| == |Lower(t)|;
    if |s| > 1 {
      AlikeAt(s, t, 0);
      AlikeAt(s, t, 1);
    }
    if |s| > 2 {
      AlikeAt(s, t, 2);
    }
  }

  lemma AlikeVerbatim(s: string, t: string)
    requires Alike(s, t)
    ensures VERBATIM <= s <==> VERBATIM <= t
  {
    assert |Lower(s)| == |Lower(t)|;
    if |s| >= 4 {
      AlikeAt(s, t, 0);
      AlikeAt(s, t, 1);
      AlikeAt(s, t, 2);
      AlikeAt(s, t, 3);
      assert VERBATIM[0] == '\\' && VERBATIM[1] == '\\' && VERBATIM[2] == '?' && VERBATIM[3] == '\\';
    }
  }

  /** A drive path with a device name that only a slash lays bare, and no second colon. */
  predicate SlashedDeviceIn(rest: string) {
    ':' !in rest && NamesDevice(Components(rest, false)) && !NamesDevice(Components(rest, true))
  }

  /** The name up to its first slash. */
  function FirstPart(name: string): string {
    match FindChar(name, '/', 0)
    case None => name
    case Some(i) => name[..i]
  }

  lemma DevicesHaveNoSlash(stem: string, k: nat)
    requires IsDeviceName(stem) && k < |stem|
    ensures stem[k] != '/'
  {
    var i :| 0 <= i < |DEVICES| && Lower(DEVICES[i]) == Lower(stem);
    assert Lower(stem)[k] == Lower(DEVICES[i])[k];
    NoSlashInDevices(i, k);
  }

  lemma NoSlashInDevices(i: nat, k: nat)
    requires i < |DEVICES| && k < |DEVICES[i]|
    ensures DEVICES[i][k] != '/'
  {
    assert forall j :: 0 <= j < |DEVICES| ==> '/' !in DEVICES[j];
  }

  lemma DeviceInFirstPart(name: string)
    requires IsDeviceName(Stem(name))
    ensures IsDeviceName(Stem(FirstPart(name)))
  {
    var slash, dot := FindChar(name, '/', 0), FindChar(name, '.', 0);
    FindCharIsFirst(name, '/', 0);
    FindCharIsFirst(name, '.', 0);
    var n := |Stem(name)|;
    assert Stem(name) == name[..n];
    forall k | 0 <= k < n ensures name[k] != '/' {
      DevicesHaveNoSlash(Stem(name), k);
    }
    var part := FirstPart(name);
    assert part <= name && n <= |part|;
    FindCharIsFirst(part, '.', 0);
    if dot.Some? {
      assert part[n] == '.';
      assert forall k :: 0 <= k < n ==> part[k] == name[k];
    }
    assert Stem(part) == Stem(name);
  }

  ghost predicate PartsAmong(names: seq<string>, all: seq<string>) {
    forall i :: 0 <= i < |names| ==> FirstPart(names[i]) in all
  }

  lemma SlashFree(s: string, start: nat, i: nat)
    requires start <= i <= |s| && forall k :: start <= k < i ==> s[k] != '/'
    ensures FirstPart(s[start..i]) == s[start..i]
  {
    FindCharIsFirst(s[start..i], '/', 0);
  }

  lemma FirstSlash(s: string, start: nat, i: nat, j: nat)
    requires start <= i < j <= |s| && s[i] == '/' && forall k :: start <= k < i ==> s[k] != '/'
    ensures FirstPart(s[start..j]) == s[start..i]
  {
    var name := s[start..j];
    FindCharIsFirst(name, '/', 0);
    assert name[i - start] == '/';
    assert forall k :: 0 <= k < i - start ==> name[k] == s[start + k];
    assert FindChar(name, '/', 0) == Some(i - start);
    assert name[..i - start] == s[start..i];
  }

  lemma {:induction false} FirstName(s: string, start: nat, i: nat) returns (j: nat)
    requires start <= i <= |s|
    ensures i <= j <= |s| && SplitFrom(s, start, i, true) != [] && SplitFrom(s, start, i, true)[0] == s[start..j]
    decreases |s| - i
  {
    if i == |s| || s[i] == '\\' {
      j := i;
    } else {
      j := FirstName(s, start, i + 1);
    }
  }

  /** Splitting at slashes too keeps the first part of every name: of those that end behind
      `i`, and of the one that `i` is in, unless a slash has already ended that part. */
  lemma {:induction false} PartsStay(s: string, start: nat, begun: nat, i: nat)
    requires start <= i <= |s| && start <= begun <= i
    requires begun == start ==> forall k :: start <= k < i ==> s[k] != '/'
    ensures var names := SplitFrom(s, start, i, true);
            var parts := SplitFrom(s, begun, i, false);
            names != [] && PartsAmong(names[1..], parts) && (begun == start ==> FirstPart(names[0]) in parts)
    decreases |s| - i
  {
    if i == |s| || s[i] == '\\' {
      if begun == start {
        SlashFree(s, start, i);
      }
      if i < |s| {
        PartsStay(s, i + 1, i + 1, i + 1);
        PartsOfNext(s, start, begun, i);
      }
    } else if s[i] == '/' {
      PartsStay(s, start, i + 1, i + 1);
      var j := FirstName(s, start, i + 1);
      if begun == start {
        FirstSlash(s, start, i, j);
      }
    } else {
      PartsStay(s, start, begun, i + 1);
    }
  }

  lemma PartsOfNext(s: string, start: nat, begun: nat, i: nat)
    requires start <= begun <= i < |s| && s[i] == '\\'
    requires var names := SplitFrom(s, i + 1, i + 1, true);
             var parts := SplitFrom(s, i + 1, i + 1, false);
             names != [] && PartsAmong(names[1..], parts) && FirstPart(names[0]) in parts
    ensures PartsAmong(SplitFrom(s, start, i, true)[1..], SplitFrom(s, begun, i, false))
  {
    var names, parts := SplitFrom(s, i + 1, i + 1, true), SplitFrom(s, i + 1, i + 1, false);
    assert SplitFrom(s, start, i, true)[1..] == names;
    forall k | 0 <= k < |names| ensures FirstPart(names[k]) in parts {
      if k > 0 {
        assert names[1..][k - 1] == names[k];
      }
    }
  }

  /** What names a device with one separator names one with two. */
  lemma VerbatimDeviceIsPlainDevice(rest: string)
    requires NamesDevice(Components(rest, true))
    ensures NamesDevice(Components(rest, false))
  {
    var names, parts := Components(rest, true), Components(rest, false);
    var i :| 0 <= i < |names| && IsDeviceName(Stem(names[i]));
    PartsStay(rest, 0, 0, 0);
    assert i > 0 ==> names[1..][i - 1] == names[i];
    DeviceInFirstPart(names[i]);
    assert FirstPart(names[i]) in parts;
  }

  /** The part of a path that names a place on a drive, without the verbatim prefix. */
  predicate Rooted(y: string) {
    DriveAt(y, 0) && (|y| == 2 || IsSep(y[2]))
  }

  lemma FormsDifferExactly(y: string, plain: string)
    requires !(VERBATIM <= plain) && Alike(y, plain)
    ensures ShapeProblem(VERBATIM + y) != ShapeProblem(plain) <==>
            DriveAt(y, 0) && (!Rooted(y) || SlashedDeviceIn(y[2..]))
  {
    AlikeVerbatim(y, plain);
    AlikeDrive(y, plain);
    VerbatimShape(y);
    PlainShape(plain);
    if DriveAt(y, 0) {
      AlikeSlice(y, plain, 2, |y|);
      AlikeAfterDrive(y[2..], plain[2..], false);
      if NamesDevice(Components(y[2..], true)) {
        VerbatimDeviceIsPlainDevice(y[2..]);
      }
    }
  }

  lemma SameFormsAgree(s: string, t: string)
    requires Alike(StripVerbatim(s), StripVerbatim(t)) && (VERBATIM <= s <==> VERBATIM <= t)
    ensures ShapeProblem(s) == ShapeProblem(t)
  {
    var x, y := StripVerbatim(s), StripVerbatim(t);
    AlikeDrive(x, y);
    if DriveAt(x, 0) {
      AlikeSlice(x, y, 2, |x|);
      AlikeAfterDrive(x[2..], y[2..], true);
      AlikeAfterDrive(x[2..], y[2..], false);
    }
    if VERBATIM <= s {
      assert s == VERBATIM + x && t == VERBATIM + y;
      VerbatimShape(x);
      VerbatimShape(y);
    } else {
      PlainShape(s);
      PlainShape(t);
    }
  }

  /** Over all pairs of one identity, the two shapes differ exactly when one path is
      verbatim and the other is not, they name a drive, and they are either not rooted or
      hide a device name behind a slash. */
  lemma ShapesDifferExactly(s: string, t: string)
    requires SameFileIdentity(s, t)
    ensures ShapeProblem(s) != ShapeProblem(t) <==>
            && (VERBATIM <= s) != (VERBATIM <= t)
            && var y := StripVerbatim(if VERBATIM <= s then s else t);
               DriveAt(y, 0) && (!Rooted(y) || SlashedDeviceIn(y[2..]))
  {
    if (VERBATIM <= s) == (VERBATIM <= t) {
      SameFormsAgree(s, t);
    } else if VERBATIM <= s {
      assert s == VERBATIM + StripVerbatim(s);
      FormsDifferExactly(StripVerbatim(s), t);
    } else {
      assert t == VERBATIM + StripVerbatim(t);
      FormsDifferExactly(StripVerbatim(t), s);
    }
  }

  /** So of the paths that steps 1 to 3 and step 7 let through, step 5 refuses exactly those
      that were typed verbatim with a device name behind a slash and resolve to the plain form. */
  lemma StepFiveExactly(typed: string, resolved: string)
    requires Admitted(typed) && SameFileIdentity(typed, resolved)
    ensures ShapeProblem(resolved) != None <==>
            VERBATIM <= typed && !(VERBATIM <= resolved) && NamesDevice(Components(typed[6..], false))
  {
    ShapesDifferExactly(typed, resolved);
    if VERBATIM <= typed {
      var y := StripVerbatim(typed);
      assert typed == VERBATIM + y;
      VerbatimShape(y);
      assert typed[6..] == y[2..];
    } else if VERBATIM <= resolved {
      PlainRooted(typed, resolved);
    }
  }

  lemma PlainRooted(typed: string, resolved: string)
    requires !(VERBATIM <= typed) && VERBATIM <= resolved && IsAbsolute(typed) && ShapeProblem(typed) == None
    requires SameFileIdentity(typed, resolved)
    ensures var y := StripVerbatim(resolved); Rooted(y) && !SlashedDeviceIn(y[2..])
  {
    var y := StripVerbatim(resolved);
    PlainShape(typed);
    AlikeDrive(y, typed);
    AlikeSlice(y, typed, 2, |y|);
    AlikeAfterDrive(y[2..], typed[2..], false);
  }

  /** It does happen: such a pair of paths, which step 7 would have let through. */
  lemma StepFiveDecides()
    ensures var typed, resolved := VERBATIM + (['C', ':'] + "\\a/NUL"), ['C', ':'] + "\\a/NUL";
            && IsAbsolute(typed) && SameFileIdentity(typed, resolved)
            && ShapeProblem(typed) == None
            && ShapeProblem(resolved) == Some(DosDeviceName)
  {
    TwoForms('C', "\\a/NUL");
    SlashedDevice();
  }

  lemma SlashedDevice()
    ensures AfterDrive("\\a/NUL", true) == None
    ensures AfterDrive("\\a/NUL", false) == Some(DosDeviceName)
  {
    SplitBothWays();
    var kept, cut := ["", "a/NUL"], ["", "a", "NUL"];
    NotADevice("");
    NotADevice("a/NUL");
    NoStem("");
    NoStem("a/NUL");
    NoStem("NUL");
    assert !NamesDevice(kept) by {
      forall i | 0 <= i < |kept| ensures !IsDeviceName(Stem(kept[i])) {
        assert kept[i] == "" || kept[i] == "a/NUL";
      }
    }
    assert NamesDevice(cut) by {
      assert DEVICES[3] == "NUL";
      assert IsDeviceName("NUL");
      assert cut[2] == "NUL";
    }
  }

  lemma NoStem(name: string)
    ensures '.' !in name ==> Stem(name) == name
  {
    FindCharIsFirst(name, '.', 0);
  }

  lemma SplitBothWays()
    ensures Components("\\a/NUL", true) == ["", "a/NUL"]
    ensures Components("\\a/NUL", false) == ["", "a", "NUL"]
  {
    var s := "\\a/NUL";
    assert SplitFrom(s, 1, 6, true) == [s[1..6]];
    assert SplitFrom(s, 1, 3, true) == [s[1..6]];
    assert SplitFrom(s, 1, 1, true) == [s[1..6]];
    assert s[1..6] == "a/NUL" && s[0..0] == "";
    assert SplitFrom(s, 3, 6, false) == [s[3..6]];
    assert SplitFrom(s, 3, 3, false) == [s[3..6]];
    assert s[3..6] == "NUL" && s[1..2] == "a";
    assert SplitFrom(s, 1, 1, false) == [s[1..2]] + [s[3..6]];
  }

  lemma NotADevice(stem: string)
    requires |stem| < 3 || |stem| > 4
    ensures !IsDeviceName(stem)
  {
    forall i | 0 <= i < |DEVICES| ensures 3 <= |DEVICES[i]| <= 4 {
    }
  }

  // ------------------------------------------------------------- the message

  const MEGABYTE: nat := 1024 * 1024

  function CeilingMegabytes(bytes: nat): nat {
    (bytes + MEGABYTE - 1) / MEGABYTE
  }

  function Decimal(n: nat): string {
    if n < 10 then [('0' as int + n) as char]
    else Decimal(n / 10) + [('0' as int + n % 10) as char]
  }

  /** The number a decimal numeral stands for. */
  function Numeral(s: string): int {
    if s == "" then 0 else 10 * Numeral(s[..|s| - 1]) + (s[|s| - 1] as int - '0' as int)
  }

  lemma {:induction false} DecimalReadsBack(n: nat)
    ensures Numeral(Decimal(n)) == n
  {
    var s := Decimal(n);
    if n < 10 {
      assert s[..0] == "";
    } else {
      DecimalReadsBack(n / 10);
      assert s[..|s| - 1] == Decimal(n / 10);
    }
  }

  function Message(refusal: Refusal): string {
    match refusal
    case Empty => "no path given"
    case NotAbsolute => "only absolute paths are read"
    case Shape(PrefixNotAllowed) =>
      "that isn't a plain local drive path - network shares and device paths aren't read"
    case Shape(ColonOutsideDrive) => "that path has a ':' outside the drive letter, which isn't read"
    case Shape(DosDeviceName) => "that path names a reserved device, which isn't read"
    case CredentialShaped => "that path looks like a credential, so it is not read into a conversation"
    case NoSuchFile => "no such file on this machine"
    case Diverged(resolved) =>
      "that path resolves somewhere else on disk; give me the resolved path and I will read that: " + resolved
    case IsDirectory => "that is a folder, not a file"
    case NotAFile => "not a regular file"
    case TooLarge(bytes) =>
      var size, limit := Decimal(CeilingMegabytes(bytes)), Decimal(MAX_BYTES / MEGABYTE);
      "that file is " + size + " MB, over the " + limit + " MB limit"
    case ReadFailed(error) => error
  }

  lemma SizeMessage(bytes: nat)
    requires bytes > MAX_BYTES
    ensures var size, limit := Decimal(CeilingMegabytes(bytes)), Decimal(MAX_BYTES / MEGABYTE);
            && Message(TooLarge(bytes)) == "that file is " + size + " MB, over the " + limit + " MB limit"
            && Numeral(limit) == 25 && Numeral(size) >= 26
  {
    DecimalReadsBack(CeilingMegabytes(bytes));
    DecimalReadsBack(MAX_BYTES / MEGABYTE);
  }

  lemma SizeIsAboveLimit(fs: LocalFs, requested: string)
    requires ReadLocalFile(fs, requested).result.Err? && ReadLocalFile(fs, requested).result.error.TooLarge?
    ensures ReadLocalFile(fs, requested).result.error.bytes > MAX_BYTES
  {
  }

  /** Whenever a read is refused for size, the size it names reads back as a number of
      megabytes above the limit it names. */
  lemma TooLargeNamesALargerSize(fs: LocalFs, requested: string)
    requires ReadLocalFile(fs, requested).result.Err? && ReadLocalFile(fs, requested).result.error.TooLarge?
    ensures var bytes := ReadLocalFile(fs, requested).result.error.bytes;
            var size, limit := Decimal(CeilingMegabytes(bytes)), Decimal(MAX_BYTES / MEGABYTE);
            && Message(TooLarge(bytes)) == "that file is " + size + " MB, over the " + limit + " MB limit"
            && Numeral(limit) == 25 && Numeral(size) >= 26
  {
    SizeIsAboveLimit(fs, requested);
    SizeMessage(ReadLocalFile(fs, requested).result.error.bytes);
  }
}
