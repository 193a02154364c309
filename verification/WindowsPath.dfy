/** The part of Windows path parsing that the local reader depends on: which kind of
    prefix a path has, whether it is absolute, and what its components are. */
module WindowsPath {
  datatype Prefix = Disk | VerbatimDisk | Verbatim | Device | Share | NoPrefix

  predicate IsSep(c: char) {
    c == '\\' || c == '/'
  }

  const VERBATIM: string := "\\\\?\\"

  predicate IsLetter(c: char) {
    'A' <= c <= 'Z' || 'a' <= c <= 'z'
  }

  predicate DriveAt(s: string, i: nat) {
    i + 1 < |s| && IsLetter(s[i]) && s[i + 1] == ':'
  }

  /** The position of the first separator at or after `i`. */
  function NextSep(s: string, i: nat): (r: nat)
    requires i <= |s|
    ensures i <= r <= |s|
    decreases |s| - i
  {
    if i == |s| || IsSep(s[i]) then i else NextSep(s, i + 1)
  }

  /** A share prefix needs both a server and a share name. */
  predicate NamesShare(s: string)
    requires |s| >= 2
  {
    var server := NextSep(s, 2);
    2 < server < |s| && NextSep(s, server + 1) > server + 1
  }

  function PrefixOf(s: string): Prefix {
    if |s| >= 2 && IsSep(s[0]) && IsSep(s[1]) then
      if VERBATIM <= s then
        if DriveAt(s, 4) && (|s| == 6 || IsSep(s[6])) then VerbatimDisk else Verbatim
      else if |s| >= 4 && s[2] == '.' && IsSep(s[3]) then Device
      else if NamesShare(s) then Share
      else NoPrefix
    else if DriveAt(s, 0) then Disk
    else NoPrefix
  }

  predicate IsAbsolute(s: string) {
    match PrefixOf(s)
    case NoPrefix => false
    case Disk => |s| > 2 && IsSep(s[2])
    case _ => true
  }

  /** The names between separators; a verbatim path has only one separator. */
  function Components(s: string, verbatim: bool): seq<string> {
    SplitFrom(s, 0, 0, verbatim)
  }

  function SplitFrom(s: string, start: nat, i: nat, verbatim: bool): seq<string>
    requires start <= i <= |s|
    decreases |s| - i
  {
    if i == |s| then [s[start..i]]
    else if s[i] == '\\' || (s[i] == '/' && !verbatim) then [s[start..i]] + SplitFrom(s, i + 1, i + 1, verbatim)
    else SplitFrom(s, start, i + 1, verbatim)
  }
}
