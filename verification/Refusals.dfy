/** Which refusal a file request gets: every error of the local reader, and when. */
module Refusals {
  import opened Text
  import opened WindowsPath
  import opened LocalRead
  import opened PathNames

  /** Before any call: the first of four objections to the path as typed. */
  lemma TypedPathRefusals(fs: LocalFs, requested: string)
    ensures var typed, attempt := Trim(requested), ReadLocalFile(fs, requested);
            && (attempt.result == Err(Empty) <==> typed == "")
            && (attempt.result == Err(NotAbsolute) <==> typed != "" && !IsAbsolute(typed))
            && (attempt == Attempt(Err(CredentialShaped), []) <==>
                  IsAbsolute(typed) && ShapeProblem(typed) == None && NamesCredential(typed))
            && (forall v :: attempt == Attempt(Err(Shape(v)), []) <==>
                  IsAbsolute(typed) && ShapeProblem(typed) == Some(v))
  {
    var typed := Trim(requested);
    CredentialShapedExactly(typed);
    if Admitted(typed) && fs.canonicalize(typed).Ok? {
      ResolvedCalls(fs, typed, fs.canonicalize(typed).value);
      ResolvedIsLater(fs, typed, fs.canonicalize(typed).value);
    }
  }

  lemma ResolvedIsLater(fs: LocalFs, typed: string, resolved: string)
    ensures var result := ReadResolved(fs, typed, resolved).result;
            result != Err(Empty) && result != Err(NotAbsolute)
  {
  }

  /** The file behind an admitted path is found, and step 5 and step 7 let it through. */
  predicate Reaches(fs: LocalFs, typed: string, resolved: string) {
    && Admitted(typed) && fs.canonicalize(typed) == Ok(resolved)
    && ShapeProblem(resolved) == None && SameFileIdentity(typed, resolved)
  }

  /** Of an admitted path: not found, of no allowed shape, or somewhere else on disk. */
  lemma ResolvedPathRefusals(fs: LocalFs, requested: string)
    requires Admitted(Trim(requested))
    ensures var typed, attempt := Trim(requested), ReadLocalFile(fs, requested);
            match fs.canonicalize(typed)
            case Err(_) => attempt.result == Err(NoSuchFile)
            case Ok(resolved) =>
              && (forall v :: attempt.result == Err(Shape(v)) <==> ShapeProblem(resolved) == Some(v))
              && (attempt.result == Err(Diverged(resolved)) <==>
                    ShapeProblem(resolved) == None && !NamesCredential(resolved)
                    && !SameFileIdentity(typed, resolved))
  {
    var typed := Trim(requested);
    if fs.canonicalize(typed).Ok? {
      CredentialShapedExactly(fs.canonicalize(typed).value);
    }
  }

  predicate IsRegular(info: Result<FileInfo, string>) {
    info.Ok? && !info.value.isDir && info.value.isFile
  }

  /** Of a file that is reached: a folder, something else that is no file, too large by its
      size or by what it holds, or unreadable. */
  lemma FileRefusals(fs: LocalFs, requested: string, resolved: string)
    requires Reaches(fs, Trim(requested), resolved)
    ensures var result, info, bytes := ReadLocalFile(fs, requested).result, fs.metadata(resolved), fs.read(resolved);
            && (result == Err(NoSuchFile) <==> info.Err?)
            && (result == Err(IsDirectory) <==> info.Ok? && info.value.isDir)
            && (result == Err(NotAFile) <==> info.Ok? && !info.value.isDir && !info.value.isFile)
            && (forall n: nat :: result == Err(TooLarge(n)) <==>
                  IsRegular(info) && n > MAX_BYTES
                  && (n == info.value.len || (info.value.len <= MAX_BYTES && bytes.Ok? && n == |bytes.value|)))
            && (forall error :: result == Err(ReadFailed(error)) <==>
                  IsRegular(info) && info.value.len <= MAX_BYTES && bytes == Err(error))
  {
    SameIdentitySameShape(Trim(requested), resolved);
    ReachedIsRead(fs, requested, resolved);
  }

  lemma ReachedIsRead(fs: LocalFs, requested: string, resolved: string)
    requires Reaches(fs, Trim(requested), resolved) && !IsCredentialShaped(resolved)
    ensures ReadLocalFile(fs, requested) == ReadSame(fs, Trim(requested), resolved)
  {
  }
}
