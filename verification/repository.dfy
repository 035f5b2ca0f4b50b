/** The two code sources the service consults (internal/repository): an
    in-memory repository used by the tests and a file read line by line. */
module Repository {
  import opened Wrappers
  import opened Codes
  import opened Errors

  // ---------------------------------------------------------------------
  // In-memory repository (mock_repository.go)
  // ---------------------------------------------------------------------

  /** A set of codes and an error that, when present, every call returns. */
  datatype MockCodeRepository = MockCodeRepository(codes: set<Code>, err: Option<Error>)

  /** The set of codes in a list, built by inserting them one after another. */
  function CodeSet(codes: seq<Code>): (s: set<Code>)
    ensures forall c :: c in s <==> c in codes
    ensures |s| <= |codes|
  {
    if |codes| == 0 then {}
    else CodeSet(codes[..|codes| - 1]) + {codes[|codes| - 1]}
  }

  /** The repository holds exactly the listed codes and the injected error. */
  function NewMockCodeRepository(codes: seq<Code>, err: Option<Error>): (m: MockCodeRepository)
    ensures forall c :: c in m.codes <==> c in codes
    ensures m.err == err
  {
    MockCodeRepository(CodeSet(codes), err)
  }

  /** Listing order and repeated entries do not matter: lists with the same
      members give the same repository. */
  lemma MockIgnoresOrderAndDuplicates(a: seq<Code>, b: seq<Code>, err: Option<Error>)
    requires forall c :: c in a <==> c in b
    ensures NewMockCodeRepository(a, err) == NewMockCodeRepository(b, err)
  {
  }

  /** Membership test: the injected error if any, otherwise presence. */
  function MockExists(m: MockCodeRepository, code: Code): (r: Answer)
    ensures Settled(r)
  {
    if m.err.Some? then Answer(false, m.err)
    else Answer(code in m.codes, None)
  }

  /** How the constructor's list and error show through `Exists`. */
  lemma MockExistsFromList(codes: seq<Code>, err: Option<Error>, code: Code)
    ensures err.Some? ==> MockExists(NewMockCodeRepository(codes, err), code) == Answer(false, err)
    ensures err.None? ==> MockExists(NewMockCodeRepository(codes, err), code) == Answer(code in codes, None)
  {
  }

  /** A copy of all codes, made by walking the stored set; with an injected
      error, that error and no set. Without an error, the copy answers
      membership exactly as `MockExists` does. */
  method MockLoadAll(m: MockCodeRepository) returns (r: Result<set<Code>, Error>)
    ensures m.err.Some? ==> r == Failure(m.err.value)
    ensures m.err.None? ==> r.Success? && r.value == m.codes && |r.value| == |m.codes|
    ensures r.Success? ==> forall c :: c in r.value <==> MockExists(m, c).value
  {
    if m.err.Some? {
      return Failure(m.err.value);
    }
    var result: set<Code> := {};
    var rest := m.codes;
    while rest != {}
      invariant result + rest == m.codes
      invariant result !! rest
      decreases rest
    {
      var c :| c in rest;
      result := result + {c};
      rest := rest - {c};
    }
    return Success(result);
  }

  // ---------------------------------------------------------------------
  // File-backed repository (file_repository.go)
  // ---------------------------------------------------------------------

  /** What opening a path and scanning it line by line yields: either the
      open error, or the lines the scanner delivers followed by the error
      (if any) that stopped it. */
  datatype FileState = OpenFailed(openErr: Error) | Opened(lines: seq<Code>, scanErr: Option<Error>)

  /** The files as they are when a lookup runs. */
  type FileSystem = string -> FileState

  datatype FileCodeRepository = FileCodeRepository(filePath: string)

  /** The answer a scan of the repository's file gives: an open error is
      returned as is; a matching line gives true with no error, even if the
      scanner would have failed later; otherwise false with the scan error. */
  function FileExists(repo: FileCodeRepository, fs: FileSystem, code: Code): (r: Answer)
    ensures Settled(r)
    ensures fs(repo.filePath).OpenFailed? ==> r == Answer(false, Some(fs(repo.filePath).openErr))
    ensures fs(repo.filePath).Opened? ==>
              (r.value <==> exists i :: 0 <= i < |fs(repo.filePath).lines| && fs(repo.filePath).lines[i] == code)
    ensures fs(repo.filePath).Opened? && !r.value ==> r.err == fs(repo.filePath).scanErr
  {
    match fs(repo.filePath)
    case OpenFailed(e) => Answer(false, Some(e))
    case Opened(lines, scanErr) =>
      if code in lines then Answer(true, None) else Answer(false, scanErr)
  }

  /** The lookup as written: open, then read lines until one equals `code`
      exactly, then consult the scanner's error. `read` is the number of
      lines read; the scan stops at the first match, so no later line is read. */
  method FileExistsByScan(repo: FileCodeRepository, fs: FileSystem, code: Code) returns (r: Answer, read: nat)
    ensures r == FileExists(repo, fs, code)
    ensures fs(repo.filePath).OpenFailed? ==> read == 0
    ensures fs(repo.filePath).Opened? && r.value ==>
              0 < read <= |fs(repo.filePath).lines| && fs(repo.filePath).lines[read - 1] == code
              && forall j :: 0 <= j < read - 1 ==> fs(repo.filePath).lines[j] != code
    ensures fs(repo.filePath).Opened? && !r.value ==> read == |fs(repo.filePath).lines|
  {
    var state := fs(repo.filePath);
    if state.OpenFailed? {
      return Answer(false, Some(state.openErr)), 0;
    }
    var lines := state.lines;
    var i := 0;
    while i < |lines|
      invariant 0 <= i <= |lines|
      invariant forall j :: 0 <= j < i ==> lines[j] != code
    {
      if lines[i] == code {
        return Answer(true, None), i + 1;
      }
      i := i + 1;
    }
    return Answer(false, state.scanErr), i;
  }

  /** Matching is on whole lines and respects case: the package's file tests. */
  lemma FileMatchingExamples(fs: FileSystem, path: string)
    requires fs(path) == Opened(["abc", "xyz", "promo"], None)
    ensures FileExists(FileCodeRepository(path), fs, "abc") == Answer(true, None)
    ensures FileExists(FileCodeRepository(path), fs, "promo") == Answer(true, None)
    ensures FileExists(FileCodeRepository(path), fs, "invalid") == Answer(false, None)
    ensures FileExists(FileCodeRepository(path), fs, "") == Answer(false, None)
    ensures FileExists(FileCodeRepository(path), fs, "ab") == Answer(false, None)
    ensures FileExists(FileCodeRepository(path), fs, "ABC") == Answer(false, None)
  {
  }

  // ---------------------------------------------------------------------
  // The repository interface (repository.go)
  // ---------------------------------------------------------------------

  /** A code source of either kind. */
  datatype CodeRepository = MockRepo(mock: MockCodeRepository) | FileRepo(file: FileCodeRepository)

  /** The source holds `code`: in the mock's set, or on some line of a file
      that opens. */
  ghost predicate Contains(repo: CodeRepository, fs: FileSystem, code: Code) {
    match repo
    case MockRepo(m) => code in m.codes
    case FileRepo(f) => fs(f.filePath).Opened? && code in fs(f.filePath).lines
  }

  /** The source can be read to the end without an error. */
  ghost predicate Readable(repo: CodeRepository, fs: FileSystem) {
    match repo
    case MockRepo(m) => m.err.None?
    case FileRepo(f) => fs(f.filePath).Opened? && fs(f.filePath).scanErr.None?
  }

  /** `Exists` through the interface. A readable source answers presence with
      no error; a true answer always means the code is there. */
  function Exists(repo: CodeRepository, fs: FileSystem, code: Code): (r: Answer)
    ensures Settled(r)
    ensures Readable(repo, fs) ==> r == Answer(Contains(repo, fs, code), None)
    ensures r.value ==> r.err.None? && Contains(repo, fs, code)
    ensures r.err.None? && !r.value ==> !Contains(repo, fs, code)
    ensures !Readable(repo, fs) && !Contains(repo, fs, code) ==> r.err.Some?
  {
    match repo
    case MockRepo(m) => MockExists(m, code)
    case FileRepo(f) => FileExists(f, fs, code)
  }
}
