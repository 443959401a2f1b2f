/**
 * The request handler of the test-generation server: validating the request,
 * processing each submitted file, and collecting the generated tests and the
 * method names into two dictionaries.
 */
module App {
  import opened Wrappers
  import opened Text
  import opened MethodScan
  import opened TestName
  import opened MethodExtractor
  import opened JunitTestGenerator
  import opened Aggregate

  /** One entry of the `files` list: its `name` and `content` keys, each possibly absent. */
  datatype FileInfo = FileInfo(name: Option<string>, content: Option<string>)

  /** What `_process_file` returns for a file it does not skip. */
  datatype Processed = Processed(testName: string, code: string, origName: string, methodNames: seq<string>)

  /**
   * `_process_file`. The file is skipped when its name is absent or empty,
   * when its content is absent, or when extraction gives nothing or the empty
   * string; otherwise it yields the test name, the generated test, the name
   * it was submitted under, and the names scanned from the extracted text.
   */
  function ProcessFile(info: FileInfo, run: string -> Option<string>, backend: Backend): (r: Option<Processed>)
    ensures r.None? <==>
              || info.name.None? || info.name.value == [] || info.content.None?
              || ExtractMethod(run, info.content.value).None?
              || ExtractMethod(run, info.content.value).value == []
    ensures r.Some? ==>
              var text := ExtractMethod(run, info.content.value).value;
              && r.value.origName == info.name.value
              && r.value.testName == DeriveTestName(info.name.value)
              && r.value.code == GenerateJunitTest(backend, text)
              && r.value.methodNames == FindCallNames(text)
  {
    if info.name.None? || info.name.value == [] || info.content.None? then None
    else
      var extracted := ExtractMethod(run, info.content.value);
      if extracted.None? || extracted.value == [] then None
      else
        var text := extracted.value;
        var methodNames := FindCallNames(text);
        var junitCode := GenerateJunitTest(backend, text);
        var testName := DeriveTestName(info.name.value);
        Some(Processed(testName, junitCode, info.name.value, methodNames))
  }

  /**
   * What every processed file carries: a non-empty original name, a test name
   * ending in `Test.java`, a test with no surrounding whitespace, and method
   * names that are non-empty runs of word characters, no more of them than
   * there are `(` in the extracted text.
   */
  lemma ProcessedShape(info: FileInfo, run: string -> Option<string>, backend: Backend)
    requires ProcessFile(info, run, backend).Some?
    ensures var p := ProcessFile(info, run, backend).value;
            var text := ExtractMethod(run, info.content.value).value;
            && p.origName != []
            && |p.testName| >= |Suffix| && p.testName[|p.testName| - |Suffix|..] == Suffix
            && IsStripped(p.code)
            && (forall i | 0 <= i < |p.methodNames| :: p.methodNames[i] != [])
            && |p.methodNames| <= multiset(text)['(']
  {
    CallNamesBound(ExtractMethod(run, info.content.value).value);
  }

  /** Empty content is not a reason to skip by itself: it still goes to the extractor. */
  lemma EmptyContentIsExtracted(name: string, run: string -> Option<string>, backend: Backend)
    requires name != [] && run("").Some? && !AllSpace(run("").value)
    ensures ProcessFile(FileInfo(Some(name), Some("")), run, backend).Some?
  {
    StripEmptyIffBlank(run("").value);
  }

  /** The value of the `files` key. */
  datatype FilesField = FileList(entries: seq<FileInfo>) | NotAList

  /**
   * The parsed request body; `None` is a missing body. Only the `files` key
   * matters to the handler, so a body without it and an empty body are the
   * same `Body(None)`.
   */
  datatype Body = Body(files: Option<FilesField>)

  const NoFilesError: string := "No files provided"
  const NotAListError: string := "files must be a list"

  /**
   * The two checks of `generate_tests`, in order: a missing body or one
   * without `files` is "No files provided"; then a `files` that is not a list
   * is "files must be a list"; otherwise the list is processed.
   */
  function Validate(body: Option<Body>): (r: Result<seq<FileInfo>, string>)
    ensures r == Failure(NoFilesError) <==> body.None? || body.value.files.None?
    ensures r == Failure(NotAListError) <==> body.Some? && body.value.files == Some(NotAList)
    ensures r.Success? <==> body.Some? && body.value.files.Some? && body.value.files.value.FileList?
    ensures r.Success? ==> r.value == body.value.files.value.entries
  {
    if body.None? || body.value.files.None? then Failure(NoFilesError)
    else
      match body.value.files.value
      case NotAList => Failure(NotAListError)
      case FileList(entries) => Success(entries)
  }

  /** The response: an error with status 400, or the archive and the method index with status 200. */
  datatype Reply =
    | ErrorReply(status: nat, error: string)
    | TestsReply(status: nat, archive: map<string, string>, methods: map<string, seq<string>>)

  /** The result of `_process_file` for every submitted file, in order. */
  function Outcomes(files: seq<FileInfo>, run: string -> Option<string>, backend: Backend): (outs: seq<Option<Processed>>)
    ensures |outs| == |files|
    ensures forall i | 0 <= i < |files| :: outs[i] == ProcessFile(files[i], run, backend)
  {
    seq(|files|, i requires 0 <= i < |files| => ProcessFile(files[i], run, backend))
  }

  /** The `test_files` entry of one outcome: test name to generated test. */
  function TestFileEntry(o: Option<Processed>): Option<(string, string)> {
    match o
    case None => None
    case Some(p) => Some((p.testName, p.code))
  }

  /** The `methods_info` entry of one outcome: original name to method names. */
  function MethodsEntry(o: Option<Processed>): Option<(string, seq<string>)> {
    match o
    case None => None
    case Some(p) => Some((p.origName, p.methodNames))
  }

  /** The archive contents: test file name to test code, at most one entry per file. */
  function Archive(files: seq<FileInfo>, run: string -> Option<string>, backend: Backend): (archive: map<string, string>)
    ensures |archive| <= |files|
  {
    Collect(Outcomes(files, run, backend), TestFileEntry)
  }

  /** The method index: submitted file name to the method names found in it, at most one entry per file. */
  function MethodsIndex(files: seq<FileInfo>, run: string -> Option<string>, backend: Backend): (index: map<string, seq<string>>)
    ensures |index| <= |files|
  {
    Collect(Outcomes(files, run, backend), MethodsEntry)
  }

  /** One turn of the loop, in terms of the two dictionaries. */
  lemma BatchStep(outs: seq<Option<Processed>>, idx: nat)
    requires idx < |outs|
    ensures outs[idx].None? ==>
              && Collect(outs[..idx + 1], TestFileEntry) == Collect(outs[..idx], TestFileEntry)
              && Collect(outs[..idx + 1], MethodsEntry) == Collect(outs[..idx], MethodsEntry)
    ensures outs[idx].Some? ==>
              var p := outs[idx].value;
              && Collect(outs[..idx + 1], TestFileEntry) == Collect(outs[..idx], TestFileEntry)[p.testName := p.code]
              && Collect(outs[..idx + 1], MethodsEntry) == Collect(outs[..idx], MethodsEntry)[p.origName := p.methodNames]
  {
    assert outs[..idx + 1] == outs[..idx] + [outs[idx]];
    CollectSnoc(outs[..idx], outs[idx], TestFileEntry);
    CollectSnoc(outs[..idx], outs[idx], MethodsEntry);
  }

  /**
   * `generate_tests`: validate, then process the files and reply with the two
   * dictionaries.
   */
  method GenerateTests(body: Option<Body>, run: string -> Option<string>, backend: Backend) returns (reply: Reply)
    ensures Validate(body).Failure? ==> reply == ErrorReply(400, Validate(body).error)
    ensures Validate(body).Success? ==>
              var files := Validate(body).value;
              reply == TestsReply(200, Archive(files, run, backend), MethodsIndex(files, run, backend))
  {
    var validated := Validate(body);
    if validated.Failure? {
      return ErrorReply(400, validated.error);
    }
    var testFiles, methodsInfo := ProcessBatch(validated.value, run, backend);
    reply := TestsReply(200, testFiles, methodsInfo);
  }

  /**
   * The loop of `generate_tests`: process the files one by one, storing each
   * result in the two dictionaries, a later file overwriting an earlier one
   * with the same key, and a skipped file storing nothing.
   */
  method ProcessBatch(files: seq<FileInfo>, run: string -> Option<string>, backend: Backend)
    returns (testFiles: map<string, string>, methodsInfo: map<string, seq<string>>)
    ensures testFiles == Archive(files, run, backend)
    ensures methodsInfo == MethodsIndex(files, run, backend)
  {
    testFiles, methodsInfo := map[], map[];
    ghost var outs := Outcomes(files, run, backend);
    for idx := 0 to |files|
      invariant testFiles == Collect(outs[..idx], TestFileEntry)
      invariant methodsInfo == Collect(outs[..idx], MethodsEntry)
    {
      var result := ProcessFile(files[idx], run, backend);
      BatchStep(outs, idx);
      if result.None? {
        continue;
      }
      var Processed(testName, junit, origName, names) := result.value;
      testFiles := testFiles[testName := junit];
      methodsInfo := methodsInfo[origName := names];
    }
    assert outs[..|files|] == outs;
  }

  /** A batch of files processes each part separately. */
  lemma {:induction false} OutcomesAppend(front: seq<FileInfo>, back: seq<FileInfo>, run: string -> Option<string>, backend: Backend)
    ensures Outcomes(front + back, run, backend) == Outcomes(front, run, backend) + Outcomes(back, run, backend)
  {
    var all, o1, o2 := Outcomes(front + back, run, backend), Outcomes(front, run, backend), Outcomes(back, run, backend);
    forall i | 0 <= i < |all| ensures all[i] == (o1 + o2)[i] {
      if i < |front| {
        assert (front + back)[i] == front[i];
      } else {
        assert (front + back)[i] == back[i - |front|];
      }
    }
  }

  /** The archive holds exactly the test names of the files that were not skipped. */
  lemma ArchiveNames(files: seq<FileInfo>, run: string -> Option<string>, backend: Backend, t: string)
    ensures t in Archive(files, run, backend) <==>
            exists i | 0 <= i < |files| ::
              ProcessFile(files[i], run, backend).Some? && ProcessFile(files[i], run, backend).value.testName == t
  {
    var outs := Outcomes(files, run, backend);
    CollectKeys(outs, TestFileEntry, t);
    assert forall i | 0 <= i < |files| :: TestFileEntry(outs[i]).Some? == outs[i].Some?;
  }

  /** The method index holds exactly the submitted names of the files that were not skipped. */
  lemma MethodsIndexNames(files: seq<FileInfo>, run: string -> Option<string>, backend: Backend, n: string)
    ensures n in MethodsIndex(files, run, backend) <==>
            exists i | 0 <= i < |files| :: ProcessFile(files[i], run, backend).Some? && files[i].name == Some(n)
  {
    var outs := Outcomes(files, run, backend);
    CollectKeys(outs, MethodsEntry, n);
    assert forall i | 0 <= i < |files| :: MethodsEntry(outs[i]).Some? == outs[i].Some?;
  }

  /** Of several files with the same test name, the last one processed supplies the archived test. */
  lemma ArchiveLastWins(files: seq<FileInfo>, run: string -> Option<string>, backend: Backend, i: nat)
    requires i < |files| && ProcessFile(files[i], run, backend).Some?
    requires forall j | i < j < |files| ::
               ProcessFile(files[j], run, backend).None?
               || ProcessFile(files[j], run, backend).value.testName != ProcessFile(files[i], run, backend).value.testName
    ensures var p := ProcessFile(files[i], run, backend).value;
            p.testName in Archive(files, run, backend) && Archive(files, run, backend)[p.testName] == p.code
  {
    CollectLastWins(Outcomes(files, run, backend), TestFileEntry, i);
  }

  /** Of several files submitted under the same name, the last one processed supplies the method names. */
  lemma MethodsIndexLastWins(files: seq<FileInfo>, run: string -> Option<string>, backend: Backend, i: nat)
    requires i < |files| && ProcessFile(files[i], run, backend).Some?
    requires forall j | i < j < |files| ::
               ProcessFile(files[j], run, backend).None? || files[j].name != files[i].name
    ensures var p := ProcessFile(files[i], run, backend).value;
            files[i].name == Some(p.origName)
            && p.origName in MethodsIndex(files, run, backend)
            && MethodsIndex(files, run, backend)[p.origName] == p.methodNames
  {
    CollectLastWins(Outcomes(files, run, backend), MethodsEntry, i);
  }

  /** A skipped file leaves both dictionaries as they would be without it. */
  lemma SkippedFileContributesNothing(front: seq<FileInfo>, f: FileInfo, back: seq<FileInfo>,
                                      run: string -> Option<string>, backend: Backend)
    requires ProcessFile(f, run, backend).None?
    ensures Archive(front + [f] + back, run, backend) == Archive(front + back, run, backend)
    ensures MethodsIndex(front + [f] + back, run, backend) == MethodsIndex(front + back, run, backend)
  {
    var o1, o2 := Outcomes(front, run, backend), Outcomes(back, run, backend);
    var x := ProcessFile(f, run, backend);
    OutcomesAppend(front + [f], back, run, backend);
    OutcomesAppend(front, [f], run, backend);
    OutcomesAppend(front, back, run, backend);
    assert Outcomes([f], run, backend) == [x];
    CollectSkip(o1, x, o2, TestFileEntry);
    CollectSkip(o1, x, o2, MethodsEntry);
  }

  /**
   * An empty generated test is still stored: without a backend every processed
   * file has an archive entry, and every archived test is the empty string.
   */
  lemma NoBackendStoresEmptyTests(files: seq<FileInfo>, run: string -> Option<string>, i: nat)
    requires i < |files| && ProcessFile(files[i], run, NoBackend).Some?
    ensures ProcessFile(files[i], run, NoBackend).value.testName in Archive(files, run, NoBackend)
    ensures forall t | t in Archive(files, run, NoBackend) :: Archive(files, run, NoBackend)[t] == ""
  {
    ArchiveNames(files, run, NoBackend, ProcessFile(files[i], run, NoBackend).value.testName);
    var outs := Outcomes(files, run, NoBackend);
    forall t | t in Archive(files, run, NoBackend) ensures Archive(files, run, NoBackend)[t] == "" {
      CollectValueFrom(outs, TestFileEntry, t);
    }
  }
}
