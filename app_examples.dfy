/**
 * Worked requests: the single-file example and the batch in which one file
 * extracts to nothing, with the extractor and the model replaced by fixed
 * answers.
 */
module AppExamples {
  import opened Wrappers
  import opened Text
  import opened MethodScan
  import opened TestName
  import opened MethodExtractor
  import opened JunitTestGenerator
  import opened Aggregate
  import opened App

  const CalcSource: string := "class Calc { int add(int a,int b){return a+b;} }"
  const AddMethod: string := "int add(int a,int b){return a+b;}"
  const TestCode: string := "// test code"

  /** The extracted `add` method is already stripped, and its one call name is `add`. */
  lemma AddMethodFacts(a: string)
    requires a == AddMethod
    ensures Strip(a) == a && FindCallNames(a) == ["add"]
  {
    assert a[0] == 'i' && a[|a| - 1] == '}';
    StrippedIsFixed(a);
    ScanAddMethod(a);
  }

  /** The model's answer has no surrounding whitespace to strip. */
  lemma TestCodeFacts(t: string)
    requires t == TestCode
    ensures Strip(t) == t
  {
    assert t[0] == '/' && t[|t| - 1] == 'e';
    StrippedIsFixed(t);
  }

  /** `Calc.java`, whose extracted method is `add`, is processed into `CalcTest.java`. */
  lemma CalcFileProcessed(run: string -> Option<string>, reply: string -> string)
    requires run(CalcSource) == Some(AddMethod)
    requires reply(CraftPrompt(AddMethod)) == TestCode
    ensures ProcessFile(FileInfo(Some("Calc.java"), Some(CalcSource)), run, ChatModel(reply))
            == Some(Processed("CalcTest.java", TestCode, "Calc.java", ["add"]))
  {
    AddMethodFacts(AddMethod);
    TestCodeFacts(TestCode);
    ExampleJava();
  }

  /**
   * The single-file request: the archive holds `CalcTest.java` with the
   * model's test, and the method index maps `Calc.java` to `["add"]`.
   */
  lemma CalcRequest(run: string -> Option<string>, reply: string -> string)
    requires run(CalcSource) == Some(AddMethod)
    requires reply(CraftPrompt(AddMethod)) == TestCode
    ensures var files := [FileInfo(Some("Calc.java"), Some(CalcSource))];
            && Archive(files, run, ChatModel(reply)) == map["CalcTest.java" := TestCode]
            && MethodsIndex(files, run, ChatModel(reply)) == map["Calc.java" := ["add"]]
  {
    var files := [FileInfo(Some("Calc.java"), Some(CalcSource))];
    CalcFileProcessed(run, reply);
    var outs := Outcomes(files, run, ChatModel(reply));
    assert outs == [] + [outs[0]];
    CollectSnoc([], outs[0], TestFileEntry);
    CollectSnoc([], outs[0], MethodsEntry);
  }

  /** An empty file whose extraction is blank is skipped. */
  lemma BlankFileSkipped(name: string, run: string -> Option<string>, backend: Backend)
    requires run("").Some? && AllSpace(run("").value)
    ensures ProcessFile(FileInfo(Some(name), Some("")), run, backend).None?
  {
    BlankOutputIsEmpty(run, "");
  }

  /**
   * A batch whose first file extracts to nothing (here an empty file that the
   * extractor answers with blank output) gives the same result as the
   * single-file request: only the valid file appears.
   */
  lemma BatchWithBlankFile(run: string -> Option<string>, reply: string -> string, files: seq<FileInfo>)
    requires run(CalcSource) == Some(AddMethod)
    requires reply(CraftPrompt(AddMethod)) == TestCode
    requires run("").Some? && AllSpace(run("").value)
    requires files == [FileInfo(Some("Empty.java"), Some("")), FileInfo(Some("Calc.java"), Some(CalcSource))]
    ensures Archive(files, run, ChatModel(reply)) == map["CalcTest.java" := TestCode]
    ensures MethodsIndex(files, run, ChatModel(reply)) == map["Calc.java" := ["add"]]
  {
    BlankFileSkipped("Empty.java", run, ChatModel(reply));
    assert files == [files[0]] + files[1..];
    LeadingSkippedFile(files[0], files[1..], run, ChatModel(reply));
    CalcRequest(run, reply);
  }

  /** A skipped file at the front of a batch changes neither dictionary. */
  lemma LeadingSkippedFile(f: FileInfo, back: seq<FileInfo>, run: string -> Option<string>, backend: Backend)
    requires ProcessFile(f, run, backend).None?
    ensures Archive([f] + back, run, backend) == Archive(back, run, backend)
    ensures MethodsIndex([f] + back, run, backend) == MethodsIndex(back, run, backend)
  {
    SkippedFileContributesNothing([], f, back, run, backend);
    assert [] + [f] + back == [f] + back;
    assert [] + back == back;
  }
}
