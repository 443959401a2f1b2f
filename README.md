# JUnit test generation server, modelled in Dafny

The server takes a JSON body with a `files` list of Java sources. For each file it:

- runs a Java helper that prints the file's methods;
- scans that text for method names with the pattern `\b(\w+)\s*\(`;
- asks a chat model for a JUnit 5 test of the text;
- names the test file after the source file.

It replies with two dictionaries:

- the archive, from test-file name to test code;
- the method index, from submitted file name to the names found in it.

This project models that pipeline and its language-model helper:

- `Text`: Python's `str.isspace()` character set, the ASCII word characters, and `str.strip()`.
- `MethodScan`: `re.findall(r"\b(\w+)\s*\(", text)`, written as the left-to-right search the regular-expression engine performs. There are lemmas that every match is genuine, that none is missed, that they come in text order, and that there are never more of them than `(` characters.
- `TestName`: `name.rsplit(".", 1)[0] + "Test.java"`.
- `MethodExtractor`: the extractor seen from the pipeline. Its process run is a parameter `run`, which gives `None` on a nonzero exit and `Some(stdout)` otherwise. Its output is stripped.
- `JunitTestGenerator`: the fixed prompt and its inverse, the model call, and their composition. The model is a parameter `Backend`: either no backend, or a reply function.
- `Aggregate`: the dictionary-filling loop as a left fold that keeps the last write to each key, with lemmas about keys, overwriting, skipped items and reordering.
- `App`: `_process_file`, the request checks, the loop of `generate_tests` as an imperative method proved against the fold, and lemmas about the two dictionaries.
- `AppExamples`: a one-file request for `Calc.java`, and the same request with an extra empty file whose extraction is blank.

## Behaviour worth noting

- A file whose generated test is empty is still stored (app.py:103, `App.NoBackendStoresEmptyTests`).
- Empty content is not a reason to skip a file (app.py:49 tests only for `None`). The file is skipped only when extraction fails or its output strips to nothing (extract_method.py:49-52, app.py:60, `App.EmptyContentIsExtracted`, `AppExamples.BatchWithBlankFile`).

## Model

| member | source | states |
|---|---|---|
| Text.Strip | extract_method.py:52 | the result of `str.strip()` has no whitespace, in Python's `isspace` sense, at either end, and is no longer than the input |
| Text.StripIsSlice | extract_method.py:52 | stripping keeps a contiguous slice of the input and removes only whitespace before and after it |
| Text.StripIsCore | extract_method.py:52 | any slice surrounded by whitespace and without whitespace at its own ends is exactly what stripping returns (the stripped core is unique) |
| Text.StrippedIsFixed | extract_method.py:52 | a string with no whitespace at either end strips to itself |
| Text.StripIdempotent | junit_test_generator.py:54 | stripping twice equals stripping once |
| Text.StripEmptyIffBlank | app.py:60-61 | a string strips to empty if and only if it is all whitespace |
| Text.StripLeadingRun | extract_method.py:52 | the leading part removed is all whitespace, and what remains starts with a non-space |
| Text.StripTrailingRun | extract_method.py:52 | the trailing part removed is all whitespace, and what remains ends with a non-space |
| Text.BlankStripsToEmpty | app.py:60-61 | an all-whitespace string strips to the empty string |
| MethodScan.WordEndRun | app.py:64 | the greedy `\w+` run covers word characters only and stops at the first non-word character |
| MethodScan.SpaceEndRun | app.py:64 | the greedy `\s*` run covers whitespace only and stops at the first non-space |
| MethodScan.MatchAt | app.py:64 | the regular-expression attempt at one position: when it succeeds, the match starts there and its word ends before the `(` that closes it |
| MethodScan.MatchAtSound | app.py:64 | a match attempted at a position yields a real occurrence of `\b(\w+)\s*\(` starting there |
| MethodScan.MatchAtFinds | app.py:64 | where the pattern occurs, the attempt at its start finds exactly that occurrence, with the maximal word as the group |
| MethodScan.HitsApart | app.py:64 | two occurrences never overlap: a later one starts after the earlier one's `(` |
| MethodScan.Matches | app.py:64 | `findall`'s left-to-right stepping, resuming after each `(` and moving on by one where nothing matches; there are at most as many matches as characters left |
| MethodScan.MatchesSound | app.py:64 | every match `findall` reports is a real occurrence at or after the search start, and each starts after the previous one's `(` |
| MethodScan.MatchesComplete | app.py:64 | every occurrence at or after the search start is among the reported matches |
| MethodScan.MatchesBound | app.py:64 | there are at most as many matches as `(` characters in the rest of the text |
| MethodScan.FindCallNames | app.py:64 | one name per match, each the matched group: a non-empty run of word characters |
| MethodScan.CallNameInText | app.py:64 | every reported name appears in the text at a word boundary, followed by optional whitespace and `(` |
| MethodScan.CallNamesInOrder | app.py:64 | two occurrences give two reported names, in the order they appear in the text |
| MethodScan.CallNamesBound | app.py:64 | never more names than `(` characters in the text |
| MethodScan.NoParenNoNames | app.py:64 | text without `(` gives no names |
| MethodScan.ScanKeyword | app.py:64 | `if (x)` gives `["if"]`: keywords are not filtered out |
| MethodScan.ScanNested | app.py:64 | `f(g(` gives `["f", "g"]`: the search resumes right after each `(` |
| MethodScan.ScanDuplicates | app.py:64 | `foo(); foo ();` gives `["foo", "foo"]`: duplicates are kept, and whitespace before `(` is allowed |
| MethodScan.SkipWord | app.py:64 | a word not followed by whitespace and `(` contributes nothing, and the search goes on from its end |
| MethodScan.ScanAddMethod | app.py:64 | the method `int add(int a,int b){return a+b;}` gives `["add"]` |
| TestName.LastDot | app.py:69 | finds the last `.` of the name, or reports that there is none |
| TestName.RSplitDot | app.py:69 | `rsplit(".", 1)` gives one part exactly when the name has no `.`, and the last part has no `.` |
| TestName.RSplitDotJoin | app.py:69 | joining the parts with `.` gives the name back |
| TestName.DeriveTestName | app.py:69 | the test name always ends in `Test.java` |
| TestName.NoDotKeepsName | app.py:69 | a name without `.` is kept whole before the suffix |
| TestName.LastDotCut | app.py:69 | a name whose last `.` is at index k gives `name[..k] + "Test.java"` |
| TestName.ExampleNoDot | app.py:69 | `Calc` gives `CalcTest.java` |
| TestName.ExampleJava | app.py:69 | `Calc.java` gives `CalcTest.java` |
| TestName.ExampleTwoDots | app.py:69 | `a.b.java` gives `a.bTest.java`: only the last extension is removed |
| TestName.ExampleOnlyExtension | app.py:69 | `.java` gives `Test.java` |
| TestName.SameStemSameTestName | app.py:69 | two names with the same stem and different extensions collide on one test name |
| MethodExtractor.ExtractMethod | extract_method.py:49-52 | a failed run gives nothing; a successful one gives `Strip` of its output, which is therefore stripped and no longer than the output |
| MethodExtractor.BlankOutputIsEmpty | extract_method.py:52 | all-whitespace output extracts as the empty string |
| JunitTestGenerator.CraftPrompt | junit_test_generator.py:37-44 | the prompt is the fixed instruction, a blank line, and then the method code verbatim |
| JunitTestGenerator.PromptRoundTrip | junit_test_generator.py:37-44 | the method code can be read back from its prompt |
| JunitTestGenerator.PromptFromCode | junit_test_generator.py:37-44 | any prompt from which code reads back is the prompt crafted from that code |
| JunitTestGenerator.CraftPromptInjective | junit_test_generator.py:37-44 | different method code gives different prompts |
| JunitTestGenerator.CallLlm | junit_test_generator.py:47-57 | the reply has no surrounding whitespace; with no model library it is the empty string, otherwise it is the stripped reply |
| JunitTestGenerator.GenerateJunitTest | junit_test_generator.py:60-66 | the test is the stripped reply to the instruction followed by the method code, or empty with no backend |
| Aggregate.Collect | app.py:98-104 | the dictionary the loop builds, keeping the last write to each key and skipping items with no entry; it has at most one key per item |
| Aggregate.CollectSnoc | app.py:98-104 | one loop turn keeps the dictionary when the item is skipped, and otherwise writes its key |
| Aggregate.CollectKeys | app.py:98-104 | the keys are exactly those of the items that were not skipped |
| Aggregate.CollectLastWins | app.py:103-104 | an item that no later item overrides keeps its value |
| Aggregate.CollectSkip | app.py:100-101 | a skipped item can be dropped without changing the result |
| Aggregate.CollectSwap | app.py:98-104 | neighbouring items with different keys can be processed in either order |
| Aggregate.CollectValueFrom | app.py:103-104 | every stored value comes from some item with that key |
| App.ProcessFile | app.py:45-70 | a file is skipped exactly when its name is absent or empty, its content is absent, or extraction gives nothing or the empty string; otherwise it yields the derived test name, the generated test, the name and the scanned names |
| App.ProcessedShape | app.py:45-70 | a processed file has a non-empty name, a test name ending in `Test.java`, a stripped test, and non-empty method names, no more of them than `(` in the extracted text |
| App.EmptyContentIsExtracted | app.py:49-61 | empty content is not skipped when the extractor's output for it is not blank |
| App.Validate | app.py:87-93 | a missing body or missing `files` is "No files provided"; a `files` that is not a list is "files must be a list"; otherwise the list goes on |
| App.Archive | app.py:95-103 | the `test_files` dictionary: the fold of the test-name/test entries of all outcomes, with at most one entry per file |
| App.MethodsIndex | app.py:96-104 | the `methods_info` dictionary: the fold of the name/method-names entries of all outcomes, with at most one entry per file |
| App.Outcomes | app.py:98-99 | one result of `_process_file` per submitted file, in order |
| App.BatchStep | app.py:99-104 | one loop turn writes both dictionaries for a processed file and neither for a skipped one |
| App.ProcessBatch | app.py:95-104 | the loop builds exactly the archive and the method index of the whole list |
| App.GenerateTests | app.py:85-107 | a failed check replies 400 with its error; otherwise the reply is 200 with the archive and the method index |
| App.OutcomesAppend | app.py:98-99 | the files of a batch are processed independently |
| App.ArchiveNames | app.py:103 | the archive holds exactly the test names of the files that were not skipped |
| App.MethodsIndexNames | app.py:104 | the method index holds exactly the submitted names of the files that were not skipped |
| App.ArchiveLastWins | app.py:103 | of files with the same test name, the last processed one supplies the archived test |
| App.MethodsIndexLastWins | app.py:104 | of files submitted under the same name, the last processed one supplies the method names |
| App.SkippedFileContributesNothing | app.py:100-101 | a skipped file leaves both dictionaries as they would be without it |
| App.NoBackendStoresEmptyTests | app.py:103 | with no model, every processed file is still archived, with the empty test |
| AppExamples.CalcFileProcessed | app.py:45-70 | `Calc.java` whose method is `add` becomes `CalcTest.java` with method names `["add"]` |
| AppExamples.CalcRequest | app.py:95-107 | the single-file request gives the archive `{CalcTest.java: test}` and the index `{Calc.java: ["add"]}` |
| AppExamples.BlankFileSkipped | app.py:60-61 | an empty file for which the extractor prints only whitespace is skipped |
| AppExamples.BatchWithBlankFile | app.py:98-104 | adding such a file in front of `Calc.java` leaves the reply unchanged |

## Left out

- Request parsing (app.py:34-42): the JSON/form-data distinction and the `eval` of the form field are not modelled. The handler starts from an already parsed body, where `Body(None)` stands for a body without a `files` key and also for an empty body.
- Bodies that are not JSON objects are not modelled; `Body` stands for an object. In the code they behave in three ways:
  - A falsy body (`null`, `[]`, `0`, `false`, `""`) gets 400 "No files provided" (app.py:88).
  - So does a list or string that does not contain `"files"`, such as `[1, 2]` or `"abc"` (app.py:88).
  - A number such as `5` raises a `TypeError` at the `in` test (app.py:88). A list or string that does contain `"files"`, such as `["files"]` or `"myfiles"`, raises a `TypeError` when it is indexed (app.py:91).
- Entries and fields that are not of the expected types are not modelled: an entry is a `FileInfo` of optional strings. In the code:
  - An entry that is not an object raises an `AttributeError` at `info.get` (app.py:47).
  - A falsy name that is not a string (`0`, `false`, `[]`) is skipped like an empty one (app.py:49).
  - A truthy name that is not a string raises at `rsplit` (app.py:69), but only after an extraction that gives text.
  - A non-`None` content that is not a string raises at the write (app.py:55).
- The temporary file `temp_{idx}.java`, its write and its removal are file I/O (app.py:53-59). The model passes the content straight to `run`, so a file's result depends on its content and not on its index. That rests on two assumptions that the code does not guarantee:
  - The file is written relative to the server's working directory (app.py:54-55), but the helper runs with `cwd=_DIR` and opens `temp_{idx}.java` there (extract_method.py:41-48). When the server is started from another directory, that file is missing (so every file is skipped), or it is stale (so a file gets another file's methods).
  - No other request touches the same file. A concurrent request can overwrite or remove it between the write, the extraction and the removal (app.py:54-59).
- App.OutcomesAppend and App.SkippedFileContributesNothing hold only under those two assumptions, because they treat each file's result as depending on its content alone. In the code a file's result can depend on its index and on other requests.
- `_ensure_compiled` and the two `subprocess.run` calls of the extractor are process calls. They are folded into the parameter `run`; the compile-error and run-error messages on stderr and stdout are not modelled.
- `_make_zip` and the base64 encoding (app.py:73-80) are not modelled. The reply carries the archive's contents as a map from file name to code; zip compression and encoding are byte-level I/O.
- The `ChatOpenAI` call (model `gpt-4o`, 800 tokens) is network I/O. It is the parameter `ChatModel(reply)`; `result.content` is `reply(prompt)`.
- Logging, the tracing decorator's fallback, the environment defaults, CORS, the Flask routing and the `__main__` blocks have no effect on the computed values.
- MethodScan.IsHit: `\w` and `\b` are taken as ASCII `[A-Za-z0-9_]`. Python's `str` patterns also count non-ASCII letters and digits as word characters, so a name containing them is not modelled.
- The model's foreign calls are total functions that never raise: `run` for the extractor's process calls, and `reply` for the chat model. In the code these calls can all raise, and nothing catches the exception:
  - `subprocess.run` raises `FileNotFoundError` when `javac` or `java` is missing (extract_method.py:21, 42).
  - `ChatOpenAI(...)` and `llm.invoke` fail without an API key or on a network error (junit_test_generator.py:52-53).
  - The temporary-file write can fail (app.py:54-55).
  - Any of these ends the whole request with a server error, and may leave `temp_{idx}.java` behind.
- App.GenerateTests: its "otherwise 200 with the archive and the method index" holds only because `run` and `reply` never raise. In the code one failing file turns the whole batch into a server error.
- App.SkippedFileContributesNothing: that each file is processed on its own also rests on `run` and `reply` never raising. In the code an exception in one file ends processing of all of them.
- `reply` is a fixed function of the prompt, so two files with the same extracted text get the same test in the model. The real model need not answer the same way twice. `run` is likewise a fixed function of the content.
- Concurrency: one handler runs its loop sequentially. Flask's development server (app.py:112) handles requests on threads by default, and every request uses the same names `temp_0.java`, `temp_1.java` and so on. Concurrent requests therefore share those files. The model treats each request in isolation.
