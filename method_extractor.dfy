/**
 * The method extractor, `extract_method(java_file)`, seen from the batch
 * pipeline. Compiling the Java helper and running it are a process call that
 * is not modelled: `run` stands for it, giving `None` when either `javac` or
 * `java` exits with a nonzero code and `Some(stdout)` otherwise.
 */
module MethodExtractor {
  import opened Wrappers
  import opened Text

  /**
   * A failed run yields nothing; a successful one yields its output with the
   * surrounding whitespace stripped.
   */
  function ExtractMethod(run: string -> Option<string>, source: string): (r: Option<string>)
    ensures r.None? <==> run(source).None?
    ensures r.Some? ==> IsStripped(r.value) && |r.value| <= |run(source).value|
    ensures r.Some? ==> r.value == Strip(run(source).value)
  {
    match run(source)
    case None => None
    case Some(out) => Some(Strip(out))
  }

  /** Output that is only whitespace extracts as the empty string. */
  lemma BlankOutputIsEmpty(run: string -> Option<string>, source: string)
    requires run(source).Some? && AllSpace(run(source).value)
    ensures ExtractMethod(run, source) == Some("")
  {
    StripEmptyIffBlank(run(source).value);
  }
}
