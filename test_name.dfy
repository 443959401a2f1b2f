/**
 * The name of the generated test file: `name.rsplit(".", 1)[0] + "Test.java"`.
 */
module TestName {
  import opened Wrappers

  const Suffix: string := "Test.java"

  /** The index of the last `.` in `name`, if there is one. */
  function LastDot(name: string): (r: Option<nat>)
    ensures r.None? ==> '.' !in name
    ensures r.Some? ==> r.value < |name| && name[r.value] == '.' && '.' !in name[r.value + 1..]
  {
    if name == [] then None
    else if name[|name| - 1] == '.' then Some(|name| - 1)
    else
      var r := LastDot(name[..|name| - 1]);
      assert name == name[..|name| - 1] + [name[|name| - 1]];
      assert r.Some? ==> name[r.value + 1..] == name[..|name| - 1][r.value + 1..] + [name[|name| - 1]];
      r
  }

  /**
   * `name.rsplit(".", 1)`: the whole name when it has no `.`, otherwise the
   * text before and the text after its last `.`.
   */
  function RSplitDot(name: string): (parts: seq<string>)
    ensures |parts| == 1 || |parts| == 2
    ensures |parts| == 1 <==> '.' !in name
    ensures '.' !in parts[|parts| - 1]
  {
    match LastDot(name)
    case None => [name]
    case Some(k) => [name[..k], name[k + 1..]]
  }

  /** Joining the parts with `.` gives the name back. */
  lemma RSplitDotJoin(name: string)
    ensures var parts := RSplitDot(name);
            name == if |parts| == 1 then parts[0] else parts[0] + "." + parts[1]
  {
    var r := LastDot(name);
    if r.Some? {
      assert name == name[..r.value] + "." + name[r.value + 1..];
    }
  }

  /** `name.rsplit(".", 1)[0] + "Test.java"`. */
  function DeriveTestName(name: string): (r: string)
    ensures |r| >= |Suffix| && r[|r| - |Suffix|..] == Suffix
  {
    var stem := RSplitDot(name)[0];
    assert (stem + Suffix)[|stem|..] == Suffix;
    stem + Suffix
  }

  /** A name without `.` is kept whole. */
  lemma {:induction false} NoDotKeepsName(name: string)
    requires '.' !in name
    ensures DeriveTestName(name) == name + Suffix
  {
  }

  /**
   * A name with a `.` loses its last `.` and what follows it: if the `.` at
   * index k is the last one, the test name is `name[..k] + "Test.java"`.
   */
  lemma {:induction false} LastDotCut(name: string, k: nat)
    requires k < |name| && name[k] == '.' && '.' !in name[k + 1..]
    ensures DeriveTestName(name) == name[..k] + Suffix
  {
  }

  /** `Calc` has no `.`: `CalcTest.java`. */
  lemma ExampleNoDot()
    ensures DeriveTestName("Calc") == "CalcTest.java"
  {
    NoDotKeepsName("Calc");
  }

  /** `Calc.java` gives `CalcTest.java`. */
  lemma ExampleJava()
    ensures DeriveTestName("Calc.java") == "CalcTest.java"
  {
    var n := "Calc.java";
    assert n[5..] == "java";
    LastDotCut(n, 4);
    assert n[..4] == "Calc";
  }

  /** Only the last `.` is cut: `a.b.java` gives `a.bTest.java`. */
  lemma ExampleTwoDots()
    ensures DeriveTestName("a.b.java") == "a.bTest.java"
  {
    var n := "a.b.java";
    assert n[4..] == "java";
    LastDotCut(n, 3);
    assert n[..3] == "a.b";
  }

  /** A name that is only an extension leaves just the suffix. */
  lemma ExampleOnlyExtension()
    ensures DeriveTestName(".java") == "Test.java"
  {
    var n := ".java";
    assert n[1..] == "java";
    LastDotCut(n, 0);
  }

  /** Different sources can share a test name: only the text before the last `.` matters. */
  lemma SameStemSameTestName(stem: string, ext1: string, ext2: string)
    requires '.' !in ext1 && '.' !in ext2
    ensures DeriveTestName(stem + "." + ext1) == DeriveTestName(stem + "." + ext2)
  {
    var n1, n2 := stem + "." + ext1, stem + "." + ext2;
    assert n1[|stem| + 1..] == ext1 && n1[..|stem|] == stem;
    assert n2[|stem| + 1..] == ext2 && n2[..|stem|] == stem;
    LastDotCut(n1, |stem|);
    LastDotCut(n2, |stem|);
  }
}
