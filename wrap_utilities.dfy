/**
 * String helpers of the wrapper generator: equality checks that report
 * mismatches, the optional shared_ptr<> wrapping of a type name, and the
 * emission of using-namespace and include lines into a generated file.
 * std::endl is the newline character; the mismatch reports go to the
 * console and are not modelled.
 */
module WrapUtilities {
  /** FileWriter: the text written so far into its output stream oss. */
  class FileWriter {
    var oss: string

    constructor()
      ensures oss == ""
    {
      oss := "";
    }
  }

  /** assert_equal(expected, actual) on strings: true exactly when they are equal. */
  function AssertEqual(expected: string, actual: string): (r: bool)
    ensures r <==> expected == actual
    ensures r ==> |expected| == |actual|
  {
    if expected == actual then true else false
  }

  /**
   * assert_equal(expected, actual) on string vectors: the sizes are
   * compared first, then the elements pairwise until the first mismatch.
   */
  method AssertEqualVectors(expected: seq<string>, actual: seq<string>) returns (matched: bool)
    ensures matched <==> expected == actual
    ensures matched <==> |expected| == |actual| && forall i :: 0 <= i < |expected| ==> expected[i] == actual[i]
  {
    matched := true;
    if |expected| != |actual| {
      matched := false;
    }
    if matched {
      var i := 0;
      while i < |expected| && i < |actual|
        invariant 0 <= i <= |expected| == |actual|
        invariant forall k :: 0 <= k < i ==> expected[k] == actual[k]
      {
        if expected[i] != actual[i] {
          matched := false;
          break;
        }
        i := i + 1;
      }
      if matched {
        assert expected == actual by {
          assert forall k :: 0 <= k < |expected| ==> expected[k] == actual[k];
        }
      }
    }
  }

  const SharedPtrOpen := "shared_ptr<"

  /** maybe_shared_ptr(add, type): the type, wrapped in shared_ptr<...> when add is set. */
  function MaybeSharedPtr(add: bool, typeName: string): (s: string)
    ensures add ==> |s| == |typeName| + 12 && s[..11] == SharedPtrOpen && s[|s| - 1] == '>'
    ensures !add ==> s == typeName
  {
    var str := if add then SharedPtrOpen else "";
    var str := str + typeName;
    if add then str + ">" else str
  }

  /** Removing the shared_ptr<...> wrapper, where there is one. */
  function UnwrapSharedPtr(s: string): (typeName: string)
    ensures |typeName| <= |s|
  {
    if |s| >= 12 && s[..11] == SharedPtrOpen && s[|s| - 1] == '>' then s[11..|s| - 1] else s
  }

  /** Unwrapping recovers the wrapped type name. */
  lemma UnwrapMaybeSharedPtr(typeName: string)
    ensures UnwrapSharedPtr(MaybeSharedPtr(true, typeName)) == typeName
  {
    var s := MaybeSharedPtr(true, typeName);
    assert s == SharedPtrOpen + typeName + ">";
    assert s[11..|s| - 1] == typeName;
  }

  /** Wrapping is injective: distinct type names stay distinct. */
  lemma MaybeSharedPtrInjective(add: bool, t1: string, t2: string)
    requires MaybeSharedPtr(add, t1) == MaybeSharedPtr(add, t2)
    ensures t1 == t2
  {
    if add {
      UnwrapMaybeSharedPtr(t1);
      UnwrapMaybeSharedPtr(t2);
    }
  }

  /** One "using namespace s;" line per namespace, in order. */
  function UsingLines(namespaces: seq<string>): string
    decreases |namespaces|
  {
    if |namespaces| == 0 then ""
    else UsingLines(namespaces[..|namespaces| - 1]) + "using namespace " + namespaces[|namespaces| - 1] + ";\n"
  }

  /** The lines of two lists of namespaces are the lines of the first followed by those of the second. */
  lemma {:induction false} UsingLinesAppend(a: seq<string>, b: seq<string>)
    ensures UsingLines(a + b) == UsingLines(a) + UsingLines(b)
    decreases |b|
  {
    if |b| == 0 {
      assert a + b == a;
    } else {
      var n := |b| - 1;
      assert (a + b)[..|a + b| - 1] == a + b[..n];
      UsingLinesAppend(a, b[..n]);
    }
  }

  /** No namespaces, no text; any namespace gives text. */
  lemma {:induction false} UsingLinesEmpty(namespaces: seq<string>)
    ensures UsingLines(namespaces) == "" <==> |namespaces| == 0
  {
    if |namespaces| > 0 {
      assert |UsingLines(namespaces)| >= |"using namespace ;\n"|;
    }
  }

  /** generateUsingNamespace(file, using_namespaces): appends the using lines. */
  method GenerateUsingNamespace(file: FileWriter, namespaces: seq<string>)
    modifies file
    ensures file.oss == old(file.oss) + UsingLines(namespaces)
  {
    if |namespaces| == 0 {
      return;
    }
    for i := 0 to |namespaces|
      invariant file.oss == old(file.oss) + UsingLines(namespaces[..i])
    {
      assert namespaces[..i + 1][..i] == namespaces[..i];
      file.oss := file.oss + "using namespace " + namespaces[i] + ";\n";
    }
    assert namespaces[..|namespaces|] == namespaces;
  }

  const MatlabInclude := "#include <wrap/matlab.h>\n"

  /** One "#include <s>" line per non-empty include, in order. */
  function IncludeLines(includes: seq<string>): string
    decreases |includes|
  {
    if |includes| == 0 then ""
    else
      var s := includes[|includes| - 1];
      IncludeLines(includes[..|includes| - 1]) + (if s != "" then "#include <" + s + ">\n" else "")
  }

  /** Some include is non-empty. */
  predicate AnyInclude(includes: seq<string>) {
    exists i :: 0 <= i < |includes| && includes[i] != ""
  }

  /** The include lines are empty exactly when every include is. */
  lemma {:induction false} IncludeLinesEmpty(includes: seq<string>)
    ensures IncludeLines(includes) == "" <==> !AnyInclude(includes)
    decreases |includes|
  {
    if |includes| > 0 {
      var init := includes[..|includes| - 1];
      IncludeLinesEmpty(init);
      assert forall i :: 0 <= i < |init| ==> init[i] == includes[i];
      if includes[|includes| - 1] != "" {
        assert |IncludeLines(includes)| > 0;
      }
      if AnyInclude(includes) && includes[|includes| - 1] == "" {
        var i :| 0 <= i < |includes| && includes[i] != "";
        assert init[i] != "";
      }
    }
  }

  /** The text generateIncludes appends. */
  function Includes(className: string, includes: seq<string>): string {
    MatlabInclude + IncludeLines(includes) + (if AnyInclude(includes) then "" else "#include <" + className + ".h>\n")
  }

  /**
   * The matlab header always comes first, and the class's own header is
   * included exactly when no other include was written.
   */
  lemma IncludesDefault(className: string, includes: seq<string>)
    ensures Includes(className, includes)[..|MatlabInclude|] == MatlabInclude
    ensures !AnyInclude(includes) ==> Includes(className, includes) == MatlabInclude + "#include <" + className + ".h>\n"
    ensures AnyInclude(includes) ==> (Includes(className, includes) == MatlabInclude + IncludeLines(includes) &&
      IncludeLines(includes) != "")
  {
    IncludeLinesEmpty(includes);
  }

  /**
   * generateIncludes(file, class_name, includes): the matlab header, a line
   * per non-empty include, and the class header when no include was added.
   */
  method GenerateIncludes(file: FileWriter, className: string, includes: seq<string>)
    modifies file
    ensures file.oss == old(file.oss) + Includes(className, includes)
  {
    file.oss := file.oss + MatlabInclude;
    var addedInclude := false;
    for i := 0 to |includes|
      invariant file.oss == old(file.oss) + MatlabInclude + IncludeLines(includes[..i])
      invariant addedInclude <==> AnyInclude(includes[..i])
    {
      assert includes[..i + 1][..i] == includes[..i];
      if includes[i] != "" {
        file.oss := file.oss + "#include <" + includes[i] + ">\n";
        addedInclude := true;
        assert includes[..i + 1][i] != "";
      } else {
        assert forall k :: 0 <= k < i + 1 && includes[..i + 1][k] != "" ==> k < i && includes[..i][k] != "";
      }
    }
    assert includes[..|includes|] == includes;
    if !addedInclude {
      file.oss := file.oss + "#include <" + className + ".h>\n";
    }
  }
}
