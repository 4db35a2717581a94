/**
 * TemplateSubstitution: while a templated class is expanded, a type named
 * like the template argument is replaced by the instantiating type, and
 * the placeholder "This" by the expanded class. Qualified and ReturnType
 * are not part of this model beyond the fields used here: a qualified
 * name is its namespaces and its name, printed with the namespaces first,
 * each followed by the delimiter; a return type adds the pointer flag.
 */
module TemplateSubstitutions {
  /** Qualified: a name with its enclosing namespaces, outermost first. */
  datatype Qualified = Qualified(namespaces: seq<string>, name: string)

  /** ReturnType: a qualified type and whether it is returned by shared pointer. */
  datatype ReturnType = ReturnType(qualified: Qualified, isPtr: bool)

  /** A default-constructed ReturnType: no namespaces, empty name, not a pointer. */
  const DefaultReturnType := ReturnType(Qualified([], ""), false)

  /** The placeholder for the class being expanded. */
  const This := "This"

  /** e.g. TemplateSubstitution("T", gtsam::Point2, gtsam::PriorFactorPoint2). */
  datatype TemplateSubstitution = TemplateSubstitution(
    templateArg: string, qualifiedType: Qualified, expandedClass: Qualified)

  /** The type is the bare template argument. */
  predicate IsTemplateArg(ts: TemplateSubstitution, q: Qualified) {
    q.name == ts.templateArg && q.namespaces == []
  }

  /**
   * operator()(Qualified): the bare template argument becomes the
   * instantiating type; failing that, a type named "This" (in any
   * namespace) becomes the expanded class; any other type is kept.
   */
  function Substitute(ts: TemplateSubstitution, q: Qualified): (r: Qualified)
    ensures IsTemplateArg(ts, q) ==> r == ts.qualifiedType
    ensures !IsTemplateArg(ts, q) && q.name == This ==> r == ts.expandedClass
    ensures !IsTemplateArg(ts, q) && q.name != This ==> r == q
  {
    if q.name == ts.templateArg && q.namespaces == [] then ts.qualifiedType
    else if q.name == This then ts.expandedClass
    else q
  }

  /**
   * A namespaced type named like the template argument is not the
   * argument: it is kept (unless it is named "This").
   */
  lemma NamespacedKept(ts: TemplateSubstitution, q: Qualified)
    requires q.name == ts.templateArg && q.namespaces != [] && q.name != This
    ensures Substitute(ts, q) == q
  {
  }

  /** The template-argument rule wins over "This" when the argument is itself named "This". */
  lemma TemplateArgFirst(ts: TemplateSubstitution)
    requires ts.templateArg == This
    ensures Substitute(ts, Qualified([], This)) == ts.qualifiedType
  {
  }

  /**
   * Substitution only ever produces the original type, the instantiating
   * type or the expanded class, and leaves every type that neither rule
   * names as it was.
   */
  lemma SubstituteRange(ts: TemplateSubstitution, q: Qualified)
    ensures Substitute(ts, q) in {q, ts.qualifiedType, ts.expandedClass}
    ensures Substitute(ts, q) != q ==> IsTemplateArg(ts, q) || q.name == This
  {
  }

  /** ReturnType::rename(q): takes the name and namespaces of q, keeping the pointer flag. */
  function Rename(t: ReturnType, q: Qualified): (r: ReturnType)
    ensures r.qualified == q && r.isPtr == t.isPtr
  {
    t.(qualified := q)
  }

  /**
   * operator()(ReturnType) as written: the renames are applied to a
   * default-constructed ReturnType, so any other return type, and the
   * pointer flag of every return type, is lost.
   */
  function SubstituteReturnAsWritten(ts: TemplateSubstitution, t: ReturnType): (r: ReturnType)
    ensures !r.isPtr
    ensures !IsTemplateArg(ts, t.qualified) && t.qualified.name != This ==> r == DefaultReturnType
  {
    var instType := DefaultReturnType;
    if IsTemplateArg(ts, t.qualified) then Rename(instType, ts.qualifiedType)
    else if t.qualified.name == This then Rename(instType, ts.expandedClass)
    else instType
  }

  /** A plain "double" returned by pointer comes back as the empty default type. */
  lemma ReturnTypeLost()
    ensures var t := ReturnType(Qualified([], "double"), true);
      SubstituteReturnAsWritten(TemplateSubstitution("T", Qualified(["gtsam"], "Point2"), Qualified(["gtsam"], "PriorFactorPoint2")), t)
        == DefaultReturnType != t
  {
  }

  /**
   * operator()(ReturnType) corrected: the renames are applied to a copy of
   * the given return type.
   */
  function SubstituteReturn(ts: TemplateSubstitution, t: ReturnType): (r: ReturnType)
    ensures r.isPtr == t.isPtr
    ensures !IsTemplateArg(ts, t.qualified) && t.qualified.name != This ==> r == t
  {
    var instType := t;
    if IsTemplateArg(ts, t.qualified) then Rename(instType, ts.qualifiedType)
    else if t.qualified.name == This then Rename(instType, ts.expandedClass)
    else instType
  }

  /** The corrected return-type substitution renames exactly as the Qualified one does. */
  lemma SubstituteReturnAgrees(ts: TemplateSubstitution, t: ReturnType)
    ensures SubstituteReturn(ts, t).qualified == Substitute(ts, t.qualified)
  {
  }

  /** Qualified::qualifiedName(delim): each namespace followed by the delimiter, then the name. */
  function QualifiedName(q: Qualified, delim: string): string
    decreases |q.namespaces|
  {
    if |q.namespaces| == 0 then q.name
    else q.namespaces[0] + delim + QualifiedName(Qualified(q.namespaces[1..], q.name), delim)
  }

  /** An unqualified name prints as itself; the name always ends the printed form. */
  lemma {:induction false} QualifiedNameEndsWithName(q: Qualified, delim: string)
    ensures |QualifiedName(q, delim)| >= |q.name|
    ensures QualifiedName(q, delim)[|QualifiedName(q, delim)| - |q.name|..] == q.name
    ensures q.namespaces == [] ==> QualifiedName(q, delim) == q.name
    decreases |q.namespaces|
  {
    if |q.namespaces| > 0 {
      var rest := Qualified(q.namespaces[1..], q.name);
      QualifiedNameEndsWithName(rest, delim);
      var prefix := q.namespaces[0] + delim;
      var s := QualifiedName(rest, delim);
      assert QualifiedName(q, delim) == prefix + s;
      assert (prefix + s)[|prefix + s| - |q.name|..] == s[|s| - |q.name|..];
    }
  }

  /** operator<<: "arg/qualified (expanded)", both types printed with "::". */
  function Show(ts: TemplateSubstitution): string {
    ts.templateArg + "/" + QualifiedName(ts.qualifiedType, "::") + " (" + QualifiedName(ts.expandedClass, "::") + ")"
  }

  /** A qualified name inside one namespace prints as the namespace, the delimiter and the name. */
  lemma QualifiedNameOneNamespace(ns: string, name: string, delim: string)
    ensures QualifiedName(Qualified([ns], name), delim) == ns + delim + name
  {
    assert [ns][1..] == [];
  }

  /**
   * The printed form starts with the template argument and a slash and
   * ends with a closing parenthesis; for
   * unqualified types it is "arg/type (class)".
   */
  lemma ShowShape(ts: TemplateSubstitution)
    ensures Show(ts)[..|ts.templateArg| + 1] == ts.templateArg + "/"
    ensures Show(ts)[|Show(ts)| - 1] == ')'
    ensures ts.qualifiedType.namespaces == [] && ts.expandedClass.namespaces == [] ==>
      Show(ts) == ts.templateArg + "/" + ts.qualifiedType.name + " (" + ts.expandedClass.name + ")"
  {
    QualifiedNameEndsWithName(ts.qualifiedType, "::");
    QualifiedNameEndsWithName(ts.expandedClass, "::");
    var rest := QualifiedName(ts.qualifiedType, "::") + " (" + QualifiedName(ts.expandedClass, "::") + ")";
    assert Show(ts) == ts.templateArg + "/" + rest;
    assert (ts.templateArg + "/" + rest)[..|ts.templateArg| + 1] == ts.templateArg + "/";
  }
}
