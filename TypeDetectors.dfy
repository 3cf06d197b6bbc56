/** Detectors that classify declarations by their declared type string or their
    modifiers, and the non-empty diamond detector (JavaReviewer.java, lines 96-119
    and 174-393). */
module TypeDetectors {
  import opened JavaSyntax
  import opened Sequences
  import opened Findings

  // ---------------------------------------------------------------------------
  // Method declarations, matched on the return-type string and the modifiers.
  // ---------------------------------------------------------------------------

  predicate IsBooleanMethod(n: Node)
  {
    n.kind.MethodDecl? && (n.kind.returnType == "boolean" || n.kind.returnType == "Boolean")
  }

  predicate IsNonVoidMethod(n: Node)
  {
    n.kind.MethodDecl? && n.kind.returnType != "void"
  }

  predicate IsPrivateStaticMethod(n: Node)
  {
    n.kind.MethodDecl? && Private in n.kind.modifiers && Static in n.kind.modifiers
  }

  predicate IsPrivateMethod(n: Node)
  {
    n.kind.MethodDecl? && Private in n.kind.modifiers
  }

  /** What the method visitors record for a declaration: its name and first line. */
  function MethodFinding(n: Node): NamedLine
    requires n.kind.MethodDecl? && n.begin.Some?
  {
    NamedLine(n.kind.name, n.begin.value)
  }

  /** The finding of each method declaration of `ms`, in order. */
  function MethodFindings(ms: seq<Node>): (r: seq<NamedLine>)
    requires forall n <- ms :: n.kind.MethodDecl? && n.begin.Some?
  {
    seq(|ms|, i requires 0 <= i < |ms| => MethodFinding(ms[i]))
  }

  /** One finding per method declaration of `ns` that `p` selects, in the order of `ns`. */
  function MethodsWhere(ns: seq<Node>, p: Node -> bool): (r: seq<NamedLine>)
    requires forall n <- ns | p(n) :: n.kind.MethodDecl? && n.begin.Some?
    ensures |r| == |Filter(ns, p)|
    ensures forall i :: 0 <= i < |r| ==> r[i] == MethodFinding(Filter(ns, p)[i])
  {
    if ns == [] then []
    else
      var last := ns[|ns| - 1];
      MethodsWhere(ns[..|ns| - 1], p) + (if p(last) then [MethodFinding(last)] else [])
  }

  lemma {:induction false} MethodsWhereMonotone(ns: seq<Node>, p: Node -> bool, q: Node -> bool)
    requires forall n :: p(n) ==> q(n)
    requires forall n <- ns | q(n) :: n.kind.MethodDecl? && n.begin.Some?
    ensures Subsequence(MethodsWhere(ns, p), MethodsWhere(ns, q))
  {
    if ns != [] {
      var ns', x := ns[..|ns| - 1], ns[|ns| - 1];
      MethodsWhereMonotone(ns', p, q);
      var a, b := MethodsWhere(ns, p), MethodsWhere(ns, q);
      if p(x) {
        assert a[..|a| - 1] == MethodsWhere(ns', p) && b[..|b| - 1] == MethodsWhere(ns', q);
      } else if q(x) {
        assert a == MethodsWhere(ns', p) && b[..|b| - 1] == MethodsWhere(ns', q);
        assert Subsequence(a, b[..|b| - 1]);
      } else {
        assert a == MethodsWhere(ns', p) && b == MethodsWhere(ns', q);
      }
    }
  }

  /** getBooleanMethods (184-206): the visitor descends first and records afterwards. */
  function BooleanMethods(cu: Node): (r: seq<NamedLine>)
    requires BeginsKnown(Filter(PostOrder(cu), IsBooleanMethod))
    ensures r == MethodFindings(Filter(PostOrder(cu), IsBooleanMethod))
  {
    MethodsWhere(PostOrder(cu), IsBooleanMethod)
  }

  /** getNonVoidMethods (254-276). */
  function NonVoidMethods(cu: Node): (r: seq<NamedLine>)
    requires BeginsKnown(Filter(PostOrder(cu), IsNonVoidMethod))
    ensures r == MethodFindings(Filter(PostOrder(cu), IsNonVoidMethod))
  {
    MethodsWhere(PostOrder(cu), IsNonVoidMethod)
  }

  /** getPrivateStaticMethods (292-314). */
  function PrivateStaticMethods(cu: Node): (r: seq<NamedLine>)
    requires BeginsKnown(Filter(PostOrder(cu), IsPrivateStaticMethod))
    ensures r == MethodFindings(Filter(PostOrder(cu), IsPrivateStaticMethod))
  {
    MethodsWhere(PostOrder(cu), IsPrivateStaticMethod)
  }

  /** getPrivateMethods (331-353). */
  function PrivateMethods(cu: Node): (r: seq<NamedLine>)
    requires BeginsKnown(Filter(PostOrder(cu), IsPrivateMethod))
    ensures r == MethodFindings(Filter(PostOrder(cu), IsPrivateMethod))
  {
    MethodsWhere(PostOrder(cu), IsPrivateMethod)
  }

  /** A method declaration is reported by a method detector exactly when the
      detector's predicate holds of it, once, with its name and first line. */
  lemma MethodDetectorsExact(cu: Node, p: Node -> bool)
    requires forall n :: p(n) ==> n.kind.MethodDecl?
    requires BeginsKnown(Filter(PostOrder(cu), p))
    ensures |MethodsWhere(PostOrder(cu), p)| == |Filter(PostOrder(cu), p)|
    ensures forall n <- PostOrder(cu) :: p(n) ==> MethodFinding(n) in MethodsWhere(PostOrder(cu), p)
    ensures forall f <- MethodsWhere(PostOrder(cu), p) :: exists n <- PostOrder(cu) :: p(n) && f == MethodFinding(n)
  {
    var ms, r := Filter(PostOrder(cu), p), MethodsWhere(PostOrder(cu), p);
    forall n <- PostOrder(cu) | p(n) ensures MethodFinding(n) in r {
      var i :| 0 <= i < |ms| && ms[i] == n;
      assert r[i] == MethodFinding(n);
    }
    forall f <- r ensures exists n <- PostOrder(cu) :: p(n) && f == MethodFinding(n) {
      var i :| 0 <= i < |r| && r[i] == f;
      assert ms[i] in PostOrder(cu) && p(ms[i]);
    }
  }

  /** Every boolean-method finding is also a non-void-method finding, in the same order. */
  lemma BooleanMethodsAreNonVoid(cu: Node)
    requires BeginsKnown(Filter(PostOrder(cu), IsNonVoidMethod))
    ensures BeginsKnown(Filter(PostOrder(cu), IsBooleanMethod))
    ensures Subsequence(BooleanMethods(cu), NonVoidMethods(cu))
    ensures forall f <- BooleanMethods(cu) :: f in NonVoidMethods(cu)
  {
    MethodsWhereMonotone(PostOrder(cu), IsBooleanMethod, IsNonVoidMethod);
    SubsequenceMembers(BooleanMethods(cu), NonVoidMethods(cu));
  }

  /** Every private-static-method finding is also a private-method finding, in the same order. */
  lemma PrivateStaticMethodsArePrivate(cu: Node)
    requires BeginsKnown(Filter(PostOrder(cu), IsPrivateMethod))
    ensures BeginsKnown(Filter(PostOrder(cu), IsPrivateStaticMethod))
    ensures Subsequence(PrivateStaticMethods(cu), PrivateMethods(cu))
    ensures forall f <- PrivateStaticMethods(cu) :: f in PrivateMethods(cu)
  {
    MethodsWhereMonotone(PostOrder(cu), IsPrivateStaticMethod, IsPrivateMethod);
    SubsequenceMembers(PrivateStaticMethods(cu), PrivateMethods(cu));
  }

  // ---------------------------------------------------------------------------
  // Variable declarators, matched on the declared type string.
  // ---------------------------------------------------------------------------

  predicate IsNumericVariable(n: Node)
  {
    && n.kind.VariableDeclarator?
    && (|| n.kind.typeName == "double" || n.kind.typeName == "Double"
        || n.kind.typeName == "int" || n.kind.typeName == "Integer"
        || n.kind.typeName == "float")
  }

  predicate IsBooleanVariable(n: Node)
  {
    n.kind.VariableDeclarator? && n.kind.typeName == "boolean"
  }

  /** Every declarator of `ns` has a known name position. */
  predicate NameBeginsKnown(ns: seq<Node>)
  {
    forall n <- ns :: n.kind.VariableDeclarator? && n.kind.nameBegin.Some?
  }

  /** What the variable visitors record for a declarator: its name and the line of the name. */
  function DeclaratorFinding(n: Node): NamedLine
    requires n.kind.VariableDeclarator? && n.kind.nameBegin.Some?
  {
    NamedLine(n.kind.name, n.kind.nameBegin.value)
  }

  /** The finding of each declarator of `ds`, in order. */
  function DeclaratorFindings(ds: seq<Node>): (r: seq<NamedLine>)
    requires NameBeginsKnown(ds)
  {
    seq(|ds|, i requires 0 <= i < |ds| => DeclaratorFinding(ds[i]))
  }

  /** One finding per declarator of `ns` that `p` selects, in the order of `ns`. */
  function DeclaratorsWhere(ns: seq<Node>, p: Node -> bool): (r: seq<NamedLine>)
    requires NameBeginsKnown(Filter(ns, p))
    ensures |r| == |Filter(ns, p)|
    ensures forall i :: 0 <= i < |r| ==> r[i] == DeclaratorFinding(Filter(ns, p)[i])
  {
    if ns == [] then []
    else
      var ns', last := ns[..|ns| - 1], ns[|ns| - 1];
      assert Filter(ns', p) <= Filter(ns, p);
      DeclaratorsWhere(ns', p) + (if p(last) then [DeclaratorFinding(last)] else [])
  }

  /** getNumericVariables (218-242): the visitor descends first and records afterwards. */
  function NumericVariables(cu: Node): (r: seq<NamedLine>)
    requires NameBeginsKnown(Filter(PostOrder(cu), IsNumericVariable))
    ensures r == DeclaratorFindings(Filter(PostOrder(cu), IsNumericVariable))
  {
    DeclaratorsWhere(PostOrder(cu), IsNumericVariable)
  }

  /** getBooleanVariables (369-393). */
  function BooleanVariables(cu: Node): (r: seq<NamedLine>)
    requires NameBeginsKnown(Filter(PostOrder(cu), IsBooleanVariable))
    ensures r == DeclaratorFindings(Filter(PostOrder(cu), IsBooleanVariable))
  {
    DeclaratorsWhere(PostOrder(cu), IsBooleanVariable)
  }

  /** No declarator is numeric and boolean at once; each matching declarator yields
      exactly one finding, so the two detectors together report at most one finding
      per declarator of the file. */
  lemma NumericAndBooleanVariablesDisjoint(cu: Node)
    requires NameBeginsKnown(Filter(PostOrder(cu), IsNumericVariable))
    requires NameBeginsKnown(Filter(PostOrder(cu), IsBooleanVariable))
    ensures forall n :: !(IsNumericVariable(n) && IsBooleanVariable(n))
    ensures |NumericVariables(cu)| + |BooleanVariables(cu)| <= |Filter(PostOrder(cu), IsDeclarator)|
  {
    FilterDisjointCount(PostOrder(cu), IsNumericVariable, IsBooleanVariable, IsDeclarator);
  }

  // ---------------------------------------------------------------------------
  // Non-empty diamonds (96-119).
  // ---------------------------------------------------------------------------

  predicate IsObjectCreation(v: Visit)
  {
    v.node.kind.ObjectCreation?
  }

  /** The rule of lines 108-110: a class or interface type, type arguments present
      and not empty, and a variable declarator as the direct parent. */
  predicate IsNonEmptyDiamond(v: Visit)
  {
    && v.node.kind.ObjectCreation?
    && v.node.kind.classOrInterfaceType
    && v.node.kind.typeArgs.Some? && |v.node.kind.typeArgs.value| > 0
    && Parent(v).Some? && Parent(v).value.kind.VariableDeclarator?
  }

  /** The span of each visited node, in order. */
  function Spans(vs: seq<Visit>): seq<LineSpan>
  {
    seq(|vs|, i requires 0 <= i < |vs| => SpanOf(vs[i].node))
  }

  /** getNonEmptyDiamondOperators (101-119): every object creation of the file, in
      `findAll` order, filtered by the rule; a missing position becomes -1. */
  method GetNonEmptyDiamondOperators(cu: Node) returns (diamonds: seq<LineSpan>)
    ensures diamonds == Spans(Filter(Walk(cu, []), IsNonEmptyDiamond))
  {
    var creations := Filter(Walk(cu, []), IsObjectCreation);
    diamonds := [];
    for i := 0 to |creations|
      invariant diamonds == Spans(Filter(creations[..i], IsNonEmptyDiamond))
    {
      var oce, parent := creations[i].node, Parent(creations[i]);
      assert creations[..i + 1] == creations[..i] + [creations[i]];
      assert creations[i] in creations;
      if && oce.kind.classOrInterfaceType && oce.kind.typeArgs.Some?
         && |oce.kind.typeArgs.value| != 0
         && parent.Some? && parent.value.kind.VariableDeclarator?
      {
        diamonds := diamonds + [SpanOf(oce)];
      }
    }
    assert creations[..|creations|] == creations;
    FilterFilter(Walk(cu, []), IsObjectCreation, IsNonEmptyDiamond);
  }

  /** An object creation is reported exactly when it satisfies the rule, with its
      own span; nothing else is reported. */
  lemma NonEmptyDiamondsExact(cu: Node)
    ensures forall v <- Walk(cu, []) :: IsNonEmptyDiamond(v) ==> SpanOf(v.node) in Spans(Filter(Walk(cu, []), IsNonEmptyDiamond))
    ensures forall s <- Spans(Filter(Walk(cu, []), IsNonEmptyDiamond)) ::
              exists v <- Walk(cu, []) :: IsNonEmptyDiamond(v) && s == SpanOf(v.node)
  {
    var vs := Filter(Walk(cu, []), IsNonEmptyDiamond);
    var spans := Spans(vs);
    forall v <- Walk(cu, []) | IsNonEmptyDiamond(v) ensures SpanOf(v.node) in spans {
      var i :| 0 <= i < |vs| && vs[i] == v;
      assert spans[i] == SpanOf(v.node);
    }
    forall s <- spans ensures exists v <- Walk(cu, []) :: IsNonEmptyDiamond(v) && s == SpanOf(v.node) {
      var i :| 0 <= i < |spans| && spans[i] == s;
      assert vs[i] in vs;
    }
  }

  /** Each reported line is a real line or the sentinel -1, and when the parser's
      ranges are ordered a span with both ends known never ends before it starts. */
  lemma NonEmptyDiamondSpansOrdered(cu: Node)
    requires forall v <- Walk(cu, []) :: RangesOrdered([v.node])
    ensures forall s <- Spans(Filter(Walk(cu, []), IsNonEmptyDiamond)) ::
              && (s.startLine == -1 || s.startLine >= 1)
              && (s.endLine == -1 || s.endLine >= 1)
              && (s.startLine >= 1 && s.endLine >= 1 ==> s.startLine <= s.endLine)
  {
    var vs := Filter(Walk(cu, []), IsNonEmptyDiamond);
    var spans := Spans(vs);
    forall s <- spans
      ensures && (s.startLine == -1 || s.startLine >= 1)
              && (s.endLine == -1 || s.endLine >= 1)
              && (s.startLine >= 1 && s.endLine >= 1 ==> s.startLine <= s.endLine)
    {
      var i :| 0 <= i < |spans| && spans[i] == s;
      assert vs[i] in vs;
      var n := vs[i].node;
      assert n in [n];
    }
  }
}
