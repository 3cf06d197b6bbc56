/** Detectors that report a declaration together with the name of a class:
    member variables (findMemberVariables, JavaReviewer.java 527-546), methods
    (findMethods and MethodVisitor, 573-606) and variables (findVariables and
    VariableVisitor, 626-655). */
module ClassDetectors {
  import opened JavaSyntax
  import opened Sequences
  import opened Findings

  // ---------------------------------------------------------------------------
  // Member variables (527-546): a visitor whose `currentClass` field is set on
  // entering a class declaration and never restored on leaving it.
  // ---------------------------------------------------------------------------

  /** A field declaration has a first declarator and a known first line (what
      `getVariables().get(0)` and `getBegin().get()` on line 540 need). */
  predicate FieldShaped(n: Node)
  {
    n.kind.FieldDecl? ==> |n.children| > 0 && n.children[0].kind.VariableDeclarator? && n.begin.Some?
  }

  /** The record of line 540: the name of the field's first variable, the field's
      first line and the class name held at that moment. */
  function FieldFinding(n: Node, className: string): ClassMember
    requires n.kind.FieldDecl? && FieldShaped(n)
  {
    ClassMember(className, n.children[0].kind.name, n.begin.value)
  }

  /** What the visitor has collected so far, and its `currentClass` field. */
  datatype MemberScan = MemberScan(found: seq<ClassMember>, currentClass: string)

  /** The effect of entering one node: a class declaration replaces the class name,
      a field declaration is reported under the class name held. */
  function ScanStep(s: MemberScan, n: Node): MemberScan
    requires FieldShaped(n)
  {
    match n.kind
    case ClassOrInterfaceDecl(name) => s.(currentClass := name)
    case FieldDecl => s.(found := s.found + [FieldFinding(n, s.currentClass)])
    case _ => s
  }

  /** The effect of entering each node of `ns` in turn. */
  function ScanNodes(s: MemberScan, ns: seq<Node>): MemberScan
    requires forall n <- ns :: FieldShaped(n)
  {
    if ns == [] then s else ScanStep(ScanNodes(s, ns[..|ns| - 1]), ns[|ns| - 1])
  }

  lemma {:induction false} ScanNodesAppend(s: MemberScan, a: seq<Node>, b: seq<Node>)
    requires forall n <- a + b :: FieldShaped(n)
    ensures ScanNodes(s, a + b) == ScanNodes(ScanNodes(s, a), b)
    decreases |b|
  {
    if b == [] {
      assert a + b == a;
    } else {
      assert (a + b)[..|a + b| - 1] == a + b[..|b| - 1];
      ScanNodesAppend(s, a, b[..|b| - 1]);
    }
  }

  /** The name of the last class declaration among `ns`, or `d` when there is none. */
  function LastClassName(ns: seq<Node>, d: string): string
  {
    if ns == [] then d
    else if ns[|ns| - 1].kind.ClassOrInterfaceDecl? then ns[|ns| - 1].kind.name
    else LastClassName(ns[..|ns| - 1], d)
  }

  /** `LastClassName` is the name of the class declaration after which no other
      comes, or the initial name when `ns` has no class declaration. */
  lemma {:induction false} LastClassNameIsLast(ns: seq<Node>, d: string)
    ensures (forall n <- ns :: !n.kind.ClassOrInterfaceDecl?) ==> LastClassName(ns, d) == d
    ensures forall j ::
              (&& 0 <= j < |ns|
               && ns[j].kind.ClassOrInterfaceDecl?
               && (forall k :: j < k < |ns| ==> !ns[k].kind.ClassOrInterfaceDecl?))
              ==> LastClassName(ns, d) == ns[j].kind.name
  {
    if ns != [] && !ns[|ns| - 1].kind.ClassOrInterfaceDecl? {
      var init := ns[..|ns| - 1];
      LastClassNameIsLast(init, d);
      assert forall n <- init :: n in ns;
      assert forall j :: 0 <= j < |init| ==> init[j] == ns[j];
    }
  }

  /** Scanning leaves the name of the last class declaration entered. */
  lemma {:induction false} ScanNodesClassName(s: MemberScan, ns: seq<Node>)
    requires forall n <- ns :: FieldShaped(n)
    ensures ScanNodes(s, ns).currentClass == LastClassName(ns, s.currentClass)
  {
    if ns != [] {
      assert forall n <- ns[..|ns| - 1] :: n in ns;
      ScanNodesClassName(s, ns[..|ns| - 1]);
    }
  }

  /** Scanning keeps what was found before and adds one finding per field. */
  lemma {:induction false} ScanNodesCount(s: MemberScan, ns: seq<Node>)
    requires forall n <- ns :: FieldShaped(n)
    ensures |ScanNodes(s, ns).found| == |s.found| + |Filter(ns, IsField)|
    ensures ScanNodes(s, ns).found[..|s.found|] == s.found
  {
    if ns != [] {
      assert forall n <- ns[..|ns| - 1] :: n in ns;
      ScanNodesCount(s, ns[..|ns| - 1]);
    }
  }

  /** Scanning reports each field of `ns` once, in order, under the name of the last
      class declaration entered before it, even when that class has already been
      left; nothing else is reported, and the class name held afterwards is the
      last one entered. */
  lemma {:induction false} ScanNodesReportsFields(s: MemberScan, ns: seq<Node>)
    requires forall n <- ns :: FieldShaped(n)
    ensures ScanNodes(s, ns).currentClass == LastClassName(ns, s.currentClass)
    ensures |ScanNodes(s, ns).found| == |s.found| + |Filter(ns, IsField)|
    ensures ScanNodes(s, ns).found[..|s.found|] == s.found
    ensures forall j :: 0 <= j < |ns| && ns[j].kind.FieldDecl? ==>
              FieldFinding(ns[j], LastClassName(ns[..j], s.currentClass)) in ScanNodes(s, ns).found
    ensures forall f <- ScanNodes(s, ns).found[|s.found|..] ::
              exists j :: (&& 0 <= j < |ns| && ns[j].kind.FieldDecl?
                           && f == FieldFinding(ns[j], LastClassName(ns[..j], s.currentClass)))
    ensures forall j :: 0 <= j < |ns| && ns[j].kind.FieldDecl? ==>
              && |s.found| + |Filter(ns[..j], IsField)| < |ScanNodes(s, ns).found|
              && ScanNodes(s, ns).found[|s.found| + |Filter(ns[..j], IsField)|]
                 == FieldFinding(ns[j], LastClassName(ns[..j], s.currentClass))
  {
    ScanNodesClassName(s, ns);
    ScanNodesCount(s, ns);
    ScanNodesFieldsReported(s, ns);
    ScanNodesOnlyFields(s, ns);
    ScanNodesFieldsAt(s, ns);
  }

  /** The field `ns[j]` is reported at its own place: after the findings held
      before and one finding for each field that comes before it. */
  lemma ScanNodesFieldsAt(s: MemberScan, ns: seq<Node>)
    requires forall n <- ns :: FieldShaped(n)
    ensures forall j :: 0 <= j < |ns| && ns[j].kind.FieldDecl? ==>
              && |s.found| + |Filter(ns[..j], IsField)| < |ScanNodes(s, ns).found|
              && ScanNodes(s, ns).found[|s.found| + |Filter(ns[..j], IsField)|]
                 == FieldFinding(ns[j], LastClassName(ns[..j], s.currentClass))
  {
    forall j | 0 <= j < |ns| && ns[j].kind.FieldDecl?
      ensures && |s.found| + |Filter(ns[..j], IsField)| < |ScanNodes(s, ns).found|
              && ScanNodes(s, ns).found[|s.found| + |Filter(ns[..j], IsField)|]
                 == FieldFinding(ns[j], LastClassName(ns[..j], s.currentClass))
    {
      ScanNodesFieldAt(s, ns, j);
    }
  }

  lemma ScanNodesFieldAt(s: MemberScan, ns: seq<Node>, j: nat)
    requires forall n <- ns :: FieldShaped(n)
    requires j < |ns| && ns[j].kind.FieldDecl?
    ensures |s.found| + |Filter(ns[..j], IsField)| < |ScanNodes(s, ns).found|
    ensures ScanNodes(s, ns).found[|s.found| + |Filter(ns[..j], IsField)|]
            == FieldFinding(ns[j], LastClassName(ns[..j], s.currentClass))
  {
    var before, pre, rest := ns[..j], ns[..j + 1], ns[j + 1..];
    assert forall n <- pre :: n in ns;
    assert pre[..|pre| - 1] == before && pre[|pre| - 1] == ns[j];
    ScanNodesFieldLast(s, pre);
    var k := |s.found| + |Filter(before, IsField)|;
    var mid := ScanNodes(s, pre);
    assert |mid.found| == k + 1 && mid.found[k] == FieldFinding(ns[j], LastClassName(before, s.currentClass));
    assert ns == pre + rest;
    ScanNodesExtends(s, pre, rest);
    assert ScanNodes(s, ns).found[k] == ScanNodes(s, ns).found[..|mid.found|][k];
  }

  /** Entering more nodes keeps what was found so far. */
  lemma ScanNodesExtends(s: MemberScan, a: seq<Node>, b: seq<Node>)
    requires forall n <- a + b :: FieldShaped(n)
    ensures |ScanNodes(s, a).found| <= |ScanNodes(s, a + b).found|
    ensures ScanNodes(s, a + b).found[..|ScanNodes(s, a).found|] == ScanNodes(s, a).found
  {
    assert forall n <- a :: n in a + b;
    assert forall n <- b :: n in a + b;
    ScanNodesAppend(s, a, b);
    ScanNodesCount(ScanNodes(s, a), b);
  }


  /** A field entered last is the last finding, under the class name held before it. */
  lemma ScanNodesFieldLast(s: MemberScan, ns: seq<Node>)
    requires forall n <- ns :: FieldShaped(n)
    requires ns != [] && ns[|ns| - 1].kind.FieldDecl?
    ensures ScanNodes(s, ns).found
            == ScanNodes(s, ns[..|ns| - 1]).found + [FieldFinding(ns[|ns| - 1], LastClassName(ns[..|ns| - 1], s.currentClass))]
    ensures |ScanNodes(s, ns[..|ns| - 1]).found| == |s.found| + |Filter(ns[..|ns| - 1], IsField)|
  {
    var init := ns[..|ns| - 1];
    assert forall n <- init :: n in ns;
    assert ns[|ns| - 1] in ns;
    ScanNodesClassName(s, init);
    ScanNodesCount(s, init);
  }



  lemma {:induction false} ScanNodesFieldsReported(s: MemberScan, ns: seq<Node>)
    requires forall n <- ns :: FieldShaped(n)
    ensures forall j :: 0 <= j < |ns| && ns[j].kind.FieldDecl? ==>
              FieldFinding(ns[j], LastClassName(ns[..j], s.currentClass)) in ScanNodes(s, ns).found
  {
    if ns != [] {
      var init, last := ns[..|ns| - 1], ns[|ns| - 1];
      assert forall n <- init :: n in ns;
      ScanNodesFieldsReported(s, init);
      ScanNodesClassName(s, init);
      var mid := ScanNodes(s, init);
      assert forall j :: 0 <= j < |init| ==> ns[..j] == init[..j] && ns[j] == init[j];
      assert ns[..|ns| - 1] == init;
      assert forall f <- mid.found :: f in ScanNodes(s, ns).found;
    }
  }

  lemma {:induction false} ScanNodesOnlyFields(s: MemberScan, ns: seq<Node>)
    requires forall n <- ns :: FieldShaped(n)
    ensures |ScanNodes(s, ns).found| >= |s.found|
    ensures forall f <- ScanNodes(s, ns).found[|s.found|..] ::
              exists j :: (&& 0 <= j < |ns| && ns[j].kind.FieldDecl?
                           && f == FieldFinding(ns[j], LastClassName(ns[..j], s.currentClass)))
  {
    if ns != [] {
      var init, last := ns[..|ns| - 1], ns[|ns| - 1];
      assert forall n <- init :: n in ns;
      ScanNodesOnlyFields(s, init);
      ScanNodesClassName(s, init);
      var mid := ScanNodes(s, init);
      var out := ScanNodes(s, ns);
      assert ns[..|ns| - 1] == init;
      forall f <- out.found[|s.found|..]
        ensures exists j :: (&& 0 <= j < |ns| && ns[j].kind.FieldDecl?
                             && f == FieldFinding(ns[j], LastClassName(ns[..j], s.currentClass)))
      {
        if f in mid.found[|s.found|..] {
          var j :| && 0 <= j < |init| && init[j].kind.FieldDecl?
                   && f == FieldFinding(init[j], LastClassName(init[..j], s.currentClass));
          assert ns[..j] == init[..j] && ns[j] == init[j];
        } else {
          assert last.kind.FieldDecl? && out.found == mid.found + [FieldFinding(last, mid.currentClass)];
          assert out.found[|s.found|..] == mid.found[|s.found|..] + [FieldFinding(last, mid.currentClass)];
          assert f == FieldFinding(last, LastClassName(ns[..|ns| - 1], s.currentClass));
        }
      }
    }
  }

  /** The anonymous visitor of lines 530-543. */
  class MemberVariableVisitor {
    var currentClass: string
    var variables: seq<ClassMember>

    constructor ()
      ensures currentClass == "" && variables == []
    {
      currentClass := "";
      variables := [];
    }

    function State(): MemberScan
      reads this
    {
      MemberScan(variables, currentClass)
    }

    /** Visits `n` and everything below it, parents before children: a class
        declaration sets the class name (533-536), a field declaration is recorded
        (539-542), and every node's children are visited in turn. */
    method Visit(n: Node)
      requires forall m <- PreOrder(n) :: FieldShaped(m)
      modifies this
      ensures State() == ScanNodes(old(State()), PreOrder(n))
      decreases n
    {
      assert n in PreOrder(n);
      match n.kind {
        case ClassOrInterfaceDecl(name) =>
          currentClass := name;
        case FieldDecl =>
          variables := variables + [FieldFinding(n, currentClass)];
        case _ =>
      }
      assert [n][..0] == [];
      ghost var entered := State();
      assert entered == ScanNodes(old(State()), [n]);
      var children := n.children;
      assert forall m <- PreOrderAll(children) :: m in PreOrder(n);
      assert children[..0] == [];
      for i := 0 to |children|
        invariant forall m <- PreOrderAll(children[..i]) :: FieldShaped(m)
        invariant State() == ScanNodes(entered, PreOrderAll(children[..i]))
      {
        var child := children[i];
        assert children[..i + 1] == children[..i] + [child];
        assert children == children[..i + 1] + children[i + 1..];
        PreOrderAllAppend(children[..i + 1], children[i + 1..]);
        assert PreOrderAll(children[..i + 1]) == PreOrderAll(children[..i]) + PreOrder(child);
        Visit(child);
        ScanNodesAppend(entered, PreOrderAll(children[..i]), PreOrder(child));
      }
      assert children[..|children|] == children;
      ScanNodesAppend(old(State()), [n], PreOrderAll(children));
    }
  }

  /** findMemberVariables (527-546): the visitor starts with the empty class name and
      visits the whole file. */
  method FindMemberVariables(cu: Node) returns (variables: seq<ClassMember>)
    requires forall m <- PreOrder(cu) :: FieldShaped(m)
    ensures variables == ScanNodes(MemberScan([], ""), PreOrder(cu)).found
  {
    var visitor := new MemberVariableVisitor();
    visitor.Visit(cu);
    variables := visitor.variables;
  }

  // ---------------------------------------------------------------------------
  // Methods (573-606) and variables (626-655): visitors that record a target
  // declaration and do not descend into it, so a declaration inside another
  // target declaration is never reached.
  // ---------------------------------------------------------------------------

  /** The targets reached by a visitor that stops at each target: `n` itself when it
      is one, otherwise the targets reached below each child in turn. */
  function Outermost(n: Node, ancestors: seq<Node>, isTarget: Node -> bool): (r: seq<Visit>)
    ensures forall v <- r :: isTarget(v.node)
    decreases n, 1
  {
    if isTarget(n) then [Visit(n, ancestors)]
    else OutermostAll(n.children, ancestors + [n], isTarget)
  }

  function OutermostAll(ns: seq<Node>, ancestors: seq<Node>, isTarget: Node -> bool): (r: seq<Visit>)
    ensures forall v <- r :: isTarget(v.node)
    decreases ns, 0
  {
    if ns == [] then []
    else OutermostAll(ns[..|ns| - 1], ancestors, isTarget) + Outermost(ns[|ns| - 1], ancestors, isTarget)
  }

  lemma {:induction false} OutermostAllAppend(a: seq<Node>, b: seq<Node>, ancestors: seq<Node>, isTarget: Node -> bool)
    ensures OutermostAll(a + b, ancestors, isTarget) == OutermostAll(a, ancestors, isTarget) + OutermostAll(b, ancestors, isTarget)
    decreases |b|
  {
    if b == [] {
      assert a + b == a;
    } else {
      var b', x := b[..|b| - 1], b[|b| - 1];
      assert (a + b)[..|a + b| - 1] == a + b';
      assert (a + b)[|a + b| - 1] == x;
      OutermostAllAppend(a, b', ancestors, isTarget);
      var oa, ob', ox := OutermostAll(a, ancestors, isTarget), OutermostAll(b', ancestors, isTarget), Outermost(x, ancestors, isTarget);
      assert OutermostAll(a + b, ancestors, isTarget) == (oa + ob') + ox;
      assert OutermostAll(b, ancestors, isTarget) == ob' + ox;
      AppendAssociative(oa, ob', ox);
    }
  }

  /** No ancestor of `v` from depth `depth` on is a target. */
  predicate Uncovered(v: Visit, depth: nat, isTarget: Node -> bool)
  {
    forall j :: depth <= j < |v.ancestors| ==> !isTarget(v.ancestors[j])
  }

  /** A visit is selected when it is a target none of whose ancestors from depth
      `depth` on is one. */
  predicate IsSelected(v: Visit, depth: nat, isTarget: Node -> bool)
  {
    isTarget(v.node) && Uncovered(v, depth, isTarget)
  }

  function Selected(depth: nat, isTarget: Node -> bool): Visit -> bool
  {
    (v: Visit) => IsSelected(v, depth, isTarget)
  }

  /** Below a target nothing is selected: each visit there has the target as an ancestor. */
  lemma BelowTargetNothingSelected(n: Node, ancestors: seq<Node>, isTarget: Node -> bool)
    requires isTarget(n)
    ensures Filter(WalkAll(n.children, ancestors + [n]), Selected(|ancestors|, isTarget)) == []
  {
    var k := |ancestors|;
    var below := WalkAll(n.children, ancestors + [n]);
    WalkAncestors(n, ancestors);
    forall v <- below ensures !Selected(k, isTarget)(v) {
      assert v.ancestors[k] == n;
    }
    FilterNone(below, Selected(k, isTarget));
  }

  lemma UncoveredShift(v: Visit, depth: nat, isTarget: Node -> bool)
    requires depth < |v.ancestors| && !isTarget(v.ancestors[depth])
    ensures Uncovered(v, depth, isTarget) == Uncovered(v, depth + 1, isTarget)
  {
  }

  /** Below a node that is not a target, being uncovered from its depth or from one
      deeper is the same thing. */
  lemma BelowOtherSelectionShifts(n: Node, ancestors: seq<Node>, isTarget: Node -> bool)
    requires !isTarget(n)
    ensures Filter(WalkAll(n.children, ancestors + [n]), Selected(|ancestors|, isTarget))
         == Filter(WalkAll(n.children, ancestors + [n]), Selected(|ancestors| + 1, isTarget))
  {
    var k := |ancestors|;
    var below := WalkAll(n.children, ancestors + [n]);
    WalkAncestors(n, ancestors);
    forall v <- below ensures Selected(k, isTarget)(v) == Selected(k + 1, isTarget)(v) {
      UncoveredShift(v, k, isTarget);
    }
    FilterCongruent(below, Selected(k, isTarget), Selected(k + 1, isTarget));
  }

  /** The pruned visitor reaches exactly the targets of the full walk that have no
      target among their ancestors below the starting point, in walk order. */
  lemma {:induction false} OutermostIsUncoveredTargets(n: Node, ancestors: seq<Node>, isTarget: Node -> bool)
    ensures Outermost(n, ancestors, isTarget) == Filter(Walk(n, ancestors), Selected(|ancestors|, isTarget))
    decreases n, 1
  {
    var k := |ancestors|;
    var here := Visit(n, ancestors);
    var below := WalkAll(n.children, ancestors + [n]);
    var p := Selected(k, isTarget);
    assert Walk(n, ancestors) == [here] + below;
    FilterAppend([here], below, p);
    assert Filter([here], p) == if isTarget(n) then [here] else [] by {
      assert [here][..0] == [];
      assert p(here) == isTarget(n);
    }
    if isTarget(n) {
      BelowTargetNothingSelected(n, ancestors, isTarget);
    } else {
      assert |ancestors + [n]| == k + 1;
      OutermostAllIsUncoveredTargets(n.children, ancestors + [n], isTarget);
      BelowOtherSelectionShifts(n, ancestors, isTarget);
    }
  }

  lemma {:induction false} OutermostAllIsUncoveredTargets(ns: seq<Node>, ancestors: seq<Node>, isTarget: Node -> bool)
    ensures OutermostAll(ns, ancestors, isTarget) == Filter(WalkAll(ns, ancestors), Selected(|ancestors|, isTarget))
    decreases ns, 0
  {
    if ns != [] {
      OutermostAllIsUncoveredTargets(ns[..|ns| - 1], ancestors, isTarget);
      OutermostIsUncoveredTargets(ns[|ns| - 1], ancestors, isTarget);
      FilterAppend(WalkAll(ns[..|ns| - 1], ancestors), Walk(ns[|ns| - 1], ancestors), Selected(|ancestors|, isTarget));
    }
  }

  /** Every reached declaration has an enclosing type of the kind `owner` looks for
      and a known first line (what the `.get()` calls of lines 599, 602, 650 and 652
      need). */
  predicate Attributable(vs: seq<Visit>, owner: seq<Node> -> Option<string>)
  {
    forall v <- vs :: (v.node.kind.MethodDecl? || v.node.kind.VariableDeclarator?) && owner(v.ancestors).Some? && v.node.begin.Some?
  }

  /** The record of each reached declaration: the enclosing type's name, the
      declaration's name and its first line. */
  function Attributed(vs: seq<Visit>, owner: seq<Node> -> Option<string>): (r: seq<ClassMember>)
    requires Attributable(vs, owner)
  {
    seq(|vs|, i requires 0 <= i < |vs| => ClassMember(owner(vs[i].ancestors).value, vs[i].node.kind.name, vs[i].node.begin.value))
  }

  lemma AttributedAppend(a: seq<Visit>, b: seq<Visit>, owner: seq<Node> -> Option<string>)
    ensures Attributable(a + b, owner) <==> Attributable(a, owner) && Attributable(b, owner)
    ensures Attributable(a + b, owner) ==> Attributed(a + b, owner) == Attributed(a, owner) + Attributed(b, owner)
  {
    assert forall v <- a :: v in a + b;
    assert forall v <- b :: v in a + b;
  }

  /** How the children loop of the pruned visitors splits its work at child `i`. */
  lemma OutermostAllStep(children: seq<Node>, i: nat, path: seq<Node>, isTarget: Node -> bool, owner: seq<Node> -> Option<string>)
    requires i < |children|
    requires Attributable(OutermostAll(children[..i], path, isTarget), owner)
    requires Attributable(OutermostAll(children[i..], path, isTarget), owner)
    ensures Attributable(Outermost(children[i], path, isTarget), owner)
    ensures Attributable(OutermostAll(children[i + 1..], path, isTarget), owner)
    ensures Attributable(OutermostAll(children[..i + 1], path, isTarget), owner)
    ensures Attributed(OutermostAll(children[..i + 1], path, isTarget), owner)
         == Attributed(OutermostAll(children[..i], path, isTarget), owner) + Attributed(Outermost(children[i], path, isTarget), owner)
  {
    var child := children[i];
    assert children[i..] == [child] + children[i + 1..];
    OutermostAllAppend([child], children[i + 1..], path, isTarget);
    assert OutermostAll([child], path, isTarget) == Outermost(child, path, isTarget) by {
      assert [child][..0] == [];
    }
    AttributedAppend(Outermost(child, path, isTarget), OutermostAll(children[i + 1..], path, isTarget), owner);
    assert children[..i + 1][..i] == children[..i];
    AttributedAppend(OutermostAll(children[..i], path, isTarget), Outermost(child, path, isTarget), owner);
  }

  /** MethodVisitor (589-606): records a method declaration with the name of its
      nearest enclosing class or interface and does not visit its body. */
  class MethodVisitor {
    var methodList: seq<ClassMember>

    constructor (methodList: seq<ClassMember>)
      ensures this.methodList == methodList
    {
      this.methodList := methodList;
    }

    method Visit(n: Node, ancestors: seq<Node>)
      requires Attributable(Outermost(n, ancestors, IsMethodDecl), NearestClass)
      modifies this
      ensures methodList == old(methodList) + Attributed(Outermost(n, ancestors, IsMethodDecl), NearestClass)
      decreases n
    {
      if n.kind.MethodDecl? {
        var className := NearestClass(ancestors).value;
        var methodName := n.kind.name;
        var lineNumber := n.begin.value;
        methodList := methodList + [ClassMember(className, methodName, lineNumber)];
      } else {
        var children := n.children;
        var path := ancestors + [n];
        assert children[..0] == [];
        for i := 0 to |children|
          invariant Attributable(OutermostAll(children[..i], path, IsMethodDecl), NearestClass)
          invariant Attributable(OutermostAll(children[i..], path, IsMethodDecl), NearestClass)
          invariant methodList == old(methodList) + Attributed(OutermostAll(children[..i], path, IsMethodDecl), NearestClass)
        {
          OutermostAllStep(children, i, path, IsMethodDecl, NearestClass);
          Visit(children[i], path);
        }
        assert children[..|children|] == children;
      }
    }
  }

  /** findMethods (573-587): every method declaration not nested inside another
      one, in walk order, with its nearest enclosing class or interface. */
  method FindMethods(cu: Node) returns (methodList: seq<ClassMember>)
    requires Attributable(Outermost(cu, [], IsMethodDecl), NearestClass)
    ensures methodList == Attributed(Outermost(cu, [], IsMethodDecl), NearestClass)
  {
    var visitor := new MethodVisitor([]);
    visitor.Visit(cu, []);
    methodList := visitor.methodList;
  }

  /** VariableVisitor (641-655): records a variable declarator with the name of
      its nearest enclosing type declaration and does not visit its initializer. */
  class VariableVisitor {
    var variablesInfo: seq<ClassMember>

    constructor (variablesInfo: seq<ClassMember>)
      ensures this.variablesInfo == variablesInfo
    {
      this.variablesInfo := variablesInfo;
    }

    method Visit(n: Node, ancestors: seq<Node>)
      requires Attributable(Outermost(n, ancestors, IsDeclarator), NearestType)
      modifies this
      ensures variablesInfo == old(variablesInfo) + Attributed(Outermost(n, ancestors, IsDeclarator), NearestType)
      decreases n
    {
      if n.kind.VariableDeclarator? {
        var className := NearestType(ancestors).value;
        var variableName := n.kind.name;
        var lineNumber := n.begin.value;
        variablesInfo := variablesInfo + [ClassMember(className, variableName, lineNumber)];
      } else {
        var children := n.children;
        var path := ancestors + [n];
        assert children[..0] == [];
        for i := 0 to |children|
          invariant Attributable(OutermostAll(children[..i], path, IsDeclarator), NearestType)
          invariant Attributable(OutermostAll(children[i..], path, IsDeclarator), NearestType)
          invariant variablesInfo == old(variablesInfo) + Attributed(OutermostAll(children[..i], path, IsDeclarator), NearestType)
        {
          OutermostAllStep(children, i, path, IsDeclarator, NearestType);
          Visit(children[i], path);
        }
        assert children[..|children|] == children;
      }
    }
  }

  /** findVariables (626-639): every variable declarator not nested inside another
      one, fields and locals alike (lambda parameters are not declarators), in
      walk order, with its nearest enclosing type declaration. */
  method FindVariables(cu: Node) returns (variablesInfo: seq<ClassMember>)
    requires Attributable(Outermost(cu, [], IsDeclarator), NearestType)
    ensures variablesInfo == Attributed(Outermost(cu, [], IsDeclarator), NearestType)
  {
    var visitor := new VariableVisitor([]);
    visitor.Visit(cu, []);
    variablesInfo := visitor.variablesInfo;
  }

  // ---------------------------------------------------------------------------
  // The two ways of naming a field's class, side by side.
  // ---------------------------------------------------------------------------

  function Declarator(name: string, line: Line): Node
  {
    Node(VariableDeclarator("int", name, Some(line)), Some(line), Some(line), [])
  }

  function Field(name: string, line: Line): Node
  {
    Node(FieldDecl, Some(line), Some(line), [Declarator(name, line)])
  }

  /** `class Outer {` / `class Inner {` / `int a;` / `}` / `int b;` / `}` on lines 1-6. */
  function NestedClassFile(): Node
  {
    Node(CompilationUnit, Some(1), Some(6), [OuterClass()])
  }

  function OuterClass(): Node
  {
    Node(ClassOrInterfaceDecl("Outer"), Some(1), Some(6), [InnerClass(), Field("b", 5)])
  }

  function InnerClass(): Node
  {
    Node(ClassOrInterfaceDecl("Inner"), Some(2), Some(4), [Field("a", 3)])
  }

  lemma PreOrderOfOne(n: Node)
    ensures PreOrderAll([n]) == PreOrder(n)
  {
    assert [n][..0] == [];
  }

  lemma PreOrderOfTwo(a: Node, b: Node)
    ensures PreOrderAll([a, b]) == PreOrder(a) + PreOrder(b)
  {
    assert [a, b][..1] == [a];
    PreOrderOfOne(a);
  }

  lemma OutermostOfOne(n: Node, ancestors: seq<Node>, isTarget: Node -> bool)
    ensures OutermostAll([n], ancestors, isTarget) == Outermost(n, ancestors, isTarget)
  {
    assert [n][..0] == [];
  }

  lemma OutermostOfTwo(a: Node, b: Node, ancestors: seq<Node>, isTarget: Node -> bool)
    ensures OutermostAll([a, b], ancestors, isTarget) == Outermost(a, ancestors, isTarget) + Outermost(b, ancestors, isTarget)
  {
    assert [a, b][..1] == [a];
    OutermostOfOne(a, ancestors, isTarget);
  }

  lemma FieldPreOrder(name: string, line: Line)
    ensures PreOrder(Field(name, line)) == [Field(name, line), Declarator(name, line)]
  {
    var d := Declarator(name, line);
    assert PreOrder(d) == [d] by {
      assert d.children == [];
    }
    PreOrderOfOne(d);
  }

  lemma NestedClassPreOrder()
    ensures PreOrder(NestedClassFile())
         == [NestedClassFile(), OuterClass(), InnerClass(), Field("a", 3), Declarator("a", 3), Field("b", 5), Declarator("b", 5)]
  {
    FieldPreOrder("a", 3);
    FieldPreOrder("b", 5);
    PreOrderOfOne(Field("a", 3));
    assert PreOrder(InnerClass()) == [InnerClass(), Field("a", 3), Declarator("a", 3)];
    PreOrderOfTwo(InnerClass(), Field("b", 5));
    assert PreOrder(OuterClass()) == [OuterClass(), InnerClass(), Field("a", 3), Declarator("a", 3), Field("b", 5), Declarator("b", 5)];
    PreOrderOfOne(OuterClass());
  }

  /** After a nested class, findMemberVariables still reports the nested class's
      name for the outer class's later fields. */
  lemma NestedClassMemberVariables()
    ensures forall m <- PreOrder(NestedClassFile()) :: FieldShaped(m)
    ensures ScanNodes(MemberScan([], ""), PreOrder(NestedClassFile())).found
         == [ClassMember("Inner", "a", 3), ClassMember("Inner", "b", 5)]
  {
    NestedClassPreOrder();
    var all := PreOrder(NestedClassFile());
    var s0 := MemberScan([], "");
    assert all[..1][..0] == [];
    assert ScanNodes(s0, all[..1]) == s0;
    assert all[..2][..1] == all[..1];
    assert ScanNodes(s0, all[..2]) == MemberScan([], "Outer");
    assert all[..3][..2] == all[..2];
    assert ScanNodes(s0, all[..3]) == MemberScan([], "Inner");
    assert all[..4][..3] == all[..3];
    assert ScanNodes(s0, all[..4]) == MemberScan([ClassMember("Inner", "a", 3)], "Inner");
    assert all[..5][..4] == all[..4];
    assert ScanNodes(s0, all[..5]) == MemberScan([ClassMember("Inner", "a", 3)], "Inner");
    assert all[..6][..5] == all[..5];
    assert ScanNodes(s0, all[..6]) == MemberScan([ClassMember("Inner", "a", 3), ClassMember("Inner", "b", 5)], "Inner");
    assert all[..6] == all[..|all| - 1];
  }

  lemma NestedClassDeclarators()
    ensures Outermost(NestedClassFile(), [], IsDeclarator)
         == [Visit(Declarator("a", 3), [NestedClassFile(), OuterClass(), InnerClass(), Field("a", 3)]),
             Visit(Declarator("b", 5), [NestedClassFile(), OuterClass(), Field("b", 5)])]
  {
    var fa, fb := Field("a", 3), Field("b", 5);
    var da, db := Declarator("a", 3), Declarator("b", 5);
    var inner, outer, cu := InnerClass(), OuterClass(), NestedClassFile();
    var pa := [cu, outer, inner, fa];
    var pb := [cu, outer, fb];
    assert [cu, outer, inner] + [fa] == pa;
    assert [cu, outer] + [fb] == pb;
    assert [cu, outer] + [inner] == [cu, outer, inner];
    assert [cu] + [outer] == [cu, outer];
    assert [] + [cu] == [cu];
    OutermostOfOne(da, pa, IsDeclarator);
    OutermostOfOne(fa, [cu, outer, inner], IsDeclarator);
    OutermostOfOne(db, pb, IsDeclarator);
    OutermostOfTwo(inner, fb, [cu, outer], IsDeclarator);
    OutermostOfOne(outer, [cu], IsDeclarator);
  }

  /** findVariables names the class that encloses each field. */
  lemma NestedClassVariables()
    ensures Attributable(Outermost(NestedClassFile(), [], IsDeclarator), NearestType)
    ensures Attributed(Outermost(NestedClassFile(), [], IsDeclarator), NearestType)
         == [ClassMember("Inner", "a", 3), ClassMember("Outer", "b", 5)]
  {
    NestedClassDeclarators();
    var pa := [NestedClassFile(), OuterClass(), InnerClass(), Field("a", 3)];
    var pb := [NestedClassFile(), OuterClass(), Field("b", 5)];
    assert NearestType(pa[..3]) == Some("Inner") by {
      assert pa[..3][..2] == [NestedClassFile(), OuterClass()];
    }
    assert NearestType(pb[..2]) == Some("Outer");
  }
}
