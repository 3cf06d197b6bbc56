/** The parsed Java syntax tree that every detector walks, and the two orders in
    which the detectors visit it. The parser itself is not part of this model: a
    detector receives the tree it would have built. */
module JavaSyntax {

  datatype Option<+T> = None | Some(value: T)

  /** A line number as the parser reports it: the first line of a file is 1. */
  type Line = x: int | x >= 1 witness 1

  datatype Modifier =
    | Public | Protected | Private | Static | Final | Abstract
    | Synchronized | Native | Transient | Volatile | Strictfp | Default

  /** A formal parameter of a method declaration, with the position of its first token. */
  datatype Parameter = Parameter(name: string, begin: Option<Line>)

  /** The node kinds the detectors tell apart; every other construct is an `OtherNode`.
      Type strings are the parser's own rendering of the declared type, compared
      literally: no alias or import is resolved. */
  datatype Kind =
    | CompilationUnit
      /** A class or interface declaration (also a local class). */
    | ClassOrInterfaceDecl(name: string)
      /** Any other named type declaration: an enum, a record or an annotation type. */
    | OtherTypeDecl(name: string)
    | MethodDecl(name: string, modifiers: set<Modifier>, returnType: string, params: seq<Parameter>)
      /** A field declaration; its children are its variable declarators, first one first. */
    | FieldDecl
      /** One declared variable; `nameBegin` is the position of its name. */
    | VariableDeclarator(typeName: string, name: string, nameBegin: Option<Line>)
      /** A call; when `hasScope` its first child is the receiver expression.
          `rendering` is the call printed back as source text. */
    | MethodCall(name: string, hasScope: bool, rendering: string)
      /** `new T<...>(...)`: whether T is a class or interface type and, when the
          type carries angle brackets, the type arguments written inside them. */
    | ObjectCreation(classOrInterfaceType: bool, typeArgs: Option<seq<string>>)
      /** Children: the condition, the then-branch and, when present, the else-branch. */
    | IfStmt
    | ReturnStmt
    | StringLiteral(value: string)
    | OtherNode

  /** A node with the first and last line of its source range, when the parser knows them,
      and its children in source order. */
  datatype Node = Node(kind: Kind, begin: Option<Line>, end: Option<Line>, children: seq<Node>)

  /** The receiver of a call, when it has one. */
  function Scope(n: Node): (r: Option<Node>)
    ensures r.Some? ==> n.kind.MethodCall? && r.value in n.children
  {
    if n.kind.MethodCall? && n.kind.hasScope && |n.children| > 0 then Some(n.children[0]) else None
  }

  /** The else-branch of an if statement, when it has one. */
  function ElseBranch(n: Node): (r: Option<Node>)
    ensures r.Some? <==> n.kind.IfStmt? && |n.children| == 3
  {
    if n.kind.IfStmt? && |n.children| == 3 then Some(n.children[2]) else None
  }

  /** The line of a position, or the sentinel -1 when the node has no position. */
  function LineOrSentinel(p: Option<Line>): (r: int)
    ensures r == -1 || r >= 1
    ensures r == -1 <==> p.None?
    ensures p.Some? ==> r == p.value
  {
    match p
    case Some(l) => l
    case None => -1
  }

  /** Every node, each before its children, children in source order: the order in
      which `findAll` returns nodes and in which a visitor that records a node
      before descending into it records them. */
  function PreOrder(n: Node): seq<Node>
  {
    [n] + PreOrderAll(n.children)
  }

  function PreOrderAll(ns: seq<Node>): seq<Node>
  {
    if ns == [] then [] else PreOrderAll(ns[..|ns| - 1]) + PreOrder(ns[|ns| - 1])
  }

  /** Every node, each after its children: the order in which a visitor that
      descends first and records afterwards records them. */
  function PostOrder(n: Node): seq<Node>
  {
    PostOrderAll(n.children) + [n]
  }

  function PostOrderAll(ns: seq<Node>): seq<Node>
  {
    if ns == [] then [] else PostOrderAll(ns[..|ns| - 1]) + PostOrder(ns[|ns| - 1])
  }

  /** A node reached by the walk, with the path of nodes from the root down to its parent. */
  datatype Visit = Visit(node: Node, ancestors: seq<Node>)

  /** The pre-order walk with each node's ancestors: what `getParentNode` and
      `findAncestor` look up. */
  function Walk(n: Node, ancestors: seq<Node>): seq<Visit>
  {
    [Visit(n, ancestors)] + WalkAll(n.children, ancestors + [n])
  }

  function WalkAll(ns: seq<Node>, ancestors: seq<Node>): seq<Visit>
  {
    if ns == [] then [] else WalkAll(ns[..|ns| - 1], ancestors) + Walk(ns[|ns| - 1], ancestors)
  }

  function Parent(v: Visit): Option<Node>
  {
    if v.ancestors == [] then None else Some(v.ancestors[|v.ancestors| - 1])
  }

  /** The name of the closest enclosing class or interface declaration. */
  function NearestClass(ancestors: seq<Node>): Option<string>
  {
    if ancestors == [] then None
    else if ancestors[|ancestors| - 1].kind.ClassOrInterfaceDecl? then Some(ancestors[|ancestors| - 1].kind.name)
    else NearestClass(ancestors[..|ancestors| - 1])
  }

  /** The name of the closest enclosing type declaration of any sort. */
  function NearestType(ancestors: seq<Node>): Option<string>
  {
    if ancestors == [] then None
    else
      var a := ancestors[|ancestors| - 1];
      if a.kind.ClassOrInterfaceDecl? || a.kind.OtherTypeDecl? then Some(a.kind.name)
      else NearestType(ancestors[..|ancestors| - 1])
  }

  predicate IsMethodDecl(n: Node) { n.kind.MethodDecl? }
  predicate IsDeclarator(n: Node) { n.kind.VariableDeclarator? }
  predicate IsMethodCall(n: Node) { n.kind.MethodCall? }
  predicate IsIf(n: Node) { n.kind.IfStmt? }
  predicate IsReturn(n: Node) { n.kind.ReturnStmt? }
  predicate IsStringLiteral(n: Node) { n.kind.StringLiteral? }
  predicate IsField(n: Node) { n.kind.FieldDecl? }

  /** Every node of `ns` has a known first line (what `getBegin().get()` needs). */
  predicate BeginsKnown(ns: seq<Node>)
  {
    forall n <- ns :: n.begin.Some?
  }

  lemma {:induction false} PreOrderAllAppend(a: seq<Node>, b: seq<Node>)
    ensures PreOrderAll(a + b) == PreOrderAll(a) + PreOrderAll(b)
    decreases |b|
  {
    if b == [] {
      assert a + b == a;
    } else {
      assert (a + b)[..|a + b| - 1] == a + b[..|b| - 1];
      PreOrderAllAppend(a, b[..|b| - 1]);
    }
  }

  /** Every visit below `n` carries the path from the root to `n`'s parent, then `n`. */
  lemma {:induction false} WalkAncestors(n: Node, ancestors: seq<Node>)
    ensures forall v <- Walk(n, ancestors) :: |ancestors| <= |v.ancestors| && v.ancestors[..|ancestors|] == ancestors
    ensures forall v <- WalkAll(n.children, ancestors + [n]) ::
              |ancestors| < |v.ancestors| && v.ancestors[..|ancestors|] == ancestors && v.ancestors[|ancestors|] == n
    decreases n, 1
  {
    WalkAllAncestors(n.children, ancestors + [n]);
    forall v <- WalkAll(n.children, ancestors + [n])
      ensures |ancestors| < |v.ancestors| && v.ancestors[..|ancestors|] == ancestors && v.ancestors[|ancestors|] == n
    {
      var k := |ancestors|;
      assert v.ancestors[..k + 1] == ancestors + [n];
      assert v.ancestors[..k] == v.ancestors[..k + 1][..k];
      assert v.ancestors[k] == v.ancestors[..k + 1][k];
    }
  }

  lemma {:induction false} WalkAllAncestors(ns: seq<Node>, ancestors: seq<Node>)
    ensures forall v <- WalkAll(ns, ancestors) :: |ancestors| <= |v.ancestors| && v.ancestors[..|ancestors|] == ancestors
    decreases ns, 0
  {
    if ns != [] {
      WalkAllAncestors(ns[..|ns| - 1], ancestors);
      WalkAncestors(ns[|ns| - 1], ancestors);
    }
  }

  /** A node lies below a list of siblings exactly when it lies below one of them. */
  lemma {:induction false} PreOrderAllMembers(ns: seq<Node>)
    ensures forall x :: x in PreOrderAll(ns) <==> exists c <- ns :: x in PreOrder(c)
  {
    if ns != [] {
      var init, last := ns[..|ns| - 1], ns[|ns| - 1];
      PreOrderAllMembers(init);
      assert forall c <- init :: c in ns;
      assert PreOrderAll(ns) == PreOrderAll(init) + PreOrder(last);
      forall x | x in PreOrderAll(ns)
        ensures exists c <- ns :: x in PreOrder(c)
      {
        if x in PreOrderAll(init) {
          var c :| c in init && x in PreOrder(c);
          assert c in ns;
        } else {
          assert last in ns;
        }
      }
      forall x | exists c <- ns :: x in PreOrder(c)
        ensures x in PreOrderAll(ns)
      {
        var c :| c in ns && x in PreOrder(c);
        if c != last {
          var i :| 0 <= i < |ns| && ns[i] == c;
          assert init[i] == c;
        }
      }
    }
  }

  /** Everything below a node of the tree is itself a node of the tree. */
  lemma {:induction false} PreOrderSubtree(n: Node, m: Node)
    requires m in PreOrder(n)
    ensures forall x <- PreOrder(m) :: x in PreOrder(n)
    decreases n
  {
    if m != n {
      PreOrderAllMembers(n.children);
      var c :| c in n.children && m in PreOrder(c);
      PreOrderSubtree(c, m);
      forall x <- PreOrder(m) ensures x in PreOrder(n) {
        assert x in PreOrder(c);
      }
    } else {
      assert forall x <- PreOrder(m) :: x in PreOrder(n);
    }
  }

  /** The nodes below the first `i + 1` siblings: those below the first `i`, then
      those below the next one, all of them below the whole list. */
  lemma PreOrderAllSplit(ns: seq<Node>, i: nat)
    requires i < |ns|
    ensures PreOrderAll(ns[..i + 1]) == PreOrderAll(ns[..i]) + PreOrder(ns[i])
    ensures forall x <- PreOrderAll(ns[..i + 1]) :: x in PreOrderAll(ns)
  {
    PreOrderAllSnoc(ns, i);
    PreOrderAllPrefix(ns, i + 1);
  }

  lemma PreOrderAllSnoc(ns: seq<Node>, i: nat)
    requires i < |ns|
    ensures PreOrderAll(ns[..i + 1]) == PreOrderAll(ns[..i]) + PreOrder(ns[i])
  {
    var pre := ns[..i + 1];
    assert pre[..|pre| - 1] == ns[..i];
  }

  lemma PreOrderAllPrefix(ns: seq<Node>, i: nat)
    requires i <= |ns|
    ensures forall x <- PreOrderAll(ns[..i]) :: x in PreOrderAll(ns)
  {
    assert ns == ns[..i] + ns[i..];
    PreOrderAllAppend(ns[..i], ns[i..]);
  }
}
