/** Detectors that walk `findAll` results with a `forEach` and append to a list:
    method arguments, return statements, if statements and else branches
    (JavaReviewer.java, lines 410-470). */
module StatementDetectors {
  import opened JavaSyntax
  import opened Sequences
  import opened Findings

  // ---------------------------------------------------------------------------
  // Method arguments (410-424).
  // ---------------------------------------------------------------------------

  /** Every parameter of a method declaration has a known range (what
      `param.getRange().get()` needs). */
  predicate ParamsPositioned(m: Node)
  {
    m.kind.MethodDecl? ==> forall p <- m.kind.params :: p.begin.Some?
  }

  /** The findings for a list of parameters, one each, in declaration order. */
  function ParamFindings(ps: seq<Parameter>): (r: seq<NamedLine>)
    requires forall p <- ps :: p.begin.Some?
  {
    seq(|ps|, i requires 0 <= i < |ps| => NamedLine(ps[i].name, ps[i].begin.value))
  }

  /** The arguments of each method of `ms` in turn, each method's in declaration order. */
  function ArgumentsOf(ms: seq<Node>): seq<NamedLine>
    requires forall m <- ms :: m.kind.MethodDecl? && ParamsPositioned(m)
  {
    if ms == [] then []
    else
      var last := ms[|ms| - 1];
      assert last in ms && ParamsPositioned(last);
      ArgumentsOf(ms[..|ms| - 1]) + ParamFindings(last.kind.params)
  }

  /** getMethodArguments (410-424): for each method declaration in `findAll` order,
      each of its parameters with its name and first line. */
  method GetMethodArguments(cu: Node) returns (arguments: seq<NamedLine>)
    requires forall m <- PreOrder(cu) :: ParamsPositioned(m)
    ensures arguments == ArgumentsOf(Filter(PreOrder(cu), IsMethodDecl))
  {
    var methods := Filter(PreOrder(cu), IsMethodDecl);
    assert forall m <- methods :: m.kind.MethodDecl? && ParamsPositioned(m);
    arguments := [];
    for i := 0 to |methods|
      invariant arguments == ArgumentsOf(methods[..i])
    {
      assert methods[..i + 1][..i] == methods[..i];
      var method_ := methods[i];
      assert method_ in methods;
      var params := method_.kind.params;
      for j := 0 to |params|
        invariant arguments == ArgumentsOf(methods[..i]) + ParamFindings(params[..j])
      {
        assert ParamFindings(params[..j + 1]) == ParamFindings(params[..j]) + [NamedLine(params[j].name, params[j].begin.value)];
        arguments := arguments + [NamedLine(params[j].name, params[j].begin.value)];
      }
      assert params[..|params|] == params;
    }
    assert methods[..|methods|] == methods;
  }

  /** The findings of one method's parameters are exactly those parameters. */
  lemma ParamFindingsMembers(ps: seq<Parameter>)
    requires forall p <- ps :: p.begin.Some?
    ensures forall p <- ps :: NamedLine(p.name, p.begin.value) in ParamFindings(ps)
    ensures forall a <- ParamFindings(ps) :: exists p <- ps :: p.begin.Some? && a == NamedLine(p.name, p.begin.value)
  {
    var own := ParamFindings(ps);
    forall p <- ps ensures NamedLine(p.name, p.begin.value) in own {
      var i :| 0 <= i < |ps| && ps[i] == p;
      assert own[i] == NamedLine(p.name, p.begin.value);
    }
    forall a <- own ensures exists p <- ps :: p.begin.Some? && a == NamedLine(p.name, p.begin.value) {
      var i :| 0 <= i < |own| && own[i] == a;
      assert ps[i] in ps;
    }
  }

  /** The list holds one finding per parameter. */
  lemma {:induction false} ArgumentsOfCount(ms: seq<Node>)
    requires forall m <- ms :: m.kind.MethodDecl? && ParamsPositioned(m)
    ensures |ArgumentsOf(ms)| == ParamCount(ms)
  {
    if ms != [] {
      var init := ms[..|ms| - 1];
      assert forall m <- init :: m in ms;
      ArgumentsOfCount(init);
    }
  }

  /** Every parameter of every method is reported, with its own name and line. */
  lemma {:induction false} ArgumentsOfComplete(ms: seq<Node>)
    requires forall m <- ms :: m.kind.MethodDecl? && ParamsPositioned(m)
    ensures forall m <- ms, p <- m.kind.params :: p.begin.Some? && NamedLine(p.name, p.begin.value) in ArgumentsOf(ms)
  {
    if ms != [] {
      var init, last := ms[..|ms| - 1], ms[|ms| - 1];
      assert forall m <- init :: m in ms;
      ArgumentsOfComplete(init);
      assert last in ms;
      ParamFindingsMembers(last.kind.params);
      assert ms == init + [last];
    }
  }

  /** Every finding is a parameter of one of the methods. */
  lemma {:induction false} ArgumentsOfSound(ms: seq<Node>)
    requires forall m <- ms :: m.kind.MethodDecl? && ParamsPositioned(m)
    ensures forall a <- ArgumentsOf(ms) :: exists m <- ms, p <- m.kind.params :: p.begin.Some? && a == NamedLine(p.name, p.begin.value)
  {
    if ms != [] {
      var init, last := ms[..|ms| - 1], ms[|ms| - 1];
      assert forall m <- init :: m in ms;
      ArgumentsOfSound(init);
      assert last in ms;
      ParamFindingsMembers(last.kind.params);
    }
  }

  /** A parameter is reported exactly when it belongs to one of the methods, with
      its own name and line, and the list holds one finding per parameter. */
  lemma ArgumentsOfExact(ms: seq<Node>)
    requires forall m <- ms :: m.kind.MethodDecl? && ParamsPositioned(m)
    ensures |ArgumentsOf(ms)| == ParamCount(ms)
    ensures forall m <- ms, p <- m.kind.params :: p.begin.Some? && NamedLine(p.name, p.begin.value) in ArgumentsOf(ms)
    ensures forall a <- ArgumentsOf(ms) :: exists m <- ms, p <- m.kind.params :: p.begin.Some? && a == NamedLine(p.name, p.begin.value)
  {
    ArgumentsOfCount(ms);
    ArgumentsOfComplete(ms);
    ArgumentsOfSound(ms);
  }

  /** The number of parameters of all methods of `ms`. */
  function ParamCount(ms: seq<Node>): nat
    requires forall m <- ms :: m.kind.MethodDecl?
  {
    if ms == [] then 0 else ParamCount(ms[..|ms| - 1]) + |ms[|ms| - 1].kind.params|
  }

  // ---------------------------------------------------------------------------
  // Return, if and else lines (426-470).
  // ---------------------------------------------------------------------------

  /** The first line of each node of `ns`, in order. */
  function BeginLines(ns: seq<Node>): (r: seq<Line>)
    requires BeginsKnown(ns)
  {
    seq(|ns|, i requires 0 <= i < |ns| => ns[i].begin.value)
  }

  /** The loop of a `forEach` that appends each node's first line. */
  method CollectBeginLines(ns: seq<Node>) returns (lineNumbers: seq<int>)
    requires BeginsKnown(ns)
    ensures |lineNumbers| == |ns|
    ensures forall i :: 0 <= i < |ns| ==> lineNumbers[i] == ns[i].begin.value
  {
    lineNumbers := [];
    for i := 0 to |ns|
      invariant |lineNumbers| == i
      invariant forall k :: 0 <= k < i ==> lineNumbers[k] == ns[k].begin.value
    {
      lineNumbers := lineNumbers + [ns[i].begin.value];
    }
  }

  /** getReturnStatementLineNumbers (426-439): the first line of every return
      statement, in `findAll` order. */
  method GetReturnStatementLineNumbers(cu: Node) returns (lineNumbers: seq<int>)
    requires BeginsKnown(Filter(PreOrder(cu), IsReturn))
    ensures lineNumbers == BeginLines(Filter(PreOrder(cu), IsReturn))
  {
    lineNumbers := CollectBeginLines(Filter(PreOrder(cu), IsReturn));
  }

  /** getIfStatementLineNumbers (441-455): the first line of every if statement,
      in `findAll` order; an `else if` counts as an if statement of its own. */
  method GetIfStatementLineNumbers(cu: Node) returns (lineNumbers: seq<int>)
    requires BeginsKnown(Filter(PreOrder(cu), IsIf))
    ensures lineNumbers == BeginLines(Filter(PreOrder(cu), IsIf))
  {
    lineNumbers := CollectBeginLines(Filter(PreOrder(cu), IsIf));
  }

  /** The statement is an if statement with an else branch. */
  predicate HasElse(n: Node)
  {
    ElseBranch(n).Some?
  }

  /** The else branch of every if statement that has one has a known range
      (what `getRange().get()` on line 464 needs). */
  predicate ElseBranchesPositioned(ns: seq<Node>)
  {
    forall n <- ns :: HasElse(n) ==> ElseBranch(n).value.begin.Some?
  }

  lemma PrefixPositioned(ifs: seq<Node>, i: nat)
    requires ElseBranchesPositioned(ifs) && i <= |ifs|
    ensures ElseBranchesPositioned(ifs[..i])
  {
    assert forall n <- ifs[..i] :: n in ifs;
  }

  /** The first line of the else branch of each if statement of `ifs` that has one. */
  function ElseLines(ifs: seq<Node>): (r: seq<Line>)
    requires ElseBranchesPositioned(ifs)
    ensures |r| == |Filter(ifs, HasElse)|
    ensures forall i :: 0 <= i < |r| ==> r[i] == ElseBranch(Filter(ifs, HasElse)[i]).value.begin.value
  {
    if ifs == [] then []
    else
      var last := ifs[|ifs| - 1];
      ElseLines(ifs[..|ifs| - 1]) + (if HasElse(last) then [ElseBranch(last).value.begin.value] else [])
  }

  /** getElseStatementLineNumbers (457-470): for each if statement in `findAll`
      order that has an else branch, the first line of that branch (not of the
      `else` keyword). */
  method GetElseStatementLineNumbers(cu: Node) returns (lineNumbers: seq<int>)
    requires ElseBranchesPositioned(PreOrder(cu))
    ensures lineNumbers == ElseLines(Filter(PreOrder(cu), IsIf))
  {
    var ifs := Filter(PreOrder(cu), IsIf);
    assert ElseBranchesPositioned(ifs);
    lineNumbers := [];
    for i := 0 to |ifs|
      invariant lineNumbers == ElseLines(ifs[..i])
    {
      PrefixPositioned(ifs, i + 1);
      assert ifs[..i + 1][..i] == ifs[..i];
      var ifStmt := ifs[i];
      if ElseBranch(ifStmt).Some? {
        lineNumbers := lineNumbers + [ElseBranch(ifStmt).value.begin.value];
      }
    }
    assert ifs[..|ifs|] == ifs;
  }

  /** Every else line belongs to an if statement of the file that has an else
      branch, so there are never more else lines than if lines. */
  lemma ElseLinesWithinIfs(cu: Node)
    requires BeginsKnown(Filter(PreOrder(cu), IsIf))
    requires ElseBranchesPositioned(PreOrder(cu))
    ensures |ElseLines(Filter(PreOrder(cu), IsIf))| <= |BeginLines(Filter(PreOrder(cu), IsIf))|
    ensures |ElseLines(Filter(PreOrder(cu), IsIf))| == |Filter(PreOrder(cu), HasElse)|
  {
    FilterFilter(PreOrder(cu), IsIf, HasElse);
  }

  /** When a node never starts before its parent, each else line is never above
      the first line of the if statement it belongs to: the i-th if statement
      of `ifs` that has an else branch. */
  lemma ElseLineNotBeforeIf(ifs: seq<Node>)
    requires BeginsKnown(ifs)
    requires ElseBranchesPositioned(ifs)
    requires ChildrenStartAfterParent(ifs)
    ensures forall i :: 0 <= i < |ElseLines(ifs)| ==> Filter(ifs, HasElse)[i].begin.value <= ElseLines(ifs)[i]
  {
    forall i | 0 <= i < |ElseLines(ifs)|
      ensures Filter(ifs, HasElse)[i].begin.value <= ElseLines(ifs)[i]
    {
      var n := Filter(ifs, HasElse)[i];
      assert n in ifs;
      assert n.children[2] in n.children;
    }
  }

  /** Every child with a known first line starts no earlier than its parent. */
  predicate ChildrenStartAfterParent(ns: seq<Node>)
  {
    forall n <- ns, c <- n.children :: n.begin.Some? && c.begin.Some? ==> n.begin.value <= c.begin.value
  }
}
