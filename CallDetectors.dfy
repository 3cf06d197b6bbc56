/** Detectors over call and literal expressions: chained calls, string literals
    and method calls (JavaReviewer.java, lines 121-172 and 491-513). */
module CallDetectors {
  import opened JavaSyntax
  import opened Sequences
  import opened Findings

  // ---------------------------------------------------------------------------
  // Chained calls (121-146).
  // ---------------------------------------------------------------------------

  /** The record of line 137-141: the lines and the rendering of `m`, the call
      whose receiver is itself a call. */
  function ChainedOf(m: Node): ChainedCall
    requires m.kind.MethodCall?
  {
    ChainedCall(LineOrSentinel(m.begin), LineOrSentinel(m.end), m.kind.rendering)
  }

  /** The calls met when following receivers from `n`: `n` itself if it is a call,
      then its receiver if that is a call, and so on. */
  function ScopeChain(n: Node): (r: seq<Node>)
    ensures n.kind.MethodCall? <==> r != []
    ensures r != [] ==> r[0] == n
    ensures forall i :: 0 <= i < |r| ==> r[i].kind.MethodCall?
    ensures forall i :: 0 <= i < |r| - 1 ==> Scope(r[i]) == Some(r[i + 1])
    ensures r != [] ==> Scope(r[|r| - 1]).None? || !Scope(r[|r| - 1]).value.kind.MethodCall?
  {
    if !n.kind.MethodCall? then []
    else if n.kind.hasScope && |n.children| > 0 then [n] + ScopeChain(n.children[0])
    else [n]
  }

  /** What the inner `while` loop of lines 133-143 appends when started at `n`. */
  function ChainSteps(n: Node): seq<ChainedCall>
  {
    if n.kind.MethodCall? && n.kind.hasScope && |n.children| > 0 then
      var scope := n.children[0];
      (if scope.kind.MethodCall? then [ChainedOf(n)] else []) + ChainSteps(scope)
    else []
  }

  function StepsFrom(node: Option<Node>): seq<ChainedCall>
  {
    match node
    case None => []
    case Some(n) => ChainSteps(n)
  }

  /** Started at a call, the walk reports every call of the receiver chain except the
      last one, each with its own lines and rendering: the outer call of each
      call-on-call pair, never the inner one. */
  lemma {:induction false} ChainStepsFollowScopeChain(n: Node)
    requires n.kind.MethodCall?
    ensures |ChainSteps(n)| == |ScopeChain(n)| - 1
    ensures forall i :: 0 <= i < |ChainSteps(n)| ==> ChainSteps(n)[i] == ChainedOf(ScopeChain(n)[i])
  {
    if n.kind.hasScope && |n.children| > 0 && n.children[0].kind.MethodCall? {
      ChainStepsFollowScopeChain(n.children[0]);
    }
  }

  /** The findings of every call root in turn, in `findAll` order. */
  function AllChainSteps(calls: seq<Node>): seq<ChainedCall>
  {
    if calls == [] then [] else AllChainSteps(calls[..|calls| - 1]) + ChainSteps(calls[|calls| - 1])
  }

  lemma {:induction false} AllChainStepsAppend(a: seq<Node>, b: seq<Node>)
    ensures AllChainSteps(a + b) == AllChainSteps(a) + AllChainSteps(b)
    decreases |b|
  {
    if b == [] {
      assert a + b == a;
    } else {
      assert (a + b)[..|a + b| - 1] == a + b[..|b| - 1];
      AllChainStepsAppend(a, b[..|b| - 1]);
    }
  }

  /** getChainedMethodCalls (127-146): every call of the file is a root; from each
      root the receiver chain is walked and every call whose receiver is a call is
      reported. Nothing is deduplicated, and a missing position becomes -1. */
  method GetChainedMethodCalls(cu: Node) returns (chained: seq<ChainedCall>)
    ensures chained == AllChainSteps(Filter(PreOrder(cu), IsMethodCall))
  {
    var calls := Filter(PreOrder(cu), IsMethodCall);
    chained := [];
    for i := 0 to |calls|
      invariant chained == AllChainSteps(calls[..i])
    {
      assert calls[..i + 1] == calls[..i] + [calls[i]];
      var node: Option<Node> := Some(calls[i]);
      while node.Some? && node.value.kind.MethodCall?
        invariant chained + StepsFrom(node) == AllChainSteps(calls[..i + 1])
        decreases if node.Some? && node.value.kind.MethodCall? then 1 + |ChainSteps(node.value)| else 0
      {
        var methodCallExpr := node.value;
        node := Scope(methodCallExpr);
        if node.Some? && node.value.kind.MethodCall? {
          chained := chained + [ChainedOf(methodCallExpr)];
        }
      }
    }
    assert calls[..|calls|] == calls;
  }

  /** A chained-call record whose lines are real lines or the sentinel -1, and
      that never ends before it starts when both lines are known. */
  predicate ChainedLinesOrdered(c: ChainedCall)
  {
    && (c.startLine == -1 || c.startLine >= 1)
    && (c.endLine == -1 || c.endLine >= 1)
    && (c.startLine >= 1 && c.endLine >= 1 ==> c.startLine <= c.endLine)
  }

  /** When the parser's ranges are ordered, every record of a walk is ordered. */
  lemma {:induction false} ChainStepsOrdered(n: Node)
    requires forall m <- PreOrder(n) :: RangesOrdered([m])
    ensures forall c <- ChainSteps(n) :: ChainedLinesOrdered(c)
    decreases n
  {
    if n.kind.MethodCall? && n.kind.hasScope && |n.children| > 0 {
      var scope := n.children[0];
      PreOrderAllMembers(n.children);
      assert scope in PreOrder(scope);
      PreOrderSubtree(n, scope);
      ChainStepsOrdered(scope);
      assert n in PreOrder(n) && n in [n];
    }
  }

  lemma {:induction false} AllChainStepsOrdered(calls: seq<Node>)
    requires forall c <- calls, m <- PreOrder(c) :: RangesOrdered([m])
    ensures forall x <- AllChainSteps(calls) :: ChainedLinesOrdered(x)
  {
    if calls != [] {
      var init, last := calls[..|calls| - 1], calls[|calls| - 1];
      assert forall c <- init :: c in calls;
      assert last in calls;
      AllChainStepsOrdered(init);
      ChainStepsOrdered(last);
    }
  }

  /** Every line getChainedMethodCalls reports is a real line or -1, and when the
      parser's ranges are ordered a record never ends before it starts. */
  lemma ChainedCallsOrdered(cu: Node)
    requires forall m <- PreOrder(cu) :: RangesOrdered([m])
    ensures forall c <- AllChainSteps(Filter(PreOrder(cu), IsMethodCall)) :: ChainedLinesOrdered(c)
  {
    var calls := Filter(PreOrder(cu), IsMethodCall);
    forall c <- calls ensures forall m <- PreOrder(c) :: RangesOrdered([m]) {
      PreOrderSubtree(cu, c);
    }
    AllChainStepsOrdered(calls);
  }

  /** `a().a()...a()` with `k` calls, each the receiver of the next, all on line 1.
      Every call is rendered alike here, since the rendering plays no part in the
      counts. */
  function StraightChain(k: nat): Node
    requires k >= 1
  {
    if k == 1 then Node(MethodCall("a", false, "a()"), Some(1), Some(1), [])
    else Node(MethodCall("a", true, "a()"), Some(1), Some(1), [StraightChain(k - 1)])
  }

  /** Every node of a straight chain is a call, and there are `k` of them. */
  lemma {:induction false} StraightChainNodes(k: nat)
    requires k >= 1
    ensures forall m <- PreOrder(StraightChain(k)) :: IsMethodCall(m) && m.begin == Some(1)
    ensures |PreOrder(StraightChain(k))| == k
  {
    var c := StraightChain(k);
    if k == 1 {
      assert PreOrder(c) == [c] by {
        assert c.children == [];
      }
    } else {
      StraightChainNodes(k - 1);
      StraightChainPreOrder(k);
    }
  }

  /** The call detector's selection keeps the whole chain. */
  lemma StraightChainAllCalls(k: nat)
    requires k >= 1
    ensures Filter(PreOrder(StraightChain(k)), IsMethodCall) == PreOrder(StraightChain(k))
    ensures |PreOrder(StraightChain(k))| == k
  {
    StraightChainNodes(k);
    FilterAll(PreOrder(StraightChain(k)), IsMethodCall);
  }

  /** Run over the calls of a straight chain, the walks report k(k-1)/2 findings. */
  lemma {:induction false} StraightChainStepsTotal(k: nat)
    requires k >= 1
    ensures |AllChainSteps(PreOrder(StraightChain(k)))| == Pairs(k)
  {
    var c := StraightChain(k);
    StraightChainSteps(k);
    if k == 1 {
      assert PreOrder(c) == [c] by {
        assert c.children == [];
      }
      assert [c][..0] == [];
    } else {
      StraightChainStepsTotal(k - 1);
      StraightChainPreOrder(k);
      var inner := PreOrder(StraightChain(k - 1));
      AllChainStepsAppend([c], inner);
      assert AllChainSteps([c]) == ChainSteps(c) by {
        assert [c][..0] == [];
      }
    }
  }

  /** In a straight chain of `k` calls every call is visited as a root, so the call
      detector reports `k` calls and the chained-call detector reports k(k-1)/2
      overlapping findings: k-1 from the outermost root, one fewer from each inner one. */
  lemma StraightChainCounts(k: nat)
    requires k >= 1
    ensures |Filter(PreOrder(StraightChain(k)), IsMethodCall)| == k
    ensures forall m <- PreOrder(StraightChain(k)) :: CallPositioned(m)
    ensures |MethodCalls(StraightChain(k))| == k
    ensures 2 * |AllChainSteps(Filter(PreOrder(StraightChain(k)), IsMethodCall))| == k * (k - 1)
  {
    StraightChainNodes(k);
    StraightChainAllCalls(k);
    StraightChainStepsTotal(k);
    PairsClosedForm(k);
  }

  lemma StraightChainPreOrder(k: nat)
    requires k >= 2
    ensures PreOrder(StraightChain(k)) == [StraightChain(k)] + PreOrder(StraightChain(k - 1))
  {
    var inner := StraightChain(k - 1);
    assert StraightChain(k).children == [inner];
    assert PreOrderAll([inner]) == PreOrder(inner) by {
      assert [inner][..0] == [];
    }
  }

  lemma {:induction false} StraightChainSteps(k: nat)
    requires k >= 1
    ensures |ChainSteps(StraightChain(k))| == k - 1
  {
    if k > 1 {
      StraightChainSteps(k - 1);
    }
  }

  /** 0 + 1 + ... + (k - 1): the number of pairs among `k` calls. */
  function Pairs(k: nat): nat
  {
    if k == 0 then 0 else (k - 1) + Pairs(k - 1)
  }

  lemma {:induction false} PairsClosedForm(k: nat)
    ensures 2 * Pairs(k) == k * (k - 1)
  {
    if k > 0 {
      PairsClosedForm(k - 1);
      assert k * (k - 1) == (k - 1) * (k - 2) + 2 * (k - 1);
    }
  }

  // ---------------------------------------------------------------------------
  // String literals (149-172) and method calls (491-513): anonymous visitors that
  // record a node and then descend into it, so they record in pre-order.
  // ---------------------------------------------------------------------------

  /** A string literal has a known first line (what `getBegin().get()` on line 166 needs). */
  predicate LiteralPositioned(n: Node)
  {
    n.kind.StringLiteral? ==> n.begin.Some?
  }

  /** The record of line 166: the literal's first line and its value as parsed. */
  function LiteralOf(n: Node): seq<LiteralAt>
    requires LiteralPositioned(n)
  {
    if n.kind.StringLiteral? then [LiteralAt(n.begin.value, n.kind.value)] else []
  }

  /** The list held after entering each node of `ns` in turn, starting from `acc`. */
  function LiteralsAlong(acc: seq<LiteralAt>, ns: seq<Node>): seq<LiteralAt>
    requires forall n <- ns :: LiteralPositioned(n)
  {
    if ns == [] then acc else LiteralsAlong(acc, ns[..|ns| - 1]) + LiteralOf(ns[|ns| - 1])
  }

  lemma {:induction false} LiteralsAlongAppend(acc: seq<LiteralAt>, a: seq<Node>, b: seq<Node>)
    requires forall n <- a + b :: LiteralPositioned(n)
    ensures LiteralsAlong(acc, a + b) == LiteralsAlong(LiteralsAlong(acc, a), b)
    decreases |b|
  {
    if b == [] {
      assert a + b == a;
    } else {
      assert (a + b)[..|a + b| - 1] == a + b[..|b| - 1];
      LiteralsAlongAppend(acc, a, b[..|b| - 1]);
    }
  }

  /** Entering `n` records its own finding, then those of the nodes below it. */
  lemma LiteralsAlongOfNode(acc: seq<LiteralAt>, n: Node)
    requires forall m <- PreOrder(n) :: LiteralPositioned(m)
    ensures LiteralPositioned(n) && forall m <- PreOrderAll(n.children) :: LiteralPositioned(m)
    ensures LiteralsAlong(acc, PreOrder(n)) == LiteralsAlong(acc + LiteralOf(n), PreOrderAll(n.children))
  {
    assert n in PreOrder(n);
    assert [n][..0] == [];
    LiteralsAlongAppend(acc, [n], PreOrderAll(n.children));
  }

  /** Visiting the children one at a time records the findings below each in turn. */
  lemma LiteralsAlongOfChildrenStep(acc: seq<LiteralAt>, children: seq<Node>, i: nat)
    requires i < |children|
    requires forall m <- PreOrderAll(children) :: LiteralPositioned(m)
    ensures forall m <- PreOrder(children[i]) :: LiteralPositioned(m)
    ensures forall m <- PreOrderAll(children[..i + 1]) :: LiteralPositioned(m)
    ensures forall m <- PreOrderAll(children[..i]) :: LiteralPositioned(m)
    ensures LiteralsAlong(acc, PreOrderAll(children[..i + 1]))
            == LiteralsAlong(LiteralsAlong(acc, PreOrderAll(children[..i])), PreOrder(children[i]))
  {
    PreOrderAllSplit(children, i);
    LiteralsAlongAppend(acc, PreOrderAll(children[..i]), PreOrder(children[i]));
  }

  /** The reference: the record of each string literal of `ns`, in order. */
  function LiteralsIn(ns: seq<Node>): seq<LiteralAt>
    requires forall n <- ns :: n.kind.StringLiteral? && n.begin.Some?
  {
    seq(|ns|, i requires 0 <= i < |ns| => LiteralAt(ns[i].begin.value, ns[i].kind.value))
  }

  /** The visitor appends the record of each selected node, in order. */
  lemma {:induction false} LiteralsAlongSelects(acc: seq<LiteralAt>, ns: seq<Node>)
    requires forall n <- ns :: LiteralPositioned(n)
    ensures forall n <- Filter(ns, IsStringLiteral) :: n.kind.StringLiteral? && n.begin.Some?
    ensures LiteralsAlong(acc, ns) == acc + LiteralsIn(Filter(ns, IsStringLiteral))
  {
    if ns == [] {
      assert acc + [] == acc;
    } else {
      var init, last := ns[..|ns| - 1], ns[|ns| - 1];
      assert forall n <- init :: n in ns;
      assert last in ns;
      LiteralsAlongSelects(acc, init);
      assert ns == init + [last];
      var before := Filter(init, IsStringLiteral);
      if last.kind.StringLiteral? {
        var own := LiteralOf(last);
        assert LiteralsIn(before + [last]) == LiteralsIn(before) + own by {
          assert forall i :: 0 <= i < |before| ==> (before + [last])[i] == before[i];
        }
        assert (acc + LiteralsIn(before)) + own == acc + (LiteralsIn(before) + own);
      } else {
        assert Filter(ns, IsStringLiteral) == before;
      }
    }
  }

  /** What findStringLiterals returns: one record per string literal of the file, in pre-order. */
  function StringLiterals(cu: Node): seq<LiteralAt>
    requires forall m <- PreOrder(cu) :: LiteralPositioned(m)
  {
    LiteralsAlongSelects([], PreOrder(cu));
    LiteralsIn(Filter(PreOrder(cu), IsStringLiteral))
  }

  /** The anonymous visitor of lines 163-169. */
  class StringLiteralVisitor {
    var stringLiterals: seq<LiteralAt>

    constructor (stringLiterals: seq<LiteralAt>)
      ensures this.stringLiterals == stringLiterals
    {
      this.stringLiterals := stringLiterals;
    }

    /** Visits `n` and everything below it: a string literal is recorded (line 166)
        before the nodes below it are visited (line 167). */
    method Visit(n: Node)
      requires forall m <- PreOrder(n) :: LiteralPositioned(m)
      modifies this
      ensures stringLiterals == LiteralsAlong(old(stringLiterals), PreOrder(n))
      decreases n
    {
      LiteralsAlongOfNode(stringLiterals, n);
      if n.kind.StringLiteral? {
        stringLiterals := stringLiterals + [LiteralAt(n.begin.value, n.kind.value)];
      } else {
        assert stringLiterals + LiteralOf(n) == stringLiterals;
      }
      ghost var entered := stringLiterals;
      assert entered == old(stringLiterals) + LiteralOf(n);
      var children := n.children;
      assert children[..0] == [];
      for i := 0 to |children|
        invariant forall m <- PreOrderAll(children[..i]) :: LiteralPositioned(m)
        invariant stringLiterals == LiteralsAlong(entered, PreOrderAll(children[..i]))
      {
        LiteralsAlongOfChildrenStep(entered, children, i);
        Visit(children[i]);
      }
      assert children[..|children|] == children;
    }
  }

  /** findStringLiterals (159-172): a visitor that starts with an empty list visits the
      whole file. */
  method FindStringLiterals(cu: Node) returns (stringLiterals: seq<LiteralAt>)
    requires forall m <- PreOrder(cu) :: LiteralPositioned(m)
    ensures stringLiterals == StringLiterals(cu)
  {
    var visitor := new StringLiteralVisitor([]);
    visitor.Visit(cu);
    stringLiterals := visitor.stringLiterals;
    LiteralsAlongSelects([], PreOrder(cu));
    assert [] + StringLiterals(cu) == StringLiterals(cu);
  }

  /** A literal is reported exactly when it is a string literal of the file, with
      its own first line and value, and there is one record per literal. */
  lemma StringLiteralsExact(cu: Node)
    requires forall m <- PreOrder(cu) :: LiteralPositioned(m)
    ensures |StringLiterals(cu)| == |Filter(PreOrder(cu), IsStringLiteral)|
    ensures forall n <- PreOrder(cu) :: n.kind.StringLiteral? ==>
              n.begin.Some? && LiteralAt(n.begin.value, n.kind.value) in StringLiterals(cu)
    ensures forall l <- StringLiterals(cu) ::
              exists n <- PreOrder(cu) :: n.kind.StringLiteral? && n.begin.Some? && l == LiteralAt(n.begin.value, n.kind.value)
  {
    var ls := Filter(PreOrder(cu), IsStringLiteral);
    var r := StringLiterals(cu);
    forall n <- PreOrder(cu) | n.kind.StringLiteral?
      ensures n.begin.Some? && LiteralAt(n.begin.value, n.kind.value) in r
    {
      var i :| 0 <= i < |ls| && ls[i] == n;
      assert r[i] == LiteralAt(n.begin.value, n.kind.value);
    }
    forall l <- r
      ensures exists n <- PreOrder(cu) :: n.kind.StringLiteral? && n.begin.Some? && l == LiteralAt(n.begin.value, n.kind.value)
    {
      var i :| 0 <= i < |r| && r[i] == l;
      assert ls[i] in ls;
    }
  }

  /** A call has a known first line (what `getBegin().get()` on line 507 needs). */
  predicate CallPositioned(n: Node)
  {
    n.kind.MethodCall? ==> n.begin.Some?
  }

  /** The record of line 507: the call's name and first line. */
  function CallOf(n: Node): seq<NamedLine>
    requires CallPositioned(n)
  {
    if n.kind.MethodCall? then [NamedLine(n.kind.name, n.begin.value)] else []
  }

  /** The list held after entering each node of `ns` in turn, starting from `acc`. */
  function CallsAlong(acc: seq<NamedLine>, ns: seq<Node>): seq<NamedLine>
    requires forall n <- ns :: CallPositioned(n)
  {
    if ns == [] then acc else CallsAlong(acc, ns[..|ns| - 1]) + CallOf(ns[|ns| - 1])
  }

  lemma {:induction false} CallsAlongAppend(acc: seq<NamedLine>, a: seq<Node>, b: seq<Node>)
    requires forall n <- a + b :: CallPositioned(n)
    ensures CallsAlong(acc, a + b) == CallsAlong(CallsAlong(acc, a), b)
    decreases |b|
  {
    if b == [] {
      assert a + b == a;
    } else {
      assert (a + b)[..|a + b| - 1] == a + b[..|b| - 1];
      CallsAlongAppend(acc, a, b[..|b| - 1]);
    }
  }

  /** Entering `n` records its own finding, then those of the nodes below it. */
  lemma CallsAlongOfNode(acc: seq<NamedLine>, n: Node)
    requires forall m <- PreOrder(n) :: CallPositioned(m)
    ensures CallPositioned(n) && forall m <- PreOrderAll(n.children) :: CallPositioned(m)
    ensures CallsAlong(acc, PreOrder(n)) == CallsAlong(acc + CallOf(n), PreOrderAll(n.children))
  {
    assert n in PreOrder(n);
    assert [n][..0] == [];
    CallsAlongAppend(acc, [n], PreOrderAll(n.children));
  }

  /** Visiting the children one at a time records the findings below each in turn. */
  lemma CallsAlongOfChildrenStep(acc: seq<NamedLine>, children: seq<Node>, i: nat)
    requires i < |children|
    requires forall m <- PreOrderAll(children) :: CallPositioned(m)
    ensures forall m <- PreOrder(children[i]) :: CallPositioned(m)
    ensures forall m <- PreOrderAll(children[..i + 1]) :: CallPositioned(m)
    ensures forall m <- PreOrderAll(children[..i]) :: CallPositioned(m)
    ensures CallsAlong(acc, PreOrderAll(children[..i + 1]))
            == CallsAlong(CallsAlong(acc, PreOrderAll(children[..i])), PreOrder(children[i]))
  {
    PreOrderAllSplit(children, i);
    CallsAlongAppend(acc, PreOrderAll(children[..i]), PreOrder(children[i]));
  }

  /** The reference: the record of each call of `ns`, in order. */
  function CallsIn(ns: seq<Node>): seq<NamedLine>
    requires forall n <- ns :: n.kind.MethodCall? && n.begin.Some?
  {
    seq(|ns|, i requires 0 <= i < |ns| => NamedLine(ns[i].kind.name, ns[i].begin.value))
  }

  /** The visitor appends the record of each selected node, in order. */
  lemma {:induction false} CallsAlongSelects(acc: seq<NamedLine>, ns: seq<Node>)
    requires forall n <- ns :: CallPositioned(n)
    ensures forall n <- Filter(ns, IsMethodCall) :: n.kind.MethodCall? && n.begin.Some?
    ensures CallsAlong(acc, ns) == acc + CallsIn(Filter(ns, IsMethodCall))
  {
    if ns == [] {
      assert acc + [] == acc;
    } else {
      var init, last := ns[..|ns| - 1], ns[|ns| - 1];
      assert forall n <- init :: n in ns;
      assert last in ns;
      CallsAlongSelects(acc, init);
      assert ns == init + [last];
      var before := Filter(init, IsMethodCall);
      if last.kind.MethodCall? {
        var own := CallOf(last);
        assert CallsIn(before + [last]) == CallsIn(before) + own by {
          assert forall i :: 0 <= i < |before| ==> (before + [last])[i] == before[i];
        }
        assert (acc + CallsIn(before)) + own == acc + (CallsIn(before) + own);
      } else {
        assert Filter(ns, IsMethodCall) == before;
      }
    }
  }

  /** What findMethodCalls returns: one record per call of the file, in pre-order. */
  function MethodCalls(cu: Node): seq<NamedLine>
    requires forall m <- PreOrder(cu) :: CallPositioned(m)
  {
    CallsAlongSelects([], PreOrder(cu));
    CallsIn(Filter(PreOrder(cu), IsMethodCall))
  }

  /** The anonymous visitor of lines 504-510. */
  class MethodCallVisitor {
    var methodCalls: seq<NamedLine>

    constructor (methodCalls: seq<NamedLine>)
      ensures this.methodCalls == methodCalls
    {
      this.methodCalls := methodCalls;
    }

    /** Visits `n` and everything below it: a call is recorded (line 507)
        before the nodes below it are visited (line 508). */
    method Visit(n: Node)
      requires forall m <- PreOrder(n) :: CallPositioned(m)
      modifies this
      ensures methodCalls == CallsAlong(old(methodCalls), PreOrder(n))
      decreases n
    {
      CallsAlongOfNode(methodCalls, n);
      if n.kind.MethodCall? {
        methodCalls := methodCalls + [NamedLine(n.kind.name, n.begin.value)];
      } else {
        assert methodCalls + CallOf(n) == methodCalls;
      }
      ghost var entered := methodCalls;
      assert entered == old(methodCalls) + CallOf(n);
      var children := n.children;
      assert children[..0] == [];
      for i := 0 to |children|
        invariant forall m <- PreOrderAll(children[..i]) :: CallPositioned(m)
        invariant methodCalls == CallsAlong(entered, PreOrderAll(children[..i]))
      {
        CallsAlongOfChildrenStep(entered, children, i);
        Visit(children[i]);
      }
      assert children[..|children|] == children;
    }
  }

  /** findMethodCalls (501-513): a visitor that starts with an empty list visits the
      whole file. */
  method FindMethodCalls(cu: Node) returns (methodCalls: seq<NamedLine>)
    requires forall m <- PreOrder(cu) :: CallPositioned(m)
    ensures methodCalls == MethodCalls(cu)
  {
    var visitor := new MethodCallVisitor([]);
    visitor.Visit(cu);
    methodCalls := visitor.methodCalls;
    CallsAlongSelects([], PreOrder(cu));
    assert [] + MethodCalls(cu) == MethodCalls(cu);
  }

  /** A call is reported exactly when it is a call of the file, with its own name
      and first line, and there is one record per call. */
  lemma MethodCallsExact(cu: Node)
    requires forall m <- PreOrder(cu) :: CallPositioned(m)
    ensures |MethodCalls(cu)| == |Filter(PreOrder(cu), IsMethodCall)|
    ensures forall n <- PreOrder(cu) :: n.kind.MethodCall? ==>
              n.begin.Some? && NamedLine(n.kind.name, n.begin.value) in MethodCalls(cu)
    ensures forall c <- MethodCalls(cu) ::
              exists n <- PreOrder(cu) :: n.kind.MethodCall? && n.begin.Some? && c == NamedLine(n.kind.name, n.begin.value)
  {
    var cs := Filter(PreOrder(cu), IsMethodCall);
    var r := MethodCalls(cu);
    forall n <- PreOrder(cu) | n.kind.MethodCall?
      ensures n.begin.Some? && NamedLine(n.kind.name, n.begin.value) in r
    {
      var i :| 0 <= i < |cs| && cs[i] == n;
      assert r[i] == NamedLine(n.kind.name, n.begin.value);
    }
    forall c <- r
      ensures exists n <- PreOrder(cu) :: n.kind.MethodCall? && n.begin.Some? && c == NamedLine(n.kind.name, n.begin.value)
    {
      var i :| 0 <= i < |r| && r[i] == c;
      assert cs[i] in cs;
    }
  }

  /** Unlike the chained-call detector, which reports only the outer call of a
      call-on-call pair, this detector reports the receiver call as well. */
  lemma ReceiverCallsReported(cu: Node, c: Node)
    requires forall m <- PreOrder(cu) :: CallPositioned(m)
    requires c in PreOrder(cu) && c.kind.MethodCall?
    requires Scope(c).Some? && Scope(c).value.kind.MethodCall?
    ensures c.begin.Some? && NamedLine(c.kind.name, c.begin.value) in MethodCalls(cu)
    ensures var d := Scope(c).value;
            d.begin.Some? && NamedLine(d.kind.name, d.begin.value) in MethodCalls(cu)
  {
    var d := Scope(c).value;
    PreOrderSubtree(cu, c);
    PreOrderAllMembers(c.children);
    assert d in PreOrder(d);
    assert d in PreOrder(c);
    MethodCallsExact(cu);
  }
}
