# JavaReviewer detectors in Dafny

JavaReviewer is a set of independent pattern detectors for Java source files.
Each syntax-tree detector parses a file with JavaParser, walks the tree, and
returns a list of findings. Every finding carries a line number, and some also
carry a name, a class name or a source rendering. One more detector searches
the plain text of a file line by line.

This project models the decision logic of all eighteen detectors in
`JavaReviewer.java`. The parser is not modelled. Each tree detector receives the
tree the parser would have built: a `Node` with a `Kind`, an optional first and
last line, and its children in source order (`JavaSyntax.dfy`). The text
detector receives the lines of the file.

The detectors walk the tree in three different ways, and the model keeps them
apart:

- **`findAll` and record-then-descend visitors** work in pre-order (`PreOrder`).
  These are diamonds, chained calls, string literals, method calls, member
  variables, arguments, and return/if/else lines.
- **Descend-then-record visitors** work in post-order (`PostOrder`). These are
  boolean, non-void, private and private static methods, and numeric and boolean
  variables.
- **Visitors that do not call `super.visit`** never look inside what they
  report. These are `MethodVisitor` and `VariableVisitor`
  (`ClassDetectors.Outermost`).

Modules:

- `JavaSyntax` is the tree, its two traversal orders, and the walk that carries
  each node's ancestors. The ancestors are what `getParentNode` and
  `findAncestor` look up.
- `Findings` holds the record types the detectors return.
- `Sequences` holds selection (`Filter`), subsequences, and their lemmas.
- `TypeDetectors` covers the type-string and modifier predicates and the
  non-empty diamond rule.
- `CallDetectors` covers the chained-call walk and the string-literal and
  method-call visitors (classes whose visit method records, then descends).
- `StatementDetectors` covers method arguments and return, if and else lines.
- `ClassDetectors` covers member variables (a class with a `currentClass`
  field), methods and variables (classes whose visit methods do not descend into
  what they record).
- `LineSearch` covers `findStringInFile`.

The chained-call detector reports the call whose receiver is itself a call: the
outer call of each pair, with its own lines and rendering
(`JavaReviewer.java:137-140`), not its receiver.

## Model

| member | source | states |
|---|---|---|
| JavaSyntax.Scope | src/main/java/com/mycompany/javareviewer/JavaReviewer.java:135 | a call's receiver, when it has one, is one of the call's own sub-expressions, so following receivers always moves into a smaller tree |
| JavaSyntax.ElseBranch | src/main/java/com/mycompany/javareviewer/JavaReviewer.java:463-464 | an if statement has an else branch exactly when its third child is present |
| JavaSyntax.LineOrSentinel | src/main/java/com/mycompany/javareviewer/JavaReviewer.java:112-113 | a missing position becomes -1, a known one its own line (at least 1); the two cases never overlap |
| TypeDetectors.MethodsWhere | src/main/java/com/mycompany/javareviewer/JavaReviewer.java:200-205 | one finding per selected method declaration, in visit order, with that declaration's name and first line |
| TypeDetectors.BooleanMethods | src/main/java/com/mycompany/javareviewer/JavaReviewer.java:184-206 | the methods whose return type reads `boolean` or `Boolean`, in the visitor's post-order (each node recorded after its children), one name-and-line finding per selected node and nothing else |
| TypeDetectors.NonVoidMethods | src/main/java/com/mycompany/javareviewer/JavaReviewer.java:254-276 | the methods whose return type is not `void`, in the visitor's post-order (each node recorded after its children), one name-and-line finding per selected node and nothing else |
| TypeDetectors.PrivateStaticMethods | src/main/java/com/mycompany/javareviewer/JavaReviewer.java:292-314 | the methods that are both private and static, in the visitor's post-order (each node recorded after its children), one name-and-line finding per selected node and nothing else |
| TypeDetectors.PrivateMethods | src/main/java/com/mycompany/javareviewer/JavaReviewer.java:331-353 | the private methods, in the visitor's post-order (each node recorded after its children), one name-and-line finding per selected node and nothing else |
| TypeDetectors.MethodDetectorsExact | src/main/java/com/mycompany/javareviewer/JavaReviewer.java:200-205 | a method declaration is reported if and only if the detector's predicate holds of it; the list has one entry per such declaration |
| TypeDetectors.MethodsWhereMonotone | src/main/java/com/mycompany/javareviewer/JavaReviewer.java:202 | a stronger predicate reports a subsequence of what a weaker one reports, in the same order |
| TypeDetectors.BooleanMethodsAreNonVoid | src/main/java/com/mycompany/javareviewer/JavaReviewer.java:202 | every boolean-method finding is a non-void-method finding (the test of line 272), and the boolean list is a subsequence of the non-void list |
| TypeDetectors.PrivateStaticMethodsArePrivate | src/main/java/com/mycompany/javareviewer/JavaReviewer.java:310 | every private-static-method finding is a private-method finding (the test of line 349), and the first list is a subsequence of the second |
| TypeDetectors.DeclaratorsWhere | src/main/java/com/mycompany/javareviewer/JavaReviewer.java:236-239 | one finding per selected declarator, in visit order, with its name and the line of its name |
| TypeDetectors.NumericVariables | src/main/java/com/mycompany/javareviewer/JavaReviewer.java:218-242 | the declarators typed `double`, `Double`, `int`, `Integer` or `float`, in the visitor's post-order (each node recorded after its children), one name-and-line finding per selected node and nothing else |
| TypeDetectors.BooleanVariables | src/main/java/com/mycompany/javareviewer/JavaReviewer.java:369-393 | the declarators typed `boolean`, in the visitor's post-order (each node recorded after its children), one name-and-line finding per selected node and nothing else |
| TypeDetectors.NumericAndBooleanVariablesDisjoint | src/main/java/com/mycompany/javareviewer/JavaReviewer.java:236 | no declarator is both numeric and boolean (line 387), so the two lists together are no longer than the file's declarators |
| TypeDetectors.GetNonEmptyDiamondOperators | src/main/java/com/mycompany/javareviewer/JavaReviewer.java:101-119 | the spans of exactly the object creations that pass the rule of lines 108-110, in `findAll` order; no precondition, as a missing position never fails |
| TypeDetectors.NonEmptyDiamondsExact | src/main/java/com/mycompany/javareviewer/JavaReviewer.java:107-116 | a creation is reported if and only if it has a class or interface type, non-empty type arguments (so `new T<>()` never) and a declarator as its direct parent |
| TypeDetectors.NonEmptyDiamondSpansOrdered | src/main/java/com/mycompany/javareviewer/JavaReviewer.java:112-113 | every reported line is -1 or a real line, and with ordered ranges a fully known span never ends before it starts |
| CallDetectors.ScopeChain | src/main/java/com/mycompany/javareviewer/JavaReviewer.java:131-143 | the calls met by following receivers from a call: each is a call, each next one is the previous one's receiver, and the chain stops at the first receiver that is not a call |
| CallDetectors.ChainStepsFollowScopeChain | src/main/java/com/mycompany/javareviewer/JavaReviewer.java:132-143 | from one root the walk reports every call of the receiver chain except the last, each with its own lines and rendering (the outer call of each pair) |
| CallDetectors.GetChainedMethodCalls | src/main/java/com/mycompany/javareviewer/JavaReviewer.java:127-146 | every call of the file is a root in `findAll` order, and the result is the concatenation of the walks from each root; the inner loop ends because each step moves to the receiver |
| CallDetectors.ChainedCallsOrdered | src/main/java/com/mycompany/javareviewer/JavaReviewer.java:138-139 | every reported line is -1 or a real line, and with ordered parser ranges a record with both lines known never ends before it starts |
| CallDetectors.StraightChainNodes | src/main/java/com/mycompany/javareviewer/JavaReviewer.java:131 | every node of a straight chain of k calls is a call, and the chain has k nodes |
| CallDetectors.StraightChainAllCalls | src/main/java/com/mycompany/javareviewer/JavaReviewer.java:131 | `findAll(MethodCallExpr)` on a straight chain of k calls returns the whole chain, k calls |
| CallDetectors.StraightChainSteps | src/main/java/com/mycompany/javareviewer/JavaReviewer.java:132-143 | the walk from the outermost call of a straight chain of k calls reports k-1 findings |
| CallDetectors.StraightChainStepsTotal | src/main/java/com/mycompany/javareviewer/JavaReviewer.java:131-143 | over all roots of a straight chain of k calls, the walks report 0 + 1 + ... + (k-1) findings |
| CallDetectors.StraightChainCounts | src/main/java/com/mycompany/javareviewer/JavaReviewer.java:131-143 | a straight chain of k calls is selected as k calls by `findAll`, reported as k records by findMethodCalls, and reported as k(k-1)/2 overlapping chained calls, not deduplicated |
| CallDetectors.LiteralsAlongSelects | src/main/java/com/mycompany/javareviewer/JavaReviewer.java:163-169 | what the visitor holds after entering nodes in turn is what it held before plus the record of each string literal among them, in order, with its first line and value |
| CallDetectors.StringLiteralVisitor.constructor | src/main/java/com/mycompany/javareviewer/JavaReviewer.java:163 | the visitor appends to the list it is given |
| CallDetectors.StringLiteralVisitor.Visit | src/main/java/com/mycompany/javareviewer/JavaReviewer.java:165-168 | visiting a subtree records a literal before visiting what is below it, so the list grows by the subtree's literals in pre-order |
| CallDetectors.FindStringLiterals | src/main/java/com/mycompany/javareviewer/JavaReviewer.java:159-172 | the result is one record per string literal of the file, in pre-order, with its first line and its parsed value |
| CallDetectors.StringLiteralsExact | src/main/java/com/mycompany/javareviewer/JavaReviewer.java:166 | a string literal of the file is reported if and only if it occurs in the tree, with its own line and value, one record per literal |
| CallDetectors.CallsAlongSelects | src/main/java/com/mycompany/javareviewer/JavaReviewer.java:504-510 | what the visitor holds after entering nodes in turn is what it held before plus the record of each call among them, in order, with its name and first line |
| CallDetectors.MethodCallVisitor.constructor | src/main/java/com/mycompany/javareviewer/JavaReviewer.java:504 | the visitor appends to the list it is given |
| CallDetectors.MethodCallVisitor.Visit | src/main/java/com/mycompany/javareviewer/JavaReviewer.java:506-509 | visiting a subtree records a call before visiting its receiver and arguments, so the list grows by the subtree's calls in pre-order |
| CallDetectors.FindMethodCalls | src/main/java/com/mycompany/javareviewer/JavaReviewer.java:501-513 | the result is one record per call of the file, in pre-order, with its name and first line |
| CallDetectors.MethodCallsExact | src/main/java/com/mycompany/javareviewer/JavaReviewer.java:507 | a call is reported if and only if it occurs in the tree, with its own name and line, one record per call |
| CallDetectors.ReceiverCallsReported | src/main/java/com/mycompany/javareviewer/JavaReviewer.java:506-508 | when a call's receiver is itself a call, both are reported, unlike the chained-call detector |
| StatementDetectors.GetMethodArguments | src/main/java/com/mycompany/javareviewer/JavaReviewer.java:410-424 | the nested loops append, for each method in `findAll` order, each of its parameters in declaration order |
| StatementDetectors.ArgumentsOfCount | src/main/java/com/mycompany/javareviewer/JavaReviewer.java:415-419 | the list has one entry per parameter of the methods |
| StatementDetectors.ArgumentsOfComplete | src/main/java/com/mycompany/javareviewer/JavaReviewer.java:415-419 | every parameter of every method is reported with its own name and line |
| StatementDetectors.ArgumentsOfSound | src/main/java/com/mycompany/javareviewer/JavaReviewer.java:415-419 | every entry is a parameter of one of the methods, with that parameter's name and line |
| StatementDetectors.ArgumentsOfExact | src/main/java/com/mycompany/javareviewer/JavaReviewer.java:415-419 | a parameter is reported if and only if it belongs to a method of the file, and the list has one entry per parameter |
| StatementDetectors.CollectBeginLines | src/main/java/com/mycompany/javareviewer/JavaReviewer.java:431-433 | the `forEach` loop appends each node's first line, one per node, in order |
| StatementDetectors.GetReturnStatementLineNumbers | src/main/java/com/mycompany/javareviewer/JavaReviewer.java:426-439 | the first line of every return statement, in `findAll` order |
| StatementDetectors.GetIfStatementLineNumbers | src/main/java/com/mycompany/javareviewer/JavaReviewer.java:441-455 | the first line of every if statement, in `findAll` order; an `else if` is an if statement of its own |
| StatementDetectors.ElseLines | src/main/java/com/mycompany/javareviewer/JavaReviewer.java:462-466 | one entry per if statement that has an else branch, in order: the first line of that branch |
| StatementDetectors.GetElseStatementLineNumbers | src/main/java/com/mycompany/javareviewer/JavaReviewer.java:457-470 | the loop over the if statements appends an else line exactly when the else branch is present |
| StatementDetectors.ElseLinesWithinIfs | src/main/java/com/mycompany/javareviewer/JavaReviewer.java:447-466 | there are exactly as many else lines as if statements with an else branch, hence never more else lines than if lines |
| StatementDetectors.ElseLineNotBeforeIf | src/main/java/com/mycompany/javareviewer/JavaReviewer.java:462-466 | for any list of if statements whose children never start before their parent, every else line is not above the first line of the if statement it belongs to |
| ClassDetectors.LastClassNameIsLast | src/main/java/com/mycompany/javareviewer/JavaReviewer.java:530-535 | the class name held after a run of nodes is the name of the last class declaration among them, or the initial name when there is none |
| ClassDetectors.ScanNodesClassName | src/main/java/com/mycompany/javareviewer/JavaReviewer.java:530-535 | the scan's class name afterwards is the last class declaration entered, so leaving a class never restores the outer name |
| ClassDetectors.ScanNodesCount | src/main/java/com/mycompany/javareviewer/JavaReviewer.java:537-542 | the scan only appends: it keeps what was found before and adds one finding per field declaration |
| ClassDetectors.ScanNodesReportsFields | src/main/java/com/mycompany/javareviewer/JavaReviewer.java:531-542 | each field is reported once, in order, under the last class name entered before it (even after that class is left); nothing else is reported, and the class name held afterwards is the last one entered |
| ClassDetectors.ScanNodesFieldsAt | src/main/java/com/mycompany/javareviewer/JavaReviewer.java:537-542 | the j-th node, when a field, is reported at its own place: after the earlier findings and one finding per earlier field, under the class name last entered before it |
| ClassDetectors.MemberVariableVisitor.constructor | src/main/java/com/mycompany/javareviewer/JavaReviewer.java:530-531 | the visitor starts with the empty class name and no findings |
| ClassDetectors.MemberVariableVisitor.Visit | src/main/java/com/mycompany/javareviewer/JavaReviewer.java:532-542 | visiting a subtree sets the class name at each class declaration, appends one finding at each field declaration, and leaves the state the scan over that subtree in pre-order describes |
| ClassDetectors.FindMemberVariables | src/main/java/com/mycompany/javareviewer/JavaReviewer.java:527-546 | the findings of a fresh visitor run over the whole file |
| ClassDetectors.NestedClassMemberVariables | src/main/java/com/mycompany/javareviewer/JavaReviewer.java:533-540 | for `class Outer { class Inner { int a; } int b; }` the outer field `b` is reported under `Inner` |
| ClassDetectors.NestedClassVariables | src/main/java/com/mycompany/javareviewer/JavaReviewer.java:649-653 | for the same file findVariables reports `b` under `Outer`, the type that encloses it |
| ClassDetectors.Outermost | src/main/java/com/mycompany/javareviewer/JavaReviewer.java:596-605 | the pruned visitor reaches only targets: a target itself, or the targets below each child of a non-target |
| ClassDetectors.OutermostIsUncoveredTargets | src/main/java/com/mycompany/javareviewer/JavaReviewer.java:596-605 | the pruned visitor reports exactly the targets of the full walk that have no target among their ancestors, in walk order: a method inside another method (say, in a local class) is never reported |
| ClassDetectors.MethodVisitor.constructor | src/main/java/com/mycompany/javareviewer/JavaReviewer.java:592-594 | the visitor appends to the list it is given |
| ClassDetectors.MethodVisitor.Visit | src/main/java/com/mycompany/javareviewer/JavaReviewer.java:596-605 | appends one record per outermost method declaration of the subtree, with the nearest enclosing class or interface, the method's name and its first line |
| ClassDetectors.FindMethods | src/main/java/com/mycompany/javareviewer/JavaReviewer.java:573-587 | the records of the outermost method declarations of the file, in walk order |
| ClassDetectors.VariableVisitor.constructor | src/main/java/com/mycompany/javareviewer/JavaReviewer.java:644-646 | the visitor appends to the list it is given |
| ClassDetectors.VariableVisitor.Visit | src/main/java/com/mycompany/javareviewer/JavaReviewer.java:648-654 | appends one record per outermost variable declarator of the subtree, with the nearest enclosing type declaration, the variable's name and the declarator's first line |
| ClassDetectors.FindVariables | src/main/java/com/mycompany/javareviewer/JavaReviewer.java:626-639 | the records of the outermost variable declarators of the file (fields and locals alike), in walk order |
| LineSearch.FindStringInFile | src/main/java/com/mycompany/javareviewer/JavaReviewer.java:474-488 | a number is in the result if and only if it is the 1-based number of a line containing the string; the numbers strictly increase, so each matching line appears once however often the string occurs in it |
| LineSearch.ContainsInfix | src/main/java/com/mycompany/javareviewer/JavaReviewer.java:481 | a line that has the string written inside it contains it |
| LineSearch.ShorterLineNeverContains | src/main/java/com/mycompany/javareviewer/JavaReviewer.java:481 | a line shorter than the string never matches |
| LineSearch.EmptyStringMatchesEveryLine | src/main/java/com/mycompany/javareviewer/JavaReviewer.java:481 | the empty string matches every line, as Java's `contains` does |

## Left out

- `getChanges` (lines 60-94) is left out. It opens a git repository with JGit, diffs two commits and only prints.
- Parsing and file access are left out: `parse`, the input streams, `BufferedReader.readLine` and `close`. Tree detectors receive the tree and `FindStringInFile` receives the lines, without their terminators.
- Exceptions are not modelled. This covers the `try`/`catch` blocks that print a stack trace and return the partial list. The `get` calls are preconditions that the value exists: `Optional.get()` on positions, parameter ranges, else-branch ranges and enclosing types, and `NodeList.get(0)` on a field's first declarator (which would throw an index error, not an empty-`Optional` error).
- `findJavaFiles` (659-677) is left out because it enumerates a directory.
- `main` (683-814) is left out because it is a file chooser and console printing.
- The record classes' getters and `toString` are left out: they only render data.
- The unused `isFalse`, `isTrue` and `ultraman` are left out: they are dead code.
- Printed call text is opaque. `MethodCall.rendering` is a string the tree supplies, and `StringLiteral.value` is the literal's parsed value.
- Type strings are compared as the parser prints them. No import or alias is resolved.
- The order in which JavaParser's visitor visits a node's children (annotations, modifiers, type, arguments, scope) is not modelled. One child order serves both `findAll` and the visitors.
- Parameters are data of their method declaration, not child nodes. A detector that descends into parameters sees nothing inside them.
- Line numbers are unbounded integers. Java's `int` counter in `findStringInFile` would wrap after 2^31 - 1 lines, and the model does not capture that.
- The boolean and numeric variable detectors read the line of `getNameAsExpression()`. The model takes that position from the declarator as `nameBegin`, because how JavaParser assigns a range to that fresh expression is not visible here. The `nameBegin.Some?` precondition of `NumericVariables` and `BooleanVariables` hides a likely failure: if that fresh `NameExpr` has no range, `getBegin().get()` on lines 238 and 389 throws at the first matching declarator, the `catch` returns an empty list, and the non-empty results proved here would not appear. JavaParser is not part of this model, so this remains unconfirmed.
- Aliasing of the result list is not modelled. The three visitor classes add to a `seq` field. JavaParser's visitors add to a `java.util.List` that the caller also holds, and that aliasing is not modelled: each find method reads the field back after the visit.
