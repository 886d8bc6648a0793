/**
  The analyzer that reports comparisons between a value object and an `int` inside
  Entity Framework Core query expressions.
  Source: src/Vogen/Rules/DoNotCompareWithPrimitivesInEfCoreAnalyzer.cs.

  The compiler's syntax tree and semantic model are represented by what the analyzer
  asks of them: the symbol a receiver resolves to, the type each operand of a binary
  expression resolves to (or none), and the binary expressions below each argument
  or where clause, in document order.
 */
module EfCoreComparisonAnalyzer {
  import opened Wrappers

  /** Identity of a type definition, as `SymbolEqualityComparer.Default` tells them apart. */
  type DefinitionId = string

  /**
    A type symbol. `originalDefinition` identifies the unconstructed generic definition
    (`DbSet<Customer>` has `DbSet<T>`'s); `baseType` is null for interfaces and `object`.
    Base-type chains of a compiled program are finite, which the inductive datatype
    makes explicit.
   */
  datatype TypeSymbol = TypeSymbol(
    name: string,
    originalDefinition: DefinitionId,
    isNamedType: bool,     // the symbol is an `INamedTypeSymbol`
    isVoTarget: bool,      // `VoFilter.IsTarget`: the type carries the value-object attribute
    isInt32: bool,         // `SpecialType == SpecialType.System_Int32`
    baseType: Option<TypeSymbol>)

  /** What `GetSymbolInfo` resolves a receiver expression to. */
  datatype Symbol =
    | PropertySymbol(symbolType: TypeSymbol)
    | LocalSymbol(symbolType: TypeSymbol)
    | OtherSymbol(kind: string)   // a field, a parameter, a method (call result), ...

  datatype Location = Location(path: string, start: nat, length: nat)

  /** A `BinaryExpressionSyntax` with the types `GetTypeInfo` gives its two operands. */
  datatype BinaryExpression = BinaryExpression(
    operator: string,
    leftType: Option<TypeSymbol>,
    rightType: Option<TypeSymbol>,
    location: Location)

  /** An argument of a call: whether it is a lambda, and its binary-expression descendants. */
  datatype Argument = Argument(isLambda: bool, binaryDescendants: seq<BinaryExpression>)

  /** The expression being called: `receiver.Name` or anything else. */
  datatype Callee =
    | MemberAccess(memberName: string, receiver: Option<Symbol>)
    | OtherCallee

  datatype Invocation = Invocation(callee: Callee, arguments: seq<Argument>)

  datatype WhereClause = WhereClause(binaryDescendants: seq<BinaryExpression>)

  /** A query expression: the symbol of its from-clause source and its where clauses, at any depth. */
  datatype QueryExpression = QueryExpression(fromSource: Option<Symbol>, whereClauses: seq<WhereClause>)

  /** A reported diagnostic: the value object's type name and the comparison's location. */
  datatype Finding = Finding(valueObjectName: string, location: Location)

  /** `_knownNames`: the query operators whose lambdas are inspected. */
  const KnownNames: set<string> := {"Where", "Single", "SkipWhile", "TakeWhile", "Select"}

  const MessagePrefix: string := "Value object '"
  const MessageSuffix: string := "' is being compared to an int. Compare it with the value object instead."

  /** The diagnostic's message, with its single argument filled in. */
  function Message(f: Finding): string
  {
    MessagePrefix + f.valueObjectName + MessageSuffix
  }

  /** The message names the value object: its argument can be read back out of it. */
  lemma MessageNamesValueObject(f: Finding)
    ensures var m := Message(f);
      && |m| == |MessagePrefix| + |f.valueObjectName| + |MessageSuffix|
      && m[|MessagePrefix|..|m| - |MessageSuffix|] == f.valueObjectName
  {
  }

  /** Findings for different value objects have different messages. */
  lemma MessageInjective(f: Finding, g: Finding)
    requires Message(f) == Message(g)
    ensures f.valueObjectName == g.valueObjectName
  {
    MessageNamesValueObject(f);
    MessageNamesValueObject(g);
  }

  // ---------------------------------------------------------------------------
  // Base-type chains

  /** The types visited by walking `BaseType` from `t`: `t`, its base, its base's base, ... */
  function BaseChain(t: Option<TypeSymbol>): seq<TypeSymbol>
    decreases t
  {
    match t
    case None => []
    case Some(s) => [s] + BaseChain(s.baseType)
  }

  /** Some type on `t`'s base chain has `b` as its original definition. */
  predicate DerivesFrom(t: Option<TypeSymbol>, b: Option<DefinitionId>)
  {
    b.Some? && exists k | 0 <= k < |BaseChain(t)| :: BaseChain(t)[k].originalDefinition == b.value
  }

  /** `InheritsFrom`: walk up the base chain until a match or the end of the chain. */
  method InheritsFrom(t: Option<TypeSymbol>, b: Option<DefinitionId>) returns (r: bool)
    ensures r == DerivesFrom(t, b)
  {
    if b.None? {
      return false;
    }
    var current := t;
    ghost var visited: seq<TypeSymbol> := [];
    while current.Some?
      invariant BaseChain(t) == visited + BaseChain(current)
      invariant forall k :: 0 <= k < |visited| ==> visited[k].originalDefinition != b.value
      decreases current
    {
      if current.value.originalDefinition == b.value {
        assert BaseChain(t)[|visited|] == current.value;
        return true;
      }
      visited := visited + [current.value];
      current := current.value.baseType;
    }
    return false;
  }

  /** One step of the walk: a type derives from `b` iff it is `b` or its base derives from `b`. */
  lemma DerivesFromStep(s: TypeSymbol, b: Option<DefinitionId>)
    ensures DerivesFrom(Some(s), b) <==>
      b.Some? && (s.originalDefinition == b.value || DerivesFrom(s.baseType, b))
  {
    var chain := BaseChain(Some(s));
    assert chain == [s] + BaseChain(s.baseType);
    if b.Some? && s.originalDefinition == b.value {
      assert chain[0].originalDefinition == b.value;
    }
    if b.Some? && DerivesFrom(s.baseType, b) {
      var k :| 0 <= k < |BaseChain(s.baseType)| && BaseChain(s.baseType)[k].originalDefinition == b.value;
      assert chain[k + 1] == BaseChain(s.baseType)[k];
    }
    if DerivesFrom(Some(s), b) && s.originalDefinition != b.value {
      var k :| 0 <= k < |chain| && chain[k].originalDefinition == b.value;
      assert k > 0;
      assert BaseChain(s.baseType)[k - 1] == chain[k];
    }
  }

  /** The chain of a type on `t`'s chain is a tail of `t`'s chain. */
  lemma {:induction false} ChainOfAncestor(t: Option<TypeSymbol>, k: nat)
    requires k < |BaseChain(t)|
    ensures BaseChain(Some(BaseChain(t)[k])) == BaseChain(t)[k..]
    decreases t
  {
    match t
    case Some(s) =>
      if k > 0 {
        ChainOfAncestor(s.baseType, k - 1);
        assert BaseChain(t)[k..] == BaseChain(s.baseType)[k - 1..];
      }
  }

  /** Deriving is transitive along the chain: whatever an ancestor derives from, so does `t`. */
  lemma DerivesThroughAncestor(t: Option<TypeSymbol>, k: nat, b: Option<DefinitionId>)
    requires k < |BaseChain(t)|
    requires DerivesFrom(Some(BaseChain(t)[k]), b)
    ensures DerivesFrom(t, b)
  {
    ChainOfAncestor(t, k);
    var c := BaseChain(Some(BaseChain(t)[k]));
    var j :| 0 <= j < |c| && c[j].originalDefinition == b.value;
    assert BaseChain(t)[k + j] == c[j];
  }

  /** A missing base type, or a missing type, derives from nothing. */
  lemma DerivesFromNothing(t: Option<TypeSymbol>, b: Option<DefinitionId>)
    ensures b.None? ==> !DerivesFrom(t, b)
    ensures t.None? ==> !DerivesFrom(t, b)
  {
  }

  // ---------------------------------------------------------------------------
  // The gates

  /** `IsValueObject`: a named type that carries the value-object attribute. */
  predicate IsValueObject(t: TypeSymbol)
  {
    t.isNamedType && t.isVoTarget
  }

  /** The receiver is a property or a local whose type derives from `DbSet<T>`. */
  predicate ReceiverIsDbSet(receiver: Option<Symbol>, dbSetType: Option<DefinitionId>)
  {
    match receiver
    case Some(PropertySymbol(t)) => DerivesFrom(Some(t), dbSetType)
    case Some(LocalSymbol(t)) => DerivesFrom(Some(t), dbSetType)
    case _ => false
  }

  /** The left operand is a value object and the right operand is an `int`; both resolve. */
  predicate IsFlagged(b: BinaryExpression)
  {
    && b.leftType.Some?
    && b.rightType.Some?
    && IsValueObject(b.leftType.value)
    && b.rightType.value.isInt32
  }

  /** The finding a flagged binary expression produces. */
  function FindingFor(b: BinaryExpression): Finding
    requires b.leftType.Some?
  {
    Finding(b.leftType.value.name, b.location)
  }

  // ---------------------------------------------------------------------------
  // What each entry point reports

  /** The findings of a run of binary expressions, in order, one per flagged expression. */
  function ScanBinaries(bs: seq<BinaryExpression>): seq<Finding>
    decreases |bs|
  {
    if bs == [] then []
    else
      var b := bs[|bs| - 1];
      ScanBinaries(bs[..|bs| - 1]) + (if IsFlagged(b) then [FindingFor(b)] else [])
  }

  /** The findings of the lambda arguments, in order; other arguments contribute nothing. */
  function LambdaFindings(args: seq<Argument>): seq<Finding>
    decreases |args|
  {
    if args == [] then []
    else
      var a := args[|args| - 1];
      LambdaFindings(args[..|args| - 1]) + (if a.isLambda then ScanBinaries(a.binaryDescendants) else [])
  }

  /** The findings of the where clauses, in order. */
  function WhereFindings(ws: seq<WhereClause>): seq<Finding>
    decreases |ws|
  {
    if ws == [] then []
    else WhereFindings(ws[..|ws| - 1]) + ScanBinaries(ws[|ws| - 1].binaryDescendants)
  }

  /** Everything `AnalyzeInvocation` reports for one call. */
  function InvocationFindings(inv: Invocation, dbSetType: Option<DefinitionId>): seq<Finding>
  {
    match inv.callee
    case OtherCallee => []
    case MemberAccess(name, receiver) =>
      if name !in KnownNames then []
      else if !ReceiverIsDbSet(receiver, dbSetType) then []
      else LambdaFindings(inv.arguments)
  }

  /** Everything `AnalyzeQueryExpression` reports for one query expression. */
  function QueryFindings(q: QueryExpression, dbSetType: Option<DefinitionId>): seq<Finding>
  {
    if !ReceiverIsDbSet(q.fromSource, dbSetType) then [] else WhereFindings(q.whereClauses)
  }

  // ---------------------------------------------------------------------------
  // The analyzer's callbacks

  /**
    The part of `SyntaxNodeAnalysisContext` the analyzer uses: the compilation's
    `DbSet`1` type (none when Entity Framework Core is not referenced) and the
    diagnostics reported so far.
   */
  class AnalysisContext {
    const dbSetType: Option<DefinitionId>
    var reported: seq<Finding>

    constructor (dbSetType: Option<DefinitionId>)
      ensures this.dbSetType == dbSetType && reported == []
    {
      this.dbSetType := dbSetType;
      reported := [];
    }

    method ReportDiagnostic(f: Finding)
      modifies this
      ensures reported == old(reported) + [f]
    {
      reported := reported + [f];
    }
  }

  /** `IsAMemberOfDbSet`: does the receiver expression denote a `DbSet<T>`? */
  method IsAMemberOfDbSet(ctx: AnalysisContext, receiver: Option<Symbol>) returns (r: bool)
    ensures r <==> && receiver.Some?
                   && (receiver.value.PropertySymbol? || receiver.value.LocalSymbol?)
                   && DerivesFrom(Some(receiver.value.symbolType), ctx.dbSetType)
    ensures r == ReceiverIsDbSet(receiver, ctx.dbSetType)
  {
    var typeSymbol: Option<TypeSymbol> := None;
    if receiver.Some? && receiver.value.PropertySymbol? {
      typeSymbol := Some(receiver.value.symbolType);
    }
    if receiver.Some? && receiver.value.LocalSymbol? {
      typeSymbol := Some(receiver.value.symbolType);
    }
    if typeSymbol.None? {
      return false;
    }
    if ctx.dbSetType.None? {
      return false;
    }
    r := InheritsFrom(typeSymbol, ctx.dbSetType);
  }

  /** The inner `foreach` of both callbacks: report every flagged binary expression. */
  method ReportFlaggedComparisons(ctx: AnalysisContext, bs: seq<BinaryExpression>)
    modifies ctx
    ensures ctx.reported == old(ctx.reported) + ScanBinaries(bs)
  {
    var j := 0;
    while j < |bs|
      invariant 0 <= j <= |bs|
      invariant ctx.reported == old(ctx.reported) + ScanBinaries(bs[..j])
    {
      var b := bs[j];
      assert bs[..j + 1][..j] == bs[..j];
      var left := b.leftType;
      var right := b.rightType;
      if left.None? || right.None? {
        j := j + 1;
        continue;
      }
      if IsValueObject(left.value) && right.value.isInt32 {
        ctx.ReportDiagnostic(Finding(left.value.name, b.location));
      }
      j := j + 1;
    }
    assert bs[..|bs|] == bs;
  }

  /** `AnalyzeInvocation`: the callback for every invocation expression. */
  method AnalyzeInvocation(ctx: AnalysisContext, inv: Invocation)
    modifies ctx
    ensures ctx.reported == old(ctx.reported) + InvocationFindings(inv, ctx.dbSetType)
  {
    if !inv.callee.MemberAccess? {
      return;
    }
    if inv.callee.memberName !in KnownNames {
      return;
    }
    var isDbSet := IsAMemberOfDbSet(ctx, inv.callee.receiver);
    if !isDbSet {
      return;
    }
    var args := inv.arguments;
    var i := 0;
    while i < |args|
      invariant 0 <= i <= |args|
      invariant ctx.reported == old(ctx.reported) + LambdaFindings(args[..i])
    {
      assert args[..i + 1][..i] == args[..i];
      if args[i].isLambda {
        ReportFlaggedComparisons(ctx, args[i].binaryDescendants);
      }
      i := i + 1;
    }
    assert args[..|args|] == args;
  }

  /** `AnalyzeQueryExpression`: the callback for every query expression. */
  method AnalyzeQueryExpression(ctx: AnalysisContext, q: QueryExpression)
    modifies ctx
    ensures ctx.reported == old(ctx.reported) + QueryFindings(q, ctx.dbSetType)
  {
    var whereClauses := q.whereClauses;
    var isDbSet := IsAMemberOfDbSet(ctx, q.fromSource);
    if !isDbSet {
      return;
    }
    var i := 0;
    while i < |whereClauses|
      invariant 0 <= i <= |whereClauses|
      invariant ctx.reported == old(ctx.reported) + WhereFindings(whereClauses[..i])
    {
      assert whereClauses[..i + 1][..i] == whereClauses[..i];
      assert WhereFindings(whereClauses[..i + 1])
          == WhereFindings(whereClauses[..i]) + ScanBinaries(whereClauses[i].binaryDescendants);
      ReportFlaggedComparisons(ctx, whereClauses[i].binaryDescendants);
      i := i + 1;
    }
    assert whereClauses[..|whereClauses|] == whereClauses;
  }

  // ---------------------------------------------------------------------------
  // Properties of what is reported

  /** Only a member-access call to a known operator on a `DbSet` receiver can report. */
  lemma InvocationGates(inv: Invocation, dbSetType: Option<DefinitionId>)
    ensures inv.callee.OtherCallee? ==> InvocationFindings(inv, dbSetType) == []
    ensures InvocationFindings(inv, dbSetType) != [] ==>
      && inv.callee.MemberAccess?
      && inv.callee.memberName in KnownNames
      && ReceiverIsDbSet(inv.callee.receiver, dbSetType)
  {
  }

  /** Fields, parameters, call results and unresolved receivers never pass the receiver check. */
  lemma ReceiverKinds(receiver: Option<Symbol>, dbSetType: Option<DefinitionId>)
    ensures (receiver.None? || receiver.value.OtherSymbol?) ==> !ReceiverIsDbSet(receiver, dbSetType)
    ensures dbSetType.None? ==> !ReceiverIsDbSet(receiver, dbSetType)
  {
  }

  /** Reporting is compositional: the findings of two runs are the two runs' findings, in order. */
  lemma {:induction false} ScanBinariesAppend(xs: seq<BinaryExpression>, ys: seq<BinaryExpression>)
    ensures ScanBinaries(xs + ys) == ScanBinaries(xs) + ScanBinaries(ys)
    decreases |ys|
  {
    if ys == [] {
      assert xs + ys == xs;
    } else {
      var ys' := ys[..|ys| - 1];
      assert (xs + ys)[..|xs + ys| - 1] == xs + ys';
      ScanBinariesAppend(xs, ys');
    }
  }

  /** Findings are not deduplicated: the same comparison twice is reported twice. */
  lemma RepeatedComparisonsReportedTwice(bs: seq<BinaryExpression>)
    ensures ScanBinaries(bs + bs) == ScanBinaries(bs) + ScanBinaries(bs)
    ensures |ScanBinaries(bs + bs)| == 2 * |ScanBinaries(bs)|
  {
    ScanBinariesAppend(bs, bs);
  }

  /** A finding is reported for exactly the flagged expressions, naming the left type at its location. */
  lemma {:induction false} ScanBinariesExactly(bs: seq<BinaryExpression>, f: Finding)
    ensures f in ScanBinaries(bs) <==>
      exists k :: 0 <= k < |bs| && IsFlagged(bs[k]) && f == FindingFor(bs[k])
    decreases |bs|
  {
    if bs != [] {
      var init := bs[..|bs| - 1];
      ScanBinariesExactly(init, f);
      if exists k :: 0 <= k < |bs| && IsFlagged(bs[k]) && f == FindingFor(bs[k]) {
        var k :| 0 <= k < |bs| && IsFlagged(bs[k]) && f == FindingFor(bs[k]);
        if k < |bs| - 1 {
          assert init[k] == bs[k];
        }
      }
      if f in ScanBinaries(init) {
        var k :| 0 <= k < |init| && IsFlagged(init[k]) && f == FindingFor(init[k]);
        assert bs[k] == init[k];
      }
    }
  }

  /** There are at most as many findings as binary expressions. */
  lemma {:induction false} ScanBinariesBound(bs: seq<BinaryExpression>)
    ensures |ScanBinaries(bs)| <= |bs|
    decreases |bs|
  {
    if bs != [] {
      ScanBinariesBound(bs[..|bs| - 1]);
    }
  }

  /** Argument lists are processed argument by argument. */
  lemma {:induction false} LambdaFindingsAppend(xs: seq<Argument>, ys: seq<Argument>)
    ensures LambdaFindings(xs + ys) == LambdaFindings(xs) + LambdaFindings(ys)
    decreases |ys|
  {
    if ys == [] {
      assert xs + ys == xs;
    } else {
      var ys' := ys[..|ys| - 1];
      assert (xs + ys)[..|xs + ys| - 1] == xs + ys';
      LambdaFindingsAppend(xs, ys');
    }
  }

  /** An argument that is not a lambda contributes nothing, wherever it stands. */
  lemma NonLambdaArgumentIgnored(xs: seq<Argument>, a: Argument, ys: seq<Argument>)
    requires !a.isLambda
    ensures LambdaFindings(xs + [a] + ys) == LambdaFindings(xs + ys)
  {
    LambdaFindingsAppend(xs + [a], ys);
    LambdaFindingsAppend(xs, [a]);
    LambdaFindingsAppend(xs, ys);
    assert LambdaFindings([a]) == LambdaFindings([]) + [];
  }

  /** A finding of a call comes from a flagged comparison inside one of its lambda arguments. */
  lemma {:induction false} LambdaFindingsExactly(args: seq<Argument>, f: Finding)
    ensures f in LambdaFindings(args) <==>
      exists i, k :: 0 <= i < |args| && args[i].isLambda && 0 <= k < |args[i].binaryDescendants|
        && IsFlagged(args[i].binaryDescendants[k]) && f == FindingFor(args[i].binaryDescendants[k])
    decreases |args|
  {
    if args != [] {
      var init := args[..|args| - 1];
      var last := args[|args| - 1];
      LambdaFindingsExactly(init, f);
      ScanBinariesExactly(last.binaryDescendants, f);
      if exists i, k :: 0 <= i < |args| && args[i].isLambda && 0 <= k < |args[i].binaryDescendants|
          && IsFlagged(args[i].binaryDescendants[k]) && f == FindingFor(args[i].binaryDescendants[k]) {
        var i, k :| 0 <= i < |args| && args[i].isLambda && 0 <= k < |args[i].binaryDescendants|
          && IsFlagged(args[i].binaryDescendants[k]) && f == FindingFor(args[i].binaryDescendants[k]);
        if i < |args| - 1 {
          assert init[i] == args[i];
        }
      }
      if f in LambdaFindings(init) {
        var i, k :| 0 <= i < |init| && init[i].isLambda && 0 <= k < |init[i].binaryDescendants|
          && IsFlagged(init[i].binaryDescendants[k]) && f == FindingFor(init[i].binaryDescendants[k]);
        assert args[i] == init[i];
      }
    }
  }

  /** A finding of a query comes from a flagged comparison inside one of its where clauses. */
  lemma {:induction false} WhereFindingsExactly(ws: seq<WhereClause>, f: Finding)
    ensures f in WhereFindings(ws) <==>
      exists i, k :: 0 <= i < |ws| && 0 <= k < |ws[i].binaryDescendants|
        && IsFlagged(ws[i].binaryDescendants[k]) && f == FindingFor(ws[i].binaryDescendants[k])
    decreases |ws|
  {
    if ws != [] {
      var init := ws[..|ws| - 1];
      var last := ws[|ws| - 1];
      WhereFindingsExactly(init, f);
      ScanBinariesExactly(last.binaryDescendants, f);
      if exists i, k :: 0 <= i < |ws| && 0 <= k < |ws[i].binaryDescendants|
          && IsFlagged(ws[i].binaryDescendants[k]) && f == FindingFor(ws[i].binaryDescendants[k]) {
        var i, k :| 0 <= i < |ws| && 0 <= k < |ws[i].binaryDescendants|
          && IsFlagged(ws[i].binaryDescendants[k]) && f == FindingFor(ws[i].binaryDescendants[k]);
        if i < |ws| - 1 {
          assert init[i] == ws[i];
        }
      }
      if f in WhereFindings(init) {
        var i, k :| 0 <= i < |init| && 0 <= k < |init[i].binaryDescendants|
          && IsFlagged(init[i].binaryDescendants[k]) && f == FindingFor(init[i].binaryDescendants[k]);
        assert ws[i] == init[i];
      }
    }
  }

  /** A query reports only when its source is a `DbSet`, and then exactly its flagged where-clause comparisons. */
  lemma QueryFindingsExactly(q: QueryExpression, dbSetType: Option<DefinitionId>, f: Finding)
    ensures f in QueryFindings(q, dbSetType) <==>
      && ReceiverIsDbSet(q.fromSource, dbSetType)
      && exists i, k :: 0 <= i < |q.whereClauses| && 0 <= k < |q.whereClauses[i].binaryDescendants|
           && IsFlagged(q.whereClauses[i].binaryDescendants[k])
           && f == FindingFor(q.whereClauses[i].binaryDescendants[k])
  {
    WhereFindingsExactly(q.whereClauses, f);
  }

  /**
    The rule is asymmetric: an `int` on the left is never flagged, whatever is on the
    right, and the operator plays no part in the decision.
   */
  lemma OperandOrderMatters(b: BinaryExpression, op: string)
    ensures b.leftType.Some? && !IsValueObject(b.leftType.value) ==> !IsFlagged(b)
    ensures IsFlagged(b) == IsFlagged(b.(operator := op))
  {
  }

  /** A comparison whose right operand is another value object (not an `int`) is not flagged. */
  lemma ValueObjectOnBothSidesNotFlagged(b: BinaryExpression)
    requires b.rightType.Some? && !b.rightType.value.isInt32
    ensures ScanBinaries([b]) == []
  {
    assert [b][..0] == [];
  }

  // ---------------------------------------------------------------------------
  // Worked scenarios

  const DbSetDefinition: DefinitionId := "Microsoft.EntityFrameworkCore.DbSet`1"
  const Int32Type: TypeSymbol := TypeSymbol("Int32", "System.Int32", true, false, true, None)
  const CustomerId: TypeSymbol := TypeSymbol("CustomerId", "Shop.CustomerId", true, true, false, None)
  const CustomerDbSet: TypeSymbol := TypeSymbol("DbSet", DbSetDefinition, true, false, false, None)
  const CustomerList: TypeSymbol := TypeSymbol("List", "System.Collections.Generic.List`1", true, false, false, None)
  const Here: Location := Location("Query.cs", 10, 22)

  /** `db.Customers.Where(c => c.Id == 5)`: one finding, naming `CustomerId`. */
  lemma ScenarioValueObjectComparedToInt()
    ensures InvocationFindings(
      Invocation(MemberAccess("Where", Some(PropertySymbol(CustomerDbSet))),
                 [Argument(true, [BinaryExpression("==", Some(CustomerId), Some(Int32Type), Here)])]),
      Some(DbSetDefinition)) == [Finding("CustomerId", Here)]
  {
    var b := BinaryExpression("==", Some(CustomerId), Some(Int32Type), Here);
    assert DerivesFrom(Some(CustomerDbSet), Some(DbSetDefinition)) by {
      assert BaseChain(Some(CustomerDbSet))[0] == CustomerDbSet;
    }
    assert IsFlagged(b);
    assert [b][..0] == [];
    assert ScanBinaries([b]) == [Finding("CustomerId", Here)];
    var args := [Argument(true, [b])];
    assert args[..0] == [];
    assert LambdaFindings(args) == ScanBinaries([b]);
  }

  /** `db.Customers.Where(c => 5 == c.Id)`: the swapped comparison is not reported. */
  lemma ScenarioSwappedOperands()
    ensures InvocationFindings(
      Invocation(MemberAccess("Where", Some(PropertySymbol(CustomerDbSet))),
                 [Argument(true, [BinaryExpression("==", Some(Int32Type), Some(CustomerId), Here)])]),
      Some(DbSetDefinition)) == []
  {
    var b := BinaryExpression("==", Some(Int32Type), Some(CustomerId), Here);
    assert !IsFlagged(b);
    assert [b][..0] == [];
    assert ScanBinaries([b]) == [];
    var args := [Argument(true, [b])];
    assert args[..0] == [];
    assert LambdaFindings(args) == ScanBinaries([b]);
  }

  /** `customers.Where(c => c.Id == 5)` on a local `List<Customer>`: not a `DbSet`, nothing reported. */
  lemma ScenarioPlainList()
    ensures InvocationFindings(
      Invocation(MemberAccess("Where", Some(LocalSymbol(CustomerList))),
                 [Argument(true, [BinaryExpression("==", Some(CustomerId), Some(Int32Type), Here)])]),
      Some(DbSetDefinition)) == []
  {
    assert BaseChain(Some(CustomerList)) == [CustomerList];
  }
}
