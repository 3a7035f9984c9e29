# PeanoScript core in Dafny

PeanoScript is a proof language that looks like TypeScript. Propositions about
natural numbers are types: `x == y`, `A && B`, `A || B`, `(x: N) => P`, the
dependent pair `{num: N, prop: P}` and `never`. Programs are proofs. This
project models the checker at the centre of the language:

- the type tree, structural equality up to renaming of binders
  ("assignability"), capture-avoiding substitution and the fresh-name scheme
  (`engineUtils.ts`, `engineTypes.ts`, `typeEquals`/`reduceType` in
  `compile.ts`);
- the resolver that turns a parsed type expression into a type tree, generic
  type synonyms included (`typeAstToTypeTree.ts`);
- the polynomial library and the ring decision procedure behind `ring(…)` and
  the `rung` (ring-equal) types (`polynomials.ts`, `equalityPolynomials.ts`);
- the axioms and their run-time realizers (`axioms.ts`);
- the elaborator `getType`, which checks each expression and statement form
  against the type it is required to have ("require"). It records
  diagnostics and builds the run-time continuation (`compile.ts`);
- the tree-building actions of the grammar (`grammar.ts`) and the outcome
  handling of the parser driver (`parse.ts`).

Modules follow the source files:

| module | models |
|---|---|
| `Types` | the type tree and tagged types |
| `Decimal`, `UiTypes` | decimal printing and the diagnostics records |
| `EngineUtils` | `engineUtils.ts` |
| `PrintingExamples` | concrete prints of `unparseType` from `engineUtils.ts` |
| `Assignability` | `typeEquals` and `reduceType` |
| `TypeResolution` | `typeAstToTypeTree.ts` |
| `Polynomials`, `PolynomialEvaluation` | `polynomials.ts`, plus its meaning as a function of the variables |
| `EqualityPolynomials` | `equalityPolynomials.ts` |
| `Runtime` | the realizer values and the interpreter of continuations |
| `Axioms` | `axioms.ts` |
| `Ast`, `TypingRules`, `Elaborator`, `ElaboratorProperties` | `getType` in `compile.ts` |
| `Grammar` | `grammar.ts` and `safeParse` |

Several kinds of source code are modelled differently:

- Functions that throw return a `Result`. The elaborator's `try`/`catch`
  recovery (`rGetType`) is modelled by `Elaborator.Check`.
- The diagnostics array that the source appends to becomes a `seq<Info>`
  returned beside the result.
- The source's loops become methods with loop invariants, proved equal to
  the recursive function that specifies them. These are `simplifyPolynomial`,
  `multiplyPolynomials` (`MultiplyPolynomials`, with `MultiplyTerms` for the
  inner merge), the comparison loops `TermsAreEquivalent` and
  `PolynomialsAreEqual`, `freeify`, the statement loop of a block
  (`BlockLoop`), the destructuring loop (`DestructureLoop`), the generic
  parameter loop (`GenericScopeLoop`), the renaming loop of generic
  instantiation (`RenameLaterLoop` and `RenameLaterLoopAsWritten`), the
  run-time statement loop of a block (`RunStatementsLoop`), the `for`
  runtime loop, `dataToBounds` and the currying loops of the grammar.
- A continuation `(ctx) => Promise<value>` becomes an `Impl` term. `Runtime.Run`
  interprets it with an explicit fuel bound.

## Model

| member | source | states |
|---|---|---|
| Types.RemoveNumberIndex | app/src/language/engineTypes.ts:45-51 | the result is a prefix of the input, does not end in a digit, and only digits were removed |
| Types.RemoveNumberIndexUnique | app/src/language/engineTypes.ts:45-51 | any such prefix is the result: stripping the trailing digits is uniquely determined |
| Types.RemoveNumberIndexIdempotent | app/src/language/engineTypes.ts:45-51 | stripping twice is stripping once |
| Types.RemoveNumberIndexExample | app/src/language/engineTypes.ts:45-51 | `x_12` becomes `x_` and `abc` is unchanged |
| Decimal.NatToString | app/src/language/engine/engineUtils.ts:63-128 | a number prints as a non-empty string of decimal digits |
| Decimal.StringToNatOfNatToString | app/src/language/engine/engineUtils.ts:63-128 | reading the printed digits back gives the number |
| Decimal.NatToStringInjective | app/src/language/engine/engineUtils.ts:190-200 | distinct numbers print differently, so the probed suffixes `_2, _3, …` are distinct names |
| UiTypes.ErrorCountAppend | app/src/language/uiTypes.ts:2-15 | the error count of concatenated diagnostics is the sum of the counts |
| UiTypes.ErrorCountPositive | app/src/language/uiTypes.ts:2-15 | the error count is positive exactly when some entry is an error |
| EngineUtils.RetrieveAfterBind | app/src/language/engine/engineUtils.ts:14-22 | after binding a key, lookup of that key gives the binding and other keys are unchanged |
| EngineUtils.RetrieveFromContext | app/src/language/engine/engineUtils.ts:14-22 | a name's binding if it has one; characterised by `RetrieveAfterBind` |
| EngineUtils.BigIntToSuccs | app/src/language/engine/engineUtils.ts:23-31 | the `succ` chain over `0` for a number; characterised by `NumeralRoundTrip`, `NumeralIsArithmetic` and `NumeralPrintsDecimal` |
| EngineUtils.ArithToMaybeNumber | app/src/language/engine/engineUtils.ts:129-141 | the number a tree spells; characterised by `NumeralRoundTrip`, `NumeralOnlyFromSuccs` and `NoNumberIffVarOrOp` |
| EngineUtils.Unparse | app/src/language/engine/engineUtils.ts:63-128 | the printed form of a type; characterised by `NumeralPrintsDecimal`, `NegationPrints` and the printing examples |
| EngineUtils.FreeIn | app/src/language/engine/engineUtils.ts:142-188 | whether a name occurs free; characterised by `FreeInIffFreeVars` |
| EngineUtils.NumeralRoundTrip | app/src/language/engine/engineUtils.ts:129-141 | reading back the `succ` chain built for `n` gives `n` |
| EngineUtils.NumeralIsArithmetic | app/src/language/engine/engineUtils.ts:23-31 | the `succ` chain for a number is an arithmetic tree |
| EngineUtils.NumeralOnlyFromSuccs | app/src/language/engine/engineUtils.ts:129-141 | a tree that reads back as `n` is the `succ` chain for `n` |
| EngineUtils.NoNumberIffVarOrOp | app/src/language/engine/engineUtils.ts:129-141 | a tree has no numeric value exactly when it contains a variable or an operator |
| EngineUtils.MakeTagged | app/src/language/engine/engineUtils.ts:32-62 | fails exactly on `N` and type variables; otherwise tags the type arithmetic exactly for arithmetic nodes, proof otherwise, and keeps the type |
| EngineUtils.NumeralPrintsDecimal | app/src/language/engine/engineUtils.ts:63-128 | a `succ` chain prints as its decimal number |
| EngineUtils.NegationPrints | app/src/language/engine/engineUtils.ts:63-128 | `A => never` prints as `(l != r)` when `A` is an equation and as `!( A )` otherwise |
| EngineUtils.FreeInIffFreeVars | app/src/language/engine/engineUtils.ts:142-188 | a name is free in a type exactly when it is in the type's set of free variables |
| EngineUtils.FreshIndex | app/src/language/engine/engineUtils.ts:190-200 | the first index from `i` whose candidate name is not free in any of the trees |
| EngineUtils.FreshName | app/src/language/engine/engineUtils.ts:190-200 | the produced name is free in none of the given trees |
| EngineUtils.Freeify | app/src/language/engine/engineUtils.ts:190-200 | the probing loop returns the fresh name defined by `FreshName` |
| EngineUtils.FreshNameStripsDigits | app/src/language/engine/engineUtils.ts:190-200 | the trailing digits are stripped before probing: `x_2` avoiding `x_2` becomes `x__2` |
| EngineUtils.FreshNameSkipsTaken | app/src/language/engine/engineUtils.ts:190-200 | taken candidates are skipped: `n` avoiding `n` and `n_2` becomes `n_3` |
| EngineUtils.RewriteType | app/src/language/engine/engineUtils.ts:201-348 | substituting a variable for a name keeps the size of the tree |
| EngineUtils.RewriteEliminates | app/src/language/engine/engineUtils.ts:201-348 | after substituting a term in which `from` is not free, `from` is no longer free |
| EngineUtils.RewriteAvoidsCapture | app/src/language/engine/engineUtils.ts:201-348 | substituting under a `(b: N) =>` binder yields a binder whose name is not free in the substituted term |
| EngineUtils.StructRewriteAvoidsCapture | app/src/language/engine/engineUtils.ts:201-348 | the same for the bound name of a dependent pair |
| EngineUtils.RewriteTotal | app/src/language/engine/engineUtils.ts:201-348 | substitution into a well-formed tree without type variables succeeds and keeps it well formed |
| EngineUtils.RewriteIdentity | app/src/language/engine/engineUtils.ts:201-348 | substituting `x` for `x` is the identity |
| EngineUtils.PostError | app/src/language/engine/engineUtils.ts:349-380 | with a position, the diagnostics gain exactly one error entry at the end; without one they are unchanged |
| EngineUtils.PostErrorCount | app/src/language/engine/engineUtils.ts:349-380 | posting adds one to the error count exactly when there is a position |
| PrintingExamples.UnparseSumExample | app/src/language/engine/engineUtils.ts:63-128 | `(1 + 1) == 2` prints as `((1 + 1) == 2)` |
| PrintingExamples.UnparseDisjunctionExample | app/src/language/engine/engineUtils.ts:63-128 | a disjunction of an equation and its negation prints with the disjunction and `!=` operators |
| Assignability.AnyAbsorbs | app/src/language/engine/compile.ts:28-30 | `any` is assignable to and from every type |
| Assignability.TypeEquals | app/src/language/engine/compile.ts:27-108 | assignability; characterised by `AnyAbsorbs`, `TypeVarRejected`, `TypeEqualsReflexive`, `RungAssignableIff`, `ArrowAssignable` and `CaptureNotEquivalent` |
| Assignability.ReduceType | app/src/language/engine/compile.ts:110-130 | the type of an application; characterised by `ReduceDependent`, `ReduceRejectsProof` and `ReduceNonDependent` |
| Assignability.TypeVarRejected | app/src/language/engine/compile.ts:42-44 | comparing a type variable is an error |
| Assignability.TypeEqualsReflexive | app/src/language/engine/compile.ts:27-108 | every comparable type equals itself |
| Assignability.RungAssignableIff | app/src/language/engine/compile.ts:31-38 | a ring-equal type is assignable to an equation exactly when their difference polynomials agree |
| Assignability.RungAssignableSound | app/src/language/engine/compile.ts:31-38 | when they are assignable, one equation holds under an assignment of the variables exactly when the other does |
| Assignability.RenameRoundTrip | app/src/language/engine/compile.ts:64-73 | renaming `x` to a name `y` the tree does not mention, and back, gives the tree, when no number binder inside is named `x` or `y` (binders under other names may nest) |
| Assignability.ArrowAssignable | app/src/language/engine/compile.ts:64-73 | for all arrows, in both directions: assignable exactly when the domains are, and then under one binder name the codomains are; under different names the first binder must not be free in the second codomain and the codomain renamed to it must be assignable; and the matching characterisation of a false answer |
| Assignability.AlphaEquivalentArrows | app/src/language/engine/compile.ts:64-73 | `(x: A) => B` is assignable to its renaming `(y: A) => B[x := y]`, when no number binder inside `B` is named `x` or `y` |
| Assignability.AlphaEquivalentArrowsReverse | app/src/language/engine/compile.ts:64-73 | the other direction: `(y: A) => B[x := y]` is assignable to `(x: A) => B`, under the same binder premise |
| Assignability.RenameKeepsComparable | app/src/language/engine/engineUtils.ts:201-348 | renaming `x` to `y` succeeds and keeps a comparable tree comparable, when no number binder inside is named `x` or `y` |
| Assignability.RenameKeepsArithmetic | app/src/language/engine/engineUtils.ts:201-348 | renaming a variable keeps an arithmetic tree arithmetic |
| Assignability.FreeInMentions | app/src/language/engine/engineUtils.ts:142-188 | a name free in a tree occurs in it |
| Assignability.CaptureNotEquivalent | app/src/language/engine/compile.ts:64-73 | for all arrows with different binders whose domains compare: if the first binder is free in the second codomain, the answer is false |
| Assignability.CaptureExample | app/src/language/engine/compile.ts:64-73 | `(x: N) => x == y` is not assignable to `(y: N) => x == y` |
| Assignability.ReduceDependent | app/src/language/engine/compile.ts:110-121 | applying `(x: N) => B` to an arithmetic argument substitutes it for `x`, leaving no free `x` |
| Assignability.ReduceRejectsProof | app/src/language/engine/compile.ts:114-119 | applying `(x: N) => B` to a non-arithmetic argument fails with "expected arithmetic" |
| Assignability.ReduceNonDependent | app/src/language/engine/compile.ts:122-129 | a non-dependent function returns its body on an assignable argument and fails on a non-assignable one |
| Assignability.AddSuccFirst | app/src/language/engine/compile.ts:110-121 | applying `addSucc` to `a` gives the statement for `a` |
| Assignability.AddSuccSecond | app/src/language/engine/compile.ts:110-121 | applying the result to `b` gives `a + succ(b) == succ(a + b)` |
| Assignability.RewriteNumeral | app/src/language/engine/engineUtils.ts:201-348 | substitution leaves a numeral unchanged |
| Assignability.AddSuccExample | app/src/language/engine/compile.ts:110-130 | `addSucc(3)(5)` has the type printed `((3 + 6) == succ((3 + 5)))` |
| Assignability.PrintThreePlusFive | app/src/language/engine/engineUtils.ts:63-128 | `3 + 5` prints as `(3 + 5)` |
| TypeResolution.Recover | app/src/language/engine/typeAstToTypeTree.ts:214-220 | a failed resolution becomes `any`, keeping the diagnostics and adding one error when the node has a position |
| TypeResolution.Resolve | app/src/language/engine/typeAstToTypeTree.ts:18-221 | type syntax to a type tree, with the corrected instantiation loop; characterised by `Recover`, `NeqDesugars`, `UnknownName`, `StructReservedNames`, `GenericArity`, `ResolveArithmetic` and `GenericCallResolves` |
| TypeResolution.SubstituteAll | app/src/language/engine/typeAstToTypeTree.ts:181-210 | instantiation of resolved arguments in the corrected reading; characterised by `InstantiateWithoutCapture`, `InstantiateLeavesNoPlaceholder` and `SumInstantiated` |
| TypeResolution.SubstituteAllAsWritten | app/src/language/engine/typeAstToTypeTree.ts:181-210 | instantiation of resolved arguments as written; characterised by `InstantiateWithoutCapture`, `SumInstantiatedAsWritten` and `SumPlaceholderLeftAsWritten` |
| TypeResolution.LookupType | app/src/language/engine/typeAstToTypeTree.ts:27-44 | `N` and `never` are built in; other names resolve exactly when bound to an arithmetic value or a typedef, giving the bound type; an unbound name gives "unknown variable" |
| TypeResolution.ArithmeticCheck | app/src/language/engine/typeAstToTypeTree.ts:67-83 | an operand is accepted exactly when it is arithmetic, and then unchanged |
| TypeResolution.ArithmeticBinary | app/src/language/engine/typeAstToTypeTree.ts:67-102 | `==`, `!=`, `+`, `*` need two arithmetic operands; `==` builds an equation and `!=` the function from that equation to `never` |
| TypeResolution.CombineBinary | app/src/language/engine/typeAstToTypeTree.ts:103-109 | disjunction and conjunction always combine; other operators go through the arithmetic check |
| TypeResolution.SuccOf | app/src/language/engine/typeAstToTypeTree.ts:110-126 | `succ(t)` is accepted exactly when `t` is arithmetic |
| TypeResolution.StructOf | app/src/language/engine/typeAstToTypeTree.ts:146-157 | a struct is refused exactly when its fields are named `left` and `right`; otherwise the two fields are kept |
| TypeResolution.GenericHead | app/src/language/engine/typeAstToTypeTree.ts:167-182 | a generic call resolves its head exactly when the name is a generic typedef with that many parameters |
| TypeResolution.CheckArgumentKind | app/src/language/engine/typeAstToTypeTree.ts:184-194 | an argument is accepted exactly when its kind agrees with the parameter's constraint (`N` arithmetic, otherwise proof) |
| TypeResolution.RenameLaterLoop | app/src/language/engine/typeAstToTypeTree.ts:195-205 | in the corrected reading, testing each later parameter under its current name, the loop computes `RenameLater` |
| TypeResolution.RenameLaterLoopAsWritten | app/src/language/engine/typeAstToTypeTree.ts:195-205 | the loop as written, testing each later parameter under its declared name, computes `RenameLaterAsWritten` |
| TypeResolution.SumStepOne | app/src/language/engine/typeAstToTypeTree.ts:183-208 | for `G<c, c, 0>` both readings agree on the first argument, renaming `c` to `c_2` |
| TypeResolution.SumStepTwoAsWritten | app/src/language/engine/typeAstToTypeTree.ts:195-205 | as written, the second argument renames the already substituted `c` to `c_3` |
| TypeResolution.SumStepThreeAsWritten | app/src/language/engine/typeAstToTypeTree.ts:206-209 | as written, the third argument is substituted for `c_3` |
| TypeResolution.SumInstantiatedAsWritten | app/src/language/engine/typeAstToTypeTree.ts:181-210 | as written, `G<c, c, 0>` for `a + b == c` is `(0 + c) == c_2` |
| TypeResolution.SumStepTwo | app/src/language/engine/typeAstToTypeTree.ts:195-205 | tracking current names, the second argument renames nothing |
| TypeResolution.SumStepThree | app/src/language/engine/typeAstToTypeTree.ts:206-209 | tracking current names, the third argument is substituted for `c_2` |
| TypeResolution.SumInstantiated | app/src/language/engine/typeAstToTypeTree.ts:181-210 | tracking current names, `G<c, c, 0>` is `(c + c) == 0` |
| TypeResolution.NeqDesugars | app/src/language/engine/typeAstToTypeTree.ts:84-100 | `l != r` resolves exactly as `!(l == r)` |
| TypeResolution.NeqRejects | app/src/language/engine/typeAstToTypeTree.ts:67-83 | `!=` with a non-arithmetic operand resolves to `any` and reports an error |
| TypeResolution.UnknownName | app/src/language/engine/typeAstToTypeTree.ts:34-37 | an unbound name resolves to `any` with one "unknown variable" error at its position |
| TypeResolution.StructReservedNames | app/src/language/engine/typeAstToTypeTree.ts:146-153 | a struct with fields `left` and `right` resolves to `any` and reports an error |
| TypeResolution.GenericArity | app/src/language/engine/typeAstToTypeTree.ts:176-180 | a generic call with the wrong number of arguments resolves to `any` with the arity error |
| TypeResolution.NumberBinderScopes | app/src/language/engine/typeAstToTypeTree.ts:48-66 | a binder of type `N` is an arithmetic variable in its body, so `(x: N) => x == x` resolves without error |
| TypeResolution.ResolveArithmetic | app/src/language/engine/typeAstToTypeTree.ts:45-126 | arithmetic syntax over numbers and arithmetic names resolves with no diagnostics to an arithmetic tree |
| TypeResolution.ResolveOperation | app/src/language/engine/typeAstToTypeTree.ts:67-102 | an arithmetic operation on arithmetic syntax resolves without diagnostics to an arithmetic tree |
| TypeResolution.ResolveSucc | app/src/language/engine/typeAstToTypeTree.ts:110-126 | `succ(e)` on arithmetic syntax resolves to `succ` of the argument's tree |
| TypeResolution.ResolveEquation | app/src/language/engine/typeAstToTypeTree.ts:67-102 | `l == r` on arithmetic syntax resolves to the equation of the two trees without diagnostics |
| TypeResolution.InstantiateAgrees | app/src/language/engine/typeAstToTypeTree.ts:183-210 | in the corrected reading, the instantiation loop fails when an argument's kind does not match and otherwise computes the substitution `SubstituteFrom` of the resolved arguments, collecting their diagnostics |
| TypeResolution.GenericCallResolves | app/src/language/engine/typeAstToTypeTree.ts:167-212 | in the corrected reading, a well-kinded generic call resolves to `SubstituteAll` of the resolved arguments, or to `any` when that fails |
| TypeResolution.InstantiateWithoutCapture | app/src/language/engine/typeAstToTypeTree.ts:181-210 | when no argument has a later parameter's name free, both readings are plain left-to-right substitution of each argument for its parameter |
| TypeResolution.InstantiateLeavesNoPlaceholder | app/src/language/engine/typeAstToTypeTree.ts:195-209 | in the corrected reading, from a body and arguments without type variables, every placeholder given to a later parameter is substituted in the end: no type variable is left free |
| TypeResolution.SumPlaceholderLeftAsWritten | app/src/language/engine/typeAstToTypeTree.ts:195-209 | as written, the same premises can leave a placeholder free: `G<c, c, 0>` keeps `c_2` |
| EngineUtils.RewriteFreeTypeVars | app/src/language/engine/engineUtils.ts:201-348 | substitution removes the free type variable it replaces and adds at most those of the substituted tree |
| Polynomials.Simplify | app/src/language/library/polynomials.ts:72-93 | the result has one term per monomial, no zero terms, and the same coefficient for every monomial as the input |
| Polynomials.Negate | app/src/language/library/polynomials.ts:16-24 | every term has its coefficient negated, in the same order |
| Polynomials.Add | app/src/language/library/polynomials.ts:11-15 | the sum is canonical and its coefficients are the sums of the coefficients |
| Polynomials.Subtract | app/src/language/library/polynomials.ts:16-24 | the difference is canonical and its coefficients are the differences |
| Polynomials.MapAdd | app/src/language/library/polynomials.ts:57-70 | the exponents of a product monomial are the sums of the exponents, over the union of the variables |
| Polynomials.Row | app/src/language/library/polynomials.ts:25-35 | one term times a polynomial has as many terms as the polynomial |
| Polynomials.Multiply | app/src/language/library/polynomials.ts:25-35 | the product is canonical |
| Polynomials.SimplifyPolynomial | app/src/language/library/polynomials.ts:72-93 | the accumulating loop computes `Simplify` |
| Polynomials.MultiplyTerms | app/src/language/library/polynomials.ts:57-70 | the exponent-merging loop computes the product term |
| Polynomials.MultiplyPolynomials | app/src/language/library/polynomials.ts:25-35 | the nested loop computes `Multiply` |
| Polynomials.TermsAreEquivalent | app/src/language/library/polynomials.ts:95-118 | the key-by-key comparison decides term equivalence |
| Polynomials.PolynomialsAreEqual | app/src/language/library/polynomials.ts:36-55 | the matching loop decides polynomial equality |
| Polynomials.CoeffAppend | app/src/language/library/polynomials.ts:11-15 | coefficients of a concatenation add up |
| Polynomials.CoeffNegate | app/src/language/library/polynomials.ts:16-24 | negation negates every coefficient |
| Polynomials.KeysFacts | app/src/language/library/polynomials.ts:120-125 | the grouping keys are distinct and are exactly the monomials that occur |
| Polynomials.CoeffCollect | app/src/language/library/polynomials.ts:72-93 | grouping by given keys keeps their coefficients and drops the rest |
| Polynomials.SimplifyCanonicalIdentity | app/src/language/library/polynomials.ts:72-93 | simplifying a canonical polynomial changes nothing |
| Polynomials.SimplifyIdempotent | app/src/language/library/polynomials.ts:72-93 | simplifying twice is simplifying once |
| Polynomials.SimplifyZero | app/src/language/library/polynomials.ts:72-93 | a polynomial whose coefficients all cancel simplifies to the empty polynomial |
| Polynomials.TermsEquivalentIffEqual | app/src/language/library/polynomials.ts:95-118 | two terms are equivalent exactly when they are equal |
| Polynomials.PolynomialsEqualIffSameCoefficients | app/src/language/library/polynomials.ts:36-55 | two simplified polynomials are equal exactly when every monomial has the same coefficient |
| PolynomialEvaluation.MonoEvalMapAdd | app/src/language/library/polynomials.ts:57-70 | a product monomial evaluates to the product of the values |
| PolynomialEvaluation.EvalAppend | app/src/language/library/polynomials.ts:11-15 | a concatenation evaluates to the sum |
| PolynomialEvaluation.EvalNegate | app/src/language/library/polynomials.ts:16-24 | negation negates the value |
| PolynomialEvaluation.EvalSimplify | app/src/language/library/polynomials.ts:72-93 | simplification keeps the value under every assignment |
| PolynomialEvaluation.SameCoefficientsSameValue | app/src/language/library/polynomials.ts:36-55 | polynomials with the same coefficients have the same value |
| PolynomialEvaluation.EvalRow | app/src/language/library/polynomials.ts:25-35 | one term times a polynomial evaluates to the product of the values |
| PolynomialEvaluation.EvalProducts | app/src/language/library/polynomials.ts:25-35 | all pairwise products evaluate to the product of the values |
| PolynomialEvaluation.EvalAdd | app/src/language/library/polynomials.ts:11-15 | addition is sound: the sum evaluates to the sum of the values |
| PolynomialEvaluation.EvalSubtract | app/src/language/library/polynomials.ts:16-24 | subtraction is sound |
| PolynomialEvaluation.EvalMultiply | app/src/language/library/polynomials.ts:25-35 | multiplication is sound |
| PolynomialEvaluation.SimplifyNonNegative | app/src/language/library/polynomials.ts:72-93 | simplification keeps exponents non-negative |
| PolynomialEvaluation.AddNonNegative | app/src/language/library/polynomials.ts:11-15 | addition keeps exponents non-negative |
| PolynomialEvaluation.SubtractNonNegative | app/src/language/library/polynomials.ts:16-24 | subtraction keeps exponents non-negative |
| PolynomialEvaluation.MultiplyNonNegative | app/src/language/library/polynomials.ts:25-35 | multiplication keeps exponents non-negative |
| EqualityPolynomials.ToPolynomial | app/src/language/library/equalityPolynomials.ts:13-42 | conversion succeeds exactly on arithmetic trees |
| EqualityPolynomials.Difference | app/src/language/library/equalityPolynomials.ts:44-58 | the difference polynomial exists exactly for arithmetic equations |
| EqualityPolynomials.IdentitiesEquivalent | app/src/language/library/equalityPolynomials.ts:44-76 | the comparison is defined exactly for two arithmetic equations |
| EqualityPolynomials.ToPolynomialNonNegative | app/src/language/library/equalityPolynomials.ts:13-42 | converted trees have non-negative exponents |
| EqualityPolynomials.ToPolynomialEval | app/src/language/library/equalityPolynomials.ts:13-42 | the polynomial of a tree evaluates to the tree's value under every assignment |
| EqualityPolynomials.DifferenceEval | app/src/language/library/equalityPolynomials.ts:44-58 | the difference polynomial evaluates to left minus right |
| EqualityPolynomials.RingSound | app/src/language/library/equalityPolynomials.ts:44-76 | when two equations are judged equivalent, one holds under an assignment exactly when the other does |
| EqualityPolynomials.DifferenceCoeff | app/src/language/library/equalityPolynomials.ts:44-58 | each coefficient of the difference is the left coefficient minus the right one |
| EqualityPolynomials.SameCoefficientsIffSameDifference | app/src/language/library/equalityPolynomials.ts:60-63 | the first test succeeds exactly when both equations have the same difference |
| EqualityPolynomials.SameCoefficientsIffOppositeDifference | app/src/language/library/equalityPolynomials.ts:65-73 | the negated test succeeds exactly when the differences are opposite |
| EqualityPolynomials.IdentitiesEquivalentIff | app/src/language/library/equalityPolynomials.ts:44-76 | two equations are equivalent exactly when their differences are equal or opposite |
| EqualityPolynomials.IdentitiesEquivalentReflexive | app/src/language/library/equalityPolynomials.ts:44-76 | every arithmetic equation is equivalent to itself |
| EqualityPolynomials.IdentitiesEquivalentSymmetric | app/src/language/library/equalityPolynomials.ts:44-76 | the judgement does not depend on the order of the equations |
| EqualityPolynomials.IdentitiesEquivalentSwap | app/src/language/library/equalityPolynomials.ts:65-73 | an equation is equivalent to its mirror image |
| EqualityPolynomials.NumeralCoeff | app/src/language/library/equalityPolynomials.ts:14-20 | the numeral `n` becomes the constant polynomial `n` |
| EqualityPolynomials.NumeralValue | app/src/language/library/equalityPolynomials.ts:14-20 | the numeral `n` evaluates to `n` |
| EqualityPolynomials.RingSimpleExample | app/src/language/library/equalityPolynomials.ts:44-76 | a concrete commutativity identity is accepted |
| EqualityPolynomials.RingRejects | app/src/language/library/equalityPolynomials.ts:44-76 | equations that hold differently under some assignment are not judged equivalent |
| Runtime.ForLoop | app/src/language/engine/compile.ts:1660-1680 | the counting loop computes `ForFrom` from 0 to the bound |
| Runtime.ForZeroSteps | app/src/language/engine/compile.ts:1666-1668 | a loop with bound 0 returns the base proof |
| Runtime.ForSplit | app/src/language/engine/compile.ts:1666-1678 | running to the bound is running to `m` and then continuing from `m` |
| Runtime.ForLastStep | app/src/language/engine/compile.ts:1666-1678 | the last iteration runs the step with the iteration index and the previous proof |
| Runtime.ForConstantStep | app/src/language/engine/compile.ts:1666-1678 | with a constant step, a loop that iterates returns that constant |
| Runtime.DispatchOnTag | app/src/language/engine/compile.ts:391-410 | a switch runs the left or right branch according to the value's tag and fails on anything else |
| Runtime.BlockBindsInOrder | app/src/language/engine/compile.ts:618-645 | two `const` statements bind in order, the second seeing the first, before the result runs |
| Runtime.UpdateContext | app/src/language/engine/compile.ts:618-645 | `updateCtx`: a `const` binds its value and a `multi const` binds the number and the proof of a witness, or fails with "multi const didnt get object"; characterised by `ConstBlock` and `MultiConstBlock` |
| Runtime.RunStatements | app/src/language/engine/compile.ts:785-789 | the block realizer's statement loop, each statement updating the context in turn; characterised by `RunStatementsAppend` |
| Runtime.RunStatementsLoop | app/src/language/engine/compile.ts:785-789 | the loop over the block's statements computes `RunStatements` from the first statement |
| Runtime.RunStatementsShift | app/src/language/engine/compile.ts:785-789 | replaying a block after a prefix is replaying the remaining statements alone |
| Runtime.RunStatementsAppend | app/src/language/engine/compile.ts:785-789 | for all statement lists, `first + rest` is replayed as `first` and then `rest` in the context `first` left, and a failure stops the replay |
| Runtime.BlockStep | app/src/language/engine/compile.ts:785-790 | a block runs its first statement and then the block of the rest in the updated context |
| Runtime.BlockAppend | app/src/language/engine/compile.ts:785-790 | a block of `first + rest` runs `first` and then the block of `rest` in the context `first` left, for all lengths |
| Runtime.ConstBlock | app/src/language/engine/compile.ts:622-623 | `const x = v` binds `v`'s value for the rest of the block, and a failing `v` stops the block with its error |
| Runtime.MultiConstBlock | app/src/language/engine/compile.ts:624-640 | `multi const` binds both fields of a witness for the rest of the block, and any other value stops it with "multi const didnt get object" |
| Runtime.WitnessFreePrints | app/src/language/engine/compile.ts:147-193 | a value without dependent pairs always prints |
| Runtime.PrintWitness | app/src/language/engine/compile.ts:171-189 | a dependent pair prints with the field names of its type |
| Runtime.PrintInjected | app/src/language/engine/compile.ts:165-170 | a `makeLeft`/`makeRight` value prints under its side with the matching half of the type |
| Runtime.PrintWitnessUntyped | app/src/language/engine/compile.ts:171-189 | a dependent pair without a struct type fails to print its proof |
| Runtime.Run | app/src/language/engine/compile.ts:449-1721 | runs a continuation; characterised by `BlockAppend`, `ConstBlock`, `MultiConstBlock`, the `For` lemmas and the axiom realizer lemmas |
| Runtime.Apply | app/src/language/engine/compile.ts:1311-1318 | a call applies a function value and fails on anything else; characterised through `Axioms.EqSymRealizer` and the other realizer lemmas |
| Runtime.Dispatch | app/src/language/engine/compile.ts:391-410 | a `switch` runs the case of the value's side; characterised by `DispatchOnTag` |
| Runtime.Obj2Str | app/src/language/engine/compile.ts:147-193 | the printed run-time value; characterised by `WitnessFreePrints`, `PrintWitness`, `PrintInjected` and `PrintWitnessUntyped` |
| Axioms.AxiomsClosed | app/src/language/axioms.ts:14-39 | every axiom is a proof with a closed statement and has a realizer |
| Axioms.EqualityAxiomsClosed | app/src/language/axioms.ts:16-27 | the equality axioms have no free variables |
| Axioms.ArithmeticAxiomsClosed | app/src/language/axioms.ts:28-31 | the arithmetic axioms have no free variables |
| Axioms.AnyIsTypedef | app/src/language/axioms.ts:40 | `any` is a typedef for the any type and has no realizer |
| Axioms.RealizersMatchAxioms | app/src/language/axioms.ts:42-55 | realizers exist for exactly the axioms |
| Axioms.SymmIsSym | app/src/language/axioms.ts:17-18 | `eqSymm` is the same axiom as `eqSym` |
| Axioms.EqReflParses | app/src/language/axioms.ts:16 | the text of `eqRefl` resolves to its statement without diagnostics |
| Axioms.AddZeroParses | app/src/language/axioms.ts:28 | the text of `addZero` resolves to its statement without diagnostics |
| Axioms.EqReflRealizer | app/src/language/axioms.ts:43 | `eqRefl` applied to one argument returns the equality token |
| Axioms.EqSymRealizer | app/src/language/axioms.ts:44 | `eqSym` returns its equality argument |
| Axioms.EqTransRealizer | app/src/language/axioms.ts:46 | `eqTrans` returns its first equality argument |
| Axioms.SuccNotZeroRealizer | app/src/language/axioms.ts:48-50 | `succNotZero` fails at run time when fully applied |
| Axioms.ArithmeticRealizers | app/src/language/axioms.ts:51-54 | the arithmetic axioms return the equality token |
| Axioms.RealizerArities | app/src/language/axioms.ts:16-31 | each statement takes the number of arguments its realizer is curried over (1, 2, 3 or 5) |
| TypingRules.SymmRule | app/src/language/engine/compile.ts:1018-1045 | `.symm()` applies exactly to equations and swaps their sides |
| TypingRules.SymmInvolutive | app/src/language/engine/compile.ts:1018-1045 | swapping twice gives back the equation |
| TypingRules.SymmRequire | app/src/language/engine/compile.ts:1025-1032 | the target of `.symm()` is checked against the required equation with its sides flipped, and against nothing otherwise; characterised by `SymmMeetsRequire` |
| TypingRules.SymmMeetsRequire | app/src/language/engine/compile.ts:1025-1032 | a required `a == b` asks the target for `b == a`, which swaps back to `a == b` |
| TypingRules.TransRule | app/src/language/engine/compile.ts:1046-1122 | with an equation argument the result is left-of-first `==` right-of-second; with a ring-equal argument it is the required type; any other argument fails |
| TypingRules.TransEqualities | app/src/language/engine/compile.ts:1069-1084 | chaining succeeds exactly when the middle terms are assignable |
| TypingRules.TransRung | app/src/language/engine/compile.ts:1085-1120 | a ring-equal step succeeds exactly when there is a required equation whose remaining step is assignable to it, and then gives that equation |
| TypingRules.TransChains | app/src/language/engine/compile.ts:1069-1084 | `a == b` chained with `b2 == c` gives `a == c` exactly when `b` and `b2` are assignable |
| TypingRules.TransRequireShape | app/src/language/engine/compile.ts:1062-1068 | a required `a == c` turns into the requirement `b == c` for the argument |
| TypingRules.TransRequire | app/src/language/engine/compile.ts:1062-1068 | the requirement passed to `trans`'s argument; characterised by `TransRequireShape` |
| TypingRules.EqMapFunction | app/src/language/engine/compile.ts:426-435 | an accepted map function is an arrow to an arithmetic type |
| TypingRules.EqMapRule | app/src/language/engine/compile.ts:436-447 | mapping `f` over `l == r` gives `f(l) == f(r)` |
| TypingRules.EqMapSuccCongruence | app/src/language/engine/compile.ts:420-447 | mapping `succ` over `a == b` gives `succ(a) == succ(b)` |
| TypingRules.SuccRule | app/src/language/engine/compile.ts:1153-1180 | `succ(t)` type checks exactly for arithmetic `t` and is arithmetic |
| TypingRules.SuccOfNumeral | app/src/language/engine/compile.ts:1153-1180 | `succ` of the numeral `n` is the numeral `n + 1` |
| TypingRules.ArithRule | app/src/language/engine/compile.ts:1685-1721 | `+` and `*` type check exactly on arithmetic operands and build the operation |
| TypingRules.ArithKeepsTrees | app/src/language/engine/compile.ts:1685-1721 | operations on arithmetic trees give arithmetic trees |
| TypingRules.DotRule | app/src/language/engine/compile.ts:1466-1497 | `.left`/`.right` project a conjunction and succeed on one when nothing is required |
| TypingRules.DotProjects | app/src/language/engine/compile.ts:1466-1497 | projections give the halves; any other member is an error |
| TypingRules.LambdaRequire | app/src/language/engine/compile.ts:911-960 | the parameter type comes from the annotation or the required arrow's domain; the body's requirement is the required codomain |
| TypingRules.LambdaMeetsRequire | app/src/language/engine/compile.ts:925-945 | a required `(x: N) => B` checks `y => …` against `B` renamed to `y`, and the result is assignable back, when no number binder inside `B` is named `x` or `y` |
| TypingRules.AssertionCheck | app/src/language/engine/compile.ts:961-990 | an explicit return annotation replaces the inherited requirement and must agree with it |
| TypingRules.StructFieldsRequire | app/src/language/engine/compile.ts:1321-1359 | with a requirement, field names must match it and the proof field inherits its type |
| TypingRules.StructAssertion | app/src/language/engine/compile.ts:1360-1388 | the proof field's motive is the inline annotation, which must agree with the requirement, or else the requirement |
| TypingRules.LoopInvariant | app/src/language/engine/compile.ts:1542-1568 | an annotation is the invariant; otherwise a required type over a variable bound is rewritten to the iteration variable |
| TypingRules.LoopMeetsRequire | app/src/language/engine/compile.ts:1542-1568 | the inferred invariant, instantiated back at the bound, is the requirement, when no number binder inside it is named after the bound or the iteration variable |
| TypingRules.LoopHeader | app/src/language/engine/compile.ts:1569-1641 | an accepted loop header compares and increments the iteration variable |
| TypingRules.SwitchCases | app/src/language/engine/compile.ts:326-336 | a switch must have exactly two cases, one `left` and one `right` |
| TypingRules.SwitchAgree | app/src/language/engine/compile.ts:383-388 | the two cases must have assignable types, also with the requirement |
| TypingRules.ScopeAfter | app/src/language/engine/compile.ts:672-685 | a name is in scope from the end of its statement to the end of the block |
| TypingRules.FieldType | app/src/language/engine/compile.ts:700-764 | a field is found exactly when one of the two is named so |
| TypingRules.ApplyRenames | app/src/language/engine/compile.ts:724-729 | a destructured proof field is rewritten by each earlier number rename in order; characterised by `ApplyRenamesAppend`, `DestructureStep` and `DestructureWitness` |
| TypingRules.ApplyRenamesAppend | app/src/language/engine/compile.ts:724-729 | renaming by `first + rest` is renaming by `first`, then by `rest`, and a failing rewrite stops the rest |
| TypingRules.DestructureStep | app/src/language/engine/compile.ts:700-764 | each successful binding adds a definition and a hover entry |
| TypingRules.DestructureLoop | app/src/language/engine/compile.ts:700-764 | the binding loop computes `Destructure` |
| TypingRules.DestructureWitness | app/src/language/engine/compile.ts:690-764 | destructuring `{n, p}` with renames binds the number and the proof renamed into the new name |
| TypingRules.Destructure | app/src/language/engine/compile.ts:700-764 | the bindings of a destructuring; characterised by `DestructureLoop` and `DestructureWitness` |
| TypingRules.GenericScope | app/src/language/engine/compile.ts:800-844 | parameters are accepted exactly when each is constrained by `N` or `Prop`, and each is then bound |
| TypingRules.GenericScopeLoop | app/src/language/engine/compile.ts:800-844 | the parameter loop computes `GenericScope` |
| TypingRules.GenericScopeBinds | app/src/language/engine/compile.ts:800-844 | every parameter is bound to its kind's binding |
| TypingRules.GenericScopeKeeps | app/src/language/engine/compile.ts:800-844 | other names keep their binding |
| TypingRules.GenericArgsOf | app/src/language/engine/compile.ts:800-844 | the recorded generic lists each parameter's name and constraint in order |
| TypingRules.ReplaceRule | app/src/language/engine/compile.ts:532-586 | `replace<G>` accepts only a generic typedef |
| TypingRules.ReplaceTransports | app/src/language/engine/compile.ts:532-586 | `replace<G>` turns a proof of `G` at `L` into one at `R`: its statement ends in the body of `G` at `L` and at `R` |
| Elaborator.Check | app/src/language/engine/compile.ts:240-304 | the checked type is the requirement when there is one, the diagnostics extend `getType`'s by at most one error, and a failure gives a failing continuation |
| Elaborator.GetType | app/src/language/engine/compile.ts:217-238 | the first diagnostic records the requirement, the statement keyword and the position |
| Elaborator.GetIdent | app/src/language/engine/compile.ts:449-489 | `sorry` is `any`; other names check exactly when bound to a proof or arithmetic value and have its type |
| Elaborator.GetNode | app/src/language/engine/compile.ts:449-1728 | the dispatch of `getType` on the expression form; characterised by the per-form members and `ElaboratorProperties` |
| Elaborator.GetCall | app/src/language/engine/compile.ts:1017-1320 | the dispatch of a call on its callee; characterised by `GetSymm`, `GetTrans`, `SymmSwapsSides` and `TransChainsSides` |
| Elaborator.GetGenericCall | app/src/language/engine/compile.ts:494-606 | only the built-in generics check, each with its statement |
| Elaborator.GetSymm | app/src/language/engine/compile.ts:1018-1045 | `.symm()` checks only with no argument and swaps the sides |
| Elaborator.GetTrans | app/src/language/engine/compile.ts:1046-1122 | `.trans(e)` needs an equation target and an argument and returns the chained equation |
| Elaborator.EqMapType | app/src/language/engine/compile.ts:414-447 | a successful map gives an equation; with `succ` it is the `succ` of both sides |
| Elaborator.GetSucc | app/src/language/engine/compile.ts:1153-1180 | `succ(e)` checks exactly when `e` is arithmetic |
| Elaborator.GetMakeSide | app/src/language/engine/compile.ts:1181-1220 | `makeLeft`/`makeRight` need a required disjunction, have its type and tag the value with their side |
| Elaborator.GetRing | app/src/language/engine/compile.ts:1232-1241 | `ring(e)` checks exactly when `e` is `any` or an equation, and an equation `l == r` gives the ring-equal type of `l` and `r` |
| Elaborator.GetNeverElim | app/src/language/engine/compile.ts:1242-1258 | `neverElim` needs a requirement, has its type and fails if run |
| Elaborator.GetReplaceAll | app/src/language/engine/compile.ts:1259-1289 | `replaceAll(p)(eq)` needs an equation whose left side is a variable, and has `p`'s type with that variable replaced by the right side |
| Elaborator.GetApply | app/src/language/engine/compile.ts:1290-1319 | the callee must be `any` or a function, and a call of a function has its type applied to the argument's type |
| Elaborator.ResolveOpt | app/src/language/engine/compile.ts:911-960 | an optional annotation resolves exactly when present |
| Elaborator.GetLambda | app/src/language/engine/compile.ts:911-1016 | a lambda gets an arrow type over its parameter with the domain chosen by the requirement rule |
| Elaborator.LambdaBody | app/src/language/engine/compile.ts:961-1016 | the body result gives an arrow over the chosen parameter type |
| Elaborator.GetStruct | app/src/language/engine/compile.ts:1321-1422 | a dependent pair has a struct type with the given field names and a number as first field |
| Elaborator.GetAnd | app/src/language/engine/compile.ts:1423-1450 | `e1 && e2` checks exactly when nothing or a conjunction is required, and has the pair of the parts' types |
| Elaborator.GetAs | app/src/language/engine/compile.ts:1451-1465 | `e as T` has type `T`, which must agree with the requirement |
| Elaborator.GetDot | app/src/language/engine/compile.ts:1466-1497 | a projection has the projected half's type |
| Elaborator.GetArith | app/src/language/engine/compile.ts:1685-1721 | `+`/`*` check exactly on arithmetic operands and build the operation of their types |
| Elaborator.GetFor | app/src/language/engine/compile.ts:1498-1681 | an accepted loop has an `N` iteration variable, a header over it and a `for` continuation; with an inferred invariant its type is the requirement renamed to the iteration variable and back |
| Elaborator.ForBody | app/src/language/engine/compile.ts:1569-1681 | the loop type is the invariant with the bound substituted |
| Elaborator.SwitchType | app/src/language/engine/compile.ts:305-411 | a switch needs a disjunction with two well-formed cases; with a requirement its type is the requirement |
| Elaborator.Block | app/src/language/engine/compile.ts:607-909 | a block's diagnostics extend those collected so far |
| Elaborator.BlockLoop | app/src/language/engine/compile.ts:654-908 | the statement loop computes `Block` |
| Elaborator.Statement | app/src/language/engine/compile.ts:654-904 | only `return` and `switch` leave a block, with the required type when there is one |
| Elaborator.GenericTypedefStatement | app/src/language/engine/compile.ts:800-844 | a generic typedef binds its name exactly when every parameter is well constrained |
| Elaborator.ConstStatement | app/src/language/engine/compile.ts:655-689 | `const` appends a binding to the continuation and binds the tagged checked type; a failure changes nothing |
| Elaborator.MultiConstStatement | app/src/language/engine/compile.ts:690-764 | destructuring needs a struct and appends one binding |
| Elaborator.ReturnStatement | app/src/language/engine/compile.ts:765-791 | `return` gives the checked result; a wrong keyword adds an error with a fix |
| Elaborator.LogExtras | app/src/language/engine/compile.ts:847-884 | inside a function each logged value adds one log entry |
| ElaboratorProperties.FailureRecovers | app/src/language/engine/compile.ts:240-304 | a failing expression still has the required type (or `any`), a failing continuation and an error |
| ElaboratorProperties.MismatchReported | app/src/language/engine/compile.ts:268-304 | a type that is not assignable to the requirement is replaced by it with a "not assignable" error |
| ElaboratorProperties.SymmSwapsSides | app/src/language/engine/compile.ts:1018-1045 | `e.symm()` on `a == b` has type `b == a` |
| ElaboratorProperties.TransChainsSides | app/src/language/engine/compile.ts:1046-1084 | `e.trans(f)` on `a == b` and `b == c` has type `a == c` |
| ElaboratorProperties.ForMeetsRequire | app/src/language/engine/compile.ts:1542-1681 | a loop with an inferred invariant has exactly the required type, when no number binder inside the requirement is named after the bound or the iteration variable |
| ElaboratorProperties.BlockWithoutTerminator | app/src/language/engine/compile.ts:905-909 | a block with no `return`/`switch` left is `any` at top level and an error inside a function |
| ElaboratorProperties.TopLevelNeverThrows | app/src/language/engine/compile.ts:885-909 | a top-level block always produces a result |
| ElaboratorProperties.BlockMeetsRequire | app/src/language/engine/compile.ts:765-791 | a block checked against a requirement has that type or `any` |
| ElaboratorProperties.ErrorDoesNotStopBlock | app/src/language/engine/compile.ts:901-903 | a failing statement is reported and checking continues with the next one |
| ElaboratorProperties.WrongKeywordReported | app/src/language/engine/compile.ts:770-790 | a wrong return keyword is reported with a fix to the right keyword |
| ElaboratorProperties.CodeToType | app/src/language/engine/compile.ts:1741-1786 | checking a program in the axiom context always succeeds and gives the printed type and diagnostics |
| Grammar.TokenToBounds | app/src/language/parsing/grammar.ts:43-48 | a token covers its text from its offset; a token without text is an error |
| Grammar.DataToBounds | app/src/language/parsing/grammar.ts:49-69 | the bounds loop computes `Span` |
| Grammar.SpanIsTight | app/src/language/parsing/grammar.ts:49-69 | the span is absent exactly when no part has a position, covers every part and is attained at both ends |
| Grammar.CurryArrow | app/src/language/parsing/grammar.ts:157-167 | a multi-parameter arrow nests into one arrow per parameter |
| Grammar.ArrowsNestInOrder | app/src/language/parsing/grammar.ts:157-167 | the nested arrows list the parameters in order and end in the body |
| Grammar.NestLambdas | app/src/language/parsing/grammar.ts:213-233 | nesting gives a lambda |
| Grammar.CurryLambdaLoop | app/src/language/parsing/grammar.ts:213-233 | the currying loop computes `CurryLambda` |
| Grammar.LambdasNestInOrder | app/src/language/parsing/grammar.ts:213-233 | nested lambdas list the parameters in order, the annotation on the innermost |
| Grammar.LambdaCurries | app/src/language/parsing/grammar.ts:213-233 | a curried multi-parameter lambda keeps every parameter and the body |
| Grammar.FunctionToConst | app/src/language/parsing/grammar.ts:234 | `function f(…) {…}` is an unannotated `const` bound to the curried lambda |
| Grammar.CurryCall | app/src/language/parsing/grammar.ts:244-254 | the argument loop nests one call per argument |
| Grammar.CallsCurry | app/src/language/parsing/grammar.ts:244-254 | the nested calls give back the function and the arguments in order |
| Grammar.StructLiteral | app/src/language/parsing/grammar.ts:264-281 | braces with fields `left` and `right` in either order build a conjunction; otherwise a two-field struct |
| Grammar.PairOrderIrrelevant | app/src/language/parsing/grammar.ts:264-281 | the order of the fields does not matter |
| Grammar.MakeOr | app/src/language/parsing/grammar.ts:282-292 | `left`/`right` pick `makeLeft`/`makeRight`; any other name is an error |
| Grammar.IdentifierToken | app/src/language/parsing/grammar.ts:310-316 | an identifier is accepted exactly when it has text that is not an object-prototype name |
| Grammar.Classify | app/src/language/parsing/parse.ts:26-38 | one parse is the result; none means an unexpected end; more than one is an ambiguity |

## Left out

- The nearley parser engine and the moo lexer are not modelled. The model takes parsed trees as values and models only the tree-building actions and `safeParse`'s outcome rule.
- The `{...d[0], meta: dataToBounds(d)}` actions that only recompute a node's position are not modelled separately. `Grammar.DataToBounds` models the computation they share.
- `string2Type.ts` is not modelled. Axiom statements are written as type trees, and `Axioms.EqReflParses` and `Axioms.AddZeroParses` relate two of them to their text.
- `ui.ts`, the editor and CodeMirror glue, the pages and the tutorial are outside the core.
- Asynchronous execution is not modelled: promises, the `setTimeout` yield inside `for` loops and the interpreter kill switch. Continuations run synchronously.
- `Runtime.Run` and the functions beside it take a fuel bound. A run that runs out of fuel is an error, so non-termination is not distinguished from failure.
- `console.log` is modelled only by its diagnostic entries (`Elaborator.LogExtras`). The deferred output promise, the counter, the cancellable timer and the printed value are left out, and so is the top-level run-time context (`topImplCtx`) that feeds them.
- The `hardcodedImpls` compiler option and the `exerciseIO` bookkeeping are not modelled. Both only feed the editor.
- `code2Stuff`'s `implRet` is a constant string. `ElaboratorProperties.CodeToType` returns only the printed type and the diagnostics.
- Types.RemoveNumberIndex: the source's regular expression does not match across line terminators. Names are identifiers, so the model strips trailing digits from any string.
- Runtime.ForLoop: the bound is a natural number in the model. A non-numeric bound is a run-time error in the source and is not modelled.
- EngineUtils.RewriteType: its own contract states only that renaming to a variable keeps the size. Elimination, capture avoidance, totality and identity are stated by the lemmas beside it.
- Elaborator.Block: its own contract states only that diagnostics accumulate. Its results are characterised by `ElaboratorProperties.BlockWithoutTerminator`, `TopLevelNeverThrows`, `BlockMeetsRequire`, `ErrorDoesNotStopBlock` and `WrongKeywordReported`.
- TypeResolution.Resolve: instantiates generics with the corrected renaming loop, which tests each later parameter under its current name, not with the loop as written at typeAstToTypeTree.ts:195-205 (see "## Findings"). Where an argument mentions a later parameter's declared name after that parameter was renamed, as in `G<c, c, 0>`, its result differs from the source's. `ResolveOpt`, every elaborator rule that resolves an annotation, and `CodeToType` inherit this. The loop as written is `RenameLaterLoopAsWritten` and `SubstituteAllAsWritten`.
- TypeResolution.RenameLaterLoop: models the corrected reading of typeAstToTypeTree.ts:195-205, not the loop as written. The loop as written is `RenameLaterLoopAsWritten`.
- TypeResolution.InstantiateAgrees: relates the instantiation loop to the corrected substitution `SubstituteFrom`, not to what typeAstToTypeTree.ts:195-205 computes. The two agree when no argument has a later parameter's name free (`InstantiateWithoutCapture`).
- TypeResolution.GenericCallResolves: equates `Resolve` with the corrected `SubstituteAll`, which differs from the source on `G<c, c, 0>`.
- Assignability.RenameRoundTrip: proved only when no number binder inside the tree is named `x` or `y`. Otherwise the substitution renames that binder to a fresh name, and the round trip gives an alpha-variant rather than the tree.
- Assignability.AlphaEquivalentArrows: proved in both directions (with `AlphaEquivalentArrowsReverse`), but only when no number binder inside the codomain is named after either binder. Nested quantifiers under other names are covered. With such a binder, the model would need assignability to hold up to renaming of inner binders, which is not proved. `ArrowAssignable` states the arrow case for all arrows.
- TypingRules.LambdaMeetsRequire: same premise as `AlphaEquivalentArrows`: no number binder inside `B` is named `x` or `y`.
- TypingRules.LoopMeetsRequire: same premise as `RenameRoundTrip`: no number binder inside the requirement is named after the bound or the iteration variable.
- ElaboratorProperties.ForMeetsRequire: same premise as `LoopMeetsRequire`.
- Elaborator.GetFor: its contract gives the requirement renamed to the iteration variable and back. That this is the requirement itself is `ForMeetsRequire`, under that lemma's premise on binder names.
- Elaborator.GetGenericCall: its contract states nothing about the diagnostics it returns.
- Elaborator.GetRing: its contract states nothing about the diagnostics it returns.
- Elaborator.GetReplaceAll: its contract states nothing about the diagnostics it returns.
- Elaborator.GetApply: its contract states nothing about the diagnostics it returns.
- Unknown names are reported as "unknown variable [object Object]" and "typeAstToTypeTree: unknown variable [object Object]". These are what the source's template strings print when given an identifier node.
- Two-field structs: every producer of struct types and struct literals builds exactly two fields, so the source's checks for other lengths cannot fail. The model's struct datatypes have two fields.
- The key string that `termKey` builds to group terms is not modelled. Terms are grouped on the variable map itself, which has the same effect because variable names are identifiers.

## Findings

| source | as written | input that shows it | evidently intended | confidence | as-written member | corrected member |
|---|---|---|---|---|---|---|
| app/src/language/engine/typeAstToTypeTree.ts:195-205 | Before substituting argument `i`, the loop tests and renames each later parameter `j` under its declared name, even when an earlier argument has already renamed it. It then records the new name for `j`. | `type G<a extends N, b extends N, c extends N> = a + b == c;` instantiated as `G<c, c, 0>` gives `(0 + c) == c_2`. The `0` replaces the first argument's `c`, and the third parameter is never substituted. | Each later parameter is tested and renamed under its current name, so `G<c, c, 0>` is `(c + c) == 0`. Line 199 records the new name with `renames.set(j, newName)` and lines 206-208 read it back as parameter `j`'s name, so the recorded name is meant to be the one checked. | not executed | TypeResolution.SumInstantiatedAsWritten | TypeResolution.SumInstantiated |

The resolver in this model (`TypeResolution.Resolve`) uses the corrected loop.
