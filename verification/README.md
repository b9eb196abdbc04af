# Verified models of ucc

A model, in Dafny 4.11, of the self-contained algorithms of the C compiler ucc: its preprocessor `cpp2`, its
compiler proper `cc1`, and the containers of `util`. `dafny verify dfyconfig.toml` checks all of it.

Code that changes state is modelled as classes whose fields are the source's variables, with methods that
follow the source's functions and loops. Each method is tied by its contract to a function of the state it
began with, and the theorems are lemmas about those functions.

| Files | Component | Main result |
|---|---|---|
| Initialiser, InitialiserReading, RangeInit | initialisers, `src/cc1/decl_init.c` | elided braces are put back; lists without designators give what they say; the last write to an array element wins, while range copies are relocated |
| Designators, DesignatorScalars, DesignatorBraces, DesignatorOrder, DesignatorStandard | designated initialisers of nested structures and arrays, `src/cc1/decl_init.c` | every list with designators and braces, right or wrong, is normalised to what an independent reading of it says; the condition under which that reading is that of C |
| ExprParser, ExprRoundTrip, ExprTables | expressions, `src/cc1/parse_expr.c` | the parser accepts exactly the texts of grammatical trees and returns those trees; which operators there are and how each two of them group |
| Declarator, DeclaratorRoundTrip, DeclaratorTables, DeclaratorPrinter, DeclaratorParser | declarators, `src/cc1/parse_type.c`, `src/cc1/type.c` | parsing a printed type gives it back, exactly unless a function returns a qualified type; a declarator is parsed exactly if it is written as one, with any parentheses and repeated qualifiers |
| TypeGraph, TypeCompare, TypeAnswers | types, `src/cc1/type_nav.c`, `src/cc1/type_is.c`, `src/cc1/type.c`, `src/cc1/btype.c` | nodes are the same exactly when they unfold to the same structure; what each answer of a comparison means and how it changes when the operands are swapped |
| Conditional, ConditionalRefinement, ConditionalReading, ConditionalRuns | `#if` and its relatives, `src/cpp2/directive.c` | the flat machine computes the structured meaning, with the exact condition, and accepts nothing but the lines of well-nested programs |
| IfExpr, IfExprEval, IfUnsigned, IfTables | `#if` expressions, `src/cpp2/expr.c` | what is grouped as in C; that every part of an expression is worth what it is in C exactly if no number is too large and every unsigned operator has operands for which signed arithmetic does; what is evaluated although C skips it; every node is freed once |
| MacroPaint | macro expansion, `src/cpp2/eval.c`, `src/cpp2/snapshot.c` | exactly the macros not being expanded already are entered and counted; paint is restored, recursion is bounded by the number of macros |
| LineMarkers | joined lines and line markers, `src/cpp2/preproc.c`, `src/cc1/tokenise.c` | the current name and flag always agree; line numbers agree exactly if no file is entered or ends around a continued line and every line is printed; the stacks agree exactly unless a file includes itself |
| Dynmap, DynmapTable | hash table, `src/util/dynmap.c` | the table is a finite map |
| Inlining | inlining of calls, `src/cc1/inline.c` | everything is restored; parameters read their innermost binding exactly without a clash |
| Packing, StructLayout, LayoutTables, BitFieldFit, BitFieldExact, NestedLayout, StructFold | structure layout, `src/cc1/fold_sue.c`, `src/cc1/pack.c` | which declared members and bit-fields are laid out disjoint and inside, as they stand and whatever follows them; every scalar is aligned |
| Constants | constants, `src/cc1/const.c`, `src/cc1/num.c` | what signed and unsigned folding and truncation compute, with the exact conditions |
| Common, Arithmetic | shared | |

## Where the code differs from what it is for

Each of these is a lemma with a concrete input, beside a lemma that says exactly when the code does meet its
purpose.

- In an aggregate without braces of its own, the brace of the first sub-object is taken by the aggregate
  (`InitElision.BraceTakenByOuter`), as the language has it too.
- After a braced item behind two or more designators, `.a.b = { 1 }, 2`, initialisation goes on after `a`, not after
  `a.b` (`DesigBraces.BraceSkipsMember`), and `.a.b = {}` clears all of `a` (`DesigBraces.EmptyBraceClears`). The
  first is as it should be exactly where the designated part is the last of `a`
  (`DesigBraces.GoesOnAfterDesignatedIff`), the second exactly where the rest of `a` is zero
  (`DesigBraces.EmptyBraceIff`).
- Qualifiers of a function's return type are dropped while parsing, unless `restrict` is among them
  (`DeclRoundTrip.ReturnQualifiersAreDropped`).
- Qualifying an array that has qualifiers of its own, above the array, loses some of them, so that it is not
  idempotent (`TypeStructure.VolatileArrayLoses`). The declarator parser makes such arrays, and
  `TypeGraph.TypeNav.QualifyVolatileArray` builds one.
- The condition of an `#elif` is evaluated even when the whole section lies in a skipped group
  (`CondRefinement.SkippedElifIsEvaluated`).
- `a == b * c + d` in `#if` is grouped as `(a == b * c) + d` (`IfGrammar.MultiplicationFirst`).
- `0 && (1 + 1 / 0)` in `#if` ends the preprocessor: an operator inside a skipped operand evaluates its own right
  operand (`IfMeaning.NestedSkipIsLost`).
- Numbers in `#if` are all `long`: a suffix `U` is dropped, so that `-1 < 0U` is 1
  (`IfConversions.NegativeBelowUnsigned`), and numbers from 2^63 on are cut to the largest `long`
  (`IfConversions.LargestNumberIsCut`).
- A parameter that is spilled in an inlined body reads the value of an enclosing inlining of the same function
  that did not spill it (`InlineSlots.SpilledParameterReadsOuterArgument`).
- An `#include` that is continued over two lines shifts the line numbers of the file it enters by one
  (`MarkerProtocol.ContinuedInclude`). So does a file that ends in a backslash, for the rest of its includer, and a
  directive without a name, for which no line is printed (`MarkerProtocol.LineIsAheadBy`,
  `CondRefinement.OneLineOutPerLineIn`).
- When a file that included itself ends, its entry stays on the compiler's stack (`MarkerProtocol.OutOfStep`).
- The storage reserved for a group of bit-fields is that of the widest type *not wider* than the bytes of its
  first field, so that members overlap bit-fields, and bit-fields lie outside structures and unions
  (`LayoutSoundness.MemberInsideBitField`, `BitFieldOutsideStruct`, `BitFieldOutsideUnion`).
- The mask form of rounding up loses the bits from 2^32 on, although its type is wider (`Packing.MaskFormWraps`).
- Unsigned products and left shifts are corrected once, which is not enough: the 32-bit `65536u * 131072u` folds to
  2^32 (`ConstFold.ProductOutOfRange`).
- Comparisons are folded by the type of their result, which is `int`, so that unsigned operands are ordered as signed
  ones: `18446744073709551615ULL < 1ULL` folds to 1 (`ConstFold.LargestBelowOne`).

A group of bit-fields that passes the bytes reserved for it is harmless whatever follows only if it ends exactly on the
padding after it (`BitFieldFit.FilledGroup`). Otherwise the padding before the next member, or at the end, may still
cover it (`BitFieldExact.PaddingCovers`); `BitFieldExact.SoundIffPadded` says exactly when.

## Model

| member | source | states |
|---|---|---|
| InitElision.ElisionIsUndone | src/cc1/decl_init.c:1120-1267 | for every type of scalars, arrays and structures and every value of it, written with any readable choice of inner braces: the result is the fully braced tree, exactly its own items are consumed, and no excess is reported |
| InitElision.SubsUndone | src/cc1/decl_init.c:829-1079 | the same for the sub-objects of an aggregate from any one on |
| InitElision.NoItemTwice | src/cc1/decl_init.c:1410-1449 | the values and zeroed slots of the tree, together with the values that are left, are no more than those of the items, and they are fewer, some being dropped, exactly if an excess is reported |
| InitElision.BracesLost | src/cc1/decl_init.c:1153-1175 | any other choice of braces gives another tree |
| InitElision.ElisionIsUndoneIff | src/cc1/decl_init.c:1120-1267 | elision is undone exactly for the readable choices: an aggregate without braces starts with a braced one only where nothing else is written between the two |
| InitElision.BraceTakenByOuter | src/cc1/decl_init.c:1153-1175 | in `{ { 1 }, { 2 } }` for an `int [1][2][1]` the first inner brace is taken by the `[2]`, and the rest is excess |
| InitOrder.PositionalOrder | src/cc1/decl_init.c:578-765 | an undesignated list gives the scalars of an object their values in address order, zero where it runs out, and leaves exactly the values beyond them |
| InitOrder.PositionalOrderOfSubs | src/cc1/decl_init.c:829-1079 | the same for the sub-objects from any one on |
| InitReading.BracedScalar | src/cc1/decl_init.c:494-513 | a scalar in braces to any depth has the value of the first expression inside, or zero, takes one item, and an excess is reported exactly if some pair of braces holds more than one item |
| InitReading.EveryNest | src/cc1/decl_init.c:494-513 | every initialiser is an expression or `{}` in so many braces |
| InitReading.SameTree | src/cc1/decl_init.c:1120-1267 | for every list without designators, braces anywhere, this normalisation and the one with designators give the same tree and take the same items |
| InitReading.BracedIsRead | src/cc1/decl_init.c:1153-1225 | so an object initialised by any braced list without designators has the scalars that the list says |
| InitReading.BareIsRead | src/cc1/decl_init.c:1227-1266 | and so has one without braces of its own, which takes just the items that the reading takes |
| InitCode.BraceUpR | src/cc1/decl_init.c:1410-1449 | the shared cursor is left where the specification leaves it, with its tree |
| InitCode.BraceUpScalar | src/cc1/decl_init.c:456-533 | a scalar takes one item, steps through a brace if there is one, reports more in the brace as excess, and is zero without items, as InitReading.BracedScalar says |
| InitCode.BraceUpAggregate | src/cc1/decl_init.c:1120-1267 | an aggregate takes a leading brace for itself with a cursor of its own, and otherwise its items from the shared cursor |
| InitCode.BraceUpSubObjects | src/cc1/decl_init.c:829-1079 | the loop over members or elements takes items for each in turn until either ends |
| DesigOrder.LastWriteWins | src/cc1/decl_init.c:829-1079 | in that reading of a list of expressions every scalar holds what the last item that sets it says, and keeps its value if none does; an item without designators sets the scalar after that of the item before it, and items are taken until one would set a scalar beyond the end (section 6.7.9 of ISO C11) |
| DesigOrder.ChangeFits | src/cc1/decl_init.c:882-1060 | what an item is for, in the order of scalars, lies within the object, and so does the cursor after it |
| DesigOrder.ListIsRead | src/cc1/decl_init.c:829-1079 | normalising any list of expressions and braced lists with chains of designators such as `.a[2].b`, for structures and arrays nested to any depth and whatever was initialised before, ends in an error exactly where the reading of the list does; otherwise it gives the scalars of that reading, takes as many items, and leaves the next item its designators |
| DesigOrder.RunIsRead | src/cc1/decl_init.c:1227-1266 | reading the items up to the next designated one within a sub-object, from the designated part on, is reading them within the whole object, and reading goes on after the sub-object with what it does not take |
| DesigOrder.ObjectIsRead | src/cc1/decl_init.c:1153-1225 | an object initialised by a braced list is what the list says, from zeros, whatever it held before |
| DesigStandard.ReadSame | src/cc1/decl_init.c:829-1079 | under that condition the reading of the source and that of C are the same, errors included |
| DesigStandard.BracedMeetsC | src/cc1/decl_init.c:1120-1267 | an object initialised by a braced list is what C says, lists nested in it included, if every list behind designators designates the last part of what the first of them names or is followed by another designated item, and, if it is empty, the rest of that is zero (section 6.7.9 of ISO C11) |
| DesigScalars.Part | src/cc1/decl_init.c:1040-1045 | replacing a sub-object, or putting one further on, changes its own scalars and no others |
| DesigScalars.Designates | src/cc1/decl_init.c:600-625 | a member designator for an array, an index for a structure, and either beyond the end are errors |
| DesigScalars.DesignatesPart | src/cc1/decl_init.c:600-764 | the other designators of a scalar set that one and nothing else |
| DesigBraces.BracedAlone | src/cc1/decl_init.c:1153-1225 | a braced item behind designators takes none of the items after it |
| DesigBraces.AfterBrace | src/cc1/decl_init.c:882-1060 | after it the loop goes on with the sub-object after the one that the first designator names |
| DesigBraces.GoesOnAfterDesignatedIff | src/cc1/decl_init.c:1153-1215 | that is the one after the designated part exactly where the designated part is the last of what the first designator names; otherwise parts are passed over |
| DesigBraces.BraceReplaces | src/cc1/decl_init.c:1153-1215 | a designated list that is not empty replaces the designated part by what it makes of a new one, and nothing else |
| DesigBraces.EmptyBraceClears | src/cc1/decl_init.c:1217-1225 | an empty list clears all of the aggregate it is met in, whatever designators still follow |
| DesigBraces.EmptyBraceIff | src/cc1/decl_init.c:1217-1225 | that clears the designated part and nothing else exactly where the rest of the aggregate is zero |
| DesigBraces.BraceSkipsMember | src/cc1/decl_init.c:1153-1215 | in `struct { struct { int b, c; } a; int d; } x = { .a.b = { 1 }, 2 }` the 2 goes to d, and without the inner braces to c |
| DesigCode.BraceUpR | src/cc1/decl_init.c:1410-1449 | the shared cursor, with the designators that its item still has, is left where the specification leaves it, with its tree; it gives up exactly where the source dies |
| DesigCode.BraceUpScalar | src/cc1/decl_init.c:456-533 | the same for a scalar, which no designator can designate |
| DesigCode.FindDesig | src/cc1/decl_init.c:1081-1090 | the loop stops at the next designated item |
| DesigCode.BraceUpAggregate | src/cc1/decl_init.c:1120-1267 | the same for an aggregate, with what it held before |
| DesigCode.BraceUpBraced | src/cc1/decl_init.c:1153-1225 | the branch for braced items: designators that still follow lead into what the object held, and without them that is dropped |
| DesigCode.BraceUpRun | src/cc1/decl_init.c:1227-1266 | the two branches for other items |
| DesigCode.BraceUpCut | src/cc1/decl_init.c:1227-1247 | with a designated item to come the list is cut off before it, and the cursor is moved by what was used |
| DesigCode.BraceUpWhole | src/cc1/decl_init.c:1248-1266 | without one the items are pulled from the shared cursor |
| DesigCode.BraceUpSubObjects | src/cc1/decl_init.c:829-1079 | the loop over members or elements, with designators followed in place |
| RangeInitSpec.LastWriteWins | src/cc1/decl_init.c:578-765 | for any mix of positional, `[i]=` and `[i ... j]=` items, read off their designators alone: each element holds the value of the last item whose range it is in, or what it held before; a positional item is for the element after those of the item before it; the items taken are those before the first positional one beyond the end; and an error occurs exactly at the first item with a negative or out-of-bounds index or a deeper designator |
| RangeInitSpec.LastLater | src/cc1/decl_init.c:735-760 | what one item sets is kept where no later one is for the same element |
| RangeInitSpec.StaysInBounds | src/cc1/decl_init.c:625-665 | no element at or beyond the array's size is written |
| RangeInitCode.PadInsert | src/util/dynarray.c:30-59 | an entry is put at an index, with null entries before it where the array was shorter, and all others are kept |
| RangeInitCode.RangeStoreAdd | src/cc1/decl_init.c:535-566 | the store is reallocated with one more entry, and every copy refers to the same entry of the new store |
| RangeInitCode.TakeOffsets | src/cc1/decl_init.c:540-552 | every copy's index into the old store is recorded |
| RangeInitCode.Relocate | src/cc1/decl_init.c:553-565 | every copy is pointed to the recorded index of the new store |
| RangeInitCode.BraceUpArray2 | src/cc1/decl_init.c:578-765 | the array of initialisers with its copies stands for the specified elements, and the cursor is after the items taken |
| RangeInitCode.Designate | src/cc1/decl_init.c:600-665 | both ends of the range that an item designates, with an error exactly for a negative or out-of-bounds index or a deeper designator |
| RangeInitCode.PutItem | src/cc1/decl_init.c:700-755 | one item replaces exactly the elements of its range |
| RangeInitCode.StoreCopy | src/cc1/decl_init.c:711-731 | the value of a range goes to the end of a store that all earlier copies refer to |
| RangeInitCode.AddRange | src/cc1/decl_init.c:715-753 | every element of a range refers to one stored value, and the earlier ranges keep theirs |
| ExprParser.Parser.ParseExp | src/cc1/parse_expr.c:654-668 | the token stream is left where the grammar leaves it, with its tree: comma, nested to the right |
| ExprParser.Parser.ParseAssignment | src/cc1/parse_expr.c:626-653 | the same for assignment, which associates to the right, and compound assignment |
| ExprParser.Parser.ParseConditional | src/cc1/parse_expr.c:604-624 | the same for `?:` with and without its middle operand |
| ExprParser.Parser.ParseBinary | src/cc1/parse_expr.c:546-603 | the same for the ten levels of binary operators, which ExprTables.TwoOperators lists, in a loop that associates to the left |
| ExprParser.Parser.ParseUnary | src/cc1/parse_expr.c:469-544 | the same for prefix operators, dereference, addresses and label addresses |
| ExprParser.Parser.ParsePostfix | src/cc1/parse_expr.c:399-467 | the same for the loop of subscripts, calls, members and steps |
| ExprParser.Parser.ParseArgs | src/cc1/parse_expr.c:670-684 | the same for the arguments of a call |
| ExprParser.Parser.ParsePrimary | src/cc1/parse_expr.c:313-397 | the same for identifiers, numbers and parentheses |
| ExprParser.Parser.Accept | src/cc1/parse_expr.c:546-581 | a token is eaten exactly if it is the current one |
| ExprRoundTrip.BinaryReaches | src/cc1/parse_expr.c:546-581 | reading the text of an expression brings the loop of a level to what follows it, even another operator of that level |
| ExprRoundTrip.PostfixReaches | src/cc1/parse_expr.c:399-461 | the same for the loop of postfix operators |
| ExprRoundTrip.ReadsBack | src/cc1/parse_expr.c:313-668 | the text of every grammatical expression is read back, and parsing stops at the first token that cannot continue it |
| ExprRoundTrip.AtFaithful | src/cc1/parse_expr.c:313-668 | whatever is returned is grammatical at its level, its text and the remainder are the input, and the remainder does not continue it |
| ExprRoundTrip.ParseIsInverseOfText | src/cc1/parse_expr.c:313-668 | a tree and a remainder are returned exactly when the tree is grammatical, its text before the remainder is the input, and the remainder is foreign |
| ExprRoundTrip.Unambiguous | src/cc1/parse_expr.c:313-668 | grammatical expressions with the same text are the same |
| ExprRoundTrip.ParenthesisedIsGrammatical | src/cc1/parse_expr.c:582-603 | adding parentheses where precedence requires them makes every buildable tree grammatical, changes nothing else, and adds none where none is needed |
| ExprRoundTrip.ParsePrintedTree | src/cc1/parse_expr.c:313-668 | every tree, printed with only the parentheses that precedence requires, is parsed back, and parsing stops after it |
| ExprRoundTrip.ParenthesesAreNeeded | src/cc1/parse_expr.c:582-603 | no text at all parses to a tree that lacks a needed parenthesis |
| ExprTables.TwoOperators | src/cc1/parse_expr.c:582-603 | how `a op1 b op2 c` parses for any two binary operators, by the rows of the list, from `*` `/` `%` down to the logical or: to the left within a row, the tighter row first otherwise |
| ExprTables.OneRow | src/cc1/parse_expr.c:582-603 | every operator is in one row, but for `!` and `~`, which are in none |
| ExprTables.PrefixOperator | src/cc1/parse_expr.c:469-544 | which operators may stand before an operand and the tree of each; the others end the parse |
| ExprTables.CompoundOperator | src/cc1/tokconv.c:60-135 | which tokens assign with an operator, and which one |
| ExprTables.Brackets | src/cc1/parse_expr.c:399-461 | subscripts and calls |
| ExprTables.Members | src/cc1/parse_expr.c:399-461 | which of `.` and `->` is which |
| ExprTables.Steps | src/cc1/parse_expr.c:399-544 | steps before and after an operand, up and down |
| ExprTables.PrefixTighter | src/cc1/parse_expr.c:469-603 | a prefix operator binds tighter than every binary one, on either side of it |
| ExprTables.SuffixTighter | src/cc1/parse_expr.c:399-544 | a suffix binds tighter than a prefix operator |
| ExprTables.ConditionalLooser | src/cc1/parse_expr.c:604-624 | `?:` binds more loosely than every binary operator, before and after it |
| ExprTables.ConditionalToTheRight | src/cc1/parse_expr.c:604-624 | `?:` groups to the right |
| ExprTables.MiddleLeftOut | src/cc1/parse_expr.c:604-624 | its middle operand may be left out |
| ExprTables.AssignmentToTheRight | src/cc1/parse_expr.c:626-653 | assignment groups to the right |
| ExprTables.AssignmentLooser | src/cc1/parse_expr.c:626-653 | and binds more loosely than `?:` |
| ExprTables.CommaLoosest | src/cc1/parse_expr.c:654-668 | a comma binds more loosely than assignment |
| DeclRoundTrip.LayersReadBack | src/cc1/parse_type.c:1189-1430 | the declarator printed for any layers and name is parsed into those layers and that name, and parsing stops after it |
| DeclRoundTrip.DeclFaithful | src/cc1/parse_type.c:1189-1430 | whatever declarator is returned, the text consumed spells its layers and its name, up to redundant parentheses and repeated qualifiers |
| DeclRoundTrip.WrittenRead | src/cc1/parse_type.c:1189-1430 | every written declarator is parsed into its layers and its name |
| DeclRoundTrip.ParsedIffWritten | src/cc1/parse_type.c:1189-1430 | before tokens that cannot extend a declarator, layers and a name are returned exactly if some declarator spells them in the text, with whatever parentheses and repeated qualifiers, and its name is there only if asked for and missing only if it may be |
| DeclRoundTrip.SuffixedReadsBack | src/cc1/parse_type.c:1362-1378 | the same after an array or function suffix has been read, where pointers stand in parentheses |
| DeclRoundTrip.BuildFromLayers | src/cc1/parse_type.c:1454-1552 | building a type from the layers of a declared type gives it back without the qualifiers of return types |
| DeclRoundTrip.Stripped | src/cc1/parse_type.c:1432-1452 | dropping the qualifiers of return types keeps those of the type itself |
| DeclRoundTrip.StrippedIsSame | src/cc1/parse_type.c:1432-1452 | nothing is dropped exactly when no function in the type returns a qualified type without `restrict` |
| DeclRoundTrip.ParseUndoesPrint | src/cc1/parse_type.c:1454-1552 | parsing what is printed for a declared type and name gives the type, the name and the rest exactly when no return type loses qualifiers, and the stripped type otherwise |
| DeclRoundTrip.ReturnQualifiersAreDropped | src/cc1/parse_type.c:1432-1452 | a function returning a const pointer is read back without the const |
| DeclTables.QualifiersRead | src/cc1/parse_type.c:1380-1430 | a pointer, or block for `^`, has the qualifiers that are written behind it, in any order and however often |
| DeclTables.PointerDenotes | src/cc1/parse_type.c:1454-1552 | and is of the type declared, with them on the pointer itself |
| DeclTables.SuffixFirst | src/cc1/parse_type.c:1362-1430 | a suffix binds tighter than a pointer: `*x[3]` is an array of pointers, for either pointer and any suffix |
| DeclTables.ParenthesesFirst | src/cc1/parse_type.c:1189-1258 | unless the pointer is in parentheses: `(*x)[3]` is a pointer to an array |
| DeclTables.NearestOutermost | src/cc1/parse_type.c:1362-1378 | of two suffixes the one next to the name makes the outermost type |
| DeclTables.PointerPrinted | src/cc1/type.c:507-579 | qualifiers are printed behind the pointer that they belong to, `const` before `volatile` before `restrict` |
| DeclTables.PointerInSuffix | src/cc1/type.c:507-680 | an array of pointers, or a function that returns one, is printed without parentheses |
| DeclTables.SuffixInPointer | src/cc1/type.c:507-680 | a pointer to an array or function is printed in parentheses |
| DeclTables.PointerInPointer | src/cc1/type.c:507-579 | a pointer to a pointer without, the outer one next to the name |
| DeclTables.SuffixInSuffix | src/cc1/type.c:617-675 | and suffixes of suffixes without, the outer one next to the name |
| DeclPrinter.ChainLayers | src/cc1/type.c:750-790 | the chain of parent links from the base outwards has the layers of the type |
| DeclPrinter.PrintedNode | src/cc1/type.c:507-680 | what a node prints before and after the nodes outside it, with a parenthesis exactly where a pointer is under a suffix, adds up to the declarator |
| DeclPrinter.BasePrinted | src/cc1/type.c:760-790 | the qualifiers of the base are printed first, in that order, whatever is declared of it |
| DeclPrinter.TypePrinter.TypeToStr | src/cc1/type.c:760-790 | the base's qualifiers and then the declarator of the type's layers around the name are appended to the buffer |
| DeclPrinter.TypePrinter.SetParent | src/cc1/type.c:750-758 | the parent links from the base outwards are set up |
| DeclPrinter.TypePrinter.AddStr | src/cc1/type.c:581-680 | one node and all outside it print what the specification says |
| DeclPrinter.TypePrinter.AddPre | src/cc1/type.c:507-579 | what a node prints before the nodes outside it |
| DeclPrinter.TypePrinter.AddPost | src/cc1/type.c:617-675 | what a node prints after the nodes outside it |
| DeclParser.DeclParser.ParsedTypePtr | src/cc1/parse_type.c:1380-1430 | the list that is spliced together has the grammar's layers, followed by the list it started from |
| DeclParser.DeclParser.Splice | src/cc1/parse_type.c:1395-1427 | a new node goes before the inner list, and the outer list is hung after its last node |
| DeclParser.DeclParser.HangAfter | src/cc1/parse_type.c:1415-1427 | the walk to the end of a list joins another to it, and its own nodes keep their layers |
| DeclParser.DeclParser.ParsedTypeFuncOrArray | src/cc1/parse_type.c:1362-1378 | the same as for pointers, for the suffixes after the innermost part |
| DeclParser.DeclParser.ParsedTypeFunc | src/cc1/parse_type.c:1345-1360 | the same for parameter lists |
| DeclParser.DeclParser.ParsedTypeArray | src/cc1/parse_type.c:1260-1343 | the same for array suffixes, with qualifiers and an optional size |
| DeclParser.DeclParser.ParsedTypeNest | src/cc1/parse_type.c:1189-1258 | the same for names, nested declarators and what is not to be nested |
| DeclParser.DeclParser.ParseTypeDeclaratorToType | src/cc1/parse_type.c:1454-1552 | the type is built from the layers that the grammar reads, and the name and the remaining tokens are the grammar's |
| TypeStructure.QualifiedAddsExactly | src/cc1/type_nav.c:402-439 | qualifying a type that is no array adds exactly the qualifiers asked for and changes nothing below; no qualifier is repeated |
| TypeStructure.QualifiedIsIdempotent | src/cc1/type_nav.c:402-439 | qualifying twice is qualifying once exactly when no array has a qualifier of its own, among those asked for, that what lies below it lacks |
| TypeStructure.PlainArraysAreIdempotent | src/cc1/type_nav.c:402-446 | so it is through all arrays that have no qualifiers of their own |
| TypeStructure.ArrayQualified | src/cc1/type_nav.c:402-439 | qualifying an array of any number of dimensions keeps all lengths, drops `static` from the dimensions that lack some of the qualifiers, and gives the elements just those that no array on the way has, unless one of the arrays has all that are left |
| TypeStructure.QualifiedArrayIsNotIdempotent | src/cc1/type_nav.c:424-434 | and is not for a `volatile` array qualified `const volatile` |
| TypeStructure.VolatileArrayLoses | src/cc1/type_nav.c:424-434 | which loses its own `volatile` the first time |
| TypeStructure.LayeredAddsExactly | src/cc1/type_nav.c:402-446 | without moving qualifiers to the elements, exactly those asked for are added to arrays too, and once is enough |
| TypeGraph.DistinctNodesUnfoldApart | src/cc1/type_nav.c:74-123 | in every valid graph two different nodes that are not source locations unfold to different structures |
| TypeGraph.OlderNodesKeep | src/cc1/type_nav.c:74-123 | adding nodes changes no older node's structure |
| TypeGraph.TypeNav.Search | src/cc1/type_nav.c:92-108 | the first candidate over the node whose shape is the one looked for, or none if all differ |
| TypeGraph.TypeNav.FindOrNew | src/cc1/type_nav.c:74-123 | the node returned has the shape asked for over the node given, the graph has only grown, and it is still valid, so that the node is an old one if there was one |
| TypeGraph.TypeNav.BtypeNode | src/cc1/type_nav.c:644-655 | one node for each basic type |
| TypeGraph.TypeNav.PtrTo | src/cc1/type_nav.c:341-348 | a pointer to the structure of the node, in a valid graph |
| TypeGraph.TypeNav.BlockOf | src/cc1/type_nav.c:268-275 | a block pointer to it |
| TypeGraph.TypeNav.ArrayOf | src/cc1/type_nav.c:133-205 | an array of it |
| TypeGraph.TypeNav.FuncOf | src/cc1/type_nav.c:229-266 | a function returning it |
| TypeGraph.TypeNav.DecayedPtrTo | src/cc1/type_nav.c:356-390 | a pointer that remembers the array it decayed from |
| TypeGraph.TypeNav.AtWhere | src/cc1/type_nav.c:634-642 | a source location does not change the structure |
| TypeGraph.TypeNav.SkipAll | src/cc1/type_is.c:46-76 | the loop over locations and qualifiers ends at the first other node |
| TypeGraph.TypeNav.Qualify3 | src/cc1/type_nav.c:402-446 | the structure is the qualified one, with the qualifiers on the elements of an array or above it as asked; the same node is returned exactly when nothing is to be added |
| TypeGraph.TypeNav.Qualify | src/cc1/type_nav.c:448-451 | the structure is the qualified one, with the qualifiers on the elements of an array |
| TypeGraph.TypeNav.NodesAreStructures | src/cc1/type_nav.c:74-123 | in every reachable state nodes that are not source locations are the same exactly when they unfold to the same structure |
| TypeGraph.TypeNav.QualifyTwice | src/cc1/type_nav.c:402-451 | on nodes, qualifying twice returns the same node exactly under that condition |
| TypeGraph.TypeNav.QualifyVolatileArray | src/cc1/parse_type.c:1530-1545 | in every valid graph the constructors build a `volatile` array, as the declarator parser does, for which qualifying twice gives another node than qualifying once |
| TypeGraph.TypeQual | src/cc1/type_is.c:690-721 | the recursion over a node's qualifiers collects those of its structure |
| TypeCompare.EqualIsSame | src/cc1/type.c:94-302 | types compare as equal exactly when they are the same at every level, `restrict` counting only as the only qualifier |
| TypeCompare.EqualToItself | src/cc1/type.c:94-302 | every type equals itself |
| TypeCompare.SwapR | src/cc1/type.c:94-286 | below the top, swapping the operands exchanges what it should exactly when they are not lopsided, and a lopsided pair is implicitly convertible one way only |
| TypeCompare.SwapExchanges | src/cc1/type.c:288-302 | swapping the operands exchanges added and removed qualifiers, of the type and of what it points to, and fixes every other answer, exactly when not one of them alone is `void`, nor one `_Bool` and the other a pointer, below arrays of equal size |
| TypeAnswers.AnswersMean | src/cc1/type.c:94-302 | what every answer says: a qualifier added or removed exactly where the types are the same down to a level, above any pointer, at which the one or the other has the qualifier that decides; the same of what is pointed to one pointer down; a nested change further down; and otherwise, by the shapes, implicitly or explicitly convertible or unrelated |
| TypeAnswers.QualifiersDecide | src/cc1/type.c:254-275 | the same of the comparison below the top |
| TypeAnswers.ShapesDecide | src/cc1/type.c:94-302 | types that differ in more than qualifiers compare, below the top, by what their shapes accept |
| TypeAnswers.NamedAfter | src/cc1/btype.h:8-24 | the answers for `const char` and `char` in both orders, for pointers to them and pointers to those |
| TypeAnswers.NamedConversions | src/cc1/btype.h:8-24 | the answers for a `char` and a `long`, a pointer and an `int`, pointers to different types and to `void`, a structure and a `char` |
| CondMachine.Cpp.ParseShouldNoop | src/cpp2/directive.c:57-75 | lines are skipped exactly if some enclosing condition says so |
| CondMachine.Cpp.IfPush | src/cpp2/directive.c:317-332 | the state is saved on the stack, and nothing is pushed at its limit |
| CondMachine.Cpp.IfPop | src/cpp2/directive.c:334-343 | the state is what was last saved |
| CondMachine.Cpp.HandleElif | src/cpp2/directive.c:425-440 | the state after `#elif`, whose condition is always evaluated |
| CondMachine.Cpp.HandleElse | src/cpp2/directive.c:442-459 | the state after `#else` |
| CondMachine.Cpp.ParseLine | src/cpp2/directive.c:538-608 | one line takes the machine one step of the specification, or ends the program where that has none |
| CondMachine.Cpp.Preprocess | src/cpp2/preproc.c:412-454 | a run over all lines is the specification's, and ends well only with no condition open |
| CondRefinement.SkippedRun | src/cpp2/directive.c:538-608 | a section in a skipped group emits only blank lines, one for each line but directives without a name, and restores the state it began with, as long as the depth and its `#elif` conditions allow |
| CondRefinement.LiveRun | src/cpp2/directive.c:538-608 | a section in a live group emits the lines and makes the definitions of its structured meaning, under the exact condition |
| CondRefinement.MachineRefinesMeaning | src/cpp2/directive.c:538-608 | for every well-nested program the machine's output and macro table are those of the structured meaning exactly when that has no error, the depth is at most 63 and no condition of an `#elif` in a skipped group fails |
| CondRefinement.TotalIsQuiet | src/cpp2/directive.c:366-406 | conditions that always have a value never disturb a skipped group |
| CondRefinement.MachineMeetsStandard | src/cpp2/directive.c:538-608 | with such conditions, machine and meaning agree up to depth 63 (section 6.10.1 of ISO C11) |
| CondRefinement.SkippedElifIsEvaluated | src/cpp2/directive.c:425-440 | a failing `#elif` condition nested in a skipped group ends the program, although its meaning is five blank lines |
| CondRefinement.OneLineOutPerLineIn | src/cpp2/preproc.c:412-454 | there is one line of output for each line of input that is not a directive without a name, and none for those |
| CondReading.AcceptedIsWellNested | src/cpp2/directive.c:408-480 | whatever lines the machine accepts, with every condition closed, are those of a well-nested program: stray `#elif`, `#else` and `#endif` are refused, and so is anything but `#endif` after `#else` |
| CondReading.AcceptedIff | src/cpp2/directive.c:538-608 | the machine accepts exactly the lines of well-nested programs that meet the condition of the refinement |
| CondRuns.GuardDecides | src/cpp2/directive.c:345-364 | a line between `#ifdef`, `#ifndef` or `#if` and `#endif` is expanded exactly if the name is defined, is not defined, or the expression is true |
| CondRuns.LiveLines | src/cpp2/directive.c:77-178 | in a group that is processed `#define` gives its name its text and `#undef` takes it away, other names are left alone, and a line is expanded under the table as it is then |
| CondRuns.DeadLines | src/cpp2/directive.c:588-605 | in a skipped group they print a blank line and do nothing else |
| CondRuns.IncludedOnce | src/cpp2/directive.c:345-364 | a header with an include guard is processed the first time and blank the second, whatever it holds, unless it takes the guard back |
| CondRuns.OpensAtMost63 | src/cpp2/directive.c:44-50 | 63 sections can be open at once |
| IfGrammar.RhsReaches | src/cpp2/expr.c:189-231 | from the first operand of an expression grouped as the loop groups, the loop reaches the whole expression |
| IfGrammar.RhsSound | src/cpp2/expr.c:189-231 | whatever the loop builds is grouped so, has the text that was consumed, and is followed by nothing that belongs to it |
| IfGrammar.ParseLineIffGrouped | src/cpp2/expr.c:238-257 | a line is accepted exactly when it is the text of an expression grouped so, and that one is returned; reading a number's value after advancing does no harm |
| IfGrammar.GroupedInC | src/cpp2/expr.c:189-231 | among expressions written as C requires, those the loop groups so are the ones with no right operand that starts with a tighter operator than its own |
| IfGrammar.GroupsAsC | src/cpp2/expr.c:222-229 | a line written as C requires is grouped as in C exactly then |
| IfGrammar.ParenthesisedReadsBack | src/cpp2/expr.c:106-140 | fully parenthesised text is always parsed back |
| IfGrammar.MultiplicationFirst | src/cpp2/expr.c:222-229 | `a == b * c + d` is not |
| IfTables.TwoOperators | src/cpp2/expr.c:145-186 | how `a op1 b op2 c` is grouped for any two operators, by the list of priorities: to the left within a row, the tighter row first otherwise |
| IfTables.ConditionalLoosest | src/cpp2/expr.c:145-231 | `?:` binds more loosely than each of them, before and after it |
| IfTables.ConditionalToTheRight | src/cpp2/expr.c:189-231 | `?:` groups to the right |
| IfTables.PrefixOperators | src/cpp2/expr.c:106-140 | `-`, `!` and `~` and no others may stand before an operand, and they bind tighter than any operator between two |
| IfMeaning.EvalWhen | src/cpp2/expr.c:260-360 | when evaluation ends the program and what it yields otherwise, for expressions that are needed and for skipped ones, if all numbers count as `long` |
| IfMeaning.EvalMeetsLong | src/cpp2/expr.c:260-360 | evaluation never yields another value than in the arithmetic of `long`, and yields that exactly when nothing that should be skipped is evaluated after all and fails |
| IfMeaning.NestedSkipIsLost | src/cpp2/expr.c:291-306 | `0 && (1 + 1 / 0)` ends the program, `0 && 1 / 0` does not |
| IfTables.IdentsNoticed | src/cpp2/expr.c:268-270 | an identifier is noticed exactly if there is one anywhere in the line |
| IfTables.NumberValue | src/cpp2/expr_tok.c:44-60 | numbers are worth what they are, but for those from 2^63 on, which are cut to the largest `long` |
| IfTables.LogicalValues | src/cpp2/expr.c:291-343 | logical and and or are worth 1 or 0, without their right operand if the left one settles it |
| IfTables.NotAndConditional | src/cpp2/expr.c:270-356 | `!` is worth 1 for zero and 0 otherwise, and `?:` is worth one of its branches |
| IfTables.ComparisonValues | src/cpp2/expr.c:323-343 | comparisons are worth 1 or 0 |
| IfTables.ArithmeticValues | src/cpp2/expr.c:323-343 | sums, differences and products are the mathematical ones where those are of type `long` |
| IfTables.PrefixValues | src/cpp2/expr.c:270-283 | and so are negated values; `~` is the complement |
| IfConversions.OperatorRight | src/cpp2/expr.c:313-343 | one operator on operands of either type: the evaluator is right exactly unless the operator acts on unsigned operands and is `<`, `<=`, `>`, `>=`, `/`, `%` or `>>` with operands in the upper half that make a difference (section 6.10.1 of ISO C11) |
| IfConversions.RightIffTame | src/cpp2/expr.c:260-360 | every part of an expression that C evaluates is worth here what it is in C exactly if every number is below 2^63 and every unsigned operator has such operands |
| IfConversions.EvalMeetsC | src/cpp2/expr.c:260-360 | then evaluation never yields a value, or a truth, other than that of C, and yields it exactly when nothing that C skips is evaluated after all and fails |
| IfConversions.WithoutZeroDivisors | src/cpp2/expr.c:313-322 | so it does, then, whenever no divisor in the tree is worth zero |
| IfConversions.SignedIsTame | src/cpp2/expr.c:260-360 | the condition holds for every expression without unsigned numbers, whose value in C is itself a `long` |
| IfConversions.NegativeBelowUnsigned | src/cpp2/expr_tok.c:44-60 | `-1 < 0U` is 1, and 0 in C |
| IfConversions.LargestNumberIsCut | src/cpp2/expr_tok.c:44-60 | `18446744073709551615U == 9223372036854775807` is 1, and 0 in C |
| IfCode.Node.ExprEval | src/cpp2/expr.c:260-360 | the value is the specified one, every node of the tree has been freed, none twice, and an identifier anywhere has been noticed |
| IfCode.Node.EvalOp | src/cpp2/expr.c:284-347 | the same for the operands of an operator |
| IfCode.Node.EvalTop | src/cpp2/expr.c:348-356 | the same for the three operands of `?:` |
| IfCode.Parser.Next | src/cpp2/expr.c:106-111 | one token is passed, and the last number read is kept until the next |
| IfCode.Parser.ParsePrimary | src/cpp2/expr.c:106-140 | the nodes allocated are a tree without sharing that is the grammar's, and the tokens left are the grammar's |
| IfCode.Parser.ParseParens | src/cpp2/expr.c:113-122 | the same for a parenthesised expression |
| IfCode.Parser.ParseRhs | src/cpp2/expr.c:189-231 | the same for the loop over operators |
| IfCode.Parser.Parse | src/cpp2/expr.c:233-236 | the same for a whole expression |
| IfCode.Parser.ExprParse | src/cpp2/expr.c:238-257 | the same for a line, which has to end with the expression |
| IfCode.Condition | src/cpp2/directive.c:390-406 | the truth of a condition as parsed and evaluated, or the end of the program |
| MacroPaint.BlueIsRestored | src/cpp2/eval.c:440-486 | after an expansion every macro's paint count is what it was, through all nested expansions of arguments and double evaluations |
| MacroPaint.ExpandsInactive | src/cpp2/eval.c:401-486 | with a set of macros painted, exactly the macros outside the set are entered, in order, each joining the set for its replacement and for the rescan; each use of a name that is entered and not left alone counts once, and names that are not invoked or that stand in arguments do not, as a reading of the hits without any paint says |
| MacroPaint.EntersInactive | src/cpp2/eval.c:401-438 | the same for one macro |
| MacroPaint.NotInsideItself | src/cpp2/eval.c:424-438 | `#define f f` enters f once |
| MacroPaint.OnlyNonInvocationsPaint | src/cpp2/eval.c:316-399 | a use is counted only for a function-like macro that is not invoked |
| MacroPaint.RecursionIsBounded | src/cpp2/eval.c:401-438 | where the macros being expanded are painted and pairwise distinct, none of them is entered again, as the record of what is entered shows, so that the depth is at most the number of macros (section 6.10.3.4 of ISO C11) |
| MacroPaint.AtMostAll | src/cpp2/eval.c:424-438 | distinct macros are no more than there are |
| MacroPaint.Macros.Snapshot | src/cpp2/snapshot.c:20-65 | the use counts are copied |
| MacroPaint.Macros.RestoreUsed | src/cpp2/snapshot.c:36-41 | the use counts are those of the snapshot |
| MacroPaint.Macros.AlterBlueUsed | src/cpp2/snapshot.c:67-87 | exactly the macros used between two snapshots are painted, or unpainted, once |
| MacroPaint.Macros.EvalExpandMacros | src/cpp2/eval.c:440-486 | the counters in the table are those of the specification, and all paint is as before |
| MacroPaint.Macros.EvalOneMacro | src/cpp2/eval.c:401-438 | the same for one macro: painted, evaluated, evaluated again with what was used painted, and unpainted |
| MacroPaint.Macros.EvalDouble | src/cpp2/eval.c:316-399 | the replacement is evaluated, and evaluated again with what it used painted |
| MacroPaint.Macros.Begin | src/cpp2/eval.c:424-438 | the macro is counted as used, painted and entered |
| MacroPaint.Macros.End | src/cpp2/eval.c:424-438 | and unpainted afterwards, nothing else |
| LineMarkers.FlagsReadBack | src/cpp2/preproc.c:48-65 | the flags of a marker are read back from the numbers printed for them |
| LineMarkers.Preprocessor.PreprocPush | src/cpp2/preproc.c:80-114 | the line of the including file is saved, the new file is on top at line 1 and its marker is printed, up to 64 files |
| LineMarkers.Preprocessor.PreprocPop | src/cpp2/preproc.c:116-138 | the including file is on top again at its saved line, and its marker is printed |
| LineMarkers.Preprocessor.ReadLine | src/cpp2/preproc.c:140-175 | files that are at their ends are left, with their markers, before the next line is read |
| LineMarkers.Preprocessor.SpliceLines | src/cpp2/preproc.c:244-306 | a pending blank line, or a line joined with those it goes on in, after which as many blank lines are pending as lines were joined to it; the events meanwhile lead to that state |
| LineMarkers.UpToName | src/cc1/tokenise.c:291-295 | the search from the top finds the topmost entry of a name |
| LineMarkers.Tokeniser.PushName | src/cc1/tokenise.c:212-221 | a full stack takes the name and flag but no entry |
| LineMarkers.Tokeniser.PopNames | src/cc1/tokenise.c:223-236 | popping so many entries leaves the name and flag of what is then the top |
| LineMarkers.Tokeniser.HandleLineFileDirective | src/cc1/tokenise.c:238-349 | the stack after a marker with any flags, with the special case of a marker without flags for the initial file |
| LineMarkers.MarkerMeans | src/cc1/tokenise.c:238-349 | what a marker with any flags does to the stack and the current file: entered for flag 1, the topmost entry of its name returned to for flag 2 if there is one, and for neither back to the first file if the marker is just for where that stands, a new line number if it names the current file, and entered otherwise |
| LineMarkers.Tokeniser.ParseLineDirective | src/cc1/tokenise.c:351-413 | the same with the number of the next line |
| LineMarkers.Tokeniser.ReadLine | src/cc1/tokenise.c:435-466 | an ordinary line has the next number |
| MarkerProtocol.IncludeAgrees | src/cpp2/preproc.c:80-114 | an include keeps the compiler's stack standing for the preprocessor's, whatever lines are pending |
| MarkerProtocol.EndAgrees | src/cc1/tokenise.c:288-349 | so does the end of a file, whether or not its includer has the same name |
| MarkerProtocol.CurrentFileAgrees | src/cc1/tokenise.c:238-349 | after every history of lines and includes within the limits, the compiler's current name and system-header flag are those of the preprocessor, even where files include themselves |
| MarkerProtocol.LineIsAheadBy | src/cpp2/preproc.c:244-306 | after every history, by how much the compiler's line number is ahead of the preprocessor's: by the blank lines pending when the file was entered, or by the lines joined so far when the included one ended, less one for every line since then that was not printed |
| MarkerProtocol.LinesAgreeIff | src/cpp2/preproc.c:244-306 | line numbers agree throughout exactly if no file is entered while blank lines are pending, none ends within a line that goes on, and every line that is read is printed |
| MarkerProtocol.LinesOfFile | src/cpp2/preproc.c:80-175 | whatever is included on the way, to any depth, the preprocessor is as many lines further on in a file as lines of it have been read |
| MarkerProtocol.LinesFromOne | src/cc1/tokenise.c:351-466 | and the compiler gives the n-th line after the marker of a file that is entered the number n |
| MarkerProtocol.ContinuedInclude | src/cpp2/preproc.c:249-252 | after an `#include` continued over two lines they are one ahead |
| MarkerProtocol.StacksInStep | src/cc1/tokenise.c:288-310 | the whole stacks are in step after every push and pop exactly when no file ends that was included by one of the same name |
| MarkerProtocol.OutOfStep | src/cc1/tokenise.c:291-295 | when one does, they are not |
| DynmapSpec.Squash | src/util/dynmap.c:56-64 | squashing a hash ends below 256 and leaves small hashes alone |
| DynmapSpec.TwoBytes | src/util/dynmap.c:57-64 | the bucket of a hash of two bytes is their exclusive or |
| DynmapSpec.PutModels | src/util/dynmap.c:112-141 | putting an entry into its bucket's list is updating the finite map |
| DynmapSpec.DropModels | src/util/dynmap.c:180-214 | dropping an entry is removing its key |
| DynmapSpec.EntriesEnumerate | src/util/dynmap.c:143-164 | the entries in order of index hold each key of the map exactly once, with its value |
| DynmapTable.Dynmap.FirstPair | src/util/dynmap.c:56-64 | the loop ends at the head of the key's bucket |
| DynmapTable.Dynmap.FindPair | src/util/dynmap.c:66-87 | the pair for a key is found if there is one |
| DynmapTable.Dynmap.Get | src/util/dynmap.c:89-102 | the map's value for a key, or null |
| DynmapTable.Dynmap.Exists | src/util/dynmap.c:104-110 | whether a key is in the map |
| DynmapTable.Dynmap.Set | src/util/dynmap.c:112-141 | the map is updated at the key and the old value is returned; chains stay linked and free of duplicates |
| DynmapTable.Dynmap.Rm | src/util/dynmap.c:180-214 | the key is removed from the map and its value is returned |
| DynmapTable.Dynmap.RmHead | src/util/dynmap.c:192-206 | removing the head by copying its successor over it removes just that entry |
| DynmapTable.Dynmap.RmLater | src/util/dynmap.c:206-212 | unlinking a later pair removes just that entry |
| DynmapTable.Dynmap.IdxIn | src/util/dynmap.c:143-164 | the loop over one chain finds the entry, or counts down by the length of the chain |
| DynmapTable.Dynmap.Idx | src/util/dynmap.c:143-164 | the pair at an index is the entry at that index, and there is none from the number of keys on |
| InlineSlots.SaveFromAt | src/cc1/inline.c:101-151 | saving the arguments changes each parameter as it alone would, and no other symbol |
| InlineSlots.RestoreUndoesSave | src/cc1/inline.c:153-188 | restoring a parameter undoes saving it, and the assertion on its saved map value holds |
| InlineSlots.ReadsSeeInnermost | src/cc1/out/new.c:144-218 | for every tree of nested and recursive inlinings the generated code reads each parameter's innermost binding exactly when no parameter is read that is spilled while an enclosing inlining has bound the same symbol without spilling it |
| InlineSlots.SpilledParameterReadsOuterArgument | src/cc1/inline.c:114-139 | the inlined recursive call `f(temporary)` in `f(1)` reads 1 |
| InlineSlots.OwnReturns | src/cc1/inline.c:252-266 | the values that an inlining merges are those that the returns of the body itself give, in their order |
| InlineSlots.OwnLabels | src/cc1/label.c:30-55 | the labels of a body are those that it uses itself |
| InlineSlots.FiveDeep | src/cc1/inline.c:416-420 | five calls are inlined inside each other, and the sixth is not |
| InlineMachine.Generator.VarsPush | src/cc1/inline.c:49-63 | returns and labels are saved and empty |
| InlineMachine.Generator.VarsPop | src/cc1/inline.c:65-80 | they are what was saved |
| InlineMachine.Generator.SymMapSave | src/cc1/inline.c:101-151 | the loop leaves the slots and the map as specified and returns what each argument's were |
| InlineMachine.Generator.SymMapRestore | src/cc1/inline.c:153-188 | all slots and the map are what they were before saving, and the assertion never fires |
| InlineMachine.RestoreStep | src/cc1/inline.c:162-187 | when its turn comes each argument is as it was saved, so that the assertion holds and both its values come back |
| InlineMachine.Generator.LabelGetblk | src/cc1/label.c:30-55 | a label has one block throughout its context, and a new one in every other |
| InlineMachine.Generator.RetAdd | src/cc1/inline.c:252-266 | a returned value is recorded, and a return without one is not |
| InlineMachine.Generator.Gen | src/cc1/inline.c:226-232 | generating a body leaves slots, map, depth and the block to return to as they were, adds just its own returns and labels, and emits the specified code |
| InlineMachine.Generator.InlineFuncTryGen | src/cc1/inline.c:427-463 | after each inlining slots, maps, labels, returns and depth are what they were; beyond depth five the call is left alone |
| InlineMachine.Generator.GenInlineFunc | src/cc1/inline.c:190-250 | the same for the body, whose own returns are merged |
| Packing.RoundUpIsLeast | src/cc1/pack.c:12-16 | the modulo form is the least multiple of the alignment that is not below the size |
| Packing.MaskFormIsRoundUp | src/cc1/pack.c:18-18 | for every power of two the mask form is the modulo form modulo 2^32, so that they agree exactly below 2^32 |
| Packing.MaskFormWraps | src/cc1/pack.c:18-18 | 4 GiB rounds up to zero |
| Packing.PackToAlign | src/cc1/pack.c:8-20 | the result is the least multiple as long as that is below 2^32 |
| Packing.PackNext | src/cc1/pack.c:30-45 | an object is put at the next multiple, and the offset goes to its end |
| LayoutSoundness.CoveredAscends | src/cc1/fold_sue.c:271-355 | if every group's bytes cover it, members follow one another and end within the size |
| LayoutSoundness.UncoveredClashes | src/cc1/fold_sue.c:325-339 | if some group's bytes do not, two members share a bit or one lies outside |
| LayoutSoundness.LayoutIsSound | src/cc1/fold_sue.c:454-582 | members and bit-fields of any structure are disjoint and within its size exactly when the bytes reserved for each group of bit-fields, with the padding after them, reach to its end; they are then in order. The lemma beneath the next two |
| BitFieldFit.FitIsSound | src/cc1/fold_sue.c:271-355 | if the declared bit-fields fit, told from widths, types and alignments in order of declaration, members and bit-fields are disjoint and within the size |
| BitFieldFit.FitIffSoundBeforeByte | src/cc1/fold_sue.c:454-582 | they fit exactly when the structure stays sound whenever it is cut off after any of its members and a `char` is put there |
| BitFieldFit.FilledGroup | src/cc1/fold_sue.c:325-339 | `struct { int a:4; int b:28; char c; }` is sound although b passes the byte reserved for a; after a `char` the same two fields do not fit |
| BitFieldExact.SoundIffPadded | src/cc1/fold_sue.c:454-582 | a structure as it stands is laid out soundly exactly if, told from the declared members alone, each member starts after what the group before it overruns, and the padding at the end covers the rest |
| BitFieldExact.PaddingCovers | src/cc1/fold_sue.c:325-339 | in `struct { int a:4; int b:20; int c; }` b passes the bytes reserved for a, but the padding before c covers it |
| LayoutTables.TwoFields | src/cc1/fold_sue.c:271-355 | where a second bit-field goes, in numbers: behind the first one if the type of that has room for both, otherwise to the first place that 1, 2, 4 or 8 bytes for up to 8, 24, 56 and 64 bits may have behind that type |
| LayoutTables.FieldThenMember | src/cc1/fold_sue.c:271-400 | where another member goes behind a bit-field |
| LayoutTables.OneField | src/cc1/fold_sue.c:271-355 | a structure of one bit-field has the size and the alignment of its declared type |
| LayoutSoundness.UniformIsSound | src/cc1/fold_sue.c:271-355 | with one alignment throughout, equal to the size of every bit-field's type, each bit-field lies in a unit of its type, no members overlap, and the size covers all |
| LayoutSoundness.ZeroWidthStartsAfresh | src/cc1/fold_sue.c:282-311 | a zero-width field takes no space, and the bit-field after it starts a fresh unit |
| LayoutSoundness.MemberInsideBitField | src/cc1/fold_sue.c:325-329 | in `struct { int a:4; int b:20; char c; }` the member c lies in b |
| LayoutSoundness.BitFieldOutsideStruct | src/cc1/fold_sue.c:325-329 | in `struct { char c; int a:4; int b:28; }` b ends outside |
| LayoutSoundness.MembersOfUnionOverlay | src/cc1/fold_sue.c:509-582 | all members of a union start where it does exactly when at most one is a bit-field with a width, and then all end within its size |
| LayoutSoundness.BitFieldOutsideUnion | src/cc1/fold_sue.c:509-513 | in `union { int a:20; int b:20; char c; }` b lies outside altogether |
| NestedLayout.AlignOf | src/cc1/type.c:379-418 | the alignment of every type is a power of two |
| NestedLayout.SizeIsAligned | src/cc1/fold_sue.c:566-570 | the size of every type is a multiple of its alignment |
| NestedLayout.LeavesAreAligned | src/cc1/fold_sue.c:454-582 | in an object on a multiple of its alignment each scalar, through structures, unions and arrays nested to any depth, lies on a multiple of its own and within the object; without unions no two overlap |
| NestedLayout.MembersAreLowest | src/cc1/fold_sue.c:389-412 | each member is at the least multiple of its alignment that is not below the end of the one before |
| NestedLayout.WithoutBitFields | src/cc1/fold_sue.c:389-412 | members of a structure without bit-fields are disjoint, within its size and in order |
| NestedLayout.AlignIsNeeded | src/cc1/fold_sue.c:549-552 | the alignment is one or that of some member |
| NestedLayout.SizeIsLeast | src/cc1/fold_sue.c:454-582 | a structure ends with its last member, a union with its largest, but for the least padding to a multiple of the alignment |
| StructFold.Folder.StructPack | src/cc1/fold_sue.c:43-52 | a member is put at the next multiple and the offset goes to its end |
| StructFold.Folder.FinishBitfield | src/cc1/fold_sue.c:59-68 | the offset is rounded up to the size of the group's type |
| StructFold.Folder.StartGroup | src/cc1/fold_sue.c:293-339 | the branch that begins a group of bit-fields |
| StructFold.Folder.CalcFieldwidth | src/cc1/fold_sue.c:271-355 | the state and the place of a bit-field are the specified ones as long as offsets fit 32 bits |
| StructFold.Folder.ApplyNormalOffset | src/cc1/fold_sue.c:389-412 | the same for other members, which close an open group |
| StructFold.Folder.FoldMember | src/cc1/fold_sue.c:476-553 | the same for any member, of a structure or a union |
| StructFold.Folder.FoldSue | src/cc1/fold_sue.c:454-582 | every member gets the offsets of the layout, and the whole its size and alignment, as long as they fit 32 bits |
| Truncation.TruncateBits | src/cc1/num.c:85-122 | for widths 1 to 64 the results are the residue and the congruent signed value, by casts as by masks and shifts |
| Truncation.OnlyOneInRange | src/cc1/num.c:85-122 | such values are the only ones in their ranges |
| Truncation.ShiftBack | src/cc1/num.c:112-119 | shifting left and back as signed sign-extends the low bits |
| Truncation.TruncateTwice | src/cc1/num.c:124-131 | truncating again changes nothing |
| Truncation.HighBit | src/cc1/num.c:133-147 | the loop returns the position of the highest bit, or -1 for zero |
| ConstFold.CorrectedUp | src/cc1/const.c:252-263 | the correction of a result that increased is right exactly below twice the range |
| ConstFold.CorrectedDown | src/cc1/const.c:264-270 | the correction of a result below zero is always right |
| ConstFold.UnsignedFolding | src/cc1/const.c:178-273 | for every unsigned width and operands in range folding by that type gives the mathematical result modulo the range, for multiplication and left shift exactly when the 64-bit result is below twice the range; only division by zero is an error. So the back end folds every operator (src/cc1/out/op.c:130-140), and the front end all but those that return a truth value |
| ConstFold.FoldedAsInt | src/cc1/ops/expr_op.c:308-325 | operators that return a truth value, which the front end folds as `int`, are right exactly unless they order two operands of which one is in the upper half of the 64-bit range and the other is not |
| ConstFold.LargestBelowOne | src/cc1/ops/expr_op.c:308-325 | `18446744073709551615ULL < 1ULL` folds to 1 |
| ConstFold.TruthValues | src/cc1/const.c:178-250 | truth values are 1 and 0 |
| ConstFold.UnsignedDivision | src/cc1/const.c:178-250 | unsigned quotient and remainder make up the dividend, and the remainder is the smaller |
| ConstFold.RightShift | src/cc1/const.c:178-250 | a right shift divides by a power of two and rounds down, whatever the sign |
| ConstFold.SignedFolding | src/cc1/const.c:178-250 | signed sums, differences, products, quotients, remainders and shifts are folded to the mathematical result exactly when that has 64 bits |
| ConstFold.SignedDivision | src/cc1/const.c:178-250 | signed quotient and remainder make up the dividend, the remainder has its sign and is smaller than the divisor |
| Arithmetic.QuotientTowardsZero | src/cpp2/expr.c:313-322 | the quotient goes towards zero, and the remainder makes up the rest |
| Arithmetic.SignedWord | src/cc1/num.c:85-122 | an integer is recovered from its 64-bit word exactly when it has 64 bits |
| Arithmetic.BitByBit | src/cc1/const.c:178-250 | each bitwise operator does to every bit what it is named after |
| ConstFold.ProductOutOfRange | src/cc1/const.c:252-263 | the 32-bit `65536u * 131072u` folds to 2^32, where its value is 0 |

## Left out

- Code generation, debug information, drivers, option tables, diagnostics and their texts, the shim C library:
  output and plumbing, not algorithms of their own.
- Memory: freeing is modelled only for the nodes of `#if` expressions; allocation never fails; print buffers are
  not of fixed size.
- Integers are unbounded except where their width matters: constants, `#if` values and rounding up are of 64 or
  32 bits. Signed overflow and division of the smallest number by -1 wrap, and shift counts in `#if` are taken
  modulo 64; C leaves these undefined.
- Initialisers: unions, string literals, copies of structures, anonymous members and bit-field padding, flexible
  arrays, designators that are ranges within a chain of designators, and the warnings. Array elements that are
  replaced in part are constant, as the source demands.
- InitCode.BraceUpSubObjects: items have no designators; those are in DesigCode.BraceUpSubObjects.
- RangeInitCode.BraceUpArray2: elements are scalars, so that a range never replaces a part of an element.
- DesigOrder.ListIsRead: every aggregate holds a scalar.
- DesigCode.BraceUpSubObjects: unions, anonymous members and copies of structures are left out.
- InitElision.ElisionIsUndone: unions, and empty structures and arrays without a single scalar, are not covered.
- Expressions: casts, `sizeof`, compound literals, `_Generic`, blocks, statement expressions, strings and builtin
  calls, which need the type parser. Increments and decrements are trees of their own, where the source builds
  compound assignments by one; parentheses are nodes, where it sets a flag; a missing token ends the parse, where
  it reports and goes on.
- ExprParser.Parser.ParseUnary: `sizeof`, `_Alignof`, casts and `__extension__` are left out.
- ExprParser.Parser.ParsePrimary: strings, casts, compound literals, blocks and `_Generic` are left out.
- Declarators: parameter lists are one opaque token; `static` in array sizes, `[*]`, attributes, typedef names,
  old-style functions and trailing return types are not modelled.
- DeclParser.DeclParser.ParsedTypeFunc: a parameter list is one opaque token.
- DeclParser.DeclParser.ParsedTypeArray: `static`, `[*]` and variable lengths are left out.
- DeclParser.DeclParser.ParsedTypeNest: attributes are left out, and an error ends the parse.
- Types: attributes, typedefs, variable-length arrays, `__auto_type`, the memo tables of structures and the sign
  conversions. Comparison leaves out functions, blocks, typedefs and the Plan 9 extension.
- TypeGraph.TypeNav.ArrayOf: variable-length arrays are left out.
- TypeGraph.TypeNav.FuncOf: parameters and scope are one opaque number.
- TypeCompare.EqualIsSame: functions, blocks, typedefs and arrays without a size are left out.
- TypeCompare.EqualToItself: the same types are left out.
- CondMachine.Cpp.ParseLine: `#include`, `#pragma` and `#line` are left out, and so are directives whose name is no
  word.
- Conditional inclusion: conditions are a function of the macro table that may fail; the texts of other directives
  and lines are opaque.
- `#if` expressions: the characters of tokens, but for what is kept of a number; `defined` and macros are replaced
  before the parser is reached.
- MacroPaint.Macros.EvalExpandMacros: the text of a line is a finite tree of the macros that its scan meets, so
  that nothing is said about what is substituted or whether the scan ends.
- Line markers: `#line` directives, the characters of lines, the option that prints no markers, and starting without
  an initial entry.
- LineMarkers.Preprocessor.PreprocPush: the flag bits are the numbers printed for them.
- Hash table: comparison functions are equality; the table is never freed.
- Inlining: the heuristics that decide whether to inline, code motion and values' reference counts; a symbol is
  an argument of a function. What a body does is a finite tree of reads, returns, labels and calls.
- InlineMachine.Generator.RetAdd: the transfer to the block of the merged value is left out.
- InlineMachine.Generator.InlineFuncTryGen: only the depth refuses an inlining, none of the heuristics.
- Structures: `packed` and alignment attributes of whole structures, enumerations, flexible arrays and unnamed
  members. A member may have any alignment that is a power of two, which covers those of single members.
- StructFold.Folder.FoldMember: `packed` and flexible arrays are left out.
- StructFold.Folder.FoldSue: says nothing about structures of 4 GiB and more, where rounding up wraps; `packed` and
  unnamed members are left out.
- LayoutSoundness.UniformIsSound: sizes are taken to be multiples of the alignment, as they are for all types
  without alignment attributes.
- ConstFold.UnsignedFolding: floating point is left out; shift counts are below the width of a word in C.
- ConstFold.SignedFolding: bitwise operators are those of words. The result is not reduced to a narrower type.
