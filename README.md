# A verified model of a staged Scheme interpreter

This project models, in Dafny, the core of a small Scheme interpreter written in C in stages. It covers the following parts:

- **The cons-list library.** There are two variants: `linkedlist-main` copies atoms when it reverses a list, and `iflet-main` shares them. The library provides `makeNull`, `cons`, `car`, `cdr`, `isNull`, `length` and the recursive `reverse`.
- **The tokenizer** (`tokenizer-main`). It turns the characters of standard input into a list of tokens: parentheses, strings, signed integers and decimals, Booleans, symbols, and `;` comments.
- **The parser, in two variants.** Both fold the token list into nested cons lists on a stack.
  - `parser-main` returns the stack as it is.
  - `lambda-main` reports unbalanced parentheses and reverses the top level in place.
- **Four snapshots of the evaluator.** Each is its own module, because they differ:
  - `quote-main` has only `if`, `let` and `quote`.
  - `lambda-main` adds `define`, `lambda` and closures.
  - `primitives-main` adds the primitives `+`, `null?`, `car`, `cdr` and `cons`.
  - `final-main` adds `letrec`, `set!`, `begin`, `-`, `<`, `>` and `=`.

Every fatal message that ends in `texit` becomes a `Fail` outcome with its own `Error` constructor.

## How the model is built

Frames are shared by closures and are updated in place. The model therefore keeps them in an explicit store:
- A store is a sequence of frames. Each frame holds a list of bindings, newest first, and an optional parent index.
- A closure records the index of the frame it captured.
- `addBinding` puts a binding on the front of one frame.
- `set!` and `letrec` overwrite the value of the binding a name refers to.

Proofs over the store:
- Every evaluator is proved to keep the store valid: parents precede their children, and closures capture existing frames.
- Each evaluator only lets the store grow.
- What a name gives from a frame is proved unchanged, for every other name, by these operations:
  - `addBinding`, `makeFrame`, the store update of `set!`, and `apply`'s parameter binding;
  - `define` and `set!` as the evaluator runs them;
  - in `quote-main`, every evaluation.

Evaluation takes a fuel count, because a Scheme program need not terminate. The `quote-main` stage has no closures, so its evaluator recurses on the tree and needs no fuel.

The C code is written as loops in several places:
- the primitives' running sums;
- `addBinding`'s scan;
- the lookup walk;
- the parameter checks and parameter binding;
- the in-place list reversals;
- the tokenizer's character loops;
- the parser.

Each of these is a Dafny `method` with a `while` loop. Each method is proved equal to a specification function, and the lemmas are stated about that function. Loops that call `eval` are recursive functions beside `Eval`, because a method cannot be called from a function.

Two behaviours of the code that the model keeps as they are:
- **`letrec` placeholders.** Reading a `letrec` variable before its init has been assigned is not an error. A symbol lookup returns the binding's value, which is then the `UNSPECIFIED` placeholder. The `UNSPECIFIED` case of `eval` (final-main/interpreter.c:882-885) is reached only when a placeholder is itself evaluated as a tree, and parse trees never contain one.
- **Duplicate parameters.** In `lambda-main` and later, `apply` binds parameters with `addBinding`, which fails on a name already bound in the frame. `evalLambda` rejects a parameter list with a repeated name before any closure is made, so `apply` never meets one.

## Model

| member | source | states |
|---|---|---|
| Values.ReverseOnto | lambda-main/parser.c:160-171 | moving each cell of a list onto an accumulator gives a proper list: the elements in reverse order, followed by the accumulator's |
| Values.ReverseList | lambda-main/interpreter.c:23-31 | the reverse of a proper list holds exactly its elements in reverse order (this is the corrected `reverse`, used by `evalEach`) |
| Values.ReverseInPlace | lambda-main/parser.c:160-171 | the pointer-reversing loop over a non-empty proper list returns the reversed list |
| Values.ReversedTwice | primitives-main/interpreter.c:196-211 | reversing the collected arguments again restores source order |
| LinkedList.MakeNull | linkedlist-main/linkedlist.c:17-21 | makeNull is the empty proper list |
| LinkedList.MakeCons | linkedlist-main/linkedlist.c:27-33 | cons is a cell whose car and cdr are exactly the arguments; on a list its elements are the new car followed by the old elements |
| LinkedList.ConsOfCarCdr | linkedlist-main/linkedlist.c:73-85 | car and cdr of a cell give back exactly the two slots it was built from |
| LinkedList.IsNull | linkedlist-main/linkedlist.c:163-169 | true exactly for the empty list |
| LinkedList.Length | linkedlist-main/linkedlist.c:175-193 | 0 for the empty list, the number of cells for a proper list, 1 for any other value |
| LinkedList.ReverseHelper | linkedlist-main/linkedlist.c:118-146 | an atom is returned as it is and a cell gives a cell |
| LinkedList.Reverse | linkedlist-main/linkedlist.c:153-156 | reverse of a cell is a cell |
| LinkedList.ReverseHelperFlat | linkedlist-main/linkedlist.c:118-146 | on a flat list of atoms, reverseHelper moves the elements onto the accumulator in reverse order |
| LinkedList.ReverseFlat | linkedlist-main/linkedlist.c:118-156 | on a proper list of Integer, Double and String atoms, reverse has the same length and the same atoms in reverse order |
| LinkedList.ReverseHelperDotted | linkedlist-main/linkedlist.c:139-144 | on an improper list, the atom tail is put in front of the reversed elements |
| LinkedList.ReverseDotted | linkedlist-main/linkedlist.c:139-144 | (a b . c) reverses to the proper list (c b a) |
| LinkedList.ReverseMisplacesEmptyElement | linkedlist-main/linkedlist.c:118-146 | reverse of (1 ()) is ((1) 1), not the reversal (() 1) |
| IfletLinkedList.MakeNull | iflet-main/linkedlist.c:19-23 | makeNull is the empty proper list |
| IfletLinkedList.MakeCons | iflet-main/linkedlist.c:29-35 | cons holds exactly the given car and cdr |
| IfletLinkedList.ConsOfCarCdr | iflet-main/linkedlist.c:41-53 | car and cdr of a cell give back its two slots |
| IfletLinkedList.IsNull | iflet-main/linkedlist.c:153-159 | true exactly for the empty list |
| IfletLinkedList.Length | iflet-main/linkedlist.c:165-183 | 0 for the empty list, the cell count for a proper list, 1 otherwise |
| IfletLinkedList.ReverseHelper | iflet-main/linkedlist.c:108-136 | an atom is returned itself and a cell gives a cell |
| IfletLinkedList.Reverse | iflet-main/linkedlist.c:143-146 | reverse of a cell is a cell |
| IfletLinkedList.ReverseHelperFlat | iflet-main/linkedlist.c:108-136 | on a flat list, the same atoms move onto the accumulator in reverse order |
| IfletLinkedList.ReverseFlat | iflet-main/linkedlist.c:108-146 | on a flat proper list, reverse gives the same atoms in reverse order |
| IfletLinkedList.ReverseHelperDotted | iflet-main/linkedlist.c:129-134 | an improper list's atom tail goes in front of the reversed elements |
| IfletLinkedList.ReverseDotted | iflet-main/linkedlist.c:129-134 | (a b . c) reverses to (c b a) |
| IfletLinkedList.ReverseMisplacesEmptyElement | iflet-main/linkedlist.c:108-136 | reverse of (1 ()) is ((1) 1), not (() 1) |
| Environments.FirstIndex | final-main/interpreter.c:582-599 | the scan stops at the first binding of the name in a frame's list |
| Environments.MakeFrame | quote-main/interpreter.c:24-29 | a new frame has no bindings and the given parent; existing frames are unchanged |
| Environments.MakeFrameChained | final-main/interpreter.c:489-494 | a new frame under an existing parent keeps every parent link pointing to an earlier frame |
| Environments.WithBinding | final-main/interpreter.c:502-521 | fails exactly when the name is already bound in that frame or is not a symbol; otherwise the binding goes on the front of that frame only |
| Environments.AddBinding | quote-main/interpreter.c:37-56 | the scanning loop gives exactly the outcome of WithBinding |
| Environments.Find | final-main/interpreter.c:582-599 | the frame found is the start frame or an ancestor and binds the name; otherwise the name is unbound |
| Environments.LookUpSymbol | primitives-main/interpreter.c:477-494 | the walk over bindings and parents gives exactly Find's outcome |
| Environments.LookUpInnermost | quote-main/interpreter.c:145-162 | the first binding of the name in the innermost frame wins over every other |
| Environments.LookUpOuter | primitives-main/interpreter.c:477-494 | with no binding in the frame itself, the lookup is the parent's, and it fails past the root |
| Environments.FindSameShape | final-main/interpreter.c:582-599 | the lookup reads only the names and parents on the chain, not the values |
| Environments.LookUpExtended | final-main/interpreter.c:489-494 | adding frames changes no lookup from an existing frame |
| Environments.LookUpMakeFrame | lambda-main/interpreter.c:53-58 | from a new, empty frame every name is looked up in the parent |
| Environments.LookUpWithBinding | final-main/interpreter.c:502-521 | after addBinding the new name gives the new value in that frame, and every other name gives what it gave before, from every frame |
| Environments.LookUpInnermostAt | final-main/interpreter.c:582-599 | the binding lookUpSymbol returns is the frame's first binding of the name |
| Environments.Assigned | final-main/interpreter.c:724-742 | overwriting a binding's value keeps every name and changes only that binding |
| Environments.SetBinding | final-main/interpreter.c:724-742 | overwriting a cell changes only its frame and keeps that frame's parent |
| Environments.SetBindingShape | final-main/interpreter.c:724-742 | set! adds and removes no binding and keeps every parent |
| Environments.LookUpAfterSet | final-main/interpreter.c:724-742 | after set! through the cell a name refers to, the name gives the new value |
| Environments.LookUpSetOther | final-main/interpreter.c:724-742 | overwriting one name's cell changes the value of no other name, from any frame |
| Forms.ValidMakeFrame | final-main/interpreter.c:489-494 | makeFrame keeps the store valid and only grows it |
| Forms.ValidWithBinding | final-main/interpreter.c:502-521 | addBinding of a usable value keeps the store valid and only grows it |
| Forms.ValidSetBinding | final-main/interpreter.c:724-742 | set! with a usable value keeps the store valid and only grows it |
| Forms.ParamsErrorMeans | final-main/interpreter.c:631-666 | the parameter check passes exactly on a proper list of distinct symbols |
| Forms.CheckParams | primitives-main/interpreter.c:352-387 | evalLambda's nested parameter loops give exactly the checked outcome |
| Forms.EvalLambda | lambda-main/interpreter.c:161-196 | succeeds exactly with a parameter list and a body whose parameters pass the check; the error is the arity error or the parameter error; the closure captures the current frame, the parameters and the body list |
| Forms.BindParams | final-main/interpreter.c:530-574 | binding parameters keeps the store valid and its size, and only grows it |
| Forms.BindArgs | lambda-main/interpreter.c:100-128 | apply's parameter loop gives exactly BindParams' outcome |
| Forms.BindParamsKeeps | final-main/interpreter.c:530-574 | binding parameters changes no lookup of a name that is not a parameter |
| Forms.BindParamsMeans | lambda-main/interpreter.c:100-128 | succeeds exactly when there are as many arguments as parameters, fails with too many or too few otherwise, and then each parameter gives its argument |
| Primitives.Plus | final-main/interpreter.c:280-325 | a result of + is a number |
| Primitives.PlusIdentity | final-main/interpreter.c:280-325 | (+) is Integer 0 and (+ x) has x's value |
| Primitives.PlusValue | primitives-main/interpreter.c:25-70 | on numbers, + is the sum, and it is an Integer exactly when every argument is |
| Primitives.PlusAssociates | final-main/interpreter.c:280-325 | the sum of joined argument lists is the sum of the two sums |
| Primitives.PrimitivePlus | primitives-main/interpreter.c:25-70 | the accumulating loop gives exactly Plus of the argument list |
| Primitives.Minus | final-main/interpreter.c:23-82 | a result of - is a number |
| Primitives.MinusIsFirstLessSum | final-main/interpreter.c:23-82 | on numbers, (- x) is the negation and (- x y ...) is x minus the sum of the rest, an Integer exactly when every argument is |
| Primitives.MinusLoopMeans | final-main/interpreter.c:50-69 | the difference loop fails on a non-number and otherwise subtracts the sum, switching to Double at the first Double |
| Primitives.SubtractEach | final-main/interpreter.c:50-69 | the loop over the arguments after the first gives exactly the difference loop's outcome |
| Primitives.PrimitiveMinus | final-main/interpreter.c:23-82 | the loop gives exactly Minus of the argument list |
| Primitives.CompareChain | final-main/interpreter.c:89-149 | a comparison gives a Boolean |
| Primitives.Compare | final-main/interpreter.c:156-216 | < and > give a Boolean |
| Primitives.CompareNumbers | final-main/interpreter.c:89-216 | on numbers, < (or >) is #t exactly when every adjacent pair is strictly increasing (decreasing) |
| Primitives.CompareFails | final-main/interpreter.c:89-216 | a comparison fails only when some argument is not a number, with its own message |
| Primitives.CompareStopsEarly | final-main/interpreter.c:89-149 | at the first pair out of order the result is #f, whatever follows it |
| Primitives.PrimitiveCompare | final-main/interpreter.c:89-216 | the loop gives exactly Compare of the argument list |
| Primitives.EqualFrom | final-main/interpreter.c:223-271 | = gives a Boolean |
| Primitives.Equal | final-main/interpreter.c:223-271 | = gives a Boolean |
| Primitives.EqualFromNumbers | final-main/interpreter.c:223-271 | on numbers, the loop gives #t exactly when every argument equals the first |
| Primitives.EqualNumbers | final-main/interpreter.c:223-271 | on numbers, = is #t exactly when all arguments are equal |
| Primitives.EqualFromFails | final-main/interpreter.c:223-271 | the loop fails only on a non-number |
| Primitives.EqualFails | final-main/interpreter.c:223-271 | = fails only when some argument is not a number |
| Primitives.PrimitiveEqual | final-main/interpreter.c:223-271 | the loop gives exactly Equal of the argument list |
| Primitives.NullP | final-main/interpreter.c:335-355 | needs exactly one argument and gives #t exactly when it is the empty list |
| Primitives.Car | final-main/interpreter.c:363-377 | needs exactly one argument, which is a pair, and gives its first slot; otherwise the arity or the not-a-pair error |
| Primitives.Cdr | final-main/interpreter.c:385-399 | needs exactly one pair argument and gives its second slot; otherwise the arity or the not-a-pair error |
| Primitives.ConsP | final-main/interpreter.c:407-417 | needs exactly two arguments and gives the pair of them |
| Primitives.CarCdrCons | primitives-main/interpreter.c:108-162 | car and cdr of (cons a b) are a and b, and cons of car and cdr of a pair rebuilds it |
| Primitives.Bind | final-main/interpreter.c:425-437 | bind changes only the given frame and keeps its parent |
| Primitives.BindThenLookUp | primitives-main/interpreter.c:170-182 | after bind the name gives that primitive in that frame |
| Primitives.CarCdrReversalHarmless | primitives-main/interpreter.c:549-556 | for car and cdr, skipping the argument reversal changes nothing, because they take one argument |
| FinalInterpreter.Eval | final-main/interpreter.c:880-957 | a successful evaluation leaves a valid store that has only grown, and a usable value |
| FinalInterpreter.EvalForm | final-main/interpreter.c:901-947 | dispatch on the head keeps the store valid and only grows it |
| FinalInterpreter.EvalCall | final-main/interpreter.c:939-947 | an application keeps the store valid and only grows it |
| FinalInterpreter.EvalEach | final-main/interpreter.c:444-467 | evalEach gives a proper list holding one value per operand on top of the accumulated ones, and keeps the store valid and growing |
| FinalInterpreter.EvalOperands | final-main/interpreter.c:939-947 | evaluating the operands and applying the operator keeps the store valid and only lets it grow |
| FinalInterpreter.Apply | final-main/interpreter.c:530-574 | apply keeps the store valid and only grows it |
| FinalInterpreter.EvalBody | final-main/interpreter.c:811-818 | a body keeps the store valid and only grows it |
| FinalInterpreter.EvalIf | final-main/interpreter.c:674-695 | if keeps the store valid and only grows it |
| FinalInterpreter.EvalLet | final-main/interpreter.c:827-872 | let keeps the store valid and only grows it |
| FinalInterpreter.LetBindings | final-main/interpreter.c:845-861 | let's binding loop keeps the store valid and only grows it |
| FinalInterpreter.EvalLetrec | final-main/interpreter.c:749-819 | letrec keeps the store valid and only grows it |
| FinalInterpreter.Placeholders | final-main/interpreter.c:767-786 | the placeholder loop keeps the store valid and its size |
| FinalInterpreter.BindPlaceholders | final-main/interpreter.c:767-786 | the placeholder loop gives exactly Placeholders' outcome |
| FinalInterpreter.PlaceholdersPlace | final-main/interpreter.c:767-786 | after the placeholder loop, every name of the binding list is bound in the new frame |
| FinalInterpreter.ReverseFrame | final-main/interpreter.c:789-799 | the in-place reversal leaves the new frame's bindings in reverse order and no other frame changed |
| FinalInterpreter.LetrecInits | final-main/interpreter.c:802-808 | the assignment loop keeps the store valid and only grows it |
| FinalInterpreter.EvalDefine | final-main/interpreter.c:607-622 | define keeps the store valid and only grows it |
| FinalInterpreter.EvalSet | final-main/interpreter.c:724-742 | set! keeps the store valid and only grows it |
| FinalInterpreter.EvalBegin | final-main/interpreter.c:702-717 | begin keeps the store valid and only grows it |
| FinalInterpreter.GlobalStore | final-main/interpreter.c:1034-1058 | the global frame is the one root frame |
| FinalInterpreter.GlobalDistinct | final-main/interpreter.c:1039-1047 | the nine primitive names are distinct |
| FinalInterpreter.GlobalBindings | final-main/interpreter.c:1039-1047 | each of the nine names gives its primitive, and every other name is unbound |
| FinalInterpreter.GlobalFrame | final-main/interpreter.c:1039-1047 | the global frame holds the nine bindings, the last bound first |
| FinalInterpreter.EvalForms | final-main/interpreter.c:1034-1058 | the top-level loop produces one result per expression until the first error, and all of them when there is none |
| FinalInterpreter.Interpret | final-main/interpreter.c:1034-1058 | interpret succeeds exactly when it produces a result for every top-level expression |
| FinalInterpreter.AtomsEvaluate | final-main/interpreter.c:886-900 | numbers, strings and Booleans evaluate to themselves; a symbol gives its binding's value, or is unbound |
| FinalInterpreter.IfChooses | final-main/interpreter.c:674-695 | the test's error is the result; a non-Boolean test is an error; otherwise only the chosen branch is evaluated, from the store the test left |
| FinalInterpreter.IfNeedsThreeOperands | final-main/interpreter.c:674-695 | if with two operands, or with four or more, is an error before anything is evaluated |
| FinalInterpreter.DefineRejects | final-main/interpreter.c:607-622 | define with other than two operands, or with a non-symbol first, is the arity or the non-variable error |
| FinalInterpreter.QuoteReturnsDatum | final-main/interpreter.c:918-925 | (quote d) is d itself and changes nothing |
| FinalInterpreter.QuoteNeedsOneOperand | final-main/interpreter.c:918-925 | quote with no operand or several is an error |
| FinalInterpreter.DefineThenLookUp | final-main/interpreter.c:607-622 | define fails exactly when the name is already bound in the current frame; otherwise it gives VOID, the name gives the value, and no other name changes |
| FinalInterpreter.SetThenLookUp | final-main/interpreter.c:724-742 | set! of an unbound name is an error; otherwise it gives VOID, adds no frame, and the name gives the new value while no other name changes |
| FinalInterpreter.LetrecPlaceholders | final-main/interpreter.c:767-799 | letrec first binds the name to a placeholder in a new child frame |
| FinalInterpreter.LetrecOneSteps | final-main/interpreter.c:749-819 | letrec runs its inits in the new frame, then its body in that frame |
| FinalInterpreter.LetrecInitsOne | final-main/interpreter.c:802-808 | an init's value is assigned to its name's placeholder |
| FinalInterpreter.LetInitInOuterFrame | final-main/interpreter.c:827-872 | let evaluates its init in the enclosing frame and gives the body's value in the new frame |
| FinalInterpreter.LetrecInitInNewFrame | final-main/interpreter.c:749-819 | letrec evaluates its init in the new frame, where the name then gives the value |
| FinalInterpreter.PlaceholdersBindEach | final-main/interpreter.c:767-786 | the first loop succeeds exactly on a list of pairs whose names are distinct symbols not yet bound in the frame; it then has put each name, bound to UNSPECIFIED, on the front of the frame's bindings in turn, and no other frame has changed |
| FinalInterpreter.LetrecFrameInOrder | final-main/interpreter.c:756-799 | after the new frame, the first loop and the reversal, the new frame holds every name bound to UNSPECIFIED in declaration order under the enclosing frame, and the rest of the store is unchanged; a binding list that is not one of pairs with distinct names is an error |
| FinalInterpreter.LetrecSteps | final-main/interpreter.c:749-819 | on any binding list: a non-list binding list is an error first; a failure of the first loop is the result; otherwise the second loop runs from the reversed frame, then the body in the new frame |
| FinalInterpreter.LetBindsDistinctNames | final-main/interpreter.c:843-861 | if let's binding loop succeeds, the bindings are pairs whose names are distinct symbols, none bound in the new frame before, each bound there after |
| FinalInterpreter.ApplyNonClosure | final-main/interpreter.c:530-574 | a non-procedure operator is an error; a primitive gets the argument list unchanged and changes no frame |
| FinalInterpreter.ApplyClosure | final-main/interpreter.c:530-574 | too many or too few arguments are errors; otherwise the body runs in a new child of the captured frame, where each parameter gives its argument and other names resolve as in the captured frame |
| FinalInterpreter.EvalBodyInOrder | final-main/interpreter.c:811-818 | a body evaluates its expressions front to back in one frame, each from the store the one before left, and gives the last one's value and store; the first error is the result |
| FinalInterpreter.BeginReturnsLast | final-main/interpreter.c:702-717 | (begin) is VOID and changes nothing; (begin e1 ... en) evaluates e1 to en in turn and gives the value of en, or the first error |
| FinalInterpreter.EvalEachInOrder | final-main/interpreter.c:444-450 | evalEach evaluates the operands front to back, each from the store the one before left, and conses each value onto the accumulator; the first error stops it |
| FinalInterpreter.OperandsInOrder | final-main/interpreter.c:444-467 | from the empty list, evalEach fails exactly when an operand does, with that error; otherwise its list reversed holds exactly the operands' values in source order |
| FinalInterpreter.NumberOperatorRejected | final-main/interpreter.c:905-908 | a list headed by a number is not a function, whatever follows |
| FinalInterpreter.CallPassesArgumentsInOrder | final-main/interpreter.c:939-947 | the operator is evaluated first, then the operands in source order from the store it left; the operator is applied to their values in source order, except that car and cdr get them last first; the first error stops it |
| PrimitivesInterpreter.Eval | primitives-main/interpreter.c:502-566 | a successful evaluation leaves a valid, grown store and a usable value |
| PrimitivesInterpreter.EvalForm | primitives-main/interpreter.c:519-558 | dispatch on the head keeps the store valid and only grows it |
| PrimitivesInterpreter.EvalCall | primitives-main/interpreter.c:548-557 | an application keeps the store valid and only grows it |
| PrimitivesInterpreter.EvalEach | primitives-main/interpreter.c:189-213 | evalEach gives a proper list of as many values as operands |
| PrimitivesInterpreter.EvalOperands | primitives-main/interpreter.c:548-557 | evaluating the operands and applying the operator keeps the store valid and only lets it grow |
| PrimitivesInterpreter.Apply | primitives-main/interpreter.c:276-320 | apply keeps the store valid and only grows it |
| PrimitivesInterpreter.EvalBody | primitives-main/interpreter.c:459-468 | a body keeps the store valid and only grows it |
| PrimitivesInterpreter.EvalIf | primitives-main/interpreter.c:395-416 | if keeps the store valid and only grows it |
| PrimitivesInterpreter.EvalLet | primitives-main/interpreter.c:424-469 | let keeps the store valid and only grows it |
| PrimitivesInterpreter.LetBindings | primitives-main/interpreter.c:442-457 | let's binding loop keeps the store valid and only grows it |
| PrimitivesInterpreter.EvalDefine | primitives-main/interpreter.c:328-343 | define keeps the store valid and only grows it |
| PrimitivesInterpreter.GlobalStore | primitives-main/interpreter.c:643-663 | the global frame is the one root frame |
| PrimitivesInterpreter.GlobalDistinct | primitives-main/interpreter.c:648-652 | the five primitive names are distinct |
| PrimitivesInterpreter.GlobalBindings | primitives-main/interpreter.c:648-652 | each of the five names gives its primitive, and every other name is unbound |
| PrimitivesInterpreter.GlobalFrame | primitives-main/interpreter.c:648-652 | the global frame holds the five bindings, the last bound first |
| PrimitivesInterpreter.EvalForms | primitives-main/interpreter.c:643-663 | one result per expression until the first error |
| PrimitivesInterpreter.Interpret | primitives-main/interpreter.c:643-663 | interpret succeeds exactly when every top-level expression gives a result |
| PrimitivesInterpreter.AtomsEvaluate | primitives-main/interpreter.c:504-518 | numbers, strings and Booleans evaluate to themselves; a symbol gives its binding's value, or is unbound |
| PrimitivesInterpreter.IfChooses | primitives-main/interpreter.c:395-416 | a non-Boolean test is an error; otherwise only the chosen branch is evaluated |
| PrimitivesInterpreter.IfNeedsThreeOperands | primitives-main/interpreter.c:395-416 | if needs exactly three operands |
| PrimitivesInterpreter.DefineRejects | primitives-main/interpreter.c:328-343 | define with other than two operands, or with a non-symbol first, is an error |
| PrimitivesInterpreter.QuoteReturnsDatum | primitives-main/interpreter.c:533-540 | (quote d) is d itself |
| PrimitivesInterpreter.QuoteNeedsOneOperand | primitives-main/interpreter.c:533-540 | quote with no operand or several is an error |
| PrimitivesInterpreter.DefineThenLookUp | primitives-main/interpreter.c:328-343 | define fails exactly on a name bound in the current frame; otherwise it gives VOID and binds the name there only |
| PrimitivesInterpreter.LetInitInOuterFrame | primitives-main/interpreter.c:424-469 | let evaluates its init in the enclosing frame, binds it in a fresh child frame, and gives the body's value |
| PrimitivesInterpreter.LetBindsDistinctNames | primitives-main/interpreter.c:440-458 | if let's binding loop succeeds, the bindings are pairs whose names are distinct symbols, none bound in the new frame before, each bound there after |
| PrimitivesInterpreter.ApplyNonClosure | primitives-main/interpreter.c:276-320 | a non-procedure is an error; a primitive gets the argument list unchanged |
| PrimitivesInterpreter.ApplyClosure | primitives-main/interpreter.c:276-320 | arity errors both ways; otherwise the parameters are bound pairwise in a new child of the captured frame and the body runs there |
| PrimitivesInterpreter.EvalEachInOrder | primitives-main/interpreter.c:189-195 | evalEach evaluates the operands front to back, each from the store the one before left, and conses each value onto the accumulator; the first error stops it |
| PrimitivesInterpreter.OperandsInOrder | primitives-main/interpreter.c:189-213 | from the empty list, evalEach fails exactly when an operand does, with that error; otherwise its list reversed holds exactly the operands' values in source order |
| PrimitivesInterpreter.EvalBodyInOrder | primitives-main/interpreter.c:461-468 | a body evaluates its expressions front to back in one frame and gives the last one's value and store; the first error is the result |
| PrimitivesInterpreter.NumberOperatorRejected | primitives-main/interpreter.c:523-525 | a list headed by a number is not a function |
| PrimitivesInterpreter.CallPassesArgumentsInOrder | primitives-main/interpreter.c:548-557 | the operator is evaluated first, then the operands in source order from the store it left; the operator gets their values in source order, except that car and cdr get them last first; the first error stops it |
| LambdaInterpreter.Eval | lambda-main/interpreter.c:311-367 | a successful evaluation leaves a valid, grown store and a usable value |
| LambdaInterpreter.EvalForm | lambda-main/interpreter.c:328-361 | dispatch on the head keeps the store valid and only grows it |
| LambdaInterpreter.EvalCall | lambda-main/interpreter.c:354-359 | an application keeps the store valid and only grows it |
| LambdaInterpreter.EvalEach | lambda-main/interpreter.c:23-31 | evalEach gives a proper list of as many values as operands |
| LambdaInterpreter.EvalOperands | lambda-main/interpreter.c:355-359 | evaluating the operands and applying the operator keeps the store valid and only lets it grow |
| LambdaInterpreter.Apply | lambda-main/interpreter.c:94-129 | apply keeps the store valid and only grows it |
| LambdaInterpreter.EvalBody | lambda-main/interpreter.c:120-126 | a body keeps the store valid and only grows it |
| LambdaInterpreter.EvalIf | lambda-main/interpreter.c:204-225 | if keeps the store valid and only grows it |
| LambdaInterpreter.EvalLet | lambda-main/interpreter.c:233-278 | let keeps the store valid and only grows it |
| LambdaInterpreter.LetBindings | lambda-main/interpreter.c:251-266 | let's binding loop keeps the store valid and only grows it |
| LambdaInterpreter.EvalDefine | lambda-main/interpreter.c:137-152 | define keeps the store valid and only grows it |
| LambdaInterpreter.EvalForms | lambda-main/interpreter.c:432-444 | one result per expression until the first error |
| LambdaInterpreter.Interpret | lambda-main/interpreter.c:432-444 | interpret succeeds exactly when every top-level expression gives a result |
| LambdaInterpreter.GlobalSymbolUnbound | lambda-main/interpreter.c:286-303 | a symbol alone in an empty global frame is unbound |
| LambdaInterpreter.AtomsEvaluate | lambda-main/interpreter.c:311-327 | numbers, strings and Booleans evaluate to themselves; a symbol gives its looked-up value |
| LambdaInterpreter.IfChooses | lambda-main/interpreter.c:204-225 | a non-Boolean test is an error; otherwise only the chosen branch is evaluated |
| LambdaInterpreter.IfNeedsThreeOperands | lambda-main/interpreter.c:204-225 | if needs exactly three operands |
| LambdaInterpreter.DefineRejects | lambda-main/interpreter.c:137-152 | define needs exactly two operands with a symbol first |
| LambdaInterpreter.QuoteReturnsOperandList | lambda-main/interpreter.c:338-345 | (quote d) is the operand list (d), not d |
| LambdaInterpreter.QuoteNeedsOneOperand | lambda-main/interpreter.c:338-345 | quote with no operand or several is an error |
| LambdaInterpreter.DefineThenLookUp | lambda-main/interpreter.c:137-152 | define binds in the current frame only, fails on a name already bound there, and gives VOID |
| LambdaInterpreter.LetInitInOuterFrame | lambda-main/interpreter.c:233-278 | let's init is evaluated in the enclosing frame, not the new one |
| LambdaInterpreter.LetBindsDistinctNames | lambda-main/interpreter.c:249-267 | if let's binding loop succeeds, the bindings are pairs whose names are distinct symbols, none bound in the new frame before, each bound there after |
| LambdaInterpreter.ApplyNonClosure | lambda-main/interpreter.c:94-99 | any operator that is not a closure is an error |
| LambdaInterpreter.ApplyClosure | lambda-main/interpreter.c:100-128 | arity errors both ways; otherwise the parameters are bound pairwise in a new child of the captured frame |
| LambdaInterpreter.NumberOperatorNotAFunction | lambda-main/interpreter.c:354-359 | with special forms recognised on symbol heads only, (n) for a number n is evaluated as an application and is the not-a-function error |
| LambdaInterpreter.EvalEachInOrder | lambda-main/interpreter.c:23-29 | evalEach evaluates the operands front to back, each from the store the one before left, and conses each value onto the accumulator; the first error stops it |
| LambdaInterpreter.OperandsInOrder | lambda-main/interpreter.c:23-31 | evalEach fails exactly when an operand does, with that error; otherwise the reversed list holds exactly the operands' values in source order |
| LambdaInterpreter.EvalBodyInOrder | lambda-main/interpreter.c:120-126 | a closure's body evaluates its expressions front to back in one frame and gives the last one's value and store; the first error is the result |
| LambdaInterpreter.CallPassesArgumentsInOrder | lambda-main/interpreter.c:354-359 | the operator is evaluated first, then the operands in source order from the store it left, and the operator is applied to their values in source order; the first error stops it |
| QuoteInterpreter.ExtendsTrans | quote-main/interpreter.c:93-137 | frames added by nested lets extend the store step by step |
| QuoteInterpreter.Eval | quote-main/interpreter.c:170-218 | a successful evaluation leaves a valid store that extends the old one |
| QuoteInterpreter.EvalForm | quote-main/interpreter.c:185-215 | dispatch on the head keeps the store valid and extends it |
| QuoteInterpreter.EvalIf | quote-main/interpreter.c:64-85 | if keeps the store valid and extends it |
| QuoteInterpreter.EvalLet | quote-main/interpreter.c:93-137 | let keeps the store valid and extends it |
| QuoteInterpreter.LetBindings | quote-main/interpreter.c:111-125 | the binding loop changes no frame before the new one and keeps its parent |
| QuoteInterpreter.EvalBody | quote-main/interpreter.c:127-135 | a body keeps the store valid and extends it |
| QuoteInterpreter.EvalKeepsLookUps | quote-main/interpreter.c:170-218 | evaluation never changes what a name gives from an existing frame |
| QuoteInterpreter.AtomsEvaluate | quote-main/interpreter.c:170-183 | numbers, strings and Booleans evaluate to themselves; a symbol gives its value or is unbound |
| QuoteInterpreter.QuoteReturnsOperandList | quote-main/interpreter.c:197-204 | (quote d) is the operand list (d) |
| QuoteInterpreter.QuoteNeedsOneOperand | quote-main/interpreter.c:197-204 | quote with no operand or several is an error |
| QuoteInterpreter.UnrecognizedFormFails | quote-main/interpreter.c:206-210 | with special forms recognised on symbol heads only, a list whose head is not the symbol if, let or quote is the unrecognised-form error |
| QuoteInterpreter.IfChooses | quote-main/interpreter.c:64-85 | a non-Boolean test is an error; otherwise only the chosen branch is evaluated |
| QuoteInterpreter.IfNeedsThreeOperands | quote-main/interpreter.c:64-85 | if needs exactly three operands |
| QuoteInterpreter.LetInitInOuterFrame | quote-main/interpreter.c:93-137 | let evaluates its init in the outer frame and gives the body's value |
| QuoteInterpreter.LetSteps | quote-main/interpreter.c:93-137 | let binds in a fresh child frame, then runs its body there |
| QuoteInterpreter.LetBindingsOne | quote-main/interpreter.c:111-125 | a binding's name gives its init's value in the new frame |
| QuoteInterpreter.LetBindsDistinctNames | quote-main/interpreter.c:109-126 | if let's binding loop succeeds, the bindings are pairs whose names are distinct symbols, none bound in the new frame before, each bound there after, and every name bound there before stays bound |
| QuoteInterpreter.EvalForms | quote-main/interpreter.c:279-289 | one result per expression until the first error |
| QuoteInterpreter.Interpret | quote-main/interpreter.c:279-289 | interpret succeeds exactly when every top-level expression gives a result |
| QuoteInterpreter.GlobalSymbolUnbound | quote-main/interpreter.c:145-162 | a symbol alone in an empty global frame is unbound |
| Tokenizer.DigitRun | tokenizer-main/tokenizer.c:60-64 | the digit loop reads only digits and stops at the first non-digit |
| Tokenizer.SubsequentCount | tokenizer-main/tokenizer.c:147-158 | the symbol loop stops at the first character a symbol cannot continue with |
| Tokenizer.Terminated | tokenizer-main/tokenizer.c:66-86 | a token must end at a space, newline, EOF or parenthesis; a parenthesis is left unread |
| Tokenizer.QuoteIndex | tokenizer-main/tokenizer.c:15-40 | the string loop stops at the first double quote |
| Tokenizer.ReadString | tokenizer-main/tokenizer.c:15-40 | a string succeeds exactly when a closing quote follows, else it is the invalid-string error |
| Tokenizer.ReadStringSplits | tokenizer-main/tokenizer.c:15-40 | the string token keeps both quotes and reading resumes after the closing one |
| Tokenizer.ReadNumber | tokenizer-main/tokenizer.c:46-132 | a number token is an Integer or a Double, and its errors are the number errors |
| Tokenizer.ReadUnsigned | tokenizer-main/tokenizer.c:59-131 | after the sign: an Integer or a Double, or a number error |
| Tokenizer.ReadUnsignedCases | tokenizer-main/tokenizer.c:59-131 | digits then a delimiter give the signed Integer; a point goes on to the fraction; anything else is an invalid number |
| Tokenizer.ReadAfterDigits | tokenizer-main/tokenizer.c:66-131 | what follows a run of digits decides the token: an Integer or a Double, or the invalid-number or invalid-double error, never reading back past it |
| Tokenizer.ReadFraction | tokenizer-main/tokenizer.c:87-121 | the fraction gives a Double or the invalid-double error |
| Tokenizer.ReadDecimal | tokenizer-main/tokenizer.c:87-121 | digits, a point and digits, then a delimiter, give the Double of that decimal text |
| Tokenizer.ReadSymbol | tokenizer-main/tokenizer.c:138-184 | a symbol is its first character and the run of symbol characters after it, and must end at a delimiter |
| Tokenizer.AfterLine | tokenizer-main/tokenizer.c:314-318 | skipping a comment never lengthens the remaining input |
| Tokenizer.LexSign | tokenizer-main/tokenizer.c:233-268 | a sign step always consumes input |
| Tokenizer.LexBool | tokenizer-main/tokenizer.c:286-301 | a Boolean step always consumes input |
| Tokenizer.Lex | tokenizer-main/tokenizer.c:190-335 | each step consumes input, and its errors are the tokenizer's errors |
| Tokenizer.ScanErrors | tokenizer-main/tokenizer.c:190-335 | tokenizing fails only with a tokenizer error |
| Tokenizer.LexParen | tokenizer-main/tokenizer.c:198-215 | ( and ) are the OPEN and CLOSE tokens on their own |
| Tokenizer.LexSignCases | tokenizer-main/tokenizer.c:233-268 | a sign before a delimiter is a symbol; before a digit, or a point and a digit, it starts a number; otherwise it is an invalid symbol |
| Tokenizer.LexHash | tokenizer-main/tokenizer.c:286-301 | #t and #f are the Booleans; # before anything else is an invalid Boolean |
| Tokenizer.AfterLineSkips | tokenizer-main/tokenizer.c:314-318 | a comment is skipped up to and including its newline |
| Tokenizer.LexComment | tokenizer-main/tokenizer.c:314-318 | a comment makes no token |
| Tokenizer.LexBlank | tokenizer-main/tokenizer.c:319-327 | spaces and newlines make no token; a tab is bad syntax |
| Tokenizer.ProcessString | tokenizer-main/tokenizer.c:15-40 | the character loop gives exactly ReadString's token and leaves the stream where it does |
| Tokenizer.ReadDigits | tokenizer-main/tokenizer.c:60-64 | the loop reads exactly the run of digits |
| Tokenizer.Finish | tokenizer-main/tokenizer.c:66-86 | the end-of-token check gives exactly Terminated's outcome, pushing a parenthesis back |
| Tokenizer.ProcessNumber | tokenizer-main/tokenizer.c:46-132 | processNumber gives exactly ReadNumber's outcome |
| Tokenizer.ProcessUnsigned | tokenizer-main/tokenizer.c:59-131 | the digit loop and branches give exactly ReadUnsigned's outcome |
| Tokenizer.ProcessAfterDigits | tokenizer-main/tokenizer.c:66-131 | the branches after the digit loop give exactly ReadAfterDigits' outcome and leave the stream where it does |
| Tokenizer.ProcessFraction | tokenizer-main/tokenizer.c:87-121 | the fraction loop gives exactly ReadFraction's outcome |
| Tokenizer.ProcessSymbol | tokenizer-main/tokenizer.c:138-184 | processSymbol gives exactly ReadSymbol's outcome |
| Tokenizer.ReadSign | tokenizer-main/tokenizer.c:233-268 | the sign case, with its pushed-back characters, gives exactly LexSign's outcome |
| Tokenizer.ReadBool | tokenizer-main/tokenizer.c:286-301 | the Boolean case gives exactly LexBool's outcome |
| Tokenizer.SkipComment | tokenizer-main/tokenizer.c:314-318 | the comment loop stops exactly where AfterLine does |
| Tokenizer.ReadToken | tokenizer-main/tokenizer.c:196-330 | one pass of tokenize's loop gives exactly Lex's outcome |
| Tokenizer.Tokenize | tokenizer-main/tokenizer.c:190-335 | the loop and the final reverse give the tokens in input order, or the first error |
| Tokenizer.DecNatDigits | tokenizer-main/tokenizer.c:66-73 | strtol of a number's printed digits gives the number back |
| Tokenizer.ScanToken | tokenizer-main/tokenizer.c:190-335 | a printed token followed by a space is read back as that token |
| Tokenizer.LexInt | tokenizer-main/tokenizer.c:233-268 | a printed integer, negative ones with their minus sign, followed by a space is read as that Integer |
| Tokenizer.LexSymbol | tokenizer-main/tokenizer.c:303-311 | a symbol name followed by a space is lexed by the symbol reader, a lone + or - included |
| Tokenizer.ScanString | tokenizer-main/tokenizer.c:218-224 | a string token followed by a space is read back as that String, and scanning resumes after it |
| Tokenizer.ScanSymbol | tokenizer-main/tokenizer.c:303-311 | a symbol name followed by a space is read back as that Symbol |
| Tokenizer.ScanInt | tokenizer-main/tokenizer.c:46-132 | a printed integer followed by a space is read back as that Integer |
| Tokenizer.ScanRender | tokenizer-main/tokenizer.c:190-335 | printed tokens separated by spaces are read back exactly, in order |
| Tokenizer.TokenizeRender | tokenizer-main/tokenizer.c:332-334 | tokenize returns printed tokens as a list in input order |
| Parser.Peek | parser-main/parser.c:16-24 | peek on an empty stack is the too-many-close error; otherwise it is the top of the stack |
| Parser.Push | parser-main/parser.c:29-86 | push puts the token on top of the old stack |
| Parser.OpenIndex | parser-main/parser.c:104-118 | the pop loop stops at the nearest OPEN |
| Parser.PopToOpen | parser-main/parser.c:104-118 | the pop loop takes the cells above the nearest OPEN, last popped first, and leaves the stack below that OPEN |
| Parser.Step | parser-main/parser.c:91-121 | depth changes by +1 for OPEN, -1 for CLOSE and 0 otherwise, and the number of OPENs on the stack follows it |
| Parser.Run | parser-main/parser.c:128-147 | over all the tokens, depth is the sum of the changes and counts the OPENs left on the stack |
| Parser.AddToParseTree | parser-main/parser.c:91-121 | the push and pop loops give exactly Step's stack and depth |
| Parser.Parse | parser-main/parser.c:128-147 | parse gives exactly Run's stack |
| Parser.FlattenBalanced | parser-main/parser.c:91-121 | the tokens of a datum have as many CLOSEs as OPENs, and no prefix closes more than it opens |
| Parser.RunAppend | parser-main/parser.c:128-147 | parsing two token runs one after the other is parsing their concatenation |
| Parser.CloseAfterElems | parser-main/parser.c:104-118 | a CLOSE gathers the elements above the nearest OPEN in source order, drops the OPEN and pushes the list |
| Parser.RunFlatten | parser-main/parser.c:91-121 | the tokens of a datum push exactly that datum |
| Parser.RunFlattenElems | parser-main/parser.c:104-118 | the tokens of a list's elements push them, last on top |
| Parser.ParseForms | parser-main/parser.c:128-147 | the tokens of several forms leave them on the stack, last on top |
| Parser.ParseReversesForms | parser-main/parser.c:128-147 | parse returns the top-level forms in reverse source order |
| Parser.UnclosedListsStayOnStack | parser-main/parser.c:128-147 | a non-zero final depth is not reported: it counts the OPENs left on the stack |
| LambdaParser.SyntaxError | lambda-main/parser.c:20-28 | "too many close" exactly for a negative depth, "too few close" otherwise |
| LambdaParser.CheckedStep | lambda-main/parser.c:101-134 | a CLOSE at depth zero is an error before anything is popped; otherwise the step is the plain parser's |
| LambdaParser.CheckedRun | lambda-main/parser.c:101-134 | the loop fails exactly when the parentheses close too soon, and otherwise runs as the plain parser does |
| LambdaParser.ParseOutcomes | lambda-main/parser.c:142-174 | too many closes and too few closes are the two errors, each exactly when it occurs; otherwise parse returns the stack reversed |
| LambdaParser.ParseRoundTrip | lambda-main/parser.c:142-174 | parsing the tokens of a sequence of forms gives exactly those forms, in source order |
| LambdaParser.AddToParseTree | lambda-main/parser.c:101-134 | the depth check, push and pop loops give exactly CheckedStep's outcome |
| LambdaParser.Parse | lambda-main/parser.c:142-174 | the loop, depth check and in-place reversal give exactly ParseResult |

## Left out

- Printing is not part of this model. It only formats standard output. This covers `printingHelper`, interpret's print loop, `printTree`, `displayTokens` and `display`. Each interpreter's `Interpret` returns the sequence of results instead.
- `talloc`, `tfree`, `texit` and `cleanup` are not part of this model. They wrap the C allocator. `texit` after a message is the `Fail` outcome.
- Doubles are idealised. A Double holds an exact `real`, so `strtod` and IEEE rounding and comparison are not modelled.
- Integers are unbounded. C `int` overflow in `+` and `-` is not modelled, and neither is `strtol`'s range.
- Standard input is a character sequence with a cursor, and EOF is its end. A 0xFF character, which the `(char)` cast makes equal to EOF, is not modelled.
- The 300-character token buffer, which is never checked, is not modelled: tokens are unbounded.
- Shapes on which the source fails an assertion are excluded by preconditions, not given behaviours:
  - `(if)`;
  - a `let` or `letrec` binding without an init;
  - `(letrec () ...)`;
  - a parse of no tokens;
  - a CLOSE with no OPEN below it in `parser-main`.
- Special forms are recognised on symbol heads only. The source reads the head's string field with `strcmp` whatever the head's type:
  - In `final-main` and `primitives-main` a head-type check runs first, so only a pair head is punned.
  - In `lambda-main` (lambda-main/interpreter.c:332-351) and `quote-main` (quote-main/interpreter.c:191-204) nothing checks the head's type. A number, Boolean or empty-list head has its union bits read as a `char*`. That is undefined behaviour, and in practice a crash.
  - In `addBinding`'s scan, a name that is not a symbol matches no bound name.
- LambdaInterpreter.NumberOperatorNotAFunction: states the model's symbol-heads-only reading, in which `(n)` reaches apply and is the not-a-function error. The C reads the number as a string pointer first.
- QuoteInterpreter.UnrecognizedFormFails: states the model's symbol-heads-only reading for every head. For a number, Boolean or empty-list head the C reads the head as a string pointer first.
- The fuel bound is part of the model. A program that runs out of fuel gives `OutOfFuel`; the C program would run on, or overflow its stack. Each top-level expression gets the full fuel count.
- Loops that call `eval` are recursive functions, not methods, because functions and lemmas cannot call methods:
  - `evalEach`;
  - the `let` and `letrec` loops;
  - the body loops;
  - apply's binding loop (BindParams, with BindArgs as its method);
  - interpret's loop.
- A binding cell is not a shared object. `set!` and `letrec` overwrite the first binding of the name in the frame that lookup finds. Names in a frame are distinct, because `addBinding` rejects duplicates, so this is the same cell the source writes.
- `letrec` assigns each init to its placeholder by name. The source walks the reversed bindings list alongside the binding list. The two agree because the names are distinct.
- The `parser-main` `push` copies a pair token, and the `lambda-main` `push` shares it. Values are immutable here, so copying and sharing are the same.
- `lambda-main/linkedlist.c` is not part of this model. The `lambda-main` `evalEach` assumes that its `reverse` is the ordinary element-wise reversal, `Values.ReverseList`. If that stage used the recursive `reverseHelper` of `linkedlist-main` or `iflet-main` (see Findings), the two would differ on argument lists holding pairs or closures:
  - `quote` returns its operand list (lambda-main/interpreter.c:344), so a quoted argument is a pair;
  - the known `reverseHelper` switches have no closure case.
- Tokenizer.ScanRender: the read-back round trip covers every token kind except Double. Reading a Double is covered by ReadDecimal.
- LinkedList.Length: an improper list is outside its domain, because the source asserts that each cdr it walks is a cons cell. The same holds for IfletLinkedList.Length.
- LambdaParser.Parse: requires a non-empty token list. The source takes the cdr of the empty stack otherwise.
- FinalInterpreter.LetInitInOuterFrame: stated for one binding. For any binding list the model proves only LetBindsDistinctNames and LetBindings' invariant, not that each name gives its init's value. That would need a proof that evaluating an init in the enclosing frame never reads or writes the new frame.
- PrimitivesInterpreter.LetInitInOuterFrame: stated for one binding, for the same reason.
- LambdaInterpreter.LetInitInOuterFrame: stated for one binding, for the same reason.
- QuoteInterpreter.LetInitInOuterFrame: stated for one binding, for the same reason.
- QuoteInterpreter.LetBindingsOne: stated for one binding, for the same reason.
- FinalInterpreter.LetrecInitInNewFrame: stated for one binding. With several bindings a later init can `set!` an earlier name, so `(letrec ((a 1) (b (set! a 2))) a)` gives 2 and no per-name value statement holds. LetrecSteps and LetrecFrameInOrder cover any binding list up to the second loop.
- FinalInterpreter.LetrecInitsOne: the second loop is stated for one binding, for the same reason.
- FinalInterpreter.LetrecOneSteps: the one-binding instance of LetrecSteps.
- FinalInterpreter.LetrecPlaceholders: the one-binding instance of LetrecFrameInOrder.

## Findings

| source | as written | input that shows it | evidently intended | confidence | as-written member | corrected member |
|---|---|---|---|---|---|---|
| linkedlist-main/linkedlist.c:118-146 | reverseHelper applies itself to each car, so an empty-list element is replaced by the accumulator, and a nested list is reversed onto it | reverse of (1 ()) gives ((1) 1) | (() 1): the elements in reverse order, each left as it is | not executed | LinkedList.ReverseMisplacesEmptyElement | Values.ReverseList |
| iflet-main/linkedlist.c:108-136 | the same recursion into each car | reverse of (1 ()) gives ((1) 1) | (() 1) | not executed | IfletLinkedList.ReverseMisplacesEmptyElement | Values.ReverseList |
