# bedlam core in Dafny

This project models the two core files of bedlam, a small Lisp-like language
implemented in Python, and proves properties of them.

- `parse.py` turns program text into an AST. `tokenize` hides the insides of
  string literals behind placeholder words, `__BEDLAM_SPACE` and
  `__BEDLAM_NEWLINE` for spaces and newlines and `__BEDLAM_QUOTE` for
  escaped quotes. It pads brackets and commas with spaces and splits at
  runs of whitespace. `build_ast` is a recursive-descent loop over the
  tokens. It classifies each word as a string, int, float or identifier
  node and nests a `call`, `vec` or `map` node for each bracket pair. It
  threads one shared, mutated `location` record through all levels.
- `interpret.py` is a tree-walking evaluator. A context is a chain of
  `{scope, parent}` frames. A call evaluates only its callee and hands it
  the unevaluated argument nodes and the caller's context. The builtins are
  `defn fn partial apply map let case exit join inc dec + - * /`.
  `interpret` runs the top-level statements in one shared scope, and `exit`
  unwinds out of them.

How the source is modelled:

- Datatypes: nodes (`Syntax.Node`), runtime values, frames and outcomes
  (`Values`).
- Arithmetic, `str()` and `str.join` are in `Primitives`.
- The evaluator (`Evaluator`) is a set of mutually recursive functions.
  - All frames live in a heap value (`Values.Heap`).
  - The in-place write of `defn` into the current scope dict is an update of
    one frame that every holder of that frame index then sees. The scope
    shared by all top-level statements is frame 0.
  - A `fuel` argument bounds the recursion depth.
- Properties of the evaluator are proved in `EvalProperties` (nodes,
  lookup, calls), `FormProperties` (`defn`, `fn`, `partial`, `let`,
  `case`), `ValueFormProperties` (`inc`, `dec`, `+`, `-`, `*`, `/`,
  `join`) and `Driver` (`exit` and the statement loop).
- `Driver` holds the statement loop of `interpret`. It is a function, and
  also a method with a `while` loop that is proved equal to it.
- `Tokenizer` holds `tokenize`, each regex and string method written out.
  `TokenizerProperties` relates it to a character-by-character reference:
  - `Read` takes the text left to right. A `"` enters or leaves a string
    literal, and an escaped `\"` is a quote character that does neither.
  - `Piece` gives what each character becomes inside or outside a string.
  - `Words` gives the whitespace-separated words of the result.
  - `Expand` is `Read` for texts without a backslash.
  - `Escape` writes a string value with its quotes escaped.
- `Parser` has:
  - the specification function `Build` of one level of `build_ast`;
  - the shared location as a class `Location`;
  - an imperative `BuildAst` (a `while` loop with recursion into nested
    levels, mutating the one `Location`), proved to compute `Build` and to
    leave the location where `Build` says.
- `ParserProperties` proves that `Build` matches brackets by depth count,
  that what a level leaves is a suffix of its tokens just after its
  closer, and that nodes are located in line order. It also gives the
  results of `parse` on whole texts.

Where the code and its documented intent differ, the model follows the
code:

- `case` without a match and without a default reads the unbound local
  `default` (an error).
- `partial` evaluates the later arguments in its defining frame.
- `apply` and `map` splice the raw child nodes of their second argument.
- `defn` and `fn` take exactly 3 and 2 arguments, because of the unpacking
  that follows `assert_arity(min=...)`.
- A call, vec or map node is located where its nested level ended.

## Model

| member | source | states |
|---|---|---|
| Syntax.Children | parse.py:72-86 | exactly the bracketed node kinds (`call`, `vec`, `map`) hold a child list, and it is their `value` |
| Values.Chain | interpret.py:95-99 | the frames a lookup visits start at the current frame, stay inside the heap and follow parent links to ever earlier frames |
| Values.NewFrame | interpret.py:149-155 | a new context appends one frame with the given scope and parent; every older frame is unchanged and the heap grows |
| Values.Bind | interpret.py:157 | `context['scope'][name] = f` changes that one binding of that one frame; every other frame is unchanged and no name is lost |
| Primitives.Sum | interpret.py:270-272 | `+` succeeds exactly when every argument is an int, and then gives their sum (0 for none) |
| Primitives.AddInt | interpret.py:256-267 | `inc`/`dec` succeed exactly on an int and give it plus or minus one; a float is unsupported, anything else a type error |
| Primitives.Subtract | interpret.py:275-279 | `-` succeeds exactly on two ints and gives their difference |
| Primitives.Multiply | interpret.py:282-286 | int times int is the product, int times string (either order) repeats the string, two strings are a type error |
| Primitives.Divide | interpret.py:289-298 | the int divisor 0 is the division error, and exactly then; an int over a non-zero int yields a float, which is not modelled |
| Primitives.NatDecimal | interpret.py:252 | `str()` of a natural is a non-empty string of digits, with a leading zero only for 0 |
| Primitives.NatDecimalRoundTrip | interpret.py:252 | reading the decimal numeral back gives the number back |
| Primitives.Render | interpret.py:252 | `str()` is defined for strings, ints and `None`, and is the identity on strings |
| Primitives.JoinSnoc | interpret.py:251-253 | `sep.join` puts the separator exactly between consecutive parts |
| Primitives.JoinLength | interpret.py:251-253 | the joined length is the parts' total length plus one separator per gap |
| Primitives.Renderings | interpret.py:252 | one `str()` per value, position by position, for values that all have one |
| Primitives.AssertArityAsWritten | interpret.py:26-38 | as written, a passing check has `n` equal to `exact` and at least `min`, each when given; given `max`, fewer than `max` arguments are refused |
| Primitives.AssertArityMaxInverted | interpret.py:35-36 | as written, `max=2` refuses one argument and accepts five |
| Primitives.AssertArity | interpret.py:26-38 | the corrected check refuses more than `max` arguments; within `max`, or without one, it decides exactly as the code does for `exact` and `min` |
| Primitives.AssertArityMaxCorrected | interpret.py:35-36 | for every bound `m`, the code as written accepts more than `m` arguments and refuses fewer; the corrected check does the reverse |
| Primitives.AssertArityAgreesWithoutMax | interpret.py:26-38 | at every call site, none of which passes `max`, the corrected check agrees with the code as written |
| Evaluator.Builtins | interpret.py:137-298 | the builtin table binds exactly the fifteen registered names, each to a function value, and no two names to the same one |
| Evaluator.NodeKey | interpret.py:157 | identifier and string nodes give a name key, bracketed nodes an unhashable list |
| Evaluator.ParamNames | interpret.py:144-146 | a bracketed list of identifier nodes is accepted and yields their names in order; an invalid-parameter rejection points at a non-identifier in a bracketed list |
| Evaluator.IdentNames | interpret.py:144-146 | the names of a node list succeed exactly when every node is an identifier, and give the names position by position |
| Evaluator.Zip | interpret.py:152-153 | parameter i is paired with argument value i |
| Evaluator.Eval | interpret.py:70-131 | evaluating a node only grows the heap: frames are appended, existing ones keep their parent and names |
| Evaluator.EvalList | interpret.py:121 | a successful list evaluation gives one value per node, and the heap only grows |
| Evaluator.EvalPairs | interpret.py:128-131 | a successful map evaluation gives one pair per two nodes, each key hashable |
| Evaluator.EvalCall | interpret.py:79-88 | a call only grows the heap |
| Evaluator.Apply | interpret.py:85-88 | applying a function value only grows the heap |
| Evaluator.CallClosure | interpret.py:148-155 | a closure call only grows the heap |
| Evaluator.ApplyNative | interpret.py:137-298 | a builtin call only grows the heap |
| Evaluator.ArityThenUnpack | interpret.py:142 | `assert_arity(min=k)` followed by unpacking into k names passes exactly when there are k arguments |
| Evaluator.Defn | interpret.py:140-157 | `defn` changes no frame's parent and removes no name |
| Evaluator.Fn | interpret.py:160-177 | `fn` only grows the heap; what it returns is `FormProperties.FnBuildsClosure` |
| Evaluator.Partial | interpret.py:180-187 | `partial` only grows the heap; what it returns is `FormProperties.PartialBuildsValue` |
| Evaluator.ApplyForm | interpret.py:190-194 | `apply` only grows the heap |
| Evaluator.MapForm | interpret.py:197-204 | `map` only grows the heap |
| Evaluator.MapCalls | interpret.py:201-204 | the calls of `map` give one value per child node |
| Evaluator.Let | interpret.py:207-218 | `let` only grows the heap |
| Evaluator.LetPairs | interpret.py:214-217 | the bindings of `let` only grow the heap; what they bind is `FormProperties.LetPairsEvaluatesValues` |
| Evaluator.Case | interpret.py:221-237 | `case` only grows the heap; which branch it takes is `FormProperties.CaseFirstMatch` and `CaseNoMatch` |
| Evaluator.CaseScan | interpret.py:230-237 | the key scan of `case` only grows the heap; what it selects is `FormProperties.CaseSelects` and `CaseWithoutMatch` |
| Evaluator.ExitForm | interpret.py:240-244 | `exit` only grows the heap; what it raises is `Driver.ExitStatement` |
| Evaluator.JoinForm | interpret.py:247-253 | `join` only grows the heap; the string it gives is `ValueFormProperties.JoinFormValue` |
| Evaluator.JoinParts | interpret.py:251-253 | the parts of `join` are one string per argument; which strings is `ValueFormProperties.JoinPartsRender` |
| Evaluator.IncDec | interpret.py:256-267 | `inc`/`dec` only grow the heap; their value is `ValueFormProperties.IncDecValue` |
| Evaluator.Plus | interpret.py:270-272 | `+` only grows the heap; its value is `ValueFormProperties.PlusValue` |
| Evaluator.Minus | interpret.py:275-279 | `-` only grows the heap; its value is `ValueFormProperties.MinusValue` |
| Evaluator.Times | interpret.py:282-286 | `*` only grows the heap; its product is `ValueFormProperties.TimesInts` |
| Evaluator.Product | interpret.py:286 | the fold of `*` only grows the heap; its value is `ValueFormProperties.ProductOfInts` |
| Evaluator.Div | interpret.py:289-298 | `/` only grows the heap; its outcome is `ValueFormProperties.DivValue` |
| EvalProperties.EvalLiteral | interpret.py:104-116 | an int, float or string node evaluates to its own value and leaves the heap alone |
| EvalProperties.LiteralsIgnoreFrame | interpret.py:104-116 | literals evaluate the same in any context and change nothing |
| EvalProperties.LookupFound | interpret.py:91-101 | lookup returns the binding of the innermost frame on the chain that has the name |
| EvalProperties.LookupMissing | interpret.py:91-101 | when no frame on the chain has the name, lookup finds nothing |
| EvalProperties.EvalIdentifier | interpret.py:91-101 | an identifier evaluates to the innermost binding, or fails with "unable to resolve name" at its location, and changes nothing |
| EvalProperties.EvalListPrefix | interpret.py:121 | element i of a successful list evaluation is node i evaluated after nodes 0..i-1 |
| EvalProperties.VecElements | interpret.py:119-121 | a `vec` node gives a list of the same length whose element i is child i's value |
| EvalProperties.MapOfLastWins | interpret.py:128-131 | a dict built pair by pair has exactly the keys of the pairs, each bound to its last value |
| EvalProperties.MapNodeLastWins | interpret.py:124-131 | a `map` node gives the dict of its key/value pairs in order, a later duplicate key overwriting an earlier one |
| EvalProperties.CallOfNonFunction | interpret.py:83-86 | a callee that is not a function fails the call with "not a function" at the call's location |
| EvalProperties.ClosureIgnoresExtraArgs | interpret.py:148-155 | a closure call does not depend on, and never evaluates, arguments beyond its parameters |
| EvalProperties.ClosureCallFrame | interpret.py:148-155 | the body runs in a fresh frame whose parent is the defining frame, and parameter i holds argument i evaluated in the caller's frame |
| EvalProperties.ClosureIgnoresCallerFrame | interpret.py:148-155 | with literal arguments, which frame the closure is called from makes no difference |
| EvalProperties.PartialIgnoresCallerFrame | interpret.py:184-185 | a partial evaluates the combined call in its defining frame, whatever frame calls it |
| EvalProperties.ApplySplicesChildren | interpret.py:190-194 | `apply f xs` is the call of `f` on the raw children of the node `xs` |
| EvalProperties.MapCallsPrefix | interpret.py:201-204 | element i of `map` is the call of `f` on child i, made after the calls on children 0..i-1 |
| EvalProperties.MapFormElements | interpret.py:197-204 | `map f xs` gives one value per raw child of `xs`, element i being `(f child_i)` |
| FormProperties.DefnWritesCurrentFrame | interpret.py:140-157 | `defn` binds the name in the current frame, in place, to a closure over that frame; nothing else changes and it answers `None` |
| FormProperties.DefnStatement | interpret.py:140-157 | the same for the whole `(defn name params body)` call node |
| FormProperties.LookupUnderNewFrame | interpret.py:149-155 | allocating a frame changes no lookup from an existing frame |
| FormProperties.BodySeesDefiningFrame | interpret.py:148-155 | inside the body a non-parameter name resolves as in the defining frame, so a `defn` closure sees its own name |
| FormProperties.FnBuildsClosure | interpret.py:160-177 | `fn` with fewer than two arguments is the arity error, with more the unpacking error; with a valid parameter list and a body it returns a fresh closure over those names, that body and the current frame, and changes nothing else |
| FormProperties.FnCallFrame | interpret.py:168-175 | calling `(fn [x] body)` on one argument runs the body in one new frame that binds `x` to the argument's value, evaluated in the caller's frame, and whose parent is the frame `fn` ran in |
| FormProperties.PartialBuildsValue | interpret.py:180-187 | `partial` with fewer than two arguments is the arity error; otherwise it returns a fresh partial value holding the function node, the fixed argument nodes, the call's location and the current frame, evaluating none of them |
| FormProperties.PartialCall | interpret.py:184-185 | calling `(partial f a...)` on `b...` is the call `(f a... b...)` located at the `partial` call, evaluated in the frame `partial` ran in |
| FormProperties.LetBodyFrame | interpret.py:207-218 | the `let` body runs in one new frame holding all bindings, whose parent is the current frame |
| FormProperties.LetPairsEvaluatesValues | interpret.py:212-217 | successful `let` bindings come in key/value pairs with hashable keys; the value nodes are evaluated in order in the outer frame, and each named key is paired with its value node's value |
| FormProperties.NamedPairsLookup | interpret.py:214-217 | in the dict of the bindings, a name holds the value of the last pair that names it |
| FormProperties.MapOfConcat | interpret.py:214-217 | the dict of two runs of pairs is the first run's dict updated by the second's |
| FormProperties.LetBinding | interpret.py:212-217 | in the `let` frame a name holds the value of the last pair that names it, evaluated in the outer frame after the earlier value nodes, so a binding that mentions an earlier one sees the outer binding |
| FormProperties.CaseStopsAtFirstMatch | interpret.py:230-232 | once a key equal to the subject is met, later keys and the default are never evaluated |
| FormProperties.CaseWithoutMatch | interpret.py:226-237 | when no key matches, the default is evaluated after all keys, and without one the unbound local `default` is the error |
| FormProperties.CaseSelects | interpret.py:230-232 | when no earlier key equals the subject and the next key does, the scan is that key's branch, evaluated after all keys so far, whatever follows |
| FormProperties.CaseFirstMatch | interpret.py:221-232 | `(case s k1 b1 ... key b ...)` evaluates the subject once, and the first key equal to it selects its branch, whatever follows |
| FormProperties.CaseNoMatch | interpret.py:226-237 | when no key equals the subject, an odd trailing argument is the default, evaluated after all keys; without one the unbound local `default` is the error |
| ValueFormProperties.IncDecValue | interpret.py:256-267 | `inc`/`dec` take exactly one argument; an int moves by one, any other value fails, and an exit or failure of the argument is passed on |
| ValueFormProperties.PlusValue | interpret.py:270-272 | `+` evaluates every argument in order, succeeds exactly when all are ints, and then gives their total |
| ValueFormProperties.MinusValue | interpret.py:275-279 | `-` takes exactly two arguments; it succeeds exactly when both are ints, and then gives their difference |
| ValueFormProperties.ProductOfInts | interpret.py:286 | the fold of `*` over arguments that are all ints evaluates them in order and multiplies the accumulator by their product |
| ValueFormProperties.TimesInts | interpret.py:282-286 | `*` without arguments is the arity error; on int arguments it is their product |
| ValueFormProperties.DivValue | interpret.py:289-298 | `/` takes exactly two arguments; once they evaluate, it fails with the division error exactly when the divisor is the int 0 |
| ValueFormProperties.JoinPartsRender | interpret.py:251-253 | the parts of `join` succeed exactly when every argument evaluates and has a `str()`, and are then those strings in order |
| ValueFormProperties.JoinFormValue | interpret.py:247-253 | a separator that is not a string is a type error; a string separator and renderable values give the values' strings with the separator between them |
| Driver.InitialBindings | interpret.py:5-6 | the top-level scope holds the builtins, each keyword argument shadowing the builtin of its name |
| Driver.Exec | interpret.py:8-10 | running statements only grows the heap, and running none leaves everything as it was |
| Driver.Finish | interpret.py:11-14 | the answer is the value `exit` carried or the last statement's value, never an unwinding; an empty program reads the unbound `result` |
| Driver.RunProgram | interpret.py:4-14 | the statement loop computes `Interpret` and never lets an `exit` escape |
| Driver.ExecAppend | interpret.py:9-10 | a program split in two runs as the first part followed by the second from the first part's heap |
| Driver.StopSkipsRest | interpret.py:8-12 | statements after one that exits or fails are never run |
| Driver.LastStatementValue | interpret.py:9-14 | a program that runs through answers the value of its last statement |
| Driver.ExitStatement | interpret.py:240-244 | `(exit e)` evaluates `e` once in the current frame and unwinds with its value; an exit or failure inside `e` is passed on as it is |
| Driver.ExitEndsProgram | interpret.py:8-12 | after statements that run through, a top-level `(exit e)` ends the program with `e`'s value (or its inner exit's value, or its failure), whatever follows |
| Driver.TopLevelDefnVisible | interpret.py:5-10 | a top-level `defn` writes into the shared scope, so later statements resolve the name to its closure |
| Tokenizer.SplitOn | parse.py:12 | `str.split` gives at least one piece, none containing the separator |
| Tokenizer.PreTokenizeAll | parse.py:12 | one pre-tokenized segment per segment |
| Tokenizer.LStrip | parse.py:13 | `lstrip` keeps a suffix, drops only whitespace, and leaves no leading whitespace |
| Tokenizer.RStrip | parse.py:13 | `rstrip` keeps a prefix, drops only whitespace, and leaves no trailing whitespace |
| Tokenizer.Strip | parse.py:13 | `strip` leaves no whitespace at either end |
| Tokenizer.SplitWs | parse.py:13 | `re.split` gives at least one piece |
| Tokenizer.Tokenize | parse.py:11-15 | `tokenize` gives at least one token |
| TokenizerProperties.SplitOnJoin | parse.py:12-13 | joining the pieces of `split('"')` with `"` gives the text back |
| TokenizerProperties.ReplaceCharConcat | parse.py:23-26 | replacing a character acts on each part of a concatenation separately |
| TokenizerProperties.PadPunctConcat | parse.py:27 | padding brackets and commas acts on each part of a concatenation separately |
| TokenizerProperties.PreTokenizeConcat | parse.py:18-29 | `pre_tokenize` acts on each part of a concatenation separately |
| TokenizerProperties.PreTokenizeCharwise | parse.py:18-29 | `pre_tokenize` of a segment is the character-wise expansion: placeholders inside strings, padded placeholders and brackets outside |
| TokenizerProperties.SegmentsExpand | parse.py:12-29 | splitting at quotes, pre-tokenizing each segment by parity and re-joining is one left-to-right pass that toggles at each quote |
| TokenizerProperties.StripWords | parse.py:13 | stripping changes no whitespace-separated word |
| TokenizerProperties.SplitStripped | parse.py:13 | `re.split` of a stripped text is its words, or the one empty token when it has none |
| TokenizerProperties.SplitRunsWords | parse.py:13 | on a text with no whitespace at either end, `re.split` gives exactly its words |
| TokenizerProperties.EscapedExpansion | parse.py:12-13 | for a text without `__`, turning `\"` into `__BEDLAM_QUOTE`, expanding, and turning it back into `"` gives `Read`: each `\"` becomes a quote character that neither enters nor leaves a string |
| TokenizerProperties.StripReplace | parse.py:13 | stripping and putting the escaped quotes back commute |
| TokenizerProperties.TokenizeEscaped | parse.py:11-15 | on a text without `__`, the tokens are the words of `Read`, or `[""]` when there are none |
| TokenizerProperties.ReadWithoutEscape | parse.py:12 | without a backslash there is no escape, and `Read` is the plain expansion |
| TokenizerProperties.TokenizeClean | parse.py:11-15 | on a text without backslash and without `__`, the tokens are the words of the expansion, or `[""]` when there are none |
| TokenizerProperties.BracketIsToken | parse.py:27 | a bracket or comma outside a string is a word of its own, between the words of its two sides |
| TokenizerProperties.TokenizeBracket | parse.py:27 | the same for the tokens of a text without backslash and `__` |
| TokenizerProperties.StringIsToken | parse.py:12-23 | a string literal whose inside has only spaces and newlines as whitespace is never split: it is one word |
| TokenizerProperties.TokenizeString | parse.py:11-23 | the same for the tokens of a text without backslash and `__` |
| TokenizerProperties.RestoreInside | parse.py:89 | putting the placeholders back turns the protected form of any string value without `__` into that value, quotes and backslashes included |
| TokenizerProperties.PiecesNoSpace | parse.py:22-23 | inside a string whose only whitespace is spaces and newlines, the protected text has no whitespace left |
| TokenizerProperties.ReadEscape | parse.py:12 | a string value written with its quotes escaped reads as its own characters, none entering or leaving a string, unless a final backslash escapes the quote after it |
| Parser.After | parse.py:50-53 | a token without a newline moves the column by its length on the same line; one with newlines moves to a later line, by at most its length, at column 0 |
| Parser.NewlineCountZero | parse.py:50-53 | a token has no newline exactly when its newline count is 0, and never counts more newlines than characters |
| Parser.Group | parse.py:72-86 | `(` makes a `call`, `[` a `vec`, `{` a `map`, holding the nested nodes, at the given location |
| Parser.Inner | parse.py:89 | a token of two or more characters is its first character, the result and its last character, so the result is two shorter; a shorter token gives nothing |
| Parser.Classify | parse.py:88-107 | a token starting with `"` is a string of its restored inside; else an int if `int()` accepts it; else a float if `float()` does; else an identifier; each at the current location |
| Parser.KindOf | parse.py:58-88 | every token takes exactly one branch of `build_ast`: closer, `NEWLINE`, `SPACE` or `,`, opener, empty, or a leaf |
| Parser.Build | parse.py:44-109 | a level never leaves more tokens than it was given, and leaves none when no closer ended it |
| Parser.BuildGroup | parse.py:72-86 | the same for a level that starts with an opener |
| Parser.Cons | parse.py:48 | appending a node keeps the level's outcome and puts the node first |
| Parser.Location.constructor | parse.py:5 | the location starts at the given line and column |
| Parser.Location.Get | parse.py:48 | `location.copy()` is the current line and column |
| Parser.Location.Advance | parse.py:50-53 | the update after a node moves the location as `After` says |
| Parser.PrependCons | parse.py:48 | appending a node to the level built so far is consing it onto the rest |
| Parser.BuildAst | parse.py:44-109 | the loop with its recursion and the shared mutated location computes `Build`, and leaves the location where `Build` ends |
| Parser.ParseText | parse.py:4-5 | `parse` computes `Parse` |
| ParserProperties.DepthConcat | parse.py:58-86 | bracket depth adds up over concatenation |
| ParserProperties.BuildShape | parse.py:55-86 | a level ends at the first closer that takes the depth below zero, consumes everything when the brackets balance, and fails unclosed when they end deeper |
| ParserProperties.BuildOpenerShape | parse.py:72-86 | the same for a level that starts with an opener |
| ParserProperties.BuildRest | parse.py:55-59 | what a level leaves is a suffix of its tokens; when a closer ended the level, it is the token just before what is left |
| ParserProperties.BuildGroupRest | parse.py:82-86 | the same for a level that starts with an opener: the outer level resumes on what the nested level left |
| ParserProperties.BuildLines | parse.py:47-70 | a level never moves the line back, and every node, nested ones too, lies between the line where the level starts and the line where it ends, the nodes in line order |
| ParserProperties.BuildGroupLines | parse.py:82-86 | the same for a level that starts with an opener: the group node sits where the nested level left the location |
| ParserProperties.ParseLines | parse.py:4-5 | every node of a successful parse is on line 1 or later, and the top-level nodes are in line order |
| ParserProperties.OpenerStep | parse.py:72-86 | an opener gives one group node of its kind holding exactly what the nested level built, where that level ended, followed by what the level builds after the nested closer |
| ParserProperties.ParseBrackets | parse.py:55-86 | `parse` succeeds exactly when the brackets balance, finds a stray closer exactly when a prefix closes more than it opens, and an unclosed bracket exactly when the tokens end deeper |
| ParserProperties.LayoutOnly | parse.py:61-70 | `NEWLINE`, `SPACE` and `,` tokens make no node; a run of them moves the line by its `NEWLINE`s and, without one, the column by its length |
| ParserProperties.LayoutStep | parse.py:61-70 | a layout token only moves the location and the level goes on with the next token |
| ParserProperties.BuildLeaf | parse.py:88-107 | a literal or identifier token becomes the next node, at the current location, and the level goes on after it |
| ParserProperties.ParseClean | parse.py:88 | a text without backslash and `__` and without words fails on the empty token; with words none of its tokens is empty |
| ParserProperties.ParseEmpty | parse.py:88 | the empty text fails on the empty token |
| ParserProperties.TokenizeLoneString | parse.py:11-15 | a string value without `__`, whose only whitespace is spaces and newlines and which does not end in a backslash, written as one literal with its quotes escaped, is one token: the value protected, between quotes |
| ParserProperties.ParseStringLiteral | parse.py:88-91 | that literal parses to the one string node holding exactly the value, at line 1, column 0: escaping a string value and parsing it gives it back |

Members with no contract of their own, and where their behaviour is stated:

- `Values.Lookup` (interpret.py:91-101): `EvalProperties.LookupFound` and `LookupMissing`.
- `Evaluator.MapOf` (interpret.py:128-131): `EvalProperties.MapOfLastWins` and `FormProperties.MapOfConcat`.
- `Driver.Interpret` (interpret.py:4-14): `Driver.RunProgram`, `Finish`, `ExecAppend`, `StopSkipsRest`, `LastStatementValue` and `ExitEndsProgram`.
- `Parser.Parse` (parse.py:4-5): `Parser.ParseText`, and `ParserProperties.ParseLines`, `ParseBrackets`, `ParseClean`, `ParseEmpty` and `ParseStringLiteral`.
- `Tokenizer.Replace` (parse.py:12-13, 23-26): `TokenizerProperties.ReplaceCharConcat`, `EscapedExpansion` and `RestoreInside`.
- `Tokenizer.PadPunct` (parse.py:27): `TokenizerProperties.PadPunctConcat`.
- `Tokenizer.PreTokenize` (parse.py:18-29): `TokenizerProperties.PreTokenizeCharwise` and `PreTokenizeConcat`.
- `Tokenizer.SplitRuns` (parse.py:13): `TokenizerProperties.SplitRunsWords` and `SplitStripped`.
- `Tokenizer.Restore` (parse.py:89): `TokenizerProperties.RestoreInside`.

## Left out

- I/O: the `__main__` blocks and JSON (de)serialisation of both files, and `__init__.py`, which only composes `parse` and `interpret`.
- Floating point: float values are kept abstract as their token text. Float arithmetic and the float result of `/` give an "unsupported" outcome.
- Primitives.Divide: a float zero divisor is not compared with 0. The source raises the division error for `0.0` too; the model gives the unsupported outcome, as for every float divisor.
- Python's `int()` and `float()` acceptance rules are a parameter of the parser (`Parser.Numerals`).
- `str()` is modelled for strings, ints and `None` only.
- An unsupported outcome stops the evaluation where it arises, like a failure. Whatever the source would do afterwards is not modelled. For example, in `(join "," [1] (exit 5))` the source renders `[1]` and then exits with 5, while the model answers unsupported.
- Host functions passed as keyword arguments to `interpret` are not modelled; keyword values are model values.
- `map` over a non-empty string or identifier node: the source iterates characters, which the model gives as an unsupported outcome.
- Exception classes and message texts: each failure is an error kind with the location of the node. The `/` by zero error is a division error, not the `TypeError` the missing constructor argument raises.
- Host recursion limits: a `fuel` bound on the recursion depth stands in for the Python stack, with an out-of-fuel error. Every evaluation step takes fuel, even that of a literal or an identifier, so `EvalProperties.EvalLiteral` and `EvalIdentifier` ask for `fuel > 0`.
- The unused `_get_root_context`, and `define_key`, whose registrations are the fixed builtin table.
- `derive_node` is not a member of its own: the derived call node is built in place by `partial`, `apply` and `map`, keeping the location of the builtin's call node.
- Dict order: maps are Dafny maps. Python's dict order is only observable through `str()` and JSON, both left out.
- Evaluator.Eval: the evaluator functions' own contracts state only how the heap changes. What each node and form computes is stated by lemmas:
  - nodes and calls in `EvalProperties`;
  - `defn`, `fn`, `partial`, `let` and `case` in `FormProperties`;
  - the value builtins in `ValueFormProperties`;
  - `exit` in `Driver`.
- Evaluator.LetPairs, Evaluator.Case, Evaluator.CaseScan, Evaluator.ExitForm, Evaluator.JoinForm, Evaluator.JoinParts, Evaluator.Times, Evaluator.Product, Evaluator.Fn and Evaluator.Partial: each contract is weaker than the form's behaviour. The lemma named in each row states that behaviour.
- Value equality: `case` keys and dict keys are compared by model equality, and a float is its token text, so `1` and `1.0` are different keys. Python's `1 == 1.0` holds, so such a `case` matches in the source and not in the model.
- Parser.Build: an unclosed bracket is the error `UnclosedBracket`. The source returns the bare node list, which the enclosing unpacking then misreads.
- Parser.Parse: a closer at the top level is the error `StrayCloser`. The source returns a `(nodes, tokens)` tuple instead of a node list.
- Parser.Build: the empty token has no first character. The source raises `IndexError` there; the model gives the error `EmptyToken`.
- TokenizerProperties.TokenizeEscaped: stated for texts without `__`. With `__`, the text can spell a placeholder, and that placeholder would be turned back into a quote, space or newline.
- TokenizerProperties.TokenizeClean: stated, like the bracket and string lemmas built on it, for texts without a backslash as well. Texts with escaped quotes are covered by `TokenizeEscaped`.
- TokenizerProperties.TokenizeBracket: stated for texts without a backslash and without `__` on either side of the bracket. A text with an escaped quote anywhere is covered only by `TokenizeEscaped`, which gives the tokens as the words of `Read` but does not single out the bracket.
- TokenizerProperties.TokenizeString: as for `TokenizeClean`. Inside a string, whitespace other than space and newline (a tab, say) is not protected and splits the literal, as in the source. The precondition `ProtectedSpacing` excludes it.
- TokenizerProperties.RestoreInside: stated for values without `__`, for the reason given under `TokenizeEscaped`.
- ParserProperties.TokenizeLoneString: stated for values without `__` and with `ProtectedSpacing`, as above. A value ending in a backslash is also excluded, because that backslash escapes the closing quote in the source too.
- ParserProperties.ParseStringLiteral: the same restrictions as `TokenizeLoneString`.
- ParserProperties.ParseBrackets: stated for token lists without the empty token, which for a clean text means a text with at least one word (`ParseClean`).

## Findings

| source | as written | input that shows it | evidently intended | confidence | as-written member | corrected member |
|---|---|---|---|---|---|---|
| interpret.py:35-36 | `if max is not None and n < max` refuses calls with fewer than `max` arguments | `max=2` with one argument is refused, with five is accepted | refuse calls with more than `max` arguments | high; no caller passes `max`; not executed | Primitives.AssertArityAsWritten (counterexample: Primitives.AssertArityMaxInverted) | Primitives.AssertArity (Primitives.AssertArityMaxCorrected) |
