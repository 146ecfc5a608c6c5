# A Dafny model of the sakshi Make-A-Lisp interpreter, up to step 7

This project models the JavaScript interpreter in `impls/sakshi`: a Lisp
read-eval-print loop built in the Make-A-Lisp steps, as far as step 7
(quoting). The model covers these parts:

- **Values.** The MalValue classes of `types.js` become one closed datatype,
  `Types.Value`. The bare host values that the interpreter lets flow through
  it are part of the same datatype:
  - raw JS booleans from the reader and the predicates;
  - the bare number `0` that `count` returns;
  - the bare string that `pr-str` returns;
  - core-table functions;
  - `undefined`.

  Every variant exposes a host payload, its `.value`, through
  `Types.PayloadOf`. The interpreter decides nearly everything on that payload:
  the `switch` of `EVAL`, equality, environment keys and truthiness.
- **Printer.** The `pr_str` methods of every class, with the readable and
  display modes, the escaping by `makeReadable`, and the map printer, which
  ignores the mode and puts a comma after a value. An atom prints `String`
  of its content's payload. That is the host's own string conversion: only
  MalList and MalVector define `toString`, so any other MalValue shows as
  `[object Object]`, and a bare array joins its elements with commas. The
  same conversion gives the property key of a binding name.
- **Reader.** The tokenizer's global regular expression is written out as a
  position-based scanner: one function per alternative of the pattern, tried in
  the same order. `read_form`, `read_seq` and `read_atom` become a
  recursive-descent parser over the tokens. The string unescaping of
  `createMalString` is modelled as well.
- **Environments.** Frames live in a store and are addressed by index. Outer
  links point only to older frames. `find` treats a falsy binding as absent,
  as the source's truthiness test does.
- **Core primitives.** Every entry of the `core` table except `slurp`. They are
  pure functions of the argument list and the atom cells.
- **Evaluator.** `eval_ast`, the special forms, the quasiquote expander,
  closure application and `not`, together with the `EVAL` loop.
  - The loop runs on an explicit fuel budget. Every nested evaluation and every
    turn of the loop costs one unit.
  - The mutable interpreter state, its frames and its atoms, is threaded
    through as `Eval.State`.
  - An outcome is a value, a thrown error together with the state at the
    throw, or an exhausted budget.
  - The REPL's `rep` reads, evaluates in the root frame and prints. It prints
    readably because `printer.js` passes the value itself, always truthy, as
    the readability flag.

The model follows the code as written. Several of its behaviours differ from
what a Lisp reader would expect, and the model keeps them all:

- Function application has no arity check: missing arguments bind to
  `undefined` and surplus ones are ignored.
- A binding whose value is falsy (`false`, or a bare `0` or `""`) is invisible
  to lookup. For that reason `(def! x false)` throws "x not found" in the root
  frame.
- Of the comment tokens, only a bare `;` reads as nil. A comment with text
  reads as a symbol.
- The display print of a string keeps its double quotes. `(str "a")` is
  therefore `"\"a\""`.
- `=` compares payloads:
  - `(= true false)` is true, because neither boolean has a payload;
  - a symbol equals the string with the same name;
  - an empty list equals an empty vector.
- `pr-str` and `count` of a non-sequence return bare host values.
- `deref` returns the payload of the atom's content.
- `(do)` gives undefined.
- `if` treats any truthy value other than nil as true, including the integer
  `0`.
- `not` answers from the argument's payload. Otherwise it evaluates its
  argument once more, in the root frame.
- `swap!` with a closure throws.

## Model

| member | source | states |
|---|---|---|
| Types.At | impls/sakshi/step7_quote.js:63-68 | reading an array index inside the array gives the element; past the end it gives undefined |
| Types.HostOf | impls/sakshi/types.js:1-7 | a value is represented by a host object exactly when it is a MalValue instance, the values that have a `pr_str` method |
| Types.FromHost | impls/sakshi/core.js:116 | every host value except a bare array reads back as a model value |
| Types.FromHostOf | impls/sakshi/core.js:116 | reading back the host representation of any value gives that value |
| Types.PayloadOf | impls/sakshi/types.js:13-16 | `.value` fails exactly on undefined; symbols and keywords carry their name, sequences and maps their element array, bare host values have no property |
| Types.FalsyValues | impls/sakshi/env.js:20 | exactly four values are falsy in JS: false, the number 0, the empty host string and undefined; nil and the integer 0 are objects and so truthy |
| Types.NatToString | impls/sakshi/types.js:18-20 | the decimal text of a natural number is non-empty, all digits, with no leading zero |
| Types.IntToString | impls/sakshi/types.js:18-20 | the text of an integer starts with a minus sign exactly when the integer is negative, and the rest is digits |
| Types.DigitsValueOfNat | impls/sakshi/reader.js:62-63 | the value of the digits printed for n is n |
| Env.KeyOf | impls/sakshi/env.js:15-17 | the property key of a symbol or keyword is its name, of a string its text, of an integer its decimal digits; a list, vector or map keys by `String` of its bare element array, the elements' texts joined by commas; undefined has no key and throws a TypeError |
| Env.SequenceKeys | impls/sakshi/env.js:15-17 | a one-element list of a symbol keys as `[object Object]`, so `(def! (a) 1)` and `(def! (b) 2)` write the same key |
| Types.EscapeChar | impls/sakshi/types.js:9-11 | backslash, double quote and newline become two characters starting with a backslash; every other character is kept |
| Types.Escape | impls/sakshi/types.js:9-11 | the readable form never contains a newline, is no shorter, and has the same length exactly when nothing needed escaping |
| Types.Unescape | impls/sakshi/types.js:128-131 | unescaping never lengthens a string and leaves a string without backslashes unchanged |
| Types.UnescapeEscape | impls/sakshi/types.js:128-131 | unescaping the readable form of any string gives the string back |
| Printer.HostString | impls/sakshi/types.js:151-153 | `String` of a payload: a number in decimal, a string as itself, a list or vector object as its quoted display print, any other MalValue as `[object Object]`, a bare array as its elements' texts joined by commas; a host function has no text |
| Printer.ScalarString | impls/sakshi/types.js:151-153 | null and undefined show as their JS names, and of the non-object payloads only a host function fails |
| Printer.ObjectString | impls/sakshi/types.js:46-62 | a list or vector object shows as its display print between double quotes; every other MalValue has no `toString` of its own and shows as `[object Object]` |
| Printer.ElementString | impls/sakshi/types.js:151-153 | inside a joined array, undefined is empty, and a number, keyword, symbol, string, nil, map, atom or closure from the interpreter is an object shown as `[object Object]`; a host number shows in decimal and a host string as itself |
| Printer.ElementStrings | impls/sakshi/types.js:151-153 | each element of an array gets its own text, in order, and the whole fails exactly when one element fails |
| Printer.PrintCellFree | impls/sakshi/types.js:36-76 | a value that holds no atom prints the same whatever the atoms hold |
| Printer.ObjectStringOf | impls/sakshi/types.js:46-62 | `String` of a list or vector without atoms is its display print, made with the live atoms, between double quotes |
| Printer.AtomShows | impls/sakshi/types.js:151-153 | an atom prints the same in both modes; holding an integer it shows the digits, a string its raw text without escapes, nil `null`, a bare host value `undefined`, and an empty collection nothing |
| Printer.AtomShowsNested | impls/sakshi/types.js:151-153 | an atom holding an atom shows `[object Object]` for inner content that is a MalValue other than a list or vector, and the quoted display print of a list or vector |
| Printer.AtomShowsClosure | impls/sakshi/types.js:112-153 | an atom holding a closure shows `String` of the closure's body: `[object Object]` for a non-list MalValue and the quoted display print of a list or vector |
| Printer.AtomOfAtomExample | impls/sakshi/types.js:151-153 | `(atom (atom (list 1 2)))` prints as `(atom "(1 2)")` |
| Printer.AtomOfListExample | impls/sakshi/types.js:151-153 | `(atom (list 1 2))` prints as `(atom [object Object],[object Object])` |
| Printer.Print | impls/sakshi/types.js:1-7 | strings, lists, vectors and maps print between their delimiters; printing undefined throws |
| Printer.PrintAll | impls/sakshi/types.js:38-40 | each element is printed with the same flag, in order; the whole fails exactly when some element fails |
| Printer.PrintSequence | impls/sakshi/types.js:38-57 | a list or vector prints exactly when every element prints; empty, it prints as its two brackets; with one element, as that element's print between the brackets |
| Printer.MapParts | impls/sakshi/types.js:70-76 | every map element is printed in display mode whatever the flag, followed by a comma exactly at odd positions other than the last; a bare host element makes the print throw |
| Printer.PrintString | impls/sakshi/types.js:104-109 | a string prints between quotes; readably its contents unescape back to the string, for display they are the string itself |
| Reader.SepEnd | impls/sakshi/reader.js:21-25 | the skipped run of whitespace and commas stops at the first character that is neither |
| Reader.StringEnd | impls/sakshi/reader.js:21-25 | a string token's body stops only at a double quote, at a backslash that has no character to escape, or at the end |
| Reader.CommentEnd | impls/sakshi/reader.js:21-25 | a comment token runs to the next line terminator |
| Reader.AtomEnd | impls/sakshi/reader.js:21-25 | an atom token stops at the first character the pattern excludes |
| Reader.GroupEnd | impls/sakshi/reader.js:21-25 | at any character that is not a separator the pattern captures at least one character |
| Reader.MatchesFrom | impls/sakshi/reader.js:21-25 | the scan yields at least one capture |
| Reader.MatchesEndEmpty | impls/sakshi/reader.js:21-25 | the last capture of the scan, the match at the end of the input, is empty, which is why `tokenize` drops it |
| Reader.MatchesNonEmpty | impls/sakshi/reader.js:21-25 | only the last two captures of the scan can be empty |
| Reader.TokensNonEmpty | impls/sakshi/reader.js:21-25 | after the final capture is dropped, only the last token can be empty |
| Reader.SpliceUnquoteToken | impls/sakshi/reader.js:21-25 | `~@` is a single token |
| Reader.SpecialToken | impls/sakshi/reader.js:21-25 | every other bracket or reader-macro character is a token on its own |
| Reader.TokenizeOnlySeparators | impls/sakshi/reader.js:21-25 | blank input gives no token when empty and a single empty token otherwise |
| Reader.TokenizeAtomText | impls/sakshi/reader.js:21-25 | a word of atom characters is exactly one token |
| Reader.MacroName | impls/sakshi/reader.js:105-117 | exactly the five tokens `'`, `` ` ``, `~`, `~@` and `@` are reader macros |
| Reader.ParseInt | impls/sakshi/reader.js:62-63 | an integer token without a minus sign parses to a natural number |
| Reader.ParseIntToString | impls/sakshi/reader.js:62-63 | the text of any integer is an integer token and parses back to the integer |
| Reader.ReadAtom | impls/sakshi/reader.js:60-87 | a token is an integer exactly when it matches `-?[0-9]+`, and its value is the parse of the token; then the booleans, nil, a keyword (leading colon, named by the token) and a string (leading quote, holding the unescaped text between the first and last character) are tried in order; anything else is a symbol named by the token |
| Reader.ReadForm | impls/sakshi/reader.js:96-121 | a successful read consumes at least one token and stays inside the token list; the form is a vector exactly when its first token is `[` and a map exactly when it is `{`, and a map read holds an even number of forms |
| Reader.ReadSeq | impls/sakshi/reader.js:27-41 | a successful read of a collection ends just after a closer token, and reads fewer forms than the tokens it consumes |
| Reader.ReaderMacro | impls/sakshi/reader.js:89-94 | a reader macro consumes its marker and exactly one form, and wraps that form in a list headed by its symbol |
| Reader.OddMapThrows | impls/sakshi/reader.js:54-58 | a map literal with an odd number of forms throws, even when every form in it reads |
| Reader.CommentReadsNil | impls/sakshi/reader.js:109-111 | a bare `;` token reads as nil and consumes one token |
| Reader.ReadFormIgnoresRest | impls/sakshi/reader.js:123-127 | tokens after the first complete form do not change what is read |
| Reader.ReadSeqIgnoresRest | impls/sakshi/reader.js:27-41 | tokens after a closed collection do not change how it reads |
| Reader.ReadSeqUnbalanced | impls/sakshi/reader.js:31-34 | when no closer and no reader-macro token is left, reading a collection throws "unbalanced" |
| Env.Chain | impls/sakshi/env.js:19-27 | the chain of outer links from a frame starts at that frame and visits only older frames |
| Env.BindAll | impls/sakshi/env.js:9-13 | a new frame binds exactly the names of its parameters |
| Env.BindAllLastWins | impls/sakshi/env.js:9-13 | of two equal parameter names the later one wins, and a parameter past the arguments binds undefined |
| Env.KeysOf | impls/sakshi/env.js:9-13 | there is one key per parameter |
| Env.KeysOfElementwise | impls/sakshi/env.js:9-13 | each key is that parameter's own key, and building the keys fails exactly when one parameter has none |
| Env.NewEnv | impls/sakshi/env.js:2-7 | a new frame is added at the end of the store with the given outer link, binding the parameters to the arguments in order; older frames are untouched; it fails exactly when a parameter has no key |
| Env.Push | impls/sakshi/env.js:2-7 | adding a frame whose outer link points back keeps every outer link pointing to an older frame |
| Env.Set | impls/sakshi/env.js:15-17 | `set` writes the key in its own frame only: other keys, the outer link and every other frame are unchanged |
| Env.Find | impls/sakshi/env.js:19-27 | a found frame is on the way out from the start and binds the name to a truthy value |
| Env.Get | impls/sakshi/env.js:29-33 | `get` succeeds exactly when `find` finds a frame, returns that frame's binding, and otherwise throws "<name> not found" |
| Env.FindFirstOnChain | impls/sakshi/env.js:19-27 | `find` returns the first frame on the chain that holds the name, and fails exactly when no frame on the chain holds it |
| Env.ChainConsNoneHolds | impls/sakshi/env.js:19-27 | a frame without a truthy binding adds nothing to a failed search |
| Env.FalsyBindingFallsThrough | impls/sakshi/env.js:20-22 | a falsy binding is skipped: the lookup continues in the outer frame, and fails in the root |
| Env.FindReadsOlderFrames | impls/sakshi/env.js:19-27 | a lookup reads only the frame it starts in and older ones |
| Env.GetAfterSet | impls/sakshi/env.js:15-33 | after `set`, a lookup in the same frame sees a truthy new value; a falsy one leaves the lookup to the outer frames |
| Env.NewEnvLookup | impls/sakshi/env.js:2-27 | a new frame defers every name it does not hold to its outer frame |
| Core.Payloads | impls/sakshi/core.js:72 | the argument payloads are read in order, and the first unreadable one is the error |
| Core.Numbers | impls/sakshi/core.js:72 | the numbers are extracted exactly when every payload is a number |
| Core.Quotient | impls/sakshi/core.js:76 | an exact chain of divisions never divides by zero |
| Core.QuotientTimesDivisors | impls/sakshi/core.js:76 | an exact quotient times the product of the divisors is the dividend |
| Core.DifferenceIsFirstMinusSum | impls/sakshi/core.js:9-13 | subtracting a chain is subtracting the sum of the rest from the first number |
| Core.Arith | impls/sakshi/core.js:72-76 | with no argument the reduce throws a TypeError; one argument is returned untouched, except that `-` negates it; with two or more, a result is an integer and every payload was a number |
| Core.ArithOnInts | impls/sakshi/core.js:72-76 | on integers, `+`, `-`, `*` and `/` are the left folds of sum, difference, product and exact quotient |
| Core.Compare | impls/sakshi/core.js:50-54 | fewer than two arguments compare true |
| Core.CompareAdjacent | impls/sakshi/core.js:50-54 | on integers a comparison holds exactly when every adjacent pair is related |
| Core.LessChainIncreasing | impls/sakshi/core.js:79 | a true `<` chain is strictly increasing over all pairs, not only neighbours |
| Core.StrictEquals | impls/sakshi/core.js:30 | different payloads are never `===`, and equal primitive payloads always are |
| Core.EqualsIsDeepEquals | impls/sakshi/core.js:23-41 | `equals` and `deepEquals` agree on every pair, so the empty-sequence shortcut changes nothing |
| Core.EqualsShapes | impls/sakshi/core.js:23-31 | on plain values `=` is decided and holds exactly when the shapes agree, lists and vectors interchangeably |
| Core.DeepEqualsShapes | impls/sakshi/core.js:33-41 | two sequences are deep-equal exactly when their shapes agree |
| Core.EveryEqualsShapes | impls/sakshi/core.js:35-37 | the element-wise test holds exactly when every pair of elements has the same shape |
| Core.EqualsReflexiveSymmetric | impls/sakshi/core.js:77 | on plain values `=` is reflexive and symmetric |
| Core.EqualsQuirks | impls/sakshi/core.js:23-41 | true equals false, a symbol equals the string of its name, an empty list equals an empty vector, and a bare 0 differs from the integer 0 |
| Core.Count | impls/sakshi/core.js:82-85 | `count` is the length exactly for lists and vectors, and the bare number 0 for anything else |
| Core.IsEmpty | impls/sakshi/core.js:88 | `empty?` tests the length of a sequence, map or string, is false for an integer, and throws a TypeError on nil or undefined |
| Core.Chars | impls/sakshi/core.js:119 | spreading a string gives its characters in order, each as a one-character string |
| Core.Cons | impls/sakshi/core.js:119 | `cons` puts its first argument in front of the second's elements; an integer, nil or boolean is not iterable and throws |
| Core.Concat | impls/sakshi/core.js:120 | `concat` fails exactly when some argument has no readable payload |
| Core.ConcatFlattens | impls/sakshi/core.js:120 | on lists and vectors `concat` joins their items in order |
| Core.Vec | impls/sakshi/core.js:121 | `vec` of a list, vector or map is a vector of the same elements, and any result is a vector |
| Core.PrStr | impls/sakshi/core.js:96-99 | `pr-str` gives a bare host string in quotes whose contents unescape to the arguments' readable prints joined by spaces |
| Core.ToStr | impls/sakshi/core.js:101-104 | `str` gives a string value of the arguments' display prints joined with nothing between them |
| Core.StrOfOneString | impls/sakshi/core.js:101-104 | `str` of one string is that string inside double quotes |
| Core.PrintLine | impls/sakshi/core.js:90-110 | `prn` and `println` return nil exactly when every argument prints |
| Core.ReadString | impls/sakshi/core.js:112 | `read-string` parses a string's text and throws a TypeError on a bare string, an integer or nil |
| Core.ReadStringOfPrStr | impls/sakshi/core.js:96-112 | the result of `pr-str` fed straight to `read-string` throws |
| Core.MakeAtom | impls/sakshi/core.js:114 | `atom` adds one new cell holding its argument and leaves the old cells alone |
| Core.Deref | impls/sakshi/core.js:116 | `deref` of a non-atom throws; of an atom holding a string or integer it gives the bare payload |
| Core.Reset | impls/sakshi/core.js:117 | `reset!` succeeds exactly on a live atom, stores and returns its second argument, and changes no other cell |
| Core.AtomRoundTrip | impls/sakshi/core.js:114-117 | a fresh atom derefs to its initial value's payload, and a reset one to the last stored value's payload |
| Core.Apply | impls/sakshi/core.js:71-122 | only `atom` and `reset!` change the cells, and never shrink them; `list` wraps its arguments |
| Quasiquote.HeadIs | impls/sakshi/step7_quote.js:78-80 | only a non-empty list can match, by the payload of its first element; symbols and strings never throw |
| Quasiquote.FoldRightSnoc | impls/sakshi/step7_quote.js:84-96 | adding an element at the end runs its step first |
| Quasiquote.FoldIsFoldRight | impls/sakshi/step7_quote.js:84-96 | the backwards loop over the elements computes the right fold of the steps |
| Quasiquote.ExpandSequence | impls/sakshi/step7_quote.js:84-103 | a list expands to the right-fold chain of its elements, a vector to `vec` of that chain |
| Eval.Elements | impls/sakshi/step7_quote.js:49 | a loop over an array visits its elements; a number, boolean or object has no length and gives none; null throws, and undefined throws unless a default replaces it |
| Eval.Eval | impls/sakshi/step7_quote.js:113-156 | evaluation never removes a frame, a binding or an atom, and leaves a well-formed state |
| Eval.EvalAst | impls/sakshi/step7_quote.js:15-38 | lists and vectors evaluate to sequences of the same kind and length, and a map keeps its keys in place |
| Eval.EvalSeq | impls/sakshi/step7_quote.js:21 | evaluating a sequence gives one value per element |
| Eval.EvalMapItems | impls/sakshi/step7_quote.js:31-33 | even positions of a map are kept as they are, and the length is preserved |
| Eval.EvalMapItemsValues | impls/sakshi/step7_quote.js:31-33 | every odd position of an evaluated map holds a value that the form at that position evaluates to in some valid state |
| Eval.EvalSeqValues | impls/sakshi/step7_quote.js:21 | every position of an evaluated list holds a value that the element there evaluates to in some valid state |
| Eval.EvalSeqPure | impls/sakshi/step7_quote.js:21 | when no element changes the state, the list evaluates exactly when every element does, the state stays as it was, and each position holds exactly what its element evaluates to in that state |
| Eval.Special | impls/sakshi/step7_quote.js:121-153 | the `switch` keeps the state valid, and any next frame it hands to the loop exists |
| Eval.BindingForm | impls/sakshi/step7_quote.js:122-126 | `def!` and `let*` keep the state valid and hand the loop an existing frame |
| Eval.ControlForm | impls/sakshi/step7_quote.js:127-132 | `do` and `if` keep the state valid and hand the loop an existing frame |
| Eval.SyntaxForm | impls/sakshi/step7_quote.js:133-142 | `fn*`, `quote` and the quasiquote forms keep the state valid and hand the loop an existing frame |
| Eval.EvalDef | impls/sakshi/step7_quote.js:40-43 | `def!` returns a final value and never loops |
| Eval.EvalLet | impls/sakshi/step7_quote.js:45-54 | `let*` continues with its body wrapped in `do`, in the new frame at the end of the store |
| Eval.EvalLetBindings | impls/sakshi/step7_quote.js:49-51 | every symbol at an even offset of the binding list ends up bound in the new frame |
| Eval.EvalLetBindingsStep | impls/sakshi/step7_quote.js:49-51 | one turn of the `let*` loop evaluates the value form in the new frame, in the state the earlier pairs left, and binds the result under the name; the remaining pairs run with that binding in place, so later value forms see earlier names |
| Eval.LetExample | impls/sakshi/step7_quote.js:45-54 | `(let* (a 1 b (+ a 1)) b)` gives 2 and leaves a new frame inside the root that binds a to 1 and b to 2 |
| Eval.EvalDo | impls/sakshi/step7_quote.js:56-60 | `do` with no forms gives undefined; otherwise it evaluates the forms between the first and the last for their effect, succeeds or throws exactly when they do, ends in the state they leave, and continues with the last form in the same frame |
| Eval.EvalIf | impls/sakshi/step7_quote.js:62-69 | `if` always continues in the same frame |
| Eval.ApplyForm | impls/sakshi/step7_quote.js:143-152 | application keeps the state valid and continues only in an existing frame |
| Eval.Returning | impls/sakshi/step7_quote.js:151 | a primitive's result, error and state pass to the loop unchanged |
| Eval.ApplyNative | impls/sakshi/step7_quote.js:162-166 | only `not`, `swap!`, `atom` and `reset!` can change the state |
| Eval.Primitive | impls/sakshi/types.js:147-150 | the primitives other than `swap!`, `atom` and `reset!` leave the state unchanged |
| Eval.RootTable | impls/sakshi/step7_quote.js:168-173 | the root frame binds only primitives |
| Eval.InitialState | impls/sakshi/step7_quote.js:160-175 | the interpreter starts with a single root frame and no atoms |
| Eval.Rep | impls/sakshi/step7_quote.js:177 | a reader error is thrown before anything is evaluated and leaves the state as it was; any other outcome leaves a later state |
| Eval.RepEcho | impls/sakshi/step7_quote.js:177 | the REPL echoes the readable print of an integer, boolean, nil, string or keyword as the same text, and leaves the state as it was |
| Eval.EvalSelf | impls/sakshi/step7_quote.js:37 | a value that is not a list, vector, map or symbol evaluates to itself |
| Eval.EvalSymbol | impls/sakshi/step7_quote.js:16-18 | a symbol evaluates to its binding, or throws "<name> not found" |
| Eval.EvalQuote | impls/sakshi/step7_quote.js:136-137 | `quote` returns its argument unevaluated |
| Eval.EvalFn | impls/sakshi/step7_quote.js:133-134 | `fn*` evaluates to a closure over the current frame whose body is the remaining forms in `do` |
| Eval.EvalIfBranches | impls/sakshi/step7_quote.js:62-69 | `if` takes the then-branch exactly when the condition is truthy and not nil; otherwise the else-branch, or nil when there is none |
| Eval.EvalDefBinds | impls/sakshi/step7_quote.js:40-43 | `def!` binds in the current frame and returns a truthy value; a falsy value makes the form throw "not found" at the root |
| Eval.EvalPrimitiveCall | impls/sakshi/step7_quote.js:143-151 | a list headed by a non-special symbol bound to a primitive applies it to the evaluated arguments |
| Eval.EvalCons | impls/sakshi/step7_quote.js:94 | a `cons` form evaluates to the head's value in front of the tail's items |
| Eval.EvalVec | impls/sakshi/step7_quote.js:98-100 | a `vec` form evaluates to a vector of the list's items |
| Eval.QuasiquoteData | impls/sakshi/step7_quote.js:140-142 | the quasiquote expansion of plain data evaluates back to the data, with the state unchanged |
| Eval.ExpandListBack | impls/sakshi/step7_quote.js:84-102 | a list of plain data expands to a chain that evaluates back to the list |
| Eval.ExpandVectorBack | impls/sakshi/step7_quote.js:98-100 | a vector of plain data expands to `vec` of a chain that evaluates back to the vector |
| Eval.ExpandAtomBack | impls/sakshi/step7_quote.js:105-109 | a quoted symbol or a literal evaluates back to itself |
| Eval.NoSplice | impls/sakshi/step7_quote.js:89-91 | plain data is never an unquote or a splice |
| Eval.QuasiquoteChain | impls/sakshi/step7_quote.js:86-96 | the `cons` chain built from plain data evaluates to the list of that data |
| Eval.ChainStep | impls/sakshi/step7_quote.js:93-95 | one link of the chain conses the element back onto the evaluated rest |
| Eval.DataLink | impls/sakshi/step7_quote.js:93-95 | a plain datum in a template is consed, as it is, in front of the values of the elements after it |
| Eval.UnquoteLink | impls/sakshi/step7_quote.js:78-95 | an element `~e` of a template contributes the value of `e` in front of the values of the elements after it |
| Eval.SpliceLink | impls/sakshi/step7_quote.js:89-92 | an element `~@e` of a template contributes the items of the list `e` evaluates to, in place, followed by the values of the elements after it |
| Eval.EvalQuasiquoteList | impls/sakshi/step7_quote.js:140-142 | `quasiquote` of a list template evaluates the chain built from its elements in the same frame |
| Eval.SpliceExample | impls/sakshi/step7_quote.js:84-102 | `` `(1 ~@(list 2 3) 4) `` in a fresh interpreter gives (1 2 3 4) and changes nothing |
| Eval.ApplyClosure | impls/sakshi/step7_quote.js:145-149 | a closure continues with its body in a new frame whose outer link is the closure's frame, binding the parameters to the arguments |
| Eval.LetBindsInNewFrame | impls/sakshi/step7_quote.js:45-54 | `let*` binds every symbol of its binding list in a new frame inside the current one, and runs the body there |
| Eval.NotCases | impls/sakshi/step7_quote.js:162-166 | `not` is false on a payload of 0 and true on nil without evaluating; otherwise it negates the root-frame value of its argument |
| Eval.SwapStores | impls/sakshi/types.js:147-150 | `swap!` stores and returns what the primitive gives for the content and extra arguments; no other atom changes |
| Eval.SwapAdd | impls/sakshi/core.js:118 | `(swap! a + k)` on an atom holding n stores and returns n + k |
| Eval.EvalFuel | impls/sakshi/step7_quote.js:113-156 | a larger budget reaches the same value or error in the same state |
| Eval.EvalListFuel | impls/sakshi/step7_quote.js:119-153 | a larger budget gives the same outcome for a non-empty list |
| Eval.ResumeFuel | impls/sakshi/step7_quote.js:114-154 | a larger budget does not change how the loop continues |
| Eval.EvalAstFuel | impls/sakshi/step7_quote.js:15-38 | a larger budget gives `eval_ast` the same outcome |
| Eval.EvalSeqFuel | impls/sakshi/step7_quote.js:21 | a larger budget gives a sequence the same values |
| Eval.EvalMapItemsFuel | impls/sakshi/step7_quote.js:31-33 | a larger budget gives a map the same items |
| Eval.SpecialFuel | impls/sakshi/step7_quote.js:121-153 | a larger budget gives the `switch` the same outcome |
| Eval.EvalDefFuel | impls/sakshi/step7_quote.js:40-43 | a larger budget gives `def!` the same outcome |
| Eval.EvalLetFuel | impls/sakshi/step7_quote.js:45-54 | a larger budget gives `let*` the same outcome |
| Eval.EvalLetBindingsFuel | impls/sakshi/step7_quote.js:49-51 | a larger budget gives the binding loop the same outcome |
| Eval.EvalDoFuel | impls/sakshi/step7_quote.js:56-60 | a larger budget gives `do` the same outcome |
| Eval.EvalIfFuel | impls/sakshi/step7_quote.js:62-69 | a larger budget gives `if` the same outcome |
| Eval.ApplyFormFuel | impls/sakshi/step7_quote.js:143-152 | a larger budget gives application the same outcome |
| Eval.ApplyNativeFuel | impls/sakshi/step7_quote.js:162-166 | a larger budget gives a primitive the same outcome |
| Eval.PrimitiveFuel | impls/sakshi/types.js:147-150 | a larger budget gives `swap!` the same outcome |
| Eval.EvalDeterministic | impls/sakshi/step7_quote.js:113-156 | two budgets that both suffice give the same outcome |
| RoundTrip.CorrectedPrint | impls/sakshi/types.js:70-76 | the map printer corrected to pass the readable flag on agrees with the source printer on everything but lists, vectors and maps, and prints every readable value |
| RoundTrip.PartsOk | impls/sakshi/types.js:70-76 | the corrected items of a collection print exactly when every item does |
| RoundTrip.PartsItem | impls/sakshi/types.js:70-76 | each corrected item is the item's print followed by a comma, which only a map puts after an odd position that is not the last |
| RoundTrip.CorrectedAgrees | impls/sakshi/types.js:38-57 | a value with no map inside prints the same under the corrected printer as under the source's |
| RoundTrip.PrintText | impls/sakshi/types.js:38-76 | the corrected readable print of a readable value is its text: atoms as their tokens, items separated by single spaces between the brackets, map values followed by commas |
| RoundTrip.ScanValue | impls/sakshi/reader.js:21-25 | scanning the print of a readable value, wherever it stands in the input and followed by a character that ends an atom, yields exactly the value's tokens |
| RoundTrip.TokenizeCorrectedPrint | impls/sakshi/reader.js:21-25 | `tokenize` splits the readable print of a readable value into exactly the value's tokens |
| RoundTrip.ParseValue | impls/sakshi/reader.js:96-121 | the parser reads a readable value's tokens, wherever they stand, back as the value and stops right after them |
| RoundTrip.ParseItems | impls/sakshi/reader.js:27-41 | `read_seq` reads the tokens of readable items followed by the closer as those items in order, and consumes the closer |
| RoundTrip.ReadCorrectedPrint | impls/sakshi/reader.js:123-127 | with maps printed readably, `read_str` of the readable print of any readable value gives the value back |
| RoundTrip.ReadPrint | impls/sakshi/reader.js:123-127 | `read_str` of the source's readable print of a readable value with no map inside gives the value back |
| RoundTrip.MapPrintNotReread | impls/sakshi/types.js:70-76 | the map written `{:k "a\\b"}`, whose string holds one backslash, prints readably as `{:k "a\b"}` with the string unescaped; that text reads back as a different map whose string is `ab`, while the corrected print reads back as the map itself |

## Left out

- `slurp`, the `eval` binding of the root frame and `load-file`: they read files or re-enter the REPL with host I/O, which is not modelled.
- The console output of `prn` and `println`, and the readline loop around `rep`: only the returned values are modelled.
- JS coercion in arithmetic and comparisons: a non-number payload gives an Unmodelled error instead of a coerced result.
- Object identity in `===` between two objects or arrays gives an Unmodelled error.
- Core.Arith: numbers are unbounded integers, so results above 2^53 keep a precision the host loses, and a fractional or infinite quotient gives an Unmodelled error.
- Core.Quotient: a zero divisor or a remainder gives an Unmodelled error instead of an infinity, NaN or fraction.
- Core.StrictEquals: two equal objects or arrays give an Unmodelled error, because they may be distinct objects.
- Core.Compare: its contract states only the case of fewer than two arguments; CompareAdjacent gives the meaning on integers.
- Printer.ObjectString: a list or vector shown inside an atom's text is printed without the atom cells, so an atom nested in it gives an Unmodelled error. The host reads the live atom there, and recurses without end when atoms reach each other in a cycle.
- Printer.HostString: a host function shows its source text in the host; the model has no source text and gives an Unmodelled error.
- Printer.Print: a host function, such as the value of `+` in `(list +)`, prints in the host as its source text; the model gives an Unmodelled error.
- Env.KeyOf: a host function used as a binding name keys by its source text in the host; the model gives an Unmodelled error.
- Eval.Elements: the characters of a string used as a binding list, and the arity of a host function, give Unmodelled errors.
- Core.Vec: `vec` of a string gives an Unmodelled error; the host would wrap a string in a vector.
- Core.IsEmpty: `empty?` of a host function, whose length is its arity, gives an Unmodelled error.
- JS null is folded into undefined when a payload is read back from the host.
- Property keys are plain strings: inherited `Object.prototype` properties such as `constructor` are not seen by `find`.
- `let*` reads its binding list once, before the loop; the source re-reads `ast.value[1]` each turn, which gives the same list because nothing changes it.
- The `EVAL` loop runs on fuel. A computation that does not finish within the budget gives OutOfFuel, and the model says nothing about it beyond that; the fuel lemmas show that any budget that suffices gives the same answer.
- The earlier step files (step2 to step6) and `printer.js`'s `pr_str` are not modelled on their own; the REPL's print is `Printer.Print` with the readable flag on.
- Core.Deref: an atom holding a list, vector or map derefs in the host to the bare element array; the model gives an Unmodelled error there.
- Types.IntToString: the host prints integers of magnitude 10^21 or more in exponent form; the model prints all their digits.
- Reader.ParseInt: `parseInt` rounds tokens beyond 2^53 to the nearest double; the model keeps the exact integer.
- Reader.ParseIntToString: the host round trip holds only for magnitudes below 2^53, because of that rounding; the model states it for every integer.
- Eval.EvalMapItemsValues: the value at an odd position is stated as one that the form evaluates to in some valid state, not in the exact state the earlier items left.
- Eval.EvalSeqValues: each value is stated as one that its element evaluates to in some valid state, not in the exact state the earlier elements left; Eval.EvalSeqPure gives the exact state when no element changes it.

## Findings

| source | as written | input that shows it | evidently intended | confidence | as-written member | corrected member |
|---|---|---|---|---|---|---|
| impls/sakshi/types.js:70-76 | the map's `pr_str` ignores the readable flag and prints each item with `x.pr_str()`, so strings in a map are never escaped | `{:k "a\\b"}`: its readable print is `{:k "a\b"}`, which reads back with the string `ab` | print items with `pr_str(x, print_redability)`, as lists and vectors do, so that readable prints read back | high; not executed | RoundTrip.MapPrintNotReread | RoundTrip.ReadCorrectedPrint |

The corrected printer lives in the `RoundTrip` module and carries the round trip for every readable value. The REPL and `pr-str` keep the source's printer, because they model what the program prints.
