/** The quasiquote expander (`quasiquote` in impls/sakshi/step7_quote.js):
    rewrites a quasiquoted form into an ordinary form built from `cons`,
    `concat`, `vec` and `quote`. It only reads payloads, so it needs the
    atom cells but never changes them. */
module Quasiquote {
  import opened Results
  import opened Types

  /** Whether `v` is a non-empty list whose first element has the host string
      `name` as payload. Reading the payload of an undefined first element
      throws. */
  function HeadIs(v: Value, name: string, cells: seq<Value>): (r: Result<bool>)
    ensures !v.List? || |v.items| == 0 ==> r == Ok(false)
    ensures r == Ok(true) ==> v.List? && |v.items| > 0 && PayloadOf(v.items[0], cells) == Ok(HStr(name))
    ensures v.List? && |v.items| > 0 && (v.items[0].Sym? || v.items[0].Str?) ==> r.Ok?
  {
    if v.List? && |v.items| > 0 then
      var h :- PayloadOf(v.items[0], cells);
      Ok(h == HStr(name))
    else Ok(false)
  }

  /** The expansion of one quasiquoted form. */
  function Expand(ast: Value, cells: seq<Value>): (r: Result<Value>)
    decreases ast, 1
  {
    var unquoted :- HeadIs(ast, "unquote", cells);
    if unquoted then Ok(At(ast.items, 1))
    else if IsSeq(ast) then
      var folded :- Fold(ast.items, List([]), cells);
      if ast.Vector? then Ok(List([Sym("vec"), folded])) else Ok(folded)
    else if ast.Sym? then Ok(List([Sym("quote"), ast]))
    else Ok(ast)
  }

  /** What one element adds in front of the expansion `acc` of the elements
      after it: a spliced element is concatenated, any other is consed on
      after its own expansion. */
  function Step(e: Value, acc: Value, cells: seq<Value>): (r: Result<Value>)
    decreases e, 2
  {
    var spliced :- HeadIs(e, "splice-unquote", cells);
    if spliced then Ok(List([Sym("concat"), At(e.items, 1), acc]))
    else
      var q :- Expand(e, cells);
      Ok(List([Sym("cons"), q, acc]))
  }

  /** The loop of the expander over a sequence's elements, from the last one
      to the first, starting from an empty list. */
  function Fold(xs: seq<Value>, acc: Value, cells: seq<Value>): (r: Result<Value>)
    decreases xs, 0
  {
    if |xs| == 0 then Ok(acc)
    else
      var acc' :- Step(xs[|xs| - 1], acc, cells);
      Fold(xs[..|xs| - 1], acc', cells)
  }

  /** The same expansion as a right fold: the first element's step wraps
      the expansion of the rest. */
  function FoldRight(xs: seq<Value>, acc: Value, cells: seq<Value>): (r: Result<Value>)
    decreases xs
  {
    if |xs| == 0 then Ok(acc)
    else
      var rest :- FoldRight(xs[1..], acc, cells);
      Step(xs[0], rest, cells)
  }

  lemma {:induction false} FoldRightSnoc(p: seq<Value>, x: Value, acc: Value, cells: seq<Value>)
    ensures FoldRight(p + [x], acc, cells) == (var a :- Step(x, acc, cells); FoldRight(p, a, cells))
    decreases |p|
  {
    if |p| > 0 {
      assert (p + [x])[1..] == p[1..] + [x];
      FoldRightSnoc(p[1..], x, acc, cells);
    } else {
      assert [x][1..] == [];
    }
  }

  /** The backwards loop computes the right fold: the expansion of a
      sequence is the first element's step around the expansion of the
      others, and the steps run from the last element to the first. */
  lemma {:induction false} FoldIsFoldRight(xs: seq<Value>, acc: Value, cells: seq<Value>)
    ensures Fold(xs, acc, cells) == FoldRight(xs, acc, cells)
    decreases |xs|
  {
    if |xs| > 0 {
      var p := xs[..|xs| - 1];
      var x := xs[|xs| - 1];
      assert xs == p + [x];
      FoldRightSnoc(p, x, acc, cells);
      match Step(x, acc, cells)
      case Ok(a) => FoldIsFoldRight(p, a, cells);
      case Err(_) =>
    }
  }

  /** An unquoted form expands to its argument. */
  lemma ExpandUnquote(x: Value, rest: seq<Value>, cells: seq<Value>)
    ensures Expand(List([Sym("unquote"), x] + rest), cells) == Ok(x)
  {
  }

  /** A symbol expands to its quotation, and a form that is neither a
      symbol, a list nor a vector expands to itself. */
  lemma ExpandAtoms(ast: Value, cells: seq<Value>)
    requires !ast.List? && !ast.Vector?
    ensures ast.Sym? ==> Expand(ast, cells) == Ok(List([Sym("quote"), ast]))
    ensures !ast.Sym? ==> Expand(ast, cells) == Ok(ast)
  {
  }

  /** A list not headed by `unquote` expands to a chain built from its
      elements front to back, ending in the empty list; a vector's chain is
      passed to `vec`. */
  lemma ExpandSequence(ast: Value, cells: seq<Value>)
    requires IsSeq(ast) && HeadIs(ast, "unquote", cells) == Ok(false)
    ensures ast.List? ==> Expand(ast, cells) == FoldRight(ast.items, List([]), cells)
    ensures ast.Vector? ==>
      Expand(ast, cells) == (var f :- FoldRight(ast.items, List([]), cells); Ok(List([Sym("vec"), f])))
  {
    FoldIsFoldRight(ast.items, List([]), cells);
  }

  /** A spliced element contributes `concat` of its argument, any other
      element `cons` of its expansion. */
  lemma StepShapes(e: Value, rest: Value, cells: seq<Value>)
    requires Step(e, rest, cells).Ok?
    ensures HeadIs(e, "splice-unquote", cells) == Ok(true) ==>
      Step(e, rest, cells).value == List([Sym("concat"), At(e.items, 1), rest])
    ensures HeadIs(e, "splice-unquote", cells) == Ok(false) ==>
      Step(e, rest, cells).value == List([Sym("cons"), Expand(e, cells).value, rest])
  {
  }

  /** An element that is not a splice is consed, after its expansion, onto
      the expansion of the elements after it. */
  lemma FoldRightCons(xs: seq<Value>, acc: Value, cells: seq<Value>)
    requires |xs| > 0 && HeadIs(xs[0], "splice-unquote", cells) == Ok(false)
    requires Expand(xs[0], cells).Ok? && FoldRight(xs[1..], acc, cells).Ok?
    ensures FoldRight(xs, acc, cells) == Ok(List([Sym("cons"), Expand(xs[0], cells).value, FoldRight(xs[1..], acc, cells).value]))
  {
  }
}
