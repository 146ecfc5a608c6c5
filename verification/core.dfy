/** The primitive functions of the core table (impls/sakshi/core.js), as
    pure functions of their argument list and the atom cells. `not` and
    `swap!` call back into the evaluator and live there. */
module Core {
  import opened Results
  import opened Types
  import opened Printer
  import opened Reader

  // ------------------------------------------------------------- payloads

  /** `args.map(x => x.value)` read left to right: the first argument whose
      payload cannot be read stops the computation. */
  function Payloads(args: seq<Value>, cells: seq<Value>): (r: Result<seq<Host>>)
    ensures r.Ok? ==> |r.value| == |args| && forall k | 0 <= k < |args| :: PayloadOf(args[k], cells) == Ok(r.value[k])
    ensures r.Err? ==> exists k | 0 <= k < |args| ::
      PayloadOf(args[k], cells) == Err(r.error) && forall j | 0 <= j < k :: PayloadOf(args[j], cells).Ok?
  {
    if |args| == 0 then Ok([])
    else
      var h :- PayloadOf(args[0], cells);
      var hs :- Payloads(args[1..], cells);
      assert forall k | 1 <= k < |args| :: args[k] == args[1..][k - 1];
      Ok([h] + hs)
  }

  /** The numbers carried by a list of payloads, when every one is a number. */
  function Numbers(hs: seq<Host>): (r: Option<seq<int>>)
    ensures r.Some? <==> forall k | 0 <= k < |hs| :: hs[k].HNum?
    ensures r.Some? ==> |r.value| == |hs| && forall k | 0 <= k < |hs| :: r.value[k] == hs[k].n
  {
    if |hs| == 0 then Some([])
    else if !hs[0].HNum? then None
    else match Numbers(hs[1..])
      case None => None
      case Some(ns) => Some([hs[0].n] + ns)
  }

  // ----------------------------------------------------------- arithmetic

  /** Left fold of `+`. */
  function Sum(ns: seq<int>): int {
    if |ns| == 0 then 0 else Sum(ns[..|ns| - 1]) + ns[|ns| - 1]
  }

  /** Left fold of `*`. */
  function Product(ns: seq<int>): int {
    if |ns| == 0 then 1 else Product(ns[..|ns| - 1]) * ns[|ns| - 1]
  }

  /** `ns.reduce((a, b) => a - b)`. */
  function Difference(ns: seq<int>): int
    requires |ns| > 0
  {
    if |ns| == 1 then ns[0] else Difference(ns[..|ns| - 1]) - ns[|ns| - 1]
  }

  /** `ns.reduce((a, b) => a / b)` while every step stays an integer. A zero
      divisor gives an infinity or NaN and a remainder gives a fraction,
      neither of which the model represents. */
  function Quotient(ns: seq<int>): (r: Result<int>)
    requires |ns| > 0
    ensures r.Ok? ==> forall k | 1 <= k < |ns| :: ns[k] != 0
  {
    if |ns| == 1 then Ok(ns[0])
    else
      var q :- Quotient(ns[..|ns| - 1]);
      var d := ns[|ns| - 1];
      assert forall k | 1 <= k < |ns| - 1 :: ns[k] == ns[..|ns| - 1][k];
      if d == 0 then Err(Unmodelled("division by zero"))
      else if q % d != 0 then Err(Unmodelled("fractional quotient"))
      else Ok(q / d)
  }

  /** Subtracting a list is subtracting its sum from the first element. */
  lemma {:induction false} DifferenceIsFirstMinusSum(ns: seq<int>)
    requires |ns| > 0
    ensures Difference(ns) == ns[0] - Sum(ns[1..])
  {
    if |ns| > 1 {
      var p := ns[..|ns| - 1];
      DifferenceIsFirstMinusSum(p);
      assert p[1..] == ns[1..][..|ns[1..]| - 1];
    }
  }

  /** An exact quotient times the product of the divisors is the dividend. */
  lemma {:induction false} QuotientTimesDivisors(ns: seq<int>)
    requires |ns| > 0 && Quotient(ns).Ok?
    ensures Quotient(ns).value * Product(ns[1..]) == ns[0]
  {
    if |ns| > 1 {
      var p := ns[..|ns| - 1];
      var d := ns[|ns| - 1];
      QuotientTimesDivisors(p);
      var q := Quotient(p).value;
      assert p[1..] == ns[1..][..|ns[1..]| - 1];
      assert Product(ns[1..]) == Product(p[1..]) * d;
      assert Quotient(ns).value * d == q;
      calc {
        Quotient(ns).value * Product(ns[1..]);
        Quotient(ns).value * (Product(p[1..]) * d);
        (Quotient(ns).value * d) * Product(p[1..]);
      }
    }
  }

  predicate IsArith(op: Builtin) {
    op.Add? || op.Sub? || op.Mul? || op.Div?
  }

  /** The numeric fold behind `+`, `-`, `*` and `/` on two or more numbers. */
  function Fold(op: Builtin, ns: seq<int>): (r: Result<int>)
    requires IsArith(op) && |ns| > 0
  {
    match op
    case Add => Ok(Sum(ns))
    case Sub => Ok(Difference(ns))
    case Mul => Ok(Product(ns))
    case Div => Quotient(ns)
  }

  /** `+`, `*`, `/` and `-`: `args.reduce((acc, x) => new MalValue(acc.value
      op x.value))`. With no argument the reduce throws; with one it returns
      that argument untouched, except for `-`, which negates it. With more,
      every payload is read, and only numbers are folded: any other payload
      would go through JS coercion. */
  function Arith(op: Builtin, args: seq<Value>, cells: seq<Value>): (r: Result<Value>)
    requires IsArith(op)
    ensures |args| == 0 ==> r.Err? && r.error.TypeError?
    ensures |args| == 1 && !op.Sub? ==> r == Ok(args[0])
    ensures |args| == 1 && op.Sub? && args[0].Int? ==> r == Ok(Int(-args[0].i))
    ensures |args| >= 2 && r.Ok? ==> r.value.Int? && forall k | 0 <= k < |args| :: PayloadOf(args[k], cells).Ok? && PayloadOf(args[k], cells).value.HNum?
  {
    if |args| == 0 then Err(TypeError("reduce of empty array with no initial value"))
    else if |args| == 1 && !op.Sub? then Ok(args[0])
    else if |args| == 1 then
      var h :- PayloadOf(args[0], cells);
      if h.HNum? then Ok(Int(0 - h.n)) else Err(Unmodelled("numeric coercion"))
    else
      var hs :- Payloads(args, cells);
      match Numbers(hs)
      case None => Err(Unmodelled("numeric coercion"))
      case Some(ns) =>
        var n :- Fold(op, ns);
        Ok(Int(n))
  }

  predicate AllInts(args: seq<Value>) {
    forall k | 0 <= k < |args| :: args[k].Int?
  }

  /** The integers carried by a list of integer values. */
  function Ints(args: seq<Value>): (ns: seq<int>)
    requires AllInts(args)
    ensures |ns| == |args| && forall k | 0 <= k < |args| :: ns[k] == args[k].i
  {
    if |args| == 0 then [] else [args[0].i] + Ints(args[1..])
  }

  /** On two or more integers the four operators compute the left fold of
      the arithmetic operation: a sum, a difference, a product or an exact
      quotient. */
  lemma ArithOnInts(op: Builtin, args: seq<Value>, cells: seq<Value>)
    requires IsArith(op) && |args| >= 2 && AllInts(args)
    ensures Fold(op, Ints(args)).Ok? ==> Arith(op, args, cells) == Ok(Int(Fold(op, Ints(args)).value))
    ensures Fold(op, Ints(args)).Err? ==> Arith(op, args, cells) == Err(Fold(op, Ints(args)).error)
  {
    var hs := Payloads(args, cells).value;
    assert Numbers(hs).value == Ints(args);
  }

  // ---------------------------------------------------------- comparisons

  predicate IsComparison(op: Builtin) {
    op.Gt? || op.Lt? || op.Ge? || op.Le?
  }

  /** The relation a comparison operator tests. */
  predicate Related(op: Builtin, a: int, b: int)
    requires IsComparison(op)
  {
    match op
    case Gt => a > b
    case Lt => a < b
    case Ge => a >= b
    case Le => a <= b
  }

  /** `>`, `<`, `>=` and `<=` (`operate`): every adjacent pair is compared in
      order, and the first failing pair ends the test. Fewer than two
      arguments give true. Only numbers are compared; other payloads would
      go through JS coercion. */
  function Compare(op: Builtin, args: seq<Value>, cells: seq<Value>): (r: Result<bool>)
    requires IsComparison(op)
    ensures |args| < 2 ==> r == Ok(true)
    decreases |args|
  {
    if |args| < 2 then Ok(true)
    else
      var a :- PayloadOf(args[0], cells);
      var b :- PayloadOf(args[1], cells);
      if !(a.HNum? && b.HNum?) then Err(Unmodelled("comparison by coercion"))
      else if !Related(op, a.n, b.n) then Ok(false)
      else Compare(op, args[1..], cells)
  }

  /** On integers, a comparison holds exactly when every adjacent pair is
      related. */
  lemma {:induction false} CompareAdjacent(op: Builtin, args: seq<Value>, cells: seq<Value>)
    requires IsComparison(op) && AllInts(args)
    ensures Compare(op, args, cells).Ok?
    ensures Compare(op, args, cells).value <==>
      forall k | 0 <= k < |args| - 1 :: Related(op, args[k].i, args[k + 1].i)
    decreases |args|
  {
    if |args| >= 2 {
      CompareAdjacent(op, args[1..], cells);
      assert forall k | 0 <= k < |args| - 1 :: args[1..][k] == args[k + 1];
    }
  }

  /** A true chain of `<` is strictly increasing: every earlier integer is
      smaller than every later one, not only its neighbour. */
  lemma {:induction false} LessChainIncreasing(args: seq<Value>, cells: seq<Value>)
    requires AllInts(args) && Compare(Lt, args, cells) == Ok(true)
    ensures forall i, j | 0 <= i < j < |args| :: args[i].i < args[j].i
    decreases |args|
  {
    if |args| >= 2 {
      LessChainIncreasing(args[1..], cells);
      forall i, j | 0 <= i < j < |args|
        ensures args[i].i < args[j].i
      {
        if i > 0 {
          assert args[i] == args[1..][i - 1] && args[j] == args[1..][j - 1];
        } else if j > 1 {
          assert args[1] == args[1..][0] && args[j] == args[1..][j - 1];
        }
      }
    }
  }

  // ------------------------------------------------------------- equality

  /** `x === y` on two payloads. Different model values are different JS
      objects, so unequal payloads compare false; two equal objects or arrays
      may still be distinct objects, which the model cannot tell apart. */
  function StrictEquals(x: Host, y: Host): (r: Result<bool>)
    ensures x != y ==> r == Ok(false)
    ensures x == y && !x.HObj? && !x.HArray? ==> r == Ok(true)
  {
    if x != y then Ok(false)
    else if x.HObj? || x.HArray? then Err(Unmodelled("object identity"))
    else Ok(true)
  }

  /** `equals(a, b)`: two empty sequences are equal; other pairs of
      sequences go to `deepEquals`; everything else compares payloads. */
  function Equals(a: Value, b: Value, cells: seq<Value>): Result<bool>
    decreases a, 1
  {
    if IsSeq(a) && IsSeq(b) then
      if |a.items| == 0 && |b.items| == 0 then Ok(true) else DeepEquals(a, b, cells)
    else
      var x :- PayloadOf(a, cells);
      var y :- PayloadOf(b, cells);
      StrictEquals(x, y)
  }

  /** `deepEquals([a, b])`: sequences of the same length compare element by
      element; everything else compares payloads. */
  function DeepEquals(a: Value, b: Value, cells: seq<Value>): Result<bool>
    decreases a, 0
  {
    if IsSeq(a) && IsSeq(b) && |a.items| == |b.items| then EveryEquals(a.items, b.items, cells)
    else
      var x :- PayloadOf(a, cells);
      var y :- PayloadOf(b, cells);
      StrictEquals(x, y)
  }

  /** `xs.every((x, i) => equals(x, ys[i]))`: stops at the first pair that
      is unequal or fails. */
  function EveryEquals(xs: seq<Value>, ys: seq<Value>, cells: seq<Value>): Result<bool>
    requires |xs| == |ys|
    decreases xs, 0
  {
    if |xs| == 0 then Ok(true)
    else
      var e :- Equals(xs[0], ys[0], cells);
      if !e then Ok(false) else EveryEquals(xs[1..], ys[1..], cells)
  }

  /** `equals` and `deepEquals` agree on every pair: the shortcut for two
      empty sequences gives what the element-wise test gives. */
  lemma EqualsIsDeepEquals(a: Value, b: Value, cells: seq<Value>)
    ensures Equals(a, b, cells) == DeepEquals(a, b, cells)
  {
  }

  /** Values whose equality the model decides: no undefined, map, atom or
      closure anywhere inside. */
  predicate Plain(v: Value)
    decreases v
  {
    match v
    case List(xs) => forall k | 0 <= k < |xs| :: Plain(xs[k])
    case Vector(xs) => forall k | 0 <= k < |xs| :: Plain(xs[k])
    case Undefined => false
    case Map(_) => false
    case Atom(_) => false
    case Closure(_, _, _) => false
    case _ => true
  }

  /** What `=` looks at: lists and vectors alike as the sequence of their
      elements' shapes, anything else as its payload. */
  datatype Shape = Leaf(payload: Host) | Node(kids: seq<Shape>)

  function ShapeOf(v: Value): Shape
    requires Plain(v)
    decreases v
  {
    if IsSeq(v) then Node(seq(|v.items|, k requires 0 <= k < |v.items| => ShapeOf(v.items[k])))
    else Leaf(PayloadOf(v, []).value)
  }

  /** On plain values `=` is decided, and holds exactly when the two shapes
      agree: lists and vectors are interchangeable and compared element by
      element, everything else is compared by payload. */
  lemma {:induction false} EqualsShapes(a: Value, b: Value, cells: seq<Value>)
    requires Plain(a) && Plain(b)
    ensures Equals(a, b, cells) == Ok(ShapeOf(a) == ShapeOf(b))
    decreases a, 1
  {
    if IsSeq(a) && IsSeq(b) && (|a.items| != 0 || |b.items| != 0) {
      DeepEqualsShapes(a, b, cells);
    }
  }

  lemma {:induction false} DeepEqualsShapes(a: Value, b: Value, cells: seq<Value>)
    requires Plain(a) && Plain(b) && IsSeq(a) && IsSeq(b)
    ensures DeepEquals(a, b, cells) == Ok(ShapeOf(a) == ShapeOf(b))
    decreases a, 0
  {
    var sa := ShapeOf(a).kids;
    var sb := ShapeOf(b).kids;
    if |a.items| == |b.items| {
      EveryEqualsShapes(a.items, b.items, cells);
      assert forall k | 0 <= k < |sa| :: sa[k] == ShapeOf(a.items[k]) && sb[k] == ShapeOf(b.items[k]);
      assert (ShapeOf(a) == ShapeOf(b)) <==> sa == sb;
      assert (sa == sb) <==> forall k | 0 <= k < |sa| :: sa[k] == sb[k];
    } else {
      assert |sa| != |sb|;
    }
  }

  lemma {:induction false} EveryEqualsShapes(xs: seq<Value>, ys: seq<Value>, cells: seq<Value>)
    requires |xs| == |ys|
    requires forall k | 0 <= k < |xs| :: Plain(xs[k]) && Plain(ys[k])
    ensures EveryEquals(xs, ys, cells) == Ok(forall k | 0 <= k < |xs| :: ShapeOf(xs[k]) == ShapeOf(ys[k]))
    decreases xs, 0
  {
    if |xs| > 0 {
      EqualsShapes(xs[0], ys[0], cells);
      EveryEqualsShapes(xs[1..], ys[1..], cells);
      assert forall k | 1 <= k < |xs| :: xs[1..][k - 1] == xs[k] && ys[1..][k - 1] == ys[k];
    }
  }

  /** On plain values `=` is reflexive and symmetric. */
  lemma EqualsReflexiveSymmetric(a: Value, b: Value, cells: seq<Value>)
    requires Plain(a) && Plain(b)
    ensures Equals(a, a, cells) == Ok(true)
    ensures Equals(a, b, cells) == Equals(b, a, cells)
  {
    EqualsShapes(a, a, cells);
    EqualsShapes(a, b, cells);
    EqualsShapes(b, a, cells);
  }

  /** Consequences of comparing payloads: the two booleans are equal (neither
      has a payload), a symbol equals the string of the same name, an empty
      list equals an empty vector, and a host number is not the integer it
      prints as. */
  lemma EqualsQuirks(name: string, cells: seq<Value>)
    ensures Equals(Bool(true), Bool(false), cells) == Ok(true)
    ensures Equals(Sym(name), Str(name), cells) == Ok(true)
    ensures Equals(List([]), Vector([]), cells) == Ok(true)
    ensures Equals(Int(0), Num(0), cells) == Ok(false)
  {
  }

  // ---------------------------------------------------------- sequences

  /** `count`: the length of a list or vector as a number value, and the
      bare host number 0 for anything else. */
  function Count(args: seq<Value>): (r: Value)
    ensures IsSeq(At(args, 0)) <==> r.Int?
    ensures r.Int? ==> r.i == |At(args, 0).items|
    ensures !r.Int? ==> r == Num(0)
  {
    var a := At(args, 0);
    if IsSeq(a) then Int(|a.items|) else Num(0)
  }

  /** `empty?`: `arg.value.length === 0`. Arrays and strings have a length;
      other host values have none, so the test is false; reading a property
      of null or undefined throws; a function's length is its arity. */
  function IsEmpty(args: seq<Value>, cells: seq<Value>): (r: Result<Value>)
    ensures IsSeq(At(args, 0)) || At(args, 0).Map? ==> r == Ok(Bool(|At(args, 0).items| == 0))
    ensures At(args, 0).Str? ==> r == Ok(Bool(|At(args, 0).str| == 0))
    ensures At(args, 0).Int? ==> r == Ok(Bool(false))
    ensures At(args, 0) == Nil || At(args, 0) == Undefined ==> r.Err? && r.error.TypeError?
  {
    var h :- PayloadOf(At(args, 0), cells);
    match h
    case HArray(xs) => Ok(Bool(|xs| == 0))
    case HStr(s) => Ok(Bool(|s| == 0))
    case HNull => Err(TypeError("cannot read properties of null"))
    case HUndef => Err(TypeError("cannot read properties of undefined"))
    case HFun(_) => Err(Unmodelled("arity of a host function"))
    case _ => Ok(Bool(false))
  }

  /** The characters of a host string, each a one-character host string, as
      spread by `[...s]`. */
  function Chars(s: string): (r: seq<Value>)
    ensures |r| == |s| && forall k | 0 <= k < |s| :: r[k] == Text([s[k]])
  {
    seq(|s|, k requires 0 <= k < |s| => Text([s[k]]))
  }

  /** `cons`: a new list of the first argument followed by the spread of the
      second argument's payload. Only arrays and strings spread. */
  function Cons(args: seq<Value>, cells: seq<Value>): (r: Result<Value>)
    ensures IsSeq(At(args, 1)) || At(args, 1).Map? ==> r == Ok(List([At(args, 0)] + At(args, 1).items))
    ensures At(args, 1).Str? ==> r == Ok(List([At(args, 0)] + Chars(At(args, 1).str)))
    ensures r.Ok? ==> r.value.List? && |r.value.items| > 0 && r.value.items[0] == At(args, 0)
    ensures At(args, 1).Int? || At(args, 1) == Nil || At(args, 1).Bool? ==> r.Err? && r.error.TypeError?
  {
    var h :- PayloadOf(At(args, 1), cells);
    match h
    case HArray(xs) => Ok(List([At(args, 0)] + xs))
    case HStr(s) => Ok(List([At(args, 0)] + Chars(s)))
    case _ => Err(TypeError("value is not iterable"))
  }

  /** `concat`: `lists.flatMap(x => x.value)`. An array payload is spliced
      in; any other payload becomes one element. */
  function Concat(args: seq<Value>, cells: seq<Value>): (r: Result<seq<Value>>)
    ensures r.Err? <==> exists k | 0 <= k < |args| :: PayloadOf(args[k], cells).Err?
  {
    if |args| == 0 then Ok([])
    else
      var h :- PayloadOf(args[0], cells);
      var rest :- Concat(args[1..], cells);
      assert forall k | 1 <= k < |args| :: args[k] == args[1..][k - 1];
      match h
      case HArray(xs) => Ok(xs + rest)
      case _ => Ok([FromHost(h).value] + rest)
  }

  /** All items of a list of sequences, in order. */
  function Flatten(args: seq<Value>): seq<Value>
    requires forall k | 0 <= k < |args| :: IsSeq(args[k])
  {
    if |args| == 0 then []
    else
      assert IsSeq(args[0]);
      args[0].items + Flatten(args[1..])
  }

  /** On lists and vectors, `concat` joins their items in order. */
  lemma {:induction false} ConcatFlattens(args: seq<Value>, cells: seq<Value>)
    requires forall k | 0 <= k < |args| :: IsSeq(args[k])
    ensures Concat(args, cells) == Ok(Flatten(args))
  {
    if |args| > 0 {
      ConcatFlattens(args[1..], cells);
    }
  }

  /** `vec`: a vector of the payload's array. A string's `slice()` would
      produce a vector around a string, which the model has no value for. */
  function Vec(args: seq<Value>, cells: seq<Value>): (r: Result<Value>)
    ensures IsSeq(At(args, 0)) || At(args, 0).Map? ==> r == Ok(Vector(At(args, 0).items))
    ensures r.Ok? ==> r.value.Vector?
  {
    var h :- PayloadOf(At(args, 0), cells);
    match h
    case HArray(xs) => Ok(Vector(xs))
    case HStr(_) => Err(Unmodelled("a vector around a string"))
    case _ => Err(TypeError("slice is not a function"))
  }

  // ------------------------------------------------------------- printing

  /** The arguments' prints joined by `sep`, as `prn`, `pr-str`, `str` and
      `println` build them. */
  function PrintJoin(args: seq<Value>, readable: bool, sep: string, cells: seq<Value>): (r: Result<string>)
    ensures r.Ok? <==> PrintAll(args, readable, cells).Ok?
    ensures r.Ok? ==> r.value == Join(PrintAll(args, readable, cells).value, sep)
  {
    var ps :- PrintAll(args, readable, cells);
    Ok(Join(ps, sep))
  }

  /** `pr-str`: the readable prints joined by spaces, printed once more as a
      readable string. The result is a bare host string, quotes included. */
  function PrStr(args: seq<Value>, cells: seq<Value>): (r: Result<Value>)
    ensures r.Ok? <==> PrintAll(args, true, cells).Ok?
    ensures r.Ok? ==> r.value.Text? && |r.value.raw| >= 2 && r.value.raw[0] == '"' && r.value.raw[|r.value.raw| - 1] == '"'
    ensures r.Ok? ==> Unescape(r.value.raw[1..|r.value.raw| - 1]) == PrintJoin(args, true, " ", cells).value
  {
    var j :- PrintJoin(args, true, " ", cells);
    UnescapeEscape(j);
    var t := "\"" + Escape(j) + "\"";
    assert t[1..|t| - 1] == Escape(j);
    Ok(Text(t))
  }

  /** `str`: the display prints joined with nothing between them, as a
      string value. */
  function ToStr(args: seq<Value>, cells: seq<Value>): (r: Result<Value>)
    ensures r.Ok? <==> PrintAll(args, false, cells).Ok?
    ensures r.Ok? ==> r.value.Str? && r.value.str == PrintJoin(args, false, "", cells).value
  {
    var j :- PrintJoin(args, false, "", cells);
    Ok(Str(j))
  }

  /** The display print of a string keeps its quotes, so `str` of one string
      is that string wrapped in double quotes. */
  lemma StrOfOneString(s: string, cells: seq<Value>)
    ensures ToStr([Str(s)], cells) == Ok(Str("\"" + s + "\""))
  {
    var q := "\"" + s + "\"";
    assert Print(Str(s), false, cells) == Ok(q);
    var ps := PrintAll([Str(s)], false, cells);
    assert ps.Ok? && |ps.value| == 1 && ps.value[0] == q;
    assert ps.value == [q];
  }

  /** `prn` and `println` write one line and return nil; a print that
      throws is passed on. */
  function PrintLine(args: seq<Value>, readable: bool, cells: seq<Value>): (r: Result<Value>)
    ensures r.Ok? <==> PrintAll(args, readable, cells).Ok?
    ensures r.Ok? ==> r.value == Nil
  {
    var _ :- PrintJoin(args, readable, " ", cells);
    Ok(Nil)
  }

  /** `read-string`: parses the payload when it is a host string; any other
      payload has no `matchAll` and throws. */
  function ReadString(args: seq<Value>, cells: seq<Value>): (r: Result<Value>)
    ensures At(args, 0).Str? ==> r == ReadStr(At(args, 0).str)
    ensures At(args, 0).Text? || At(args, 0).Int? || At(args, 0) == Nil ==> r.Err? && r.error.TypeError?
  {
    var h :- PayloadOf(At(args, 0), cells);
    if h.HStr? then ReadStr(h.s) else Err(TypeError("matchAll is not a function"))
  }

  /** `pr-str` returns a bare host string, which has no payload; feeding it
      straight to `read-string` therefore throws. */
  lemma ReadStringOfPrStr(args: seq<Value>, cells: seq<Value>)
    requires PrStr(args, cells).Ok?
    ensures ReadString([PrStr(args, cells).value], cells).Err?
  {
  }

  // ---------------------------------------------------------------- atoms

  /** `atom`: a new cell at the end of the cell list holding the argument. */
  function MakeAtom(args: seq<Value>, cells: seq<Value>): (r: (Value, seq<Value>))
    ensures r.0 == Atom(|cells|) && |r.1| == |cells| + 1
    ensures r.1[..|cells|] == cells && r.1[|cells|] == At(args, 0)
  {
    (Atom(|cells|), cells + [At(args, 0)])
  }

  /** `deref`: the payload of the atom's content, which for a MalValue is the
      host value inside it rather than the value itself. */
  function Deref(args: seq<Value>, cells: seq<Value>): (r: Result<Value>)
    ensures !At(args, 0).Atom? ==> r.Err? && r.error.TypeError?
    ensures At(args, 0).Atom? && At(args, 0).cell < |cells| && cells[At(args, 0).cell].Str? ==>
      r == Ok(Text(cells[At(args, 0).cell].str))
    ensures At(args, 0).Atom? && At(args, 0).cell < |cells| && cells[At(args, 0).cell].Int? ==>
      r == Ok(Num(cells[At(args, 0).cell].i))
  {
    var a := At(args, 0);
    if !a.Atom? then Err(TypeError("deref is not a function"))
    else if a.cell >= |cells| then Err(Unmodelled("dangling atom"))
    else
      var h :- PayloadOf(cells[a.cell], cells);
      FromHost(h)
  }

  /** `reset!`: stores the second argument in the atom and returns it. */
  function Reset(args: seq<Value>, cells: seq<Value>): (r: Result<(Value, seq<Value>)>)
    ensures r.Ok? <==> At(args, 0).Atom? && At(args, 0).cell < |cells|
    ensures r.Ok? ==> r.value.0 == At(args, 1) && |r.value.1| == |cells|
    ensures r.Ok? ==> r.value.1[At(args, 0).cell] == At(args, 1)
    ensures r.Ok? ==> forall c | 0 <= c < |cells| && c != At(args, 0).cell :: r.value.1[c] == cells[c]
  {
    var a := At(args, 0);
    if !a.Atom? then Err(TypeError("reset is not a function"))
    else if a.cell >= |cells| then Err(Unmodelled("dangling atom"))
    else Ok((At(args, 1), cells[a.cell := At(args, 1)]))
  }

  /** A fresh atom derefs to the payload of its initial value, and a reset
      one to the payload of the value stored last. */
  lemma AtomRoundTrip(v: Value, w: Value, cells: seq<Value>)
    ensures var (a, cs) := MakeAtom([v], cells);
      Deref([a], cs) == (var h :- PayloadOf(v, cs); FromHost(h))
    ensures var (a, cs) := MakeAtom([v], cells);
      Reset([a, w], cs).Ok? && Deref([a], Reset([a, w], cs).value.1) == (var h :- PayloadOf(w, Reset([a, w], cs).value.1); FromHost(h))
  {
  }

  // ------------------------------------------------------------- dispatch

  /** A primitive applied to its argument list, for every primitive that
      does not call back into the evaluator. Only `atom` and `reset!` change
      the cells. */
  function Apply(op: Builtin, args: seq<Value>, cells: seq<Value>): (r: Result<(Value, seq<Value>)>)
    requires !op.Not? && !op.Swap?
    ensures r.Ok? && !op.MakeAtom? && !op.Reset? ==> r.value.1 == cells
    ensures r.Ok? ==> |r.value.1| >= |cells|
    ensures op.MakeList? ==> r == Ok((List(args), cells))
    ensures op.Count? ==> r == Ok((Count(args), cells))
  {
    match op
    case Add => var v :- Arith(op, args, cells); Ok((v, cells))
    case Sub => var v :- Arith(op, args, cells); Ok((v, cells))
    case Mul => var v :- Arith(op, args, cells); Ok((v, cells))
    case Div => var v :- Arith(op, args, cells); Ok((v, cells))
    case Equal => var b :- DeepEquals(At(args, 0), At(args, 1), cells); Ok((Bool(b), cells))
    case Gt => var b :- Compare(op, args, cells); Ok((Bool(b), cells))
    case Lt => var b :- Compare(op, args, cells); Ok((Bool(b), cells))
    case Ge => var b :- Compare(op, args, cells); Ok((Bool(b), cells))
    case Le => var b :- Compare(op, args, cells); Ok((Bool(b), cells))
    case Count => Ok((Count(args), cells))
    case MakeList => Ok((List(args), cells))
    case IsList => Ok((Bool(At(args, 0).List?), cells))
    case IsEmpty => var v :- IsEmpty(args, cells); Ok((v, cells))
    case Prn => var v :- PrintLine(args, true, cells); Ok((v, cells))
    case PrStr => var v :- PrStr(args, cells); Ok((v, cells))
    case ToStr => var v :- ToStr(args, cells); Ok((v, cells))
    case Println => var v :- PrintLine(args, false, cells); Ok((v, cells))
    case ReadString => var v :- ReadString(args, cells); Ok((v, cells))
    case MakeAtom => Ok(MakeAtom(args, cells))
    case IsAtom => Ok((Bool(At(args, 0).Atom?), cells))
    case Deref => var v :- Deref(args, cells); Ok((v, cells))
    case Reset => Reset(args, cells)
    case Cons => var v :- Cons(args, cells); Ok((v, cells))
    case Concat => var xs :- Concat(args, cells); Ok((List(xs), cells))
    case Vec => var v :- Vec(args, cells); Ok((v, cells))
  }
}
