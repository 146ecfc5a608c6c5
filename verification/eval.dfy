/** The evaluator of impls/sakshi/step7_quote.js: `eval_ast`, the special
    forms, function application and the `EVAL` loop. The loop runs on a fuel
    budget: every nested evaluation and every turn of the loop costs one
    unit, and running out is reported as OutOfFuel rather than as a result.
    The mutable parts of the interpreter, its environment frames and its
    atoms, are threaded through as an explicit State. */
module Eval {
  import opened Results
  import opened Types
  import opened Env
  import Core
  import Quasiquote
  import Printer
  import Reader
  import RoundTrip

  datatype State = State(frames: Store, cells: seq<Value>)

  /** The frame store is well formed and holds the root frame 0. */
  predicate Valid(st: State) {
    WellFormed(st.frames) && |st.frames| > 0
  }

  /** `st'` is a later state than `st`: no frame or atom disappears, no
      outer link changes and no binding is removed. */
  predicate Extends(st: State, st': State) {
    && |st.frames| <= |st'.frames|
    && |st.cells| <= |st'.cells|
    && forall g | 0 <= g < |st.frames| :: Kept(st, st', g)
  }

  /** Frame `g` keeps its outer link and every name it binds. */
  predicate Kept(st: State, st': State, g: nat)
    requires g < |st.frames| && g < |st'.frames|
  {
    st'.frames[g].outer == st.frames[g].outer && st.frames[g].data.Keys <= st'.frames[g].data.Keys
  }

  lemma ExtendsTrans(a: State, b: State, c: State)
    requires Extends(a, b) && Extends(b, c)
    ensures Extends(a, c)
  {
    forall g | 0 <= g < |a.frames|
      ensures Kept(a, c, g)
    {
      assert Kept(a, b, g) && Kept(b, c, g);
    }
  }

  /** The outcome of an evaluation: a value, a thrown error (with the state
      as it was when the error was thrown), or an exhausted budget. */
  datatype Out<+T> = Done(value: T, st: State) | Raised(error: Error, st: State) | OutOfFuel

  /** Every outcome that is not OutOfFuel leaves a valid later state. */
  predicate Follows<T>(st: State, r: Out<T>) {
    !r.OutOfFuel? ==> Valid(r.st) && Extends(st, r.st)
  }

  /** An outcome that follows a later state follows the earlier one. */
  lemma FollowsTrans<T>(st: State, st1: State, r: Out<T>)
    requires Extends(st, st1) && Follows(st1, r)
    ensures Follows(st, r)
  {
    if !r.OutOfFuel? {
      ExtendsTrans(st, st1, r.st);
    }
  }

  /** What a special form hands back to the `EVAL` loop: a final value, or
      the form and frame to evaluate next. */
  datatype Next = Return(v: Value) | Continue(ast: Value, env: nat)

  /** `xs.slice(n)`. */
  function Drop(xs: seq<Value>, n: nat): (r: seq<Value>)
    ensures |xs| >= n ==> r == xs[n..]
    ensures |xs| < n ==> r == []
  {
    if |xs| >= n then xs[n..] else []
  }

  /** `new MalList([new MalSymbol('do'), ...forms])`. */
  function DoForm(forms: seq<Value>): Value {
    List([Sym("do")] + forms)
  }

  /** The elements a loop over `h.length` and `h[i]` visits. An array gives
      its elements; a number, boolean or object has no length and gives none;
      undefined gives none when it stands for a missing parameter list that
      a default `[]` replaces, and throws otherwise; null throws; the
      characters of a string and the arity of a function are outside the
      model. */
  function Elements(h: Host, undefinedIsEmpty: bool): (r: Result<seq<Value>>)
    ensures h.HArray? ==> r == Ok(h.elems)
    ensures h.HNum? || h.HBool? || h.HObj? ==> r == Ok([])
    ensures h.HNull? ==> r.Err? && r.error.TypeError?
    ensures h.HUndef? ==> r == (if undefinedIsEmpty then Ok([]) else Err(TypeError("cannot read properties of undefined")))
  {
    match h
    case HArray(xs) => Ok(xs)
    case HNull => Err(TypeError("cannot read properties of null"))
    case HUndef => if undefinedIsEmpty then Ok([]) else Err(TypeError("cannot read properties of undefined"))
    case HStr(_) => Err(Unmodelled("characters of a string as bindings"))
    case HFun(_) => Err(Unmodelled("arity of a host function"))
    case _ => Ok([])
  }

  // ----------------------------------------------------------- evaluation

  /** `EVAL(ast, env)`: a non-list goes to `eval_ast`, the empty list is its
      own value, and a non-empty list is a special form or an application,
      which either returns or gives the loop its next form and frame. */
  function Eval(ast: Value, env: nat, st: State, fuel: nat): (r: Out<Value>)
    requires Valid(st) && env < |st.frames|
    ensures Follows(st, r)
    decreases fuel, 0, 0
  {
    if fuel == 0 then OutOfFuel
    else if !ast.List? then EvalAst(ast, env, st, fuel - 1)
    else if |ast.items| == 0 then Done(ast, st)
    else match Special(ast.items, env, st, fuel - 1)
      case Done(Return(v), st1) => Done(v, st1)
      case Done(Continue(a, e), st1) =>
        var r := Eval(a, e, st1, fuel - 1);
        FollowsTrans(st, st1, r);
        r
      case Raised(err, st1) => Raised(err, st1)
      case OutOfFuel => OutOfFuel
  }

  /** `eval_ast`: a symbol is looked up, the elements of a list or vector
      are evaluated in order, a map has its values (odd positions)
      evaluated and its keys kept, and anything else is its own value. */
  function EvalAst(ast: Value, env: nat, st: State, fuel: nat): (r: Out<Value>)
    requires Valid(st) && env < |st.frames|
    ensures Follows(st, r)
    ensures r.Done? && ast.List? ==> r.value.List? && |r.value.items| == |ast.items|
    ensures r.Done? && ast.Vector? ==> r.value.Vector? && |r.value.items| == |ast.items|
    ensures r.Done? && ast.Map? ==>
      && r.value.Map? && |r.value.items| == |ast.items|
      && forall j | 0 <= j < |ast.items| && j % 2 == 0 :: r.value.items[j] == ast.items[j]
    decreases fuel, 2, 0
  {
    match ast
    case Sym(name) =>
      (match Get(st.frames, env, name)
       case Ok(v) => Done(v, st)
       case Err(err) => Raised(err, st))
    case List(xs) =>
      (match EvalSeq(xs, env, st, fuel)
       case Done(vs, st1) => Done(List(vs), st1)
       case Raised(err, st1) => Raised(err, st1)
       case OutOfFuel => OutOfFuel)
    case Vector(xs) =>
      (match EvalSeq(xs, env, st, fuel)
       case Done(vs, st1) => Done(Vector(vs), st1)
       case Raised(err, st1) => Raised(err, st1)
       case OutOfFuel => OutOfFuel)
    case Map(xs) =>
      (match EvalMapItems(xs, 0, env, st, fuel)
       case Done(vs, st1) => Done(Map(vs), st1)
       case Raised(err, st1) => Raised(err, st1)
       case OutOfFuel => OutOfFuel)
    case _ => Done(ast, st)
  }

  /** `xs.map(x => EVAL(x, env))`, left to right; the first throw stops it. */
  function EvalSeq(xs: seq<Value>, env: nat, st: State, fuel: nat): (r: Out<seq<Value>>)
    requires Valid(st) && env < |st.frames|
    ensures Follows(st, r)
    ensures r.Done? ==> |r.value| == |xs|
    decreases fuel, 1, |xs|
  {
    if |xs| == 0 then Done([], st)
    else match Eval(xs[0], env, st, fuel)
      case Done(v, st1) =>
        var rest := EvalSeq(xs[1..], env, st1, fuel);
        FollowsTrans(st, st1, rest);
        (match rest
         case Done(vs, st2) => Done([v] + vs, st2)
         case Raised(err, st2) => Raised(err, st2)
         case OutOfFuel => OutOfFuel)
      case Raised(err, st1) => Raised(err, st1)
      case OutOfFuel => OutOfFuel
  }

  /** The items of a map from position `i` on: even positions are kept,
      odd ones evaluated, in order. */
  function EvalMapItems(xs: seq<Value>, i: nat, env: nat, st: State, fuel: nat): (r: Out<seq<Value>>)
    requires Valid(st) && env < |st.frames|
    ensures Follows(st, r)
    ensures r.Done? ==> |r.value| == |xs| - i || (i > |xs| && r.value == [])
    ensures r.Done? ==> forall j | i <= j < |xs| && j % 2 == 0 :: r.value[j - i] == xs[j]
    decreases fuel, 1, |xs| - i
  {
    if i >= |xs| then Done([], st)
    else
      var head := if i % 2 == 0 then Done(xs[i], st) else Eval(xs[i], env, st, fuel);
      match head
      case Done(v, st1) =>
        var rest := EvalMapItems(xs, i + 1, env, st1, fuel);
        FollowsTrans(st, st1, rest);
        (match rest
         case Done(vs, st2) => Done([v] + vs, st2)
         case Raised(err, st2) => Raised(err, st2)
         case OutOfFuel => OutOfFuel)
      case Raised(err, st1) => Raised(err, st1)
      case OutOfFuel => OutOfFuel
  }

  /** The `switch` on the payload of the first element of a non-empty list.
      The eight cases are grouped by what they do: the binding forms, the
      control forms, the forms built from their syntax alone, and the
      default case. */
  function Special(items: seq<Value>, env: nat, st: State, fuel: nat): (r: Out<Next>)
    requires Valid(st) && env < |st.frames| && |items| > 0
    ensures Follows(st, r)
    ensures r.Done? && r.value.Continue? ==> r.value.env < |r.st.frames|
    decreases fuel, 6, 0
  {
    match PayloadOf(items[0], st.cells)
    case Err(err) => Raised(err, st)
    case Ok(h) =>
      if h == HStr("def!") || h == HStr("let*") then BindingForm(h, items, env, st, fuel)
      else if h == HStr("do") || h == HStr("if") then ControlForm(h, items, env, st, fuel)
      else if h == HStr("fn*") || h == HStr("quote") || h == HStr("quasiquoteexpand") || h == HStr("quasiquote") then
        SyntaxForm(h, items, env, st)
      else ApplyForm(items, env, st, fuel)
  }

  /** `def!` and `let*`. */
  function BindingForm(h: Host, items: seq<Value>, env: nat, st: State, fuel: nat): (r: Out<Next>)
    requires Valid(st) && env < |st.frames| && |items| > 0
    ensures Follows(st, r)
    ensures r.Done? && r.value.Continue? ==> r.value.env < |r.st.frames|
    decreases fuel, 5, 0
  {
    if h == HStr("def!") then EvalDef(items, env, st, fuel) else EvalLet(items, env, st, fuel)
  }

  /** `do` and `if`. */
  function ControlForm(h: Host, items: seq<Value>, env: nat, st: State, fuel: nat): (r: Out<Next>)
    requires Valid(st) && env < |st.frames| && |items| > 0
    ensures Follows(st, r)
    ensures r.Done? && r.value.Continue? ==> r.value.env < |r.st.frames|
    decreases fuel, 5, 0
  {
    if h == HStr("do") then EvalDo(items, env, st, fuel) else EvalIf(items, env, st, fuel)
  }

  /** `fn*` (`handleFn`: a closure over the current frame whose body is the
      remaining forms wrapped in `do`, which the loop then evaluates to
      itself), `quote`, `quasiquoteexpand` and `quasiquote`. None of them
      evaluates anything. */
  function SyntaxForm(h: Host, items: seq<Value>, env: nat, st: State): (r: Out<Next>)
    requires Valid(st) && env < |st.frames| && |items| > 0
    ensures Follows(st, r)
    ensures r.Done? && r.value.Continue? ==> r.value.env < |r.st.frames|
  {
    if h == HStr("fn*") then
      Done(Continue(Closure(At(items, 1), DoForm(Drop(items, 2)), env), env), st)
    else if h == HStr("quote") then Done(Return(At(items, 1)), st)
    else if h == HStr("quasiquoteexpand") then
      (match Quasiquote.Expand(At(items, 1), st.cells)
       case Ok(v) => Done(Return(v), st)
       case Err(err) => Raised(err, st))
    else
      (match Quasiquote.Expand(At(items, 1), st.cells)
       case Ok(v) => Done(Continue(v, env), st)
       case Err(err) => Raised(err, st))
  }

  /** `handleDef`: evaluate the value, bind it in the current frame, and
      return what looking the name up gives. */
  function EvalDef(items: seq<Value>, env: nat, st: State, fuel: nat): (r: Out<Next>)
    requires Valid(st) && env < |st.frames|
    ensures Follows(st, r)
    ensures r.Done? ==> r.value.Return?
    decreases fuel, 4, 0
  {
    match Eval(At(items, 2), env, st, fuel)
    case Done(v, st1) =>
      (match KeyOf(At(items, 1), st1.cells)
       case Err(err) => Raised(err, st1)
       case Ok(k) =>
         var st2 := st1.(frames := Set(st1.frames, env, k, v));
         ExtendsTrans(st, st1, st2);
         match Get(st2.frames, env, k)
         case Ok(w) => Done(Return(w), st2)
         case Err(err) => Raised(err, st2))
    case Raised(err, st1) => Raised(err, st1)
    case OutOfFuel => OutOfFuel
  }

  /** `handleLet`: a new empty frame inside the current one receives the
      bindings in order, each value evaluated in the new frame, and the body
      continues there as a `do` form. */
  function EvalLet(items: seq<Value>, env: nat, st: State, fuel: nat): (r: Out<Next>)
    requires Valid(st) && env < |st.frames|
    ensures Follows(st, r)
    ensures r.Done? ==> r.value == Continue(DoForm(Drop(items, 2)), |st.frames|)
    decreases fuel, 4, 0
  {
    var e := |st.frames|;
    var st1 := st.(frames := Push(st.frames, Frame(map[], Some(env))));
    match PayloadOf(At(items, 1), st.cells)
    case Err(err) => Raised(err, st1)
    case Ok(h) =>
      match Elements(h, false)
      case Err(err) => Raised(err, st1)
      case Ok(xs) =>
        var r := EvalLetBindings(xs, 0, e, st1, fuel);
        FollowsTrans(st, st1, r);
        match r
        case Done(_, st2) => Done(Continue(DoForm(Drop(items, 2)), e), st2)
        case Raised(err, st2) => Raised(err, st2)
        case OutOfFuel => OutOfFuel
  }

  /** The binding loop of `let*` from position `i`: the value at `i + 1` is
      evaluated in frame `e`, then bound under the key of the item at `i`. */
  function EvalLetBindings(xs: seq<Value>, i: nat, e: nat, st: State, fuel: nat): (r: Out<()>)
    requires Valid(st) && e < |st.frames|
    ensures Follows(st, r)
    ensures r.Done? ==> forall j | i <= j < |xs| && (j - i) % 2 == 0 && xs[j].Sym? :: xs[j].name in r.st.frames[e].data
    decreases fuel, 1, |xs| - i
  {
    if i >= |xs| then Done((), st)
    else match Eval(At(xs, i + 1), e, st, fuel)
      case Done(v, st1) =>
        (match KeyOf(xs[i], st1.cells)
         case Err(err) => Raised(err, st1)
         case Ok(k) =>
           var st2 := st1.(frames := Set(st1.frames, e, k, v));
           var r := EvalLetBindings(xs, i + 2, e, st2, fuel);
           ExtendsTrans(st, st1, st2);
           FollowsTrans(st, st2, r);
           assert r.Done? ==> Kept(st2, r.st, e);
           r)
      case Raised(err, st1) => Raised(err, st1)
      case OutOfFuel => OutOfFuel
  }

  /** `handleDo`: every form but the last is evaluated for its effect; the
      last is evaluated by the loop. With no forms the loop gets undefined. */
  function EvalDo(items: seq<Value>, env: nat, st: State, fuel: nat): (r: Out<Next>)
    requires Valid(st) && env < |st.frames|
    ensures Follows(st, r)
    ensures |items| <= 1 ==> r == Done(Continue(Undefined, env), st)
    ensures r.Done? && |items| > 1 ==> r.value == Continue(items[|items| - 1], env)
    ensures |items| > 1 ==> var pre := EvalSeq(items[1..|items| - 1], env, st, fuel);
      && (r.Done? <==> pre.Done?) && (r.Raised? <==> pre.Raised?)
      && (!pre.OutOfFuel? ==> r.st == pre.st)
      && (pre.Raised? ==> r.error == pre.error)
    decreases fuel, 4, 0
  {
    var forms := Drop(items, 1);
    if |forms| == 0 then Done(Continue(Undefined, env), st)
    else
      assert forms[..|forms| - 1] == items[1..|items| - 1];
      match EvalSeq(forms[..|forms| - 1], env, st, fuel)
      case Done(_, st1) => Done(Continue(forms[|forms| - 1], env), st1)
      case Raised(err, st1) => Raised(err, st1)
      case OutOfFuel => OutOfFuel
  }

  /** `handleIf`: the condition selects the second element when it is JS
      truthy and not nil; otherwise the third, or nil when there is none. */
  function EvalIf(items: seq<Value>, env: nat, st: State, fuel: nat): (r: Out<Next>)
    requires Valid(st) && env < |st.frames|
    ensures Follows(st, r)
    ensures r.Done? ==> r.value.Continue? && r.value.env == env
    decreases fuel, 4, 0
  {
    match Eval(At(items, 1), env, st, fuel)
    case Done(c, st1) =>
      if Truthy(c) && c != Nil then Done(Continue(At(items, 2), env), st1)
      else Done(Continue(if At(items, 3) == Undefined then Nil else At(items, 3), env), st1)
    case Raised(err, st1) => Raised(err, st1)
    case OutOfFuel => OutOfFuel
  }

  /** The default case: evaluate every element; a closure continues with its
      body in a new frame binding its parameters inside the frame it was
      made in; a primitive returns its result; anything else cannot be
      applied. */
  function ApplyForm(items: seq<Value>, env: nat, st: State, fuel: nat): (r: Out<Next>)
    requires Valid(st) && env < |st.frames| && |items| > 0
    ensures Follows(st, r)
    ensures r.Done? && r.value.Continue? ==> r.value.env < |r.st.frames|
    decreases fuel, 4, 0
  {
    match EvalSeq(items, env, st, fuel)
    case Done(vals, st1) =>
      var f := vals[0];
      var args := vals[1..];
      if f.Closure? then
        if f.env >= |st1.frames| then Raised(Unmodelled("closure over a missing frame"), st1)
        else match PayloadOf(f.params, st1.cells)
          case Err(err) => Raised(err, st1)
          case Ok(h) =>
            match Elements(h, true)
            case Err(err) => Raised(err, st1)
            case Ok(binds) =>
              match NewEnv(st1.frames, Some(f.env), binds, args, st1.cells)
              case Err(err) => Raised(err, st1)
              case Ok(fe) =>
                ExtendsTrans(st, st1, st1.(frames := fe.0));
                Done(Continue(f.body, fe.1), st1.(frames := fe.0))
      else if f.Native? then
        var r := ApplyNative(f.op, args, st1, fuel);
        FollowsTrans(st, st1, r);
        Returning(r)
      else Raised(TypeError("fn.apply is not a function"), st1)
    case Raised(err, st1) => Raised(err, st1)
    case OutOfFuel => OutOfFuel
  }

  /** The outcome of a primitive as a final value for the loop. */
  function Returning(x: Out<Value>): (r: Out<Next>)
    ensures r.OutOfFuel? <==> x.OutOfFuel?
    ensures !x.OutOfFuel? ==> r.st == x.st && (r.Done? <==> x.Done?)
    ensures x.Done? ==> r.value == Return(x.value)
    ensures x.Raised? ==> r.error == x.error
  {
    match x
    case Done(v, st) => Done(Return(v), st)
    case Raised(err, st) => Raised(err, st)
    case OutOfFuel => OutOfFuel
  }

  /** A primitive applied to evaluated arguments. `not` tests the payload
      for 0 and the argument for nil, and otherwise evaluates the argument
      once more in the root frame; the others are the primitives of the
      core table. */
  function ApplyNative(op: Builtin, args: seq<Value>, st: State, fuel: nat): (r: Out<Value>)
    requires Valid(st)
    ensures Follows(st, r)
    ensures !op.Not? && !op.Swap? && !op.MakeAtom? && !op.Reset? && r.Done? ==> r.st == st
    decreases fuel, 3, 2 * |args| + 1
  {
    if op.Not? then
      var a := At(args, 0);
      match PayloadOf(a, st.cells)
      case Err(err) => Raised(err, st)
      case Ok(h) =>
        if h == HNum(0) then Done(Bool(false), st)
        else if a == Nil then Done(Bool(true), st)
        else match Eval(a, 0, st, fuel)
          case Done(v, st1) => Done(Bool(!Truthy(v)), st1)
          case Raised(err, st1) => Raised(err, st1)
          case OutOfFuel => OutOfFuel
    else Primitive(op, args, st, fuel)
  }

  /** A primitive of the core table. `swap!` applies the primitive it is
      given to the atom's content and the remaining arguments and stores
      the result; the others are pure functions of the arguments and the
      atom cells. */
  function Primitive(op: Builtin, args: seq<Value>, st: State, fuel: nat): (r: Out<Value>)
    requires Valid(st) && !op.Not?
    ensures Follows(st, r)
    ensures !op.Not? && !op.Swap? && !op.MakeAtom? && !op.Reset? && r.Done? ==> r.st == st
    decreases fuel, 3, 2 * |args|
  {
    if op.Swap? then
      var a := At(args, 0);
      var f := At(args, 1);
      if !a.Atom? then Raised(TypeError("swap is not a function"), st)
      else if a.cell >= |st.cells| then Raised(Unmodelled("dangling atom"), st)
      else if !f.Native? then Raised(TypeError("fn.apply is not a function"), st)
      else match ApplyNative(f.op, [st.cells[a.cell]] + Drop(args, 2), st, fuel)
        case Done(v, st1) =>
          ExtendsTrans(st, st1, st1.(cells := st1.cells[a.cell := v]));
          Done(v, st1.(cells := st1.cells[a.cell := v]))
        case Raised(err, st1) => Raised(err, st1)
        case OutOfFuel => OutOfFuel
    else match Core.Apply(op, args, st.cells)
      case Ok(vc) => Done(vc.0, st.(cells := vc.1))
      case Err(err) => Raised(err, st)
  }

  // ------------------------------------------------------------------ REPL

  /** The root frame: every entry of the core table bound to its primitive,
      and `not`. */
  function RootTable(): (m: map<string, Value>)
    ensures forall k | k in m :: m[k].Native?
  {
    map[
      "+" := Native(Add), "-" := Native(Sub), "*" := Native(Mul), "/" := Native(Div),
      "=" := Native(Equal), ">" := Native(Gt), "<" := Native(Lt), ">=" := Native(Ge), "<=" := Native(Le),
      "count" := Native(Count), "list" := Native(MakeList), "list?" := Native(IsList), "empty?" := Native(IsEmpty),
      "prn" := Native(Prn), "pr-str" := Native(PrStr), "str" := Native(ToStr), "println" := Native(Println),
      "read-string" := Native(ReadString),
      "atom" := Native(MakeAtom), "atom?" := Native(IsAtom), "deref" := Native(Deref), "reset!" := Native(Reset),
      "swap!" := Native(Swap),
      "cons" := Native(Cons), "concat" := Native(Concat), "vec" := Native(Vec),
      "not" := Native(Not)
    ]
  }

  /** The interpreter's state before the first line: the root frame alone
      and no atoms. */
  function InitialState(): (st: State)
    ensures Valid(st) && |st.frames| == 1 && st.cells == []
    ensures st.frames[0].outer.None?
  {
    State([Frame(RootTable(), None)], [])
  }

  /** Every primitive name resolves in a frame whose chain reaches the root
      frame without rebinding it. */
  lemma RootLookups(st: State)
    requires st == InitialState()
    ensures Get(st.frames, 0, "cons") == Ok(Native(Cons))
    ensures Get(st.frames, 0, "vec") == Ok(Native(Vec))
    ensures Get(st.frames, 0, "concat") == Ok(Native(Concat))
    ensures Get(st.frames, 0, "list") == Ok(Native(MakeList))
  {
  }

  /** `rep`: read one form, evaluate it in the root frame, and print the
      result readably. A reader error is thrown before anything runs. */
  function Rep(src: string, st: State, fuel: nat): (r: Out<string>)
    requires Valid(st)
    ensures Follows(st, r)
    ensures Reader.ReadStr(src).Err? ==> r == Raised(Reader.ReadStr(src).error, st)
  {
    match Reader.ReadStr(src)
    case Err(err) => Raised(err, st)
    case Ok(form) =>
      match Eval(form, 0, st, fuel)
      case Done(v, st1) =>
        (match Printer.Print(v, true, st1.cells)
         case Ok(s) => Done(s, st1)
         case Err(err) => Raised(err, st1))
      case Raised(err, st1) => Raised(err, st1)
      case OutOfFuel => OutOfFuel
  }

  // ------------------------------------------------------------ properties

  /** The REPL echoes a value that evaluates to itself: the readable print
      of an integer, boolean, nil, string or keyword, read and evaluated,
      prints as the same text, and the state is left alone. */
  lemma RepEcho(v: Value, st: State, fuel: nat)
    requires Valid(st) && fuel >= 1
    requires RoundTrip.Readable(v) && !v.List? && !v.Vector? && !v.Map? && !v.Sym?
    ensures Printer.Print(v, true, st.cells).Ok?
    ensures Rep(Printer.Print(v, true, st.cells).value, st, fuel) == Done(Printer.Print(v, true, st.cells).value, st)
  {
    RoundTrip.ReadPrint(v, st.cells);
    EvalSelf(v, 0, st, fuel);
  }

  /** A value that is not a list, vector, map or symbol evaluates to itself
      without touching the state. */
  lemma EvalSelf(ast: Value, env: nat, st: State, fuel: nat)
    requires Valid(st) && env < |st.frames| && fuel >= 1
    requires !ast.List? && !ast.Vector? && !ast.Map? && !ast.Sym?
    ensures Eval(ast, env, st, fuel) == Done(ast, st)
  {
  }

  /** A symbol evaluates to what `get` finds for its name. */
  lemma EvalSymbol(name: string, env: nat, st: State, fuel: nat)
    requires Valid(st) && env < |st.frames| && fuel >= 1
    ensures Get(st.frames, env, name).Ok? ==> Eval(Sym(name), env, st, fuel) == Done(Get(st.frames, env, name).value, st)
    ensures Get(st.frames, env, name).Err? ==> Eval(Sym(name), env, st, fuel) == Raised(NotFound(name), st)
  {
  }

  /** `quote` returns its argument unevaluated. */
  lemma EvalQuote(x: Value, rest: seq<Value>, env: nat, st: State, fuel: nat)
    requires Valid(st) && env < |st.frames| && fuel >= 1
    ensures Eval(List([Sym("quote"), x] + rest), env, st, fuel) == Done(x, st)
  {
  }

  /** `fn*` makes a closure over the current frame whose body is the
      remaining forms wrapped in `do`. */
  lemma EvalFn(params: Value, body: seq<Value>, env: nat, st: State, fuel: nat)
    requires Valid(st) && env < |st.frames| && fuel >= 2
    ensures Eval(List([Sym("fn*"), params] + body), env, st, fuel) == Done(Closure(params, DoForm(body), env), st)
  {
    var items := [Sym("fn*"), params] + body;
    assert Drop(items, 2) == body;
    var f := Closure(params, DoForm(body), env);
    assert Special(items, env, st, fuel - 1) == Done(Continue(f, env), st);
    assert Eval(f, env, st, fuel - 1) == Done(f, st);
  }

  /** `if` continues with the second element when the condition is truthy
      and not nil, which takes in the integer 0; otherwise with the third,
      or yields nil when there is none. */
  lemma EvalIfBranches(c: Value, t: Value, e: seq<Value>, env: nat, st: State, fuel: nat, cv: Value, st1: State)
    requires Valid(st) && env < |st.frames| && fuel >= 2 && |e| <= 1
    requires Eval(c, env, st, fuel - 1) == Done(cv, st1)
    ensures Valid(st1) && env < |st1.frames|
    ensures Truthy(cv) && cv != Nil ==> Eval(List([Sym("if"), c, t] + e), env, st, fuel) == Eval(t, env, st1, fuel - 1)
    ensures !(Truthy(cv) && cv != Nil) && |e| == 1 && e[0] != Undefined ==>
      Eval(List([Sym("if"), c, t] + e), env, st, fuel) == Eval(e[0], env, st1, fuel - 1)
    ensures !(Truthy(cv) && cv != Nil) && |e| == 0 && fuel >= 3 ==>
      Eval(List([Sym("if"), c, t] + e), env, st, fuel) == Done(Nil, st1)
  {
    var items := [Sym("if"), c, t] + e;
    assert At(items, 1) == c && At(items, 2) == t;
    assert |e| == 1 ==> At(items, 3) == e[0];
    assert |e| == 0 ==> At(items, 3) == Undefined;
    assert Special(items, env, st, fuel - 1) == EvalIf(items, env, st, fuel - 1);
    if Truthy(cv) && cv != Nil {
      assert EvalIf(items, env, st, fuel - 1) == Done(Continue(t, env), st1);
    } else if |e| == 1 && e[0] != Undefined {
      assert EvalIf(items, env, st, fuel - 1) == Done(Continue(e[0], env), st1);
    } else if |e| == 0 && fuel >= 3 {
      assert EvalIf(items, env, st, fuel - 1) == Done(Continue(Nil, env), st1);
      assert Eval(Nil, env, st1, fuel - 1) == Done(Nil, st1);
    }
  }

  /** `def!` binds the value in the current frame and returns it when it is
      truthy; a falsy value is invisible to the lookup that follows, so in
      the root frame the form throws "not found". */
  lemma EvalDefBinds(name: string, x: Value, env: nat, st: State, fuel: nat, v: Value, st1: State)
    requires Valid(st) && env < |st.frames| && fuel >= 1
    requires Eval(x, env, st, fuel - 1) == Done(v, st1)
    ensures Valid(st1) && env < |st1.frames|
    ensures Truthy(v) ==>
      Eval(List([Sym("def!"), Sym(name), x]), env, st, fuel) == Done(v, st1.(frames := Set(st1.frames, env, name, v)))
    ensures !Truthy(v) && st1.frames[env].outer.None? ==>
      Eval(List([Sym("def!"), Sym(name), x]), env, st, fuel) == Raised(NotFound(name), st1.(frames := Set(st1.frames, env, name, v)))
  {
    var items := [Sym("def!"), Sym(name), x];
    assert At(items, 1) == Sym(name) && At(items, 2) == x;
    GetAfterSet(st1.frames, env, name, v);
    assert Special(items, env, st, fuel - 1) == EvalDef(items, env, st, fuel - 1);
    var st2 := st1.(frames := Set(st1.frames, env, name, v));
    assert KeyOf(Sym(name), st1.cells) == Ok(name);
    if Truthy(v) {
      assert EvalDef(items, env, st, fuel - 1) == Done(Return(v), st2);
    } else if st1.frames[env].outer.None? {
      assert EvalDef(items, env, st, fuel - 1) == Raised(NotFound(name), st2);
    }
  }

  /** The names the `switch` of `EVAL` treats as special forms. */
  const SpecialForms: set<string> := {"def!", "let*", "do", "if", "fn*", "quote", "quasiquoteexpand", "quasiquote"}

  /** A list headed by a symbol that names no special form and resolves to a
      primitive is an application of that primitive to the evaluated
      arguments. */
  lemma EvalPrimitiveCall(name: string, op: Builtin, forms: seq<Value>, vals: seq<Value>, env: nat, st: State, fuel: nat)
    requires Valid(st) && env < |st.frames| && fuel >= 2
    requires name !in SpecialForms
    requires Get(st.frames, env, name) == Ok(Native(op))
    requires EvalSeq(forms, env, st, fuel - 1) == Done(vals, st)
    ensures Eval(List([Sym(name)] + forms), env, st, fuel) == ApplyNative(op, vals, st, fuel - 1)
  {
    var items := [Sym(name)] + forms;
    EvalSymbol(name, env, st, fuel - 1);
    EvalSeqCons(Sym(name), forms, Native(op), vals, env, st, fuel - 1);
    SpecialDefault(name, items, env, st, fuel - 1);
    ApplyFormPrimitive(items, op, vals, env, st, fuel - 1, st);
    EvalListUnfold(List(items), env, st, fuel);
    ResumeReturning(ApplyNative(op, vals, st, fuel - 1), fuel - 1);
  }

  /** A sequence whose first element and rest evaluate without touching the
      state evaluates to the first value followed by the rest's values. */
  lemma EvalSeqCons(a: Value, rest: seq<Value>, x: Value, xs: seq<Value>, env: nat, st: State, fuel: nat)
    requires Valid(st) && env < |st.frames|
    requires Eval(a, env, st, fuel) == Done(x, st)
    requires EvalSeq(rest, env, st, fuel) == Done(xs, st)
    ensures EvalSeq([a] + rest, env, st, fuel) == Done([x] + xs, st)
  {
    assert ([a] + rest)[0] == a;
    assert ([a] + rest)[1..] == rest;
  }

  /** A list headed by a symbol that names no special form goes to the
      default case of the `switch`. */
  lemma SpecialDefault(name: string, items: seq<Value>, env: nat, st: State, fuel: nat)
    requires Valid(st) && env < |st.frames| && |items| > 0
    requires items[0] == Sym(name) && name !in SpecialForms
    ensures Special(items, env, st, fuel) == ApplyForm(items, env, st, fuel)
  {
    assert PayloadOf(items[0], st.cells) == Ok(HStr(name));
  }

  /** The default case applies a primitive in first position to the values
      of the other elements. */
  lemma ApplyFormPrimitive(items: seq<Value>, op: Builtin, vals: seq<Value>, env: nat, st: State, fuel: nat, st1: State)
    requires Valid(st) && env < |st.frames| && |items| > 0
    requires EvalSeq(items, env, st, fuel) == Done([Native(op)] + vals, st1)
    ensures Valid(st1)
    ensures ApplyForm(items, env, st, fuel) == Returning(ApplyNative(op, vals, st1, fuel))
  {
    assert ([Native(op)] + vals)[0] == Native(op);
    assert ([Native(op)] + vals)[1..] == vals;
  }

  /** `env` is a frame of a valid state, and `cons` and `vec` are bound to
      their primitives as seen from it. */
  predicate Primitives(st: State, env: nat) {
    && Valid(st) && env < |st.frames|
    && Get(st.frames, env, "cons") == Ok(Native(Cons)) && Get(st.frames, env, "vec") == Ok(Native(Vec))
  }

  /** The first elements that make a list an unquote or a splice. */
  predicate IsMarker(x: Value) {
    || ((x.Sym? || x.Kw?) && (x.name == "unquote" || x.name == "splice-unquote"))
    || (x.Str? && (x.str == "unquote" || x.str == "splice-unquote"))
  }

  /** Literals, symbols, and lists and vectors of them, with no list headed
      by an unquote or splice marker. */
  predicate QuotedData(v: Value)
    decreases v, 1
  {
    match v
    case List(xs) => (|xs| > 0 ==> !IsMarker(xs[0])) && AllQuoted(xs)
    case Vector(xs) => AllQuoted(xs)
    case Int(_) => true
    case Bool(_) => true
    case Nil => true
    case Sym(_) => true
    case Kw(_) => true
    case Str(_) => true
    case _ => false
  }

  /** Every element of `xs` is plain data. */
  predicate AllQuoted(xs: seq<Value>)
    decreases xs, 0
  {
    |xs| > 0 ==> QuotedData(xs[0]) && AllQuoted(xs[1..])
  }

  /** Fuel that suffices to evaluate the expansion of `v`. */
  function Need(v: Value): (n: nat)
    ensures n >= 1
    decreases v
  {
    match v
    case List(xs) => NeedChain(xs)
    case Vector(xs) => 1 + Max(1, NeedChain(xs))
    case _ => 1
  }

  /** Fuel that suffices to evaluate the `cons` chain built from `xs`. */
  function NeedChain(xs: seq<Value>): (n: nat)
    ensures n >= 1
    decreases xs
  {
    if |xs| == 0 then 1 else 1 + Max(1, Max(Need(xs[0]), NeedChain(xs[1..])))
  }

  /** The fuel of a chain covers its first element and the chain after it. */
  lemma NeedChainCons(xs: seq<Value>)
    requires |xs| > 0
    ensures NeedChain(xs) >= 2
    ensures NeedChain(xs) >= 1 + Need(xs[0]) && NeedChain(xs) >= 1 + NeedChain(xs[1..])
  {
  }

  function Max(a: nat, b: nat): nat {
    if a < b then b else a
  }

  /** `ast` evaluates in frame `env` to `v` and leaves the state as it was. */
  predicate Yields(ast: Value, env: nat, st: State, fuel: nat, v: Value)
    requires Valid(st) && env < |st.frames|
  {
    Eval(ast, env, st, fuel) == Done(v, st)
  }

  /** The quasiquote expansion of `v` evaluates back to `v`. */
  predicate ExpandsBack(v: Value, env: nat, st: State, fuel: nat)
    requires Valid(st) && env < |st.frames|
  {
    Quasiquote.Expand(v, st.cells).Ok? && Yields(Quasiquote.Expand(v, st.cells).value, env, st, fuel, v)
  }

  /** The `cons` chain the expander builds from `xs` evaluates back to the
      list of `xs`. */
  predicate ChainsBack(xs: seq<Value>, env: nat, st: State, fuel: nat)
    requires Valid(st) && env < |st.frames|
  {
    var f := Quasiquote.FoldRight(xs, List([]), st.cells);
    f.Ok? && Yields(f.value, env, st, fuel, List(xs))
  }

  lemma ConsOnto(x: Value, tail: seq<Value>, st: State, fuel: nat)
    requires Valid(st)
    ensures ApplyNative(Cons, [x, List(tail)], st, fuel) == Done(List([x] + tail), st)
  {
    assert Core.Cons([x, List(tail)], st.cells) == Ok(List([x] + tail));
  }

  lemma VecOf(xs: seq<Value>, st: State, fuel: nat)
    requires Valid(st)
    ensures ApplyNative(Vec, [List(xs)], st, fuel) == Done(Vector(xs), st)
  {
    assert Core.Vec([List(xs)], st.cells) == Ok(Vector(xs));
  }

  /** Evaluating a one-element sequence whose element evaluates without
      touching the state. */
  lemma EvalSeqOne(a: Value, x: Value, env: nat, st: State, fuel: nat)
    requires Valid(st) && env < |st.frames|
    requires Eval(a, env, st, fuel) == Done(x, st)
    ensures EvalSeq([a], env, st, fuel) == Done([x], st)
  {
    assert [a][0] == a;
    assert [a][1..] == [];
    assert EvalSeq([], env, st, fuel) == Done([], st);
    assert [x] + [] == [x];
  }

  /** Evaluating a two-element sequence whose elements evaluate without
      touching the state. */
  lemma EvalSeqTwo(a: Value, b: Value, x: Value, y: Value, env: nat, st: State, fuel: nat)
    requires Valid(st) && env < |st.frames|
    requires Eval(a, env, st, fuel) == Done(x, st)
    requires Eval(b, env, st, fuel) == Done(y, st)
    ensures EvalSeq([a, b], env, st, fuel) == Done([x, y], st)
  {
    EvalSeqOne(b, y, env, st, fuel);
    assert [a, b][0] == a;
    assert [a, b][1..] == [b];
    assert [x] + [y] == [x, y];
  }

  /** `(cons q rest)` evaluates to the list of `q`'s value followed by the
      items of `rest`'s value. */
  lemma EvalCons(q: Value, rest: Value, x: Value, tail: seq<Value>, env: nat, st: State, fuel: nat)
    requires Primitives(st, env) && fuel >= 2
    requires Yields(q, env, st, fuel - 1, x) && Yields(rest, env, st, fuel - 1, List(tail))
    ensures Yields(List([Sym("cons"), q, rest]), env, st, fuel, List([x] + tail))
  {
    EvalSeqTwo(q, rest, x, List(tail), env, st, fuel - 1);
    ConsOnto(x, tail, st, fuel - 1);
    EvalPrimitiveCall("cons", Cons, [q, rest], [x, List(tail)], env, st, fuel);
    assert [Sym("cons")] + [q, rest] == [Sym("cons"), q, rest];
  }

  /** `(vec c)` evaluates to the vector of the items of `c`'s value. */
  lemma EvalVec(c: Value, xs: seq<Value>, env: nat, st: State, fuel: nat)
    requires Primitives(st, env) && fuel >= 2
    requires Yields(c, env, st, fuel - 1, List(xs))
    ensures Yields(List([Sym("vec"), c]), env, st, fuel, Vector(xs))
  {
    EvalSeqOne(c, List(xs), env, st, fuel - 1);
    VecOf(xs, st, fuel - 1);
    EvalPrimitiveCall("vec", Vec, [c], [List(xs)], env, st, fuel);
    assert [Sym("vec")] + [c] == [Sym("vec"), c];
  }

  /** Evaluating the quasiquote expansion of plain data gives the data back,
      with the state untouched, given enough fuel and a frame that sees the
      primitives `cons` and `vec`. */
  lemma {:induction false} QuasiquoteData(v: Value, env: nat, st: State, fuel: nat)
    requires Primitives(st, env)
    requires QuotedData(v) && fuel >= Need(v)
    ensures ExpandsBack(v, env, st, fuel)
    decreases v, 1
  {
    match v
    case List(xs) =>
      QuasiquoteChain(xs, env, st, fuel);
      ExpandListBack(xs, env, st, fuel);
    case Vector(xs) =>
      QuasiquoteChain(xs, env, st, fuel - 1);
      ExpandVectorBack(xs, env, st, fuel);
    case _ =>
      ExpandAtomBack(v, env, st, fuel);
  }

  /** A list of plain data expands to its `cons` chain. */
  lemma ExpandListBack(xs: seq<Value>, env: nat, st: State, fuel: nat)
    requires Valid(st) && env < |st.frames| && QuotedData(List(xs))
    requires ChainsBack(xs, env, st, fuel)
    ensures ExpandsBack(List(xs), env, st, fuel)
  {
    NoSplice(List(xs), st.cells);
    Quasiquote.ExpandSequence(List(xs), st.cells);
  }

  /** A vector of plain data expands to `vec` of its `cons` chain. */
  lemma ExpandVectorBack(xs: seq<Value>, env: nat, st: State, fuel: nat)
    requires Primitives(st, env) && fuel >= 2 && QuotedData(Vector(xs))
    requires ChainsBack(xs, env, st, fuel - 1)
    ensures ExpandsBack(Vector(xs), env, st, fuel)
  {
    NoSplice(Vector(xs), st.cells);
    Quasiquote.ExpandSequence(Vector(xs), st.cells);
    EvalVec(Quasiquote.FoldRight(xs, List([]), st.cells).value, xs, env, st, fuel);
  }

  /** A symbol expands to its quotation and any other plain datum to
      itself. */
  lemma ExpandAtomBack(v: Value, env: nat, st: State, fuel: nat)
    requires Valid(st) && env < |st.frames| && fuel >= 1
    requires QuotedData(v) && !v.List? && !v.Vector?
    ensures ExpandsBack(v, env, st, fuel)
  {
    if v.Sym? {
      EvalQuote(v, [], env, st, fuel);
      assert [Sym("quote"), v] + [] == [Sym("quote"), v];
    } else {
      EvalSelf(v, env, st, fuel);
    }
  }

  /** Plain data is never a splice. */
  lemma NoSplice(x: Value, cells: seq<Value>)
    requires QuotedData(x)
    ensures Quasiquote.HeadIs(x, "splice-unquote", cells) == Ok(false)
    ensures Quasiquote.HeadIs(x, "unquote", cells) == Ok(false)
  {
    if x.List? && |x.items| > 0 {
      var y := x.items[0];
      assert QuotedData(y);
    }
  }

  /** The `cons` chain built from a sequence of plain data evaluates to the
      list of that data. */
  lemma {:induction false} QuasiquoteChain(xs: seq<Value>, env: nat, st: State, fuel: nat)
    requires Primitives(st, env)
    requires AllQuoted(xs) && fuel >= NeedChain(xs)
    ensures ChainsBack(xs, env, st, fuel)
    decreases xs, 0
  {
    if |xs| > 0 {
      NeedChainCons(xs);
      QuasiquoteChain(xs[1..], env, st, fuel - 1);
      QuasiquoteData(xs[0], env, st, fuel - 1);
      ChainStep(xs, env, st, fuel);
    }
  }

  /** One link of the chain: an element of plain data is consed, after its
      expansion, onto the expansion of the elements after it. */
  lemma ChainStep(xs: seq<Value>, env: nat, st: State, fuel: nat)
    requires Primitives(st, env) && fuel >= 2 && |xs| > 0 && QuotedData(xs[0])
    requires ExpandsBack(xs[0], env, st, fuel - 1) && ChainsBack(xs[1..], env, st, fuel - 1)
    ensures ChainsBack(xs, env, st, fuel)
  {
    NoSplice(xs[0], st.cells);
    Quasiquote.FoldRightCons(xs, List([]), st.cells);
    EvalCons(Quasiquote.Expand(xs[0], st.cells).value, Quasiquote.FoldRight(xs[1..], List([]), st.cells).value, xs[0], xs[1..], env, st, fuel);
    assert [xs[0]] + xs[1..] == xs;
  }

  /** `env` also sees `concat`, so splices in a template can be evaluated. */
  predicate Splices(st: State, env: nat) {
    Primitives(st, env) && Get(st.frames, env, "concat") == Ok(Native(Concat))
  }

  /** The chain the expander builds from the template elements `xs`
      evaluates to the list of `ys` and leaves the state as it was. */
  predicate ChainsTo(xs: seq<Value>, env: nat, st: State, fuel: nat, ys: seq<Value>)
    requires Valid(st) && env < |st.frames|
  {
    var f := Quasiquote.FoldRight(xs, List([]), st.cells);
    f.Ok? && Yields(f.value, env, st, fuel, List(ys))
  }

  /** The chain of no elements is the empty list. */
  lemma ChainsToEnd(env: nat, st: State, fuel: nat)
    requires Valid(st) && env < |st.frames| && fuel >= 1
    ensures ChainsTo([], env, st, fuel, [])
  {
  }

  /** A plain datum in a template is consed on as it is. */
  lemma DataLink(x: Value, rest: seq<Value>, zs: seq<Value>, env: nat, st: State, fuel: nat)
    requires Primitives(st, env) && fuel >= 2 && QuotedData(x)
    requires ExpandsBack(x, env, st, fuel - 1) && ChainsTo(rest, env, st, fuel - 1, zs)
    ensures ChainsTo([x] + rest, env, st, fuel, [x] + zs)
  {
    var xs := [x] + rest;
    assert xs[0] == x && xs[1..] == rest;
    NoSplice(x, st.cells);
    Quasiquote.FoldRightCons(xs, List([]), st.cells);
    EvalCons(Quasiquote.Expand(x, st.cells).value, Quasiquote.FoldRight(rest, List([]), st.cells).value, x, zs, env, st, fuel);
  }

  /** An unquoted element `~e` of a template contributes the value of `e`. */
  lemma UnquoteLink(e: Value, rest: seq<Value>, v: Value, zs: seq<Value>, env: nat, st: State, fuel: nat)
    requires Primitives(st, env) && fuel >= 2
    requires Yields(e, env, st, fuel - 1, v) && ChainsTo(rest, env, st, fuel - 1, zs)
    ensures ChainsTo([List([Sym("unquote"), e])] + rest, env, st, fuel, [v] + zs)
  {
    var x := List([Sym("unquote"), e]);
    var xs := [x] + rest;
    assert xs[0] == x && xs[1..] == rest;
    assert Quasiquote.HeadIs(x, "splice-unquote", st.cells) == Ok(false);
    Quasiquote.ExpandUnquote(e, [], st.cells);
    assert [Sym("unquote"), e] + [] == [Sym("unquote"), e];
    Quasiquote.FoldRightCons(xs, List([]), st.cells);
    EvalCons(e, Quasiquote.FoldRight(rest, List([]), st.cells).value, v, zs, env, st, fuel);
  }

  /** `concat` of two lists gives the first list's items followed by the
      second's. */
  lemma ConcatTwo(ys: seq<Value>, zs: seq<Value>, st: State, fuel: nat)
    requires Valid(st)
    ensures ApplyNative(Concat, [List(ys), List(zs)], st, fuel) == Done(List(ys + zs), st)
  {
    var args := [List(ys), List(zs)];
    assert args[1..] == [List(zs)] && [List(zs)][1..] == [];
    assert Core.Concat([List(zs)], st.cells) == Ok(zs + []);
    assert zs + [] == zs;
    assert Core.Concat(args, st.cells) == Ok(ys + zs);
  }

  /** A spliced element `~@e` of a template contributes the items of the
      list `e` evaluates to, in place. */
  lemma SpliceLink(e: Value, rest: seq<Value>, ys: seq<Value>, zs: seq<Value>, env: nat, st: State, fuel: nat)
    requires Splices(st, env) && fuel >= 2
    requires Yields(e, env, st, fuel - 1, List(ys)) && ChainsTo(rest, env, st, fuel - 1, zs)
    ensures ChainsTo([List([Sym("splice-unquote"), e])] + rest, env, st, fuel, ys + zs)
  {
    var tail := Quasiquote.FoldRight(rest, List([]), st.cells).value;
    SpliceFold(e, rest, st.cells);
    ConcatCall(e, tail, ys, zs, env, st, fuel);
  }

  /** The expander turns a leading `~@e` into `concat` of `e` and the chain
      of the elements after it. */
  lemma SpliceFold(e: Value, rest: seq<Value>, cells: seq<Value>)
    requires Quasiquote.FoldRight(rest, List([]), cells).Ok?
    ensures Quasiquote.FoldRight([List([Sym("splice-unquote"), e])] + rest, List([]), cells)
      == Ok(List([Sym("concat"), e, Quasiquote.FoldRight(rest, List([]), cells).value]))
  {
    var x := List([Sym("splice-unquote"), e]);
    var xs := [x] + rest;
    assert xs[0] == x && xs[1..] == rest;
    assert Quasiquote.HeadIs(x, "splice-unquote", cells) == Ok(true);
  }

  /** `(concat e tail)` where `e` and `tail` give lists gives their items
      joined. */
  lemma ConcatCall(e: Value, tail: Value, ys: seq<Value>, zs: seq<Value>, env: nat, st: State, fuel: nat)
    requires Splices(st, env) && fuel >= 2
    requires Yields(e, env, st, fuel - 1, List(ys)) && Yields(tail, env, st, fuel - 1, List(zs))
    ensures Yields(List([Sym("concat"), e, tail]), env, st, fuel, List(ys + zs))
  {
    EvalSeqTwo(e, tail, List(ys), List(zs), env, st, fuel - 1);
    ConcatTwo(ys, zs, st, fuel - 1);
    EvalPrimitiveCall("concat", Concat, [e, tail], [List(ys), List(zs)], env, st, fuel);
    assert [Sym("concat")] + [e, tail] == [Sym("concat"), e, tail];
  }

  /** `(quasiquote t)` for a list template evaluates the chain built from
      its elements in the same frame. */
  lemma EvalQuasiquoteList(t: seq<Value>, ys: seq<Value>, env: nat, st: State, fuel: nat)
    requires Valid(st) && env < |st.frames| && fuel >= 2
    requires Quasiquote.HeadIs(List(t), "unquote", st.cells) == Ok(false)
    requires ChainsTo(t, env, st, fuel - 1, ys)
    ensures Eval(List([Sym("quasiquote"), List(t)]), env, st, fuel) == Done(List(ys), st)
  {
    var items := [Sym("quasiquote"), List(t)];
    Quasiquote.ExpandSequence(List(t), st.cells);
    var chain := Quasiquote.FoldRight(t, List([]), st.cells).value;
    assert PayloadOf(items[0], st.cells) == Ok(HStr("quasiquote"));
    assert Special(items, env, st, fuel - 1) == Done(Continue(chain, env), st);
    EvalListUnfold(List(items), env, st, fuel);
  }

  /** The chain of a template whose only element is a number or string is
      the list of that element. */
  lemma LastDatumChain(x: Value, env: nat, st: State, fuel: nat)
    requires Primitives(st, env) && fuel >= 2
    requires x.Int? || x.Str? || x.Kw? || x.Bool? || x == Nil
    ensures ChainsTo([x], env, st, fuel, [x])
  {
    ChainsToEnd(env, st, fuel - 1);
    ExpandAtomBack(x, env, st, fuel - 1);
    assert [x] + [] == [x];
    DataLink(x, [], [], env, st, fuel);
  }

  /** `(list 2 3)` in a frame where `list` is the primitive gives (2 3). */
  lemma ListCall(env: nat, st: State, fuel: nat)
    requires Valid(st) && env < |st.frames| && fuel >= 2
    requires Get(st.frames, env, "list") == Ok(Native(MakeList))
    ensures Yields(List([Sym("list"), Int(2), Int(3)]), env, st, fuel, List([Int(2), Int(3)]))
  {
    EvalSelf(Int(2), env, st, fuel - 1);
    EvalSelf(Int(3), env, st, fuel - 1);
    EvalSeqTwo(Int(2), Int(3), Int(2), Int(3), env, st, fuel - 1);
    assert [Sym("list")] + [Int(2), Int(3)] == [Sym("list"), Int(2), Int(3)];
    EvalPrimitiveCall("list", MakeList, [Int(2), Int(3)], [Int(2), Int(3)], env, st, fuel);
  }

  /** `(list 2 3)` in the root frame of a fresh interpreter gives (2 3). */
  lemma ListExample(fuel: nat)
    requires fuel >= 2
    ensures Yields(List([Sym("list"), Int(2), Int(3)]), 0, InitialState(), fuel, List([Int(2), Int(3)]))
  {
    RootLookups(InitialState());
    ListCall(0, InitialState(), fuel);
  }

  /** The tail `(~@(list 2 3) 4)` of the example template gives (2 3 4) in
      a frame where the primitives it calls are bound. */
  lemma SpliceTail(env: nat, st: State, fuel: nat)
    requires Splices(st, env) && fuel >= 3
    requires Get(st.frames, env, "list") == Ok(Native(MakeList))
    ensures ChainsTo([List([Sym("splice-unquote"), List([Sym("list"), Int(2), Int(3)])]), Int(4)], env, st, fuel, [Int(2), Int(3), Int(4)])
  {
    LastDatumChain(Int(4), env, st, fuel - 1);
    ListCall(env, st, fuel - 1);
    var call := List([Sym("list"), Int(2), Int(3)]);
    assert [List([Sym("splice-unquote"), call])] + [Int(4)] == [List([Sym("splice-unquote"), call]), Int(4)];
    assert [Int(2), Int(3)] + [Int(4)] == [Int(2), Int(3), Int(4)];
    SpliceLink(call, [Int(4)], [Int(2), Int(3)], [Int(4)], env, st, fuel);
  }

  /** The chain of the template `(1 ~@(list 2 3) 4)` gives the list
      (1 2 3 4) in a frame where the primitives it calls are bound. */
  lemma SpliceChain(env: nat, st: State, fuel: nat)
    requires Splices(st, env) && fuel >= 4
    requires Get(st.frames, env, "list") == Ok(Native(MakeList))
    ensures ChainsTo([Int(1), List([Sym("splice-unquote"), List([Sym("list"), Int(2), Int(3)])]), Int(4)], env, st, fuel, [Int(1), Int(2), Int(3), Int(4)])
  {
    SpliceTail(env, st, fuel - 1);
    ExpandAtomBack(Int(1), env, st, fuel - 1);
    DataLinkPair(Int(1), List([Sym("splice-unquote"), List([Sym("list"), Int(2), Int(3)])]), Int(4), [Int(2), Int(3), Int(4)], env, st, fuel);
    assert [Int(1)] + [Int(2), Int(3), Int(4)] == [Int(1), Int(2), Int(3), Int(4)];
  }

  /** `DataLink` for a datum in front of a two-element template. */
  lemma DataLinkPair(x: Value, y: Value, z: Value, zs: seq<Value>, env: nat, st: State, fuel: nat)
    requires Primitives(st, env) && fuel >= 2 && QuotedData(x)
    requires ExpandsBack(x, env, st, fuel - 1) && ChainsTo([y, z], env, st, fuel - 1, zs)
    ensures ChainsTo([x, y, z], env, st, fuel, [x] + zs)
  {
    DataLink(x, [y, z], zs, env, st, fuel);
    assert [x] + [y, z] == [x, y, z];
  }

  /** The chain of the template `(1 ~@(list 2 3) 4)` in the root frame of a
      fresh interpreter gives the list (1 2 3 4). */
  lemma SpliceExampleChain(fuel: nat)
    requires fuel >= 4
    ensures var st := InitialState();
      ChainsTo([Int(1), List([Sym("splice-unquote"), List([Sym("list"), Int(2), Int(3)])]), Int(4)], 0, st, fuel, [Int(1), Int(2), Int(3), Int(4)])
  {
    RootLookups(InitialState());
    SpliceChain(0, InitialState(), fuel);
  }

  /** `` `(1 ~@(list 2 3) 4) `` in the root frame of a fresh interpreter
      evaluates to (1 2 3 4) and changes nothing. */
  lemma SpliceExample(fuel: nat)
    requires fuel >= 5
    ensures var t := [Int(1), List([Sym("splice-unquote"), List([Sym("list"), Int(2), Int(3)])]), Int(4)];
      Eval(List([Sym("quasiquote"), List(t)]), 0, InitialState(), fuel) == Done(List([Int(1), Int(2), Int(3), Int(4)]), InitialState())
  {
    var t := [Int(1), List([Sym("splice-unquote"), List([Sym("list"), Int(2), Int(3)])]), Int(4)];
    SpliceExampleChain(fuel - 1);
    EvalQuasiquoteList(t, [Int(1), Int(2), Int(3), Int(4)], 0, InitialState(), fuel);
  }

  /** Applying a closure whose parameter form is a list continues with its
      body in a new frame at the end of the store. The frame's outer link is
      the closure's own frame, and it binds the parameters' keys to the
      arguments in order, with surplus arguments ignored and missing ones
      undefined. */
  lemma ApplyClosure(items: seq<Value>, env: nat, st: State, fuel: nat, ps: seq<Value>, body: Value, ce: nat, args: seq<Value>, st1: State)
    requires Valid(st) && env < |st.frames| && |items| > 0
    requires EvalSeq(items, env, st, fuel) == Done([Closure(List(ps), body, ce)] + args, st1)
    requires ce < |st1.frames| && KeysOf(ps, st1.cells).Ok?
    ensures ApplyForm(items, env, st, fuel) ==
      Done(Continue(body, |st1.frames|), st1.(frames := st1.frames + [Frame(BindAll(KeysOf(ps, st1.cells).value, args), Some(ce))]))
  {
    var vals := [Closure(List(ps), body, ce)] + args;
    assert vals[1..] == args;
    var r := NewEnv(st1.frames, Some(ce), ps, args, st1.cells).value;
    assert r.0 == st1.frames + [Frame(BindAll(KeysOf(ps, st1.cells).value, args), Some(ce))];
  }

  /** `let*` binds every symbol at an even position of its binding list in
      a new frame whose outer link is the current frame, and the body runs
      in that frame. */
  lemma LetBindsInNewFrame(items: seq<Value>, xs: seq<Value>, env: nat, st: State, fuel: nat)
    requires Valid(st) && env < |st.frames|
    requires At(items, 1) == List(xs) || At(items, 1) == Vector(xs)
    requires EvalLet(items, env, st, fuel).Done?
    ensures var r := EvalLet(items, env, st, fuel);
      && |st.frames| < |r.st.frames|
      && r.value == Continue(DoForm(Drop(items, 2)), |st.frames|)
      && r.st.frames[|st.frames|].outer == Some(env)
      && forall j | 0 <= j < |xs| && j % 2 == 0 && xs[j].Sym? :: xs[j].name in r.st.frames[|st.frames|].data
  {
    var st1 := st.(frames := Push(st.frames, Frame(map[], Some(env))));
    assert EvalLet(items, env, st, fuel) == (
      match EvalLetBindings(xs, 0, |st.frames|, st1, fuel)
      case Done(_, st2) => Done(Continue(DoForm(Drop(items, 2)), |st.frames|), st2)
      case Raised(err, st2) => Raised(err, st2)
      case OutOfFuel => OutOfFuel);
    var r := EvalLetBindings(xs, 0, |st.frames|, st1, fuel);
    assert Kept(st1, r.st, |st.frames|);
  }

  /** One turn of the `let*` loop: the value form is evaluated in the new
      frame `e` in the state the earlier pairs left, its value is bound under
      the key of the name form, and the remaining pairs run in the state that
      holds that binding, so a later value form sees the earlier names. */
  lemma EvalLetBindingsStep(xs: seq<Value>, i: nat, e: nat, st: State, fuel: nat, v: Value, st1: State, k: string)
    requires Valid(st) && e < |st.frames| && i < |xs|
    requires Eval(At(xs, i + 1), e, st, fuel) == Done(v, st1)
    requires KeyOf(xs[i], st1.cells) == Ok(k)
    ensures Valid(st1) && e < |st1.frames|
    ensures var st2 := st1.(frames := Set(st1.frames, e, k, v));
      && st2.frames[e].data[k] == v
      && (Truthy(v) ==> Get(st2.frames, e, k) == Ok(v))
      && EvalLetBindings(xs, i, e, st, fuel) == EvalLetBindings(xs, i + 2, e, st2, fuel)
  {
    GetAfterSet(st1.frames, e, k, v);
  }

  /** `+` on two integers gives their sum and leaves the state alone. */
  lemma AddInts(n: int, k: int, st: State, fuel: nat)
    requires Valid(st)
    ensures ApplyNative(Add, [Int(n), Int(k)], st, fuel) == Done(Int(n + k), st)
  {
    var args := [Int(n), Int(k)];
    Core.ArithOnInts(Add, args, st.cells);
    assert Core.Ints(args) == [n, k];
    assert [n, k][..1] == [n];
    assert [n][..0] == [];
    assert Core.Sum([n]) == n;
    assert Core.Sum([n, k]) == n + k;
  }

  /** The store of a fresh interpreter after `let*` pushed its frame and
      bound `bound` there. */
  function LetStore(bound: map<string, Value>): Store {
    [Frame(RootTable(), None), Frame(bound, Some(0))]
  }

  /** The `let*` frame is valid, and a name it does not bind is looked up
      in the root frame. */
  lemma LetStoreLookup(bound: map<string, Value>, name: string)
    requires name !in bound && name in RootTable()
    ensures WellFormed(LetStore(bound))
    ensures Get(LetStore(bound), 1, name) == Ok(RootTable()[name])
  {
    var store := LetStore(bound);
    assert PointsBack(store, 0) && PointsBack(store, 1);
    assert Truthy(RootTable()[name]);
  }

  /** The arguments of `(+ a 1)` in the `let*` frame that holds `a` = 1. */
  lemma LetExampleArgs(fuel: nat)
    requires fuel >= 1
    ensures var st := State(LetStore(map["a" := Int(1)]), []);
      Valid(st) && EvalSeq([Sym("a"), Int(1)], 1, st, fuel) == Done([Int(1), Int(1)], st)
  {
    var st := State(LetStore(map["a" := Int(1)]), []);
    assert PointsBack(st.frames, 0) && PointsBack(st.frames, 1);
    assert Holds(st.frames, 1, "a");
    EvalSymbol("a", 1, st, fuel);
    EvalSelf(Int(1), 1, st, fuel);
    EvalSeqTwo(Sym("a"), Int(1), Int(1), Int(1), 1, st, fuel);
  }

  /** `(+ a 1)` where `+` is the primitive and the arguments give 1 and 1
      gives 2. */
  lemma SumCall(env: nat, st: State, fuel: nat)
    requires Valid(st) && env < |st.frames| && fuel >= 2
    requires Get(st.frames, env, "+") == Ok(Native(Add))
    requires EvalSeq([Sym("a"), Int(1)], env, st, fuel - 1) == Done([Int(1), Int(1)], st)
    ensures Eval(List([Sym("+"), Sym("a"), Int(1)]), env, st, fuel) == Done(Int(2), st)
  {
    AddInts(1, 1, st, fuel - 1);
    EvalPrimitiveCall("+", Add, [Sym("a"), Int(1)], [Int(1), Int(1)], env, st, fuel);
    assert [Sym("+")] + [Sym("a"), Int(1)] == [Sym("+"), Sym("a"), Int(1)];
  }

  /** `(+ a 1)` in the `let*` frame that holds `a` = 1 gives 2. */
  lemma LetExampleSum(fuel: nat)
    requires fuel >= 2
    ensures var st := State(LetStore(map["a" := Int(1)]), []);
      Valid(st) && Eval(List([Sym("+"), Sym("a"), Int(1)]), 1, st, fuel) == Done(Int(2), st)
  {
    var st := State(LetStore(map["a" := Int(1)]), []);
    LetStoreLookup(map["a" := Int(1)], "+");
    LetExampleArgs(fuel - 1);
    SumCall(1, st, fuel);
  }

  /** The binding loop of `(let* (a 1 b (+ a 1)) b)` binds `a` to 1 and
      then `b` to 2, reading the `a` it has just bound. */
  lemma LetExampleBindings(fuel: nat)
    requires fuel >= 2
    ensures var xs := [Sym("a"), Int(1), Sym("b"), List([Sym("+"), Sym("a"), Int(1)])];
      var st := State(LetStore(map[]), []);
      Valid(st) && EvalLetBindings(xs, 0, 1, st, fuel) == Done((), State(LetStore(map["a" := Int(1), "b" := Int(2)]), []))
  {
    var xs := [Sym("a"), Int(1), Sym("b"), List([Sym("+"), Sym("a"), Int(1)])];
    var st := State(LetStore(map[]), []);
    assert Valid(st) by {
      assert PointsBack(st.frames, 0) && PointsBack(st.frames, 1);
    }
    EvalSelf(Int(1), 1, st, fuel);
    EvalLetBindingsStep(xs, 0, 1, st, fuel, Int(1), st, "a");
    var st2 := State(LetStore(map["a" := Int(1)]), []);
    assert Set(st.frames, 1, "a", Int(1)) == st2.frames;
    LetExampleSum(fuel);
    EvalLetBindingsStep(xs, 2, 1, st2, fuel, Int(2), st2, "b");
    var st3 := State(LetStore(map["a" := Int(1), "b" := Int(2)]), []);
    assert Set(st2.frames, 1, "b", Int(2)) == st3.frames;
  }

  /** `(let* (a 1 b (+ a 1)) b)` in the root frame of a fresh interpreter
      gives 2: each value form is evaluated after the pairs before it are
      bound, and the body runs in the new frame. */
  lemma LetExample(fuel: nat)
    requires fuel >= 3
    ensures var form := List([Sym("let*"), List([Sym("a"), Int(1), Sym("b"), List([Sym("+"), Sym("a"), Int(1)])]), Sym("b")]);
      Eval(form, 0, InitialState(), fuel) == Done(Int(2), State(LetStore(map["a" := Int(1), "b" := Int(2)]), []))
  {
    var items := [Sym("let*"), List([Sym("a"), Int(1), Sym("b"), List([Sym("+"), Sym("a"), Int(1)])]), Sym("b")];
    var st0 := InitialState();
    var st3 := State(LetStore(map["a" := Int(1), "b" := Int(2)]), []);
    LetExampleLet(fuel - 1);
    assert PayloadOf(items[0], st0.cells) == Ok(HStr("let*"));
    assert Special(items, 0, st0, fuel - 1) == Done(Continue(DoForm([Sym("b")]), 1), st3);
    EvalListUnfold(List(items), 0, st0, fuel);
    LetExampleBody(fuel - 1);
  }

  /** `handleLet` for the example: the new frame is frame 1, and the body
      `(do b)` runs there once both names are bound. */
  lemma LetExampleLet(fuel: nat)
    requires fuel >= 2
    ensures var items := [Sym("let*"), List([Sym("a"), Int(1), Sym("b"), List([Sym("+"), Sym("a"), Int(1)])]), Sym("b")];
      EvalLet(items, 0, InitialState(), fuel) == Done(Continue(DoForm([Sym("b")]), 1), State(LetStore(map["a" := Int(1), "b" := Int(2)]), []))
  {
    var items := [Sym("let*"), List([Sym("a"), Int(1), Sym("b"), List([Sym("+"), Sym("a"), Int(1)])]), Sym("b")];
    var st0 := InitialState();
    LetExampleBindings(fuel);
    assert st0.(frames := Push(st0.frames, Frame(map[], Some(0)))) == State(LetStore(map[]), []);
    assert Drop(items, 2) == [Sym("b")];
  }

  /** The body `(do b)` of the example, in the frame that holds `b` = 2. */
  lemma LetExampleBody(fuel: nat)
    requires fuel >= 2
    ensures var st := State(LetStore(map["a" := Int(1), "b" := Int(2)]), []);
      Valid(st) && Eval(DoForm([Sym("b")]), 1, st, fuel) == Done(Int(2), st)
  {
    var st := State(LetStore(map["a" := Int(1), "b" := Int(2)]), []);
    assert Valid(st) by {
      assert PointsBack(st.frames, 0) && PointsBack(st.frames, 1);
    }
    var items := [Sym("do"), Sym("b")];
    assert DoForm([Sym("b")]) == List(items);
    assert Holds(st.frames, 1, "b");
    EvalSymbol("b", 1, st, fuel - 1);
    assert EvalDo(items, 1, st, fuel - 1) == Done(Continue(Sym("b"), 1), st);
    assert PayloadOf(items[0], st.cells) == Ok(HStr("do"));
    assert Special(items, 1, st, fuel - 1) == Done(Continue(Sym("b"), 1), st);
    EvalListUnfold(List(items), 1, st, fuel);
  }

  /** Some valid state in which `ast` evaluates in frame `env` to `v`. */
  ghost predicate EvaluatesTo(ast: Value, env: nat, fuel: nat, v: Value) {
    exists s: State | Valid(s) && env < |s.frames| :: Eval(ast, env, s, fuel).Done? && Eval(ast, env, s, fuel).value == v
  }

  /** Evaluating the items of a map keeps the keys and puts at every odd
      position a value that the form there evaluates to, in the state the
      items before it left. */
  lemma {:induction false} EvalMapItemsValues(xs: seq<Value>, i: nat, env: nat, st: State, fuel: nat)
    requires Valid(st) && env < |st.frames|
    ensures var r := EvalMapItems(xs, i, env, st, fuel);
      r.Done? ==> forall j | i <= j < |xs| && j % 2 == 1 :: EvaluatesTo(xs[j], env, fuel, r.value[j - i])
    decreases |xs| - i
  {
    var r := EvalMapItems(xs, i, env, st, fuel);
    if i < |xs| && r.Done? {
      var head := if i % 2 == 0 then Done(xs[i], st) else Eval(xs[i], env, st, fuel);
      assert head.Done?;
      var rest := EvalMapItems(xs, i + 1, env, head.st, fuel);
      EvalMapItemsValues(xs, i + 1, env, head.st, fuel);
      assert r.value == [head.value] + rest.value;
      forall j | i <= j < |xs| && j % 2 == 1
        ensures EvaluatesTo(xs[j], env, fuel, r.value[j - i])
      {
        if j == i {
          assert Eval(xs[j], env, st, fuel).value == r.value[j - i];
        } else {
          assert r.value[j - i] == rest.value[j - (i + 1)];
        }
      }
    }
  }

  /** Evaluating a list's elements gives, at each position, a value that
      the element there evaluates to. */
  lemma {:induction false} EvalSeqValues(xs: seq<Value>, env: nat, st: State, fuel: nat)
    requires Valid(st) && env < |st.frames|
    ensures var r := EvalSeq(xs, env, st, fuel);
      r.Done? ==> |r.value| == |xs| && forall j | 0 <= j < |xs| :: EvaluatesTo(xs[j], env, fuel, r.value[j])
    decreases |xs|
  {
    var r := EvalSeq(xs, env, st, fuel);
    if |xs| > 0 && r.Done? {
      var head := Eval(xs[0], env, st, fuel);
      assert head.Done?;
      var rest := EvalSeq(xs[1..], env, head.st, fuel);
      EvalSeqValues(xs[1..], env, head.st, fuel);
      assert r.value == [head.value] + rest.value;
      forall j | 0 <= j < |xs|
        ensures EvaluatesTo(xs[j], env, fuel, r.value[j])
      {
        if j == 0 {
          assert Eval(xs[j], env, st, fuel).value == r.value[j];
        } else {
          assert xs[j] == xs[1..][j - 1];
          assert r.value[j] == rest.value[j - 1];
        }
      }
    }
  }

  /** When no element changes the state, the list evaluates exactly when
      every element does, the state is the starting one, and each position
      holds what its element evaluates to in that state. */
  lemma {:induction false} EvalSeqPure(xs: seq<Value>, env: nat, st: State, fuel: nat)
    requires Valid(st) && env < |st.frames|
    requires forall j | 0 <= j < |xs| :: Eval(xs[j], env, st, fuel).Done? ==> Eval(xs[j], env, st, fuel).st == st
    ensures var r := EvalSeq(xs, env, st, fuel);
      (r.Done? <==> forall j | 0 <= j < |xs| :: Eval(xs[j], env, st, fuel).Done?) &&
      (r.Done? ==> r.st == st && forall j | 0 <= j < |xs| :: Eval(xs[j], env, st, fuel) == Done(r.value[j], st))
    decreases |xs|
  {
    if |xs| > 0 {
      assert forall j | 1 <= j < |xs| :: xs[j] == xs[1..][j - 1];
      var head := Eval(xs[0], env, st, fuel);
      if head.Done? {
        EvalSeqPure(xs[1..], env, st, fuel);
      }
    }
  }

  /** `not` answers false for a value whose payload is the number 0 and true
      for nil without evaluating anything; any other argument is evaluated
      once more in the root frame, so a symbol is looked up there. */
  lemma NotCases(n: string, st: State, fuel: nat)
    requires Valid(st) && fuel >= 1
    ensures ApplyNative(Not, [Int(0)], st, fuel) == Done(Bool(false), st)
    ensures ApplyNative(Not, [Nil], st, fuel) == Done(Bool(true), st)
    ensures ApplyNative(Not, [Bool(false)], st, fuel) == Done(Bool(true), st)
    ensures ApplyNative(Not, [Int(1)], st, fuel) == Done(Bool(false), st)
    ensures Get(st.frames, 0, n).Err? ==> ApplyNative(Not, [Sym(n)], st, fuel) == Raised(NotFound(n), st)
    ensures Get(st.frames, 0, n).Ok? ==> ApplyNative(Not, [Sym(n)], st, fuel) == Done(Bool(false), st)
  {
    EvalSelf(Bool(false), 0, st, fuel);
    EvalSelf(Int(1), 0, st, fuel);
    EvalSymbol(n, 0, st, fuel);
  }

  /** `swap!` with a primitive stores what the primitive gives for the
      atom's content followed by the extra arguments, and returns it; no
      other atom changes. */
  lemma SwapStores(a: nat, op: Builtin, extra: seq<Value>, st: State, fuel: nat)
    requires Valid(st) && a < |st.cells|
    requires !op.Not? && !op.Swap? && !op.MakeAtom? && !op.Reset?
    requires Core.Apply(op, [st.cells[a]] + extra, st.cells).Ok?
    ensures var v := Core.Apply(op, [st.cells[a]] + extra, st.cells).value.0;
      && ApplyNative(Swap, [Atom(a), Native(op)] + extra, st, fuel) == Done(v, st.(cells := st.cells[a := v]))
      && forall c | 0 <= c < |st.cells| && c != a :: st.cells[a := v][c] == st.cells[c]
  {
    var args := [Atom(a), Native(op)] + extra;
    assert At(args, 0) == Atom(a) && At(args, 1) == Native(op) && Drop(args, 2) == extra;
    assert ApplyNative(op, [st.cells[a]] + extra, st, fuel) == Primitive(op, [st.cells[a]] + extra, st, fuel);
    assert ApplyNative(Swap, args, st, fuel) == Primitive(Swap, args, st, fuel);
  }

  /** `(swap! a + k)` on an atom holding the integer n stores and returns
      n + k. */
  lemma SwapAdd(a: nat, n: int, k: int, st: State, fuel: nat)
    requires Valid(st) && a < |st.cells| && st.cells[a] == Int(n)
    ensures ApplyNative(Swap, [Atom(a), Native(Add), Int(k)], st, fuel) == Done(Int(n + k), st.(cells := st.cells[a := Int(n + k)]))
  {
    var args := [Int(n), Int(k)];
    Core.ArithOnInts(Add, args, st.cells);
    assert Core.Ints(args) == [n, k];
    assert [n, k][..1] == [n];
    assert [n][..0] == [];
    assert Core.Sum([n]) == n;
    assert Core.Sum([n, k]) == n + k;
    SwapStores(a, Add, [Int(k)], st, fuel);
  }

  // ---------------------------------------------------------------- fuel

  /** Fuel is only a budget: once an evaluation reaches a value or an error,
      any larger budget reaches the same value or error in the same state. */
  lemma {:induction false} EvalFuel(ast: Value, env: nat, st: State, fuel: nat, more: nat)
    requires Valid(st) && env < |st.frames| && fuel <= more
    requires !Eval(ast, env, st, fuel).OutOfFuel?
    ensures Eval(ast, env, st, more) == Eval(ast, env, st, fuel)
    decreases fuel, 0, 1
  {
    assert fuel > 0;
    if !ast.List? {
      EvalAstFuel(ast, env, st, fuel - 1, more - 1);
      assert Eval(ast, env, st, fuel) == EvalAst(ast, env, st, fuel - 1);
      assert Eval(ast, env, st, more) == EvalAst(ast, env, st, more - 1);
    } else if |ast.items| > 0 {
      EvalListFuel(ast, env, st, fuel, more);
    }
  }

  lemma {:induction false} EvalListFuel(ast: Value, env: nat, st: State, fuel: nat, more: nat)
    requires Valid(st) && env < |st.frames| && 0 < fuel <= more
    requires ast.List? && |ast.items| > 0
    requires !Eval(ast, env, st, fuel).OutOfFuel?
    ensures Eval(ast, env, st, more) == Eval(ast, env, st, fuel)
    decreases fuel, 0, 0
  {
    var r := Special(ast.items, env, st, fuel - 1);
    EvalListUnfold(ast, env, st, fuel);
    EvalListUnfold(ast, env, st, more);
    SpecialFuel(ast.items, env, st, fuel - 1, more - 1);
    ResumeFuel(r, fuel - 1, more - 1);
  }

  lemma {:induction false} ResumeFuel(r: Out<Next>, fuel: nat, more: nat)
    requires !r.OutOfFuel? ==> Valid(r.st)
    requires r.Done? && r.value.Continue? ==> r.value.env < |r.st.frames|
    requires fuel <= more && !Resume(r, fuel).OutOfFuel?
    ensures Resume(r, more) == Resume(r, fuel)
    decreases fuel, 0, 2
  {
    if r.Done? && r.value.Continue? {
      EvalFuel(r.value.ast, r.value.env, r.st, fuel, more);
    }
  }

  /** What the loop does with the outcome of a special form. */
  function Resume(r: Out<Next>, fuel: nat): Out<Value>
    requires !r.OutOfFuel? ==> Valid(r.st)
    requires r.Done? && r.value.Continue? ==> r.value.env < |r.st.frames|
  {
    match r
    case Done(Return(v), st1) => Done(v, st1)
    case Done(Continue(a, e), st1) => Eval(a, e, st1, fuel)
    case Raised(err, st1) => Raised(err, st1)
    case OutOfFuel => OutOfFuel
  }

  /** The loop hands the outcome of a primitive straight back. */
  lemma ResumeReturning(x: Out<Value>, fuel: nat)
    requires !x.OutOfFuel? ==> Valid(x.st)
    ensures Resume(Returning(x), fuel) == x
  {
  }

  lemma EvalListUnfold(ast: Value, env: nat, st: State, fuel: nat)
    requires Valid(st) && env < |st.frames| && 0 < fuel
    requires ast.List? && |ast.items| > 0
    ensures Eval(ast, env, st, fuel) == Resume(Special(ast.items, env, st, fuel - 1), fuel - 1)
  {
  }

  lemma {:induction false} EvalAstFuel(ast: Value, env: nat, st: State, fuel: nat, more: nat)
    requires Valid(st) && env < |st.frames| && fuel <= more
    requires !EvalAst(ast, env, st, fuel).OutOfFuel?
    ensures EvalAst(ast, env, st, more) == EvalAst(ast, env, st, fuel)
    decreases fuel, 2, 0
  {
    match ast
    case List(xs) => EvalSeqFuel(xs, env, st, fuel, more);
    case Vector(xs) => EvalSeqFuel(xs, env, st, fuel, more);
    case Map(xs) => EvalMapItemsFuel(xs, 0, env, st, fuel, more);
    case _ =>
  }

  lemma {:induction false} EvalSeqFuel(xs: seq<Value>, env: nat, st: State, fuel: nat, more: nat)
    requires Valid(st) && env < |st.frames| && fuel <= more
    requires !EvalSeq(xs, env, st, fuel).OutOfFuel?
    ensures EvalSeq(xs, env, st, more) == EvalSeq(xs, env, st, fuel)
    decreases fuel, 1, |xs|
  {
    if |xs| > 0 {
      EvalFuel(xs[0], env, st, fuel, more);
      match Eval(xs[0], env, st, fuel)
      case Done(_, st1) => EvalSeqFuel(xs[1..], env, st1, fuel, more);
      case _ =>
    }
  }

  lemma {:induction false} EvalMapItemsFuel(xs: seq<Value>, i: nat, env: nat, st: State, fuel: nat, more: nat)
    requires Valid(st) && env < |st.frames| && fuel <= more
    requires !EvalMapItems(xs, i, env, st, fuel).OutOfFuel?
    ensures EvalMapItems(xs, i, env, st, more) == EvalMapItems(xs, i, env, st, fuel)
    decreases fuel, 1, |xs| - i
  {
    if i < |xs| {
      if i % 2 == 0 {
        EvalMapItemsFuel(xs, i + 1, env, st, fuel, more);
      } else {
        EvalFuel(xs[i], env, st, fuel, more);
        match Eval(xs[i], env, st, fuel)
        case Done(_, st1) => EvalMapItemsFuel(xs, i + 1, env, st1, fuel, more);
        case _ =>
      }
    }
  }

  lemma {:induction false} SpecialFuel(items: seq<Value>, env: nat, st: State, fuel: nat, more: nat)
    requires Valid(st) && env < |st.frames| && |items| > 0 && fuel <= more
    requires !Special(items, env, st, fuel).OutOfFuel?
    ensures Special(items, env, st, more) == Special(items, env, st, fuel)
    decreases fuel, 6, 0
  {
    match PayloadOf(items[0], st.cells)
    case Err(_) =>
    case Ok(h) =>
      if h == HStr("def!") {
        EvalDefFuel(items, env, st, fuel, more);
      } else if h == HStr("let*") {
        EvalLetFuel(items, env, st, fuel, more);
      } else if h == HStr("do") {
        EvalDoFuel(items, env, st, fuel, more);
      } else if h == HStr("if") {
        EvalIfFuel(items, env, st, fuel, more);
      } else if !(h in {HStr("fn*"), HStr("quote"), HStr("quasiquoteexpand"), HStr("quasiquote")}) {
        ApplyFormFuel(items, env, st, fuel, more);
      }
  }

  lemma {:induction false} EvalDefFuel(items: seq<Value>, env: nat, st: State, fuel: nat, more: nat)
    requires Valid(st) && env < |st.frames| && fuel <= more
    requires !EvalDef(items, env, st, fuel).OutOfFuel?
    ensures EvalDef(items, env, st, more) == EvalDef(items, env, st, fuel)
    decreases fuel, 4, 0
  {
    EvalFuel(At(items, 2), env, st, fuel, more);
  }

  lemma {:induction false} EvalLetFuel(items: seq<Value>, env: nat, st: State, fuel: nat, more: nat)
    requires Valid(st) && env < |st.frames| && fuel <= more
    requires !EvalLet(items, env, st, fuel).OutOfFuel?
    ensures EvalLet(items, env, st, more) == EvalLet(items, env, st, fuel)
    decreases fuel, 4, 0
  {
    var st1 := st.(frames := Push(st.frames, Frame(map[], Some(env))));
    match PayloadOf(At(items, 1), st.cells)
    case Err(_) =>
    case Ok(h) =>
      match Elements(h, false)
      case Err(_) =>
      case Ok(xs) => EvalLetBindingsFuel(xs, 0, |st.frames|, st1, fuel, more);
  }

  lemma {:induction false} EvalLetBindingsFuel(xs: seq<Value>, i: nat, e: nat, st: State, fuel: nat, more: nat)
    requires Valid(st) && e < |st.frames| && fuel <= more
    requires !EvalLetBindings(xs, i, e, st, fuel).OutOfFuel?
    ensures EvalLetBindings(xs, i, e, st, more) == EvalLetBindings(xs, i, e, st, fuel)
    decreases fuel, 1, |xs| - i
  {
    if i < |xs| {
      EvalFuel(At(xs, i + 1), e, st, fuel, more);
      match Eval(At(xs, i + 1), e, st, fuel)
      case Done(v, st1) =>
        if KeyOf(xs[i], st1.cells).Ok? {
          var k := KeyOf(xs[i], st1.cells).value;
          EvalLetBindingsFuel(xs, i + 2, e, st1.(frames := Set(st1.frames, e, k, v)), fuel, more);
        }
      case _ =>
    }
  }

  lemma {:induction false} EvalDoFuel(items: seq<Value>, env: nat, st: State, fuel: nat, more: nat)
    requires Valid(st) && env < |st.frames| && fuel <= more
    requires !EvalDo(items, env, st, fuel).OutOfFuel?
    ensures EvalDo(items, env, st, more) == EvalDo(items, env, st, fuel)
    decreases fuel, 4, 0
  {
    var forms := Drop(items, 1);
    if |forms| > 0 {
      EvalSeqFuel(forms[..|forms| - 1], env, st, fuel, more);
    }
  }

  lemma {:induction false} EvalIfFuel(items: seq<Value>, env: nat, st: State, fuel: nat, more: nat)
    requires Valid(st) && env < |st.frames| && fuel <= more
    requires !EvalIf(items, env, st, fuel).OutOfFuel?
    ensures EvalIf(items, env, st, more) == EvalIf(items, env, st, fuel)
    decreases fuel, 4, 0
  {
    EvalFuel(At(items, 1), env, st, fuel, more);
  }

  lemma {:induction false} ApplyFormFuel(items: seq<Value>, env: nat, st: State, fuel: nat, more: nat)
    requires Valid(st) && env < |st.frames| && |items| > 0 && fuel <= more
    requires !ApplyForm(items, env, st, fuel).OutOfFuel?
    ensures ApplyForm(items, env, st, more) == ApplyForm(items, env, st, fuel)
    decreases fuel, 4, 0
  {
    EvalSeqFuel(items, env, st, fuel, more);
    match EvalSeq(items, env, st, fuel)
    case Done(vals, st1) =>
      if vals[0].Native? {
        ApplyNativeFuel(vals[0].op, vals[1..], st1, fuel, more);
      }
    case _ =>
  }

  lemma {:induction false} ApplyNativeFuel(op: Builtin, args: seq<Value>, st: State, fuel: nat, more: nat)
    requires Valid(st) && fuel <= more
    requires !ApplyNative(op, args, st, fuel).OutOfFuel?
    ensures ApplyNative(op, args, st, more) == ApplyNative(op, args, st, fuel)
    decreases fuel, 3, 2 * |args| + 1
  {
    var a := At(args, 0);
    if op.Not? {
      if PayloadOf(a, st.cells).Ok? && PayloadOf(a, st.cells).value != HNum(0) && a != Nil {
        EvalFuel(a, 0, st, fuel, more);
      }
    } else {
      PrimitiveFuel(op, args, st, fuel, more);
    }
  }

  lemma {:induction false} PrimitiveFuel(op: Builtin, args: seq<Value>, st: State, fuel: nat, more: nat)
    requires Valid(st) && fuel <= more
    requires !op.Not? && !Primitive(op, args, st, fuel).OutOfFuel?
    ensures Primitive(op, args, st, more) == Primitive(op, args, st, fuel)
    decreases fuel, 3, 2 * |args|
  {
    var a := At(args, 0);
    var f := At(args, 1);
    if op.Swap? && a.Atom? && a.cell < |st.cells| && f.Native? {
      ApplyNativeFuel(f.op, [st.cells[a.cell]] + Drop(args, 2), st, fuel, more);
    }
  }

  /** Two budgets that both suffice give the same outcome. */
  lemma EvalDeterministic(ast: Value, env: nat, st: State, f1: nat, f2: nat)
    requires Valid(st) && env < |st.frames|
    requires !Eval(ast, env, st, f1).OutOfFuel? && !Eval(ast, env, st, f2).OutOfFuel?
    ensures Eval(ast, env, st, f1) == Eval(ast, env, st, f2)
  {
    if f1 <= f2 {
      EvalFuel(ast, env, st, f1, f2);
    } else {
      EvalFuel(ast, env, st, f2, f1);
    }
  }
}
