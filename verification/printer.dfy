/** Printing of values: `pr_str` and each class's `pr_str` method
    (impls/sakshi/types.js). Printing needs the atom cells because an atom
    prints its content. */
module Printer {
  import opened Results
  import opened Types

  /** `xs.join(sep)`. */
  function Join(xs: seq<string>, sep: string): (r: string)
    ensures |xs| == 1 ==> r == xs[0]
    ensures |xs| == 0 ==> r == ""
  {
    if |xs| == 0 then ""
    else if |xs| == 1 then xs[0]
    else xs[0] + sep + Join(xs[1..], sep)
  }

  /** What `Object.prototype.toString` gives for a plain object. */
  const ObjectTag := "[object Object]"

  /** `String(h)`: the text a template literal or a property key makes of
      a host value. Numbers show in decimal and strings as themselves; an
      object uses its own `toString`, and a bare array joins its elements'
      texts with commas (`Array#toString`). */
  function HostString(h: Host): (r: Result<string>)
    ensures h.HNum? ==> r == Ok(IntToString(h.n))
    ensures h.HStr? ==> r == Ok(h.s)
    ensures h.HObj? && !IsSeq(h.obj) ==> r == Ok(ObjectTag)
    ensures h.HObj? && IsSeq(h.obj) && r.Ok? ==> |r.value| >= 4 && r.value[0] == '"' && r.value[|r.value| - 1] == '"'
    ensures h.HArray? ==> (r.Ok? <==> forall k | 0 <= k < |h.elems| :: ElementString(h.elems[k]).Ok?)
    ensures h.HArray? && r.Ok? ==> r.value == Join(ElementStrings(h.elems).value, ",")
    ensures h.HFun? ==> r.Err?
    decreases 0, h, 4
  {
    match h
    case HObj(w) => ObjectString(w)
    case HArray(xs) =>
      var ps :- ElementStrings(xs);
      Ok(Join(ps, ","))
    case _ => ScalarString(h)
  }

  /** `String(h)` for a host value that is not an object: booleans, null
      and undefined show as their JS names. A host function would show its
      source text, which the model does not have. */
  function ScalarString(h: Host): (r: Result<string>)
    requires !h.HObj? && !h.HArray?
    ensures r.Err? <==> h.HFun?
    ensures h.HUndef? ==> r == Ok("undefined")
    ensures h.HNull? ==> r == Ok("null")
  {
    match h
    case HNum(n) => Ok(IntToString(n))
    case HStr(s) => Ok(s)
    case HBool(b) => Ok(if b then "true" else "false")
    case HNull => Ok("null")
    case HUndef => Ok("undefined")
    case HFun(_) => Err(Unmodelled("source text of a host function"))
  }

  /** `String(w)` of a MalValue instance. MalList and MalVector define
      `toString` as their display print between double quotes; no other
      class defines one, so every other instance shows as
      `[object Object]`. The nested print is made without the atom cells:
      for a value without atoms that is the same print (`PrintCellFree`). */
  function ObjectString(w: Value): (r: Result<string>)
    ensures !IsSeq(w) ==> r == Ok(ObjectTag)
    ensures IsSeq(w) ==> (r.Ok? <==> Print(w, false, []).Ok?)
    ensures IsSeq(w) && r.Ok? ==>
      |r.value| >= 4 && r.value[0] == '"' && r.value[|r.value| - 1] == '"' &&
      r.value[1] == (if w.List? then '(' else '[') && r.value[|r.value| - 2] == (if w.List? then ')' else ']')
    decreases 0, w, 1
  {
    if IsSeq(w) then
      var p :- Print(w, false, []);
      Ok("\"" + p + "\"")
    else Ok(ObjectTag)
  }

  /** How `Array#join` shows one element: undefined as the empty string,
      everything else by `String`. A number or keyword read from source is
      a MalValue object and shows as `[object Object]`. */
  function ElementString(e: Value): (r: Result<string>)
    ensures e.Undefined? ==> r == Ok("")
    ensures e.Int? || e.Kw? || e.Sym? || e.Str? || e.Nil? || e.Map? || e.Atom? || e.Closure? ==> r == Ok(ObjectTag)
    ensures e.Num? ==> r == Ok(IntToString(e.n))
    ensures e.Text? ==> r == Ok(e.raw)
    ensures r.Err? ==> e.Native? || IsSeq(e)
    decreases 0, e, 2
  {
    if e.Undefined? then Ok("")
    else if IsMalValue(e) then ObjectString(e)
    else ScalarString(HostOf(e))
  }

  /** The texts of an array's elements, in order; fails as soon as one
      element fails. */
  function ElementStrings(xs: seq<Value>): (r: Result<seq<string>>)
    ensures r.Ok? ==> |r.value| == |xs|
    ensures r.Ok? ==> forall k | 0 <= k < |xs| :: ElementString(xs[k]) == Ok(r.value[k])
    ensures r.Err? <==> exists k | 0 <= k < |xs| :: ElementString(xs[k]).Err?
    decreases 0, xs, 3
  {
    if |xs| == 0 then Ok([])
    else
      var p :- ElementString(xs[0]);
      var ps :- ElementStrings(xs[1..]);
      assert forall k | 1 <= k < |xs| :: xs[k] == xs[1..][k - 1];
      Ok([p] + ps)
  }

  /** The module-level `pr_str(v, readable)`: MalValue instances use their
      own method, bare host values their `toString`. */
  function Print(v: Value, readable: bool, cells: seq<Value>): (r: Result<string>)
    ensures r.Ok? && v.Str? ==> |r.value| >= 2 && r.value[0] == '"' && r.value[|r.value| - 1] == '"'
    ensures r.Ok? && v.List? ==> |r.value| >= 2 && r.value[0] == '(' && r.value[|r.value| - 1] == ')'
    ensures r.Ok? && v.Vector? ==> |r.value| >= 2 && r.value[0] == '[' && r.value[|r.value| - 1] == ']'
    ensures r.Ok? && v.Map? ==> |r.value| >= 2 && r.value[0] == '{' && r.value[|r.value| - 1] == '}'
    ensures v.Undefined? ==> r.Err?
    decreases |cells|, v, 0
  {
    match v
    case Int(i) => Ok(IntToString(i))
    case Bool(b) => Ok(if b then "true" else "false")
    case Nil => Ok("nil")
    case Sym(name) => Ok(name)
    case Kw(name) => Ok(name)
    case Str(s) => Ok("\"" + (if readable then Escape(s) else s) + "\"")
    case List(xs) =>
      var ps :- PrintAll(xs, readable, cells);
      Ok("(" + Join(ps, " ") + ")")
    case Vector(xs) =>
      var ps :- PrintAll(xs, readable, cells);
      Ok("[" + Join(ps, " ") + "]")
    case Map(xs) =>
      var ps :- MapParts(xs, 0, |xs|, cells);
      Ok("{" + Join(ps, " ") + "}")
    case Atom(a) =>
      if a < |cells| then
        var h :- PayloadOf(cells[a], cells);
        AtomText(HostString(h))
      else Err(Unmodelled("dangling atom"))
    case Closure(_, _, _) => Ok("#<Function>")
    case Native(_) => Err(Unmodelled("source text of a host function"))
    case Num(n) => Ok(IntToString(n))
    case Text(t) => Ok(t)
    case Undefined => Err(TypeError("cannot read properties of undefined"))
  }

  /** `xs.map(x => pr_str(x, readable))`: every element printed with the same
      flag; fails as soon as one element fails. */
  function PrintAll(xs: seq<Value>, readable: bool, cells: seq<Value>): (r: Result<seq<string>>)
    ensures r.Ok? ==> |r.value| == |xs|
    ensures r.Ok? ==> forall k | 0 <= k < |xs| :: Print(xs[k], readable, cells) == Ok(r.value[k])
    ensures r.Err? <==> exists k | 0 <= k < |xs| :: Print(xs[k], readable, cells).Err?
    decreases |cells|, xs, 0
  {
    if |xs| == 0 then Ok([])
    else
      var p :- Print(xs[0], readable, cells);
      var ps :- PrintAll(xs[1..], readable, cells);
      assert forall k | 1 <= k < |xs| :: xs[k] == xs[1..][k - 1];
      Ok([p] + ps)
  }

  /** The parts of a map print, for the suffix `xs` of a map's flat element
      list that starts at index `start` of `total` elements: each element's
      own `pr_str()` in display mode, followed by a comma when it sits at an
      odd (value) index that is not the last. Calling the method on a bare
      host value throws. */
  function MapParts(xs: seq<Value>, start: nat, total: nat, cells: seq<Value>): (r: Result<seq<string>>)
    ensures r.Ok? ==> |r.value| == |xs|
    ensures r.Ok? ==> forall k | 0 <= k < |xs| ::
      IsMalValue(xs[k]) &&
      Print(xs[k], false, cells).Ok? &&
      r.value[k] == Print(xs[k], false, cells).value +
        (if (start + k) % 2 != 0 && start + k != total - 1 then "," else "")
    ensures r.Err? <==> exists k | 0 <= k < |xs| :: !IsMalValue(xs[k]) || Print(xs[k], false, cells).Err?
    decreases |cells|, xs, 0
  {
    if |xs| == 0 then Ok([])
    else if !IsMalValue(xs[0]) then Err(TypeError("x.pr_str is not a function"))
    else
      var p :- Print(xs[0], false, cells);
      var sep := if start % 2 != 0 && start != total - 1 then "," else "";
      var ps :- MapParts(xs[1..], start + 1, total, cells);
      assert forall k | 1 <= k < |xs| :: xs[k] == xs[1..][k - 1];
      Ok([p + sep] + ps)
  }

  /** No atom occurs in `v`, so printing it never reads the cells. */
  predicate AtomFree(v: Value)
    decreases v
  {
    match v
    case Atom(_) => false
    case List(xs) => forall k | 0 <= k < |xs| :: AtomFree(xs[k])
    case Vector(xs) => forall k | 0 <= k < |xs| :: AtomFree(xs[k])
    case Map(xs) => forall k | 0 <= k < |xs| :: AtomFree(xs[k])
    case _ => true
  }

  /** A value without atoms prints the same under any cells. */
  lemma {:induction false} PrintCellFree(v: Value, readable: bool, cells: seq<Value>, cells': seq<Value>)
    requires AtomFree(v)
    ensures Print(v, readable, cells) == Print(v, readable, cells')
    decreases v, 1
  {
    match v
    case List(xs) => PrintAllCellFree(xs, readable, cells, cells');
    case Vector(xs) => PrintAllCellFree(xs, readable, cells, cells');
    case Map(xs) => MapPartsCellFree(xs, 0, |xs|, cells, cells');
    case _ =>
  }

  lemma {:induction false} PrintAllCellFree(xs: seq<Value>, readable: bool, cells: seq<Value>, cells': seq<Value>)
    requires forall k | 0 <= k < |xs| :: AtomFree(xs[k])
    ensures PrintAll(xs, readable, cells) == PrintAll(xs, readable, cells')
    decreases xs, 0
  {
    if |xs| > 0 {
      PrintCellFree(xs[0], readable, cells, cells');
      PrintAllCellFree(xs[1..], readable, cells, cells');
    }
  }

  lemma {:induction false} MapPartsCellFree(xs: seq<Value>, start: nat, total: nat, cells: seq<Value>, cells': seq<Value>)
    requires forall k | 0 <= k < |xs| :: AtomFree(xs[k])
    ensures MapParts(xs, start, total, cells) == MapParts(xs, start, total, cells')
    decreases xs, 0
  {
    if |xs| > 0 {
      PrintCellFree(xs[0], false, cells, cells');
      MapPartsCellFree(xs[1..], start + 1, total, cells, cells');
    }
  }

  /** `(atom t)` for the text `t` of an atom's payload. */
  function AtomText(t: Result<string>): Result<string> {
    var s :- t;
    Ok("(atom " + s + ")")
  }

  lemma AtomUnfold(a: nat, readable: bool, cells: seq<Value>)
    requires a < |cells|
    ensures Print(Atom(a), readable, cells) ==
      match PayloadOf(cells[a], cells)
      case Ok(h) => AtomText(HostString(h))
      case Err(e) => Err(e)
  {
  }

  /** What an atom shows between `(atom ` and `)`: `String` of its
      content's `value`, whatever the readable flag. An integer shows its
      digits, a string its raw text, nil `null`, a bare host value, which
      has no `value`, `undefined`, and an empty collection nothing. */
  lemma AtomShows(a: nat, readable: bool, cells: seq<Value>)
    requires a < |cells|
    ensures Print(Atom(a), readable, cells) == Print(Atom(a), !readable, cells)
    ensures cells[a].Int? ==> Print(Atom(a), readable, cells) == Ok("(atom " + IntToString(cells[a].i) + ")")
    ensures cells[a].Str? ==> Print(Atom(a), readable, cells) == Ok("(atom " + cells[a].str + ")")
    ensures cells[a].Nil? ==> Print(Atom(a), readable, cells) == Ok("(atom null)")
    ensures !IsMalValue(cells[a]) && !cells[a].Undefined? ==> Print(Atom(a), readable, cells) == Ok("(atom undefined)")
    ensures (IsSeq(cells[a]) || cells[a].Map?) && |cells[a].items| == 0 ==> Print(Atom(a), readable, cells) == Ok("(atom )")
  {
    AtomUnfold(a, readable, cells);
    AtomUnfold(a, !readable, cells);
    assert "(atom " + "null" + ")" == "(atom null)";
    assert "(atom " + "undefined" + ")" == "(atom undefined)";
    assert "(atom " + "" + ")" == "(atom )";
  }

  /** `String` of a list or vector without atoms is its display print
      under the live cells, between double quotes. */
  lemma ObjectStringOf(w: Value, cells: seq<Value>)
    requires IsSeq(w) && AtomFree(w) && Print(w, false, cells).Ok?
    ensures ObjectString(w) == Ok("\"" + Print(w, false, cells).value + "\"")
  {
    PrintCellFree(w, false, cells, []);
  }

  /** An atom holding an atom shows `[object Object]` when the inner
      content is a MalValue other than a list or vector, and the quoted
      display print of a list or vector. */
  lemma AtomShowsNested(a: nat, readable: bool, cells: seq<Value>)
    requires a < |cells| && cells[a].Atom? && cells[a].cell < |cells|
    ensures IsMalValue(cells[cells[a].cell]) && !IsSeq(cells[cells[a].cell]) ==>
      Print(Atom(a), readable, cells) == Ok("(atom " + ObjectTag + ")")
    ensures IsSeq(cells[cells[a].cell]) && AtomFree(cells[cells[a].cell]) && Print(cells[cells[a].cell], false, cells).Ok? ==>
      Print(Atom(a), readable, cells) == Ok("(atom " + ("\"" + Print(cells[cells[a].cell], false, cells).value + "\"") + ")")
  {
    var w := cells[cells[a].cell];
    AtomUnfold(a, readable, cells);
    if IsSeq(w) && AtomFree(w) && Print(w, false, cells).Ok? {
      ObjectStringOf(w, cells);
    }
  }

  /** An atom holding a closure shows `String` of the closure's body: the
      quoted display print when the body is a list or vector. */
  lemma AtomShowsClosure(a: nat, readable: bool, cells: seq<Value>)
    requires a < |cells| && cells[a].Closure?
    ensures IsMalValue(cells[a].body) && !IsSeq(cells[a].body) ==> Print(Atom(a), readable, cells) == Ok("(atom " + ObjectTag + ")")
    ensures IsSeq(cells[a].body) && AtomFree(cells[a].body) && Print(cells[a].body, false, cells).Ok? ==>
      Print(Atom(a), readable, cells) == Ok("(atom " + ("\"" + Print(cells[a].body, false, cells).value + "\"") + ")")
  {
    var w := cells[a].body;
    AtomUnfold(a, readable, cells);
    if IsSeq(w) && AtomFree(w) && Print(w, false, cells).Ok? {
      ObjectStringOf(w, cells);
    }
  }

  /** `(atom (atom (list 1 2)))` shows the inner list's display print in
      quotes. */
  lemma AtomOfAtomExample()
    ensures Print(Atom(0), true, [Atom(1), List([Int(1), Int(2)])]) == Ok("(atom \"(1 2)\")")
  {
    var cells := [Atom(1), List([Int(1), Int(2)])];
    ListOneTwo(cells);
    AtomShowsNested(0, true, cells);
    assert "(atom " + ("\"" + "(1 2)" + "\"") + ")" == "(atom \"(1 2)\")";
  }

  lemma ListOneTwo(cells: seq<Value>)
    ensures Print(List([Int(1), Int(2)]), false, cells) == Ok("(1 2)")
  {
    var xs := [Int(1), Int(2)];
    assert Print(xs[0], false, cells) == Ok("1") && Print(xs[1], false, cells) == Ok("2");
    var ps := PrintAll(xs, false, cells);
    assert ps.Ok? && ps.value == ["1", "2"];
    assert Join(["1", "2"], " ") == "1 2";
    assert "(" + "1 2" + ")" == "(1 2)";
  }

  /** `(atom (list 1 2))` shows the array of its elements joined by commas;
      each element is a MalValue object without a `toString`. */
  lemma AtomOfListExample()
    ensures Print(Atom(0), true, [List([Int(1), Int(2)])]) == Ok("(atom " + ObjectTag + "," + ObjectTag + ")")
  {
    var xs := [Int(1), Int(2)];
    var es := ElementStrings(xs);
    assert es.Ok? && es.value == [ObjectTag, ObjectTag];
    assert Join([ObjectTag, ObjectTag], ",") == ObjectTag + "," + ObjectTag;
    AtomUnfold(0, true, [List(xs)]);
    assert "(atom " + (ObjectTag + "," + ObjectTag) + ")" == "(atom " + ObjectTag + "," + ObjectTag + ")";
  }

  /** A string prints between double quotes; in readable mode its contents
      are escaped so that unescaping them gives the string back, in display
      mode they are the string itself. */
  lemma PrintString(s: string, readable: bool, cells: seq<Value>)
    ensures Print(Str(s), readable, cells).Ok?
    ensures var q := Print(Str(s), readable, cells).value;
      (readable ==> Unescape(q[1..|q| - 1]) == s) && (!readable ==> q[1..|q| - 1] == s)
  {
    var q := Print(Str(s), readable, cells).value;
    if readable {
      assert q[1..|q| - 1] == Escape(s);
      UnescapeEscape(s);
    } else {
      assert q[1..|q| - 1] == s;
    }
  }

  /** A list or vector prints exactly when every element prints. The
      empty one prints as its two brackets, and a single element prints
      between the brackets with nothing added. */
  lemma PrintSequence(v: Value, readable: bool, cells: seq<Value>)
    requires v.List? || v.Vector?
    ensures Print(v, readable, cells).Ok? <==> forall k | 0 <= k < |v.items| :: Print(v.items[k], readable, cells).Ok?
    ensures |v.items| == 0 ==> Print(v, readable, cells) == Ok(if v.List? then "()" else "[]")
    ensures |v.items| == 1 && Print(v.items[0], readable, cells).Ok? ==>
      var p := Print(v.items[0], readable, cells).value;
      Print(v, readable, cells) == Ok(if v.List? then "(" + p + ")" else "[" + p + "]")
  {
    var ps := PrintAll(v.items, readable, cells);
    if |v.items| == 0 {
      assert "(" + "" + ")" == "()" && "[" + "" + "]" == "[]";
    }
    if |v.items| == 1 && ps.Ok? {
      assert ps.value == [ps.value[0]];
    }
  }

  /** Nil, keywords, closures and integers have fixed prints, whatever the flag. */
  lemma FixedPrints(name: string, p: Value, b: Value, e: nat, i: int, readable: bool, cells: seq<Value>)
    ensures Print(Nil, readable, cells) == Ok("nil")
    ensures Print(Kw(name), readable, cells) == Ok(name)
    ensures Print(Closure(p, b, e), readable, cells) == Ok("#<Function>")
    ensures Print(Int(i), readable, cells) == Ok(IntToString(i))
  {
  }
}
