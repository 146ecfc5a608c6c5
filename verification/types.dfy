/** The value model of the interpreter (impls/sakshi/types.js): one closed
    variant for every runtime value, the host-level payload (`.value`) each
    variant exposes, JS truthiness, integer text, and string escaping. */
module Types {
  import opened Results

  /** The entries of the core function table, plus `not`. */
  datatype Builtin =
    | Add | Sub | Mul | Div
    | Equal | Gt | Lt | Ge | Le
    | Count | MakeList | IsList | IsEmpty
    | Prn | PrStr | ToStr | Println | ReadString
    | MakeAtom | IsAtom | Deref | Reset | Swap
    | Cons | Concat | Vec | Not

  /** Every value the evaluator can meet. The first eleven variants are the
      MalValue classes; the last four are bare host values that the source
      lets flow through the evaluator: raw JS booleans (Bool), a bare JS
      number (Num, e.g. `count` of a non-sequence), a bare JS string (Text,
      e.g. the result of `pr-str`), a core table function (Native) and JS
      undefined (a missing argument or form; JS null is folded into it). */
  datatype Value =
    | Int(i: int)
    | Bool(b: bool)
    | Nil
    | Sym(name: string)
    | Kw(name: string)
    | Str(str: string)
    | List(items: seq<Value>)
    | Vector(items: seq<Value>)
    | Map(items: seq<Value>)
    | Atom(cell: nat)
    | Closure(params: Value, body: Value, env: nat)
    | Native(op: Builtin)
    | Num(n: int)
    | Text(raw: string)
    | Undefined

  /** List or Vector: the source's `isIteratoratable`. */
  predicate IsSeq(v: Value) {
    v.List? || v.Vector?
  }

  /** True for values that are MalValue instances (objects with a pr_str method). */
  predicate IsMalValue(v: Value) {
    !(v.Bool? || v.Num? || v.Text? || v.Native? || v.Undefined?)
  }

  /** JS array indexing: an index past the end reads undefined. */
  function At(s: seq<Value>, i: nat): (r: Value)
    ensures i < |s| ==> r == s[i]
    ensures i >= |s| ==> r == Undefined
  {
    if i < |s| then s[i] else Undefined
  }

  /** A host (JS) value. HObj wraps a MalValue instance, HArray a bare JS
      array of values. */
  datatype Host =
    | HNum(n: int)
    | HStr(s: string)
    | HBool(b: bool)
    | HNull
    | HUndef
    | HArray(elems: seq<Value>)
    | HObj(obj: Value)
    | HFun(op: Builtin)

  /** The host value that represents `v`. */
  function HostOf(v: Value): (h: Host)
    ensures h.HObj? <==> IsMalValue(v)
  {
    match v
    case Bool(b) => HBool(b)
    case Num(n) => HNum(n)
    case Text(t) => HStr(t)
    case Native(op) => HFun(op)
    case Undefined => HUndef
    case _ => HObj(v)
  }

  /** The model value a host value reads back as. A bare array has no
      counterpart in the model. */
  function FromHost(h: Host): (r: Result<Value>)
    ensures r.Err? <==> h.HArray?
  {
    match h
    case HNum(n) => Ok(Num(n))
    case HStr(s) => Ok(Text(s))
    case HBool(b) => Ok(Bool(b))
    case HNull => Ok(Undefined)
    case HUndef => Ok(Undefined)
    case HArray(_) => Err(Unmodelled("bare host array"))
    case HObj(v) => Ok(v)
    case HFun(op) => Ok(Native(op))
  }

  /** Reading back the host representation of any value gives the value. */
  lemma FromHostOf(v: Value)
    ensures FromHost(HostOf(v)) == Ok(v)
  {
  }

  /** The property `v.value` of the host object for `v`. Atom contents live in
      `cells`; reading a property of undefined throws. */
  function PayloadOf(v: Value, cells: seq<Value>): (r: Result<Host>)
    ensures r.Err? <==> v.Undefined? || (v.Atom? && v.cell >= |cells|)
    ensures (v.Sym? || v.Kw?) ==> r == Ok(HStr(v.name))
    ensures IsSeq(v) || v.Map? ==> r == Ok(HArray(v.items))
    ensures !IsMalValue(v) && !v.Undefined? ==> r == Ok(HUndef)
  {
    match v
    case Int(i) => Ok(HNum(i))
    case Nil => Ok(HNull)
    case Sym(name) => Ok(HStr(name))
    case Kw(name) => Ok(HStr(name))
    case Str(s) => Ok(HStr(s))
    case List(items) => Ok(HArray(items))
    case Vector(items) => Ok(HArray(items))
    case Map(items) => Ok(HArray(items))
    case Atom(a) => if a < |cells| then Ok(HostOf(cells[a])) else Err(Unmodelled("dangling atom"))
    case Closure(_, body, _) => Ok(HostOf(body))
    case Undefined => Err(TypeError("cannot read properties of undefined"))
    case _ => Ok(HUndef)
  }

  /** JS truthiness of the host value: false, 0, "", null and undefined are
      falsy; every object (MalNil and MalValue(0) included) is truthy. */
  predicate Truthy(v: Value) {
    match HostOf(v)
    case HBool(b) => b
    case HNum(n) => n != 0
    case HStr(s) => s != ""
    case HNull => false
    case HUndef => false
    case _ => true
  }

  /** Exactly four values are falsy. */
  lemma FalsyValues(v: Value)
    ensures !Truthy(v) <==> v in {Bool(false), Num(0), Text(""), Undefined}
  {
  }

  // ---------------------------------------------------------------- integers

  function DigitChar(d: nat): (c: char)
    requires d < 10
    ensures '0' <= c <= '9'
  {
    "0123456789"[d]
  }

  predicate IsDigit(c: char) {
    '0' <= c <= '9'
  }

  predicate AllDigits(s: string) {
    forall k | 0 <= k < |s| :: IsDigit(s[k])
  }

  /** Decimal text of a natural number, without leading zeros. */
  function NatToString(n: nat): (r: string)
    ensures |r| > 0 && AllDigits(r)
    ensures |r| > 1 ==> r[0] != '0'
    decreases n
  {
    if n < 10 then [DigitChar(n)] else NatToString(n / 10) + [DigitChar(n % 10)]
  }

  /** JS Number#toString for an integer. */
  function IntToString(i: int): (r: string)
    ensures |r| > 0
    ensures i < 0 <==> r[0] == '-'
    ensures i >= 0 ==> AllDigits(r)
    ensures i < 0 ==> AllDigits(r[1..]) && |r| > 1
  {
    if i < 0 then "-" + NatToString(-i) else NatToString(i)
  }

  /** Value of a digit string read most significant digit first. */
  function DigitsValue(s: string): nat
    requires AllDigits(s)
  {
    if |s| == 0 then 0 else DigitsValue(s[..|s| - 1]) * 10 + (s[|s| - 1] - '0') as nat
  }

  lemma {:induction false} DigitsValueOfNat(n: nat)
    ensures DigitsValue(NatToString(n)) == n
    decreases n
  {
    var s := NatToString(n);
    if n >= 10 {
      DigitsValueOfNat(n / 10);
      assert s[..|s| - 1] == NatToString(n / 10);
    }
  }

  // --------------------------------------------------------- string escapes

  /** Characters JS's `.` does not match. */
  predicate IsLineTerminator(c: char) {
    c == '\n' || c == '\r' || c == '\U{2028}' || c == '\U{2029}'
  }

  function EscapeChar(c: char): (r: string)
    ensures |r| == 1 <==> c != '\\' && c != '"' && c != '\n'
    ensures |r| == 1 ==> r == [c]
    ensures |r| != 1 ==> |r| == 2 && r[0] == '\\'
  {
    if c == '\\' then "\\\\"
    else if c == '"' then "\\\""
    else if c == '\n' then "\\n"
    else [c]
  }

  /** `makeReadable`: backslash, double quote and newline gain a backslash
      (a newline becomes `\n`); every other character is kept. */
  function Escape(s: string): (r: string)
    ensures |r| >= |s|
    ensures '\n' !in r
    ensures |r| == |s| <==> forall k | 0 <= k < |s| :: s[k] != '\\' && s[k] != '"' && s[k] != '\n'
  {
    if |s| == 0 then "" else EscapeChar(s[0]) + Escape(s[1..])
  }

  /** The replacement done by `createMalString`: a backslash followed by any
      character but a line terminator is replaced by that character, or by a
      newline when it is `n`; a lone trailing backslash stays. */
  function Unescape(s: string): (r: string)
    ensures |r| <= |s|
    ensures '\\' !in s ==> r == s
  {
    if |s| == 0 then ""
    else if s[0] == '\\' && |s| >= 2 && !IsLineTerminator(s[1]) then
      [if s[1] == 'n' then '\n' else s[1]] + Unescape(s[2..])
    else [s[0]] + Unescape(s[1..])
  }

  /** Unescaping the readable form of any string gives the string back. */
  lemma {:induction false} UnescapeEscape(s: string)
    ensures Unescape(Escape(s)) == s
  {
    if |s| > 0 {
      UnescapeEscape(s[1..]);
      UnescapeHead(s[0], Escape(s[1..]));
      assert [s[0]] + s[1..] == s;
    }
  }

  /** Unescaping an escaped character followed by more text gives the
      character back, then unescapes the rest. */
  lemma UnescapeHead(c: char, rest: string)
    ensures Unescape(EscapeChar(c) + rest) == [c] + Unescape(rest)
  {
    var e := EscapeChar(c);
    if |e| == 2 {
      assert (e + rest)[2..] == rest;
    } else {
      assert (e + rest)[1..] == rest;
    }
  }
}
