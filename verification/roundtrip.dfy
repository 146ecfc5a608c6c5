/** Reading back what the printer writes (impls/sakshi/reader.js and the
    `pr_str` methods of impls/sakshi/types.js). The readable print of a
    value made of integers, strings, nil, booleans, keywords, symbols,
    lists and vectors reads back as the same value. A map does not: its
    printer drops the readable flag. The corrected printer below passes the
    flag on, and with it maps read back too. */
module RoundTrip {
  import opened Results
  import opened Types
  import opened Printer
  import opened Reader

  // --------------------------------------------------------------- values

  /** A name that the scanner reads as a single atom token. */
  predicate AtomName(name: string) {
    && |name| > 0 && !IsSpecial(name[0])
    && forall k | 0 <= k < |name| :: IsAtomChar(name[k])
  }

  /** Values the reader can produce and whose print is one token per atom:
      keywords start with `:`, symbols are names that `read_atom` does not
      classify as anything else, and maps hold key-value pairs. */
  predicate Readable(v: Value)
    decreases v, 1
  {
    match v
    case Int(_) => true
    case Bool(_) => true
    case Nil => true
    case Str(_) => true
    case Kw(name) => AtomName(name) && name[0] == ':'
    case Sym(name) => AtomName(name) && name[0] != ':' && !IsIntToken(name) && name !in ["true", "false", "nil"]
    case List(xs) => AllReadable(xs)
    case Vector(xs) => AllReadable(xs)
    case Map(xs) => |xs| % 2 == 0 && AllReadable(xs)
    case _ => false
  }

  /** Every element of `xs` is readable. */
  predicate AllReadable(xs: seq<Value>)
    decreases xs, 0
  {
    |xs| > 0 ==> Readable(xs[0]) && AllReadable(xs[1..])
  }

  /** No map occurs in `v`. */
  predicate MapFree(v: Value)
    decreases v, 1
  {
    match v
    case Map(_) => false
    case List(xs) => AllMapFree(xs)
    case Vector(xs) => AllMapFree(xs)
    case _ => true
  }

  /** No map occurs in any element of `xs`. */
  predicate AllMapFree(xs: seq<Value>)
    decreases xs, 0
  {
    |xs| > 0 ==> MapFree(xs[0]) && AllMapFree(xs[1..])
  }

  /** The single token of a readable value that is not a collection. */
  function AtomText(v: Value): string {
    if v.Int? then IntToString(v.i)
    else if v.Bool? then (if v.b then "true" else "false")
    else if v.Str? then "\"" + Escape(v.str) + "\""
    else if v.Kw? || v.Sym? then v.name
    else "nil"
  }

  /** The tokens of a value's readable print. Commas are separators, so
      a map's tokens are those of its items between braces. */
  function Tokens(v: Value): (r: seq<string>)
    ensures |r| > 0
    decreases v, 1
  {
    match v
    case List(xs) => ["("] + TokensAll(xs) + [")"]
    case Vector(xs) => ["["] + TokensAll(xs) + ["]"]
    case Map(xs) => ["{"] + TokensAll(xs) + ["}"]
    case _ => [AtomText(v)]
  }

  /** The tokens of the elements of `xs`, one after the other. */
  function TokensAll(xs: seq<Value>): seq<string>
    decreases xs, 0
  {
    if |xs| == 0 then [] else Tokens(xs[0]) + TokensAll(xs[1..])
  }

  // ---------------------------------------------------- corrected printer

  /** The comma a map print puts after the item at index `i` of `total`:
      after a value (odd index) that is not the last item. */
  function Comma(commas: bool, i: nat, total: nat): string {
    if commas && i % 2 != 0 && i != total - 1 then "," else ""
  }

  /** `pr_str` with the map method corrected to print its items the way
      lists and vectors do, through the module-level `pr_str` with the
      readable flag passed on. Everything else prints as before. */
  function CorrectedPrint(v: Value, readable: bool, cells: seq<Value>): (r: Result<string>)
    ensures !IsSeq(v) && !v.Map? ==> r == Print(v, readable, cells)
    ensures Readable(v) ==> r.Ok?
    ensures Readable(v) && !IsSeq(v) && !v.Map? && readable ==> r == Ok(AtomText(v))
    ensures r.Ok? && v.Map? ==> |r.value| >= 2 && r.value[0] == '{' && r.value[|r.value| - 1] == '}'
    decreases v, 1
  {
    match v
    case List(xs) =>
      var ps :- Parts(xs, 0, |xs|, false, readable, cells);
      Ok("(" + Join(ps, " ") + ")")
    case Vector(xs) =>
      var ps :- Parts(xs, 0, |xs|, false, readable, cells);
      Ok("[" + Join(ps, " ") + "]")
    case Map(xs) =>
      var ps :- Parts(xs, 0, |xs|, true, readable, cells);
      Ok("{" + Join(ps, " ") + "}")
    case _ => Print(v, readable, cells)
  }

  /** The printed items of a collection from index `start` of `total`, each
      followed by its comma when `commas` is set (maps). */
  function Parts(xs: seq<Value>, start: nat, total: nat, commas: bool, readable: bool, cells: seq<Value>): (r: Result<seq<string>>)
    ensures r.Ok? ==> |r.value| == |xs|
    ensures AllReadable(xs) ==> r.Ok?
    decreases xs, 0
  {
    if |xs| == 0 then Ok([])
    else
      var p :- CorrectedPrint(xs[0], readable, cells);
      var ps :- Parts(xs[1..], start + 1, total, commas, readable, cells);
      Ok([p + Comma(commas, start, total)] + ps)
  }

  /** The items print without error exactly when every item does. */
  lemma {:induction false} PartsOk(xs: seq<Value>, start: nat, total: nat, commas: bool, readable: bool, cells: seq<Value>)
    ensures Parts(xs, start, total, commas, readable, cells).Ok?
      <==> forall k | 0 <= k < |xs| :: CorrectedPrint(xs[k], readable, cells).Ok?
    decreases |xs|
  {
    if |xs| > 0 {
      var rest := xs[1..];
      PartsOk(rest, start + 1, total, commas, readable, cells);
      assert forall k | 1 <= k < |xs| :: xs[k] == rest[k - 1];
    }
  }

  /** Printing items that print without error is printing the first and
      then the rest. */
  lemma PartsCons(xs: seq<Value>, start: nat, total: nat, commas: bool, readable: bool, cells: seq<Value>)
    requires |xs| > 0 && Parts(xs, start, total, commas, readable, cells).Ok?
    ensures CorrectedPrint(xs[0], readable, cells).Ok? && Parts(xs[1..], start + 1, total, commas, readable, cells).Ok?
    ensures Parts(xs, start, total, commas, readable, cells).value
      == [CorrectedPrint(xs[0], readable, cells).value + Comma(commas, start, total)]
        + Parts(xs[1..], start + 1, total, commas, readable, cells).value
  {
  }

  /** Each printed item is the corrected print of the item followed by its
      comma. */
  lemma {:induction false} PartsItem(xs: seq<Value>, start: nat, total: nat, commas: bool, readable: bool, cells: seq<Value>, k: nat)
    requires Parts(xs, start, total, commas, readable, cells).Ok? && k < |xs|
    ensures CorrectedPrint(xs[k], readable, cells).Ok?
    ensures Parts(xs, start, total, commas, readable, cells).value[k]
      == CorrectedPrint(xs[k], readable, cells).value + Comma(commas, start + k, total)
    decreases k
  {
    PartsCons(xs, start, total, commas, readable, cells);
    if k > 0 {
      PartsItem(xs[1..], start + 1, total, commas, readable, cells, k - 1);
      assert xs[1..][k - 1] == xs[k];
    }
  }

  /** Without maps the corrected printer is the printer. */
  lemma {:induction false} CorrectedAgrees(v: Value, readable: bool, cells: seq<Value>)
    requires MapFree(v)
    ensures CorrectedPrint(v, readable, cells) == Print(v, readable, cells)
    decreases v, 1
  {
    if IsSeq(v) {
      PartsAgree(v.items, 0, |v.items|, readable, cells);
    }
  }

  lemma {:induction false} PartsAgree(xs: seq<Value>, start: nat, total: nat, readable: bool, cells: seq<Value>)
    requires AllMapFree(xs)
    ensures Parts(xs, start, total, false, readable, cells) == PrintAll(xs, readable, cells)
    decreases xs, 0
  {
    if |xs| > 0 {
      CorrectedAgrees(xs[0], readable, cells);
      PartsAgree(xs[1..], start + 1, total, readable, cells);
      var p := Print(xs[0], readable, cells);
      assert Comma(false, start, total) == "";
      if p.Ok? {
        assert p.value + "" == p.value;
      }
    }
  }

  // --------------------------------------------------------- token facts

  /** The text of an integer, a boolean, nil, a keyword or a symbol is a
      run of atom characters that does not start a punctuation token. */
  lemma AtomTextChars(v: Value)
    requires Readable(v) && !IsSeq(v) && !v.Map? && !v.Str?
    ensures AtomName(AtomText(v))
  {
    var a := AtomText(v);
    if v.Int? {
      forall k | 0 <= k < |a|
        ensures IsAtomChar(a[k])
      {
        assert IsDigit(a[k]) || a[k] == '-' by {
          if v.i < 0 && k > 0 {
            assert a[k] == a[1..][k - 1];
          }
        }
      }
      assert IsDigit(a[0]) || a[0] == '-';
    }
  }

  /** A readable atom's token is classified by `read_atom` as that atom, and
      the parser does not dispatch on it or take it for a closer. */
  lemma ReadAtomText(v: Value)
    requires Readable(v) && !IsSeq(v) && !v.Map?
    ensures !IsDispatchToken(AtomText(v)) && AtomText(v) !in [")", "]", "}"]
    ensures ReadAtom(AtomText(v)) == v
  {
    var a := AtomText(v);
    if v.Str? {
      var e := Escape(v.str);
      assert a[0] == '"' && !IsDigit(a[0]);
      assert a[1..|a| - 1] == e;
      UnescapeEscape(v.str);
    } else {
      AtomTextChars(v);
      if v.Int? {
        ParseIntToString(v.i);
        assert IsDigit(a[0]) || a[0] == '-';
      }
    }
  }

  /** The readable print of a value begins with a token that is no closer. */
  lemma FirstToken(v: Value)
    requires Readable(v)
    ensures Tokens(v)[0] !in [")", "]", "}"]
  {
    if !IsSeq(v) && !v.Map? {
      ReadAtomText(v);
    }
  }

  // ---------------------------------------------------------- print text

  /** The corrected readable print of a readable value, as plain text. */
  function Text(v: Value): string
    decreases v, 1
  {
    match v
    case List(xs) => "(" + Body(xs, 0, |xs|, false) + ")"
    case Vector(xs) => "[" + Body(xs, 0, |xs|, false) + "]"
    case Map(xs) => "{" + Body(xs, 0, |xs|, true) + "}"
    case _ => AtomText(v)
  }

  /** The items of a collection from index `start` of `total`, each with its
      comma, joined by single spaces. */
  function Body(xs: seq<Value>, start: nat, total: nat, commas: bool): string
    decreases xs, 0
  {
    if |xs| == 0 then ""
    else if |xs| == 1 then Text(xs[0]) + Comma(commas, start, total)
    else Text(xs[0]) + Comma(commas, start, total) + " " + Body(xs[1..], start + 1, total, commas)
  }

  /** The corrected printer writes `Text` for every readable value. */
  lemma {:induction false} PrintText(v: Value, cells: seq<Value>)
    requires Readable(v)
    ensures CorrectedPrint(v, true, cells) == Ok(Text(v))
    decreases v, 1
  {
    if IsSeq(v) || v.Map? {
      PartsText(v.items, 0, |v.items|, v.Map?, cells);
    }
  }

  lemma {:induction false} PartsText(xs: seq<Value>, start: nat, total: nat, commas: bool, cells: seq<Value>)
    requires AllReadable(xs)
    ensures Parts(xs, start, total, commas, true, cells).Ok?
    ensures Join(Parts(xs, start, total, commas, true, cells).value, " ") == Body(xs, start, total, commas)
    decreases xs, 0
  {
    if |xs| > 0 {
      PrintText(xs[0], cells);
      PartsText(xs[1..], start + 1, total, commas, cells);
      var ps := Parts(xs, start, total, commas, true, cells).value;
      assert ps == [Text(xs[0]) + Comma(commas, start, total)] + Parts(xs[1..], start + 1, total, commas, true, cells).value;
      assert ps[1..] == Parts(xs[1..], start + 1, total, commas, true, cells).value;
    }
  }

  // -------------------------------------------------------------- scanner

  /** `p` occurs in `t` at position `i`, stated one element at a time so
      that the fact does not unfold into a quantifier over `t`. */
  predicate Occurs<T(==)>(t: seq<T>, i: nat, p: seq<T>) {
    i + |p| <= |t| && OccursFrom(t, i, p, 0)
  }

  /** The elements of `p` from offset `k` on occur in `t` from `i + k` on. */
  predicate OccursFrom<T(==)>(t: seq<T>, i: nat, p: seq<T>, k: nat)
    requires i + |p| <= |t|
    decreases |p| - k
  {
    k >= |p| || (t[i + k] == p[k] && OccursFrom(t, i, p, k + 1))
  }

  lemma {:induction false} OccursFromAll<T>(t: seq<T>, i: nat, p: seq<T>, k: nat)
    requires i + |p| <= |t|
    ensures OccursFrom(t, i, p, k) <==> forall m | k <= m < |p| :: t[i + m] == p[m]
    decreases |p| - k
  {
    if k < |p| {
      OccursFromAll(t, i, p, k + 1);
    }
  }

  lemma OccursSlice<T>(t: seq<T>, i: nat, p: seq<T>)
    requires Occurs(t, i, p)
    ensures i + |p| <= |t| && t[i..i + |p|] == p
  {
    OccursFromAll(t, i, p, 0);
    var w := t[i..i + |p|];
    assert forall m | 0 <= m < |p| :: w[m] == t[i + m];
  }

  lemma SliceOccurs<T>(t: seq<T>, i: nat, p: seq<T>)
    requires i + |p| <= |t| && t[i..i + |p|] == p
    ensures Occurs(t, i, p)
  {
    var w := t[i..i + |p|];
    assert forall m | 0 <= m < |p| :: w[m] == t[i + m];
    OccursFromAll(t, i, p, 0);
  }

  /** The element at offset `k` of what occurs at `i`. */
  lemma OccursAt<T>(t: seq<T>, i: nat, p: seq<T>, k: nat)
    requires Occurs(t, i, p) && k < |p|
    ensures i + k < |t| && t[i + k] == p[k]
  {
    OccursSlice(t, i, p);
    assert t[i..i + |p|][k] == t[i + k];
  }

  /** What occurs at `i` as a concatenation occurs there piece by piece. */
  lemma OccursSplit<T>(t: seq<T>, i: nat, x: seq<T>, y: seq<T>)
    requires Occurs(t, i, x + y)
    ensures Occurs(t, i, x) && Occurs(t, i + |x|, y)
  {
    OccursSlice(t, i, x + y);
    assert t[i..i + |x|] == t[i..i + |x + y|][..|x|];
    assert t[i + |x|..i + |x| + |y|] == t[i..i + |x + y|][|x|..];
    SliceOccurs(t, i, x);
    SliceOccurs(t, i + |x|, y);
  }

  /** An atom run from `i` that is followed by a non-atom character or the
      end of the input ends there. */
  lemma {:induction false} AtomEndRun(t: string, i: nat, k: nat)
    requires i <= k <= |t|
    requires forall j | i <= j < k :: IsAtomChar(t[j])
    requires k == |t| || !IsAtomChar(t[k])
    ensures AtomEnd(t, i) == k
    decreases k - i
  {
    if i < k {
      AtomEndRun(t, i + 1, k);
    }
  }

  /** The second character of a two-character escape is not a line
      terminator, so the string pattern steps over the pair. */
  lemma EscapePair(c: char)
    requires |EscapeChar(c)| == 2
    ensures !IsLineTerminator(EscapeChar(c)[1]) && EscapeChar(c)[0] == '\\'
  {
  }

  /** The body of a string token written by the escaper ends at the quote
      that follows it. */
  lemma {:induction false} StringEndEscape(t: string, i: nat, s: string)
    requires Occurs(t, i, Escape(s)) && i + |Escape(s)| < |t| && t[i + |Escape(s)|] == '"'
    ensures StringEnd(t, i) == i + |Escape(s)|
    decreases |s|
  {
    if |s| > 0 {
      var c := EscapeChar(s[0]);
      OccursSplit(t, i, c, Escape(s[1..]));
      OccursAt(t, i, c, 0);
      if |c| == 2 {
        EscapePair(s[0]);
        OccursAt(t, i, c, 1);
      }
      StringEndEscape(t, i + |c|, s[1..]);
    }
  }

  /** The print of a string is a quote, the escaped body and a quote. */
  lemma QuotedParts(t: string, i: nat, e: string)
    requires Occurs(t, i, "\"" + e + "\"")
    ensures Occurs(t, i + 1, e) && i + |e| + 1 < |t| && t[i] == '"' && t[i + |e| + 1] == '"'
  {
    OccursSplit(t, i, "\"" + e, "\"");
    OccursSplit(t, i, "\"", e);
    OccursAt(t, i + |e| + 1, "\"", 0);
    OccursAt(t, i, "\"", 0);
  }

  /** The capture group of a string's print at `i` spans the whole print. */
  lemma StringGroupEnd(t: string, i: nat, s: string)
    requires Occurs(t, i, "\"" + Escape(s) + "\"")
    ensures SepEnd(t, i) == i && GroupEnd(t, i) == i + |Escape(s)| + 2
  {
    QuotedParts(t, i, Escape(s));
    StringEndEscape(t, i + 1, s);
    QuotedGroupEnd(t, i, i + 1 + |Escape(s)|);
  }

  /** A quote, a string body ending at `b` and the closing quote at `b`
      form one capture group. */
  lemma QuotedGroupEnd(t: string, i: nat, b: nat)
    requires i < b < |t| && t[i] == '"' && t[b] == '"' && StringEnd(t, i + 1) == b
    ensures SepEnd(t, i) == i && GroupEnd(t, i) == b + 1
  {
  }

  /** A string's token is scanned as one capture group. */
  lemma ScanString(t: string, i: nat, s: string)
    requires Occurs(t, i, "\"" + Escape(s) + "\"")
    ensures MatchesFrom(t, i) == ["\"" + Escape(s) + "\""] + MatchesFrom(t, i + |Escape(s)| + 2)
  {
    StringGroupEnd(t, i, s);
    MatchesFromStep(t, i, i, i + |Escape(s)| + 2);
    OccursSlice(t, i, "\"" + Escape(s) + "\"");
  }

  /** A run of atom characters not starting with punctuation, followed by a
      non-atom character or the end, is scanned as one capture group. */
  lemma ScanName(t: string, i: nat, a: string)
    requires AtomName(a) && Occurs(t, i, a)
    requires i + |a| == |t| || !IsAtomChar(t[i + |a|])
    ensures MatchesFrom(t, i) == [a] + MatchesFrom(t, i + |a|)
  {
    OccursSlice(t, i, a);
    forall j | i <= j < i + |a|
      ensures IsAtomChar(t[j])
    {
      assert t[j] == t[i..i + |a|][j - i] == a[j - i];
    }
    AtomEndRun(t, i, i + |a|);
    assert t[i] == a[0];
    assert SepEnd(t, i) == i;
    assert GroupEnd(t, i) == i + |a|;
    MatchesFromStep(t, i, i, i + |a|);
  }

  /** The tokens scanned from the print of a readable value, followed by a
      character that ends an atom or by the end, are the value's tokens. */
  lemma {:induction false} ScanValue(t: string, i: nat, v: Value)
    requires Readable(v) && Occurs(t, i, Text(v))
    requires i + |Text(v)| == |t| || !IsAtomChar(t[i + |Text(v)|])
    ensures MatchesFrom(t, i) == Tokens(v) + MatchesFrom(t, i + |Text(v)|)
    decreases v, 2
  {
    if IsSeq(v) || v.Map? {
      ScanCollection(t, i, v);
    } else {
      ScanAtom(t, i, v);
    }
  }

  /** A string or a name is scanned as the single token of its print. */
  lemma ScanAtom(t: string, i: nat, v: Value)
    requires Readable(v) && !IsSeq(v) && !v.Map? && Occurs(t, i, Text(v))
    requires i + |Text(v)| == |t| || !IsAtomChar(t[i + |Text(v)|])
    ensures MatchesFrom(t, i) == Tokens(v) + MatchesFrom(t, i + |Text(v)|)
  {
    if v.Str? {
      ScanString(t, i, v.str);
    } else {
      AtomTextChars(v);
      ScanName(t, i, AtomText(v));
    }
  }

  /** The character that opens a collection's print. */
  function Opener(v: Value): char {
    if v.List? then '(' else if v.Vector? then '[' else '{'
  }

  /** The character that closes a collection's print. */
  function Closer(v: Value): char {
    if v.List? then ')' else if v.Vector? then ']' else '}'
  }

  /** Where a collection's print occurs, its opener, its items and its
      closer occur one after the other. */
  lemma CollectionParts(t: string, i: nat, v: Value)
    requires (IsSeq(v) || v.Map?) && Occurs(t, i, Text(v))
    ensures var body := Body(v.items, 0, |v.items|, v.Map?);
      && t[i] == Opener(v) && Occurs(t, i + 1, body)
      && i + 1 + |body| < |t| && t[i + 1 + |body|] == Closer(v)
      && |Text(v)| == |body| + 2
  {
    var body := Body(v.items, 0, |v.items|, v.Map?);
    assert Text(v) == [Opener(v)] + body + [Closer(v)];
    OccursSplit(t, i, [Opener(v)] + body, [Closer(v)]);
    OccursSplit(t, i, [Opener(v)], body);
    OccursAt(t, i, [Opener(v)], 0);
    OccursAt(t, i + 1 + |body|, [Closer(v)], 0);
  }

  /** A collection's print is its opener, its items and its closer. */
  lemma {:induction false} ScanCollection(t: string, i: nat, v: Value)
    requires (IsSeq(v) || v.Map?) && Readable(v) && Occurs(t, i, Text(v))
    ensures MatchesFrom(t, i) == Tokens(v) + MatchesFrom(t, i + |Text(v)|)
    decreases v, 1
  {
    ReadableItems(v);
    CollectionParts(t, i, v);
    ScanItems(t, i, v);
    CollectionClose(t, i, v);
  }

  /** The items of a collection printed at `i` scan as their tokens, up to
      the closer. */
  lemma {:induction false} ScanItems(t: string, i: nat, v: Value)
    requires (IsSeq(v) || v.Map?) && AllReadable(v.items)
    requires var body := Body(v.items, 0, |v.items|, v.Map?);
      && Occurs(t, i + 1, body) && i + 1 + |body| < |t| && t[i + 1 + |body|] == Closer(v)
    ensures MatchesFrom(t, i + 1) == TokensAll(v.items) + MatchesFrom(t, i + 1 + |Body(v.items, 0, |v.items|, v.Map?)|)
    decreases v, 0
  {
    ScanBody(t, i + 1, v.items, 0, |v.items|, v.Map?);
  }

  /** The scan of a collection's print, once its items are scanned. */
  lemma CollectionClose(t: string, i: nat, v: Value)
    requires IsSeq(v) || v.Map?
    requires var body := Body(v.items, 0, |v.items|, v.Map?);
      && i + 1 + |body| < |t| && t[i] == Opener(v) && t[i + 1 + |body|] == Closer(v)
      && |Text(v)| == |body| + 2
      && MatchesFrom(t, i + 1) == TokensAll(v.items) + MatchesFrom(t, i + 1 + |body|)
    ensures MatchesFrom(t, i) == Tokens(v) + MatchesFrom(t, i + |Text(v)|)
  {
    var body := Body(v.items, 0, |v.items|, v.Map?);
    CollectionTokens(v);
    ScanDelimited(t, i, |body|, TokensAll(v.items), Tokens(v));
  }

  /** The items of a readable collection are readable. */
  lemma ReadableItems(v: Value)
    requires (IsSeq(v) || v.Map?) && Readable(v)
    ensures AllReadable(v.items)
  {
  }

  /** A collection's tokens are its opener, its items' tokens and its
      closer. */
  lemma CollectionTokens(v: Value)
    requires IsSeq(v) || v.Map?
    ensures Opener(v) in "([{" && Closer(v) in ")]}"
    ensures Tokens(v) == [[Opener(v)]] + TokensAll(v.items) + [[Closer(v)]]
  {
  }

  /** Items between an opening and a closing punctuation character are
      scanned as the opener's token, the items' tokens and the closer's. */
  lemma ScanDelimited(t: string, i: nat, n: nat, toks: seq<string>, all: seq<string>)
    requires i + 1 + n < |t| && t[i] in "([{" && t[i + 1 + n] in ")]}"
    requires MatchesFrom(t, i + 1) == toks + MatchesFrom(t, i + 1 + n)
    requires all == [[t[i]]] + toks + [[t[i + 1 + n]]]
    ensures MatchesFrom(t, i) == all + MatchesFrom(t, i + 2 + n)
  {
    SpecialToken(t, i);
    SpecialToken(t, i + 1 + n);
    Chain3(MatchesFrom(t, i), MatchesFrom(t, i + 1), MatchesFrom(t, i + 1 + n), MatchesFrom(t, i + 2 + n),
      [[t[i]]], toks, [[t[i + 1 + n]]], all);
  }

  /** The tokens scanned from the items of a collection, up to its closing
      character, are the items' tokens. */
  lemma {:induction false} ScanBody(t: string, j: nat, xs: seq<Value>, start: nat, total: nat, commas: bool)
    requires AllReadable(xs) && start + |xs| == total
    requires Occurs(t, j, Body(xs, start, total, commas))
    requires j + |Body(xs, start, total, commas)| < |t| && t[j + |Body(xs, start, total, commas)|] in [')', ']', '}']
    ensures MatchesFrom(t, j) == TokensAll(xs) + MatchesFrom(t, j + |Body(xs, start, total, commas)|)
    decreases xs, 2
  {
    if |xs| == 1 {
      assert Comma(commas, start, total) == "";
      assert Body(xs, start, total, commas) == Text(xs[0]) + "" == Text(xs[0]);
      ScanValue(t, j, xs[0]);
      assert TokensAll(xs) == Tokens(xs[0]) + [];
    } else if |xs| > 1 {
      ScanLink(t, j, xs, start, total, commas);
    }
  }

  /** Two scans in a row: the tokens of both, then what follows. */
  lemma Chain2(a: seq<string>, b: seq<string>, c: seq<string>, x: seq<string>, y: seq<string>, xy: seq<string>)
    requires a == x + b && b == y + c && xy == x + y
    ensures a == xy + c
  {
  }

  /** Three scans in a row: the tokens of all three, then what follows. */
  lemma Chain3(a: seq<string>, b: seq<string>, c: seq<string>, d: seq<string>, x: seq<string>, y: seq<string>, z: seq<string>, xyz: seq<string>)
    requires a == x + b && b == y + c && c == z + d && xyz == x + y + z
    ensures a == xyz + d
  {
  }

  /** The comma, if any, and the space between two items are skipped. */
  lemma SkipGap(t: string, m: nat, g: string)
    requires g == "" || g == ","
    requires Occurs(t, m, g + " ") && m + |g| + 1 < |t|
    ensures MatchesFrom(t, m) == MatchesFrom(t, m + |g| + 1)
  {
    OccursSplit(t, m, g, " ");
    if g == "," {
      OccursAt(t, m, g, 0);
      SkipsSeparator(t, m);
    }
    OccursAt(t, m + |g|, " ", 0);
    SkipsSeparator(t, m + |g|);
  }

  /** Tokens scanned up to a gap are the tokens scanned up to the next
      item. */
  lemma SkipAfter(t: string, j: nat, n: nat, toks: seq<string>, g: string)
    requires g == "" || g == ","
    requires Occurs(t, j + n, g + " ") && j + n + |g| + 1 < |t|
    requires MatchesFrom(t, j) == toks + MatchesFrom(t, j + n)
    ensures MatchesFrom(t, j) == toks + MatchesFrom(t, j + n + |g| + 1)
  {
    SkipGap(t, j + n, g);
  }

  /** One item of a collection followed by its comma, if any, and a space. */
  lemma {:induction false} ScanItem(t: string, j: nat, x: Value, g: string)
    requires Readable(x) && (g == "" || g == ",")
    requires Occurs(t, j, Text(x) + (g + " ")) && j + |Text(x)| + |g| + 1 < |t|
    ensures MatchesFrom(t, j) == Tokens(x) + MatchesFrom(t, j + |Text(x)| + |g| + 1)
    decreases x, 3
  {
    var p := Text(x);
    OccursSplit(t, j, p, g + " ");
    OccursAt(t, j + |p|, g + " ", 0);
    ScanValue(t, j, x);
    SkipAfter(t, j, |p|, Tokens(x), g);
  }

  /** The print of items with more after the first is the first item's
      print, its comma if any and a space, then the rest. */
  lemma BodyLink(t: string, j: nat, xs: seq<Value>, start: nat, total: nat, commas: bool)
    requires |xs| > 1 && Occurs(t, j, Body(xs, start, total, commas))
    ensures var p := Text(xs[0]);
      var g := Comma(commas, start, total);
      var rest := Body(xs[1..], start + 1, total, commas);
      && Occurs(t, j, p + (g + " ")) && Occurs(t, j + |p| + |g| + 1, rest)
      && |Body(xs, start, total, commas)| == |p| + |g| + 1 + |rest|
  {
    var p := Text(xs[0]);
    var g := Comma(commas, start, total);
    var rest := Body(xs[1..], start + 1, total, commas);
    assert Body(xs, start, total, commas) == (p + (g + " ")) + rest;
    OccursSplit(t, j, p + (g + " "), rest);
  }

  /** One item of a collection with more after it: its print, its comma if
      any, and the space before the next item. */
  lemma {:induction false} ScanLink(t: string, j: nat, xs: seq<Value>, start: nat, total: nat, commas: bool)
    requires |xs| > 1 && AllReadable(xs) && start + |xs| == total
    requires Occurs(t, j, Body(xs, start, total, commas))
    requires j + |Body(xs, start, total, commas)| < |t| && t[j + |Body(xs, start, total, commas)|] in [')', ']', '}']
    ensures MatchesFrom(t, j) == TokensAll(xs) + MatchesFrom(t, j + |Body(xs, start, total, commas)|)
    decreases xs, 1
  {
    var p := Text(xs[0]);
    var g := Comma(commas, start, total);
    var rest := Body(xs[1..], start + 1, total, commas);
    var n := j + |p| + |g| + 1;
    BodyLink(t, j, xs, start, total, commas);
    ScanItem(t, j, xs[0], g);
    ScanBody(t, n, xs[1..], start + 1, total, commas);
    var end := j + |Body(xs, start, total, commas)|;
    assert n + |rest| == end;
    assert TokensAll(xs) == Tokens(xs[0]) + TokensAll(xs[1..]);
    Chain2(MatchesFrom(t, j), MatchesFrom(t, n), MatchesFrom(t, end),
      Tokens(xs[0]), TokensAll(xs[1..]), TokensAll(xs));
  }

  /** The scanner splits the corrected readable print of a readable value
      into exactly the value's tokens. */
  lemma TokenizeCorrectedPrint(v: Value, cells: seq<Value>)
    requires Readable(v)
    ensures CorrectedPrint(v, true, cells) == Ok(Text(v))
    ensures Tokenize(Text(v)) == Tokens(v)
  {
    PrintText(v, cells);
    var p := Text(v);
    assert p[0..|p|] == p;
    SliceOccurs(p, 0, p);
    ScanValue(p, 0, v);
    MatchesFromStep(p, |p|, |p|, |p|);
    assert MatchesFrom(p, 0) == Tokens(v) + [""];
  }

  // --------------------------------------------------------------- parser

  /** The parser reads a readable value's tokens back as the value and
      stops right after them. */
  lemma {:induction false} ParseValue(toks: seq<string>, pos: nat, v: Value)
    requires Readable(v)
    requires Occurs(toks, pos, Tokens(v))
    ensures ReadForm(toks, pos) == Ok((v, pos + |Tokens(v)|))
    decreases v, 2
  {
    if IsSeq(v) || v.Map? {
      ParseCollection(toks, pos, v);
    } else {
      OccursAt(toks, pos, Tokens(v), 0);
      ReadAtomText(v);
    }
  }

  /** A collection is read as its opener, its items up to its closer. */
  lemma {:induction false} ParseCollection(toks: seq<string>, pos: nat, v: Value)
    requires (IsSeq(v) || v.Map?) && Readable(v)
    requires Occurs(toks, pos, Tokens(v))
    ensures ReadForm(toks, pos) == Ok((v, pos + |Tokens(v)|))
    decreases v, 1
  {
    var xs := v.items;
    ReadableItems(v);
    CollectionTokens(v);
    DelimitedOccurs(toks, pos, [Opener(v)], TokensAll(xs), [Closer(v)]);
    ParseItems(toks, pos + 1, xs, [Closer(v)]);
    ReadOpened(toks, pos, v, pos + |Tokens(v)|);
  }

  /** Tokens `[o] + body + [c]` occurring at `pos` put `o` there, the body
      right after it and `c` just past the body. */
  lemma DelimitedOccurs(toks: seq<string>, pos: nat, o: string, body: seq<string>, c: string)
    requires Occurs(toks, pos, [o] + body + [c])
    ensures Occurs(toks, pos + 1, body) && pos + 1 + |body| < |toks|
    ensures toks[pos] == o && toks[pos + 1 + |body|] == c
  {
    OccursSplit(toks, pos, [o] + body, [c]);
    OccursSplit(toks, pos, [o], body);
    OccursAt(toks, pos, [o], 0);
    OccursAt(toks, pos + 1 + |body|, [c], 0);
  }

  /** An opener followed by items the parser reads up to the matching
      closer is read as the collection of those items. */
  lemma ReadOpened(toks: seq<string>, pos: nat, v: Value, end: nat)
    requires (IsSeq(v) || v.Map?) && (v.Map? ==> |v.items| % 2 == 0)
    requires pos < |toks| && toks[pos] == [Opener(v)]
    requires SeqReads(toks, pos + 1, [Closer(v)], v.items, end)
    ensures ReadForm(toks, pos) == Ok((v, end))
  {
  }

  /** The tokens of items with a first one are the first item's tokens,
      which do not start with a closer, and then the rest's. */
  lemma ItemsLink(toks: seq<string>, pos: nat, xs: seq<Value>)
    requires |xs| > 0 && Readable(xs[0])
    requires Occurs(toks, pos, TokensAll(xs))
    ensures Occurs(toks, pos, Tokens(xs[0])) && Occurs(toks, pos + |Tokens(xs[0])|, TokensAll(xs[1..]))
    ensures toks[pos] !in [")", "]", "}"]
    ensures |TokensAll(xs)| == |Tokens(xs[0])| + |TokensAll(xs[1..])|
  {
    var t0 := Tokens(xs[0]);
    assert TokensAll(xs) == t0 + TokensAll(xs[1..]);
    OccursSplit(toks, pos, t0, TokensAll(xs[1..]));
    FirstToken(xs[0]);
    OccursAt(toks, pos, t0, 0);
  }

  /** `ReadSeq` from `pos` reads the forms `xs` and stops after the closer
      just before `end`. */
  predicate SeqReads(toks: seq<string>, pos: nat, closer: string, xs: seq<Value>, end: nat) {
    pos <= |toks| && ReadSeq(toks, pos, closer) == Ok((xs, end))
  }

  /** The parser reads the tokens of a sequence of readable values,
      followed by a closer, as those values in order. */
  lemma {:induction false} ParseItems(toks: seq<string>, pos: nat, xs: seq<Value>, closer: string)
    requires AllReadable(xs) && closer in [")", "]", "}"]
    requires Occurs(toks, pos, TokensAll(xs)) && pos + |TokensAll(xs)| < |toks|
    requires toks[pos + |TokensAll(xs)|] == closer
    ensures SeqReads(toks, pos, closer, xs, pos + |TokensAll(xs)| + 1)
    decreases xs, 0
  {
    if |xs| == 0 {
      ReadSeqNil(toks, pos, closer);
    } else {
      var n := pos + |Tokens(xs[0])|;
      var end := pos + |TokensAll(xs)| + 1;
      ItemsLink(toks, pos, xs);
      assert n + |TokensAll(xs[1..])| + 1 == end;
      ParseValue(toks, pos, xs[0]);
      ParseItems(toks, n, xs[1..], closer);
      ReadSeqStep(toks, pos, closer, xs, n, end);
    }
  }

  /** The closer right away ends a sequence with no forms. */
  lemma ReadSeqNil(toks: seq<string>, pos: nat, closer: string)
    requires pos < |toks| && toks[pos] == closer
    ensures SeqReads(toks, pos, closer, [], pos + 1)
  {
  }

  /** `ReadSeqCons` for a nonempty sequence split at its head. */
  lemma ReadSeqStep(toks: seq<string>, pos: nat, closer: string, xs: seq<Value>, n: nat, end: nat)
    requires |xs| > 0 && pos < |toks| && toks[pos] !in [")", "]", "}"] && closer in [")", "]", "}"] && n <= |toks|
    requires ReadForm(toks, pos) == Ok((xs[0], n))
    requires SeqReads(toks, n, closer, xs[1..], end)
    ensures SeqReads(toks, pos, closer, xs, end)
  {
    ReadSeqCons(toks, pos, closer, xs[0], n, xs[1..], end);
    assert [xs[0]] + xs[1..] == xs;
  }

  /** A form that is not the closer, then more forms up to the closer. */
  lemma ReadSeqCons(toks: seq<string>, pos: nat, closer: string, x: Value, n: nat, rest: seq<Value>, end: nat)
    requires pos < |toks| && toks[pos] != closer && n <= |toks|
    requires ReadForm(toks, pos) == Ok((x, n))
    requires ReadSeq(toks, n, closer) == Ok((rest, end))
    ensures ReadSeq(toks, pos, closer) == Ok(([x] + rest, end))
  {
  }

  // ----------------------------------------------------------- round trip

  /** With maps printed readably, `read_str` of the readable print of any
      readable value gives the value back. */
  lemma ReadCorrectedPrint(v: Value, cells: seq<Value>)
    requires Readable(v)
    ensures CorrectedPrint(v, true, cells).Ok?
    ensures ReadStr(CorrectedPrint(v, true, cells).value) == Ok(v)
  {
    TokenizeCorrectedPrint(v, cells);
    var toks := Tokens(v);
    assert toks[0..|toks|] == toks;
    SliceOccurs(toks, 0, toks);
    ParseValue(toks, 0, v);
  }

  /** `read_str` of the readable print of a readable value with no map in
      it gives the value back. */
  lemma ReadPrint(v: Value, cells: seq<Value>)
    requires Readable(v) && MapFree(v)
    ensures Print(v, true, cells).Ok?
    ensures ReadStr(Print(v, true, cells).value) == Ok(v)
  {
    CorrectedAgrees(v, true, cells);
    ReadCorrectedPrint(v, cells);
  }

  // ---------------------------------------------------- the map printer

  /** The map printer drops the readable flag, so a string inside a map is
      printed without escapes. `{:k "a\\b"}` (the string `a\b` with one
      backslash) prints its string as `"a\b"`, which reads back as `ab`.
      The corrected printer keeps the flag and the map reads back intact. */
  lemma MapPrintNotReread(cells: seq<Value>)
    ensures var m := Map([Kw(":k"), Str("a\\b")]);
      && Print(m, true, cells) == Ok("{:k \"a\\b\"}")
      && ReadStr("{:k \"a\\b\"}") == Ok(Map([Kw(":k"), Str("ab")]))
      && Map([Kw(":k"), Str("ab")]) != m
      && CorrectedPrint(m, true, cells).Ok? && ReadStr(CorrectedPrint(m, true, cells).value) == Ok(m)
  {
    var m := Map([Kw(":k"), Str("a\\b")]);
    MapExamplePrint(cells);
    MapTextTokens();
    MapTokensRead();
    assert "ab"[1] != "a\\b"[1];
    MapExampleReadable();
    ReadCorrectedPrint(m, cells);
  }

  /** The example map is readable: a keyword and a string. */
  lemma MapExampleReadable()
    ensures Readable(Map([Kw(":k"), Str("a\\b")]))
  {
    var xs := [Kw(":k"), Str("a\\b")];
    assert AtomName(":k");
    assert xs[1..] == [Str("a\\b")] && [Str("a\\b")][1..] == [];
    assert AllReadable(xs[1..]);
  }

  /** The example map prints its string in display mode. */
  lemma MapExamplePrint(cells: seq<Value>)
    ensures Print(Map([Kw(":k"), Str("a\\b")]), true, cells) == Ok("{:k \"a\\b\"}")
  {
    var xs := [Kw(":k"), Str("a\\b")];
    var q := "\"a\\b\"";
    assert "\"" + "a\\b" + "\"" == q;
    assert Print(Str("a\\b"), false, cells) == Ok(q);
    assert xs[1..] == [Str("a\\b")] && [Str("a\\b")][1..] == [];
    assert MapParts([Str("a\\b")], 1, 2, cells) == Ok([q + ""] + []);
    assert q + "" == q;
    assert [q + ""] + [] == [q];
    assert MapParts(xs, 0, 2, cells) == Ok([":k" + ""] + [q]);
    assert ":k" + "" == ":k";
    assert [":k" + ""] + [q] == [":k", q];
    assert Join([":k", q], " ") == ":k" + " " + q;
    assert "{" + (":k" + " " + q) + "}" == "{:k \"a\\b\"}";
  }

  /** The display print of the example map scans as four tokens. */
  lemma MapTextTokens()
    ensures Tokenize("{:k \"a\\b\"}") == ["{", ":k", "\"a\\b\"", "}"]
  {
    var t := "{:k \"a\\b\"}";
    var q := "\"a\\b\"";
    MapScanString();
    assert t[1..3] == ":k";
    SliceOccurs(t, 1, ":k");
    ScanName(t, 1, ":k");
    assert MatchesFrom(t, 1) == [":k", q, "}", ""];
    SpecialToken(t, 0);
    assert MatchesFrom(t, 0) == ["{", ":k", q, "}", ""];
  }

  /** After the keyword, the example's print scans as the string token,
      the closing brace and the final empty match. */
  lemma MapScanString()
    ensures MatchesFrom("{:k \"a\\b\"}", 3) == ["\"a\\b\"", "}", ""]
  {
    var t := "{:k \"a\\b\"}";
    var q := "\"a\\b\"";
    MatchesFromStep(t, 10, 10, 10);
    SpecialToken(t, 9);
    assert MatchesFrom(t, 9) == ["}", ""];
    assert SepEnd(t, 3) == 4;
    assert StringEnd(t, 8) == 8;
    assert StringEnd(t, 6) == 8;
    assert StringEnd(t, 5) == 8;
    assert GroupEnd(t, 4) == 9;
    MatchesFromStep(t, 3, 4, 9);
    assert t[4..9] == q;
    assert MatchesFrom(t, 3) == [q, "}", ""];
  }

  /** The four tokens read as a map whose string lost its backslash. */
  lemma MapTokensRead()
    ensures ReadForm(["{", ":k", "\"a\\b\"", "}"], 0) == Ok((Map([Kw(":k"), Str("ab")]), 4))
  {
    var toks := ["{", ":k", "\"a\\b\"", "}"];
    var q := "\"a\\b\"";
    assert q[1..|q| - 1] == "a\\b";
    assert Unescape("a\\b") == "ab";
    assert ReadAtom(q) == Str("ab");
    assert ReadForm(toks, 2) == Ok((Str("ab"), 3));
    assert ReadForm(toks, 1) == Ok((Kw(":k"), 2));
    assert ReadSeq(toks, 3, "}") == Ok(([], 4));
    ReadSeqCons(toks, 2, "}", Str("ab"), 3, [], 4);
    assert [Str("ab")] + [] == [Str("ab")];
    ReadSeqCons(toks, 1, "}", Kw(":k"), 2, [Str("ab")], 4);
    assert [Kw(":k")] + ([Str("ab")] + []) == [Kw(":k"), Str("ab")];
  }
}
