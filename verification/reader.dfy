/** The reader (impls/sakshi/reader.js): a tokenizer that reproduces the
    source's global regular expression as a hand-written scanner, and a
    recursive-descent parser over the token sequence. */
module Reader {
  import opened Results
  import opened Types

  // --------------------------------------------------------------- scanner

  /** JS `\s`. */
  predicate IsSpace(c: char) {
    c == ' ' || c == '\t' || c == '\n' || c == '\r' || c == '\U{000B}' || c == '\U{000C}'
    || c == '\U{00A0}' || c == '\U{1680}' || ('\U{2000}' <= c <= '\U{200A}')
    || c == '\U{2028}' || c == '\U{2029}' || c == '\U{202F}' || c == '\U{205F}'
    || c == '\U{3000}' || c == '\U{FEFF}'
  }

  /** The `[\s,]*` run skipped before every token. */
  predicate IsSeparator(c: char) {
    IsSpace(c) || c == ','
  }

  /** The one-character tokens `[\[\]{}()'`~^@]`. */
  predicate IsSpecial(c: char) {
    c == '[' || c == ']' || c == '{' || c == '}' || c == '(' || c == ')'
    || c == '\'' || c == '`' || c == '~' || c == '^' || c == '@'
  }

  /** Characters of an atom token, `[^\s\[\]{}('"`,;)]`. */
  predicate IsAtomChar(c: char) {
    !IsSpace(c) && !(c == '[' || c == ']' || c == '{' || c == '}' || c == '(' || c == ')'
    || c == '\'' || c == '"' || c == '`' || c == ',' || c == ';')
  }

  // The scan works on positions of the whole input rather than on its
  // suffixes: each function takes the input and a start position and
  // returns the position where its run ends.

  /** End of the `[\s,]*` run that starts at `i`. */
  function SepEnd(t: string, i: nat): (k: nat)
    requires i <= |t|
    ensures i <= k <= |t|
    ensures k < |t| ==> !IsSeparator(t[k])
    decreases |t| - i
  {
    if i < |t| && IsSeparator(t[i]) then SepEnd(t, i + 1) else i
  }

  /** End of the `(?:\\.|[^\\"])*` run that forms a string token's body. */
  function StringEnd(t: string, i: nat): (k: nat)
    requires i <= |t|
    ensures i <= k <= |t|
    ensures k < |t| ==> t[k] == '"' || t[k] == '\\'
    decreases |t| - i
  {
    if i + 1 < |t| && t[i] == '\\' && !IsLineTerminator(t[i + 1]) then StringEnd(t, i + 2)
    else if i < |t| && t[i] != '\\' && t[i] != '"' then StringEnd(t, i + 1)
    else i
  }

  /** End of the `.*` run of a comment token. */
  function CommentEnd(t: string, i: nat): (k: nat)
    requires i <= |t|
    ensures i <= k <= |t|
    ensures k < |t| ==> IsLineTerminator(t[k])
    decreases |t| - i
  {
    if i < |t| && !IsLineTerminator(t[i]) then CommentEnd(t, i + 1) else i
  }

  /** End of the `[^\s\[\]{}('"`,;)]*` run of an atom token. */
  function AtomEnd(t: string, i: nat): (k: nat)
    requires i <= |t|
    ensures i <= k <= |t|
    ensures k < |t| ==> !IsAtomChar(t[k])
    decreases |t| - i
  {
    if i < |t| && IsAtomChar(t[i]) then AtomEnd(t, i + 1) else i
  }

  /** End of the capture group matched at `i`, trying the alternatives of the
      source's pattern in order. */
  function GroupEnd(t: string, i: nat): (e: nat)
    requires i <= |t|
    ensures i <= e <= |t|
    ensures i < |t| && !IsSeparator(t[i]) ==> e > i
  {
    if i == |t| then i
    else if i + 1 < |t| && t[i] == '~' && t[i + 1] == '@' then i + 2
    else if IsSpecial(t[i]) then i + 1
    else if t[i] == '"' then
      var b := StringEnd(t, i + 1);
      if b < |t| && t[b] == '"' then b + 1 else b
    else if t[i] == ';' then CommentEnd(t, i + 1)
    else AtomEnd(t, i)
  }

  /** The capture groups of `str.matchAll(re)` from position `i` on: each
      match skips separators and captures one group; the match at the very
      end is empty, after which the scan stops. */
  function MatchesFrom(t: string, i: nat): (r: seq<string>)
    requires i <= |t|
    ensures |r| >= 1
    decreases |t| - i, 1
  {
    NextMatch(t, i)
  }

  /** One match at `i` followed by the matches after it. Kept apart from
      `MatchesFrom` so that a scan position is expanded one match at a time,
      only where a proof asks for it. */
  function NextMatch(t: string, i: nat): (r: seq<string>)
    requires i <= |t|
    ensures |r| >= 1
    decreases |t| - i, 0
  {
    var k := SepEnd(t, i);
    var e := GroupEnd(t, k);
    if e == i then [""] else [t[k..e]] + MatchesFrom(t, e)
  }

  /** The scan ends with the empty match at the end of the input. */
  lemma {:induction false} MatchesEndEmpty(t: string, i: nat)
    requires i <= |t|
    ensures MatchesFrom(t, i)[|MatchesFrom(t, i)| - 1] == ""
    decreases |t| - i
  {
    var k := SepEnd(t, i);
    var e := GroupEnd(t, k);
    assert MatchesFrom(t, i) == NextMatch(t, i);
    if e != i {
      MatchesEndEmpty(t, e);
    }
  }

  /** `tokenize`: every capture group but the last. */
  function Tokenize(s: string): seq<string> {
    var m := MatchesFrom(s, 0);
    m[..|m| - 1]
  }

  // ------------------------------------------------------- scanner properties

  /** Every capture but the last two is non-empty: only the final match,
      the one that swallows trailing separators, can capture nothing. */
  lemma {:induction false} MatchesNonEmpty(t: string, i: nat)
    requires i <= |t|
    ensures forall j | 0 <= j < |MatchesFrom(t, i)| - 2 :: MatchesFrom(t, i)[j] != ""
    decreases |t| - i
  {
    var k := SepEnd(t, i);
    var e := GroupEnd(t, k);
    MatchesFromStep(t, i, k, e);
    if e != i {
      var rest := MatchesFrom(t, e);
      if e == k {
        assert e == |t|;
        assert rest == [""];
      } else {
        MatchesNonEmpty(t, e);
        assert |t[k..e]| > 0;
      }
      assert forall j | 1 <= j < |MatchesFrom(t, i)| :: MatchesFrom(t, i)[j] == rest[j - 1];
    }
  }

  /** Only the last token can be empty. */
  lemma TokensNonEmpty(s: string)
    ensures forall j | 0 <= j < |Tokenize(s)| - 1 :: Tokenize(s)[j] != ""
  {
    MatchesNonEmpty(s, 0);
  }

  /** One match of the scan, with its separator run ending at `k` and its
      group ending at `e`. */
  lemma MatchesFromStep(t: string, i: nat, k: nat, e: nat)
    requires i <= |t| && k == SepEnd(t, i) && e == GroupEnd(t, k)
    ensures e == i ==> MatchesFrom(t, i) == [""]
    ensures e != i ==> MatchesFrom(t, i) == [t[k..e]] + MatchesFrom(t, e)
  {
    assert MatchesFrom(t, i) == NextMatch(t, i);
  }

  /** Separators and commas are discarded: the scan from a separator is the
      scan from the character after it, unless nothing follows. */
  lemma SkipsSeparator(t: string, i: nat)
    requires i + 1 < |t| && IsSeparator(t[i])
    ensures MatchesFrom(t, i) == MatchesFrom(t, i + 1)
  {
    var k := SepEnd(t, i + 1);
    assert SepEnd(t, i) == k;
    var e := GroupEnd(t, k);
    assert e > i + 1 by {
      if k == i + 1 {
        assert !IsSeparator(t[i + 1]);
      }
    }
    MatchesFromStep(t, i, k, e);
    MatchesFromStep(t, i + 1, k, e);
  }

  /** `~@` is one token. */
  lemma SpliceUnquoteToken(t: string, i: nat)
    requires i + 1 < |t| && t[i] == '~' && t[i + 1] == '@'
    ensures MatchesFrom(t, i) == ["~@"] + MatchesFrom(t, i + 2)
  {
    assert SepEnd(t, i) == i;
    assert GroupEnd(t, i) == i + 2;
    MatchesFromStep(t, i, i, i + 2);
    assert t[i..i + 2] == "~@";
  }

  /** Every other punctuation character is a token of its own. */
  lemma SpecialToken(t: string, i: nat)
    requires i < |t| && IsSpecial(t[i])
    requires !(t[i] == '~' && i + 1 < |t| && t[i + 1] == '@')
    ensures MatchesFrom(t, i) == [[t[i]]] + MatchesFrom(t, i + 1)
  {
    assert SepEnd(t, i) == i;
    assert GroupEnd(t, i) == i + 1;
    MatchesFromStep(t, i, i, i + 1);
    assert t[i..i + 1] == [t[i]];
  }

  lemma {:induction false} SepEndAll(t: string, i: nat)
    requires i <= |t|
    requires forall j | i <= j < |t| :: IsSeparator(t[j])
    ensures SepEnd(t, i) == |t|
    decreases |t| - i
  {
    if i < |t| {
      SepEndAll(t, i + 1);
    }
  }

  lemma {:induction false} AtomEndAll(t: string, i: nat)
    requires i <= |t|
    requires forall j | i <= j < |t| :: IsAtomChar(t[j])
    ensures AtomEnd(t, i) == |t|
    decreases |t| - i
  {
    if i < |t| {
      AtomEndAll(t, i + 1);
    }
  }

  /** Input made only of separators gives no token when empty and one empty
      token otherwise (the group captured by the last non-empty match). */
  lemma TokenizeOnlySeparators(s: string)
    requires forall j | 0 <= j < |s| :: IsSeparator(s[j])
    ensures Tokenize(s) == if |s| == 0 then [] else [""]
  {
    SepEndAll(s, 0);
    MatchesFromStep(s, 0, |s|, |s|);
    if |s| > 0 {
      MatchesFromStep(s, |s|, |s|, |s|);
      assert s[|s|..|s|] == "";
      assert MatchesFrom(s, 0) == [""] + [""];
    }
  }

  /** A run of atom characters that does not start with `~`, `^` or `@` is
      one token. */
  lemma TokenizeAtomText(t: string)
    requires |t| > 0 && !IsSpecial(t[0])
    requires forall j | 0 <= j < |t| :: IsAtomChar(t[j])
    ensures Tokenize(t) == [t]
  {
    AtomEndAll(t, 0);
    assert SepEnd(t, 0) == 0;
    assert GroupEnd(t, 0) == |t|;
    MatchesFromStep(t, 0, 0, |t|);
    MatchesFromStep(t, |t|, |t|, |t|);
    assert t[0..|t|] == t;
    assert MatchesFrom(t, 0) == [t] + [""];
  }

  // ---------------------------------------------------------------- parser

  /** The symbol a reader-macro token expands to. */
  function MacroName(tok: string): (r: string)
    ensures r != "" <==> tok in ["'", "`", "~", "~@", "@"]
  {
    if tok == "'" then "quote"
    else if tok == "`" then "quasiquote"
    else if tok == "~" then "unquote"
    else if tok == "~@" then "splice-unquote"
    else if tok == "@" then "deref"
    else ""
  }

  /** `-?[0-9]+`. */
  predicate IsIntToken(tok: string) {
    (|tok| > 0 && AllDigits(tok)) || (|tok| > 1 && tok[0] == '-' && AllDigits(tok[1..]))
  }

  /** `parseInt` of an integer token. */
  function ParseInt(tok: string): (n: int)
    requires IsIntToken(tok)
    ensures tok[0] != '-' ==> n >= 0
  {
    if tok[0] == '-' then -(DigitsValue(tok[1..]) as int) else DigitsValue(tok)
  }

  /** The integer text the printer produces parses back to the integer. */
  lemma {:induction false} ParseIntToString(i: int)
    ensures IsIntToken(IntToString(i))
    ensures ParseInt(IntToString(i)) == i
  {
    var s := IntToString(i);
    if i < 0 {
      assert s == "-" + NatToString(-i);
      assert s[0] == '-' && s[1..] == NatToString(-i);
      DigitsValueOfNat(-i);
    } else {
      assert s == NatToString(i);
      assert AllDigits(s) && s[0] != '-';
      DigitsValueOfNat(i);
    }
  }

  /** `read_atom`: the classification of a token, tried in order. */
  function ReadAtom(tok: string): (r: Value)
    ensures r.Int? <==> IsIntToken(tok)
    ensures r.Bool? <==> tok == "true" || tok == "false"
    ensures r.Nil? <==> tok == "nil"
    ensures r.Kw? <==> !IsIntToken(tok) && |tok| > 0 && tok[0] == ':'
    ensures r.Str? <==> !IsIntToken(tok) && tok !in ["true", "false", "nil"] && |tok| > 0 && tok[0] == '"'
    ensures r.Kw? || r.Sym? ==> r.name == tok
    ensures r.Int? ==> r.i == ParseInt(tok)
    ensures r.Str? ==> r.str == Unescape(if |tok| >= 2 then tok[1..|tok| - 1] else "")
    ensures r.Sym? || r.Int? || r.Bool? || r.Nil? || r.Kw? || r.Str?
  {
    if IsIntToken(tok) then Int(ParseInt(tok))
    else if tok == "true" then Bool(true)
    else if tok == "false" then Bool(false)
    else if tok == "nil" then Nil
    else if |tok| > 0 && tok[0] == ':' then Kw(tok)
    else if |tok| > 0 && tok[0] == '"' then Str(Unescape(if |tok| >= 2 then tok[1..|tok| - 1] else ""))
    else Sym(tok)
  }

  /** `read_form` at position `pos`: the form read and the position after it. */
  function ReadForm(toks: seq<string>, pos: nat): (r: Result<(Value, nat)>)
    requires pos <= |toks|
    ensures r.Ok? ==> pos < r.value.1 <= |toks|
    ensures r.Ok? ==> (r.value.0.Vector? <==> toks[pos] == "[") && (r.value.0.Map? <==> toks[pos] == "{")
    ensures r.Ok? && r.value.0.Map? ==> |r.value.0.items| % 2 == 0
    decreases |toks| - pos, 1
  {
    if pos == |toks| then Err(TypeError("token is undefined"))
    else
      var tok := toks[pos];
      if tok == "(" then
        var s :- ReadSeq(toks, pos + 1, ")");
        Ok((List(s.0), s.1))
      else if tok == "[" then
        var s :- ReadSeq(toks, pos + 1, "]");
        Ok((Vector(s.0), s.1))
      else if tok == "{" then
        var s :- ReadSeq(toks, pos + 1, "}");
        if |s.0| % 2 != 0 then Err(OddMap) else Ok((Map(s.0), s.1))
      else if MacroName(tok) != "" then
        var f :- ReadForm(toks, pos + 1);
        Ok((List([Sym(MacroName(tok)), f.0]), f.1))
      else if tok == ";" then Ok((Nil, pos + 1))
      else Ok((ReadAtom(tok), pos + 1))
  }

  /** `read_seq` after its opener: forms up to the closer, which is consumed. */
  function ReadSeq(toks: seq<string>, pos: nat, closer: string): (r: Result<(seq<Value>, nat)>)
    requires pos <= |toks|
    ensures r.Ok? ==> pos < r.value.1 <= |toks| && toks[r.value.1 - 1] == closer
    ensures r.Ok? ==> |r.value.0| < r.value.1 - pos
    decreases |toks| - pos, 2
  {
    if pos == |toks| then Err(Unbalanced)
    else if toks[pos] == closer then Ok(([], pos + 1))
    else
      var f :- ReadForm(toks, pos);
      var s :- ReadSeq(toks, f.1, closer);
      Ok(([f.0] + s.0, s.1))
  }

  /** `read_str`: the first form of the input. */
  function ReadStr(s: string): Result<Value> {
    var f :- ReadForm(Tokenize(s), 0);
    Ok(f.0)
  }

  // ------------------------------------------------------ parser properties

  /** Tokens the parser dispatches on instead of classifying them as atoms. */
  predicate IsDispatchToken(tok: string) {
    tok in ["(", "[", "{", ";"] || MacroName(tok) != ""
  }

  /** A reader macro consumes its marker and exactly one form, and wraps it. */
  lemma ReaderMacro(toks: seq<string>, pos: nat)
    requires pos < |toks| && MacroName(toks[pos]) != ""
    ensures ReadForm(toks, pos).Ok? <==> ReadForm(toks, pos + 1).Ok?
    ensures ReadForm(toks, pos).Ok? ==>
      var inner := ReadForm(toks, pos + 1).value;
      ReadForm(toks, pos) == Ok((List([Sym(MacroName(toks[pos])), inner.0]), inner.1))
  {
  }

  /** A map literal holding an odd number of forms throws, even though
      every form in it was read. */
  lemma OddMapThrows(toks: seq<string>, pos: nat)
    requires pos < |toks| && toks[pos] == "{"
    requires ReadSeq(toks, pos + 1, "}").Ok? && |ReadSeq(toks, pos + 1, "}").value.0| % 2 != 0
    ensures ReadForm(toks, pos) == Err(OddMap)
  {
  }

  /** A bare `;` token reads as nil and consumes one token. */
  lemma CommentReadsNil(toks: seq<string>, pos: nat)
    requires pos < |toks| && toks[pos] == ";"
    ensures ReadForm(toks, pos) == Ok((Nil, pos + 1))
  {
  }

  /** Tokens after the first complete form are never looked at, so
      `read_str` returns the first form and ignores the rest. */
  lemma {:induction false} ReadFormIgnoresRest(toks: seq<string>, more: seq<string>, pos: nat)
    requires pos <= |toks|
    requires ReadForm(toks, pos).Ok?
    ensures ReadForm(toks + more, pos) == ReadForm(toks, pos)
    decreases |toks| - pos, 1
  {
    var tok := toks[pos];
    assert (toks + more)[pos] == tok;
    if tok == "(" {
      ReadSeqIgnoresRest(toks, more, pos + 1, ")");
    } else if tok == "[" {
      ReadSeqIgnoresRest(toks, more, pos + 1, "]");
    } else if tok == "{" {
      ReadSeqIgnoresRest(toks, more, pos + 1, "}");
    } else if MacroName(tok) != "" {
      ReadFormIgnoresRest(toks, more, pos + 1);
    }
  }

  lemma {:induction false} ReadSeqIgnoresRest(toks: seq<string>, more: seq<string>, pos: nat, closer: string)
    requires pos <= |toks|
    requires ReadSeq(toks, pos, closer).Ok?
    ensures ReadSeq(toks + more, pos, closer) == ReadSeq(toks, pos, closer)
    decreases |toks| - pos, 2
  {
    assert (toks + more)[pos] == toks[pos];
    if toks[pos] != closer {
      ReadFormIgnoresRest(toks, more, pos);
      var f := ReadForm(toks, pos).value;
      ReadSeqIgnoresRest(toks, more, f.1, closer);
    }
  }

  /** With no closer and no reader-macro marker left, a collection never
      closes: reading it fails with "unbalanced". */
  lemma {:induction false} ReadSeqUnbalanced(toks: seq<string>, pos: nat, closer: string)
    requires pos <= |toks| && closer in [")", "]", "}"]
    requires forall j | pos <= j < |toks| :: toks[j] !in [")", "]", "}"] && MacroName(toks[j]) == ""
    ensures ReadSeq(toks, pos, closer) == Err(Unbalanced)
    decreases |toks| - pos
  {
    if pos < |toks| {
      var tok := toks[pos];
      if tok in ["(", "[", "{"] {
        ReadSeqUnbalanced(toks, pos + 1, if tok == "(" then ")" else if tok == "[" then "]" else "}");
      } else {
        ReadSeqUnbalanced(toks, pos + 1, closer);
      }
    }
  }
}
