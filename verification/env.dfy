/** The environment chain (impls/sakshi/env.js), as a store of frames
    addressed by index. A frame holds its own bindings and the index of its
    outer frame; frames only ever point to older frames, so closures can
    share a frame without any cycle. */
module Env {
  import opened Results
  import opened Types
  import opened Printer

  datatype Frame = Frame(data: map<string, Value>, outer: Option<nat>)

  type Store = seq<Frame>

  /** Every outer link points to an older frame. */
  predicate WellFormed(store: Store) {
    forall i | 0 <= i < |store| :: PointsBack(store, i)
  }

  /** Frame `i` has no outer link or one to an older frame. */
  predicate PointsBack(store: Store, i: nat)
    requires i < |store|
  {
    store[i].outer.Some? ==> store[i].outer.value < i
  }

  /** Frame `g` satisfies the lookup test of `find`: the name is bound there
      to a truthy value. */
  predicate Holds(store: Store, g: nat, key: string)
    requires g < |store|
  {
    key in store[g].data && Truthy(store[g].data[key])
  }

  /** The frames visited from `f` by following outer links, innermost first. */
  function Chain(store: Store, f: nat): (c: seq<nat>)
    requires WellFormed(store) && f < |store|
    ensures |c| > 0 && c[0] == f
    ensures forall j | 0 <= j < |c| :: c[j] <= f && c[j] < |store|
    decreases f
  {
    match store[f].outer
    case None => [f]
    case Some(o) => assert PointsBack(store, f); [f] + Chain(store, o)
  }

  /** The frame table built by binding `keys[i]` to `args[i]` in order; an
      argument past the end of `args` is undefined. */
  function BindAll(keys: seq<string>, args: seq<Value>): (r: map<string, Value>)
    ensures forall k :: k in r <==> k in keys
    decreases |keys|
  {
    if |keys| == 0 then map[]
    else
      var n := |keys| - 1;
      assert forall k :: k in keys <==> k in keys[..n] || k == keys[n];
      BindAll(keys[..n], args)[keys[n] := At(args, n)]
  }

  /** Of two equal keys the later one wins: a key bound at position `i` and
      never again holds `args[i]`. */
  lemma {:induction false} BindAllLastWins(keys: seq<string>, args: seq<Value>, i: nat)
    requires i < |keys|
    requires forall j | i < j < |keys| :: keys[j] != keys[i]
    ensures BindAll(keys, args)[keys[i]] == At(args, i)
    decreases |keys|
  {
    var n := |keys| - 1;
    if i < n {
      assert keys[..n][i] == keys[i];
      assert forall j | i < j < n :: keys[..n][j] == keys[j];
      BindAllLastWins(keys[..n], args, i);
    }
  }

  /** The property key `String(v.value)` under which `data[v.value]` stores
      a binding. A symbol's key is its name; a list used as a name keys by
      `String` of its bare element array, so every list of plain objects of
      the same length shares one key. */
  function KeyOf(v: Value, cells: seq<Value>): (r: Result<string>)
    ensures v.Sym? || v.Kw? ==> r == Ok(v.name)
    ensures v.Str? ==> r == Ok(v.str)
    ensures v.Int? ==> r == Ok(IntToString(v.i))
    ensures v.Undefined? ==> r.Err? && r.error.TypeError?
    ensures IsSeq(v) || v.Map? ==> r == (var ps :- ElementStrings(v.items); Ok(Join(ps, ",")))
  {
    var h :- PayloadOf(v, cells);
    HostString(h)
  }

  /** `(def! (a) 1)` and `(def! (b) 2)` bind the same key: a one-element
      list of a symbol keys by the symbol object's `[object Object]`. */
  lemma SequenceKeys(x: string, y: string, cells: seq<Value>)
    ensures KeyOf(List([Sym(x)]), cells) == Ok(ObjectTag)
    ensures KeyOf(List([Sym(x)]), cells) == KeyOf(List([Sym(y)]), cells)
  {
    var es := ElementStrings([Sym(x)]);
    assert es.Ok? && es.value == [ObjectTag];
    var fs := ElementStrings([Sym(y)]);
    assert fs.Ok? && fs.value == [ObjectTag];
  }

  /** The property keys of the binding symbols, in order. */
  function KeysOf(binds: seq<Value>, cells: seq<Value>): (r: Result<seq<string>>)
    ensures r.Ok? ==> |r.value| == |binds|
  {
    if |binds| == 0 then Ok([])
    else
      var k :- KeyOf(binds[0], cells);
      var ks :- KeysOf(binds[1..], cells);
      Ok([k] + ks)
  }

  /** The keys are those of the binding symbols one by one, and the keys
      fail exactly when one of the symbols has no key. */
  lemma {:induction false} KeysOfElementwise(binds: seq<Value>, cells: seq<Value>)
    ensures KeysOf(binds, cells).Ok? ==>
      forall i | 0 <= i < |binds| :: KeyOf(binds[i], cells) == Ok(KeysOf(binds, cells).value[i])
    ensures KeysOf(binds, cells).Err? <==> exists i | 0 <= i < |binds| :: KeyOf(binds[i], cells).Err?
  {
    if |binds| > 0 {
      KeysOfElementwise(binds[1..], cells);
      assert forall i | 1 <= i < |binds| :: binds[i] == binds[1..][i - 1];
    }
  }

  /** `new Env(outer, binds, args)`: a new frame at the end of the store whose
      outer link is `outer`, binding `binds[i]` to `args[i]` for every
      `i < |binds|`. There is no length check: surplus arguments are ignored
      and missing ones bind to undefined. */
  function NewEnv(store: Store, outer: Option<nat>, binds: seq<Value>, args: seq<Value>, cells: seq<Value>)
    : (r: Result<(Store, nat)>)
    requires WellFormed(store)
    requires outer.Some? ==> outer.value < |store|
    ensures r.Ok? <==> KeysOf(binds, cells).Ok?
    ensures r.Ok? ==>
      && WellFormed(r.value.0) && r.value.1 == |store| && |r.value.0| == |store| + 1
      && r.value.0[..|store|] == store
      && r.value.0[|store|] == Frame(BindAll(KeysOf(binds, cells).value, args), outer)
  {
    var keys :- KeysOf(binds, cells);
    var s := Push(store, Frame(BindAll(keys, args), outer));
    assert s[..|store|] == store;
    Ok((s, |store|))
  }

  /** A new frame at the end of the store. */
  function Push(store: Store, frame: Frame): (r: Store)
    requires WellFormed(store)
    requires frame.outer.Some? ==> frame.outer.value < |store|
    ensures WellFormed(r) && r == store + [frame]
  {
    var r := store + [frame];
    assert forall i | 0 <= i < |r| :: PointsBack(r, i) by {
      forall i | 0 <= i < |r|
        ensures PointsBack(r, i)
      {
        if i < |store| {
          assert PointsBack(store, i);
        }
      }
    }
    r
  }

  /** `set`: writes only the frame's own table; last write wins. */
  function Set(store: Store, f: nat, key: string, v: Value): (r: Store)
    requires f < |store|
    ensures |r| == |store|
    ensures r[f].data.Keys == store[f].data.Keys + {key} && r[f].data[key] == v
    ensures forall k | k in store[f].data && k != key :: r[f].data[k] == store[f].data[k]
    ensures r[f].outer == store[f].outer
    ensures forall g | 0 <= g < |store| && g != f :: r[g] == store[g]
    ensures WellFormed(store) ==> WellFormed(r)
  {
    var r := store[f := Frame(store[f].data[key := v], store[f].outer)];
    assert WellFormed(store) ==> forall i | 0 <= i < |r| :: PointsBack(r, i) by {
      if WellFormed(store) {
        forall i | 0 <= i < |r|
          ensures PointsBack(r, i)
        {
          assert PointsBack(store, i);
        }
      }
    }
    r
  }

  /** `find`: the innermost frame on the chain whose binding of `key` is
      truthy. A falsy binding counts as absent. */
  function Find(store: Store, f: nat, key: string): (r: Option<nat>)
    requires WellFormed(store) && f < |store|
    ensures r.Some? ==> r.value <= f && Holds(store, r.value, key)
    decreases f
  {
    if Holds(store, f, key) then Some(f)
    else match store[f].outer
      case None => None
      case Some(o) => assert PointsBack(store, f); Find(store, o, key)
  }

  /** `get`: the value in the frame `find` selects, or "<name> not found". */
  function Get(store: Store, f: nat, key: string): (r: Result<Value>)
    requires WellFormed(store) && f < |store|
    ensures r.Ok? <==> Find(store, f, key).Some?
    ensures r.Ok? ==> Truthy(r.value) && r.value == store[Find(store, f, key).value].data[key]
    ensures r.Err? ==> r.error == NotFound(key)
  {
    match Find(store, f, key)
    case Some(g) => Ok(store[g].data[key])
    case None => Err(NotFound(key))
  }

  // ------------------------------------------------------------ properties

  /** No frame of `c` holds the key. */
  predicate NoneHolds(store: Store, c: seq<nat>, key: string)
    requires forall j | 0 <= j < |c| :: c[j] < |store|
  {
    forall j | 0 <= j < |c| :: !Holds(store, c[j], key)
  }

  /** `find` selects the first frame of the chain that holds the key, and
      fails exactly when no frame of the chain holds it. */
  lemma {:induction false} FindFirstOnChain(store: Store, f: nat, key: string)
    requires WellFormed(store) && f < |store|
    ensures Find(store, f, key).None? <==> NoneHolds(store, Chain(store, f), key)
    ensures Find(store, f, key).Some? ==>
      exists i | 0 <= i < |Chain(store, f)| :: Chain(store, f)[i] == Find(store, f, key).value
        && NoneHolds(store, Chain(store, f)[..i], key)
    decreases f
  {
    var c := Chain(store, f);
    if Holds(store, f, key) {
      assert c[0] == f && c[..0] == [];
      assert NoneHolds(store, c[..0], key);
    } else if store[f].outer.None? {
      assert c == [f];
    } else {
      var o := store[f].outer.value;
      assert PointsBack(store, f);
      FindFirstOnChain(store, o, key);
      var c' := Chain(store, o);
      assert c == [f] + c';
      assert Find(store, f, key) == Find(store, o, key);
      ChainConsNoneHolds(store, f, c', key);
      if Find(store, f, key).Some? {
        var i' :| 0 <= i' < |c'| && c'[i'] == Find(store, o, key).value && NoneHolds(store, c'[..i'], key);
        assert c[..i' + 1] == [f] + c'[..i'];
        ChainConsNoneHolds(store, f, c'[..i'], key);
        assert c[i' + 1] == Find(store, f, key).value && NoneHolds(store, c[..i' + 1], key);
      }
    }
  }

  /** A frame that does not hold the key adds nothing to a chain of frames
      that do not hold it either. */
  lemma ChainConsNoneHolds(store: Store, f: nat, c: seq<nat>, key: string)
    requires f < |store| && !Holds(store, f, key)
    requires forall j | 0 <= j < |c| :: c[j] < |store|
    ensures NoneHolds(store, [f] + c, key) <==> NoneHolds(store, c, key)
  {
    assert forall j | 0 <= j < |c| :: ([f] + c)[j + 1] == c[j];
  }

  /** A falsy binding does not stop the lookup: it falls through to the
      outer frame. */
  lemma FalsyBindingFallsThrough(store: Store, f: nat, key: string)
    requires WellFormed(store) && f < |store|
    requires key in store[f].data && !Truthy(store[f].data[key])
    ensures store[f].outer.None? ==> Get(store, f, key) == Err(NotFound(key))
    ensures store[f].outer.Some? ==> store[f].outer.value < f && Get(store, f, key) == Get(store, store[f].outer.value, key)
  {
    assert PointsBack(store, f);
  }

  /** Lookups from frame `f` read only frames `0..f`. */
  lemma {:induction false} FindReadsOlderFrames(store: Store, store': Store, f: nat, key: string)
    requires WellFormed(store) && WellFormed(store') && f < |store| && f < |store'|
    requires forall g | 0 <= g <= f :: store'[g] == store[g]
    ensures Find(store', f, key) == Find(store, f, key)
    decreases f
  {
    if !Holds(store, f, key) && store[f].outer.Some? {
      assert PointsBack(store, f);
      FindReadsOlderFrames(store, store', store[f].outer.value, key);
    }
  }

  /** After `set`, a lookup in the same frame sees the new value when it is
      truthy, and otherwise continues in the outer frames as before. A
      binding of a child frame shadows every ancestor's. */
  lemma {:induction false} GetAfterSet(store: Store, f: nat, key: string, v: Value)
    requires WellFormed(store) && f < |store|
    ensures Truthy(v) ==> Get(Set(store, f, key, v), f, key) == Ok(v)
    ensures !Truthy(v) && store[f].outer.None? ==> Get(Set(store, f, key, v), f, key) == Err(NotFound(key))
    ensures !Truthy(v) && store[f].outer.Some? ==>
      store[f].outer.value < f && Get(Set(store, f, key, v), f, key) == Get(store, store[f].outer.value, key)
  {
    assert PointsBack(store, f);
    var s := Set(store, f, key, v);
    if !Truthy(v) && store[f].outer.Some? {
      var o := store[f].outer.value;
      FindReadsOlderFrames(store, s, o, key);
    }
  }

  /** A new frame sees its own truthy bindings first, and defers every other
      name to its outer frame. */
  lemma {:induction false} NewEnvLookup(store: Store, outer: nat, binds: seq<Value>, args: seq<Value>, cells: seq<Value>, key: string)
    requires WellFormed(store) && outer < |store|
    requires NewEnv(store, Some(outer), binds, args, cells).Ok?
    ensures var r := NewEnv(store, Some(outer), binds, args, cells).value;
      !Holds(r.0, r.1, key) ==> Get(r.0, r.1, key) == Get(store, outer, key)
  {
    var r := NewEnv(store, Some(outer), binds, args, cells).value;
    FindReadsOlderFrames(store, r.0, outer, key);
  }
}
