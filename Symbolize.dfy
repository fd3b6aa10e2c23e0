/**
 Key symbolization, the normal form a configuration gives its keys.
 `SymbolizeKeys` is the constructor's `inject` fold over one hash level;
 `Symbolized` applies it to a whole document, descending into nested hashes
 (but not into arrays), and is the reference that `to_hash` is proved
 against.
 */
module Symbolize {
  import opened RubyValues

  /** The symbols the keys of `p` turn into under `to_sym`. */
  function Symbols<V>(p: seq<(Key, V)>): set<Key> {
    set i | 0 <= i < |p| :: ToSym(p[i].0)
  }

  /** Every key is a Symbol. */
  predicate SymbolKeys<V>(h: seq<(Key, V)>) {
    forall i :: 0 <= i < |h| ==> h[i].0.SymKey?
  }

  /**
   `p.inject({}) { |h, (key, value)| h[key.to_sym] = value; h }`: the pairs
   of `p` stored one after the other, in iteration order, under their symbols.
   */
  function SymbolizeKeys<V>(p: seq<(Key, V)>): (r: seq<(Key, V)>)
    ensures SymbolKeys(r) && DistinctKeys(r)
    ensures |r| <= |p|
  {
    if p == [] then []
    else
      var last := p[|p| - 1];
      var h := SymbolizeKeys(p[..|p| - 1]);
      StoreElements(h, ToSym(last.0), last.1);
      Store(h, ToSym(last.0), last.1)
  }

  /** The `inject` loop itself: the pairs of `input`, one by one, stored under their symbols. */
  method SymbolizeEntries<V>(input: seq<(Key, V)>) returns (folded: seq<(Key, V)>)
    ensures folded == SymbolizeKeys(input)
  {
    folded := [];
    var i := 0;
    while i < |input|
      invariant 0 <= i <= |input|
      invariant folded == SymbolizeKeys(input[..i])
    {
      SymbolizeKeysStep(input, i);
      folded := Store(folded, ToSym(input[i].0), input[i].1);
      i := i + 1;
    }
    assert input[..|input|] == input;
  }

  /** One more pair of the input is one more `Store` in the fold. */
  lemma SymbolizeKeysStep<V>(input: seq<(Key, V)>, i: nat)
    requires i < |input|
    ensures SymbolizeKeys(input[..i + 1]) == Store(SymbolizeKeys(input[..i]), ToSym(input[i].0), input[i].1)
  {
    assert input[..i + 1][..i] == input[..i];
  }

  /** After symbolization the key set is exactly the input's key set passed through `to_sym`. */
  lemma {:induction false} SymbolizeKeysKeys<V>(p: seq<(Key, V)>)
    ensures KeysOf(SymbolizeKeys(p)) == Symbols(p)
  {
    if p != [] {
      var init := p[..|p| - 1];
      SymbolizeKeysKeys(init);
      StoreKeys(SymbolizeKeys(init), ToSym(p[|p| - 1].0), p[|p| - 1].1);
      assert Symbols(p) == Symbols(init) + {ToSym(p[|p| - 1].0)} by {
        forall x | x in Symbols(p) ensures x in Symbols(init) + {ToSym(p[|p| - 1].0)} {
          var i :| 0 <= i < |p| && ToSym(p[i].0) == x;
          if i < |p| - 1 { assert init[i] == p[i]; }
        }
        forall x | x in Symbols(init) ensures x in Symbols(p) {
          var i :| 0 <= i < |init| && ToSym(init[i].0) == x;
          assert p[i] == init[i];
        }
      }
    }
  }

  /** Symbolized hashes have Symbol keys only, so a String key finds nothing. */
  lemma StringKeyAbsent<V>(p: seq<(Key, V)>, s: string)
    ensures Lookup(SymbolizeKeys(p), StrKey(s)) == None
  {
    var r := SymbolizeKeys(p);
    assert forall i :: 0 <= i < |r| ==> r[i].0 != StrKey(s);
  }

  /** A symbol is present after symbolization exactly when some input key has its text. */
  lemma SymbolPresent<V>(p: seq<(Key, V)>, s: string)
    ensures Lookup(SymbolizeKeys(p), SymKey(s)).Some? <==> exists i :: 0 <= i < |p| && p[i].0.name == s
  {
    SymbolizeKeysKeys(p);
    if SymKey(s) in Symbols(p) {
      var i :| 0 <= i < |p| && ToSym(p[i].0) == SymKey(s);
      assert p[i].0.name == s;
    }
    if exists i :: 0 <= i < |p| && p[i].0.name == s {
      var i :| 0 <= i < |p| && p[i].0.name == s;
      assert ToSym(p[i].0) == SymKey(s);
    }
  }

  /**
   When several input keys share a symbol (`"a"` and `:a`), the value of
   the last of them in iteration order is the one kept.
   */
  lemma {:induction false} LaterKeyWins<V>(p: seq<(Key, V)>, s: string, i: nat)
    requires i < |p| && p[i].0.name == s
    requires forall j :: i < j < |p| ==> p[j].0.name != s
    ensures Lookup(SymbolizeKeys(p), SymKey(s)) == Some(p[i].1)
  {
    var init := p[..|p| - 1];
    if i < |p| - 1 {
      assert init[i] == p[i];
      assert forall j :: i < j < |init| ==> init[j] == p[j];
      LaterKeyWins(init, s, i);
      assert ToSym(p[|p| - 1].0) != SymKey(s);
      StoreOthers(SymbolizeKeys(init), ToSym(p[|p| - 1].0), p[|p| - 1].1);
    } else {
      StoreFinds(SymbolizeKeys(init), ToSym(p[|p| - 1].0), p[|p| - 1].1);
    }
  }

  /** Every value kept by the fold is the value of some input pair. */
  lemma {:induction false} SymbolizeKeysValues<V>(p: seq<(Key, V)>)
    ensures forall j :: 0 <= j < |SymbolizeKeys(p)| ==>
              exists i :: 0 <= i < |p| && SymbolizeKeys(p)[j].1 == p[i].1
  {
    if p != [] {
      var init := p[..|p| - 1];
      var h := SymbolizeKeys(init);
      var r := SymbolizeKeys(p);
      SymbolizeKeysValues(init);
      StoreElements(h, ToSym(p[|p| - 1].0), p[|p| - 1].1);
      forall j | 0 <= j < |r| ensures exists i :: 0 <= i < |p| && r[j].1 == p[i].1 {
        if r[j].1 == p[|p| - 1].1 {
          assert 0 <= |p| - 1 < |p|;
        } else {
          assert r[j] == h[j];
          var i :| 0 <= i < |init| && h[j].1 == init[i].1;
          assert p[i] == init[i];
        }
      }
      assert forall j :: 0 <= j < |r| ==> exists i :: 0 <= i < |p| && r[j].1 == p[i].1;
    } else {
      assert SymbolizeKeys(p) == [];
    }
  }

  /** The input pair the value at position `j` of the fold comes from. */
  lemma ValueOrigin<V>(p: seq<(Key, V)>, j: nat) returns (i: nat)
    requires j < |SymbolizeKeys(p)|
    ensures i < |p| && SymbolizeKeys(p)[j].1 == p[i].1
  {
    SymbolizeKeysValues(p);
    i :| 0 <= i < |p| && SymbolizeKeys(p)[j].1 == p[i].1;
  }

  /** Symbolization only moves values around, so it commutes with mapping them. */
  lemma {:induction false} SymbolizeKeysMapValues<V, W>(p: seq<(Key, V)>, f: V -> W)
    ensures SymbolizeKeys(MapValues(p, f)) == MapValues(SymbolizeKeys(p), f)
  {
    if p != [] {
      var init := p[..|p| - 1];
      var q := MapValues(p, f);
      assert q[..|q| - 1] == MapValues(init, f);
      SymbolizeKeysMapValues(init, f);
      StoreMapValues(SymbolizeKeys(init), ToSym(p[|p| - 1].0), p[|p| - 1].1, f);
    }
  }

  /** Every key of `p` turned into its symbol, values and order kept. */
  function KeysToSym<V>(p: seq<(Key, V)>): (r: seq<(Key, V)>)
    ensures |r| == |p| && forall i :: 0 <= i < |p| ==> r[i] == (ToSym(p[i].0), p[i].1)
  {
    seq(|p|, i requires 0 <= i < |p| => (ToSym(p[i].0), p[i].1))
  }

  /** No two keys have the same text (so no two collide under `to_sym`). */
  predicate DistinctNames<V>(p: seq<(Key, V)>) {
    forall i, j :: 0 <= i < j < |p| ==> p[i].0.name != p[j].0.name
  }

  /** Without collisions the fold only turns every key into its symbol, in the same order. */
  lemma {:induction false} SymbolizeKeysDistinct<V>(p: seq<(Key, V)>)
    requires DistinctNames(p)
    ensures SymbolizeKeys(p) == KeysToSym(p)
  {
    if p != [] {
      DistinctNamesInit(p);
      SymbolizeKeysDistinct(p[..|p| - 1]);
      LastSymbolNew(p);
      SymbolizeKeysDistinctStep(p);
    }
  }

  lemma DistinctNamesInit<V>(p: seq<(Key, V)>)
    requires DistinctNames(p) && p != []
    ensures DistinctNames(p[..|p| - 1])
  {
    var init := p[..|p| - 1];
    forall i, j | 0 <= i < j < |init| ensures init[i].0.name != init[j].0.name {
      assert init[i] == p[i] && init[j] == p[j];
    }
  }

  /** The last pair of a collision-free input is appended under its symbol. */
  lemma SymbolizeKeysDistinctStep<V>(p: seq<(Key, V)>)
    requires p != [] && ToSym(p[|p| - 1].0) !in KeysOf(KeysToSym(p[..|p| - 1]))
    requires SymbolizeKeys(p[..|p| - 1]) == KeysToSym(p[..|p| - 1])
    ensures SymbolizeKeys(p) == KeysToSym(p)
  {
    var q := KeysToSym(p[..|p| - 1]);
    var k := ToSym(p[|p| - 1].0);
    var v := p[|p| - 1].1;
    KeysToSymLast(p);
    assert SymbolizeKeys(p) == Store(q, k, v);
    StoreElements(q, k, v);
  }

  lemma KeysToSymLast<V>(p: seq<(Key, V)>)
    requires p != []
    ensures KeysToSym(p) == KeysToSym(p[..|p| - 1]) + [(ToSym(p[|p| - 1].0), p[|p| - 1].1)]
  {
    assert forall i :: 0 <= i < |p| - 1 ==> p[..|p| - 1][i] == p[i];
  }

  /** In a collision-free input, the symbol of the last key is not among the earlier ones. */
  lemma LastSymbolNew<V>(p: seq<(Key, V)>)
    requires DistinctNames(p) && p != []
    ensures ToSym(p[|p| - 1].0) !in KeysOf(KeysToSym(p[..|p| - 1]))
  {
    var q := KeysToSym(p[..|p| - 1]);
    forall i | 0 <= i < |q| ensures q[i].0 != ToSym(p[|p| - 1].0) {
      assert q[i].0 == ToSym(p[i].0);
    }
  }

  /** Without collisions, `Symbolized` turns every key into its symbol and symbolizes every value, in order. */
  lemma SymbolizedDistinct(p: seq<(Key, Raw)>)
    requires DistinctNames(p)
    ensures Symbolized(Hash(p)) == Hash(MapValues(KeysToSym(p), Symbolized))
  {
    SymbolizedHash(p);
    SymbolizeKeysDistinct(p);
  }

  /** A hash that already has distinct Symbol keys is left exactly as it is, order included. */
  lemma {:induction false} SymbolizeKeysOfSymbolized<V>(h: seq<(Key, V)>)
    requires SymbolKeys(h) && DistinctKeys(h)
    ensures SymbolizeKeys(h) == h
  {
    if h != [] {
      var init := h[..|h| - 1];
      var last := h[|h| - 1];
      SymbolizeKeysOfSymbolized(init);
      assert ToSym(last.0) == last.0;
      assert last.0 !in KeysOf(init);
      StoreElements(init, last.0, last.1);
      assert init + [last] == h;
    }
  }

  /**
   The fully symbolized form of a parsed document: every hash, at every
   depth reached through hashes, has its keys symbolized; every other value,
   an array included, is kept as it is.
   */
  function Symbolized(x: Raw): (r: Raw)
    ensures r.Hash? <==> x.Hash?
    ensures !x.Hash? ==> r == x
  {
    match x
    case Hash(pairs) =>
      Hash(SymbolizeKeys(seq(|pairs|, i requires 0 <= i < |pairs| => (pairs[i].0, Symbolized(pairs[i].1)))))
    case _ => x
  }

  /** One level of `Symbolized`: symbolize the keys, then symbolize every kept value. */
  lemma SymbolizedHash(pairs: seq<(Key, Raw)>)
    ensures Symbolized(Hash(pairs)) == Hash(MapValues(SymbolizeKeys(pairs), Symbolized))
  {
    var q := seq(|pairs|, i requires 0 <= i < |pairs| => (pairs[i].0, Symbolized(pairs[i].1)));
    assert q == MapValues(pairs, Symbolized);
    SymbolizeKeysMapValues(pairs, Symbolized);
  }

  /** The key set of a symbolized hash is the input's key set passed through `to_sym`. */
  lemma SymbolizedKeys(pairs: seq<(Key, Raw)>)
    ensures KeysOf(Symbolized(Hash(pairs)).pairs) == Symbols(pairs)
  {
    SymbolizedHash(pairs);
    var h := SymbolizeKeys(pairs);
    SymbolizeKeysKeys(pairs);
  }

  /** Mapping values that `Symbolized` already fixes leaves a hash as it is. */
  lemma MapValuesFixed(h: seq<(Key, Raw)>)
    requires forall j :: 0 <= j < |h| ==> Symbolized(h[j].1) == h[j].1
    ensures MapValues(h, Symbolized) == h
  {
  }

  /**
   If `Symbolized` is idempotent on every value of `p`, it fixes every value
   of the symbolized hash built from `p`.
   */
  lemma SymbolizedValuesFixed(p: seq<(Key, Raw)>)
    requires forall i :: 0 <= i < |p| ==> Symbolized(Symbolized(p[i].1)) == Symbolized(p[i].1)
    ensures MapValues(MapValues(SymbolizeKeys(p), Symbolized), Symbolized) == MapValues(SymbolizeKeys(p), Symbolized)
  {
    var h := SymbolizeKeys(p);
    var once := MapValues(h, Symbolized);
    forall j | 0 <= j < |once| ensures Symbolized(once[j].1) == once[j].1 {
      var i := ValueOrigin(p, j);
    }
    MapValuesFixed(once);
  }

  /** Symbolizing twice is symbolizing once. */
  lemma {:induction false} SymbolizedIdempotent(x: Raw)
    ensures Symbolized(Symbolized(x)) == Symbolized(x)
  {
    if x.Hash? {
      var p := x.pairs;
      var once := MapValues(SymbolizeKeys(p), Symbolized);
      forall i | 0 <= i < |p| ensures Symbolized(Symbolized(p[i].1)) == Symbolized(p[i].1) {
        SymbolizedIdempotent(p[i].1);
      }
      assert SymbolKeys(once);
      calc {
        Symbolized(Symbolized(x));
        { SymbolizedHash(p); }
        Symbolized(Hash(once));
        { SymbolizedHash(once); }
        Hash(MapValues(SymbolizeKeys(once), Symbolized));
        { SymbolizeKeysOfSymbolized(once); }
        Hash(MapValues(once, Symbolized));
        { SymbolizedValuesFixed(p); }
        Hash(once);
        { SymbolizedHash(p); }
        Symbolized(x);
      }
    }
  }
}
