/**
 The Ruby values a configuration is built from, as a YAML parser hands them
 over: scalars, arrays and hashes. A Ruby `Hash` remembers insertion order
 and holds each key at most once; it is modelled here as its list of
 (key, value) pairs in iteration order, with the assignment `h[k] = v`
 written out as `Store`.
 */
module RubyValues {

  datatype Option<+T> = None | Some(value: T)

  /** A hash key: a Ruby String or a Ruby Symbol, each with its text. */
  datatype Key = StrKey(name: string) | SymKey(name: string)

  /** A plain Ruby value (no configuration objects inside). */
  datatype Raw =
    | Nil
    | Bool(b: bool)
    | Int(i: int)
    | Str(s: string)
    | Sym(name: string)
    | List(items: seq<Raw>)
    | Hash(pairs: seq<(Key, Raw)>)

  /** `key.to_sym`: a String becomes the Symbol with the same text, a Symbol stays. */
  function ToSym(k: Key): (r: Key)
    ensures r.SymKey? && r.name == k.name
    ensures k.SymKey? ==> r == k
  {
    SymKey(k.name)
  }

  /** The keys of an ordered hash. */
  function KeysOf<V>(h: seq<(Key, V)>): set<Key> {
    set i | 0 <= i < |h| :: h[i].0
  }

  /** No key occurs twice: what every genuine Ruby hash satisfies. */
  predicate DistinctKeys<V>(h: seq<(Key, V)>) {
    forall i, j :: 0 <= i < j < |h| ==> h[i].0 != h[j].0
  }

  /** The position of the first pair with key `k`, if there is one. */
  function IndexOf<V>(h: seq<(Key, V)>, k: Key): (r: Option<nat>)
    ensures r.None? <==> k !in KeysOf(h)
    ensures r.Some? ==> r.value < |h| && h[r.value].0 == k
    ensures r.Some? ==> forall j :: 0 <= j < r.value ==> h[j].0 != k
  {
    if h == [] then None
    else if h[0].0 == k then Some(0)
    else match IndexOf(h[1..], k)
      case None =>
        assert KeysOf(h) == {h[0].0} + KeysOf(h[1..]) by {
          forall x | x in KeysOf(h) ensures x in {h[0].0} + KeysOf(h[1..]) {
            var i :| 0 <= i < |h| && h[i].0 == x;
            if i > 0 { assert h[1..][i - 1].0 == x; }
          }
        }
        None
      case Some(i) => Some(i + 1)
  }

  /** `h[k]` for a hash: the value stored under `k`, or nothing. */
  function Lookup<V>(h: seq<(Key, V)>, k: Key): (r: Option<V>)
    ensures r.Some? <==> k in KeysOf(h)
    ensures r.Some? ==> exists i :: 0 <= i < |h| && h[i] == (k, r.value)
    ensures DistinctKeys(h) ==> forall i :: 0 <= i < |h| && h[i].0 == k ==> r == Some(h[i].1)
  {
    match IndexOf(h, k)
    case None => None
    case Some(i) => Some(h[i].1)
  }

  /** The first pair with key `k` is the one `IndexOf` finds. */
  lemma IndexOfFirst<V>(h: seq<(Key, V)>, k: Key, j: nat)
    requires j < |h| && h[j].0 == k
    requires forall m :: 0 <= m < j ==> h[m].0 != k
    ensures IndexOf(h, k) == Some(j)
  {
    assert k in KeysOf(h);
  }

  /**
   `h[k] = v`: a key already present keeps its position and takes the new
   value; a new key is appended at the end.
   */
  function Store<V>(h: seq<(Key, V)>, k: Key, v: V): (r: seq<(Key, V)>)
    ensures DistinctKeys(h) ==> DistinctKeys(r)
    ensures |r| == if k in KeysOf(h) then |h| else |h| + 1
    ensures forall i :: 0 <= i < |h| ==> r[i].0 == h[i].0
  {
    match IndexOf(h, k)
    case Some(i) => StoreExisting(h, k, v, i); h[i := (k, v)]
    case None => StoreAppended(h, k, v); h + [(k, v)]
  }

  /** After `h[k] = v` the keys are the old ones and `k`. */
  lemma StoreKeys<V>(h: seq<(Key, V)>, k: Key, v: V)
    ensures KeysOf(Store(h, k, v)) == KeysOf(h) + {k}
  {
    match IndexOf(h, k)
    case Some(i) => StoreExisting(h, k, v, i);
    case None => StoreAppended(h, k, v);
  }

  /** After `h[k] = v`, `h[k]` is `v`. */
  lemma StoreFinds<V>(h: seq<(Key, V)>, k: Key, v: V)
    ensures Lookup(Store(h, k, v), k) == Some(v)
  {
    match IndexOf(h, k)
    case Some(i) => StoreExisting(h, k, v, i);
    case None => StoreAppended(h, k, v);
  }

  /** `h[k] = v` leaves what every other key finds as it was. */
  lemma StoreOthers<V>(h: seq<(Key, V)>, k: Key, v: V)
    ensures forall k' :: k' != k ==> Lookup(Store(h, k, v), k') == Lookup(h, k')
  {
    match IndexOf(h, k)
    case Some(i) => StoreExisting(h, k, v, i);
    case None => StoreAppended(h, k, v);
  }

  /**
   `h[k] = v` pair by pair: every pair is the stored one or the pair that
   was at its position; a new key goes at the end.
   */
  lemma StoreElements<V>(h: seq<(Key, V)>, k: Key, v: V)
    ensures var r := Store(h, k, v);
            forall i :: 0 <= i < |r| ==> r[i] == (k, v) || (i < |h| && r[i] == h[i])
    ensures k !in KeysOf(h) ==> Store(h, k, v) == h + [(k, v)]
  {
    match IndexOf(h, k)
    case Some(i) => StoreExisting(h, k, v, i);
    case None => StoreAppended(h, k, v);
  }

  /** Overwriting the value of the key at position `i`. */
  lemma StoreExisting<V>(h: seq<(Key, V)>, k: Key, v: V, i: nat)
    requires IndexOf(h, k) == Some(i)
    ensures var r := h[i := (k, v)];
            && KeysOf(r) == KeysOf(h) + {k}
            && Lookup(r, k) == Some(v)
            && (forall k' :: k' != k ==> Lookup(r, k') == Lookup(h, k'))
            && (DistinctKeys(h) ==> DistinctKeys(r))
            && |r| == |h|
            && (forall j :: 0 <= j < |h| ==> r[j].0 == h[j].0)
            && (forall j :: 0 <= j < |r| ==> r[j] == (k, v) || (j < |h| && r[j] == h[j]))
  {
    var r := h[i := (k, v)];
    assert forall j :: 0 <= j < |h| ==> r[j].0 == h[j].0;
    assert KeysOf(r) == KeysOf(h);
    IndexOfFirst(r, k, i);
    forall k' | k' != k ensures Lookup(r, k') == Lookup(h, k') {
      var b := IndexOf(h, k');
      if b.Some? {
        IndexOfFirst(r, k', b.value);
      }
    }
  }

  /** Appending a key that is not present. */
  lemma StoreAppended<V>(h: seq<(Key, V)>, k: Key, v: V)
    requires IndexOf(h, k).None?
    ensures var r := h + [(k, v)];
            && KeysOf(r) == KeysOf(h) + {k}
            && Lookup(r, k) == Some(v)
            && (forall k' :: k' != k ==> Lookup(r, k') == Lookup(h, k'))
            && (DistinctKeys(h) ==> DistinctKeys(r))
            && |r| == |h| + 1
            && (forall j :: 0 <= j < |h| ==> r[j].0 == h[j].0)
            && (forall j :: 0 <= j < |r| ==> r[j] == (k, v) || (j < |h| && r[j] == h[j]))
  {
    var r := h + [(k, v)];
    assert r[|h|].0 == k;
    assert forall j :: 0 <= j < |h| ==> r[j].0 == h[j].0;
    assert KeysOf(r) == KeysOf(h) + {k};
    IndexOfFirst(r, k, |h|);
    forall k' | k' != k ensures Lookup(r, k') == Lookup(h, k') {
      var b := IndexOf(h, k');
      if b.Some? {
        IndexOfFirst(r, k', b.value);
      }
    }
    if DistinctKeys(h) {
      forall i, j | 0 <= i < j < |r| ensures r[i].0 != r[j].0 {
        if j == |h| { assert h[i].0 in KeysOf(h); }
      }
    }
  }

  /** The same hash with `f` applied to every value: keys and order are kept. */
  function MapValues<V, W>(h: seq<(Key, V)>, f: V -> W): (r: seq<(Key, W)>)
    ensures |r| == |h|
    ensures forall i :: 0 <= i < |h| ==> r[i] == (h[i].0, f(h[i].1))
    ensures KeysOf(r) == KeysOf(h)
    ensures DistinctKeys(h) ==> DistinctKeys(r)
  {
    var r := seq(|h|, i requires 0 <= i < |h| => (h[i].0, f(h[i].1)));
    assert forall i :: 0 <= i < |h| ==> r[i].0 == h[i].0;
    r
  }

  /** Assigning and then mapping the values is mapping and then assigning the mapped value. */
  lemma StoreMapValues<V, W>(h: seq<(Key, V)>, k: Key, v: V, f: V -> W)
    ensures MapValues(Store(h, k, v), f) == Store(MapValues(h, f), k, f(v))
  {
    var m := MapValues(h, f);
    var b := IndexOf(h, k);
    if b.Some? {
      IndexOfFirst(m, k, b.value);
    }
  }
}
