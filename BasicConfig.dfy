/**
 `BasicConfig`: a read-only tree view over a parsed configuration document.
 Construction symbolizes the keys of one hash level and replaces every
 nested hash by a child configuration that keeps the origin name and
 extends the dotted scope by its key and a '.'. Lookups never change the
 object, and all its fields are fixed once the constructor returns.

 Ruby's exceptions are the `Error` datatype; dynamic dispatch through
 `method_missing` is the explicit getter `Get`.
 */
module Config {
  import opened RubyValues
  import opened Symbolize

  /** The exceptions the configuration raises. */
  datatype Error =
    | ArgumentError(message: string)
      /** `BasicConfig::NotFound`, with the attributes it exposes. */
    | NotFound(name: string, scope: string, key: string)
      /** The receiver (not a Hash) has no method `methodName`. */
    | NoMethodError(methodName: string)
      /** An argument of the wrong type (a String index into an array or an integer). */
    | TypeError(message: string)

  datatype Result<+T> = Ok(value: T) | Err(error: Error)

  const NilHashMessage := "Hash can not be nil"
  const GetterArgumentsMessage := "Getter can not receive any arguments"
  const NoIntegerConversionMessage := "no implicit conversion of String into Integer"

  /**
   The message of `NotFound`: the fully qualified key `scope + key` between
   single quotes, followed by the name of the configuration's origin.
   */
  function NotFoundMessage(name: string, scope: string, key: string): (m: string)
    ensures |m| == 35 + |scope| + |key| + |name|
    ensures m[..19] == "Configuration key '"
    ensures m[18..20 + |scope| + |key|] == "'" + scope + key + "'"
    ensures m[20 + |scope| + |key|..|m| - |name|] == " is missing in "
    ensures m[|m| - |name|..] == name
  {
    var quoted := "'" + scope + key + "'";
    var m := "Configuration key " + quoted + " is missing in " + name;
    assert m == "Configuration key " + quoted + (" is missing in " + name);
    m
  }

  /** A value stored in a configuration: a plain Ruby value or a nested configuration. */
  datatype Value = Term(raw: Raw) | Child(config: BasicConfig)

  function AsTerm(x: Raw): Value {
    Term(x)
  }

  /** The plain values of entries that hold no configuration. */
  function Plain(h: seq<(Key, Value)>): (r: seq<(Key, Raw)>)
    requires forall i :: 0 <= i < |h| ==> h[i].1.Term?
    ensures |r| == |h|
    ensures forall i :: 0 <= i < |h| ==> h[i] == (r[i].0, Term(r[i].1))
  {
    seq(|h|, i requires 0 <= i < |h| => (h[i].0, h[i].1.raw))
  }

  /**
   The constructor's `each` loop over the symbolized entries `folded` of
   `input`: the entries in order, each hash value replaced, in place, by a
   child configuration built from it under the scope extended by its key
   and '.', every other value kept.
   */
  method WrapChildren(folded: seq<(Key, Raw)>, name: string, scope: string, ghost input: seq<(Key, Raw)>)
    returns (h: seq<(Key, Value)>, ghost d: nat)
    requires forall m :: 0 <= m < |folded| ==> folded[m].1 < Hash(input)
    ensures Builds(h, MapValues(folded, Symbolized), name, scope, d)
    decreases Hash(input), 0
  {
    ghost var target := MapValues(folded, Symbolized);
    h := MapValues(folded, AsTerm);
    d := 1;
    var j := 0;
    while j < |h|
      invariant 0 <= j <= |h| == |folded| == |target|
      invariant forall m :: 0 <= m < |h| ==> h[m].0 == target[m].0
      invariant forall m :: j <= m < |h| ==> h[m].1 == Term(folded[m].1)
      invariant forall m :: 0 <= m < j ==> Wraps(h[m].1, target[m].1, name, scope + target[m].0.name + ".", d)
    {
      var key := h[j].0;
      var value := h[j].1;
      if value.Term? && value.raw.Hash? {
        var child := new BasicConfig(value.raw.pairs, name, scope + key.name + ".");
        ghost var d' := if child.depth >= d then child.depth + 1 else d;
        ChildWraps(child, value.raw, name, scope + key.name + ".", d');
        WrapsExtended(h, target, name, scope, j, d, d', Child(child));
        h := h[j := (key, Child(child))];
        d := d';
      } else {
        WrapsKept(h, target, name, scope, j, d);
      }
      j := j + 1;
    }
    BuildsFrom(h, target, name, scope, d);
  }

  /**
   How a configuration stores an entry whose symbolized value is `x`: a hash
   becomes a valid child configuration, lower than `bound` in the tree, with
   the given name and scope and `x` as its view; any other value is kept as
   it is.
   */
  ghost predicate Wraps(v: Value, x: Raw, name: string, scope: string, bound: nat)
    decreases bound, 0
  {
    if x.Hash? then
      && v.Child?
      && v.config.depth < bound
      && v.config.name == name
      && v.config.scope == scope
      && v.config.view == x
      && v.config.Valid()
    else
      v == Term(x)
  }

  /**
   The entries `h` are the ones a configuration named `name` at `scope`
   holds for the symbolized entries `table`: the same keys in the same order,
   each value wrapped as `Wraps` says under the scope extended by its key and
   a '.'.
   */
  ghost predicate Builds(h: seq<(Key, Value)>, table: seq<(Key, Raw)>, name: string, scope: string, bound: nat)
    decreases bound, 1
  {
    && |h| == |table|
    && forall i :: 0 <= i < |h| ==>
         && h[i].0 == table[i].0
         && Wraps(h[i].1, table[i].1, name, scope + table[i].0.name + ".", bound)
  }

  lemma WrapsHigher(v: Value, x: Raw, name: string, scope: string, bound: nat, bound': nat)
    requires Wraps(v, x, name, scope, bound) && bound <= bound'
    ensures Wraps(v, x, name, scope, bound')
  {
  }

  class BasicConfig {
    /** `@name`: the origin of the document (file name or construction site). */
    const name: string
    /** `@scope`: the dotted path from the root, each step ending in '.'. */
    const scope: string
    /** `@hash`: symbolized keys to values, nested hashes replaced by children. */
    const hash: seq<(Key, Value)>
    /** The configuration as a plain hash: its entries with every child replaced by the child's view. */
    ghost const view: Raw
    /** The height of the tree below this node, for termination. */
    ghost const depth: nat

    /**
     The object invariant: `view` is a hash with distinct Symbol keys, and
     the entries are the ones `Builds` says for it.
     */
    ghost predicate Valid()
      decreases depth, 2
    {
      && view.Hash?
      && SymbolKeys(view.pairs)
      && DistinctKeys(view.pairs)
      && Builds(hash, view.pairs, name, scope, depth)
    }

    /**
     `BasicConfig.new(input, configurationName, configurationScope)` for a
     non-nil hash (`New` adds the nil check and the default name). The view
     is the fully symbolized input.
     */
    constructor (input: seq<(Key, Raw)>, configurationName: string, configurationScope: string)
      ensures Valid()
      ensures name == configurationName && scope == configurationScope
      ensures view == Symbolized(Hash(input))
      decreases Hash(input), 1
    {
      // the `inject` fold: every pair stored under its symbol, later pairs overwriting earlier ones
      var folded := SymbolizeEntries(input);
      FoldedSmaller(input);
      // the `each` loop: every hash value replaced by a child configuration
      var h, d := WrapChildren(folded, configurationName, configurationScope, input);
      ConstructedView(input, folded, MapValues(folded, Symbolized));
      name := configurationName;
      scope := configurationScope;
      hash := h;
      view := Hash(MapValues(folded, Symbolized));
      depth := d;
    }

    /** `include?(key)`: whether `key` (a Symbol, to be found) is stored. */
    predicate Includes(key: Key)
      ensures Includes(key) <==> exists i :: 0 <= i < |hash| && hash[i].0 == key
    {
      Lookup(hash, key).Some?
    }

    /** `self[key]`: the stored value, or nil when `key` is not stored; never fails. */
    function Index(key: Key): (r: Value)
      ensures Includes(key) ==> exists i :: 0 <= i < |hash| && hash[i] == (key, r)
      ensures !Includes(key) ==> r == Term(Nil)
    {
      match Lookup(hash, key)
      case Some(v) => v
      case None => Term(Nil)
    }

    /**
     The getter `config.meth(*args, &block)` that `method_missing` provides:
     the stored value for a present key called bare; an `ArgumentError` for a
     present key called with arguments or a block; `NotFound` for an absent
     key, whatever the arguments.
     */
    function Get(meth: string, args: seq<Raw>, hasBlock: bool): (r: Result<Value>)
      ensures r.Ok? <==> Includes(SymKey(meth)) && args == [] && !hasBlock
      ensures r.Ok? ==> r.value == Index(SymKey(meth))
      ensures Includes(SymKey(meth)) && (args != [] || hasBlock) ==> r == Err(ArgumentError(GetterArgumentsMessage))
      ensures !Includes(SymKey(meth)) ==> r == Err(NotFound(name, scope, meth))
    {
      if Includes(SymKey(meth)) then
        if args != [] || hasBlock then Err(ArgumentError(GetterArgumentsMessage))
        else Ok(Index(SymKey(meth)))
      else
        Err(NotFound(name, scope, meth))
    }

    /**
     `respond_to?(meth)`: true for every stored key; otherwise the answer
     `inherited` of Ruby's own `respond_to?`, which is a parameter here.
     */
    function RespondsTo(meth: Key, inherited: bool): (r: bool)
      ensures Includes(meth) ==> r
      ensures !inherited ==> (r <==> Includes(meth))
    {
      Includes(meth) || inherited
    }

    /**
     `to_hash`: a copy of the entries in which every child configuration is
     replaced by its own `to_hash`; this is the view, so for a configuration
     built from `input` it is `Symbolized(Hash(input))`.
     */
    method ToHash() returns (r: Raw)
      requires Valid()
      ensures r == view
      decreases depth
    {
      var h := hash;
      var j := 0;
      while j < |h|
        invariant 0 <= j <= |h| == |hash| == |view.pairs|
        invariant forall m :: 0 <= m < j ==> h[m] == (view.pairs[m].0, Term(view.pairs[m].1))
        invariant forall m :: j <= m < |h| ==> h[m] == hash[m]
      {
        EntryOf(this, j);
        if h[j].1.Child? {
          var x := h[j].1.config.ToHash();
          h := h[j := (h[j].0, Term(x))];
        }
        j := j + 1;
      }
      assert Plain(h) == view.pairs;
      r := Hash(Plain(h));
    }
  }

  /** The item as a hash key, when it answers `to_sym`: only Strings and Symbols do. */
  function KeyOf(x: Raw): (r: Option<Key>)
    ensures r.Some? <==> x.Str? || x.Sym?
    ensures x.Str? ==> r == Some(StrKey(x.s))
    ensures x.Sym? ==> r == Some(SymKey(x.name))
  {
    match x
    case Str(s) => Some(StrKey(s))
    case Sym(s) => Some(SymKey(s))
    case _ => None
  }

  /**
   How the block parameters `(key, value)` take one item of an array apart:
   an array item gives its first two elements, nil standing for a missing
   one; any other item is the key, with a nil value.
   */
  function Destructure(item: Raw): (r: (Raw, Raw))
    ensures item.List? && |item.items| >= 2 ==> r == (item.items[0], item.items[1])
    ensures !item.List? ==> r == (item, Nil)
    ensures item.List? && |item.items| < 2 ==>
              r.1 == Nil && r.0 == (if item.items == [] then Nil else item.items[0])
  {
    match item
    case List(xs) => (if |xs| > 0 then xs[0] else Nil, if |xs| > 1 then xs[1] else Nil)
    case _ => (item, Nil)
  }

  /**
   The pairs `inject` sees when the document is an array: one pair per item,
   in order; an item whose key has no `to_sym` makes the whole fold fail.
   */
  function ArrayPairs(items: seq<Raw>): (r: Result<seq<(Key, Raw)>>)
    ensures r.Ok? <==> forall i :: 0 <= i < |items| ==> KeyOf(Destructure(items[i]).0).Some?
    ensures r.Err? ==> r == Err(NoMethodError("to_sym"))
    ensures r.Ok? ==> |r.value| == |items|
    ensures r.Ok? ==> forall i :: 0 <= i < |items| ==>
              r.value[i].1 == Destructure(items[i]).1 && Some(r.value[i].0) == KeyOf(Destructure(items[i]).0)
  {
    if forall i :: 0 <= i < |items| ==> KeyOf(Destructure(items[i]).0).Some? then
      Ok(seq(|items|, i requires 0 <= i < |items| => (KeyOf(Destructure(items[i]).0).value, Destructure(items[i]).1)))
    else
      Err(NoMethodError("to_sym"))
  }

  /**
   The entries `inject` folds for the document `x`: a hash's own pairs, an
   array's items taken apart; nil is refused first, and anything else has
   no `inject`.
   */
  function InputPairs(x: Raw): (r: Result<seq<(Key, Raw)>>)
    ensures x.Nil? ==> r == Err(ArgumentError(NilHashMessage))
    ensures x.Hash? ==> r == Ok(x.pairs)
    ensures x.List? ==> r == ArrayPairs(x.items)
    ensures x.Bool? || x.Int? || x.Str? || x.Sym? ==> r == Err(NoMethodError("inject"))
  {
    match x
    case Nil => Err(ArgumentError(NilHashMessage))
    case Hash(pairs) => Ok(pairs)
    case List(items) => ArrayPairs(items)
    case _ => Err(NoMethodError("inject"))
  }

  /** The name a configuration gets: the one given, or the construction site. */
  function ConfigurationName(configurationName: Option<string>, callSite: string): (r: string)
    ensures configurationName.Some? ==> r == configurationName.value
    ensures configurationName.None? ==> |r| == 27 + |callSite| && r[..27] == "BasicConfig constructed at "
    ensures configurationName.None? ==> r[27..] == callSite
  {
    match configurationName
    case Some(n) => n
    case None => "BasicConfig constructed at " + callSite
  }

  /**
   `BasicConfig.new(hash, configurationName, configurationScope)`: nil is
   refused with an `ArgumentError`; a missing name becomes "BasicConfig
   constructed at " followed by the caller's location, given here as
   `callSite`; the view is the symbolized form of the pairs `inject` folds.
   */
  method New(hash: Raw, configurationName: Option<string>, callSite: string, configurationScope: string)
    returns (r: Result<BasicConfig>)
    ensures r.Ok? <==> InputPairs(hash).Ok?
    ensures r.Err? ==> r.error == InputPairs(hash).error
    ensures r.Ok? ==> && fresh(r.value) && r.value.Valid()
                      && r.value.view == Symbolized(Hash(InputPairs(hash).value))
                      && r.value.scope == configurationScope
                      && r.value.name == ConfigurationName(configurationName, callSite)
  {
    var pairs := InputPairs(hash);
    if pairs.Err? {
      r := Err(pairs.error);
    } else {
      var c := new BasicConfig(pairs.value, ConfigurationName(configurationName, callSite), configurationScope);
      r := Ok(c);
    }
  }

  /** `BasicConfig.load_file(name)`, with the parsed document given as `document`. */
  method LoadFile(name: string, document: Raw) returns (r: Result<BasicConfig>)
    ensures r.Ok? <==> InputPairs(document).Ok?
    ensures r.Err? ==> r.error == InputPairs(document).error
    ensures r.Ok? ==> && fresh(r.value) && r.value.Valid()
                      && r.value.view == Symbolized(Hash(InputPairs(document).value))
                      && r.value.name == name && r.value.scope == ""
  {
    r := New(document, Some(name), "", "");
  }

  /** Whether `t` occurs in `s` as a contiguous part. */
  predicate Contains(s: string, t: string)
    ensures Contains(s, t) ==> |t| <= |s|
    ensures |t| <= |s| && s[..|t|] == t ==> Contains(s, t)
    decreases |s|
  {
    |t| <= |s| && (s[..|t|] == t || Contains(s[1..], t))
  }

  /** `t` occurs in `s` starting at position `i`. */
  predicate OccursAt(s: string, t: string, i: int) {
    0 <= i && i + |t| <= |s| && s[i..i + |t|] == t
  }

  /** `Contains` finds exactly the texts that occur somewhere in `s`. */
  lemma {:induction false} ContainsAt(s: string, t: string)
    ensures Contains(s, t) <==> exists i :: OccursAt(s, t, i)
    decreases |s|
  {
    if |t| <= |s| && s[..|t|] != t {
      ContainsAt(s[1..], t);
      if Contains(s[1..], t) {
        var i :| OccursAt(s[1..], t, i);
        assert s[i + 1..i + 1 + |t|] == t;
        assert OccursAt(s, t, i + 1);
      }
      if exists i :: OccursAt(s, t, i) {
        var i :| OccursAt(s, t, i);
        assert i > 0;
        assert s[1..][i - 1..i - 1 + |t|] == t;
        assert OccursAt(s[1..], t, i - 1);
      }
    } else if |t| <= |s| {
      assert OccursAt(s, t, 0);
    }
  }

  /**
   `document[env]`, the section `load_env` picks: a hash gives the value
   under the String key `env`, or nil; a String or Symbol gives `env` itself
   when it occurs in the text, or nil; an array or an integer wants an
   integer index; nil and booleans have no `[]`.
   */
  function Section(document: Raw, env: string): (r: Result<Raw>)
    ensures document.Hash? ==> r.Ok? && (r.value == match Lookup(document.pairs, StrKey(env))
                                                     case Some(v) => v
                                                     case None => Nil)
    ensures document.Str? ==> r == Ok(if Contains(document.s, env) then Str(env) else Nil)
    ensures document.Sym? ==> r == Ok(if Contains(document.name, env) then Str(env) else Nil)
    ensures document.List? || document.Int? ==> r == Err(TypeError(NoIntegerConversionMessage))
    ensures document.Nil? || document.Bool? ==> r == Err(NoMethodError("[]"))
  {
    match document
    case Hash(pairs) =>
      (match Lookup(pairs, StrKey(env))
       case Some(v) => Ok(v)
       case None => Ok(Nil))
    case Str(s) => Ok(if Contains(s, env) then Str(env) else Nil)
    case Sym(s) => Ok(if Contains(s, env) then Str(env) else Nil)
    case List(_) => Err(TypeError(NoIntegerConversionMessage))
    case Int(_) => Err(TypeError(NoIntegerConversionMessage))
    case _ => Err(NoMethodError("[]"))
  }

  /**
   `BasicConfig.load_env(name, env)`, with the parsed document given as
   `document`: the section `document[env]`, scoped `env + '.'`. A missing
   section is nil, and so an `ArgumentError`.
   */
  method LoadEnv(name: string, env: string, document: Raw) returns (r: Result<BasicConfig>)
    ensures Section(document, env).Err? ==> r == Err(Section(document, env).error)
    ensures Section(document, env).Ok? ==>
              var section := Section(document, env).value;
              && (r.Ok? <==> InputPairs(section).Ok?)
              && (r.Err? ==> r.error == InputPairs(section).error)
              && (r.Ok? ==> && fresh(r.value) && r.value.Valid()
                            && r.value.view == Symbolized(Hash(InputPairs(section).value))
                            && r.value.name == name && r.value.scope == env + ".")
  {
    var section := Section(document, env);
    if section.Err? {
      r := Err(section.error);
    } else {
      r := New(section.value, Some(name), "", env + ".");
    }
  }

  /** `load_env` on a hash document without the section raises the nil `ArgumentError`. */
  lemma MissingSectionIsNil(document: Raw, env: string)
    requires document.Hash? && StrKey(env) !in KeysOf(document.pairs)
    ensures Section(document, env) == Ok(Nil)
    ensures InputPairs(Section(document, env).value) == Err(ArgumentError(NilHashMessage))
  {
  }

  /** The view the constructor gives: the input symbolized at every level, with distinct Symbol keys. */
  lemma ConstructedView(input: seq<(Key, Raw)>, folded: seq<(Key, Raw)>, target: seq<(Key, Raw)>)
    requires folded == SymbolizeKeys(input) && target == MapValues(folded, Symbolized)
    ensures Hash(target) == Symbolized(Hash(input))
    ensures SymbolKeys(target) && DistinctKeys(target)
  {
    SymbolizedHash(input);
  }

  /** A child built from the hash `x` wraps the symbolized `x`. */
  lemma ChildWraps(child: BasicConfig, x: Raw, name: string, scope: string, bound: nat)
    requires x.Hash? && child.Valid() && child.view == Symbolized(x)
    requires child.name == name && child.scope == scope && child.depth < bound
    ensures Wraps(Child(child), Symbolized(x), name, scope, bound)
  {
  }

  /**
   One step of the constructor's loop that stores the child `v` at position
   `j`: the entries before `j` keep their children, now under the larger bound.
   */
  lemma WrapsExtended(h: seq<(Key, Value)>, table: seq<(Key, Raw)>, name: string, scope: string,
                      j: nat, bound: nat, bound': nat, v: Value)
    requires j < |h| == |table| && bound <= bound'
    requires forall m :: 0 <= m < j ==> Wraps(h[m].1, table[m].1, name, scope + table[m].0.name + ".", bound)
    requires Wraps(v, table[j].1, name, scope + table[j].0.name + ".", bound')
    ensures forall m :: 0 <= m < j + 1 ==>
              Wraps(h[j := (h[j].0, v)][m].1, table[m].1, name, scope + table[m].0.name + ".", bound')
    ensures forall m :: 0 <= m < |h| ==> h[j := (h[j].0, v)][m].0 == h[m].0
    ensures forall m :: j < m < |h| ==> h[j := (h[j].0, v)][m] == h[m]
  {
    forall m | 0 <= m < j + 1
      ensures Wraps(h[j := (h[j].0, v)][m].1, table[m].1, name, scope + table[m].0.name + ".", bound')
    {
      if m < j {
        WrapsHigher(h[m].1, table[m].1, name, scope + table[m].0.name + ".", bound, bound');
      }
    }
  }

  /** One step of the constructor's loop that leaves a non-hash value at position `j` as it is. */
  lemma WrapsKept(h: seq<(Key, Value)>, table: seq<(Key, Raw)>, name: string, scope: string, j: nat, bound: nat)
    requires j < |h| == |table|
    requires forall m :: 0 <= m < j ==> Wraps(h[m].1, table[m].1, name, scope + table[m].0.name + ".", bound)
    requires h[j].1.Term? && !h[j].1.raw.Hash? && table[j].1 == h[j].1.raw
    ensures forall m :: 0 <= m < j + 1 ==> Wraps(h[m].1, table[m].1, name, scope + table[m].0.name + ".", bound)
  {
  }

  /** Every value the fold keeps is smaller than the input hash, so children are built from smaller hashes. */
  lemma FoldedSmaller(input: seq<(Key, Raw)>)
    ensures forall m :: 0 <= m < |SymbolizeKeys(input)| ==> SymbolizeKeys(input)[m].1 < Hash(input)
  {
    forall m | 0 <= m < |SymbolizeKeys(input)| ensures SymbolizeKeys(input)[m].1 < Hash(input) {
      var k := ValueOrigin(input, m);
      assert input[k].1 < Hash(input);
    }
  }

  /** `Builds`, from its conjuncts as the constructor's loop leaves them. */
  lemma BuildsFrom(h: seq<(Key, Value)>, table: seq<(Key, Raw)>, name: string, scope: string, bound: nat)
    requires |h| == |table|
    requires forall m :: 0 <= m < |h| ==> h[m].0 == table[m].0
    requires forall m :: 0 <= m < |h| ==> Wraps(h[m].1, table[m].1, name, scope + table[m].0.name + ".", bound)
    ensures Builds(h, table, name, scope, bound)
  {
  }

  /** Entry `m` of a valid configuration is entry `m` of its view, wrapped. */
  lemma EntryOf(c: BasicConfig, m: nat)
    requires c.Valid() && m < |c.hash|
    ensures |c.hash| == |c.view.pairs|
    ensures c.hash[m].0 == c.view.pairs[m].0
    ensures Wraps(c.hash[m].1, c.view.pairs[m].1, c.name, c.scope + c.view.pairs[m].0.name + ".", c.depth)
  {
  }

  /** The entries of a valid configuration carry exactly the keys of its view, each once. */
  lemma EntriesMatchView(c: BasicConfig)
    requires c.Valid()
    ensures DistinctKeys(c.hash)
    ensures KeysOf(c.hash) == KeysOf(c.view.pairs)
  {
    assert forall i :: 0 <= i < |c.hash| ==> c.hash[i].0 == c.view.pairs[i].0;
  }

  /** What a valid configuration holds at position `m`, seen through `[]`. */
  lemma IndexAt(c: BasicConfig, m: nat)
    requires c.Valid() && m < |c.hash|
    ensures c.Includes(c.hash[m].0) && c.Index(c.hash[m].0) == c.hash[m].1
  {
    EntriesMatchView(c);
  }

  /**
   `[]` agrees with `to_hash`: a key is stored exactly when the view has it,
   and then `[]` gives the view's value, wrapped as a child when it is a hash.
   */
  lemma IndexMatchesView(c: BasicConfig, key: Key)
    requires c.Valid()
    ensures c.Includes(key) <==> Lookup(c.view.pairs, key).Some?
    ensures c.Includes(key) ==>
              Wraps(c.Index(key), Lookup(c.view.pairs, key).value, c.name, c.scope + key.name + ".", c.depth)
  {
    EntriesMatchView(c);
    if c.Includes(key) {
      var m :| 0 <= m < |c.hash| && c.hash[m] == (key, c.Index(key));
      EntryOf(c, m);
    }
  }

  /** `include?` is true exactly for the symbols of the keys the configuration was built from. */
  lemma IncludesExactlyInputKeys(c: BasicConfig, input: seq<(Key, Raw)>, key: Key)
    requires c.Valid() && c.view == Symbolized(Hash(input))
    ensures c.Includes(key) <==> key.SymKey? && exists i :: 0 <= i < |input| && input[i].0.name == key.name
  {
    IndexMatchesView(c, key);
    SymbolizedKeys(input);
    if key.SymKey? && exists i :: 0 <= i < |input| && input[i].0.name == key.name {
      var i :| 0 <= i < |input| && input[i].0.name == key.name;
      assert ToSym(input[i].0) == key;
    }
    if c.Includes(key) {
      var i :| 0 <= i < |input| && ToSym(input[i].0) == key;
    }
  }

  /**
   `[]` on the symbol of the last input key with text `s`: the input value
   itself when it is not a hash (arrays included, their inner hashes left as
   they are), and otherwise a valid child built from it, with the same name
   and the scope extended by `s` and '.'.
   */
  lemma IndexFromSource(c: BasicConfig, input: seq<(Key, Raw)>, s: string, i: nat)
    requires c.Valid() && c.view == Symbolized(Hash(input))
    requires i < |input| && input[i].0.name == s
    requires forall j :: i < j < |input| ==> input[j].0.name != s
    ensures c.Includes(SymKey(s))
    ensures !input[i].1.Hash? ==> c.Index(SymKey(s)) == Term(input[i].1)
    ensures input[i].1.Hash? ==>
              && c.Index(SymKey(s)).Child?
              && var d := c.Index(SymKey(s)).config;
              && d.Valid() && d.name == c.name && d.scope == c.scope + s + "."
              && d.view == Symbolized(input[i].1)
  {
    var table := SymbolizeKeys(input);
    LaterKeyWins(input, s, i);
    var m :| 0 <= m < |table| && table[m] == (SymKey(s), input[i].1);
    SymbolizedHash(input);
    assert c.view.pairs[m] == (SymKey(s), Symbolized(input[i].1));
    EntryOf(c, m);
    IndexAt(c, m);
  }

  /**
   A child reached through `[]` is valid, carries the parent's name, extends
   the parent's scope by its key and '.', and is lower in the tree.
   */
  lemma ChildOf(c: BasicConfig, key: Key)
    requires c.Valid() && c.Index(key).Child?
    ensures var d := c.Index(key).config;
            d.Valid() && d.name == c.name && d.scope == c.scope + key.name + "." && d.depth < c.depth
  {
    var m :| 0 <= m < |c.hash| && c.hash[m] == (key, c.Index(key));
    EntryOf(c, m);
  }

  /** `path` written as a dotted scope: every step followed by '.'. */
  function Dotted(path: seq<string>): string {
    if path == [] then "" else path[0] + "." + Dotted(path[1..])
  }

  /** The configuration reached by the chain of bare getters `c.path[0].path[1]...`, if every step is a child. */
  function Descend(c: BasicConfig, path: seq<string>): (r: Option<BasicConfig>)
    requires c.Valid()
    ensures r.Some? ==> r.value.Valid()
    decreases path
  {
    if path == [] then Some(c)
    else match c.Get(path[0], [], false)
      case Ok(Child(d)) =>
        ChildOf(c, SymKey(path[0]));
        Descend(d, path[1..])
      case _ => None
  }

  /**
   The tree invariant: every configuration reached from `c` by getters has
   `c`'s name, and its scope is `c`'s scope followed by the dotted path.
   */
  lemma {:induction false} ScopeOfPath(c: BasicConfig, path: seq<string>)
    requires c.Valid() && Descend(c, path).Some?
    ensures Descend(c, path).value.name == c.name
    ensures Descend(c, path).value.scope == c.scope + Dotted(path)
  {
    if path != [] {
      var d := c.Get(path[0], [], false).value.config;
      ChildOf(c, SymKey(path[0]));
      ScopeOfPath(d, path[1..]);
    }
  }

  /**
   A missing key asked of a nested configuration raises `NotFound` with the
   root's name and the full dotted path, so that its message quotes
   `root scope + path + key` and ends with the root's name.
   */
  lemma MissingKeyReportsPath(c: BasicConfig, path: seq<string>, key: string, args: seq<Raw>, hasBlock: bool)
    requires c.Valid() && Descend(c, path).Some?
    requires !Descend(c, path).value.Includes(SymKey(key))
    ensures Descend(c, path).value.Get(key, args, hasBlock) == Err(NotFound(c.name, c.scope + Dotted(path), key))
  {
    ScopeOfPath(c, path);
  }
}
