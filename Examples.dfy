/**
 The behaviour the repository's own examples describe, worked through on
 concrete documents: `to_hash` of the example document, the `'a'`/`:a`
 collision, and the section `load_env` picks.
 */
module Examples {
  import opened RubyValues
  import opened Symbolize
  import opened Config

  /** A one-pair hash `{s => v}` with a String value, such as the inner hash `{'nested' => '123'}`. */
  lemma SinglePairExample(p: seq<(Key, Raw)>, k: string, v: string)
    requires p == [(StrKey(k), Str(v))]
    ensures Symbolized(Hash(p)) == Hash([(SymKey(k), Str(v))])
  {
    SymbolizedDistinct(p);
    assert MapValues(KeysToSym(p), Symbolized) == [(SymKey(k), Str(v))];
  }

  /** The keys of the example document differ in their text. */
  lemma ExampleNamesDistinct(p: seq<(Key, Raw)>)
    requires |p| == 3 && p[0].0.name == "one" && p[1].0.name == "two" && p[2].0.name == "three"
    ensures DistinctNames(p)
  {
    forall i, j | 0 <= i < j < |p| ensures p[i].0.name != p[j].0.name {
      if i == 0 {
        assert p[i].0.name[0] == 'o' != p[j].0.name[0];
      } else {
        assert p[i].0.name[1] == 'w' != p[j].0.name[1];
      }
    }
  }

  /** `to_hash` of `{'one' => 'something', 'two' => 'other_value', 'three' => {'nested' => '123'}}` has Symbol keys at both levels. */
  lemma SymbolizedExample(p: seq<(Key, Raw)>, nested: seq<(Key, Raw)>)
    requires nested == [(StrKey("nested"), Str("123"))]
    requires |p| == 3
    requires p[0] == (StrKey("one"), Str("something")) && p[1] == (StrKey("two"), Str("other_value"))
    requires p[2] == (StrKey("three"), Hash(nested))
    ensures Symbolized(Hash(p))
         == Hash([(SymKey("one"), Str("something")), (SymKey("two"), Str("other_value")),
                  (SymKey("three"), Hash([(SymKey("nested"), Str("123"))]))])
  {
    SinglePairExample(nested, "nested", "123");
    ExampleNamesDistinct(p);
    SymbolizedDistinct(p);
    var q := KeysToSym(p);
    var r := MapValues(q, Symbolized);
    assert r[0] == (SymKey("one"), Str("something")) && r[1] == (SymKey("two"), Str("other_value"));
    assert r[2] == (SymKey("three"), Hash([(SymKey("nested"), Str("123"))]));
    assert r == [r[0], r[1], r[2]];
  }

  /** A configuration built from the example document converts back to the symbolized document, on every call. */
  method ToHashExample(p: seq<(Key, Raw)>, nested: seq<(Key, Raw)>) returns (first: Raw, second: Raw)
    requires nested == [(StrKey("nested"), Str("123"))]
    requires |p| == 3
    requires p[0] == (StrKey("one"), Str("something")) && p[1] == (StrKey("two"), Str("other_value"))
    requires p[2] == (StrKey("three"), Hash(nested))
    ensures first == second
    ensures first == Hash([(SymKey("one"), Str("something")), (SymKey("two"), Str("other_value")),
                           (SymKey("three"), Hash([(SymKey("nested"), Str("123"))]))])
  {
    var r := New(Hash(p), None, "basic_config_spec.rb:23", "");
    var c := r.value;
    first := c.ToHash();
    second := c.ToHash();
    SymbolizedExample(p, nested);
    GetterExample(c);
    NestedGetterExample(c);
    UnknownKeyExample(c);
    RespondsToExample(c);
  }

  /** The view of a configuration built from the example document. */
  ghost predicate ExampleView(c: BasicConfig) {
    c.view == Hash([(SymKey("one"), Str("something")), (SymKey("two"), Str("other_value")),
                    (SymKey("three"), Hash([(SymKey("nested"), Str("123"))]))])
  }

  /** A stored key of the example configuration answers its value, and refuses arguments. */
  lemma GetterExample(c: BasicConfig)
    requires c.Valid() && ExampleView(c)
    ensures c.Get("one", [], false) == Ok(Term(Str("something")))
    ensures c.Get("one", [Str("x")], false) == Err(ArgumentError(GetterArgumentsMessage))
  {
    IndexMatchesView(c, SymKey("one"));
  }

  /** The nested key of the example configuration answers a child whose getter answers the nested value. */
  lemma NestedGetterExample(c: BasicConfig)
    requires c.Valid() && ExampleView(c)
    ensures c.Get("three", [], false).Ok? && c.Get("three", [], false).value.Child?
    ensures c.Get("three", [], false).value.config.Get("nested", [], false) == Ok(Term(Str("123")))
  {
    IndexMatchesView(c, SymKey("three"));
    var d := c.Index(SymKey("three")).config;
    IndexMatchesView(d, SymKey("nested"));
  }

  /** An unknown key of the example configuration raises `NotFound`. */
  lemma UnknownKeyExample(c: BasicConfig)
    requires c.Valid() && ExampleView(c)
    ensures c.Get("four", [], false) == Err(NotFound(c.name, c.scope, "four"))
  {
    IndexMatchesView(c, SymKey("four"));
  }

  /** `respond_to?` on the example configuration answers a stored key and not an unknown one. */
  lemma RespondsToExample(c: BasicConfig)
    requires c.Valid() && ExampleView(c)
    ensures c.RespondsTo(SymKey("three"), false) && !c.RespondsTo(SymKey("unknown"), false)
  {
    IndexMatchesView(c, SymKey("three"));
    IndexMatchesView(c, SymKey("unknown"));
  }

  /** `{'a' => 1, :a => 2}` keeps one key, in the first key's place, with the later value. */
  lemma CollisionExample()
    ensures SymbolizeKeys([(StrKey("a"), Int(1)), (SymKey("a"), Int(2))]) == [(SymKey("a"), Int(2))]
  {
  }

  /** `load_env(name, 'development')` picks the development section of a document with two environments. */
  lemma SectionExample()
    ensures Section(Hash([(StrKey("development"), Hash([(StrKey("value"), Str("x"))])),
                          (StrKey("test"), Hash([(StrKey("value"), Str("y"))]))]), "development")
         == Ok(Hash([(StrKey("value"), Str("x"))]))
  {
  }

  /**
   `BasicConfig.new({'three' => {'more' => {'param' => 'value'}}})` asked
   `.three.more.missing_key`: the getters reach the child at scope
   `three.more.`, whose `NotFound` names the construction site and quotes
   `'three.more.missing_key'`.
   */
  method MissingNestedKeyExample(root: seq<(Key, Raw)>, three: seq<(Key, Raw)>, more: seq<(Key, Raw)>, callSite: string)
    returns (e: Error)
    requires |more| == 1 && more[0] == (StrKey("param"), Str("value"))
    requires |three| == 1 && three[0] == (StrKey("more"), Hash(more))
    requires |root| == 1 && root[0] == (StrKey("three"), Hash(three))
    ensures e == NotFound("BasicConfig constructed at " + callSite, "three.more.", "missing_key")
    ensures NotFoundMessage(e.name, e.scope, e.key)[18..42] == "'three.more.missing_key'"
  {
    var r := New(Hash(root), None, callSite, "");
    var c := r.value;
    IndexFromSource(c, root, "three", 0);
    var atThree := c.Get("three", [], false);
    var d := atThree.value.config;
    IndexFromSource(d, three, "more", 0);
    var atMore := d.Get("more", [], false);
    var b := atMore.value.config;
    ScopeExample(c.scope, d.scope, b.scope);
    LeafMissingExample(b, more);
    var missing := b.Get("missing_key", [], false);
    e := missing.error;
    NestedMessageExample(e.name, e.scope, e.key);
  }

  /** The scopes along `.three.more`, from the root scope `''`. */
  lemma ScopeExample(root: string, three: string, more: string)
    requires root == "" && three == root + "three" + "." && more == three + "more" + "."
    ensures more == "three.more."
  {
  }

  /** A configuration built from `{'param' => 'value'}` has no key `missing_key`. */
  lemma LeafMissingExample(b: BasicConfig, more: seq<(Key, Raw)>)
    requires |more| == 1 && more[0] == (StrKey("param"), Str("value"))
    requires b.Valid() && b.view == Symbolized(Hash(more))
    ensures b.Get("missing_key", [], false) == Err(NotFound(b.name, b.scope, "missing_key"))
  {
    IncludesExactlyInputKeys(b, more, SymKey("missing_key"));
  }

  /** The message of that `NotFound` quotes `'three.more.missing_key'`. */
  lemma NestedMessageExample(name: string, scope: string, key: string)
    requires scope == "three.more." && key == "missing_key"
    ensures NotFoundMessage(name, scope, key)[18..42] == "'three.more.missing_key'"
  {
    assert "'" + scope + key + "'" == "'three.more.missing_key'";
  }



  /**
   `BasicConfig.load_env(name, 'development')` on
   `{'development' => {'value' => 'x'}, 'test' => {'value' => 'y'}}`: the
   development section, scoped `development.`, converts back to
   `{:value => 'x'}`, and a key missing in it is reported under that scope.
   */
  method LoadEnvExample(name: string, document: seq<(Key, Raw)>, development: seq<(Key, Raw)>, test: seq<(Key, Raw)>)
    returns (plain: Raw, e: Error)
    requires development == [(StrKey("value"), Str("x"))] && test == [(StrKey("value"), Str("y"))]
    requires |document| == 2
    requires document[0] == (StrKey("development"), Hash(development)) && document[1] == (StrKey("test"), Hash(test))
    ensures plain == Hash([(SymKey("value"), Str("x"))])
    ensures e == NotFound(name, "development.", "missing")
  {
    IndexOfFirst(document, StrKey("development"), 0);
    var r := LoadEnv(name, "development", Hash(document));
    var c := r.value;
    plain := c.ToHash();
    SinglePairExample(development, "value", "x");
    IncludesExactlyInputKeys(c, development, SymKey("missing"));
    var missing := c.Get("missing", [], false);
    e := missing.error;
  }
}
