# BasicConfig in Dafny

A model of the Ruby library `basic_config`. Its class `BasicConfig` wraps a
parsed YAML document in a read-only tree of configurations:

- the constructor refuses `nil` and symbolizes the keys of one hash level
  with an `inject` fold, so that a later key that collides under `to_sym`
  (`'a'` and `:a`) wins;
- an `each` loop then replaces every nested hash by a child configuration
  with the same name and the scope extended by the key and `'.'`;
- `[]`, `include?`, the getters provided by `method_missing` and
  `respond_to?` read the stored entries;
- `to_hash` turns the tree back into a plain hash;
- `load_file` and `load_env` build a configuration from a parsed file or
  from one section of it.

The model has four modules:

- `RubyValues` (`RubyValues.dfy`) defines Ruby values and insertion-ordered
  hashes. A hash is a sequence of key/value pairs. `Store` is `h[k] = v`: a
  present key keeps its place and takes the new value, and a new key is
  appended.
- `Symbolize` (`Symbolize.dfy`) holds the constructor's fold `SymbolizeKeys`
  and the loop `SymbolizeEntries` proved equal to it. It also defines
  `Symbolized`, the fully symbolized form of a document. `Symbolized`
  descends into hashes but not into arrays, and it is the reference that
  `to_hash` is proved against.
- `Config` (`BasicConfig.dfy`) holds the class `BasicConfig`:
  - the fields `name`, `scope` and `hash` are fixed once the constructor
    returns;
  - the ghost field `view` is the configuration as a plain hash, and the
    ghost field `depth` is the height of the tree;
  - the invariant `Valid` ties every entry to `view`: a nested hash is a
    valid child whose own `view` is that hash, and every other value is
    stored as it is.

  `Config` also holds the error datatype, `New`, `LoadFile`, `LoadEnv` and
  the lemmas about the tree.
- `Examples` (`Examples.dfy`) works through the repository's own examples on
  concrete documents.

Ruby exceptions are the `Error` values of a `Result`. Dynamic dispatch through
`method_missing` is the explicit getter `Get(meth, args, hasBlock)`.

The code is followed where the repository's test file expects something
else:

- An unknown getter raises `BasicConfig::NotFound`, which is a
  `RuntimeError` (lib/basic_config.rb:46). The test at
  spec/basic_config_spec.rb:49-51 expects a `NoMethodError`. `Get` returns
  `NotFound`.
- `load_env` with an absent section passes `nil` to the constructor, which
  raises `ArgumentError` (lib/basic_config.rb:17, 67). The model does the
  same; see `MissingSectionIsNil`.

## Model

| member | source | states |
|---|---|---|
| RubyValues.IndexOf | lib/basic_config.rb:34 | Gives nothing exactly when the key is absent; otherwise gives the position of the key's first pair. |
| RubyValues.Lookup | lib/basic_config.rb:34 | `h[k]` finds a value exactly when `k` is a key. The value is held by a pair with key `k`. In a hash with distinct keys it is the value of every pair with that key. |
| RubyValues.IndexOfFirst | lib/basic_config.rb:34 | The first pair with a key is the one the lookup finds. |
| RubyValues.Store | lib/basic_config.rb:24 | `h[k] = v` keeps the keys distinct and every earlier key in its place. It grows the hash by one exactly when `k` is new. |
| RubyValues.StoreKeys | lib/basic_config.rb:24 | After `h[k] = v` the key set is the old key set plus `k`. |
| RubyValues.StoreFinds | lib/basic_config.rb:24 | After `h[k] = v`, `h[k]` is `v`. |
| RubyValues.StoreOthers | lib/basic_config.rb:24 | `h[k] = v` changes what no other key finds. |
| RubyValues.StoreElements | lib/basic_config.rb:24 | Every pair after `h[k] = v` is `(k, v)` or the pair that was at its position. A new key is appended at the end. |
| RubyValues.StoreMapValues | lib/basic_config.rb:24 | Storing and then mapping the values is the same as mapping and then storing the mapped value. |
| Symbolize.SymbolizeKeys | lib/basic_config.rb:23-26 | The fold's result has only Symbol keys, each once, and is no longer than its input. |
| Symbolize.SymbolizeEntries | lib/basic_config.rb:23-26 | The `inject` loop computes exactly the fold `SymbolizeKeys`. |
| Symbolize.SymbolizeKeysStep | lib/basic_config.rb:24 | One more input pair is one more `Store` under its symbol. |
| Symbolize.SymbolizeKeysKeys | lib/basic_config.rb:23-26 | The result's key set is exactly the input's keys passed through `to_sym`. |
| Symbolize.StringKeyAbsent | lib/basic_config.rb:24 | After symbolization a String key finds nothing. |
| Symbolize.SymbolPresent | lib/basic_config.rb:23-26 | A symbol is present exactly when some input key has its text. |
| Symbolize.LaterKeyWins | lib/basic_config.rb:23-26 | When keys collide under `to_sym`, the value of the last one in iteration order is kept. |
| Symbolize.SymbolizeKeysValues | lib/basic_config.rb:23-26 | Every value kept by the fold is the value of some input pair. |
| Symbolize.ValueOrigin | lib/basic_config.rb:23-26 | Names the input pair that a kept value comes from. |
| Symbolize.SymbolizeKeysMapValues | lib/basic_config.rb:23-26 | Symbolization only moves values around, so it commutes with mapping them. |
| Symbolize.KeysToSym | lib/basic_config.rb:24 | Turns every key into its symbol and keeps the values and the order. |
| Symbolize.SymbolizeKeysDistinct | lib/basic_config.rb:23-26 | Without collisions, the fold only turns each key into its symbol, in the same order. |
| Symbolize.SymbolizeKeysOfSymbolized | lib/basic_config.rb:23-26 | A hash that already has distinct Symbol keys is left exactly as it is, so the fold is idempotent. |
| Symbolize.Symbolized | lib/basic_config.rb:54-60 | The plain form `to_hash` returns is a hash exactly when its input is one. Any other value is returned as it is. |
| Symbolize.SymbolizedHash | lib/basic_config.rb:23-30 | One level of the plain form: symbolize the keys, then take the plain form of every kept value. |
| Symbolize.SymbolizedKeys | lib/basic_config.rb:23-26 | The keys of the plain form are exactly the input's keys passed through `to_sym`. |
| Symbolize.SymbolizedDistinct | lib/basic_config.rb:23-30 | Without collisions, the plain form symbolizes each key and each value, in order. |
| Symbolize.SymbolizedIdempotent | lib/basic_config.rb:54-60 | Symbolizing twice gives the same result as symbolizing once. |
| Config.NotFoundMessage | lib/basic_config.rb:12 | The message is exactly `Configuration key '`, then `scope + key`, then `' is missing in `, then the configuration's name: each part is fixed at its position, and the length is the sum of the parts. |
| Config.BasicConfig.constructor | lib/basic_config.rb:16-31 | The new configuration is valid, carries the given name and scope, and its view is the fully symbolized input. |
| Config.WrapChildren | lib/basic_config.rb:28-30 | The `each` loop keeps the keys in order. It replaces each hash value by a valid child with the same name and the scope extended by key and `'.'`, and keeps every other value. |
| Config.BasicConfig.Includes | lib/basic_config.rb:37-39 | `include?` holds exactly when some stored entry has the key. |
| Config.BasicConfig.Index | lib/basic_config.rb:33-35 | `[]` gives the value stored under a present key and `nil` for an absent one. |
| Config.BasicConfig.Get | lib/basic_config.rb:41-48 | A getter succeeds exactly for a stored key called with no arguments and no block, and then gives the stored value. A stored key with arguments or a block gives `ArgumentError`. An absent key gives `NotFound(name, scope, key)`. |
| Config.BasicConfig.RespondsTo | lib/basic_config.rb:50-52 | Every stored key is answered. Apart from Ruby's own answer, exactly the stored keys are. |
| Config.BasicConfig.ToHash | lib/basic_config.rb:54-60 | `to_hash` returns the configuration's view. For a configuration built from `input` that is `Symbolized(input)`. |
| RubyValues.ToSym | lib/basic_config.rb:24 | `to_sym` gives a Symbol with the key's text, and leaves a Symbol as it is. |
| Config.KeyOf | lib/basic_config.rb:24 | `to_sym` answers exactly Strings and Symbols, and keeps their text. |
| Config.Destructure | lib/basic_config.rb:23 | The block's `(key, value)` takes the first two elements of an array item, with `nil` for each element the item lacks (`[]` gives `nil, nil`; `[x]` gives `x, nil`). Any other item is the key, with a `nil` value. |
| Config.ArrayPairs | lib/basic_config.rb:23-24 | An array document folds exactly when every item's key answers `to_sym`. It then gives one pair per item, in order. |
| Config.InputPairs | lib/basic_config.rb:17-23 | `nil` gives `ArgumentError('Hash can not be nil')`. A hash gives its pairs and an array its items taken apart. Any other value has no `inject`. |
| Config.ConfigurationName | lib/basic_config.rb:19 | A given name is kept. Without one, the name is `BasicConfig constructed at ` followed by the call site. |
| Config.New | lib/basic_config.rb:16-31 | Construction succeeds exactly when the document folds, and otherwise returns that error. On success the configuration is fresh and valid, its view is the symbolized document, and its name defaults to the call site. |
| Config.LoadFile | lib/basic_config.rb:62-64 | `load_file` builds the document under the file's name at the root scope, with the same outcomes as `New`. |
| Config.Contains | lib/basic_config.rb:67 | The text `String#[]` looks for is found only when it is no longer than the receiver, and is always found at the receiver's start. |
| Config.ContainsAt | lib/basic_config.rb:67 | `String#[]` with a String argument finds exactly the texts that occur somewhere in the receiver. |
| Config.Section | lib/basic_config.rb:67 | `document[env]`: a hash gives the value under the String key or `nil`; a String or Symbol gives `env` when it contains it; an array or an integer raises `TypeError`; `nil` and booleans have no `[]`. |
| Config.LoadEnv | lib/basic_config.rb:66-68 | `load_env` passes on the section's error. Otherwise it builds the section under the file's name with scope `env + '.'`. |
| Config.MissingSectionIsNil | lib/basic_config.rb:67 | An absent section is `nil`, so `load_env` raises the nil `ArgumentError`. |
| Config.EntriesMatchView | lib/basic_config.rb:28-30 | The entries of a valid configuration have distinct keys, and these are exactly the view's keys. |
| Config.IndexAt | lib/basic_config.rb:33-35 | Every stored entry is found by `[]` under its key. |
| Config.IndexMatchesView | lib/basic_config.rb:54-60 | `[]` agrees with `to_hash`: a key is stored exactly when the view has it, and `[]` gives the view's value, a hash as a child. |
| Config.IncludesExactlyInputKeys | lib/basic_config.rb:37-39 | `include?` holds exactly for the symbols of the input's keys. |
| Config.IndexFromSource | lib/basic_config.rb:28-30 | `[]` on the last input key with a given text gives the input value when it is not a hash. Otherwise it gives a valid child with the parent's name, the scope extended by the key and `'.'`, and the symbolized hash as its view. |
| Config.ChildOf | lib/basic_config.rb:29 | A child found by `[]` is valid, carries the parent's name, extends the parent's scope by its key and `'.'`, and is lower in the tree. |
| Config.Descend | lib/basic_config.rb:44 | A chain of bare getters that reaches a configuration reaches a valid one. |
| Config.ScopeOfPath | lib/basic_config.rb:29 | Every configuration reached by a chain of getters has the root's name, and its scope is the root's scope followed by the dotted path. |
| Config.MissingKeyReportsPath | lib/basic_config.rb:46 | A missing key asked at any depth raises `NotFound` with the root's name and the full dotted scope. |
| Examples.SinglePairExample | spec/basic_config_spec.rb:8-10 | A one-pair hash `{'nested' => '123'}` symbolizes to `{:nested => '123'}`. |
| Examples.SymbolizedExample | spec/basic_config_spec.rb:4-21 | The example document symbolizes to the example's symbolized hash, at both levels. |
| Examples.ToHashExample | spec/basic_config_spec.rb:53-55 | `to_hash` of a configuration built from the example document is the symbolized hash, on each call. |
| Examples.GetterExample | spec/basic_config_spec.rb:29-32 | The getter `one` answers `'something'`, and refuses an argument. |
| Examples.NestedGetterExample | spec/basic_config_spec.rb:38-41 | `three` is a child configuration whose getter `nested` answers `'123'`. |
| Examples.RespondsToExample | spec/basic_config_spec.rb:43-47 | `respond_to?` answers `:three` and not `:unknown`. |
| Examples.UnknownKeyExample | spec/basic_config_spec.rb:49-51 | `four` raises `NotFound`. |
| Examples.CollisionExample | lib/basic_config.rb:23-26 | `{'a' => 1, :a => 2}` keeps one key `:a` with the later value `2`. |
| Examples.SectionExample | spec/basic_config_spec.rb:76-80 | `document['development']` picks the development section of the two-environment document. |
| Examples.LoadEnvExample | spec/basic_config_spec.rb:65-80 | `load_env` with `'development'` on the two-environment document gives a configuration whose `to_hash` is `{:value => 'x'}`. A missing key in it raises `NotFound` with scope `development.` and the file's name. |
| Examples.MissingNestedKeyExample | lib/basic_config.rb:41-48 | `BasicConfig.new({'three' => {'more' => {'param' => 'value'}}})` asked `.three.more.missing_key` raises `NotFound` with the construction-site name and scope `three.more.`. Its message quotes `'three.more.missing_key'`. |
| Examples.NestedMessageExample | lib/basic_config.rb:12 | That `NotFound`'s message quotes `'three.more.missing_key'`. |

## Left out

- YAML parsing and file reading are not modelled. `LoadFile` and `LoadEnv` take the parsed document as a parameter. A parser failure is not part of the model.
- `caller[0]`, the construction site used in the default name, is the parameter `callSite` of `New`.
- `respond_to?` falls back to Ruby's own `respond_to?` through `super`. That answer is the parameter `inherited` of `RespondsTo`.
- Methods that every Ruby object already has are not modelled. Neither are `BasicConfig`'s own public methods `[]`, `include?`, `respond_to?` and `to_hash`. A key named like one of them (`hash`, `class`, `to_hash`, `include?`) is reached by that method, not by `method_missing`. `Get` treats every name as a key.
- Document values are `nil`, booleans, integers, Strings, Symbols, arrays and hashes. Floats, dates and other YAML scalars are left out, and the model treats them like any other non-hash value.
- Hash keys are Strings or Symbols. A document whose hash keys are integers or other values (no `to_sym`) is not modelled.
- `false` as a configuration name is not modelled. The name is `Option<string>`.
- The Ruby exception class hierarchy is not modelled. `NotFound` being a `RuntimeError`, and rescue by superclass, are not represented. Errors are the `Error` datatype.
- The Ruby objects are not modelled as shared and mutable. `to_hash` copies the entries (`dup`) and returns plain values. A caller that mutates a returned array, or a hash shared with the input, is outside the model.
- Documents with cycles are not modelled. A YAML alias can make a hash contain itself, and the Ruby constructor then recurses without end (lib/basic_config.rb:29). `Raw` is a finite tree and cannot express a cycle.
