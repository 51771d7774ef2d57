/**
 * The optimizer configuration: the shared default object, the per-build user
 * object, `Object.assign(svgoDefaultConfig, userConfig)` and the `_.map` that
 * turns the merged object into SVGO's list of one-key plugin objects.
 */
module SvgoConfig {
  import opened Js

  /** A plain object: its own properties in iteration (insertion) order. */
  type Config = seq<Entry>

  /** The keys of `c` in iteration order. */
  function Keys(c: Config): seq<string>
  {
    if c == [] then [] else [c[0].key] + Keys(c[1..])
  }

  /** No key occurs twice, as in every JavaScript object. */
  ghost predicate UniqueKeys(c: Config)
  {
    Distinct(Keys(c))
  }

  ghost predicate Distinct(ks: seq<string>)
  {
    forall i, j :: 0 <= i < j < |ks| ==> ks[i] != ks[j]
  }

  /** `c[k]`: the value stored under `k`, if any. */
  function Lookup(c: Config, k: string): (r: Option<Value>)
    ensures r.None? <==> k !in Keys(c)
    ensures r.Some? ==> Entry(k, r.value) in c
  {
    if c == [] then None
    else if c[0].key == k then
      assert Keys(c)[0] == k;
      Some(c[0].value)
    else
      assert Keys(c) == [c[0].key] + Keys(c[1..]);
      Lookup(c[1..], k)
  }

  /** `c[k] = v`: an existing key keeps its place, a new key goes last. */
  function Put(c: Config, k: string, v: Value): (r: Config)
    ensures Keys(r) == if k in Keys(c) then Keys(c) else Keys(c) + [k]
  {
    if c == [] then [Entry(k, v)]
    else if c[0].key == k then
      assert Keys(c) == [k] + Keys(c[1..]);
      assert Keys([Entry(k, v)] + c[1..]) == [k] + Keys(c[1..]);
      [Entry(k, v)] + c[1..]
    else
      var rest := Put(c[1..], k, v);
      assert Keys(c) == [c[0].key] + Keys(c[1..]);
      assert Keys([c[0]] + rest) == [c[0].key] + Keys(rest);
      [c[0]] + rest
  }

  /** After `c[k] = v`, reading `k` gives `v` and reading any other key is unaffected. */
  lemma {:induction false} PutLookup(c: Config, k: string, v: Value, j: string)
    ensures Lookup(Put(c, k, v), j) == if j == k then Some(v) else Lookup(c, j)
  {
    if c != [] && c[0].key != k {
      PutLookup(c[1..], k, v, j);
    }
  }

  lemma PutUnique(c: Config, k: string, v: Value)
    requires UniqueKeys(c)
    ensures UniqueKeys(Put(c, k, v))
  {
  }

  /** `Object.assign(target, source)`: each property of `source`, in order, is put into `target`. */
  function Assign(target: Config, source: Config): (r: Config)
    ensures Keys(target) <= Keys(r)
    decreases source
  {
    if source == [] then target
    else Assign(Put(target, source[0].key, source[0].value), source[1..])
  }

  /** The keys of `ks` that are not in `seen`, in order of first occurrence, each once. */
  function NewKeys(ks: seq<string>, seen: seq<string>): seq<string>
  {
    if ks == [] then []
    else if ks[0] in seen then NewKeys(ks[1..], seen)
    else [ks[0]] + NewKeys(ks[1..], seen + [ks[0]])
  }

  lemma KeysTail(c: Config)
    requires c != []
    ensures Keys(c) == [c[0].key] + Keys(c[1..])
  {
  }

  lemma UniqueTail(c: Config)
    requires c != [] && UniqueKeys(c)
    ensures UniqueKeys(c[1..]) && c[0].key !in Keys(c[1..])
  {
    var ks := Keys(c);
    assert Keys(c[1..]) == ks[1..];
    forall i, j | 0 <= i < j < |ks| - 1
      ensures ks[1..][i] != ks[1..][j]
    {
      assert ks[1..][i] == ks[i + 1] && ks[1..][j] == ks[j + 1];
    }
    forall i | 0 <= i < |ks| - 1
      ensures ks[1..][i] != ks[0]
    {
      assert ks[1..][i] == ks[i + 1];
    }
  }

  /** After the merge, a key of the user object has the user's value; any other key keeps the default's. */
  lemma {:induction false} AssignLookup(target: Config, source: Config, k: string)
    requires UniqueKeys(source)
    ensures Lookup(Assign(target, source), k) == if k in Keys(source) then Lookup(source, k) else Lookup(target, k)
    decreases source
  {
    if source != [] {
      UniqueTail(source);
      AssignLookup(Put(target, source[0].key, source[0].value), source[1..], k);
      PutLookup(target, source[0].key, source[0].value, k);
      assert Keys(source) == [source[0].key] + Keys(source[1..]);
    }
  }

  lemma NewKeysCons(k: string, ks: seq<string>, seen: seq<string>)
    ensures NewKeys([k] + ks, seen) == if k in seen then NewKeys(ks, seen) else [k] + NewKeys(ks, seen + [k])
  {
    assert ([k] + ks)[1..] == ks;
  }

  /** The merged keys: the defaults' keys in their order, then the user's new keys in the user's order. */
  lemma {:induction false} AssignKeys(target: Config, source: Config)
    ensures Keys(Assign(target, source)) == Keys(target) + NewKeys(Keys(source), Keys(target))
    decreases source
  {
    if source != [] {
      var e, rest := source[0], source[1..];
      var put := Put(target, e.key, e.value);
      assert Assign(target, source) == Assign(put, rest);
      AssignKeys(put, rest);
      KeysTail(source);
      NewKeysCons(e.key, Keys(rest), Keys(target));
      if e.key !in Keys(target) {
        var later := NewKeys(Keys(rest), Keys(put));
        assert Keys(put) + later == Keys(target) + ([e.key] + later);
      }
    }
  }

  /** A merge keeps the keys of the result distinct. */
  lemma {:induction false} AssignUnique(target: Config, source: Config)
    requires UniqueKeys(target)
    ensures UniqueKeys(Assign(target, source))
    decreases source
  {
    if source != [] {
      PutUnique(target, source[0].key, source[0].value);
      AssignUnique(Put(target, source[0].key, source[0].value), source[1..]);
    }
  }

  /**
   * The merge writes into the shared default object, so a second build starts
   * from the first build's result: its own keys win, then the first build's,
   * then the original defaults.
   */
  lemma OverridesPersist(defaults: Config, first: Config, second: Config, k: string)
    requires UniqueKeys(first) && UniqueKeys(second)
    ensures Lookup(Assign(Assign(defaults, first), second), k)
         == if k in Keys(second) then Lookup(second, k)
            else if k in Keys(first) then Lookup(first, k)
            else Lookup(defaults, k)
  {
    AssignLookup(Assign(defaults, first), second, k);
    AssignLookup(defaults, first, k);
  }

  lemma {:induction false} PutPresent(c: Config, k: string, v: Value)
    requires Lookup(c, k) == Some(v)
    ensures Put(c, k, v) == c
  {
    if c != [] && c[0].key != k {
      PutPresent(c[1..], k, v);
    }
  }

  lemma {:induction false} AssignPresent(c: Config, source: Config)
    requires forall e :: e in source ==> Lookup(c, e.key) == Some(e.value)
    ensures Assign(c, source) == c
  {
    if source != [] {
      PutPresent(c, source[0].key, source[0].value);
      AssignPresent(c, source[1..]);
    }
  }

  lemma {:induction false} LookupOwnEntry(c: Config, e: Entry)
    requires UniqueKeys(c) && e in c
    ensures Lookup(c, e.key) == Some(e.value)
  {
    if c[0] != e {
      UniqueTail(c);
      LookupOwnEntry(c[1..], e);
    }
  }

  /** Merging the same user object again leaves the shared defaults as they are. */
  lemma AssignIdempotent(defaults: Config, user: Config)
    requires UniqueKeys(user)
    ensures Assign(Assign(defaults, user), user) == Assign(defaults, user)
  {
    forall e | e in user
      ensures Lookup(Assign(defaults, user), e.key) == Some(e.value)
    {
      AssignLookup(defaults, user, e.key);
      LookupOwnEntry(user, e);
    }
    AssignPresent(Assign(defaults, user), user);
  }

  /** `_.map(config, (value, key) => ({ [key]: value }))`: one single-key object per property, in order. */
  function PluginList(c: Config): (r: seq<Config>)
    ensures |r| == |c|
    ensures forall i :: 0 <= i < |r| ==> r[i] == [c[i]]
  {
    if c == [] then [] else [[c[0]]] + PluginList(c[1..])
  }

  /** The objects of `ps` joined together, in order. */
  function Flatten(ps: seq<Config>): Config
  {
    if ps == [] then [] else ps[0] + Flatten(ps[1..])
  }

  /** The plugin list loses nothing: joining its objects gives back the merged configuration. */
  lemma {:induction false} PluginListRoundTrip(c: Config)
    ensures Flatten(PluginList(c)) == c
  {
    if c != [] {
      PluginListRoundTrip(c[1..]);
      assert PluginList(c)[1..] == PluginList(c[1..]);
    }
  }

  /**
   * The hook's choice of `userConfig`: the `svgoConfig` option when it is
   * truthy and an object, otherwise the empty object.
   */
  function SelectUserConfig(svgoConfig: Value): (r: Config)
    ensures svgoConfig.Object? ==> r == svgoConfig.entries
    ensures !svgoConfig.Object? ==> r == []
  {
    if Truthy(svgoConfig) && IsObject(svgoConfig) then svgoConfig.entries else []
  }
}
