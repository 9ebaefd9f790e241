/**
 Applying a partial configuration update: `diff`, `is_boot_key` and `ConfigStore::apply_patch` of
 crates/fah-api/src/config_store.rs.
 */
module ConfigStore {
  import opened Wrappers
  import opened ConfigTree
  import opened ConfigPaths

  // ---------- Listing the differences ----------

  /** `out` names no difference that is not one, among the paths below `at`. */
  ghost predicate OnlyDifferences(before: Json, after: Json, at: Path, out: seq<string>) {
    forall path | PlainPath(path) && Dotted(at + path) in out :: DiffersAt(before, after, path)
  }

  /** `out` names every difference whose first key is in `keys`. */
  ghost predicate AllDifferences(before: Json, after: Json, at: Path, out: seq<string>, keys: set<string>) {
    forall path | path != [] && path[0] in keys && DiffersAt(before, after, path) :: Dotted(at + path) in out
  }

  /** What was appended names differences below `at`. */
  ghost predicate NamesDifferences(before: Json, after: Json, at: Path, added: seq<string>) {
    forall name | name in added :: exists path | DiffersAt(before, after, path) :: name == Dotted(at + path)
  }

  predicate Distinct(out: seq<string>) {
    forall i, j | 0 <= i < j < |out| :: out[i] != out[j]
  }

  /** The order in which the keys of an object come. */
  type KeyOrder = map<string, Json> -> seq<string>

  ghost predicate Orders(order: KeyOrder) {
    && (forall fields, key :: key in order(fields) <==> key in fields)
    && (forall fields :: |order(fields)| == |fields|)
  }

  /** What `diff` leaves in `out`, for an order of keys. */
  function Listed(order: KeyOrder, before: Json, after: Json, prefix: string, out: seq<string>): seq<string>
    decreases before.Obj? && after.Obj?, before
  {
    if before.Obj? && after.Obj? then
      ListedKeys(order, before, after, order(before.fields) + order(after.fields), prefix, out)
    else if before != after then
      out + [prefix]
    else
      out
  }

  function ListedKeys(
    order: KeyOrder, before: Json, after: Json, keys: seq<string>, prefix: string, out: seq<string>
  ): seq<string>
    requires before.Obj? && after.Obj?
    decreases before.Obj? && after.Obj?, before, |keys|
  {
    if keys == [] then
      out
    else
      var key := keys[|keys| - 1];
      var listed := ListedKeys(order, before, after, keys[..|keys| - 1], prefix, out);
      if Extend(prefix, key) in listed then
        listed
      else
        Listed(order, Child(before, key), Child(after, key), Extend(prefix, key), listed)
  }

  /** A difference below `key` is one below the two children, and the other way round. */
  lemma ChildDiffers(before: Json, after: Json, key: string, path: Path)
    requires before.Obj? && after.Obj? && (key in before.fields || key in after.fields)
    ensures DiffersAt(before, after, [key] + path) <==> DiffersAt(Child(before, key), Child(after, key), path)
  {
    assert ([key] + path)[1..] == path;
  }

  /** `r` is `out` and, after it, names of differences below `at`, none of them twice. */
  ghost predicate Sound(before: Json, after: Json, at: Path, out: seq<string>, r: seq<string>) {
    && out <= r && (Distinct(out) ==> Distinct(r))
    && NamesDifferences(before, after, at, r[|out|..])
  }

  /** Below `at`, `r` names exactly the differences, as far as their first key is in `keys`. */
  ghost predicate Exact(before: Json, after: Json, at: Path, r: seq<string>, keys: set<string>) {
    OnlyDifferences(before, after, at, r) && AllDifferences(before, after, at, r, keys)
  }

  /** Below `at`, `r` names exactly the differences. */
  ghost predicate AllExact(before: Json, after: Json, at: Path, r: seq<string>) {
    && OnlyDifferences(before, after, at, r)
    && forall path | DiffersAt(before, after, path) :: Dotted(at + path) in r
  }

  predicate AllPlain(before: Json, after: Json, at: Path) {
    Plain(before) && Plain(after) && PlainPath(at)
  }

  lemma EnterChild(before: Json, after: Json, at: Path, key: string, r: seq<string>)
    requires before.Obj? && after.Obj? && (key in before.fields || key in after.fields) && PlainKey(key)
    requires OnlyDifferences(before, after, at, r)
    ensures OnlyDifferences(Child(before, key), Child(after, key), at + [key], r)
  {
    hide Dotted, DiffersAt;
    forall path | PlainPath(path) && Dotted(at + [key] + path) in r
      ensures DiffersAt(Child(before, key), Child(after, key), path)
    {
      assert at + ([key] + path) == at + [key] + path;
      ChildDiffers(before, after, key, path);
    }
  }

  /** A name of a difference below one key is a name of a difference of the whole. */
  lemma LeaveChild(before: Json, after: Json, at: Path, key: string, added: seq<string>)
    requires before.Obj? && after.Obj? && (key in before.fields || key in after.fields)
    requires NamesDifferences(Child(before, key), Child(after, key), at + [key], added)
    ensures NamesDifferences(before, after, at, added)
  {
    hide Dotted, DiffersAt;
    forall name | name in added
      ensures exists path | DiffersAt(before, after, path) :: name == Dotted(at + path)
    {
      var rest :| DiffersAt(Child(before, key), Child(after, key), rest) && name == Dotted(at + [key] + rest);
      ChildDiffers(before, after, key, rest);
      assert at + ([key] + rest) == at + [key] + rest;
    }
  }

  /** Plain paths have names of their own, so a name that was added is the name of one difference. */
  lemma NamedOnly(before: Json, after: Json, at: Path, out: seq<string>, added: seq<string>)
    requires AllPlain(before, after, at)
    requires OnlyDifferences(before, after, at, out) && NamesDifferences(before, after, at, added)
    ensures OnlyDifferences(before, after, at, out + added)
  {
    hide Dotted, DiffersAt;
    forall path | PlainPath(path) && Dotted(at + path) in out + added
      ensures DiffersAt(before, after, path)
    {
      if Dotted(at + path) !in out {
        assert Dotted(at + path) in added;
        var other :| DiffersAt(before, after, other) && Dotted(at + path) == Dotted(at + other);
        DifferencesArePlain(before, after, other);
        DottedIsInjective(at + path, at + other);
        assert path == (at + path)[|at|..] && other == (at + other)[|at|..];
      }
    }
  }

  lemma LeafSound(before: Json, after: Json, at: Path, out: seq<string>)
    requires !(before.Obj? && after.Obj?) && Dotted(at) !in out
    ensures Sound(before, after, at, out, if before != after then out + [Dotted(at)] else out)
  {
    hide Dotted;
    assert at + [] == at;
    if before != after {
      assert DiffersAt(before, after, []);
      assert NamesDifferences(before, after, at, [Dotted(at)]);
      assert (out + [Dotted(at)])[|out|..] == [Dotted(at)];
    }
  }

  /** Two values that are not both objects differ as a whole or not at all. */
  lemma LeafExact(before: Json, after: Json, at: Path, out: seq<string>)
    requires AllPlain(before, after, at) && !(before.Obj? && after.Obj?) && OnlyDifferences(before, after, at, out)
    ensures AllExact(before, after, at, if before != after then out + [Dotted(at)] else out)
  {
    hide Dotted;
    assert at + [] == at;
    if before != after {
      assert DiffersAt(before, after, []);
      assert NamesDifferences(before, after, at, [Dotted(at)]);
      NamedOnly(before, after, at, out, [Dotted(at)]);
    }
  }

  /** A key whose name is already listed has nothing more to list. */
  lemma SkipExact(before: Json, after: Json, at: Path, r: seq<string>, keys: set<string>, key: string)
    requires before.Obj? && after.Obj? && (key in before.fields || key in after.fields) && PlainKey(key)
    requires Exact(before, after, at, r, keys) && Dotted(at + [key]) in r
    ensures Exact(before, after, at, r, keys + {key})
  {
    hide Dotted;
    assert PlainPath([key]) && DiffersAt(before, after, [key]);
    ChildDiffers(before, after, key, []);
    assert [key] + [] == [key];
    assert !(Child(before, key).Obj? && Child(after, key).Obj?);
    forall path | path != [] && path[0] == key && DiffersAt(before, after, path)
      ensures Dotted(at + path) in r
    {
      DiffersBelow(before, after, path);
      assert path[1..] == [];
      assert path == [key];
    }
  }

  lemma ChildSound(
      before: Json, after: Json, at: Path, out: seq<string>, r: seq<string>, key: string, longer: seq<string>)
    requires before.Obj? && after.Obj? && (key in before.fields || key in after.fields)
    requires Sound(before, after, at, out, r)
    requires Sound(Child(before, key), Child(after, key), at + [key], r, longer)
    ensures Sound(before, after, at, out, longer)
  {
    hide Dotted, DiffersAt, NamesDifferences;
    var added := longer[|r|..];
    LeaveChild(before, after, at, key, added);
    assert longer[|out|..] == r[|out|..] + added;
    BothName(before, after, at, r[|out|..], added);
  }

  lemma ChildExact(
      before: Json, after: Json, at: Path, r: seq<string>, keys: set<string>, key: string, longer: seq<string>)
    requires before.Obj? && after.Obj? && (key in before.fields || key in after.fields)
    requires AllPlain(before, after, at) && Exact(before, after, at, r, keys)
    requires Sound(Child(before, key), Child(after, key), at + [key], r, longer)
    requires AllExact(Child(before, key), Child(after, key), at + [key], longer)
    ensures Exact(before, after, at, longer, keys + {key})
  {
    hide Dotted, DiffersAt, OnlyDifferences, NamesDifferences;
    var added := longer[|r|..];
    assert longer == r + added;
    LeaveChild(before, after, at, key, added);
    NamedOnly(before, after, at, r, added);
    assert forall name | name in r :: name in longer;
    forall path | path != [] && path[0] == key && DiffersAt(before, after, path)
      ensures Dotted(at + path) in longer
    {
      DiffersBelow(before, after, path);
      assert at + [key] + path[1..] == at + path;
    }
  }

  lemma BothName(before: Json, after: Json, at: Path, a: seq<string>, b: seq<string>)
    requires NamesDifferences(before, after, at, a) && NamesDifferences(before, after, at, b)
    ensures NamesDifferences(before, after, at, a + b)
  {
    hide Dotted, DiffersAt;
  }

  lemma AllKeysExact(before: Json, after: Json, at: Path, r: seq<string>, keys: set<string>)
    requires before.Obj? && after.Obj? && forall key | key in before.fields || key in after.fields :: key in keys
    requires Exact(before, after, at, r, keys)
    ensures AllExact(before, after, at, r)
  {
    hide Dotted, OnlyDifferences;
    forall path | DiffersAt(before, after, path)
      ensures Dotted(at + path) in r
    {
      assert path != [];
      DiffersBelow(before, after, path);
    }
  }

  lemma NothingListed(before: Json, after: Json, at: Path, out: seq<string>)
    ensures Sound(before, after, at, out, out)
    ensures OnlyDifferences(before, after, at, out) ==> Exact(before, after, at, out, {})
  {
  }

  lemma ChildIsPlain(before: Json, after: Json, at: Path, key: string)
    requires before.Obj? && after.Obj? && (key in before.fields || key in after.fields)
    requires AllPlain(before, after, at)
    ensures PlainKey(key) && AllPlain(Child(before, key), Child(after, key), at + [key])
  {
  }

  lemma NextKey(
    order: KeyOrder, before: Json, after: Json, keys: seq<string>, key: string, prefix: string, out: seq<string>
  )
    requires before.Obj? && after.Obj?
    ensures var listed := ListedKeys(order, before, after, keys, prefix, out);
            var path := Extend(prefix, key);
            ListedKeys(order, before, after, keys + [key], prefix, out) ==
              if path in listed then listed else Listed(order, Child(before, key), Child(after, key), path, listed)
  {
    assert (keys + [key])[..|keys|] == keys;
  }

  lemma BothOrders(order: KeyOrder, before: Json, after: Json, prefix: string, out: seq<string>)
    requires Orders(order) && before.Obj? && after.Obj?
    ensures forall key :: key in order(before.fields) + order(after.fields) <==>
                            key in before.fields || key in after.fields
    ensures ListedKeys(order, before, after, [], prefix, out) == out
    ensures Listed(order, before, after, prefix, out) ==
              ListedKeys(order, before, after, order(before.fields) + order(after.fields), prefix, out)
  {
  }

  lemma LeavesListed(order: KeyOrder, before: Json, after: Json, prefix: string, out: seq<string>)
    requires !before.Obj? || !after.Obj?
    ensures Listed(order, before, after, prefix, out) == if before != after then out + [prefix] else out
  {
  }

  /**
   Lists the settings that differ, by name, in any order of keys. A name already listed is
   passed over: a key that both sides have comes up twice. On any trees at all, every name added
   is that of a difference and none is added twice. Where keys are plain, no difference is missed.
   */
  method Diff(order: KeyOrder, before: Json, after: Json, prefix: string, out: seq<string>, ghost at: Path)
    returns (r: seq<string>)
    requires Orders(order) && prefix == Dotted(at) && prefix !in out
    ensures r == Listed(order, before, after, prefix, out)
    ensures Sound(before, after, at, out, r)
    ensures AllPlain(before, after, at) && OnlyDifferences(before, after, at, out) ==> AllExact(before, after, at, r)
    decreases before.Obj? && after.Obj?, before
  {
    hide Dotted, OnlyDifferences, Sound, Exact, AllExact, AllPlain, PlainKey, Orders, Listed, ListedKeys;
    ghost var plain := AllPlain(before, after, at) && OnlyDifferences(before, after, at, out);
    r := out;
    if before.Obj? && after.Obj? {
      var keys := order(before.fields) + order(after.fields);
      BothOrders(order, before, after, prefix, out);
      NothingListed(before, after, at, out);
      ghost var done: set<string> := {};
      for i := 0 to |keys|
        invariant forall k | 0 <= k < i :: keys[k] in done
        invariant r == ListedKeys(order, before, after, keys[..i], prefix, out)
        invariant Sound(before, after, at, out, r)
        invariant plain ==> Exact(before, after, at, r, done)
      {
        var key := keys[i];
        var path := Extend(prefix, key);
        assert keys[..i + 1] == keys[..i] + [key];
        NextKey(order, before, after, keys[..i], key, prefix, out);
        DottedExtend(at, key);
        if plain {
          ChildIsPlain(before, after, at, key);
          ExactIsOnly(before, after, at, r, done);
        }
        if path in r {
          if plain {
            SkipExact(before, after, at, r, done, key);
          }
        } else {
          if plain {
            EnterChild(before, after, at, key, r);
          }
          var longer := Diff(order, Child(before, key), Child(after, key), path, r, at + [key]);
          ChildSound(before, after, at, out, r, key, longer);
          if plain {
            ChildExact(before, after, at, r, done, key, longer);
          }
          r := longer;
        }
        done := done + {key};
      }
      assert keys[..|keys|] == keys;
      if plain {
        forall key | key in keys
          ensures key in done
        {
          var k :| 0 <= k < |keys| && keys[k] == key;
        }
        AllKeysExact(before, after, at, r, done);
      }
    } else {
      LeavesListed(order, before, after, prefix, out);
      LeafSound(before, after, at, out);
      if plain {
        LeafExact(before, after, at, out);
      }
      if before != after {
        r := out + [prefix];
      }
    }
  }

  lemma ExactIsOnly(before: Json, after: Json, at: Path, r: seq<string>, keys: set<string>)
    requires Exact(before, after, at, r, keys)
    ensures OnlyDifferences(before, after, at, r)
  {
  }

  const DOTTED_BEFORE := Obj(map["a" := Obj(map["b" := Null]), "a.b" := Obj(map["c" := Null])])
  const DOTTED_AFTER := Obj(map["a" := Obj(map["b" := Scalar("1")]), "a.b" := Obj(map["c" := Scalar("1")])])

  lemma OnlyKey(order: KeyOrder, fields: map<string, Json>, key: string)
    requires Orders(order) && fields.Keys == {key}
    ensures order(fields) == [key]
  {
    assert |fields| == |fields.Keys| == 1;
    assert order(fields)[0] in fields.Keys;
  }

  lemma BothKeys(order: KeyOrder, fields: map<string, Json>, a: string, b: string)
    requires Orders(order) && fields.Keys == {a, b} && a != b
    ensures order(fields) == [a, b] || order(fields) == [b, a]
  {
    var keys := order(fields);
    assert |fields| == |fields.Keys| == 2;
    assert a in keys && b in keys;
    var i, j :| 0 <= i < |keys| && 0 <= j < |keys| && keys[i] == a && keys[j] == b;
  }

  lemma OneDifference(order: KeyOrder, key: string, prefix: string, out: seq<string>)
    requires Orders(order)
    ensures Listed(order, Obj(map[key := Null]), Obj(map[key := Scalar("1")]), prefix, out) ==
              if Extend(prefix, key) in out then out else out + [Extend(prefix, key)]
  {
    var before, after, name := Obj(map[key := Null]), Obj(map[key := Scalar("1")]), Extend(prefix, key);
    OnlyKey(order, before.fields, key);
    OnlyKey(order, after.fields, key);
    hide Extend;
    var once := if name in out then out else out + [name];
    assert ListedKeys(order, before, after, [key], prefix, out) == once by {
      assert [key][..0] == [];
    }
    assert [key] + [key] == [key, key] && [key, key][..1] == [key];
  }

  lemma NoPrefix(key: string)
    ensures Extend("", key) == key
  {
  }

  lemma DottedNames()
    ensures Extend("a", "b") == "a.b" && Extend("a.b", "c") == "a.b.c"
  {
    assert "a" + "." + "b" == "a.b" && "a.b" + "." + "c" == "a.b.c";
  }

  /** The settings of a key that comes up in the two trees below. */
  lemma DottedKey(order: KeyOrder, keys: seq<string>, key: string)
    requires Orders(order) && key in ["a", "a.b"]
    ensures var listed := ListedKeys(order, DOTTED_BEFORE, DOTTED_AFTER, keys, "", []);
            var name := if key == "a" then "a.b" else "a.b.c";
            ListedKeys(order, DOTTED_BEFORE, DOTTED_AFTER, keys + [key], "", []) ==
              if key in listed || name in listed then listed else listed + [name]
  {
    hide Orders, Listed, ListedKeys, Extend;
    var listed := ListedKeys(order, DOTTED_BEFORE, DOTTED_AFTER, keys, "", []);
    NextKey(order, DOTTED_BEFORE, DOTTED_AFTER, keys, key, "", []);
    assert Extend("", key) == key by {
      NoPrefix(key);
    }
    DottedNames();
    OneDifference(order, if key == "a" then "b" else "c", key, listed);
  }

  lemma FirstKeys(order: KeyOrder, aFirst: bool)
    requires Orders(order)
    ensures ListedKeys(order, DOTTED_BEFORE, DOTTED_AFTER, if aFirst then ["a", "a.b"] else ["a.b", "a"], "", []) ==
              if aFirst then ["a.b"] else ["a.b.c", "a.b"]
  {
    hide Orders, ListedKeys, Listed;
    NoKeys(order);
    var first, second := if aFirst then "a" else "a.b", if aFirst then "a.b" else "a";
    DottedKey(order, [], first);
    DottedKey(order, [first], second);
    assert [] + [first] == [first] && [first] + [second] == [first, second];
  }

  lemma DottedKeys(order: KeyOrder, keys: seq<string>, again: seq<string>)
    requires Orders(order) && keys in [["a", "a.b"], ["a.b", "a"]] && again in [["a", "a.b"], ["a.b", "a"]]
    ensures ListedKeys(order, DOTTED_BEFORE, DOTTED_AFTER, keys + again, "", []) ==
              if keys[0] == "a" then ["a.b"] else ["a.b.c", "a.b"]
  {
    hide Orders, ListedKeys, Listed;
    FirstKeys(order, keys[0] == "a");
    DottedKey(order, keys, again[0]);
    DottedKey(order, keys + [again[0]], again[1]);
    assert keys + again == keys + [again[0]] + [again[1]];
  }

  lemma NoKeys(order: KeyOrder)
    ensures ListedKeys(order, DOTTED_BEFORE, DOTTED_AFTER, [], "", []) == []
  {
  }

  lemma MissedSetting()
    ensures DiffersAt(DOTTED_BEFORE, DOTTED_AFTER, ["a.b", "c"]) && Dotted(["a.b", "c"]) == "a.b.c"
  {
    TwoKeys("a.b", "c");
    DottedNames();
    assert ["a.b", "c"][1..] == ["c"] && ["c"][1..] == [];
  }

  /**
   Dotted keys can hide a difference: both trees have a key `a.b` that shares its name with the
   path from `a` to `b`. When `a` comes first, `a.b` is passed over and `a.b.c` missed.
   */
  lemma DottedKeysCollide(order: KeyOrder)
    requires Orders(order)
    ensures DiffersAt(DOTTED_BEFORE, DOTTED_AFTER, ["a.b", "c"]) && Dotted(["a.b", "c"]) == "a.b.c"
    ensures order(DOTTED_BEFORE.fields) in [["a", "a.b"], ["a.b", "a"]]
    ensures Listed(order, DOTTED_BEFORE, DOTTED_AFTER, "", []) ==
              if order(DOTTED_BEFORE.fields)[0] == "a" then ["a.b"] else ["a.b.c", "a.b"]
  {
    hide Orders, ListedKeys, DiffersAt, Dotted;
    MissedSetting();
    BothKeys(order, DOTTED_BEFORE.fields, "a", "a.b");
    BothKeys(order, DOTTED_AFTER.fields, "a", "a.b");
    var first, second := order(DOTTED_BEFORE.fields), order(DOTTED_AFTER.fields);
    DottedKeys(order, first, second);
  }

  /** The list of changes of `changed_paths`. */
  method ChangedPaths(order: KeyOrder, before: Json, after: Json) returns (paths: seq<string>)
    requires Orders(order)
    ensures Distinct(paths)
    ensures forall name | name in paths :: exists path | DiffersAt(before, after, path) :: name == Dotted(path)
    ensures Plain(before) && Plain(after) ==> forall path | DiffersAt(before, after, path) :: Dotted(path) in paths
  {
    assert Dotted([]) == "";
    hide DiffersAt, Dotted, Plain;
    paths := Diff(order, before, after, "", [], []);
    assert paths[0..] == paths;
    assert forall path: Path :: [] + path == path;
  }

  // ---------- Boot keys ----------

  /** The settings read once at boot, as paths. */
  function BootPaths(): (r: seq<Path>)
    ensures forall i | 0 <= i < |r| :: r[i] != []
  {
    [["engine", "mode"], ["runtime"], ["dns", "tcp_max_connections"], ["dns", "udp_max_inflight"], ["dns", "listen"],
     ["dns", "blocking"], ["dns", "cache"], ["dns", "upstreams"], ["http"], ["https"], ["egress"],
     ["stats", "snapshot_interval_seconds"], ["history", "sample_interval_seconds"], ["api", "address"],
     ["api", "port"], ["api", "tls"], ["log", "level"], ["log", "format"]]
  }

  const BOOT_KEYS: seq<string> :=
    [Extend("engine", "mode"), "runtime", Extend("dns", "tcp_max_connections"), Extend("dns", "udp_max_inflight"),
     Extend("dns", "listen"), Extend("dns", "blocking"), Extend("dns", "cache"), Extend("dns", "upstreams"), "http",
     "https", "egress", Extend("stats", "snapshot_interval_seconds"), Extend("history", "sample_interval_seconds"),
     Extend("api", "address"), Extend("api", "port"), Extend("api", "tls"), Extend("log", "level"),
     Extend("log", "format")]

  predicate IsBootKey(path: string) {
    exists i | 0 <= i < |BOOT_KEYS| :: Under(path, BOOT_KEYS[i])
  }

  lemma TwoKeys(section: string, key: string)
    ensures Dotted([section, key]) == Extend(section, key)
  {
    OneKey(section);
    DottedExtend([section], key);
    assert [section] + [key] == [section, key];
  }

  lemma OneKey(section: string)
    ensures Dotted([section]) == section
  {
    assert [section][..0] == [];
  }

  lemma BootKeysAreDotted(i: nat)
    requires i < 18
    ensures |BootPaths()| == |BOOT_KEYS| == 18
    ensures Dotted(BootPaths()[i]) == BOOT_KEYS[i]
  {
    hide Dotted, Extend;
    var path := BootPaths()[i];
    if |path| == 1 {
      OneKey(path[0]);
      assert path == [path[0]];
    } else {
      TwoKeys(path[0], path[1]);
      assert path == [path[0], path[1]];
    }
  }

  lemma BootKeysArePlain(i: nat)
    requires i < 18
    ensures |BootPaths()| == 18 && PlainPath(BootPaths()[i])
  {
    hide PlainPath;
    if i < 9 {
      EarlyKeysArePlain(i);
    } else {
      LateKeysArePlain(i);
    }
  }

  lemma EarlyKeysArePlain(i: nat)
    requires i < 9
    ensures PlainPath(BootPaths()[i])
  {
  }

  lemma LateKeysArePlain(i: nat)
    requires 9 <= i < 18
    ensures PlainPath(BootPaths()[i])
  {
  }

  /** A changed setting counts as one read at boot exactly when it lies at or below a boot key. */
  lemma IsBootKeyIff(path: Path)
    requires PlainPath(path)
    ensures IsBootKey(Dotted(path)) <==> exists i | 0 <= i < |BootPaths()| :: BootPaths()[i] <= path
  {
    hide Dotted, Under;
    forall i | 0 <= i < 18
      ensures |BootPaths()| == |BOOT_KEYS| == 18
      ensures Under(Dotted(path), BOOT_KEYS[i]) <==> BootPaths()[i] <= path
    {
      BootKeysAreDotted(i);
      BootKeysArePlain(i);
      UnderIff(BootPaths()[i], path);
    }
  }

  // ---------- What needs a restart ----------

  predicate AtBoot(path: Path) {
    exists i | 0 <= i < |BootPaths()| :: BootPaths()[i] <= path
  }

  ghost predicate BootSettingDiffers(before: Json, after: Json) {
    exists path | AtBoot(path) :: DiffersAt(before, after, path)
  }

  ghost predicate LiveSettingDiffers(before: Json, after: Json) {
    exists path | !AtBoot(path) :: DiffersAt(before, after, path)
  }

  /** Some setting that is read once, at boot, reads differently now. */
  ghost predicate BootReadsDiffer(before: Json, after: Json) {
    exists path | AtBoot(path) :: !ReadsSame(before, after, path)
  }

  /** A section that holds a boot key became something else, or was something else, and the key's value with it. */
  predicate SectionLost(before: Json, after: Json) {
    exists i, n | 0 <= i < |BootPaths()| && 0 <= n < |BootPaths()[i]| ::
      DiffersAt(before, after, BootPaths()[i][..n]) && At(before, BootPaths()[i]) != At(after, BootPaths()[i])
  }

  /** Some boot-time setting reads differently exactly when a restart is asked for or a section was lost. */
  lemma BootReadsDifferIff(before: Json, after: Json)
    ensures BootReadsDiffer(before, after) <==> BootSettingDiffers(before, after) || SectionLost(before, after)
  {
    hide BootPaths;
    if BootReadsDiffer(before, after) {
      var path :| AtBoot(path) && !ReadsSame(before, after, path);
      var i :| 0 <= i < |BootPaths()| && BootPaths()[i] <= path;
      ReadsDifferCause(before, after, path, i);
    }
    if SectionLost(before, after) {
      var i, n :| 0 <= i < |BootPaths()| && 0 <= n < |BootPaths()[i]|
                  && DiffersAt(before, after, BootPaths()[i][..n])
                  && At(before, BootPaths()[i]) != At(after, BootPaths()[i]);
      LostSectionReads(before, after, BootPaths()[i], n);
    }
  }

  lemma ReadsDifferCause(before: Json, after: Json, path: Path, i: nat)
    requires i < |BootPaths()| && BootPaths()[i] <= path && !ReadsSame(before, after, path)
    ensures BootSettingDiffers(before, after) || SectionLost(before, after)
  {
    hide BootPaths;
    var boot := BootPaths()[i];
    var n := StopsAt(before, after, path);
    var rest := path[|boot|..];
    assert path == boot + rest;
    AtConcat(before, boot, rest);
    AtConcat(after, boot, rest);
    assert n >= |boot| ==> boot <= path[..n];
    assert forall m | 0 <= m <= |boot| :: path[..m] == boot[..m];
  }

  lemma LostSectionReads(before: Json, after: Json, boot: Path, n: nat)
    requires n < |boot| && DiffersAt(before, after, boot[..n]) && At(before, boot) != At(after, boot)
    ensures !ReadsSame(before, after, boot)
  {
    var rest := boot[n..];
    assert boot == boot[..n] + rest;
    AtConcat(before, boot[..n], rest);
    AtConcat(after, boot[..n], rest);
    if !At(before, boot[..n]).Obj? {
      AtBelowLeaf(At(before, boot[..n]), rest);
    } else {
      AtBelowLeaf(At(after, boot[..n]), rest);
    }
  }

  /** Every section that holds a boot key is an object. */
  predicate Sectioned(j: Json) {
    forall i, n | 0 <= i < |BootPaths()| && 0 <= n < |BootPaths()[i]| :: At(j, BootPaths()[i][..n]).Obj?
  }

  /** With its sections in place, a restart is asked for exactly when some boot-time setting reads differently. */
  lemma RestartIff(before: Json, after: Json)
    requires Sectioned(before) && Sectioned(after)
    ensures BootSettingDiffers(before, after) <==> BootReadsDiffer(before, after)
  {
    hide BootPaths, BootReadsDiffer, BootSettingDiffers;
    BootReadsDifferIff(before, after);
  }

  /**
   On arbitrary trees, a boot-time setting can change with its section and no restart is asked
   for. A configuration never gets there: its sections are objects, so `RestartIff` applies.
   */
  lemma LostSectionIsMissed()
    ensures var before, after := Obj(map["engine" := Obj(map["mode" := Scalar("dns")])]), Obj(map["engine" := Null]);
            BootReadsDiffer(before, after) && !BootSettingDiffers(before, after)
  {
    var before, after := Obj(map["engine" := Obj(map["mode" := Scalar("dns")])]), Obj(map["engine" := Null]);
    var path := ["engine", "mode"];
    assert BootPaths()[0] <= path;
    assert path[1..] == ["mode"] && ["mode"][1..] == [];
    assert !ReadsSame(before, after, path);
    forall other | AtBoot(other)
      ensures !DiffersAt(before, after, other)
    {
      if DiffersAt(before, after, other) {
        assert other != [];
        DiffersBelow(before, after, other);
        assert other[0] == "engine" && other[1..] == [];
        assert other == ["engine"];
        NotAtBoot(other);
      }
    }
  }

  lemma NotAtBoot(path: Path)
    requires path == ["engine"]
    ensures !AtBoot(path)
  {
    forall i | 0 <= i < |BootPaths()|
      ensures !(BootPaths()[i] <= path)
    {
      assert BootPaths()[i][0] != "engine" || |BootPaths()[i]| == 2;
    }
  }

  /** The two flags, read off the list of changes. */
  lemma FlagsFromPaths(before: Json, after: Json, paths: seq<string>)
    requires Plain(before) && Plain(after)
    requires forall path | DiffersAt(before, after, path) :: Dotted(path) in paths
    requires forall name | name in paths :: exists path | DiffersAt(before, after, path) :: name == Dotted(path)
    ensures (exists name | name in paths :: IsBootKey(name)) <==> BootSettingDiffers(before, after)
    ensures (exists name | name in paths :: !IsBootKey(name)) <==> LiveSettingDiffers(before, after)
  {
    hide Dotted, DiffersAt, IsBootKey, BootPaths;
    forall path | DiffersAt(before, after, path)
      ensures IsBootKey(Dotted(path)) <==> AtBoot(path)
    {
      DifferencesArePlain(before, after, path);
      IsBootKeyIff(path);
    }
  }

  // ---------- The store ----------

  datatype Outcome = Outcome(applied: bool, restartRequired: bool)

  datatype StoreError = Invalid | Write

  /** The tree of a configuration: its keys are field names and its sections are objects. */
  predicate IsConfig(j: Json) {
    Plain(j) && Sectioned(j)
  }

  /** Parsing a tree into a configuration and validating it, as the tree of the configuration. */
  type Schema = Json -> Option<Json>

  ghost predicate YieldsConfigs(schema: Schema) {
    forall j :: schema(j).Some? ==> IsConfig(schema(j).value)
  }

  /** The schema accepts the merge as it stands: it serialises the configuration back to the same tree. */
  predicate TakenAsItIs(schema: Schema, current: Json, patch: Json) {
    patch.Obj? && schema(Merge(current, patch)) == Some(Merge(current, patch))
  }

  /** Every leaf of the patch is in `next`, and whatever the patch does not mention is as it was. */
  ghost predicate Patched(current: Json, patch: Json, next: Json) {
    && (forall path | Find(patch, path).Some? && !Find(patch, path).value.Obj? :: Find(next, path) == Find(patch, path))
    && (forall path | Untouched(patch, path) :: Find(next, path) == Find(current, path))
  }

  lemma MergeIsPatched(current: Json, patch: Json)
    ensures Patched(current, patch, Merge(current, patch))
  {
    hide Merge, Find, Untouched;
    forall path | Find(patch, path).Some? && !Find(patch, path).value.Obj?
      ensures Find(Merge(current, patch), path) == Find(patch, path)
    {
      MergeSetsEveryLeaf(current, patch, path);
    }
    forall path | Untouched(patch, path)
      ensures Find(Merge(current, patch), path) == Find(current, path)
    {
      MergeKeepsTheRest(current, patch, path);
    }
  }

  class Store {
    /** The running configuration, as its tree. */
    var current: Json
    /** The configuration file. */
    var file: Json

    ghost predicate Valid()
      reads this
    {
      IsConfig(current)
    }

    constructor (config: Json, onDisk: Json)
      requires IsConfig(config)
      ensures Valid() && current == config && file == onDisk
    {
      current, file := config, onDisk;
    }

    /** Applies a partial update; `saves` says whether the file can be written. */
    method ApplyPatch(patch: Json, schema: Schema, order: KeyOrder, saves: bool)
      returns (r: Result<Outcome, StoreError>)
      requires Valid() && YieldsConfigs(schema) && Orders(order)
      modifies this
      ensures Valid()
      ensures r.Err? ==> current == old(current) && file == old(file)
      ensures r == Err(Invalid) <==> !patch.Obj? || schema(Merge(old(current), patch)).None?
      ensures r == Err(Write) <==> patch.Obj? && schema(Merge(old(current), patch)).Some? && !saves
      ensures r.Ok? ==> schema(Merge(old(current), patch)) == Some(current) && file == current
      ensures r.Ok? && TakenAsItIs(schema, old(current), patch) ==> Patched(old(current), patch, current)
      ensures r.Ok? ==> (r.value.restartRequired <==> BootReadsDiffer(old(current), current))
      ensures r.Ok? ==> (r.value.applied <==> LiveSettingDiffers(old(current), current))
    {
      if !patch.Obj? {
        return Err(Invalid);
      }
      hide Merge, Dotted, DiffersAt, BootPaths, IsBootKey, Plain, Sectioned, Patched;
      hide BootSettingDiffers, LiveSettingDiffers, BootReadsDiffer;
      var merged := MergeInto(current, patch);
      var parsed := schema(merged);
      if parsed.None? {
        return Err(Invalid);
      }
      var candidate := parsed.value;
      MergeIsPatched(current, patch);
      var changed := ChangedPaths(order, current, candidate);
      FlagsFromPaths(current, candidate, changed);
      RestartIff(current, candidate);
      var restartRequired := exists path | path in changed :: IsBootKey(path);
      var applied := exists path | path in changed :: !IsBootKey(path);
      if !saves {
        return Err(Write);
      }
      file := candidate;
      current := candidate;
      return Ok(Outcome(applied, restartRequired));
    }
  }

  /** A patch that is taken as it stands asks for a restart exactly when it sets something new at a boot key. */
  lemma PatchRestartsIff(schema: Schema, current: Json, patch: Json)
    requires YieldsConfigs(schema) && IsConfig(current) && TakenAsItIs(schema, current, patch)
    ensures BootReadsDiffer(current, Merge(current, patch)) <==>
            exists path | AtBoot(path) :: Sets(current, patch, path)
  {
    hide BootPaths, DiffersAt, Sets, Merge, AtBoot, Plain, Sectioned, BootReadsDiffer;
    var next := Merge(current, patch);
    RestartIff(current, next);
    forall path
      ensures DiffersAt(current, next, path) <==> Sets(current, patch, path)
    {
      PatchDiffersIff(current, patch, path);
    }
  }

  /** The same patch again is accepted again, leads nowhere new and raises neither flag. */
  lemma RepeatedPatchChangesNothing(schema: Schema, current: Json, patch: Json)
    requires TakenAsItIs(schema, current, patch)
    ensures var next := Merge(current, patch);
            && Merge(next, patch) == next && TakenAsItIs(schema, next, patch)
            && !BootReadsDiffer(next, next) && !LiveSettingDiffers(next, next)
  {
    hide BootPaths, AtBoot, Merge;
    var next := Merge(current, patch);
    MergeIsIdempotent(current, patch);
    forall path
      ensures !DiffersAt(next, next, path) && ReadsSame(next, next, path)
    {
      SameEverywhere(next, path);
    }
  }
}
