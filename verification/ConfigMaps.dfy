/** The functions of base/config/persistence.go on nested maps that are changed in place, proved
  against the trees of ConfigTree. */
module ConfigMaps {
  import opened Common
  import opened ConfigTree

  datatype Entry = Value(value: Data) | Sub(sub: ConfigMap)

  /** A map[string]interface{} whose values may be further maps; no map is reachable twice. */
  class ConfigMap {
    var entries: map<string, Entry>
    ghost var Repr: set<ConfigMap>

    ghost predicate Valid()
      reads this, Repr
      decreases Repr, 1
    {
      && this in Repr
      && (forall k :: k in entries ==> EntryValid(k))
      && (forall k, l :: k in entries && l in entries ==> Apart(k, l))
    }

    ghost predicate EntryValid(k: string)
      requires this in Repr && k in entries
      reads this, Repr
      decreases Repr, 0
    {
      entries[k].Sub? ==>
        var m := entries[k].sub;
        m in Repr && m.Repr <= Repr && this !in m.Repr && m.Valid()
    }

    ghost predicate Apart(k: string, l: string)
      requires k in entries && l in entries
      reads this, Repr
    {
      k != l && entries[k].Sub? && entries[l].Sub? && entries[k].sub in Repr && entries[l].sub in Repr ==>
        forall m :: m in entries[k].sub.Repr ==> m !in entries[l].sub.Repr
    }

    ghost function Tree(): Sections
      requires Valid()
      reads this, Repr
      decreases Repr, 1
    {
      map k | k in entries :: EntryTree(k)
    }

    ghost function EntryTree(k: string): Node
      requires Valid() && k in entries
      reads this, Repr
      decreases Repr, 0
    {
      assert EntryValid(k);
      match entries[k]
      case Value(v) => Leaf(v)
      case Sub(m) => Section(m.Tree())
    }

    constructor ()
      ensures Valid() && Repr == {this} && Tree() == map[]
    {
      entries := map[];
      Repr := {this};
    }

    /** The maps an entry is made of. */
    ghost function Owned(k: string): set<ConfigMap>
      reads this, Repr
    {
      if k in entries && entries[k].Sub? && entries[k].sub in Repr then entries[k].sub.Repr else {}
    }

    twostate lemma Unwritten()
      requires old(Valid()) && forall m :: m in old(Repr) ==> unchanged(m)
      ensures Valid() && Repr == old(Repr) && Tree() == old(Tree())
    {
    }

    /** An entry keeps its meaning when nothing in it is written. */
    twostate lemma EntryKept(new k: string, new l: string)
      requires old(Valid()) && k != l && l in entries && l in old(entries) && entries[l] == old(entries[l])
      requires this in Repr && old(Repr) <= Repr
      requires forall m :: m in old(Repr) && m != this && m !in old(Owned(k)) ==> unchanged(m)
      ensures EntryValid(l) && Owned(l) == old(Owned(l))
      ensures old(EntryValid(l))
      ensures entries[l].Sub? ==> entries[l].sub.Tree() == old(entries[l].sub.Tree())
    {
      assert old(EntryValid(l));
      assert old(k in entries ==> EntryValid(k) && Apart(l, k));
      if entries[l].Sub? {
        var sub := entries[l].sub;
        assert forall m :: m in old(sub.Repr) ==> m in old(Repr) && m != this && m !in old(Owned(k));
        sub.Unwritten();
      }
    }

    /** Only the entry `k`, and nothing outside what it owned, has changed. */
    twostate predicate OnlyEntry(k: string)
      requires old(Valid())
      reads this, Repr
    {
      && this in Repr && old(Repr) <= Repr
      && entries.Keys - {k} == old(entries.Keys) - {k}
      && (forall l :: l in entries && l != k ==> l in old(entries) && entries[l] == old(entries[l]))
      && (forall m :: m in old(Repr) && m != this && m !in old(Owned(k)) ==> unchanged(m))
      && (k in entries ==> EntryValid(k) && fresh(Owned(k) - old(Owned(k))))
    }

    /** Changing one entry keeps the others. */
    twostate lemma OneEntryChanged(k: string)
      requires old(Valid()) && OnlyEntry(k)
      ensures Valid()
      ensures forall l :: l in entries && l != k ==> EntryTree(l) == old(EntryTree(l))
    {
      forall l | l in entries && l != k
        ensures EntryValid(l) && Owned(l) == old(Owned(l)) && old(EntryValid(l))
        ensures entries[l].Sub? ==> entries[l].sub.Tree() == old(entries[l].sub.Tree())
      {
        EntryKept(k, l);
      }
      forall l, j | l in entries && j in entries
        ensures Apart(l, j)
      {
        assert old(l in entries && j in entries ==> Apart(l, j));
        assert old(k in entries && l in entries ==> Apart(l, k));
        assert old(k in entries && j in entries ==> Apart(j, k));
      }
    }

    method SetValue(k: string, v: Data)
      requires Valid()
      modifies this
      ensures Valid() && Repr == old(Repr)
      ensures Tree() == old(Tree())[k := Leaf(v)]
    {
      entries := entries[k := Value(v)];
      OneEntryChanged(k);
    }

    method Delete(k: string)
      requires Valid()
      modifies this
      ensures Valid() && Repr == old(Repr)
      ensures Tree() == old(Tree()) - {k}
    {
      entries := entries - {k};
      OneEntryChanged(k);
    }

    /** The section under a name; one is made if there is none, in place of any value. */
    method SectionAt(k: string) returns (next: ConfigMap)
      requires Valid()
      modifies this
      ensures Valid() && fresh(Repr - old(Repr))
      ensures k in entries && entries[k] == Sub(next) && EntryValid(k)
      ensures next.Tree() == SectionOf(old(Tree()), k)
      ensures Tree() == old(Tree())[k := Section(next.Tree())]
    {
      assert k in entries ==> EntryValid(k);
      if k in entries && entries[k].Sub? {
        next := entries[k].sub;
      } else {
        next := new ConfigMap();
        entries := entries[k := Sub(next)];
        Repr := Repr + {next};
        OneEntryChanged(k);
      }
    }

    /** PutValueIntoHierarchicalConfig behind the split of the key. */
    method PutParts(parts: Path, v: Data)
      requires Valid() && parts != []
      modifies Repr
      ensures Valid() && fresh(Repr - old(Repr))
      ensures Tree() == Put(old(Tree()), parts, v)
      decreases |parts|, 0
    {
      var part := parts[0];
      if |parts| == 1 {
        SetValue(part, v);
        return;
      }
      ghost var before := Tree();
      var next := SectionAt(part);
      assert fresh(Repr - old(Repr));
      ghost var made := Tree();
      PutInto(part, next, parts[1..], v);
      PutUnfold(before, made, parts, v);
    }

    method PutValue(key: string, v: Data)
      requires Valid()
      modifies Repr
      ensures Valid() && fresh(Repr - old(Repr))
      ensures Tree() == Put(old(Tree()), Split(key), v)
    {
      var parts := Split(key);
      PutParts(parts, v);
    }

    /** The rest of the path goes into the section `next` of this map. */
    method PutInto(part: string, next: ConfigMap, rest: Path, v: Data)
      requires Valid() && rest != [] && part in entries && entries[part] == Sub(next)
      requires EntryValid(part)
      modifies Repr
      ensures Valid() && fresh(Repr - old(Repr))
      ensures Tree() == old(Tree())[part := Section(Put(old(next.Tree()), rest, v))]
      decreases |rest|, 1
    {
      next.PutParts(rest, v);
      Repr := Repr + next.Repr;
      OneEntryChanged(part);
    }

    /** cleanSubMap, with the sections visited in any order. */
    method CleanSubMap(subKey: string, options: set<string>) returns (empty: bool)
      requires Valid()
      modifies Repr
      ensures Valid() && Repr == old(Repr)
      ensures Tree() == Clean(Section(old(Tree())), subKey, options)
      ensures empty <==> Tree() == map[]
      decreases Repr, 1
    {
      ghost var tree := Tree();
      var foundValid: nat := 0;
      var todo := entries.Keys;
      while todo != {}
        invariant Valid() && Repr == old(Repr) && todo <= tree.Keys
        invariant forall k :: k in Tree() <==> k in tree && (k in todo || Keeps(tree[k], k, subKey, options))
        invariant forall k :: k in Tree() ==>
                    Tree()[k] == if k in todo then tree[k] else Kept(tree[k], k, subKey, options)
        invariant foundValid == 0 <==> Tree().Keys <= todo
      {
        var key :| key in todo;
        assert key in Tree() && Tree()[key] == tree[key];
        if entries[key].Sub? {
          var isEmpty := CleanEntry(key, subKey, options);
          if isEmpty {
            Delete(key);
          } else {
            foundValid := foundValid + 1;
          }
        } else if '/' in key {
          Delete(key);
        } else if PathJoin(subKey, key) in options {
          foundValid := foundValid + 1;
        } else {
          Delete(key);
        }
        todo := todo - {key};
      }
      return foundValid == 0;
    }

    /** The section under a name is cleaned. */
    method CleanEntry(key: string, subKey: string, options: set<string>) returns (isEmpty: bool)
      requires Valid() && key in entries && entries[key].Sub?
      modifies Repr
      ensures Valid() && Repr == old(Repr) && entries == old(entries)
      ensures var cleaned := Clean(old(EntryTree(key)), PathJoin(subKey, key), options);
              Tree() == old(Tree())[key := Section(cleaned)] && (isEmpty <==> cleaned == map[])
      decreases Repr, 0
    {
      assert EntryValid(key);
      var value := entries[key].sub;
      isEmpty := value.CleanSubMap(PathJoin(subKey, key), options);
      OneEntryChanged(key);
    }
  }

  /** A flat map[string]interface{}. */
  class FlatConfig {
    var values: map<string, Data>

    constructor ()
      ensures values == map[]
    {
      values := map[];
    }

    /** flattenMap, with the entries visited in any order, for any names. */
    method FlattenMap(subMap: ConfigMap, subKey: string)
      requires subMap.Valid()
      modifies this
      ensures Laid(values, old(values), Section(subMap.Tree()), subKey, {})
      decreases subMap.Repr
    {
      ghost var t := Section(subMap.Tree());
      var todo := subMap.entries.Keys;
      while todo != {}
        invariant todo <= t.entries.Keys
        invariant Laid(values, old(values), t, subKey, todo)
      {
        var key :| key in todo;
        var subbedKey := PathJoin(subKey, key);
        ghost var mid := values;
        assert key in t.entries && t.entries[key] == subMap.EntryTree(key);
        assert subMap.EntryValid(key);
        match subMap.entries[key] {
          case Sub(nextSub) =>
            FlattenMap(nextSub, subbedKey);
            LaidSection(mid, values, old(values), t, subKey, todo, key);
          case Value(v) =>
            values := values[subbedKey := v];
            LaidLeaf(mid, old(values), t, subKey, todo, key);
        }
        todo := todo - {key};
      }
    }

    /** CleanFlattenedConfig, with the keys visited in any order. */
    method CleanFlattenedConfig(options: set<string>)
      modifies this
      ensures values == CleanFlat(old(values), options)
    {
      var todo := values.Keys;
      while todo != {}
        invariant todo <= values.Keys
        invariant values.Keys <= old(values.Keys) && forall k :: k in values ==> values[k] == old(values)[k]
        invariant forall k :: k in old(values) ==> (k in values <==> k in todo || k in options)
      {
        var key :| key in todo;
        if key !in options {
          values := values - {key};
        }
        todo := todo - {key};
      }
    }
  }

  /** Flatten, in any order of iteration, for any names. */
  method Flatten(config: ConfigMap) returns (flattened: FlatConfig)
    requires config.Valid()
    ensures fresh(flattened)
    ensures Flattening(flattened.values, Section(config.Tree()))
  {
    flattened := new FlatConfig();
    flattened.FlattenMap(config, "");
    LaidAll(flattened.values, Section(config.Tree()));
  }

  /** The tree holds the keys outside `todo`, as far as they do not stand in each other's way. */
  ghost predicate Expanding(m: map<string, Data>, todo: set<string>, tree: Sections) {
    && Tidy(tree) && SlashFreeNames(Section(tree))
    && (forall key :: ValueAt(tree, key).Some? ==> key !in todo && ValueAt(tree, key) == Get(m, key))
    && (PrefixFree(m.Keys) ==> forall key :: key in m && key !in todo ==> ValueAt(tree, key).Some?)
  }

  lemma ExpandStep(m: map<string, Data>, todo: set<string>, tree: Sections, key: string)
    requires Expanding(m, todo, tree) && todo <= m.Keys && key in todo
    ensures Expanding(m, todo - {key}, Put(tree, Split(key), m[key]))
  {
    PutTidy(tree, Split(key), m[key]);
    PutSlashFree(tree, Split(key), m[key]);
    var after := Put(tree, Split(key), m[key]);
    forall other
      ensures ValueAt(after, other) ==
                if other == key then Some(m[key])
                else if Extends(key, other) || Extends(other, key) then None
                else ValueAt(tree, other)
    {
      PutLaw(tree, key, m[key], other);
    }
  }

  /** Expand, with the keys visited in any order: the tree holds the values of the flat config if and
      only if no key extends another one; it never holds anything else. */
  method Expand(flattened: map<string, Data>) returns (config: ConfigMap)
    ensures config.Valid() && fresh(config.Repr)
    ensures Tidy(config.Tree()) && SlashFreeNames(Section(config.Tree()))
    ensures forall key :: ValueAt(config.Tree(), key).Some? ==> ValueAt(config.Tree(), key) == Get(flattened, key)
    ensures IsFlatOf(flattened, config.Tree()) <==> PrefixFree(flattened.Keys)
  {
    config := new ConfigMap();
    var todo := flattened.Keys;
    while todo != {}
      invariant config.Valid() && fresh(config.Repr) && todo <= flattened.Keys
      invariant Expanding(flattened, todo, config.Tree())
    {
      var key :| key in todo;
      ExpandStep(flattened, todo, config.Tree(), key);
      config.PutValue(key, flattened[key]);
      todo := todo - {key};
    }
    if IsFlatOf(flattened, config.Tree()) {
      TreeKeysPrefixFree(flattened, config.Tree());
    }
  }

  /** Expanding and flattening gives the config back, in every order of iteration, if and only if no key
      extends another one and every key is stable. */
  method ExpandThenFlatten(flattened: map<string, Data>) returns (again: FlatConfig)
    ensures fresh(again)
    ensures again.values == flattened <==> PrefixFree(flattened.Keys) && StableKeys(flattened.Keys)
  {
    var config := Expand(flattened);
    again := Flatten(config);
    FlattenedIff(flattened, config.Tree(), again.values);
  }

  /** The shape json.Marshal writes: the nested maps as a value. */
  method Encode(config: ConfigMap) returns (tree: Sections)
    requires config.Valid()
    ensures tree == config.Tree()
    decreases config.Repr
  {
    tree := map[];
    var todo := config.entries.Keys;
    while todo != {}
      invariant todo <= config.entries.Keys
      invariant tree.Keys == config.entries.Keys - todo
      invariant forall k :: k in tree ==> tree[k] == config.EntryTree(k)
    {
      var key :| key in todo;
      assert config.EntryValid(key);
      match config.entries[key] {
        case Value(v) => tree := tree[key := Leaf(v)];
        case Sub(m) =>
          var sub := Encode(m);
          tree := tree[key := Section(sub)];
      }
      todo := todo - {key};
    }
  }

  /** The shape json.Unmarshal builds: fresh nested maps for the value. */
  method Decode(t: Node) returns (config: ConfigMap)
    requires t.Section?
    ensures config.Valid() && fresh(config.Repr)
    ensures config.Tree() == t.entries
    decreases t, 0
  {
    config := new ConfigMap();
    var todo := t.entries.Keys;
    while todo != {}
      invariant config.Valid() && fresh(config.Repr) && todo <= t.entries.Keys
      invariant config.Tree().Keys == t.entries.Keys - todo
      invariant forall k :: k in config.Tree() ==> config.Tree()[k] == t.entries[k]
    {
      var key :| key in todo;
      match t.entries[key] {
        case Leaf(v) => config.SetValue(key, v);
        case Section(_) => DecodeInto(config, key, t.entries[key]);
      }
      todo := todo - {key};
    }
  }

  method DecodeInto(config: ConfigMap, key: string, t: Node)
    requires config.Valid() && t.Section?
    modifies config
    ensures config.Valid() && fresh(config.Repr - old(config.Repr))
    ensures config.Tree() == old(config.Tree())[key := t]
    decreases t, 1
  {
    var sub := Decode(t);
    config.entries := config.entries[key := Sub(sub)];
    config.Repr := config.Repr + sub.Repr;
    config.OneEntryChanged(key);
  }
}
