/** Flat and hierarchical configs (base/config/persistence.go): the meaning of nested maps, of inserting
  a value and of cleaning, and the laws that connect them with flat maps. */
module ConfigTree {
  import opened Common

  /** An option value as encoding/json and callers pass it around; never a map. A nil []string and an
      empty one are different values. */
  datatype Data =
    | Null
    | Str(s: string)
    | Bool(b: bool)
    | Strings(items: seq<string>)
    | NilStrings
    | List(entries: seq<Data>)
    | Number(n: int)

  /** A nested map: every entry is a value or another map. */
  datatype Node = Leaf(value: Data) | Section(entries: map<string, Node>)

  type Sections = map<string, Node>

  type Path = seq<string>

  // ------------------------------------------------------------ flat keys

  /** strings.Split(key, "/") */
  function Split(key: string): (parts: Path)
    ensures parts != []
    ensures forall i :: 0 <= i < |parts| ==> '/' !in parts[i]
  {
    if key == "" then [""]
    else
      var rest := Split(key[1..]);
      if key[0] == '/' then [""] + rest else [[key[0]] + rest[0]] + rest[1..]
  }

  function Join(parts: Path): string
    requires parts != []
  {
    if |parts| == 1 then parts[0] else parts[0] + "/" + Join(parts[1..])
  }

  lemma {:induction false} JoinSplit(key: string)
    ensures Join(Split(key)) == key
  {
    if key != "" {
      JoinSplit(key[1..]);
      var rest := Split(key[1..]);
      if key[0] == '/' {
        assert Split(key)[1..] == rest;
      } else {
        assert Split(key)[1..] == rest[1..];
        assert key == [key[0]] + key[1..];
      }
    }
  }

  lemma {:induction false} SplitSlashFree(part: string)
    requires '/' !in part
    ensures Split(part) == [part]
  {
    if part != "" {
      assert part[0] in part;
      SplitSlashFree(part[1..]);
      assert [part[0]] + part[1..] == part;
    }
  }

  lemma {:induction false} SplitAppend(part: string, rest: string)
    requires '/' !in part
    ensures Split(part + "/" + rest) == [part] + Split(rest)
  {
    var key := part + "/" + rest;
    if part == "" {
      assert key[1..] == rest;
    } else {
      assert part[0] in part;
      SplitAppend(part[1..], rest);
      assert key[1..] == part[1..] + "/" + rest;
      assert [part[0]] + part[1..] == part;
    }
  }

  /** Slash-free parts survive joining and splitting. */
  lemma {:induction false} SplitJoin(parts: Path)
    requires parts != [] && forall i :: 0 <= i < |parts| ==> '/' !in parts[i]
    ensures Split(Join(parts)) == parts
  {
    if |parts| == 1 {
      SplitSlashFree(parts[0]);
    } else {
      SplitJoin(parts[1..]);
      SplitAppend(parts[0], Join(parts[1..]));
    }
  }

  lemma {:induction false} JoinConcat(p: Path, q: Path)
    requires p != [] && q != []
    ensures Join(p + q) == Join(p) + "/" + Join(q)
  {
    if |p| == 1 {
      assert (p + q)[1..] == q;
    } else {
      JoinConcat(p[1..], q);
      assert (p + q)[1..] == p[1..] + q;
    }
  }

  // -------------------------------------------------- meaning of the trees

  function Lookup(t: Node, p: Path): Option<Data>
    decreases p
  {
    match t
    case Leaf(v) => if p == [] then Some(v) else None
    case Section(es) => if p != [] && p[0] in es then Lookup(es[p[0]], p[1..]) else None
  }

  /** The value a hierarchical config holds under a flat key. */
  function ValueAt(config: Sections, key: string): Option<Data> {
    Lookup(Section(config), Split(key))
  }

  function Get(m: map<string, Data>, key: string): Option<Data> {
    if key in m then Some(m[key]) else None
  }

  /** The flat config holds exactly the values of the tree. */
  ghost predicate IsFlatOf(m: map<string, Data>, config: Sections) {
    forall key :: Get(m, key) == ValueAt(config, key)
  }

  /** There is at most one flat config of a tree. */
  lemma FlatUnique(m: map<string, Data>, n: map<string, Data>, config: Sections)
    requires IsFlatOf(m, config) && IsFlatOf(n, config)
    ensures m == n
  {
    forall key ensures Get(m, key) == Get(n, key) {
      assert Get(m, key) == ValueAt(config, key);
    }
    assert forall key :: key in m ==> Get(n, key) == Get(m, key);
    assert forall key :: key in n ==> Get(m, key) == Get(n, key);
  }

  /** No section below is empty. */
  predicate NoEmptySections(t: Node) {
    t.Section? ==> t.entries != map[] && forall k :: k in t.entries ==> NoEmptySections(t.entries[k])
  }

  predicate Tidy(config: Sections) {
    forall k :: k in config ==> NoEmptySections(config[k])
  }

  /** A tree without empty sections holds a value somewhere. */
  lemma {:induction false} HoldsSomething(t: Node) returns (p: Path)
    requires NoEmptySections(t)
    ensures Lookup(t, p).Some?
  {
    if t.Leaf? {
      p := [];
    } else {
      var k :| k in t.entries;
      var q := HoldsSomething(t.entries[k]);
      p := [k] + q;
      assert p[1..] == q;
    }
  }

  /** Trees without empty sections are determined by the values they hold. */
  lemma {:induction false} TidyUnique(t: Node, u: Node)
    requires t.Section? ==> Tidy(t.entries)
    requires u.Section? ==> Tidy(u.entries)
    requires t.Section? == u.Section? && forall p :: Lookup(t, p) == Lookup(u, p)
    ensures t == u
  {
    if t.Leaf? {
      assert Lookup(t, []) == Lookup(u, []);
    } else {
      SameKeys(t.entries, u.entries);
      SameKeys(u.entries, t.entries);
      forall k | k in t.entries ensures t.entries[k] == u.entries[k] {
        forall p ensures Lookup(t.entries[k], p) == Lookup(u.entries[k], p) {
          assert ([k] + p)[1..] == p;
          assert Lookup(t, [k] + p) == Lookup(u, [k] + p);
        }
        SameKind(t.entries[k], u.entries[k]);
        TidyUnique(t.entries[k], u.entries[k]);
      }
    }
  }

  lemma SameKind(t: Node, u: Node)
    requires NoEmptySections(t) && NoEmptySections(u) && forall p :: Lookup(t, p) == Lookup(u, p)
    ensures t.Section? == u.Section?
  {
    assert Lookup(t, []) == Lookup(u, []);
  }

  lemma SameKeys(c: Sections, d: Sections)
    requires Tidy(c) && forall p :: Lookup(Section(c), p) == Lookup(Section(d), p)
    ensures c.Keys <= d.Keys
  {
    forall k | k in c ensures k in d {
      var q := HoldsSomething(c[k]);
      assert ([k] + q)[1..] == q;
      assert Lookup(Section(c), [k] + q) == Lookup(Section(d), [k] + q);
    }
  }

  // ------------------------------------------------------ inserting a value

  function SectionOf(es: Sections, name: string): Sections {
    if name in es && es[name].Section? then es[name].entries else map[]
  }

  /** PutValueIntoHierarchicalConfig: sections are made on the way, and whatever value is in the way
      is replaced. */
  function Put(es: Sections, parts: Path, v: Data): Sections
    requires parts != []
    decreases parts
  {
    if |parts| == 1 then es[parts[0] := Leaf(v)]
    else es[parts[0] := Section(Put(SectionOf(es, parts[0]), parts[1..], v))]
  }

  lemma PutUnfold(es: Sections, made: Sections, parts: Path, v: Data)
    requires |parts| > 1 && made == es[parts[0] := Section(SectionOf(es, parts[0]))]
    ensures made[parts[0] := Section(Put(SectionOf(es, parts[0]), parts[1..], v))] == Put(es, parts, v)
  {
  }

  /** One path continues the other. */
  predicate Related(p: Path, q: Path) {
    p != q && (p <= q || q <= p)
  }

  lemma {:induction false} PutLookup(es: Sections, parts: Path, v: Data, p: Path)
    requires parts != []
    ensures Lookup(Section(Put(es, parts, v)), p) ==
              if p == parts then Some(v) else if Related(p, parts) then None else Lookup(Section(es), p)
    decreases parts
  {
    if p != [] && p[0] == parts[0] {
      assert p == parts <==> p[1..] == parts[1..];
      assert p <= parts <==> p[1..] <= parts[1..];
      assert parts <= p <==> parts[1..] <= p[1..];
      if |parts| > 1 {
        var sub := SectionOf(es, parts[0]);
        PutLookup(sub, parts[1..], v, p[1..]);
      } else {
        assert parts == [parts[0]];
      }
    }
  }

  /** A key continues another one at a slash. */
  predicate Extends(key: string, base: string) {
    base + "/" <= key
  }

  predicate SlashFree(p: Path) {
    forall i :: 0 <= i < |p| ==> '/' !in p[i]
  }

  lemma {:induction false} PrefixIsExtends(p: Path, q: Path)
    requires p != [] && q != [] && SlashFree(p) && SlashFree(q)
    ensures p < q <==> Extends(Join(q), Join(p))
  {
    if |q| == 1 {
      if Extends(Join(q), Join(p)) {
        ExtendsHasSlash(Join(q), Join(p));
      }
    } else {
      var b := Join(q[1..]);
      if |p| == 1 {
        HeadExtends(p[0], "", q[0], b);
        assert p[0] + "/" + "" == p[0] + "/";
      } else {
        PrefixIsExtends(p[1..], q[1..]);
        var a := Join(p[1..]);
        HeadExtends(p[0], a + "/", q[0], b);
        assert p[0] + "/" + (a + "/") == Join(p) + "/";
      }
    }
  }

  lemma ExtendsHasSlash(key: string, base: string)
    requires Extends(key, base)
    ensures '/' in key
  {
    assert key[|base|] == '/';
  }

  /** Prefixes compare part by part: first up to the slash, then behind it. */
  lemma HeadExtends(a: string, x: string, b: string, y: string)
    requires '/' !in a && '/' !in b
    ensures a + "/" + x <= b + "/" + y <==> a == b && x <= y
  {
    var l, r := a + "/" + x, b + "/" + y;
    assert l[|a| + 1..] == x && r[|b| + 1..] == y;
    if a == b && x <= y {
      assert y[..|x|] == x && r[..|l|] == l;
    }
    if l <= r {
      assert l[|a|] == '/' && r[|a|] == '/' && r[|b|] == '/';
      assert forall i :: 0 <= i < |b| ==> r[i] == b[i];
      assert forall i :: 0 <= i < |a| ==> r[i] == a[i];
      assert |a| == |b|;
      assert a == r[..|a|] == b;
      assert x == r[|a| + 1..][..|x|];
    }
  }

  /** The law of hierarchical insert, for every tree and key: the value appears under its key, every
      key that is a proper prefix or an extension of it disappears, and nothing else changes. */
  lemma PutLaw(config: Sections, key: string, v: Data, other: string)
    ensures ValueAt(Put(config, Split(key), v), other) ==
              if other == key then Some(v)
              else if Extends(key, other) || Extends(other, key) then None
              else ValueAt(config, other)
  {
    var p, q := Split(other), Split(key);
    PutLookup(config, q, v, p);
    JoinSplit(key);
    JoinSplit(other);
    PrefixIsExtends(p, q);
    PrefixIsExtends(q, p);
  }

  lemma {:induction false} PutTidy(es: Sections, parts: Path, v: Data)
    requires parts != [] && Tidy(es)
    ensures Tidy(Put(es, parts, v))
    decreases parts
  {
    if |parts| > 1 {
      var sub := SectionOf(es, parts[0]);
      PutTidy(sub, parts[1..], v);
      assert parts[1] in Put(sub, parts[1..], v);
    }
  }

  // ----------------------------------------------------- prefix-free keys

  predicate PrefixFree(keys: set<string>) {
    forall k, l :: k in keys && l in keys ==> !Extends(k, l)
  }

  lemma {:induction false} LookupPrefixFree(t: Node, p: Path, q: Path)
    requires Lookup(t, p).Some? && Lookup(t, q).Some?
    ensures !(p < q)
    decreases p
  {
    if p < q && p != [] {
      LookupPrefixFree(t.entries[p[0]], p[1..], q[1..]);
    }
  }

  /** The keys of any tree are prefix-free. */
  lemma TreeKeysPrefixFree(m: map<string, Data>, config: Sections)
    requires IsFlatOf(m, config)
    ensures PrefixFree(m.Keys)
  {
    forall k, l | k in m && l in m ensures !Extends(k, l) {
      assert Get(m, k) == ValueAt(config, k) && Get(m, l) == ValueAt(config, l);
      LookupPrefixFree(Section(config), Split(l), Split(k));
      JoinSplit(k);
      JoinSplit(l);
      PrefixIsExtends(Split(l), Split(k));
    }
  }

  // ----------------------------------------------------------- path.Join

  /** What path.Clean makes of the segments kept so far and one more. */
  function CleanedStep(kept: Path, segment: string, rooted: bool): Path {
    if segment == "" || segment == "." then kept
    else if segment != ".." then kept + [segment]
    else if kept != [] && kept[|kept| - 1] != ".." then kept[..|kept| - 1]
    else if rooted then kept
    else kept + [".."]
  }

  /** The segments path.Clean keeps of `segments`, behind those in `kept`. */
  function Cleaned(segments: Path, kept: Path, rooted: bool): Path {
    if segments == [] then kept else Cleaned(segments[1..], CleanedStep(kept, segments[0], rooted), rooted)
  }

  /** What one more segment does: an empty one and "." nothing, and a name is kept until ".." takes it back. */
  lemma CleanedLaws(path: Path, name: string, rooted: bool)
    requires CleanName(name)
    ensures Cleaned(path + [""], [], rooted) == Cleaned(path, [], rooted) == Cleaned(path + ["."], [], rooted)
    ensures Cleaned(path + [name], [], rooted) == Cleaned(path, [], rooted) + [name]
    ensures Cleaned(path + [name] + [".."], [], rooted) == Cleaned(path, [], rooted)
  {
    var kept := Cleaned(path, [], rooted);
    CleanedSnoc(path, "", [], rooted);
    CleanedSnoc(path, ".", [], rooted);
    CleanedSnoc(path, name, [], rooted);
    CleanedSnoc(path + [name], "..", [], rooted);
    assert (kept + [name])[..|kept|] == kept;
  }

  /** With no name to take back, ".." is kept in a relative path and dropped at the root. */
  lemma CleanedParents(path: Path, rooted: bool)
    requires var kept := Cleaned(path, [], rooted); kept == [] || kept[|kept| - 1] == ".."
    ensures Cleaned(path + [".."], [], rooted) == Cleaned(path, [], rooted) + if rooted then [] else [".."]
  {
    CleanedSnoc(path, "..", [], rooted);
  }

  function PathClean(path: string): string {
    var rooted := path != "" && path[0] == '/';
    var segments := Cleaned(Split(path), [], rooted);
    var joined := if segments == [] then "" else Join(segments);
    if rooted then "/" + joined else if segments == [] then "." else joined
  }

  /** path.Join of a section key and a name. */
  function PathJoin(dir: string, name: string): string {
    if dir == "" && name == "" then ""
    else PathClean(if dir == "" then name else if name == "" then dir else dir + "/" + name)
  }

  /** The key flattenMap and cleanSubMap give the value at a path below the section key `dir`. */
  function KeyOf(dir: string, p: Path): string
    decreases p
  {
    if p == [] then dir else KeyOf(PathJoin(dir, p[0]), p[1..])
  }

  /** A name that path.Join does not change. */
  predicate CleanName(name: string) {
    name != "" && '/' !in name && name != "." && name != ".."
  }

  /** What path.Clean leaves of a relative path: ".." only in front, and clean names. */
  predicate Normal(parts: Path) {
    && (forall i :: 0 <= i < |parts| ==> CleanName(parts[i]) || parts[i] == "..")
    && (forall i :: 0 < i < |parts| && parts[i] == ".." ==> parts[i - 1] == "..")
  }

  /** The section key with these parts; `named` tells the root from a key that was cleaned away. */
  function Render(parts: Path, named: bool): string {
    if parts != [] then Join(parts) else if named then "." else ""
  }

  predicate AnyNamed(p: Path) {
    exists i :: 0 <= i < |p| && p[i] != ""
  }

  lemma SplitConcat(a: string, b: string)
    ensures Split(a + "/" + b) == Split(a) + Split(b)
  {
    JoinSplit(a);
    JoinSplit(b);
    JoinConcat(Split(a), Split(b));
    SplitJoin(Split(a) + Split(b));
  }

  lemma {:induction false} CleanedSnoc(a: Path, name: string, kept: Path, rooted: bool)
    ensures Cleaned(a + [name], kept, rooted) == CleanedStep(Cleaned(a, kept, rooted), name, rooted)
    decreases a
  {
    if a == [] {
      assert [name][1..] == [] && a + [name] == [name];
    } else {
      assert (a + [name])[1..] == a[1..] + [name];
      CleanedSnoc(a[1..], name, CleanedStep(kept, a[0], rooted), rooted);
    }
  }

  lemma {:induction false} NormalStays(parts: Path, kept: Path)
    requires Normal(kept + parts)
    ensures Cleaned(parts, kept, false) == kept + parts
    decreases parts
  {
    if parts != [] {
      var all := kept + parts;
      assert all[|kept|] == parts[0];
      assert kept != [] ==> all[|kept| - 1] == kept[|kept| - 1];
      assert kept + [parts[0]] + parts[1..] == all;
      NormalStays(parts[1..], kept + [parts[0]]);
    }
  }

  lemma NormalStep(parts: Path, name: string)
    requires Normal(parts) && '/' !in name
    ensures Normal(CleanedStep(parts, name, false))
  {
    var next := CleanedStep(parts, name, false);
    assert forall i :: 0 <= i < |next| && i < |parts| ==> next[i] == parts[i];
  }

  lemma {:induction false} NormalCleaned(p: Path, parts: Path)
    requires Normal(parts) && SlashFree(p)
    ensures Normal(Cleaned(p, parts, false))
    decreases p
  {
    if p != [] {
      NormalStep(parts, p[0]);
      NormalCleaned(p[1..], CleanedStep(parts, p[0], false));
    }
  }

  /** A rendered section key is relative, and cleaning its parts gives them back. */
  lemma RenderCleaned(parts: Path)
    requires Normal(parts)
    ensures var dir := Render(parts, true);
      && dir != "" && dir[0] != '/'
      && Split(dir) == (if parts == [] then ["."] else parts)
      && Cleaned(Split(dir), [], false) == parts
      && PathClean(dir) == dir
  {
    var dir := Render(parts, true);
    NormalStays(parts, []);
    assert [] + parts == parts;
    if parts == [] {
      SplitSlashFree(".");
      assert ["."][1..] == [];
    } else {
      SplitJoin(parts);
      assert parts[0] != "" && '/' !in parts[0];
      assert dir[0] == parts[0][0] && parts[0][0] in parts[0];
    }
  }

  /** One path.Join below a section key: the name is cleaned behind the parts. */
  lemma JoinStep(parts: Path, named: bool, name: string)
    requires Normal(parts) && '/' !in name && (parts != [] ==> named)
    ensures PathJoin(Render(parts, named), name) == Render(CleanedStep(parts, name, false), named || name != "")
  {
    SplitSlashFree(name);
    assert name != "" ==> name[0] in name;
    if named {
      RenderCleaned(parts);
      var dir := Render(parts, true);
      if name != "" {
        SplitConcat(dir, name);
        CleanedSnoc(Split(dir), name, [], false);
        assert (dir + "/" + name)[0] == dir[0];
      }
    } else if name != "" {
      assert [name][1..] == [] && [name][0] == name;
      assert Cleaned([], CleanedStep([], name, false), false) == CleanedStep([], name, false);
      assert Cleaned([name], [], false) == CleanedStep([], name, false);
      assert parts == [];
    }
  }

  /** The key of a path is its parts cleaned behind those of the section. */
  lemma {:induction false} KeyOfIs(parts: Path, named: bool, p: Path)
    requires Normal(parts) && SlashFree(p) && (parts != [] ==> named)
    ensures KeyOf(Render(parts, named), p) == Render(Cleaned(p, parts, false), named || AnyNamed(p))
    decreases p
  {
    if p != [] {
      JoinStep(parts, named, p[0]);
      NormalStep(parts, p[0]);
      assert AnyNamed(p) <==> p[0] != "" || AnyNamed(p[1..]) by {
        assert forall i :: 0 < i < |p| ==> p[i] == p[1..][i - 1];
      }
      KeyOfIs(CleanedStep(parts, p[0], false), named || p[0] != "", p[1..]);
    }
  }

  /** What a key becomes when it is expanded and flattened. */
  function FlatKey(key: string): string {
    KeyOf("", Split(key))
  }

  lemma FlatKeyIs(key: string)
    ensures Normal(Cleaned(Split(key), [], false))
    ensures FlatKey(key) == Render(Cleaned(Split(key), [], false), AnyNamed(Split(key)))
  {
    NormalCleaned(Split(key), []);
    KeyOfIs([], false, Split(key));
  }

  /** A key that path.Clean does not change, and that does not begin with a slash; or the empty key. */
  predicate Stable(key: string) {
    key == "" || (key[0] != '/' && PathClean(key) == key)
  }

  /** Exactly the stable keys survive being split and joined again. */
  lemma StableIff(key: string)
    ensures FlatKey(key) == key <==> Stable(key)
  {
    FlatKeyIs(key);
    var parts := Cleaned(Split(key), [], false);
    RenderCleaned(parts);
    if key == "" {
      assert [""][1..] == [];
    } else if key[0] != '/' {
      assert Split(key)[0] != "";
    }
  }

  /** A flattened key is stable. */
  lemma FlatKeyStable(key: string)
    ensures FlatKey(FlatKey(key)) == FlatKey(key)
  {
    FlatKeyIs(key);
    var parts := Cleaned(Split(key), [], false);
    RenderCleaned(parts);
    StableIff(FlatKey(key));
  }

  predicate StableKeys(keys: set<string>) {
    forall key :: key in keys ==> Stable(key)
  }

  // ------------------------------------------------------------ flattening

  /** What flattenMap may leave of a tree in an empty flat config: every value's key is there, and a key
      has a value that belongs under it. Where several do, the order of iteration decides. */
  ghost predicate Flattening(m: map<string, Data>, t: Node) {
    && (forall p :: p != [] && Lookup(t, p).Some? ==> KeyOf("", p) in m)
    && (forall key :: key in m ==> exists p :: Gives(t, "", p, key, m[key]))
  }

  predicate Gives(t: Node, dir: string, p: Path, key: string, v: Data) {
    p != [] && Lookup(t, p) == Some(v) && KeyOf(dir, p) == key
  }

  /** The flat config with the entries of the section `t` outside `todo` laid over `before`. */
  ghost predicate Laid(m: map<string, Data>, before: map<string, Data>, t: Node, dir: string, todo: set<string>) {
    && before.Keys <= m.Keys
    && (forall p :: Taken(t, p, todo) ==> KeyOf(dir, p) in m)
    && (forall key :: key in m ==>
          (exists p :: Taken(t, p, todo) && Gives(t, dir, p, key, m[key]))
          || (key in before && m[key] == before[key] && forall p :: Taken(t, p, todo) ==> KeyOf(dir, p) != key))
  }

  predicate Taken(t: Node, p: Path, todo: set<string>) {
    p != [] && p[0] !in todo && Lookup(t, p).Some?
  }

  lemma LaidLeaf(m: map<string, Data>, before: map<string, Data>, t: Node, dir: string, todo: set<string>, name: string)
    requires t.Section? && name in t.entries && t.entries[name].Leaf? && Laid(m, before, t, dir, todo)
    ensures Laid(m[PathJoin(dir, name) := t.entries[name].value], before, t, dir, todo - {name})
  {
    var key, v := PathJoin(dir, name), t.entries[name].value;
    var after := m[key := v];
    assert [name][1..] == [] && KeyOf(key, []) == key;
    assert KeyOf(dir, [name]) == key && Lookup(t, [name]) == Some(v);
    forall p | Taken(t, p, todo - {name}) ensures Taken(t, p, todo) || p == [name] {
      if p[0] == name {
        assert Lookup(t, p) == Lookup(t.entries[name], p[1..]);
        assert p[1..] == [] ==> p == [name];
      }
    }
    forall k | k in after
      ensures (exists p :: Taken(t, p, todo - {name}) && Gives(t, dir, p, k, after[k]))
        || (k in before && after[k] == before[k] && forall p :: Taken(t, p, todo - {name}) ==> KeyOf(dir, p) != k)
    {
      if k == key {
        assert Taken(t, [name], todo - {name}) && Gives(t, dir, [name], key, v);
      } else if p :| Taken(t, p, todo) && Gives(t, dir, p, k, m[k]) {
        assert Taken(t, p, todo - {name});
      }
    }
  }

  /** The section `name` of `t` went into `m`, after what is not in `todo`, and gave `after`. */
  ghost predicate SectionLaid(m: map<string, Data>, after: map<string, Data>, before: map<string, Data>,
                              t: Node, dir: string, todo: set<string>, name: string) {
    && t.Section? && name in t.entries && t.entries[name].Section? && Laid(m, before, t, dir, todo)
    && Laid(after, m, t.entries[name], PathJoin(dir, name), {})
  }

  lemma LaidSection(m: map<string, Data>, after: map<string, Data>, before: map<string, Data>,
                    t: Node, dir: string, todo: set<string>, name: string)
    requires SectionLaid(m, after, before, t, dir, todo, name)
    ensures Laid(after, before, t, dir, todo - {name})
  {
    forall p | Taken(t, p, todo - {name}) ensures KeyOf(dir, p) in after {
      TakenBelow(t, dir, todo, name, p);
    }
    forall k | k in after
      ensures (exists p :: Taken(t, p, todo - {name}) && Gives(t, dir, p, k, after[k]))
        || (k in before && after[k] == before[k] && forall p :: Taken(t, p, todo - {name}) ==> KeyOf(dir, p) != k)
    {
      LaidSectionKey(m, after, before, t, dir, todo, name, k);
    }
  }

  lemma TakenBelow(t: Node, dir: string, todo: set<string>, name: string, p: Path)
    requires t.Section? && name in t.entries && Taken(t, p, todo - {name})
    ensures Taken(t, p, todo) || (p[0] == name && KeyOf(dir, p) == KeyOf(PathJoin(dir, name), p[1..]))
    ensures t.entries[name].Section? && !Taken(t, p, todo) ==> Taken(t.entries[name], p[1..], {})
  {
    if p[0] == name {
      assert Lookup(t, p) == Lookup(t.entries[name], p[1..]);
    }
  }

  lemma LaidSectionKey(m: map<string, Data>, after: map<string, Data>, before: map<string, Data>,
                       t: Node, dir: string, todo: set<string>, name: string, k: string)
    requires SectionLaid(m, after, before, t, dir, todo, name) && k in after
    ensures (exists p :: Taken(t, p, todo - {name}) && Gives(t, dir, p, k, after[k]))
      || (k in before && after[k] == before[k] && forall p :: Taken(t, p, todo - {name}) ==> KeyOf(dir, p) != k)
  {
    var sub, subKey := t.entries[name], PathJoin(dir, name);
    if q :| Taken(sub, q, {}) && Gives(sub, subKey, q, k, after[k]) {
      var p := [name] + q;
      assert p[1..] == q;
      assert Taken(t, p, todo - {name}) && Gives(t, dir, p, k, after[k]);
    } else if p :| Taken(t, p, todo) && Gives(t, dir, p, k, m[k]) {
      assert Taken(t, p, todo - {name});
    } else {
      forall p | Taken(t, p, todo - {name}) ensures KeyOf(dir, p) != k {
        TakenBelow(t, dir, todo, name, p);
      }
    }
  }

  lemma LaidAll(m: map<string, Data>, t: Node)
    requires Laid(m, map[], t, "", {})
    ensures Flattening(m, t)
  {
    assert forall p :: p != [] && Lookup(t, p).Some? ==> Taken(t, p, {});
  }

  // ------------------------------------------ expanding and flattening again

  /** The flat keys of a config, after flattening. */
  function FlatKeys(keys: set<string>): set<string> {
    set key | key in keys :: FlatKey(key)
  }

  lemma {:induction false} FewerFlatKeys(keys: set<string>)
    ensures |FlatKeys(keys)| <= |keys|
    decreases |keys|
  {
    if keys != {} {
      var key :| key in keys;
      FewerFlatKeys(keys - {key});
      assert FlatKeys(keys) == FlatKeys(keys - {key}) + {FlatKey(key)};
    }
  }

  /** A key that changes falls together with the one it changes to. */
  lemma ChangedFallsTogether(keys: set<string>, key: string)
    requires key in keys && FlatKey(key) in keys && FlatKey(key) != key
    ensures |FlatKeys(keys)| < |keys|
  {
    FlatKeyStable(key);
    var others := keys - {key};
    assert FlatKey(key) in others && FlatKey(FlatKey(key)) in FlatKeys(others);
    assert FlatKeys(keys) == FlatKeys(others);
    FewerFlatKeys(others);
  }

  /** Keys that are among their own flattened ones are all stable. */
  lemma CoveredIsStable(held: set<string>, keys: set<string>)
    requires held <= keys && keys <= FlatKeys(held)
    ensures held == keys && StableKeys(keys)
  {
    FewerFlatKeys(held);
    SubsetSize(held, keys);
    SubsetSize(keys, FlatKeys(held));
    forall key | key in keys ensures Stable(key) {
      StableIff(key);
      assert FlatKey(key) in FlatKeys(held);
      if FlatKey(key) != key {
        ChangedFallsTogether(held, key);
      }
    }
  }

  /** What flattening makes of a tree that holds values of the flat config `m` only. */
  lemma FlatValues(m: map<string, Data>, config: Sections, flat: map<string, Data>, key: string) returns (k: string)
    requires SlashFreeNames(Section(config)) && Flattening(flat, Section(config)) && key in flat
    requires forall k :: ValueAt(config, k).Some? ==> ValueAt(config, k) == Get(m, k)
    ensures k in m && ValueAt(config, k).Some? && FlatKey(k) == key && flat[key] == m[k]
  {
    var p :| Gives(Section(config), "", p, key, flat[key]);
    PathSlashFree(Section(config), p);
    SplitJoin(p);
    k := Join(p);
    assert ValueAt(config, k) == Some(flat[key]);
  }

  /** The exact law of expanding and flattening, whatever the order of iteration: no key is missing
      afterwards if and only if no key extends another one and every key is stable; and then the flat
      config is the old one. */
  lemma FlattenedIff(m: map<string, Data>, config: Sections, flat: map<string, Data>)
    requires SlashFreeNames(Section(config)) && Flattening(flat, Section(config))
    requires forall key :: ValueAt(config, key).Some? ==> ValueAt(config, key) == Get(m, key)
    requires IsFlatOf(m, config) <==> PrefixFree(m.Keys)
    ensures m.Keys <= flat.Keys <==> PrefixFree(m.Keys) && StableKeys(m.Keys)
    ensures m.Keys <= flat.Keys ==> flat == m
  {
    if m.Keys <= flat.Keys {
      NothingMissing(m, config, flat);
    }
    if PrefixFree(m.Keys) && StableKeys(m.Keys) {
      StableFlattens(m, config, flat);
    }
  }

  lemma NothingMissing(m: map<string, Data>, config: Sections, flat: map<string, Data>)
    requires SlashFreeNames(Section(config)) && Flattening(flat, Section(config))
    requires forall key :: ValueAt(config, key).Some? ==> ValueAt(config, key) == Get(m, key)
    requires m.Keys <= flat.Keys
    ensures IsFlatOf(m, config) && StableKeys(m.Keys)
  {
    var held := set key | key in m && ValueAt(config, key).Some?;
    forall key | key in m ensures key in FlatKeys(held) {
      var k := FlatValues(m, config, flat, key);
      assert k in held;
    }
    CoveredIsStable(held, m.Keys);
    forall key ensures Get(m, key) == ValueAt(config, key) {
      assert key in m ==> key in held;
    }
  }

  lemma StableFlattens(m: map<string, Data>, config: Sections, flat: map<string, Data>)
    requires SlashFreeNames(Section(config)) && Flattening(flat, Section(config))
    requires IsFlatOf(m, config) && StableKeys(m.Keys)
    ensures flat == m
  {
    forall key | key in m ensures key in flat {
      assert Get(m, key) == ValueAt(config, key);
      StableIff(key);
    }
    forall key | key in flat ensures key in m && flat[key] == m[key] {
      assert forall k :: Get(m, k) == ValueAt(config, k);
      var k := FlatValues(m, config, flat, key);
      StableIff(k);
    }
  }

  /** A key with an empty part comes back as another one, although it extends no key. */
  lemma DoubleSlashIsLost(v: Data)
    ensures PrefixFree({"a//b"}) && !Stable("a//b") && FlatKey("a//b") == "a/b"
    ensures Flattening(map["a/b" := v], Section(Put(map[], Split("a//b"), v)))
  {
    DoubleSlash();
    var p: Path := ["a", "", "b"];
    var t := Section(Put(map[], p, v));
    forall q ensures Lookup(t, q) == if q == p then Some(v) else None {
      PutLookup(map[], p, v, q);
    }
    assert Gives(t, "", p, "a/b", v);
  }

  /** A leading slash is lost as well, although path.Clean keeps it. */
  lemma LeadingSlashIsLost()
    ensures PathClean("/a") == "/a" && !Stable("/a") && FlatKey("/a") == "a"
  {
    SplitSlashFree("a");
    SplitAppend("", "a");
    assert "" + "/" + "a" == "/a" && [""] + ["a"] == ["", "a"];
    assert ["", "a"][1..] == ["a"] && ["a"][1..] == [];
    assert Cleaned(["a"], [], true) == ["a"] && Cleaned(["a"], [], false) == ["a"];
    assert Cleaned(["", "a"], [], true) == ["a"] && Cleaned(["", "a"], [], false) == ["a"];
    FlatKeyIs("/a");
    assert ["", "a"][1] != "";
  }

  lemma DoubleSlash()
    ensures Split("a//b") == ["a", "", "b"] && KeyOf("", ["a", "", "b"]) == "a/b"
    ensures PrefixFree({"a//b"}) && !Stable("a//b")
  {
    SplitSlashFree("a");
    SplitSlashFree("b");
    SplitAppend("", "b");
    SplitAppend("a", "/b");
    assert "" + "/" + "b" == "/b" && [""] + ["b"] == ["", "b"];
    assert "a" + "/" + "/b" == "a//b" && ["a"] + ["", "b"] == ["a", "", "b"];
    assert Split("/b") == ["", "b"];
    assert Split("a" + "/" + "/b") == ["a"] + Split("/b");
    CleanedEmptyPart();
    KeyOfIs([], false, ["a", "", "b"]);
    assert ["a", "", "b"][0] != "";
    assert Join(["a", "b"]) == "a/b" by { assert ["a", "b"][1..] == ["b"]; }
    StableIff("a//b");
  }

  lemma CleanedEmptyPart()
    ensures Cleaned(["a", "", "b"], [], false) == ["a", "b"]
  {
    var p: Path := ["a", "", "b"];
    assert p[1..] == ["", "b"] && ["", "b"][1..] == ["b"] && ["b"][1..] == [];
    assert Cleaned(["b"], ["a"], false) == Cleaned([], ["a", "b"], false) == ["a", "b"];
    assert Cleaned(["", "b"], ["a"], false) == ["a", "b"];
    assert CleanedStep([], p[0], false) == ["a"];
  }

  // -------------------------------------------------------------- cleaning

  /** What cleanSubMap keeps of the section `t` at `dir`: registered options, and sections that keep some. */
  function Clean(t: Node, dir: string, options: set<string>): Sections
    requires t.Section?
    decreases t, 0
  {
    map k | k in t.entries && Keeps(t.entries[k], k, dir, options) :: Kept(t.entries[k], k, dir, options)
  }

  predicate Keeps(t: Node, name: string, dir: string, options: set<string>)
    decreases t, 1
  {
    match t
    case Leaf(_) => '/' !in name && PathJoin(dir, name) in options
    case Section(_) => Clean(t, PathJoin(dir, name), options) != map[]
  }

  function Kept(t: Node, name: string, dir: string, options: set<string>): Node
    decreases t, 1
  {
    match t
    case Leaf(_) => t
    case Section(_) => Section(Clean(t, PathJoin(dir, name), options))
  }

  /** The value at the path has a name without a slash. */
  predicate Plain(p: Path) {
    p != [] && '/' !in p[|p| - 1]
  }

  /** Cleaning keeps exactly the values under registered keys that have a plain name, in every tree. */
  lemma {:induction false} CleanKeepsRegistered(t: Node, dir: string, options: set<string>, p: Path)
    requires t.Section?
    ensures Lookup(Section(Clean(t, dir, options)), p) ==
              if Plain(p) && KeyOf(dir, p) in options then Lookup(t, p) else None
    decreases p
  {
    if p != [] && p[0] in t.entries {
      var e := t.entries[p[0]];
      if |p| == 1 {
        assert p[1..] == [];
      } else if e.Section? {
        CleanKeepsRegistered(e, PathJoin(dir, p[0]), options, p[1..]);
        assert Plain(p) == Plain(p[1..]);
      } else {
        assert Lookup(e, p[1..]).None?;
      }
    }
  }

  /** No empty section survives below the root. */
  lemma {:induction false} CleanTidy(t: Node, dir: string, options: set<string>)
    requires t.Section?
    ensures Tidy(Clean(t, dir, options))
  {
    forall k | k in Clean(t, dir, options) ensures NoEmptySections(Clean(t, dir, options)[k]) {
      if t.entries[k].Section? {
        CleanTidy(t.entries[k], PathJoin(dir, k), options);
      }
    }
  }

  /** Cleaning leaves nothing exactly when no plain name has a value under a registered key. */
  lemma CleanEmptyIff(t: Node, dir: string, options: set<string>)
    requires t.Section?
    ensures Clean(t, dir, options) == map[] <==>
              forall p :: Plain(p) && Lookup(t, p).Some? ==> KeyOf(dir, p) !in options
  {
    var c := Clean(t, dir, options);
    if c == map[] {
      forall p | Plain(p) && Lookup(t, p).Some? ensures KeyOf(dir, p) !in options {
        CleanKeepsRegistered(t, dir, options, p);
      }
    } else {
      CleanTidy(t, dir, options);
      var p := HoldsSomething(Section(c));
      CleanKeepsRegistered(t, dir, options, p);
    }
  }

  function CleanFlat(m: map<string, Data>, options: set<string>): map<string, Data> {
    map k | k in m && k in options :: m[k]
  }

  /** A value with a slash in its name would be kept by the flat cleaner only. */
  predicate OnlyFlatKeeps(t: Node, options: set<string>, p: Path) {
    p != [] && !Plain(p) && Lookup(t, p).Some? && KeyOf("", p) in options
  }

  /** A value with a plain name, the same key and the same content. */
  ghost predicate HasTwin(t: Node, key: string, v: Data) {
    exists q :: Plain(q) && Gives(t, "", q, key, v)
  }

  /** What the hierarchical cleaner leaves has a plain name. */
  lemma KeptIsTwin(t: Node, options: set<string>, p: Path, key: string, v: Data)
    requires t.Section? && Gives(Section(Clean(t, "", options)), "", p, key, v)
    ensures HasTwin(t, key, v)
  {
    CleanKeepsRegistered(t, "", options, p);
    assert Plain(p) && Gives(t, "", p, key, v);
  }

  lemma TwinIsKept(t: Node, options: set<string>, key: string, v: Data) returns (p: Path)
    requires t.Section? && key in options && HasTwin(t, key, v)
    ensures Gives(Section(Clean(t, "", options)), "", p, key, v)
  {
    p :| Plain(p) && Gives(t, "", p, key, v);
    CleanKeepsRegistered(t, "", options, p);
  }

  lemma AgreeingHasTwin(t: Node, options: set<string>, m: map<string, Data>, key: string)
    requires t.Section? && Flattening(CleanFlat(m, options), Section(Clean(t, "", options)))
    requires key in m && key in options
    ensures HasTwin(t, key, m[key])
  {
    var n := CleanFlat(m, options);
    assert key in n && n[key] == m[key];
    var p :| Gives(Section(Clean(t, "", options)), "", p, key, n[key]);
    KeptIsTwin(t, options, p, key, m[key]);
  }

  lemma TwinsSuffice(t: Node, options: set<string>, m: map<string, Data>)
    requires t.Section? && Flattening(m, t)
    requires forall key :: key in m && key in options ==> HasTwin(t, key, m[key])
    ensures Flattening(CleanFlat(m, options), Section(Clean(t, "", options)))
  {
    var c, n := Section(Clean(t, "", options)), CleanFlat(m, options);
    forall p | p != [] && Lookup(c, p).Some? ensures KeyOf("", p) in n {
      CleanKeepsRegistered(t, "", options, p);
      assert Lookup(t, p).Some? && KeyOf("", p) in m;
    }
    forall key | key in n ensures exists p :: Gives(c, "", p, key, n[key]) {
      assert n[key] == m[key];
      var p := TwinIsKept(t, options, key, m[key]);
    }
  }

  /** Cleaning after flattening and flattening after cleaning have the same possible results. */
  ghost predicate CleanersCommute(t: Node, options: set<string>)
    requires t.Section?
  {
    var c := Section(Clean(t, "", options));
    && (forall m :: Flattening(m, t) ==> Flattening(CleanFlat(m, options), c))
    && (forall n :: Flattening(n, c) ==> exists m :: Flattening(m, t) && CleanFlat(m, options) == n)
  }

  ghost predicate TwinsOfAll(t: Node, options: set<string>) {
    forall p :: OnlyFlatKeeps(t, options, p) ==> HasTwin(t, KeyOf("", p), Lookup(t, p).value)
  }

  /** The two cleaners commute with flattening, over all orders of iteration, if and only if every value that
      has a slash in its name and a registered key has a twin with a plain name. */
  lemma CleanersCommuteIff(config: Sections, options: set<string>)
    ensures CleanersCommute(Section(config), options) <==> TwinsOfAll(Section(config), options)
  {
    var t := Section(config);
    var c := Section(Clean(t, "", options));
    if TwinsOfAll(t, options) {
      forall m | Flattening(m, t) ensures Flattening(CleanFlat(m, options), c) {
        forall key | key in m && key in options ensures HasTwin(t, key, m[key]) {
          var p :| Gives(t, "", p, key, m[key]);
          assert Plain(p) || OnlyFlatKeeps(t, options, p);
        }
        TwinsSuffice(t, options, m);
      }
      forall n | Flattening(n, c) ensures exists m :: Flattening(m, t) && CleanFlat(m, options) == n {
        var m := CleanedFrom(t, options, n);
      }
    }
    if CleanersCommute(t, options) {
      forall p | OnlyFlatKeeps(t, options, p) ensures HasTwin(t, KeyOf("", p), Lookup(t, p).value) {
        var m := FlatteningWith(t, p);
        assert Flattening(CleanFlat(m, options), c);
        AgreeingHasTwin(t, options, m, KeyOf("", p));
      }
    }
  }

  /** Every flattening of the cleaned tree is what the flat cleaner leaves of some flattening. */
  lemma CleanedFrom(t: Node, options: set<string>, n: map<string, Data>) returns (m: map<string, Data>)
    requires t.Section? && TwinsOfAll(t, options) && Flattening(n, Section(Clean(t, "", options)))
    ensures Flattening(m, t) && CleanFlat(m, options) == n
  {
    var any := SomeFlattening(t);
    m := any + n;
    forall key | key in n ensures key in options && exists p :: Gives(t, "", p, key, n[key]) {
      GivenBefore(t, options, n, key);
    }
    OverwrittenFlattens(t, any, n);
    forall key | key in any && key in options ensures key in n {
      NotMissed(t, options, any, n, key);
    }
    OverwrittenCleaned(any, n, options);
  }

  lemma OverwrittenCleaned(any: map<string, Data>, n: map<string, Data>, options: set<string>)
    requires n.Keys <= options && forall key :: key in any && key in options ==> key in n
    ensures CleanFlat(any + n, options) == n
  {
    forall key | key in any + n && key in options ensures key in n && (any + n)[key] == n[key] {
    }
  }

  lemma GivenBefore(t: Node, options: set<string>, n: map<string, Data>, key: string)
    requires t.Section? && Flattening(n, Section(Clean(t, "", options))) && key in n
    ensures key in options && exists p :: Gives(t, "", p, key, n[key])
  {
    var p :| Gives(Section(Clean(t, "", options)), "", p, key, n[key]);
    CleanKeepsRegistered(t, "", options, p);
    assert Gives(t, "", p, key, n[key]);
  }

  lemma NotMissed(t: Node, options: set<string>, m: map<string, Data>, n: map<string, Data>, key: string)
    requires t.Section? && TwinsOfAll(t, options) && Flattening(n, Section(Clean(t, "", options)))
    requires Flattening(m, t) && key in m && key in options
    ensures key in n
  {
    var p :| Gives(t, "", p, key, m[key]);
    var q := PlainTwin(t, options, p, key);
    CleanKeepsRegistered(t, "", options, q);
    assert Lookup(Section(Clean(t, "", options)), q).Some? && KeyOf("", q) == key;
  }

  lemma OverwrittenFlattens(t: Node, any: map<string, Data>, n: map<string, Data>)
    requires Flattening(any, t) && forall key :: key in n ==> exists p :: Gives(t, "", p, key, n[key])
    ensures Flattening(any + n, t)
  {
    var m := any + n;
    forall p | p != [] && Lookup(t, p).Some? ensures KeyOf("", p) in m {
      assert KeyOf("", p) in any;
    }
    forall key | key in m ensures exists p :: Gives(t, "", p, key, m[key]) {
      if key in n {
        assert m[key] == n[key];
      } else {
        assert key in any && m[key] == any[key];
      }
    }
  }

  lemma PlainTwin(t: Node, options: set<string>, p: Path, key: string) returns (q: Path)
    requires t.Section? && TwinsOfAll(t, options) && key in options
    requires p != [] && Lookup(t, p).Some? && KeyOf("", p) == key
    ensures Plain(q) && Lookup(t, q).Some? && KeyOf("", q) == key
  {
    if Plain(p) {
      q := p;
    } else {
      assert OnlyFlatKeeps(t, options, p);
      q :| Plain(q) && Gives(t, "", q, key, Lookup(t, p).value);
    }
  }

  ghost function KeysBelow(t: Node, dir: string): set<string>
    requires t.Section?
    decreases t, 1
  {
    set k, key | k in t.entries && key in EntryKeys(t, k, dir) :: key
  }

  ghost function EntryKeys(t: Node, name: string, dir: string): set<string>
    requires t.Section? && name in t.entries
    decreases t, 0
  {
    match t.entries[name]
    case Leaf(_) => {PathJoin(dir, name)}
    case Section(_) => KeysBelow(t.entries[name], PathJoin(dir, name))
  }

  lemma {:induction false} KeysBelowAre(t: Node, dir: string, p: Path)
    requires t.Section? && Lookup(t, p).Some?
    ensures KeyOf(dir, p) in KeysBelow(t, dir)
    decreases p
  {
    var e := t.entries[p[0]];
    if e.Section? {
      KeysBelowAre(e, PathJoin(dir, p[0]), p[1..]);
    } else {
      assert p[1..] == [];
    }
    assert KeyOf(dir, p) in EntryKeys(t, p[0], dir);
  }

  /** There is an order of iteration, and with it a flattening. */
  lemma SomeFlattening(t: Node) returns (m: map<string, Data>)
    requires t.Section?
    ensures Flattening(m, t)
  {
    var given := set key | key in KeysBelow(t, "") && exists q, v :: Gives(t, "", q, key, v);
    m := map key | key in given :: AnyGiven(t, key);
    forall q | q != [] && Lookup(t, q).Some? ensures KeyOf("", q) in m {
      KeysBelowAre(t, "", q);
      assert Gives(t, "", q, KeyOf("", q), Lookup(t, q).value);
    }
  }

  /** In some order of iteration, a value is the last one under its key. */
  lemma FlatteningWith(t: Node, p: Path) returns (m: map<string, Data>)
    requires t.Section? && Lookup(t, p).Some?
    ensures Flattening(m, t) && KeyOf("", p) in m && m[KeyOf("", p)] == Lookup(t, p).value
  {
    var any := SomeFlattening(t);
    m := any[KeyOf("", p) := Lookup(t, p).value];
    assert Gives(t, "", p, KeyOf("", p), Lookup(t, p).value);
  }

  ghost function AnyGiven(t: Node, key: string): (v: Data)
    requires exists q, v :: Gives(t, "", q, key, v)
    ensures exists q :: Gives(t, "", q, key, v)
  {
    var q, v :| Gives(t, "", q, key, v);
    v
  }

  /** An option written as a name with a slash is kept by the flat cleaner and dropped by the other one. */
  lemma SlashNameIsDropped(v: Data)
    ensures var t := Section(map["a/b" := Leaf(v)]);
      && Flattening(map["a/b" := v], t)
      && Clean(t, "", {"a/b"}) == map[] && CleanFlat(map["a/b" := v], {"a/b"}) == map["a/b" := v]
      && !Flattening(map["a/b" := v], Section(map[]))
  {
    var t := Section(map["a/b" := Leaf(v)]);
    assert '/' in "a/b" by {
      assert "a/b"[1] == '/';
    }
    SlashNameKey();
    assert ["a/b"][1..] == [];
    assert Gives(t, "", ["a/b"], "a/b", v);
    forall p | p != [] && Lookup(t, p).Some? ensures p == ["a/b"] {
      assert Lookup(t, p) == Lookup(Leaf(v), p[1..]);
    }
    assert "a/b" in map["a/b" := v];
  }

  lemma SlashNameKey()
    ensures KeyOf("", ["a/b"]) == "a/b"
  {
    SplitSlashFree("a");
    SplitSlashFree("b");
    SplitAppend("a", "b");
    assert "a" + "/" + "b" == "a/b" && ["a"] + ["b"] == ["a", "b"];
    RenderCleaned(["a", "b"]);
    assert ["a", "b"][1..] == ["b"];
    assert Render(["a", "b"], true) == "a/b";
    assert ["a/b"][1..] == [];
  }

  // ------------------------------------- trees from flat configs are unique

  predicate SlashFreeNames(t: Node) {
    t.Section? ==> forall k :: k in t.entries ==> '/' !in k && SlashFreeNames(t.entries[k])
  }

  lemma {:induction false} PutSlashFree(es: Sections, parts: Path, v: Data)
    requires parts != [] && SlashFree(parts) && SlashFreeNames(Section(es))
    ensures SlashFreeNames(Section(Put(es, parts, v)))
    decreases parts
  {
    if |parts| > 1 {
      var sub := SectionOf(es, parts[0]);
      assert SlashFreeNames(Section(sub));
      PutSlashFree(sub, parts[1..], v);
    }
  }

  /** A flat config has at most one tree without empty sections, however it is built. */
  lemma TreeUnique(m: map<string, Data>, c: Sections, d: Sections)
    requires IsFlatOf(m, c) && Tidy(c) && SlashFreeNames(Section(c))
    requires IsFlatOf(m, d) && Tidy(d) && SlashFreeNames(Section(d))
    ensures c == d
  {
    forall p ensures Lookup(Section(c), p) == Lookup(Section(d), p) {
      PathSlashFree(Section(c), p);
      PathSlashFree(Section(d), p);
      if p != [] && SlashFree(p) {
        SplitJoin(p);
        assert Get(m, Join(p)) == ValueAt(c, Join(p)) == ValueAt(d, Join(p));
      }
    }
    TidyUnique(Section(c), Section(d));
  }

  lemma {:induction false} PathSlashFree(t: Node, p: Path)
    requires SlashFreeNames(t)
    ensures Lookup(t, p).Some? ==> SlashFree(p)
    decreases p
  {
    if p != [] && Lookup(t, p).Some? {
      PathSlashFree(t.entries[p[0]], p[1..]);
    }
  }
}
