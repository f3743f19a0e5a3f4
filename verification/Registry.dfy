/** The registry of runtime value providers (base/runtime/registry.go): one look-up of the longest
  registered prefix is enough to give every key at most one owner. */
module Registry {
  import opened Common

  type Provider = nat

  datatype Keyed = Keyed(key: string, provider: Provider)

  predicate IsPrefixKey(key: string) {
    key != "" && key[|key| - 1] == '/'
  }

  /** A provider at `key` answers for a database key. */
  predicate Owns(key: string, query: string) {
    key == query || (IsPrefixKey(key) && key <= query)
  }

  /** A provider answers for more than its own key, and then for everything below, exactly when its key ends
      with a slash. */
  lemma OwnsIff(key: string, more: string)
    requires more != ""
    ensures Owns(key, key + more) <==> exists base: string :: key == base + "/"
    ensures Owns(key, key)
  {
    if key != "" {
      assert key == key[..|key| - 1] + [key[|key| - 1]];
    }
    assert |key + more| > |key|;
  }

  /** A provider at `key` can have records a query for `prefix` asks for. */
  ghost predicate Relevant(key: string, prefix: string) {
    exists query :: prefix <= query && Owns(key, query)
  }

  /** No database key belongs to both. */
  ghost predicate Apart(k: string, l: string) {
    forall query :: !(Owns(k, query) && Owns(l, query))
  }

  /** What the radix tree finds: the longest registered key that is a prefix of the query. */
  function LongestPrefix(keys: set<string>, query: string): Option<string> {
    if query in keys then Some(query)
    else if query == "" then None
    else LongestPrefix(keys, query[..|query| - 1])
  }

  lemma {:induction false} LongestPrefixIs(keys: set<string>, query: string)
    ensures match LongestPrefix(keys, query)
            case Some(k) => k in keys && k <= query && forall l :: l in keys && l <= query ==> l <= k
            case None => forall l :: l in keys ==> !(l <= query)
    decreases |query|
  {
    if query !in keys && query != "" {
      var shorter := query[..|query| - 1];
      LongestPrefixIs(keys, shorter);
      forall l | l in keys && l <= query ensures l <= shorter {
        assert l != query;
        assert |l| < |query|;
        assert l == shorter[..|l|];
      }
    }
  }

  /** Two registrations are apart unless they are equal or one is a prefix key that begins the other. */
  lemma ApartIff(k: string, l: string)
    ensures Apart(k, l) <==> k != l && !(IsPrefixKey(k) && k <= l) && !(IsPrefixKey(l) && l <= k)
  {
    assert Owns(k, k) && Owns(l, l);
    forall query | Owns(k, query) && Owns(l, query)
      ensures k == l || (IsPrefixKey(k) && k <= l) || (IsPrefixKey(l) && l <= k)
    {
      PrefixesNest(k, l, query);
    }
  }

  lemma PrefixesNest(k: string, l: string, query: string)
    requires k <= query && l <= query
    ensures if |k| <= |l| then k <= l else l <= k
  {
  }

  lemma RelevantIff(key: string, prefix: string)
    ensures Relevant(key, prefix) <==> prefix <= key || (IsPrefixKey(key) && key <= prefix)
  {
    assert Owns(key, key);
    assert prefix <= prefix;
    assert IsPrefixKey(key) && key <= prefix ==> Owns(key, prefix);
    if Relevant(key, prefix) {
      var query :| prefix <= query && Owns(key, query);
      PrefixesNest(key, prefix, query);
    }
  }

  /** No two registrations share a database key. */
  ghost predicate AllApart(keys: set<string>) {
    forall k, l :: k in keys && l in keys && k != l ==> Apart(k, l)
  }

  /** Among registrations that are apart, the longest prefix of a key is its owner if it has one. */
  lemma OwnerIsLongest(keys: set<string>, k: string, query: string)
    requires AllApart(keys) && k in keys && Owns(k, query)
    ensures LongestPrefix(keys, query) == Some(k)
  {
    LongestPrefixIs(keys, query);
    var found := LongestPrefix(keys, query).value;
    assert k <= query && k <= found;
    if found != k {
      assert Apart(k, found);
      ApartIff(k, found);
    }
  }

  /** One longest-prefix look-up, and for prefix keys one walk, find every conflict. */
  lemma LookupFindsConflicts(keys: set<string>, key: string)
    requires AllApart(keys)
    ensures var found := LongestPrefix(keys, key);
            (forall k :: k in keys ==> Apart(k, key)) <==>
              !(found.Some? && (IsPrefixKey(found.value) || found.value == key)) &&
              !(IsPrefixKey(key) && exists k :: k in keys && key <= k)
  {
    LongestPrefixIs(keys, key);
    forall k | k in keys
      ensures Apart(k, key) <==> k != key && !(IsPrefixKey(k) && k <= key) && !(IsPrefixKey(key) && key <= k)
      ensures Owns(k, key) ==> LongestPrefix(keys, key) == Some(k)
    {
      ApartIff(k, key);
      if Owns(k, key) {
        OwnerIsLongest(keys, k, key);
      }
    }
  }

  /** Which registrations a query for a prefix concerns when the longest registered prefix is a prefix
      key: that one alone. */
  lemma PrefixKeyIsAlone(keys: set<string>, prefix: string, k: string)
    requires AllApart(keys) && k in keys && Relevant(k, prefix)
    requires LongestPrefix(keys, prefix).Some? && IsPrefixKey(LongestPrefix(keys, prefix).value)
    ensures LongestPrefix(keys, prefix) == Some(k)
  {
    LongestPrefixIs(keys, prefix);
    RelevantIff(k, prefix);
    var found := LongestPrefix(keys, prefix).value;
    if k != found {
      assert Apart(k, found);
      ApartIff(k, found);
    }
  }

  /** A query for "a" with "a" and "ab" registered: both can own keys under it, and only "a" is found. */
  lemma QueryCanMiss()
    ensures var keys := {"a", "ab"};
      && AllApart(keys) && Relevant("a", "a") && Relevant("ab", "a")
      && LongestPrefix(keys, "a") == Some("a") && !IsPrefixKey("a")
  {
    ApartIff("a", "ab");
    ApartIff("ab", "a");
    RelevantIff("a", "a");
    RelevantIff("ab", "a");
    assert "ab"[..1] == "a";
  }

  /** With these two registered, the query asks the provider at "a" and misses the one at "ab". */
  method MissOne(r: Registry, p: Provider, q: Provider) returns (found: seq<Keyed>)
    requires r.Valid() && r.providers == map[]
    modifies r
    ensures "ab" in r.providers && Relevant("ab", "a") && r.providers["ab"] !in found
  {
    QueryCanMiss();
    assert Apart("a", "ab");
    var taken := r.Register("a", p);
    taken := r.Register("ab", q);
    assert r.providers.Keys == {"a", "ab"};
    found := r.CollectProviderByPrefix("a");
  }

  class Registry {
    var providers: map<string, Keyed>

    ghost predicate Valid()
      reads this
    {
      && (forall k :: k in providers ==> providers[k].key == k)
      && AllApart(providers.Keys)
    }

    constructor ()
      ensures Valid() && providers == map[]
    {
      providers := map[];
    }

    /** Register: refused exactly when an existing registration shares a database key with the new one. */
    method Register(keyOrPrefix: string, p: Provider) returns (taken: Option<string>)
      requires Valid()
      modifies this
      ensures Valid()
      ensures taken.None? <==> forall k :: k in old(providers) ==> Apart(k, keyOrPrefix)
      ensures taken.Some? ==> taken.value in old(providers) && !Apart(taken.value, keyOrPrefix)
      ensures providers ==
                if taken.Some? then old(providers) else old(providers)[keyOrPrefix := Keyed(keyOrPrefix, p)]
    {
      LookupFindsConflicts(providers.Keys, keyOrPrefix);
      LongestPrefixIs(providers.Keys, keyOrPrefix);
      var found := LongestPrefix(providers.Keys, keyOrPrefix);
      if found.Some? && (IsPrefixKey(found.value) || found.value == keyOrPrefix) {
        ApartIff(found.value, keyOrPrefix);
        return found;
      }
      if IsPrefixKey(keyOrPrefix) {
        if s :| s in providers && keyOrPrefix <= s {
          ApartIff(s, keyOrPrefix);
          return Some(s);
        }
      }
      assert forall k :: k in providers ==> Apart(k, keyOrPrefix) && Apart(keyOrPrefix, k);
      providers := providers[keyOrPrefix := Keyed(keyOrPrefix, p)];
      return None;
    }

    /** getMatchingProvider: the owner of the key, if it has one. */
    method GetMatchingProvider(key: string) returns (r: Option<Keyed>)
      requires Valid()
      ensures r.Some? ==> r.value.key in providers && r.value == providers[r.value.key] && Owns(r.value.key, key)
      ensures r.None? ==> forall k :: k in providers ==> !Owns(k, key)
      ensures forall k :: k in providers && Owns(k, key) ==> r == Some(providers[k])
    {
      LongestPrefixIs(providers.Keys, key);
      forall k | k in providers && Owns(k, key) ensures LongestPrefix(providers.Keys, key) == Some(k) {
        OwnerIsLongest(providers.Keys, k, key);
      }
      var found := LongestPrefix(providers.Keys, key);
      if found.None? {
        return None;
      }
      if !IsPrefixKey(found.value) && found.value != key {
        return None;
      }
      return Some(providers[found.value]);
    }

    /** collectProviderByPrefix: every provider the query concerns is asked, if and only if the longest
        registered prefix is missing, is a prefix key, or nothing else continues the query. */
    method CollectProviderByPrefix(prefix: string) returns (found: seq<Keyed>)
      requires Valid()
      ensures LongestPrefix(providers.Keys, prefix).Some? ==> LongestPrefix(providers.Keys, prefix).value in providers
      ensures forall i :: 0 <= i < |found| ==> found[i].key in providers && providers[found[i].key] == found[i]
      ensures forall i, j :: 0 <= i < j < |found| ==> found[i] != found[j]
      ensures (forall k :: k in providers && Relevant(k, prefix) ==> providers[k] in found) <==>
                var longest := LongestPrefix(providers.Keys, prefix);
                longest.None? || IsPrefixKey(longest.value) ||
                forall k :: k in providers && prefix <= k ==> k == longest.value
      ensures LongestPrefix(providers.Keys, prefix).Some? ==>
                found == [providers[LongestPrefix(providers.Keys, prefix).value]]
      ensures LongestPrefix(providers.Keys, prefix).None? ==>
                forall i :: 0 <= i < |found| ==> Relevant(found[i].key, prefix)
    {
      LongestPrefixIs(providers.Keys, prefix);
      forall k | k in providers
        ensures Relevant(k, prefix) <==> prefix <= k || (IsPrefixKey(k) && k <= prefix)
      {
        RelevantIff(k, prefix);
      }
      var longest := LongestPrefix(providers.Keys, prefix);
      if longest.Some? {
        found := [providers[longest.value]];
        CollectOneIff(prefix, longest.value);
        return;
      }
      found := [];
      var todo := set k | k in providers && prefix <= k;
      while todo != {}
        invariant todo <= providers.Keys && forall k :: k in todo ==> prefix <= k
        invariant forall k :: k in providers && prefix <= k && k !in todo ==> providers[k] in found
        invariant forall i :: 0 <= i < |found| ==>
                    found[i].key in providers && found[i].key !in todo && prefix <= found[i].key &&
                    providers[found[i].key] == found[i]
        invariant forall i, j :: 0 <= i < j < |found| ==> found[i] != found[j]
      {
        var k :| k in todo;
        found := found + [providers[k]];
        todo := todo - {k};
      }
    }

    lemma CollectOneIff(prefix: string, longest: string)
      requires Valid() && LongestPrefix(providers.Keys, prefix) == Some(longest) && longest in providers
      ensures (forall k :: k in providers && Relevant(k, prefix) ==> k == longest) <==>
                IsPrefixKey(longest) || forall k :: k in providers && prefix <= k ==> k == longest
    {
      LongestPrefixIs(providers.Keys, prefix);
      forall k | k in providers
        ensures Relevant(k, prefix) <==> prefix <= k || (IsPrefixKey(k) && k <= prefix)
        ensures Owns(k, prefix) ==> k == longest
        ensures IsPrefixKey(longest) && Relevant(k, prefix) ==> k == longest
      {
        RelevantIff(k, prefix);
        if Owns(k, prefix) {
          OwnerIsLongest(providers.Keys, k, prefix);
        }
        if IsPrefixKey(longest) && Relevant(k, prefix) {
          PrefixKeyIsAlone(providers.Keys, prefix, k);
        }
      }
    }
  }
}
