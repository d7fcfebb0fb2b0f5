/** Maps from a string to a list of strings, updated the two ways both engines
    update them: appending a value to a key's list, creating the list if
    needed, and dropping a value from a key's list, removing the key once its
    list is empty. */
module Multimap {
  import opened Seqs

  /** `doc` dropped from `key`'s list (`retain(|d| d != doc)`), and the entry
      removed when the list is left empty. */
  function Unlink(m: map<string, seq<string>>, alias: string, doc: string): map<string, seq<string>>
  {
    if alias !in m then m
    else
      var kept := Without(m[alias], doc);
      if kept == [] then m - {alias} else m[alias := kept]
  }

  /** Unlink applied for each key in turn. */
  function UnlinkAll(m: map<string, seq<string>>, aliases: seq<string>, doc: string): map<string, seq<string>>
    decreases |aliases|
  {
    if aliases == [] then m else UnlinkAll(Unlink(m, aliases[0], doc), aliases[1..], doc)
  }

  /** What unlinking a document from a list of aliases leaves, stated without
      the order of the removals: the aliases' lists lose `doc` and those that
      become empty disappear; every other entry is untouched. */
  lemma {:induction false} UnlinkAllResult(m: map<string, seq<string>>, aliases: seq<string>, doc: string)
    decreases |aliases|
    ensures var r := UnlinkAll(m, aliases, doc);
      && (forall a :: a in r <==> a in m && (a in aliases ==> Without(m[a], doc) != []))
      && (forall a :: a in r && a in aliases ==> r[a] == Without(m[a], doc))
      && (forall a :: a in r && a !in aliases ==> r[a] == m[a])
  {
    if aliases != [] {
      var m1 := Unlink(m, aliases[0], doc);
      UnlinkAllResult(m1, aliases[1..], doc);
      var r := UnlinkAll(m, aliases, doc);
      assert forall a :: a in aliases <==> a == aliases[0] || a in aliases[1..];
      forall a | a in m1 && a == aliases[0]
        ensures m1[a] == Without(m[a], doc) && Without(m1[a], doc) == m1[a]
      {
      }
    }
  }

  /** A document unlinked from a list of aliases is in none of their lists. */
  lemma UnlinkAllRemovesDoc(m: map<string, seq<string>>, aliases: seq<string>, doc: string)
    ensures forall a :: a in aliases && a in UnlinkAll(m, aliases, doc) ==> doc !in UnlinkAll(m, aliases, doc)[a]
  {
    UnlinkAllResult(m, aliases, doc);
  }

  /** `entry(key).or_default().push(doc)`: `doc` appended to `key`'s list, created if absent. */
  function Link(m: map<string, seq<string>>, alias: string, doc: string): map<string, seq<string>>
  {
    m[alias := (if alias in m then m[alias] else []) + [doc]]
  }

  /** Link applied for each key in turn. */
  function LinkAll(m: map<string, seq<string>>, aliases: seq<string>, doc: string): map<string, seq<string>>
    decreases |aliases|
  {
    if aliases == [] then m else LinkAll(Link(m, aliases[0], doc), aliases[1..], doc)
  }

  /** Linking only adds: the keys grow by the aliases, every old list keeps its
      members, and `doc` is in the list of every alias linked. */
  lemma {:induction false} LinkAllResult(m: map<string, seq<string>>, aliases: seq<string>, doc: string)
    decreases |aliases|
    ensures var r := LinkAll(m, aliases, doc);
      && (forall a :: a in r <==> a in m || a in aliases)
      && (forall a, d :: a in m && d in m[a] ==> d in r[a])
      && (forall a :: a in aliases ==> doc in r[a])
      && (forall a, d :: a in r && d in r[a] ==> (a in m && d in m[a]) || (d == doc && a in aliases))
      && (forall a :: a in r && a !in aliases ==> r[a] == m[a])
      && (forall a :: a in m && m[a] != [] ==> r[a] != [])
      && (forall a :: a in aliases ==> r[a] != [])
  {
    if aliases != [] {
      var m1 := Link(m, aliases[0], doc);
      LinkAllResult(m1, aliases[1..], doc);
      assert forall a :: a in aliases <==> a == aliases[0] || a in aliases[1..];
    }
  }

  /** Linking one more key at the end is one more Link. */
  lemma {:induction false} LinkAllSnoc(m: map<string, seq<string>>, keys: seq<string>, key: string, doc: string)
    decreases |keys|
    ensures LinkAll(m, keys + [key], doc) == Link(LinkAll(m, keys, doc), key, doc)
  {
    if keys != [] {
      assert (keys + [key])[1..] == keys[1..] + [key];
      LinkAllSnoc(Link(m, keys[0], doc), keys[1..], key, doc);
    }
  }

  /** Linking distinct keys appends `doc` exactly once to each of their lists. */
  lemma {:induction false} LinkAllDistinct(m: map<string, seq<string>>, keys: seq<string>, doc: string)
    requires NoDup(keys)
    decreases |keys|
    ensures forall k :: k in keys ==> k in LinkAll(m, keys, doc)
    ensures forall k :: k in keys ==> LinkAll(m, keys, doc)[k] == (if k in m then m[k] else []) + [doc]
  {
    if keys != [] {
      var m1 := Link(m, keys[0], doc);
      assert NoDup(keys[1..]) by {
        forall i, j | 0 <= i < j < |keys| - 1 ensures keys[1..][i] != keys[1..][j] {
          assert keys[1..][i] == keys[i + 1] && keys[1..][j] == keys[j + 1];
        }
      }
      assert keys[0] !in keys[1..] by {
        forall i | 0 <= i < |keys| - 1 ensures keys[1..][i] != keys[0] {
          assert keys[1..][i] == keys[i + 1];
        }
      }
      LinkAllDistinct(m1, keys[1..], doc);
      LinkAllResult(m1, keys[1..], doc);
      assert forall k :: k in keys <==> k == keys[0] || k in keys[1..];
    }
  }
}
