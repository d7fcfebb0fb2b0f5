/** The two searches of the current engine (crate/src/search.rs). Each is a
    pure specification (the loop's result as a function of the documents, the
    iteration order, the queries and the limit), lemmas saying what that
    result is, and a method that runs the source's loops against the cache and
    is proved to return the specification's value. */
module Search {
  import opened Text
  import opened Seqs
  import opened Wrappers
  import opened Cache

  type Docs = map<string, seq<string>>

  /** The names and aliases of the documents: the strings a search may convert. */
  function DocStrings(docs: Docs): set<string> {
    docs.Keys + (set n, a | n in docs && a in docs[n] :: a)
  }

  /** The order in which `doc_aliases.iter()` visits the documents: each key once. */
  ghost predicate IsEnumeration(order: seq<string>, docs: Docs) {
    NoDup(order) && (forall n :: n in order <==> n in docs)
  }

  // ---------------------------------------------------------------------------
  // AND search

  /** One keyword against one name or alias (search.rs:26-30, 62-64): the
      lowercase form contains the keyword, or the text is all ASCII and its
      hiragana form contains the keyword's hiragana form. */
  predicate KeywordHits(conv: Converters, text: string, kw: string) {
    || Contains(conv.lower(text), kw)
    || (IsAscii(text) && Contains(conv.hira(conv.lower(text)), conv.hira(kw)))
  }

  /** First pass: every keyword hits the name. */
  predicate NameHitsAll(conv: Converters, name: string, kws: seq<string>) {
    forall k :: k in kws ==> KeywordHits(conv, name, k)
  }

  /** One keyword hits the name or at least one alias. */
  predicate KeywordInDoc(conv: Converters, name: string, aliases: seq<string>, kw: string) {
    KeywordHits(conv, name, kw) || exists a :: a in aliases && KeywordHits(conv, a, kw)
  }

  /** Second pass: every keyword hits the name or at least one alias. */
  predicate DocHitsAll(conv: Converters, name: string, aliases: seq<string>, kws: seq<string>) {
    forall k :: k in kws ==> KeywordInDoc(conv, name, aliases, k)
  }

  function PassHits(conv: Converters, docs: Docs, n: string, kws: seq<string>, aliasesToo: bool): bool
    requires n in docs
  {
    if aliasesToo then DocHitsAll(conv, n, docs[n], kws) else NameHitsAll(conv, n, kws)
  }

  /** Where a pass stands: it returned early (`Done`) or ran off the end (`More`). */
  datatype Scan = Done(found: seq<string>) | More(found: seq<string>)

  /** One pass of `search_and` as written: a document not yet seen that hits is
      pushed, and the pass returns as soon as `found.len() >= limit` after a push. */
  function AndPass(conv: Converters, docs: Docs, order: seq<string>, kws: seq<string>, limit: nat,
                   aliasesToo: bool, found: seq<string>): Scan
    requires forall n :: n in order ==> n in docs
    decreases |order|
  {
    if order == [] then More(found)
    else
      var n := order[0];
      if n !in found && PassHits(conv, docs, n, kws, aliasesToo) then
        var found' := found + [n];
        if |found'| >= limit then Done(found')
        else AndPass(conv, docs, order[1..], kws, limit, aliasesToo, found')
      else AndPass(conv, docs, order[1..], kws, limit, aliasesToo, found)
  }

  /** One document of a pass, seen from position `i` of the order. */
  lemma AndPassStep(conv: Converters, docs: Docs, order: seq<string>, i: nat, kws: seq<string>, limit: nat,
                    aliasesToo: bool, found: seq<string>)
    requires forall n :: n in order ==> n in docs
    requires i < |order|
    ensures AndPass(conv, docs, order[i..], kws, limit, aliasesToo, found)
         == if order[i] !in found && PassHits(conv, docs, order[i], kws, aliasesToo) then
              if |found + [order[i]]| >= limit then Done(found + [order[i]])
              else AndPass(conv, docs, order[i + 1..], kws, limit, aliasesToo, found + [order[i]])
            else AndPass(conv, docs, order[i + 1..], kws, limit, aliasesToo, found)
  {
    assert order[i..][0] == order[i] && order[i..][1..] == order[i + 1..];
  }

  /** `search_and` exactly as written: the name pass, then, unless it returned,
      the name-or-alias pass over the documents not yet found. */
  function AndAsWritten(conv: Converters, docs: Docs, order: seq<string>, kws: seq<string>, limit: nat): seq<string>
    requires forall n :: n in order ==> n in docs
  {
    match AndPass(conv, docs, order, kws, limit, false, [])
    case Done(r) => r
    case More(r) => AndPass(conv, docs, order, kws, limit, true, r).found
  }

  /** `search_and` with the limit honoured also for `limit == 0`, where the
      code as written still returns one hit (see AndLimitZeroOverflows). */
  function AndSearch(conv: Converters, docs: Docs, order: seq<string>, kws: seq<string>, limit: nat): seq<string>
    requires forall n :: n in order ==> n in docs
  {
    if limit == 0 then [] else AndAsWritten(conv, docs, order, kws, limit)
  }

  /** The documents of `order`, in order, that are not in `excl` and hit. */
  function Pick(conv: Converters, docs: Docs, order: seq<string>, kws: seq<string>, aliasesToo: bool,
                excl: seq<string>): seq<string>
    requires forall n :: n in order ==> n in docs
    decreases |order|
  {
    if order == [] then []
    else
      var rest := Pick(conv, docs, order[1..], kws, aliasesToo, excl);
      if order[0] !in excl && PassHits(conv, docs, order[0], kws, aliasesToo) then [order[0]] + rest else rest
  }

  lemma {:induction false} PickMembers(conv: Converters, docs: Docs, order: seq<string>, kws: seq<string>,
                                       aliasesToo: bool, excl: seq<string>)
    requires forall n :: n in order ==> n in docs
    decreases |order|
    ensures var p := Pick(conv, docs, order, kws, aliasesToo, excl);
      forall n :: n in p <==> n in order && n !in excl && PassHits(conv, docs, n, kws, aliasesToo)
    ensures NoDup(order) ==> NoDup(Pick(conv, docs, order, kws, aliasesToo, excl))
  {
    if order != [] {
      PickMembers(conv, docs, order[1..], kws, aliasesToo, excl);
      assert forall n :: n in order <==> n == order[0] || n in order[1..];
      if NoDup(order) {
        assert NoDup(order[1..]) by {
          forall i, j | 0 <= i < j < |order| - 1 ensures order[1..][i] != order[1..][j] {
            assert order[1..][i] == order[i + 1] && order[1..][j] == order[j + 1];
          }
        }
        assert order[0] !in order[1..] by {
          forall k | 0 <= k < |order| - 1 ensures order[1..][k] != order[0] {
            assert order[1..][k] == order[k + 1];
          }
        }
        var rest := Pick(conv, docs, order[1..], kws, aliasesToo, excl);
        var p := [order[0]] + rest;
        forall i, j | 0 <= i < j < |p| ensures p[i] != p[j] {
          assert p[j] == rest[j - 1];
          if i > 0 { assert p[i] == rest[i - 1]; }
        }
      }
    }
  }

  /** Excluding a document that is not in the order changes nothing. */
  lemma {:induction false} PickIgnoresAbsent(conv: Converters, docs: Docs, order: seq<string>, kws: seq<string>,
                                             aliasesToo: bool, excl: seq<string>, x: string)
    requires forall n :: n in order ==> n in docs
    requires x !in order
    decreases |order|
    ensures Pick(conv, docs, order, kws, aliasesToo, excl + [x]) == Pick(conv, docs, order, kws, aliasesToo, excl)
  {
    if order != [] {
      assert order[0] in order;
      PickIgnoresAbsent(conv, docs, order[1..], kws, aliasesToo, excl, x);
    }
  }

  lemma NoDupTail(s: seq<string>)
    requires NoDup(s) && s != []
    ensures NoDup(s[1..]) && s[0] !in s[1..]
  {
    forall i, j | 0 <= i < j < |s| - 1 ensures s[1..][i] != s[1..][j] {
      assert s[1..][i] == s[i + 1] && s[1..][j] == s[j + 1];
    }
    forall k | 0 <= k < |s| - 1 ensures s[1..][k] != s[0] {
      assert s[1..][k] == s[k + 1];
    }
  }

  /** A pass, started with `found` below the limit, finds exactly the hits it
      picks, stopping once the limit is reached. */
  lemma {:induction false} AndPassResult(conv: Converters, docs: Docs, order: seq<string>, kws: seq<string>,
                                         limit: nat, aliasesToo: bool, found: seq<string>)
    requires forall n :: n in order ==> n in docs
    requires NoDup(order) && |found| < limit
    decreases |order|
    ensures var f := Pick(conv, docs, order, kws, aliasesToo, found);
      AndPass(conv, docs, order, kws, limit, aliasesToo, found)
        == if |found| + |f| >= limit then Done(Take(found + f, limit)) else More(found + f)
  {
    if order != [] {
      NoDupTail(order);
      var n := order[0];
      var rest := order[1..];
      if n !in found && PassHits(conv, docs, n, kws, aliasesToo) {
        var found' := found + [n];
        if |found'| < limit {
          AndPassResult(conv, docs, rest, kws, limit, aliasesToo, found');
          PickIgnoresAbsent(conv, docs, rest, kws, aliasesToo, found, n);
          assert found' + Pick(conv, docs, rest, kws, aliasesToo, found)
              == found + Pick(conv, docs, order, kws, aliasesToo, found);
        } else {
          var f := Pick(conv, docs, order, kws, aliasesToo, found);
          assert f[0] == n;
          assert Take(found + f, limit) == found';
        }
      } else {
        AndPassResult(conv, docs, rest, kws, limit, aliasesToo, found);
      }
    }
  }

  /** The documents whose name holds every keyword, in iteration order. */
  function NamePass(conv: Converters, docs: Docs, order: seq<string>, kws: seq<string>): seq<string>
    requires forall n :: n in order ==> n in docs
  {
    Pick(conv, docs, order, kws, false, [])
  }

  /** The documents not found by name whose name or aliases hold every keyword. */
  function AliasPass(conv: Converters, docs: Docs, order: seq<string>, kws: seq<string>): seq<string>
    requires forall n :: n in order ==> n in docs
  {
    Pick(conv, docs, order, kws, true, NamePass(conv, docs, order, kws))
  }

  /** For a positive limit the AND search is the first `limit` documents of the
      name matches followed by the name-or-alias matches: name matches come
      first, and nothing is returned twice. */
  lemma AndIsTakeOfPasses(conv: Converters, docs: Docs, order: seq<string>, kws: seq<string>, limit: nat)
    requires IsEnumeration(order, docs) && limit > 0
    ensures AndAsWritten(conv, docs, order, kws, limit)
         == Take(NamePass(conv, docs, order, kws) + AliasPass(conv, docs, order, kws), limit)
  {
    var p1 := NamePass(conv, docs, order, kws);
    var p2 := AliasPass(conv, docs, order, kws);
    AndPassResult(conv, docs, order, kws, limit, false, []);
    assert [] + p1 == p1;
    if |p1| >= limit {
      assert (p1 + p2)[..limit] == p1[..limit];
    } else {
      AndPassResult(conv, docs, order, kws, limit, true, p1);
    }
  }

  /** What the two passes hold: the name pass the documents whose name hits every
      keyword, the alias pass those that hit only through an alias; the two are
      disjoint and free of duplicates. */
  lemma PassesMembers(conv: Converters, docs: Docs, order: seq<string>, kws: seq<string>)
    requires IsEnumeration(order, docs)
    ensures var p1 := NamePass(conv, docs, order, kws);
      forall n :: n in p1 <==> n in docs && NameHitsAll(conv, n, kws)
    ensures var p2 := AliasPass(conv, docs, order, kws);
      forall n :: n in p2 <==> n in docs && !NameHitsAll(conv, n, kws) && DocHitsAll(conv, n, docs[n], kws)
    ensures NoDup(NamePass(conv, docs, order, kws) + AliasPass(conv, docs, order, kws))
  {
    var p1 := NamePass(conv, docs, order, kws);
    var p2 := AliasPass(conv, docs, order, kws);
    PickMembers(conv, docs, order, kws, false, []);
    PickMembers(conv, docs, order, kws, true, p1);
    var s := p1 + p2;
    forall i, j | 0 <= i < j < |s| ensures s[i] != s[j] {
      if j < |p1| { assert s[i] == p1[i] && s[j] == p1[j]; }
      else if i >= |p1| { assert s[i] == p2[i - |p1|] && s[j] == p2[j - |p1|]; }
      else { assert s[i] in p1 && s[j] in p2; }
    }
  }

  /** What the corrected AND search returns: at most `limit` distinct documents,
      each holding every keyword in its name or an alias; a document that holds
      them all in its name is never placed after one that needs an alias; and a
      result shorter than `limit` holds every such document. */
  lemma AndSearchProperties(conv: Converters, docs: Docs, order: seq<string>, kws: seq<string>, limit: nat)
    requires IsEnumeration(order, docs)
    ensures var r := AndSearch(conv, docs, order, kws, limit);
      && |r| <= limit
      && NoDup(r)
      && (forall n :: n in r ==> n in docs && DocHitsAll(conv, n, docs[n], kws))
      && (forall i, j :: 0 <= i < j < |r| && NameHitsAll(conv, r[j], kws) ==> NameHitsAll(conv, r[i], kws))
      && (|r| < limit ==> forall n :: n in docs && DocHitsAll(conv, n, docs[n], kws) ==> n in r)
  {
    if limit > 0 {
      AndIsTakeOfPasses(conv, docs, order, kws, limit);
      PassesMembers(conv, docs, order, kws);
      var p1 := NamePass(conv, docs, order, kws);
      var p2 := AliasPass(conv, docs, order, kws);
      var s := p1 + p2;
      var r := Take(s, limit);
      assert forall n :: n in r ==> n in s;
      forall n | n in s ensures DocHitsAll(conv, n, docs[n], kws) {
        if n in p1 {
          assert NameHitsAll(conv, n, kws);
        }
      }
      forall i, j | 0 <= i < j < |r| && NameHitsAll(conv, r[j], kws) ensures NameHitsAll(conv, r[i], kws) {
        assert r[i] == s[i] && r[j] == s[j];
        if i < |p1| {
          assert s[i] in p1;
        }
      }
      if |r| < limit {
        assert r == s;
        forall n | n in docs && DocHitsAll(conv, n, docs[n], kws) ensures n in r {
          if NameHitsAll(conv, n, kws) {
            assert n in p1;
          } else {
            assert n in p2;
          }
        }
      }
    }
  }

  /** The source's early return comes after the push, so with `limit == 0` one
      matching document is still returned. */
  lemma AndLimitZeroOverflows(conv: Converters)
    ensures AndAsWritten(conv, map["a" := []], ["a"], [""], 0) == ["a"]
  {
    assert StartsWith(conv.lower("a"), "");
    assert KeywordHits(conv, "a", "");
    assert forall k :: k in [""] ==> k == "";
  }

  /** Apart from `limit == 0`, where it returns at most one document, the
      search as written honours the limit. */
  lemma AndAsWrittenBound(conv: Converters, docs: Docs, order: seq<string>, kws: seq<string>, limit: nat)
    requires IsEnumeration(order, docs)
    ensures |AndAsWritten(conv, docs, order, kws, limit)| <= if limit == 0 then 1 else limit
    ensures limit > 0 ==> AndAsWritten(conv, docs, order, kws, limit) == AndSearch(conv, docs, order, kws, limit)
  {
    if limit > 0 {
      AndIsTakeOfPasses(conv, docs, order, kws, limit);
    } else if order != [] {
      var n := order[0];
      if PassHits(conv, docs, n, kws, false) {
        assert AndPass(conv, docs, order, kws, 0, false, []) == Done([n]);
      } else {
        AndZeroAfterMiss(conv, docs, order[1..], kws, false);
        NoDupTail(order);
        if AndPass(conv, docs, order[1..], kws, 0, false, []).More? {
          AndZeroAfterMiss(conv, docs, order, kws, true);
        }
      }
    }
  }

  /** With `limit == 0` a pass from nothing stops at its first hit. */
  lemma {:induction false} AndZeroAfterMiss(conv: Converters, docs: Docs, order: seq<string>, kws: seq<string>,
                                            aliasesToo: bool)
    requires forall n :: n in order ==> n in docs
    decreases |order|
    ensures |AndPass(conv, docs, order, kws, 0, aliasesToo, []).found| <= 1
    ensures AndPass(conv, docs, order, kws, 0, aliasesToo, []).More? ==> AndPass(conv, docs, order, kws, 0, aliasesToo, []).found == []
  {
    if order != [] {
      AndZeroAfterMiss(conv, docs, order[1..], kws, aliasesToo);
    }
  }

  /** A pass only adds documents of `order` that hit and are not yet found. */
  lemma {:induction false} AndPassSound(conv: Converters, docs: Docs, order: seq<string>, kws: seq<string>,
                                        limit: nat, aliasesToo: bool, found: seq<string>)
    requires forall n :: n in order ==> n in docs
    decreases |order|
    ensures var f := AndPass(conv, docs, order, kws, limit, aliasesToo, found).found;
      && (forall n :: n in f ==> n in found || (n in order && PassHits(conv, docs, n, kws, aliasesToo)))
      && (NoDup(found) ==> NoDup(f))
  {
    if order != [] {
      var n := order[0];
      var found' := if n !in found && PassHits(conv, docs, n, kws, aliasesToo) then found + [n] else found;
      if n !in found && PassHits(conv, docs, n, kws, aliasesToo) && NoDup(found) {
        NoDupAppend(found, n);
      }
      AndPassSound(conv, docs, order[1..], kws, limit, aliasesToo, found');
      assert forall m :: m in order[1..] ==> m in order;
    }
  }

  /** Whatever the limit, the search as written returns distinct documents,
      each holding every keyword in its name or an alias. */
  lemma AndAsWrittenSound(conv: Converters, docs: Docs, order: seq<string>, kws: seq<string>, limit: nat)
    requires forall n :: n in order ==> n in docs
    ensures var r := AndAsWritten(conv, docs, order, kws, limit);
      NoDup(r) && forall n :: n in r ==> n in docs && DocHitsAll(conv, n, docs[n], kws)
  {
    AndPassSound(conv, docs, order, kws, limit, false, []);
    var p := AndPass(conv, docs, order, kws, limit, false, []);
    if p.More? {
      AndPassSound(conv, docs, order, kws, limit, true, p.found);
    }
  }

  /** `search_and` as written: the two passes over the documents, converting
      names and aliases through the cache. Only the conversion caches change:
      they gain some names and aliases, among them every document returned. */
  method SearchAnd(docs: Docs, order: seq<string>, cache: StringCache, kws: seq<string>, limit: nat)
    returns (r: seq<string>)
    requires cache.Valid() && IsEnumeration(order, docs)
    modifies cache
    ensures cache.Valid() && cache.aliasToDoc == old(cache.aliasToDoc)
    ensures GrewWithin(old(cache.lowercase), old(cache.hiragana), cache.lowercase, cache.hiragana,
                       Elems(r), DocStrings(docs))
    ensures r == AndAsWritten(cache.conv, docs, order, kws, limit)
  {
    ghost var lower0, hira0 := cache.lowercase, cache.hiragana;
    var first := NamePassCached(docs, order, cache, kws, limit);
    if first.Done? {
      return first.found;
    }
    ghost var lower1, hira1 := cache.lowercase, cache.hiragana;
    ghost var s1 :| Elems(first.found) <= s1 <= DocStrings(docs) && GrewBy(lower0, hira0, lower1, hira1, s1);
    var second := AliasPassCached(docs, order, cache, kws, limit, first.found);
    ghost var s2 :| Elems(second.found) - Elems(first.found) <= s2 <= DocStrings(docs)
      && GrewBy(lower1, hira1, cache.lowercase, cache.hiragana, s2);
    GrewByTrans(lower0, hira0, lower1, hira1, cache.lowercase, cache.hiragana, s1, s2);
    r := second.found;
    GrewWithinBy(lower0, hira0, cache.lowercase, cache.hiragana, Elems(r), DocStrings(docs), s1 + s2);
  }

  /** The first loop of `search_and` (search.rs:22-38): every document's name
      is looked up and tested, and a hit is pushed, the loop returning once
      `limit` is reached. */
  method NamePassCached(docs: Docs, order: seq<string>, cache: StringCache, kws: seq<string>, limit: nat)
    returns (scan: Scan)
    requires cache.Valid() && forall n :: n in order ==> n in docs
    modifies cache
    ensures cache.Valid() && cache.aliasToDoc == old(cache.aliasToDoc)
    ensures GrewWithin(old(cache.lowercase), old(cache.hiragana), cache.lowercase, cache.hiragana,
                       Elems(scan.found), DocStrings(docs))
    ensures scan == AndPass(cache.conv, docs, order, kws, limit, false, [])
  {
    ghost var lower0, hira0 := cache.lowercase, cache.hiragana;
    ghost var looked: set<string> := {};
    var matches: seq<string> := [];
    var i := 0;
    while i < |order|
      invariant 0 <= i <= |order|
      invariant cache.Valid() && cache.aliasToDoc == old(cache.aliasToDoc)
      invariant GrewBy(lower0, hira0, cache.lowercase, cache.hiragana, looked)
      invariant Elems(matches) <= looked <= DocStrings(docs)
      invariant AndPass(cache.conv, docs, order[i..], kws, limit, false, matches)
             == AndPass(cache.conv, docs, order, kws, limit, false, [])
    {
      var name := order[i];
      AndPassStep(cache.conv, docs, order, i, kws, limit, false, matches);
      ghost var lower1, hira1 := cache.lowercase, cache.hiragana;
      var hit := NameHitsAllCached(cache, name, kws);
      GrewByTrans(lower0, hira0, lower1, hira1, cache.lowercase, cache.hiragana, looked, {name});
      looked := looked + {name};
      if hit && name !in matches {
        ElemsSnoc(matches, name);
        matches := matches + [name];
        if |matches| >= limit {
          scan := Done(matches);
          GrewWithinBy(lower0, hira0, cache.lowercase, cache.hiragana, Elems(matches), DocStrings(docs), looked);
          return;
        }
      }
      i := i + 1;
    }
    assert order[i..] == [];
    scan := More(matches);
    GrewWithinBy(lower0, hira0, cache.lowercase, cache.hiragana, Elems(matches), DocStrings(docs), looked);
  }

  /** The second loop of `search_and` (search.rs:41-74): a document not yet
      found has its name and, as needed, its aliases looked up and tested. */
  method AliasPassCached(docs: Docs, order: seq<string>, cache: StringCache, kws: seq<string>, limit: nat,
                         found: seq<string>) returns (scan: Scan)
    requires cache.Valid() && forall n :: n in order ==> n in docs
    modifies cache
    ensures cache.Valid() && cache.aliasToDoc == old(cache.aliasToDoc)
    ensures GrewWithin(old(cache.lowercase), old(cache.hiragana), cache.lowercase, cache.hiragana,
                       Elems(scan.found) - Elems(found), DocStrings(docs))
    ensures scan == AndPass(cache.conv, docs, order, kws, limit, true, found)
  {
    ghost var lower0, hira0 := cache.lowercase, cache.hiragana;
    ghost var looked: set<string> := {};
    var matches := found;
    var i := 0;
    while i < |order|
      invariant 0 <= i <= |order|
      invariant cache.Valid() && cache.aliasToDoc == old(cache.aliasToDoc)
      invariant GrewBy(lower0, hira0, cache.lowercase, cache.hiragana, looked)
      invariant Elems(matches) - Elems(found) <= looked <= DocStrings(docs)
      invariant AndPass(cache.conv, docs, order[i..], kws, limit, true, matches)
             == AndPass(cache.conv, docs, order, kws, limit, true, found)
    {
      var name := order[i];
      AndPassStep(cache.conv, docs, order, i, kws, limit, true, matches);
      if name !in matches {
        ghost var lower1, hira1 := cache.lowercase, cache.hiragana;
        var hit := DocHitsAllCached(cache, name, docs[name], kws);
        ghost var s :| {name} <= s <= {name} + Elems(docs[name])
          && GrewBy(lower1, hira1, cache.lowercase, cache.hiragana, s);
        GrewByTrans(lower0, hira0, lower1, hira1, cache.lowercase, cache.hiragana, looked, s);
        assert {name} + Elems(docs[name]) <= DocStrings(docs);
        looked := looked + s;
        if hit {
          ElemsSnoc(matches, name);
          matches := matches + [name];
          if |matches| >= limit {
            scan := Done(matches);
            GrewWithinBy(lower0, hira0, cache.lowercase, cache.hiragana,
                         Elems(matches) - Elems(found), DocStrings(docs), looked);
            return;
          }
        }
      }
      i := i + 1;
    }
    assert order[i..] == [];
    scan := More(matches);
    GrewWithinBy(lower0, hira0, cache.lowercase, cache.hiragana, Elems(matches) - Elems(found), DocStrings(docs), looked);
  }

  /** One keyword against a text whose two forms are already at hand. */
  method KeywordHitsForms(conv: Converters, text: string, lower: string, hira: Option<string>, kw: string)
    returns (hit: bool)
    requires lower == conv.lower(text)
    requires hira == if IsAscii(text) then Some(conv.hira(conv.lower(text))) else None
    ensures hit == KeywordHits(conv, text, kw)
  {
    hit := Contains(lower, kw) || (hira.Some? && Contains(hira.value, conv.hira(kw)));
  }

  /** One keyword against one text through the cache: `text` is looked up once. */
  method KeywordHitsCached(cache: StringCache, text: string, kw: string) returns (hit: bool)
    requires cache.Valid()
    modifies cache
    ensures cache.Valid() && cache.aliasToDoc == old(cache.aliasToDoc)
    ensures GrewBy(old(cache.lowercase), old(cache.hiragana), cache.lowercase, cache.hiragana, {text})
    ensures hit == KeywordHits(cache.conv, text, kw)
  {
    var lower := cache.GetLowercase(text);
    var hira := cache.GetHiragana(text);
    hit := KeywordHitsForms(cache.conv, text, lower, hira, kw);
  }

  /** `keywords.iter().all(...)` on the name alone, after looking the name up
      once (search.rs:23-30). */
  method NameHitsAllCached(cache: StringCache, name: string, kws: seq<string>) returns (hit: bool)
    requires cache.Valid()
    modifies cache
    ensures cache.Valid() && cache.aliasToDoc == old(cache.aliasToDoc)
    ensures GrewBy(old(cache.lowercase), old(cache.hiragana), cache.lowercase, cache.hiragana, {name})
    ensures hit == NameHitsAll(cache.conv, name, kws)
  {
    var nameLower := cache.GetLowercase(name);
    var nameHiragana := cache.GetHiragana(name);
    var k := 0;
    hit := true;
    while k < |kws|
      invariant 0 <= k <= |kws|
      invariant cache.Valid() && cache.aliasToDoc == old(cache.aliasToDoc)
      invariant GrewBy(old(cache.lowercase), old(cache.hiragana), cache.lowercase, cache.hiragana, {name})
      invariant hit && forall j :: 0 <= j < k ==> KeywordHits(cache.conv, name, kws[j])
    {
      var h := KeywordHitsForms(cache.conv, name, nameLower, nameHiragana, kws[k]);
      if !h {
        assert kws[k] in kws;
        hit := false;
        return;
      }
      k := k + 1;
    }
    assert forall kw :: kw in kws ==> exists j :: 0 <= j < |kws| && kws[j] == kw;
  }

  /** `keywords.iter().all(...)` on the name, else any alias (search.rs:46-66):
      the name is looked up once, and for each keyword the name misses, the
      aliases up to the first one that hits. */
  method DocHitsAllCached(cache: StringCache, name: string, aliases: seq<string>, kws: seq<string>)
    returns (hit: bool)
    requires cache.Valid()
    modifies cache
    ensures cache.Valid() && cache.aliasToDoc == old(cache.aliasToDoc)
    ensures GrewWithin(old(cache.lowercase), old(cache.hiragana), cache.lowercase, cache.hiragana,
                       {name}, {name} + Elems(aliases))
    ensures hit == DocHitsAll(cache.conv, name, aliases, kws)
  {
    ghost var lower0, hira0 := cache.lowercase, cache.hiragana;
    var nameLower := cache.GetLowercase(name);
    var nameHiragana := cache.GetHiragana(name);
    ghost var lower1, hira1 := cache.lowercase, cache.hiragana;
    ghost var s;
    hit, s := KeywordsCached(cache, name, nameLower, nameHiragana, aliases, kws);
    GrewByTrans(lower0, hira0, lower1, hira1, cache.lowercase, cache.hiragana, {name}, s);
    GrewWithinBy(lower0, hira0, cache.lowercase, cache.hiragana, {name}, {name} + Elems(aliases), {name} + s);
  }

  /** The keyword loop of the second pass, once the name's forms are known:
      it stops at the first keyword that neither the name nor an alias contains. */
  method KeywordsCached(cache: StringCache, name: string, nameLower: string, nameHiragana: Option<string>,
                        aliases: seq<string>, kws: seq<string>) returns (hit: bool, ghost looked: set<string>)
    requires cache.Valid()
    requires nameLower == cache.conv.lower(name)
    requires nameHiragana == if IsAscii(name) then Some(cache.conv.hira(cache.conv.lower(name))) else None
    modifies cache
    ensures cache.Valid() && cache.aliasToDoc == old(cache.aliasToDoc)
    ensures looked <= Elems(aliases)
    ensures GrewBy(old(cache.lowercase), old(cache.hiragana), cache.lowercase, cache.hiragana, looked)
    ensures hit == DocHitsAll(cache.conv, name, aliases, kws)
  {
    ghost var lower0, hira0 := cache.lowercase, cache.hiragana;
    looked := {};
    var k := 0;
    hit := true;
    while k < |kws|
      invariant 0 <= k <= |kws|
      invariant cache.Valid() && cache.aliasToDoc == old(cache.aliasToDoc)
      invariant looked <= Elems(aliases)
      invariant GrewBy(lower0, hira0, cache.lowercase, cache.hiragana, looked)
      invariant forall j :: 0 <= j < k ==> KeywordInDoc(cache.conv, name, aliases, kws[j])
      invariant hit
    {
      ghost var lower1, hira1 := cache.lowercase, cache.hiragana;
      var h, s := DocKeywordCached(cache, name, nameLower, nameHiragana, aliases, kws[k]);
      GrewByTrans(lower0, hira0, lower1, hira1, cache.lowercase, cache.hiragana, looked, s);
      looked := looked + s;
      if !h {
        hit := false;
        assert kws[k] in kws;
        return;
      }
      k := k + 1;
    }
    assert forall kw :: kw in kws ==> exists j :: 0 <= j < |kws| && kws[j] == kw;
  }

  /** One keyword of the second pass: the name's forms, then the aliases. */
  method DocKeywordCached(cache: StringCache, name: string, nameLower: string, nameHiragana: Option<string>,
                          aliases: seq<string>, kw: string) returns (hit: bool, ghost looked: set<string>)
    requires cache.Valid()
    requires nameLower == cache.conv.lower(name)
    requires nameHiragana == if IsAscii(name) then Some(cache.conv.hira(cache.conv.lower(name))) else None
    modifies cache
    ensures cache.Valid() && cache.aliasToDoc == old(cache.aliasToDoc)
    ensures looked <= Elems(aliases)
    ensures GrewBy(old(cache.lowercase), old(cache.hiragana), cache.lowercase, cache.hiragana, looked)
    ensures hit == KeywordInDoc(cache.conv, name, aliases, kw)
  {
    hit := KeywordHitsForms(cache.conv, name, nameLower, nameHiragana, kw);
    looked := {};
    if !hit {
      hit, looked := AnyAliasHitsCached(cache, aliases, kw);
    }
  }

  /** `aliases.iter().any(...)` for one keyword (search.rs:58-65): the aliases
      are looked up in turn until one hits; `looked` is the set looked up. */
  method AnyAliasHitsCached(cache: StringCache, aliases: seq<string>, kw: string)
    returns (hit: bool, ghost looked: set<string>)
    requires cache.Valid()
    modifies cache
    ensures cache.Valid() && cache.aliasToDoc == old(cache.aliasToDoc)
    ensures looked <= Elems(aliases)
    ensures GrewBy(old(cache.lowercase), old(cache.hiragana), cache.lowercase, cache.hiragana, looked)
    ensures hit <==> exists a :: a in aliases && KeywordHits(cache.conv, a, kw)
  {
    ghost var lower0, hira0 := cache.lowercase, cache.hiragana;
    looked := {};
    hit := false;
    var m := 0;
    while m < |aliases| && !hit
      invariant 0 <= m <= |aliases|
      invariant cache.Valid() && cache.aliasToDoc == old(cache.aliasToDoc)
      invariant looked <= Elems(aliases) && GrewBy(lower0, hira0, cache.lowercase, cache.hiragana, looked)
      invariant hit ==> exists a :: a in aliases && KeywordHits(cache.conv, a, kw)
      invariant !hit ==> forall j :: 0 <= j < m ==> !KeywordHits(cache.conv, aliases[j], kw)
    {
      ghost var lower1, hira1 := cache.lowercase, cache.hiragana;
      hit := KeywordHitsCached(cache, aliases[m], kw);
      GrewByTrans(lower0, hira0, lower1, hira1, cache.lowercase, cache.hiragana, looked, {aliases[m]});
      looked := looked + {aliases[m]};
      m := m + 1;
    }
  }

  // ---------------------------------------------------------------------------
  // Unified priority search

  /** `best.map_or(true, |b| b > p)`: nothing found yet, or only something worse than `p`. */
  predicate Worse(best: Option<MatchPriority>, p: MatchPriority) {
    best.None? || p.Lt(best.value)
  }

  /** The check of one alias against one query (search.rs:129-159), as written:
      an if / else-if chain whose every arm only ever improves `best`. */
  function AliasStep(conv: Converters, alias: string, q: string, qh: string, best: Option<MatchPriority>)
    : Option<MatchPriority>
  {
    var al := conv.lower(alias);
    if al == q && Worse(best, AliasExact) then Some(AliasExact)
    else if al == qh && Worse(best, AliasExact) then Some(AliasExact)
    else if (StartsWith(al, q) || StartsWith(al, qh)) && Worse(best, AliasPrefix) then Some(AliasPrefix)
    else if best.None? || best == Some(AliasPartial) then
      if Contains(al, q) || Contains(al, qh) || (IsAscii(alias) && Contains(conv.hira(al), qh))
      then Some(AliasPartial) else best
    else best
  }

  /** The loop over the aliases for one query. */
  function AliasesStep(conv: Converters, aliases: seq<string>, q: string, qh: string, best: Option<MatchPriority>)
    : Option<MatchPriority>
    decreases |aliases|
  {
    if aliases == [] then best else AliasesStep(conv, aliases[1..], q, qh, AliasStep(conv, aliases[0], q, qh, best))
  }

  /** The two exact-name tests (search.rs:96-106). */
  predicate NameExactHit(conv: Converters, name: string, q: string) {
    conv.lower(name) == q || conv.lower(name) == conv.hira(q)
  }

  /** The prefix and partial tests on the name for one query (search.rs:108-124). */
  function NameStep(conv: Converters, name: string, q: string, best: Option<MatchPriority>): Option<MatchPriority>
  {
    var dl := conv.lower(name);
    var qh := conv.hira(q);
    var b1 := if Worse(best, NamePrefix) && (StartsWith(dl, q) || StartsWith(dl, qh)) then Some(NamePrefix) else best;
    if Worse(b1, NamePartial) && (Contains(dl, q) || Contains(dl, qh) || (IsAscii(name) && Contains(conv.hira(dl), qh)))
    then Some(NamePartial) else b1
  }

  /** One query after the exact-name tests failed: the name tests, then the
      aliases unless the name is an exact match (search.rs:108-161). */
  function QueryStep(conv: Converters, name: string, aliases: seq<string>, q: string, best: Option<MatchPriority>)
    : Option<MatchPriority>
  {
    var b2 := NameStep(conv, name, q, best);
    if b2 != Some(NameExact) then AliasesStep(conv, aliases, q, conv.hira(q), b2) else b2
  }

  /** `best_priority` after the loop over the remaining queries (search.rs:89-162),
      as written: an exact name match ends the loop at once. */
  function ClassifyFrom(conv: Converters, name: string, aliases: seq<string>, queries: seq<string>,
                        best: Option<MatchPriority>): Option<MatchPriority>
    decreases |queries|
  {
    if queries == [] then best
    else if NameExactHit(conv, name, queries[0]) then Some(NameExact)
    else ClassifyFrom(conv, name, aliases, queries[1..], QueryStep(conv, name, aliases, queries[0], best))
  }

  /** A document's class for the whole query list. */
  function Classify(conv: Converters, name: string, aliases: seq<string>, queries: seq<string>): Option<MatchPriority>
  {
    ClassifyFrom(conv, name, aliases, queries, None)
  }

  // Independent reference: the class of each (query, name) and (query, alias)
  // pair, and the best of them all.

  /** The better of two outcomes; nothing found is worse than any class. */
  function Best(a: Option<MatchPriority>, b: Option<MatchPriority>): Option<MatchPriority>
  {
    if a.None? then b else if b.None? then a else if b.value.Lt(a.value) then b else a
  }

  /** `a` is at least as good as `b`. */
  predicate AtLeastAsGood(a: Option<MatchPriority>, b: Option<MatchPriority>) {
    b.None? || (a.Some? && a.value.Rank() <= b.value.Rank())
  }

  function NameClass(conv: Converters, name: string, q: string): Option<MatchPriority>
  {
    var dl := conv.lower(name);
    var qh := conv.hira(q);
    if dl == q || dl == qh then Some(NameExact)
    else if StartsWith(dl, q) || StartsWith(dl, qh) then Some(NamePrefix)
    else if Contains(dl, q) || Contains(dl, qh) || (IsAscii(name) && Contains(conv.hira(dl), qh)) then Some(NamePartial)
    else None
  }

  function AliasClass(conv: Converters, alias: string, q: string): Option<MatchPriority>
  {
    var al := conv.lower(alias);
    var qh := conv.hira(q);
    if al == q || al == qh then Some(AliasExact)
    else if StartsWith(al, q) || StartsWith(al, qh) then Some(AliasPrefix)
    else if Contains(al, q) || Contains(al, qh) || (IsAscii(alias) && Contains(conv.hira(al), qh)) then Some(AliasPartial)
    else None
  }

  function BestOverAliases(conv: Converters, aliases: seq<string>, q: string): Option<MatchPriority>
    decreases |aliases|
  {
    if aliases == [] then None else Best(AliasClass(conv, aliases[0], q), BestOverAliases(conv, aliases[1..], q))
  }

  function BestMatch(conv: Converters, name: string, aliases: seq<string>, queries: seq<string>): Option<MatchPriority>
    decreases |queries|
  {
    if queries == [] then None
    else Best(Best(NameClass(conv, name, queries[0]), BestOverAliases(conv, aliases, queries[0])),
              BestMatch(conv, name, aliases, queries[1..]))
  }

  lemma BestLaws(a: Option<MatchPriority>, b: Option<MatchPriority>, c: Option<MatchPriority>)
    ensures Best(a, Best(b, c)) == Best(Best(a, b), c)
    ensures Best(a, b) == Best(b, a)
    ensures Best(Some(NameExact), a) == Some(NameExact)
    ensures Best(a, b) == Some(NameExact) ==> a == Some(NameExact) || b == Some(NameExact)
    ensures AtLeastAsGood(Best(a, b), a) && AtLeastAsGood(Best(a, b), b)
  {
  }

  /** One alias step is `Best` with that alias's class, whatever came before
      (short of an exact name match, which skips the aliases). */
  lemma AliasStepIsBest(conv: Converters, alias: string, q: string, best: Option<MatchPriority>)
    requires best != Some(NameExact)
    ensures AliasStep(conv, alias, q, conv.hira(q), best) == Best(best, AliasClass(conv, alias, q))
  {
    var al := conv.lower(alias);
    var qh := conv.hira(q);
    if al == q || al == qh {
      assert StartsWith(al, q) || StartsWith(al, qh);
    }
  }

  lemma {:induction false} AliasesStepIsBest(conv: Converters, aliases: seq<string>, q: string, best: Option<MatchPriority>)
    requires best != Some(NameExact)
    decreases |aliases|
    ensures AliasesStep(conv, aliases, q, conv.hira(q), best) == Best(best, BestOverAliases(conv, aliases, q))
  {
    if aliases != [] {
      var next := AliasStep(conv, aliases[0], q, conv.hira(q), best);
      AliasStepIsBest(conv, aliases[0], q, best);
      BestLaws(best, AliasClass(conv, aliases[0], q), BestOverAliases(conv, aliases[1..], q));
      assert next != Some(NameExact);
      AliasesStepIsBest(conv, aliases[1..], q, next);
    }
  }

  /** The loop with all its guards computes the best class over every query
      against the name and every alias. */
  lemma {:induction false} ClassifyIsBestMatch(conv: Converters, name: string, aliases: seq<string>,
                                               queries: seq<string>, best: Option<MatchPriority>)
    decreases |queries|
    ensures ClassifyFrom(conv, name, aliases, queries, best) == Best(best, BestMatch(conv, name, aliases, queries))
  {
    if queries != [] {
      var q := queries[0];
      var dl := conv.lower(name);
      var qh := conv.hira(q);
      var nc := NameClass(conv, name, q);
      var ac := BestOverAliases(conv, aliases, q);
      var rest := BestMatch(conv, name, aliases, queries[1..]);
      if dl == q || dl == qh {
        BestLaws(nc, ac, rest);
        BestLaws(Best(nc, ac), rest, best);
        BestLaws(best, Best(Best(nc, ac), rest), None);
      } else {
        var b2 := NameStep(conv, name, q, best);
        if StartsWith(dl, q) { assert Contains(dl, q); }
        if StartsWith(dl, qh) { assert Contains(dl, qh); }
        assert b2 == Best(best, nc);
        var b3 := QueryStep(conv, name, aliases, q, best);
        if b2 != Some(NameExact) {
          AliasesStepIsBest(conv, aliases, q, b2);
        } else {
          BestLaws(b2, ac, None);
        }
        assert b3 == Best(b2, ac);
        ClassifyIsBestMatch(conv, name, aliases, queries[1..], b3);
        BestLaws(best, nc, ac);
        BestLaws(Best(best, nc), ac, rest);
        BestLaws(best, Best(nc, ac), rest);
      }
    }
  }

  /** `BestMatch` is at least as good as every class it ranges over, and is one of them. */
  lemma {:induction false} BestMatchBounds(conv: Converters, name: string, aliases: seq<string>, queries: seq<string>)
    decreases |queries|
    ensures forall q :: q in queries ==> AtLeastAsGood(BestMatch(conv, name, aliases, queries), NameClass(conv, name, q))
    ensures forall q, a :: q in queries && a in aliases ==>
      AtLeastAsGood(BestMatch(conv, name, aliases, queries), AliasClass(conv, a, q))
    ensures BestMatch(conv, name, aliases, queries).Some? ==>
      exists q :: q in queries && (BestMatch(conv, name, aliases, queries) == NameClass(conv, name, q)
                                   || exists a :: a in aliases && BestMatch(conv, name, aliases, queries) == AliasClass(conv, a, q))
  {
    if queries != [] {
      BestMatchBounds(conv, name, aliases, queries[1..]);
      var q0 := queries[0];
      var nc := NameClass(conv, name, q0);
      var ac := BestOverAliases(conv, aliases, q0);
      var rest := BestMatch(conv, name, aliases, queries[1..]);
      BestOverAliasesBounds(conv, aliases, q0);
      BestLaws(nc, ac, rest);
      BestLaws(Best(nc, ac), rest, None);
      assert forall q :: q in queries <==> q == q0 || q in queries[1..];
      var r := BestMatch(conv, name, aliases, queries);
      forall q | q in queries ensures AtLeastAsGood(r, NameClass(conv, name, q)) {
        if q != q0 { AtLeastTrans(r, rest, NameClass(conv, name, q)); }
      }
      forall q, a | q in queries && a in aliases ensures AtLeastAsGood(r, AliasClass(conv, a, q)) {
        if q != q0 { AtLeastTrans(r, rest, AliasClass(conv, a, q)); }
        else { AtLeastTrans(r, ac, AliasClass(conv, a, q)); }
      }
      if r.Some? {
        if r == nc {
          assert q0 in queries;
        } else if r == ac {
          assert q0 in queries;
        } else {
          assert r == rest;
        }
      }
    }
  }

  lemma AtLeastTrans(a: Option<MatchPriority>, b: Option<MatchPriority>, c: Option<MatchPriority>)
    requires AtLeastAsGood(a, b) && AtLeastAsGood(b, c)
    ensures AtLeastAsGood(a, c)
  {
  }

  lemma {:induction false} BestOverAliasesBounds(conv: Converters, aliases: seq<string>, q: string)
    decreases |aliases|
    ensures forall a :: a in aliases ==> AtLeastAsGood(BestOverAliases(conv, aliases, q), AliasClass(conv, a, q))
    ensures BestOverAliases(conv, aliases, q).Some? ==>
      exists a :: a in aliases && BestOverAliases(conv, aliases, q) == AliasClass(conv, a, q)
  {
    if aliases != [] {
      BestOverAliasesBounds(conv, aliases[1..], q);
      var r := BestOverAliases(conv, aliases, q);
      var rest := BestOverAliases(conv, aliases[1..], q);
      BestLaws(AliasClass(conv, aliases[0], q), rest, None);
      assert forall a :: a in aliases <==> a == aliases[0] || a in aliases[1..];
      forall a | a in aliases ensures AtLeastAsGood(r, AliasClass(conv, a, q)) {
        if a != aliases[0] { AtLeastTrans(r, rest, AliasClass(conv, a, q)); }
      }
      if r.Some? && r != AliasClass(conv, aliases[0], q) {
        assert r == rest;
      }
    }
  }

  /** What the classification means: it is at least as good as the class of
      every query against the name and against every alias (so `best_priority`
      never gets worse as the loops go on), it is one of those classes, and a
      document is classified at all exactly when some query matches something. */
  lemma ClassifyMeaning(conv: Converters, name: string, aliases: seq<string>, queries: seq<string>)
    ensures var c := Classify(conv, name, aliases, queries);
      && (forall q :: q in queries ==> AtLeastAsGood(c, NameClass(conv, name, q)))
      && (forall q, a :: q in queries && a in aliases ==> AtLeastAsGood(c, AliasClass(conv, a, q)))
      && (c.Some? <==> exists q :: q in queries && (NameClass(conv, name, q).Some?
                                   || exists a :: a in aliases && AliasClass(conv, a, q).Some?))
  {
    ClassifyIsBestMatch(conv, name, aliases, queries, None);
    BestMatchBounds(conv, name, aliases, queries);
  }

  /** A document is classified NameExact exactly when its lowercase name equals
      some query or that query's hiragana form. */
  lemma ClassifyNameExact(conv: Converters, name: string, aliases: seq<string>, queries: seq<string>)
    ensures Classify(conv, name, aliases, queries) == Some(NameExact) <==>
      exists q :: q in queries && (conv.lower(name) == q || conv.lower(name) == conv.hira(q))
  {
    var c := Classify(conv, name, aliases, queries);
    if exists q :: q in queries && (conv.lower(name) == q || conv.lower(name) == conv.hira(q)) {
      var q :| q in queries && (conv.lower(name) == q || conv.lower(name) == conv.hira(q));
      NameExactClassifies(conv, name, aliases, queries, q);
    }
    if c == Some(NameExact) {
      NameExactFromClassify(conv, name, aliases, queries);
    }
  }

  /** A query equal to the lowercase name (or whose hiragana form is) makes
      the document NameExact. */
  lemma NameExactClassifies(conv: Converters, name: string, aliases: seq<string>, queries: seq<string>, q: string)
    requires q in queries && (conv.lower(name) == q || conv.lower(name) == conv.hira(q))
    ensures Classify(conv, name, aliases, queries) == Some(NameExact)
  {
    ClassifyIsBestMatch(conv, name, aliases, queries, None);
    BestMatchBounds(conv, name, aliases, queries);
    assert NameClass(conv, name, q) == Some(NameExact);
  }

  /** A NameExact document has such a query: no alias class is NameExact. */
  lemma NameExactFromClassify(conv: Converters, name: string, aliases: seq<string>, queries: seq<string>)
    requires Classify(conv, name, aliases, queries) == Some(NameExact)
    ensures exists q :: q in queries && (conv.lower(name) == q || conv.lower(name) == conv.hira(q))
  {
    ClassifyIsBestMatch(conv, name, aliases, queries, None);
    BestMatchBounds(conv, name, aliases, queries);
    var c := BestMatch(conv, name, aliases, queries);
    var q :| q in queries && (c == NameClass(conv, name, q) || exists a :: a in aliases && c == AliasClass(conv, a, q));
    assert forall a :: AliasClass(conv, a, q) != Some(NameExact);
    assert NameClass(conv, name, q) == Some(NameExact);
  }

  /** Adding queries never makes a document's class worse. */
  lemma ClassifyMonotone(conv: Converters, name: string, aliases: seq<string>, qs: seq<string>, more: seq<string>)
    ensures AtLeastAsGood(Classify(conv, name, aliases, qs + more), Classify(conv, name, aliases, qs))
  {
    ClassifyMeaning(conv, name, aliases, qs);
    ClassifyMeaning(conv, name, aliases, qs + more);
    var c := Classify(conv, name, aliases, qs);
    BestMatchBounds(conv, name, aliases, qs);
    ClassifyIsBestMatch(conv, name, aliases, qs, None);
    if c.Some? {
      var q :| q in qs && (c == NameClass(conv, name, q) || exists a :: a in aliases && c == AliasClass(conv, a, q));
      assert q in qs + more;
    }
  }

  // Candidate collection, sorting and truncation

  type Candidate = (MatchPriority, string)

  function Names(cands: seq<Candidate>): (r: seq<string>)
    ensures |r| == |cands| && forall i :: 0 <= i < |cands| ==> r[i] == cands[i].1
  {
    seq(|cands|, i requires 0 <= i < |cands| => cands[i].1)
  }

  /** Collection as written (search.rs:84-171): a classified document is pushed,
      and the loop stops once `candidates.len() >= limit * 2`. */
  function Collect(conv: Converters, docs: Docs, order: seq<string>, queries: seq<string>, limit: nat,
                   cands: seq<Candidate>): seq<Candidate>
    requires forall n :: n in order ==> n in docs
    decreases |order|
  {
    if order == [] then cands
    else
      var n := order[0];
      if n in Names(cands) then Collect(conv, docs, order[1..], queries, limit, cands)
      else match Classify(conv, n, docs[n], queries)
        case None => Collect(conv, docs, order[1..], queries, limit, cands)
        case Some(p) =>
          var c := cands + [(p, n)];
          if |c| >= 2 * limit then c else Collect(conv, docs, order[1..], queries, limit, c)
  }

  /** `candidates.sort_by_key(|(p, _)| *p)`: ascending rank is descending `-rank`. */
  function PriorityKey(c: Candidate): Key {
    (-(c.0.Rank() as int), 0)
  }

  /** `search_unified` as a value: collect, sort stably by priority, take `limit`. */
  function Unified(conv: Converters, docs: Docs, order: seq<string>, queries: seq<string>, limit: nat): seq<string>
    requires forall n :: n in order ==> n in docs
  {
    Names(Take(SortDesc(Collect(conv, docs, order, queries, limit, []), PriorityKey), limit))
  }

  /** Reference: every classified document with its class, in iteration order. */
  function Classified(conv: Converters, docs: Docs, order: seq<string>, queries: seq<string>): seq<Candidate>
    requires forall n :: n in order ==> n in docs
    decreases |order|
  {
    if order == [] then []
    else
      var rest := Classified(conv, docs, order[1..], queries);
      match Classify(conv, order[0], docs[order[0]], queries)
      case None => rest
      case Some(p) => [(p, order[0])] + rest
  }

  /** How many candidates collection keeps at most: `2 * limit`, except that
      a zero limit still lets the first one in before the check. */
  function Cap(limit: nat): nat {
    if limit == 0 then 1 else 2 * limit
  }

  /** A candidate names a document of `order` and carries that document's class. */
  ghost predicate SoundCandidate(conv: Converters, docs: Docs, order: seq<string>, queries: seq<string>, c: Candidate)
    requires forall n :: n in order ==> n in docs
  {
    c.1 in order && Classify(conv, c.1, docs[c.1], queries) == Some(c.0)
  }

  lemma {:induction false} ClassifiedSound(conv: Converters, docs: Docs, order: seq<string>, queries: seq<string>)
    requires forall n :: n in order ==> n in docs
    decreases |order|
    ensures forall i :: 0 <= i < |Classified(conv, docs, order, queries)| ==>
      SoundCandidate(conv, docs, order, queries, Classified(conv, docs, order, queries)[i])
  {
    if order != [] {
      ClassifiedSound(conv, docs, order[1..], queries);
      var c := Classified(conv, docs, order, queries);
      var rest := Classified(conv, docs, order[1..], queries);
      forall i | 0 <= i < |c| ensures SoundCandidate(conv, docs, order, queries, c[i]) {
        if Classify(conv, order[0], docs[order[0]], queries).Some? {
          if i > 0 { assert c[i] == rest[i - 1]; assert SoundCandidate(conv, docs, order[1..], queries, rest[i - 1]); }
        } else {
          assert c[i] == rest[i]; assert SoundCandidate(conv, docs, order[1..], queries, rest[i]);
        }
      }
    }
  }

  lemma {:induction false} ClassifiedComplete(conv: Converters, docs: Docs, order: seq<string>, queries: seq<string>)
    requires forall n :: n in order ==> n in docs
    decreases |order|
    ensures var c := Classified(conv, docs, order, queries);
      forall n :: n in order && Classify(conv, n, docs[n], queries).Some? ==> n in Names(c)
  {
    if order != [] {
      ClassifiedComplete(conv, docs, order[1..], queries);
      var c := Classified(conv, docs, order, queries);
      var rest := Classified(conv, docs, order[1..], queries);
      if Classify(conv, order[0], docs[order[0]], queries).Some? {
        assert Names(c) == [order[0]] + Names(rest);
      }
      assert forall n :: n in order ==> n == order[0] || n in order[1..];
    }
  }

  lemma {:induction false} ClassifiedNoDup(conv: Converters, docs: Docs, order: seq<string>, queries: seq<string>)
    requires forall n :: n in order ==> n in docs
    requires NoDup(order)
    decreases |order|
    ensures NoDup(Names(Classified(conv, docs, order, queries)))
  {
    if order != [] {
      NoDupTail(order);
      ClassifiedNoDup(conv, docs, order[1..], queries);
      ClassifiedSound(conv, docs, order[1..], queries);
      var c := Classified(conv, docs, order, queries);
      var rest := Classified(conv, docs, order[1..], queries);
      if Classify(conv, order[0], docs[order[0]], queries).Some? {
        var nm := Names(c);
        assert nm == [order[0]] + Names(rest);
        forall i, j | 0 <= i < j < |nm| ensures nm[i] != nm[j] {
          assert nm[j] == Names(rest)[j - 1] == rest[j - 1].1;
          assert SoundCandidate(conv, docs, order[1..], queries, rest[j - 1]);
          if i > 0 { assert nm[i] == Names(rest)[i - 1]; }
        }
      }
    }
  }

  lemma ClassifiedMembers(conv: Converters, docs: Docs, order: seq<string>, queries: seq<string>)
    requires forall n :: n in order ==> n in docs
    ensures var c := Classified(conv, docs, order, queries);
      && (forall i :: 0 <= i < |c| ==> c[i].1 in order && Classify(conv, c[i].1, docs[c[i].1], queries) == Some(c[i].0))
      && (forall n :: n in order && Classify(conv, n, docs[n], queries).Some? ==> n in Names(c))
      && (NoDup(order) ==> NoDup(Names(c)))
  {
    ClassifiedSound(conv, docs, order, queries);
    var c := Classified(conv, docs, order, queries);
    assert forall i :: 0 <= i < |c| ==> SoundCandidate(conv, docs, order, queries, c[i]);
    ClassifiedComplete(conv, docs, order, queries);
    if NoDup(order) { ClassifiedNoDup(conv, docs, order, queries); }
  }

  /** Pushing the head of a duplicate-free order leaves the rest of the order unseen. */
  lemma PushFresh(order: seq<string>, cands: seq<Candidate>, c: Candidate)
    requires NoDup(order) && order != [] && c.1 == order[0]
    requires forall n :: n in order ==> n !in Names(cands)
    ensures forall m :: m in order[1..] ==> m !in Names(cands + [c])
  {
    NoDupTail(order);
    assert Names(cands + [c]) == Names(cands) + [c.1];
    assert forall m :: m in order[1..] ==> m in order;
  }

  /** Collection keeps the first `Cap(limit)` classified documents. */
  lemma {:induction false} CollectIsTake(conv: Converters, docs: Docs, order: seq<string>, queries: seq<string>,
                                         limit: nat, cands: seq<Candidate>)
    requires forall n :: n in order ==> n in docs
    requires NoDup(order) && (forall n :: n in order ==> n !in Names(cands))
    requires |cands| < Cap(limit)
    decreases |order|
    ensures Collect(conv, docs, order, queries, limit, cands)
         == cands + Take(Classified(conv, docs, order, queries), Cap(limit) - |cands|)
  {
    if order != [] {
      NoDupTail(order);
      var n := order[0];
      var rest := Classified(conv, docs, order[1..], queries);
      assert n in order;
      match Classify(conv, n, docs[n], queries)
      case None =>
        CollectIsTake(conv, docs, order[1..], queries, limit, cands);
      case Some(p) =>
        var c := cands + [(p, n)];
        var cl := Classified(conv, docs, order, queries);
        assert cl == [(p, n)] + rest;
        if |c| >= 2 * limit {
          assert |c| == Cap(limit);
          TakeCons((p, n), rest, 0);
        } else {
          PushFresh(order, cands, (p, n));
          CollectIsTake(conv, docs, order[1..], queries, limit, c);
          TakeCons((p, n), rest, Cap(limit) - |c|);
        }
    } else {
      assert Classified(conv, docs, order, queries) == [];
    }
  }

  lemma NamesNoDupPairs(s: seq<Candidate>)
    requires NoDup(Names(s))
    ensures NoDup(s)
  {
  }

  /** A permutation of candidates with distinct names has distinct names. */
  lemma NamesPermutation(s: seq<Candidate>, t: seq<Candidate>)
    requires NoDup(Names(s)) && multiset(s) == multiset(t)
    ensures NoDup(Names(t))
  {
    NamesNoDupPairs(s);
    PermutationNoDup(s, t);
    forall i, j | 0 <= i < j < |t| ensures t[i].1 != t[j].1 {
      assert t[i] in multiset(s) && t[j] in multiset(s);
      var a :| 0 <= a < |s| && s[a] == t[i];
      var b :| 0 <= b < |s| && s[b] == t[j];
      assert a != b;
      assert Names(s)[a] != Names(s)[b];
    }
  }

  /** Candidates with distinct names, each carrying its document's class. */
  ghost predicate WellClassified(conv: Converters, docs: Docs, queries: seq<string>, cands: seq<Candidate>) {
    && NoDup(Names(cands))
    && forall i :: 0 <= i < |cands| ==>
         cands[i].1 in docs && Classify(conv, cands[i].1, docs[cands[i].1], queries) == Some(cands[i].0)
  }

  lemma TakeWellClassified(conv: Converters, docs: Docs, queries: seq<string>, cands: seq<Candidate>, n: nat)
    requires WellClassified(conv, docs, queries, cands)
    ensures WellClassified(conv, docs, queries, Take(cands, n))
  {
    var t := Take(cands, n);
    forall i, j | 0 <= i < j < |t| ensures Names(t)[i] != Names(t)[j] {
      assert Names(t)[i] == Names(cands)[i] && Names(t)[j] == Names(cands)[j];
    }
  }

  /** Collection keeps at most `Cap(limit)` correctly classified candidates, and
      all classified documents when there are no more than that. */
  lemma CollectWellClassified(conv: Converters, docs: Docs, order: seq<string>, queries: seq<string>, limit: nat)
    requires IsEnumeration(order, docs)
    ensures var col := Collect(conv, docs, order, queries, limit, []);
      && |col| <= Cap(limit)
      && WellClassified(conv, docs, queries, col)
      && (|Classified(conv, docs, order, queries)| <= Cap(limit) ==> col == Classified(conv, docs, order, queries))
  {
    var cl := Classified(conv, docs, order, queries);
    var col := Collect(conv, docs, order, queries, limit, []);
    ClassifiedMembers(conv, docs, order, queries);
    assert WellClassified(conv, docs, queries, cl);
    CollectIsTake(conv, docs, order, queries, limit, []);
    assert [] + Take(cl, Cap(limit)) == Take(cl, Cap(limit));
    assert col == Take(cl, Cap(limit));
    TakeWellClassified(conv, docs, queries, cl, Cap(limit));
    if |cl| <= Cap(limit) {
      assert Take(cl, Cap(limit)) == cl;
    }
  }

  /** Sorting permutes the candidates, so they stay well classified. */
  lemma SortWellClassified(conv: Converters, docs: Docs, queries: seq<string>, cands: seq<Candidate>)
    requires WellClassified(conv, docs, queries, cands)
    ensures WellClassified(conv, docs, queries, SortDesc(cands, PriorityKey))
    ensures multiset(SortDesc(cands, PriorityKey)) == multiset(cands)
    ensures SortedDesc(SortDesc(cands, PriorityKey), PriorityKey)
  {
    var sorted := SortDesc(cands, PriorityKey);
    SortDescCorrect(cands, PriorityKey);
    NamesPermutation(cands, sorted);
    forall k | 0 <= k < |sorted|
      ensures sorted[k].1 in docs && Classify(conv, sorted[k].1, docs[sorted[k].1], queries) == Some(sorted[k].0)
    {
      assert sorted[k] in multiset(cands);
      var i :| 0 <= i < |cands| && cands[i] == sorted[k];
    }
  }

  /** The names of a prefix of sorted, well-classified candidates: distinct,
      classified, in non-decreasing rank. */
  lemma TopNames(conv: Converters, docs: Docs, queries: seq<string>, sorted: seq<Candidate>, limit: nat)
    requires WellClassified(conv, docs, queries, sorted) && SortedDesc(sorted, PriorityKey)
    ensures var r := Names(Take(sorted, limit));
      && |r| <= limit
      && NoDup(r)
      && (forall n :: n in r ==> n in docs && Classify(conv, n, docs[n], queries).Some?)
      && (forall i, j :: 0 <= i < j < |r| ==>
            Classify(conv, r[i], docs[r[i]], queries).value.Rank() <= Classify(conv, r[j], docs[r[j]], queries).value.Rank())
  {
    var tk := Take(sorted, limit);
    var r := Names(tk);
    forall i, j | 0 <= i < j < |r| ensures r[i] != r[j] {
      assert r[i] == Names(sorted)[i] && r[j] == Names(sorted)[j];
    }
    forall i, j | 0 <= i < j < |r| ensures
      Classify(conv, r[i], docs[r[i]], queries).value.Rank() <= Classify(conv, r[j], docs[r[j]], queries).value.Rank()
    {
      assert tk[i] == sorted[i] && tk[j] == sorted[j];
      assert KeyGe(PriorityKey(sorted[i]), PriorityKey(sorted[j]));
    }
  }

  /** What the unified search returns: at most `limit` distinct documents, each
      classified, in non-decreasing priority; candidates number at most
      `2 * limit` (one for a zero limit); and when no more documents match than
      `limit`, every matching document is returned. */
  lemma UnifiedProperties(conv: Converters, docs: Docs, order: seq<string>, queries: seq<string>, limit: nat)
    requires IsEnumeration(order, docs)
    ensures |Collect(conv, docs, order, queries, limit, [])| <= Cap(limit)
    ensures var r := Unified(conv, docs, order, queries, limit);
      && |r| <= limit
      && NoDup(r)
      && (forall n :: n in r ==> n in docs && Classify(conv, n, docs[n], queries).Some?)
      && (forall i, j :: 0 <= i < j < |r| ==>
            Classify(conv, r[i], docs[r[i]], queries).value.Rank() <= Classify(conv, r[j], docs[r[j]], queries).value.Rank())
    ensures |Classified(conv, docs, order, queries)| <= limit ==>
      forall n :: n in docs && Classify(conv, n, docs[n], queries).Some? ==> n in Unified(conv, docs, order, queries, limit)
  {
    var col := Collect(conv, docs, order, queries, limit, []);
    CollectWellClassified(conv, docs, order, queries, limit);
    SortWellClassified(conv, docs, queries, col);
    var sorted := SortDesc(col, PriorityKey);
    TopNames(conv, docs, queries, sorted, limit);
    var cl := Classified(conv, docs, order, queries);
    if |cl| <= limit {
      UnifiedComplete(conv, docs, order, queries, limit);
    }
  }

  lemma UnifiedComplete(conv: Converters, docs: Docs, order: seq<string>, queries: seq<string>, limit: nat)
    requires IsEnumeration(order, docs)
    requires |Classified(conv, docs, order, queries)| <= limit
    ensures forall n :: n in docs && Classify(conv, n, docs[n], queries).Some? ==> n in Unified(conv, docs, order, queries, limit)
  {
    var cl := Classified(conv, docs, order, queries);
    CollectWellClassified(conv, docs, order, queries, limit);
    ClassifiedMembers(conv, docs, order, queries);
    assert Collect(conv, docs, order, queries, limit, []) == cl;
    var sorted := SortDesc(cl, PriorityKey);
    SortDescCorrect(cl, PriorityKey);
    assert Take(sorted, limit) == sorted;
    assert Unified(conv, docs, order, queries, limit) == Names(sorted);
    forall n | n in docs && Classify(conv, n, docs[n], queries).Some? ensures n in Names(sorted) {
      assert n in Names(cl);
      NamesOfPermutation(cl, sorted, n);
    }
  }

  /** A name of the candidates is a name of any permutation of them. */
  lemma NamesOfPermutation(cands: seq<Candidate>, perm: seq<Candidate>, n: string)
    requires multiset(perm) == multiset(cands) && n in Names(cands)
    ensures n in Names(perm)
  {
    var i :| 0 <= i < |cands| && Names(cands)[i] == n;
    assert cands[i] in multiset(perm);
    var j :| 0 <= j < |perm| && perm[j] == cands[i];
    assert Names(perm)[j] == n;
  }

  /** `search_unified`: classify each document through the cache, collect,
      sort by priority, take `limit`. Only the conversion caches change: they
      gain some names and aliases, among them every document returned. */
  method SearchUnified(docs: Docs, order: seq<string>, cache: StringCache, queries: seq<string>, limit: nat)
    returns (r: seq<string>)
    requires cache.Valid() && IsEnumeration(order, docs)
    modifies cache
    ensures cache.Valid() && cache.aliasToDoc == old(cache.aliasToDoc)
    ensures GrewWithin(old(cache.lowercase), old(cache.hiragana), cache.lowercase, cache.hiragana,
                       Elems(r), DocStrings(docs))
    ensures r == Unified(cache.conv, docs, order, queries, limit)
  {
    var candidates := CollectCandidates(docs, order, cache, queries, limit);
    ghost var looked :| Elems(Names(candidates)) <= looked <= DocStrings(docs)
      && GrewBy(old(cache.lowercase), old(cache.hiragana), cache.lowercase, cache.hiragana, looked);
    var sorted := SortDesc(candidates, PriorityKey);
    r := Names(Take(sorted, limit));
    TopNamesAmong(candidates, limit);
    GrewWithinBy(old(cache.lowercase), old(cache.hiragana), cache.lowercase, cache.hiragana,
                 Elems(r), DocStrings(docs), looked);
  }

  /** The names kept after sorting and truncating are names of candidates. */
  lemma TopNamesAmong(candidates: seq<Candidate>, limit: nat)
    ensures Elems(Names(Take(SortDesc(candidates, PriorityKey), limit))) <= Elems(Names(candidates))
  {
    var sorted := SortDesc(candidates, PriorityKey);
    var r := Names(Take(sorted, limit));
    SortDescCorrect(candidates, PriorityKey);
    forall n | n in r ensures n in Elems(Names(candidates)) {
      var i :| 0 <= i < |r| && r[i] == n;
      assert sorted[i] in multiset(candidates);
      var j :| 0 <= j < |candidates| && candidates[j] == sorted[i];
      assert Names(candidates)[j] == n;
    }
  }

  /** The document loop of `search_unified` (search.rs:84-171), with its `seen`
      set and the `break` once `2 * limit` candidates are collected. */
  method CollectCandidates(docs: Docs, order: seq<string>, cache: StringCache, queries: seq<string>, limit: nat)
    returns (candidates: seq<Candidate>)
    requires cache.Valid() && forall n :: n in order ==> n in docs
    modifies cache
    ensures cache.Valid() && cache.aliasToDoc == old(cache.aliasToDoc)
    ensures GrewWithin(old(cache.lowercase), old(cache.hiragana), cache.lowercase, cache.hiragana,
                       Elems(Names(candidates)), DocStrings(docs))
    ensures candidates == Collect(cache.conv, docs, order, queries, limit, [])
  {
    ghost var lower0, hira0 := cache.lowercase, cache.hiragana;
    ghost var looked: set<string> := {};
    candidates := [];
    var seen: set<string> := {};
    var i := 0;
    while i < |order|
      invariant 0 <= i <= |order|
      invariant cache.Valid() && cache.aliasToDoc == old(cache.aliasToDoc)
      invariant GrewBy(lower0, hira0, cache.lowercase, cache.hiragana, looked)
      invariant seen <= looked <= DocStrings(docs)
      invariant forall n :: n in seen <==> n in Names(candidates)
      invariant Collect(cache.conv, docs, order[i..], queries, limit, candidates)
             == Collect(cache.conv, docs, order, queries, limit, [])
    {
      var name := order[i];
      assert order[i..][0] == name && order[i..][1..] == order[i + 1..];
      if name !in seen {
        var best;
        best, looked := ClassifyDocument(docs, cache, name, queries, lower0, hira0, looked);
        if best.Some? {
          var next := candidates + [(best.value, name)];
          assert Names(next) == Names(candidates) + [name];
          assert Collect(cache.conv, docs, order[i..], queries, limit, candidates)
              == if |next| >= 2 * limit then next else Collect(cache.conv, docs, order[i + 1..], queries, limit, next);
          seen := seen + {name};
          candidates := next;
          if |candidates| >= limit * 2 {
            break;
          }
        }
      }
      i := i + 1;
    }
    assert Elems(Names(candidates)) <= seen;
    GrewWithinBy(lower0, hira0, cache.lowercase, cache.hiragana, Elems(Names(candidates)), DocStrings(docs), looked);
  }

  /** One document of the loop: its class, through the cache. The strings
      looked up since (`lower0`, `hira0`) grow from `before` to `after` by
      some of the document's own, its name among them when it is classified. */
  method ClassifyDocument(docs: Docs, cache: StringCache, name: string, queries: seq<string>,
                          ghost lower0: map<string, string>, ghost hira0: map<string, string>,
                          ghost before: set<string>)
    returns (best: Option<MatchPriority>, ghost after: set<string>)
    requires cache.Valid() && name in docs
    requires before <= DocStrings(docs) && GrewBy(lower0, hira0, cache.lowercase, cache.hiragana, before)
    modifies cache
    ensures cache.Valid() && cache.aliasToDoc == old(cache.aliasToDoc)
    ensures before <= after <= DocStrings(docs) && (best.Some? ==> name in after)
    ensures GrewBy(lower0, hira0, cache.lowercase, cache.hiragana, after)
    ensures best == Classify(cache.conv, name, docs[name], queries)
  {
    ghost var lower1, hira1 := cache.lowercase, cache.hiragana;
    best := ClassifyCached(cache, name, docs[name], queries);
    ghost var s := ClassifyLookups(cache.conv, name, docs[name], queries);
    GrewByTrans(lower0, hira0, lower1, hira1, cache.lowercase, cache.hiragana, before, s);
    assert {name} + Elems(docs[name]) <= DocStrings(docs);
    after := before + s;
  }

  /** The strings the query loop of `search_unified` looks up for one document:
      none without queries; otherwise the name, and the aliases too unless the
      first query is an exact name match, which ends the loop at once. (A later
      query reaches the aliases only if the first did.) */
  function ClassifyLookups(conv: Converters, name: string, aliases: seq<string>, queries: seq<string>): set<string>
  {
    if queries == [] then {}
    else if NameExactHit(conv, name, queries[0]) then {name}
    else {name} + Elems(aliases)
  }

  /** The loop over the queries of `search_unified` for one document (search.rs:89-162). */
  method ClassifyCached(cache: StringCache, name: string, aliases: seq<string>, queries: seq<string>)
    returns (best: Option<MatchPriority>)
    requires cache.Valid()
    modifies cache
    ensures cache.Valid() && cache.aliasToDoc == old(cache.aliasToDoc)
    ensures GrewBy(old(cache.lowercase), old(cache.hiragana), cache.lowercase, cache.hiragana,
                   ClassifyLookups(cache.conv, name, aliases, queries))
    ensures best == Classify(cache.conv, name, aliases, queries)
  {
    ghost var lower0, hira0 := cache.lowercase, cache.hiragana;
    ghost var all := ClassifyLookups(cache.conv, name, aliases, queries);
    ghost var looked: set<string> := {};
    best := None;
    var j := 0;
    while j < |queries|
      invariant 0 <= j <= |queries|
      invariant cache.Valid() && cache.aliasToDoc == old(cache.aliasToDoc)
      invariant GrewBy(lower0, hira0, cache.lowercase, cache.hiragana, looked)
      invariant looked == if j == 0 then {} else all
      invariant j > 0 ==> !NameExactHit(cache.conv, name, queries[0])
      invariant j == 0 ==> best.None?
      invariant ClassifyFrom(cache.conv, name, aliases, queries[j..], best) == Classify(cache.conv, name, aliases, queries)
    {
      ghost var lower1, hira1 := cache.lowercase, cache.hiragana;
      ghost var before := best;
      var exact;
      exact, best := QueryCached(cache, name, aliases, queries[j], best);
      ghost var s := if exact || before == Some(NameExact) then {name} else {name} + Elems(aliases);
      GrewByTrans(lower0, hira0, lower1, hira1, cache.lowercase, cache.hiragana, looked, s);
      if j == 0 {
        assert queries[j] == queries[0] && looked + s == all;
      } else {
        assert s <= all;
      }
      looked := looked + s;
      if exact {
        break;
      }
      j := j + 1;
    }
    assert looked == all;
  }

  /** The body of the query loop: the exact-name tests, which end the loop,
      then the name and alias tests (search.rs:92-161). The name is looked up;
      the aliases too unless the loop ends here or the name is already an
      exact match. */
  method QueryCached(cache: StringCache, name: string, aliases: seq<string>, query: string,
                     best: Option<MatchPriority>) returns (exact: bool, next: Option<MatchPriority>)
    requires cache.Valid()
    modifies cache
    ensures cache.Valid() && cache.aliasToDoc == old(cache.aliasToDoc)
    ensures GrewBy(old(cache.lowercase), old(cache.hiragana), cache.lowercase, cache.hiragana,
                   if exact || best == Some(NameExact) then {name} else {name} + Elems(aliases))
    ensures exact == NameExactHit(cache.conv, name, query)
    ensures next == if exact then Some(NameExact) else QueryStep(cache.conv, name, aliases, query, best)
  {
    ghost var lower0, hira0 := cache.lowercase, cache.hiragana;
    var docLower := cache.GetLowercase(name);
    var docHiragana := cache.GetHiragana(name);
    assert GrewBy(lower0, hira0, cache.lowercase, cache.hiragana, {name});
    if docLower == query {
      return true, Some(NameExact);
    }
    var queryHiragana := cache.conv.hira(query);
    if docLower == queryHiragana {
      return true, Some(NameExact);
    }
    exact := false;
    next := best;
    if Worse(next, NamePrefix) {
      if StartsWith(docLower, query) || StartsWith(docLower, queryHiragana) {
        next := Some(NamePrefix);
      }
    }
    if Worse(next, NamePartial) {
      if Contains(docLower, query) || Contains(docLower, queryHiragana) {
        next := Some(NamePartial);
      } else if docHiragana.Some? {
        if Contains(docHiragana.value, cache.conv.hira(query)) {
          next := Some(NamePartial);
        }
      }
    }
    assert next == NameStep(cache.conv, name, query, best);
    assert next == Some(NameExact) <==> best == Some(NameExact);
    if next != Some(NameExact) {
      ghost var lower1, hira1 := cache.lowercase, cache.hiragana;
      next := AliasesCached(cache, aliases, query, queryHiragana, next);
      GrewByTrans(lower0, hira0, lower1, hira1, cache.lowercase, cache.hiragana, {name}, Elems(aliases));
    }
  }

  /** The loop over the aliases for one query (search.rs:128-160): every alias
      is looked up. */
  method AliasesCached(cache: StringCache, aliases: seq<string>, query: string, queryHiragana: string,
                       best: Option<MatchPriority>) returns (next: Option<MatchPriority>)
    requires cache.Valid()
    modifies cache
    ensures cache.Valid() && cache.aliasToDoc == old(cache.aliasToDoc)
    ensures GrewBy(old(cache.lowercase), old(cache.hiragana), cache.lowercase, cache.hiragana, Elems(aliases))
    ensures next == AliasesStep(cache.conv, aliases, query, queryHiragana, best)
  {
    ghost var lower0, hira0 := cache.lowercase, cache.hiragana;
    next := best;
    var k := 0;
    while k < |aliases|
      invariant 0 <= k <= |aliases|
      invariant cache.Valid() && cache.aliasToDoc == old(cache.aliasToDoc)
      invariant GrewBy(lower0, hira0, cache.lowercase, cache.hiragana, Elems(aliases[..k]))
      invariant AliasesStep(cache.conv, aliases[k..], query, queryHiragana, next)
             == AliasesStep(cache.conv, aliases, query, queryHiragana, best)
    {
      ghost var lower1, hira1 := cache.lowercase, cache.hiragana;
      next := AliasStepCached(cache, aliases[k], query, queryHiragana, next);
      GrewByTrans(lower0, hira0, lower1, hira1, cache.lowercase, cache.hiragana, Elems(aliases[..k]), {aliases[k]});
      ElemsPrefixStep(aliases, k);
      assert aliases[k..][1..] == aliases[k + 1..];
      k := k + 1;
    }
    assert aliases[..k] == aliases;
  }

  /** One arm of the alias loop, converting the alias through the cache. */
  method AliasStepCached(cache: StringCache, alias: string, query: string, queryHiragana: string,
                         best: Option<MatchPriority>) returns (next: Option<MatchPriority>)
    requires cache.Valid()
    modifies cache
    ensures cache.Valid() && cache.aliasToDoc == old(cache.aliasToDoc)
    ensures GrewBy(old(cache.lowercase), old(cache.hiragana), cache.lowercase, cache.hiragana, {alias})
    ensures next == AliasStep(cache.conv, alias, query, queryHiragana, best)
  {
    var aliasLower := cache.GetLowercase(alias);
    var aliasHiragana := cache.GetHiragana(alias);
    next := best;
    if aliasLower == query && Worse(best, AliasExact) {
      next := Some(AliasExact);
    } else if aliasLower == queryHiragana && Worse(best, AliasExact) {
      next := Some(AliasExact);
    } else if (StartsWith(aliasLower, query) || StartsWith(aliasLower, queryHiragana)) && Worse(best, AliasPrefix) {
      next := Some(AliasPrefix);
    } else if best.None? || best == Some(AliasPartial) {
      if Contains(aliasLower, query) {
        next := Some(AliasPartial);
      } else if Contains(aliasLower, queryHiragana) {
        next := Some(AliasPartial);
      } else if aliasHiragana.Some? {
        if Contains(aliasHiragana.value, queryHiragana) {
          next := Some(AliasPartial);
        }
      }
    }
  }
}
