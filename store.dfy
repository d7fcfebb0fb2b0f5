/** The document store of the current engine (crate/src/lib.rs): the `Index`
    with its name -> aliases map, document count, format version and
    normalisation cache; the mutation API; the search dispatch; and the
    mapping from decoded snapshot records, current or legacy, to an index. */
module Store {
  import opened Text
  import opened Seqs
  import opened Wrappers
  import opened Cache
  import opened Search
  import opened Multimap

  type u32 = x: int | 0 <= x < 0x1_0000_0000

  /** `default_version`: the version of the current record format. */
  const CurrentVersion: u32 := 2

  /** The limit `search` uses when none is given. */
  const DefaultLimit: nat := 10

  /** One element of the `emojis` array of a batch. */
  datatype Doc = Doc(name: string, aliases: seq<string>)

  // ---------------------------------------------------------------------------
  // The reverse index against the document map

  /** The reverse index lists, for each alias, exactly the documents of `done`
      that carry it. */
  ghost predicate LinkedOn(docs: Docs, done: set<string>, rev: map<string, seq<string>>)
  {
    && (forall a, x :: a in rev && x in rev[a] ==> x in done && x in docs && a in docs[x])
    && (forall x, a :: x in done && x in docs && a in docs[x] ==> a in rev && x in rev[a])
  }

  /** The reverse index agrees with the whole document map. */
  ghost predicate Linked(docs: Docs, rev: map<string, seq<string>>)
  {
    LinkedOn(docs, docs.Keys, rev)
  }

  /** Linking one more document's aliases extends the agreement to that document. */
  lemma LinkStep(docs: Docs, done: set<string>, rev: map<string, seq<string>>, d: string)
    requires LinkedOn(docs, done, rev) && d in docs && d !in done
    ensures LinkedOn(docs, done + {d}, LinkAll(rev, docs[d], d))
  {
    LinkAllResult(rev, docs[d], d);
  }

  /** `add_document`'s cache step keeps the reverse index in agreement. */
  lemma LinkedInsert(docs: Docs, rev: map<string, seq<string>>, d: string, aliases: seq<string>)
    requires Linked(docs, rev) && d !in docs
    ensures Linked(docs[d := aliases], LinkAll(rev, aliases, d))
  {
    var docs' := docs[d := aliases];
    assert LinkedOn(docs', docs.Keys, rev);
    LinkStep(docs', docs.Keys, rev, d);
    assert docs'.Keys == docs.Keys + {d};
  }

  lemma LinkedRemoveSound(docs: Docs, rev: map<string, seq<string>>, d: string)
    requires Linked(docs, rev) && d in docs
    ensures var r := UnlinkAll(rev, docs[d], d);
      forall a, x :: a in r && x in r[a] ==> x in docs - {d} && a in docs[x]
  {
    var r := UnlinkAll(rev, docs[d], d);
    UnlinkAllResult(rev, docs[d], d);
    forall a, x | a in r && x in r[a] ensures x in docs - {d} && a in docs[x] {
      if a in docs[d] {
        assert x in Without(rev[a], d);
      } else {
        assert x in rev[a];
      }
    }
  }

  lemma LinkedRemoveComplete(docs: Docs, rev: map<string, seq<string>>, d: string)
    requires Linked(docs, rev) && d in docs
    ensures var r := UnlinkAll(rev, docs[d], d);
      forall x, a :: x in docs - {d} && a in docs[x] ==> a in r && x in r[a]
  {
    var r := UnlinkAll(rev, docs[d], d);
    UnlinkAllResult(rev, docs[d], d);
    forall x, a | x in docs - {d} && a in docs[x] ensures a in r && x in r[a] {
      assert a in rev && x in rev[a];
      if a in docs[d] {
        assert x in Without(rev[a], d);
      }
    }
  }

  /** `remove_doc`'s cache step keeps the reverse index in agreement: the
      removed document is in no list, and lists it alone held are gone. */
  lemma LinkedRemove(docs: Docs, rev: map<string, seq<string>>, d: string)
    requires Linked(docs, rev) && d in docs
    ensures Linked(docs - {d}, UnlinkAll(rev, docs[d], d))
  {
    LinkedRemoveSound(docs, rev, d);
    LinkedRemoveComplete(docs, rev, d);
    assert (docs - {d}).Keys == docs.Keys - {d};
  }

  /** `x` is the name or an alias of a document in `done`. */
  ghost predicate Mentioned(docs: Docs, done: set<string>, x: string) {
    x in done || exists d :: d in done && d in docs && x in docs[d]
  }

  lemma MentionedStep(docs: Docs, done: set<string>, d: string)
    requires d in docs
    ensures forall x :: Mentioned(docs, done + {d}, x) <==> Mentioned(docs, done, x) || x == d || x in docs[d]
  {
  }

  // ---------------------------------------------------------------------------
  // Batches

  /** The document map after the batch loop of `add_documents`: each document
      replaces any entry of the same name, in batch order. */
  function Upsert(docs: Docs, batch: seq<Doc>): Docs
    decreases |batch|
  {
    if batch == [] then docs else Upsert(docs[batch[0].name := batch[0].aliases], batch[1..])
  }

  /** The strings `remove_doc` evicts from the conversion caches: the name and
      its aliases when the name is present, nothing otherwise. */
  function Dropped(docs: Docs, name: string): set<string> {
    if name in docs then {name} + Elems(docs[name]) else {}
  }

  /** The reverse index after `remove_doc`: the name unlinked from each of its
      aliases when present. */
  function Detach(links: map<string, seq<string>>, docs: Docs, name: string): map<string, seq<string>> {
    if name in docs then UnlinkAll(links, docs[name], name) else links
  }

  /** The caches after `remove_doc` and `update_cache_for_document` of `name`
      with `aliases`, from keys `lower0`/`hira0`, reverse index `links0` and
      documents `docs0`: what the removal evicted is gone, the name and the
      aliases are cached, and the name is linked from its new aliases. */
  ghost predicate CachedAfterPut(lower0: set<string>, hira0: set<string>, links0: map<string, seq<string>>,
                                 docs0: Docs, name: string, aliases: seq<string>,
                                 lower: map<string, string>, hira: map<string, string>, links: map<string, seq<string>>)
  {
    && (forall x :: x in lower <==> (x in lower0 && x !in Dropped(docs0, name)) || x == name || x in aliases)
    && (forall x :: x in hira <==>
          (x in hira0 && x !in Dropped(docs0, name)) || ((x == name || x in aliases) && IsAscii(x)))
    && links == LinkAll(Detach(links0, docs0, name), aliases, name)
  }

  /** A `remove_doc` before the put changes nothing: the put evicts the same
      strings itself. */
  lemma PutAfterRemove(lower0: set<string>, hira0: set<string>, links0: map<string, seq<string>>, docs0: Docs,
                       lower1: set<string>, hira1: set<string>, links1: map<string, seq<string>>, docs1: Docs,
                       name: string, aliases: seq<string>,
                       lower: map<string, string>, hira: map<string, string>, links: map<string, seq<string>>)
    requires lower1 == lower0 - Dropped(docs0, name) && hira1 == hira0 - Dropped(docs0, name)
    requires links1 == Detach(links0, docs0, name) && docs1 == docs0 - {name}
    requires CachedAfterPut(lower1, hira1, links1, docs1, name, aliases, lower, hira, links)
    ensures CachedAfterPut(lower0, hira0, links0, docs0, name, aliases, lower, hira, links)
  {
    assert Dropped(docs1, name) == {};
  }

  /** Removing a name before mapping it anew leaves the same documents. */
  lemma PutAfterRemoveDocs(docs: Docs, name: string, aliases: seq<string>)
    ensures (docs - {name})[name := aliases] == docs[name := aliases]
  {
  }

  /** `n_docs.saturating_sub(1)`. */
  function Dec(n: nat): nat {
    if n == 0 then 0 else n - 1
  }

  /** The count after one document is put: `remove_doc` first when the name is
      present, then `n_docs += 1`. */
  function PutCount(docs: Docs, n: nat, name: string): nat {
    (if name in docs then Dec(n) else n) + 1
  }

  /** The count after the batch loop of `add_documents`, document by document. */
  function BatchCount(docs: Docs, n: nat, batch: seq<Doc>): nat
    decreases |batch|
  {
    if batch == [] then n
    else BatchCount(docs[batch[0].name := batch[0].aliases], PutCount(docs, n, batch[0].name), batch[1..])
  }

  /** From a count equal to the number of documents, putting one keeps it so. */
  lemma PutCountCounted(docs: Docs, n: nat, name: string, aliases: seq<string>)
    requires n == |docs|
    ensures PutCount(docs, n, name) == |docs[name := aliases]|
  {
    if name in docs {
      assert docs[name := aliases].Keys == docs.Keys;
      assert |docs.Keys| > 0;
    } else {
      assert docs[name := aliases].Keys == docs.Keys + {name};
    }
  }

  /** From a count equal to the number of documents, the batch count is the
      number of documents after the upsert. */
  lemma {:induction false} BatchCountCounted(docs: Docs, n: nat, batch: seq<Doc>)
    requires n == |docs|
    decreases |batch|
    ensures BatchCount(docs, n, batch) == |Upsert(docs, batch)|
  {
    if batch != [] {
      PutCountCounted(docs, n, batch[0].name, batch[0].aliases);
      BatchCountCounted(docs[batch[0].name := batch[0].aliases], PutCount(docs, n, batch[0].name), batch[1..]);
    }
  }

  /** After a batch the names are the old ones and the batch's; a name keeps its
      last aliases in the batch, and names outside the batch keep theirs. */
  lemma UpsertResult(docs: Docs, batch: seq<Doc>)
    ensures var r := Upsert(docs, batch);
      && (forall n :: n in r <==> n in docs || exists i :: 0 <= i < |batch| && batch[i].name == n)
      && (forall n :: n in docs && (forall i :: 0 <= i < |batch| ==> batch[i].name != n) ==> r[n] == docs[n])
      && (forall i :: 0 <= i < |batch| && (forall j :: i < j < |batch| ==> batch[j].name != batch[i].name) ==>
            r[batch[i].name] == batch[i].aliases)
  {
    UpsertKeys(docs, batch);
    var r := Upsert(docs, batch);
    forall n | n in docs && (forall i :: 0 <= i < |batch| ==> batch[i].name != n) ensures r[n] == docs[n] {
      UpsertKeeps(docs, batch, n);
    }
    forall i | 0 <= i < |batch| && (forall j :: i < j < |batch| ==> batch[j].name != batch[i].name)
      ensures r[batch[i].name] == batch[i].aliases
    {
      UpsertLast(docs, batch, i);
    }
  }

  lemma {:induction false} UpsertKeys(docs: Docs, batch: seq<Doc>)
    decreases |batch|
    ensures forall n :: n in Upsert(docs, batch) <==> n in docs || exists i :: 0 <= i < |batch| && batch[i].name == n
  {
    if batch != [] {
      var d := batch[0];
      var tail := batch[1..];
      var docs' := docs[d.name := d.aliases];
      UpsertKeys(docs', tail);
      var r := Upsert(docs, batch);
      assert r == Upsert(docs', tail);
      assert forall n :: n in docs' <==> n in docs || n == d.name;
      forall n | n in r ensures n in docs || exists i :: 0 <= i < |batch| && batch[i].name == n {
        if n !in docs && n != d.name {
          var i :| 0 <= i < |tail| && tail[i].name == n;
          assert batch[i + 1].name == n;
        }
      }
      forall n | n in docs || (exists i :: 0 <= i < |batch| && batch[i].name == n) ensures n in r {
        if n !in docs && n != d.name {
          var i :| 0 <= i < |batch| && batch[i].name == n;
          assert tail[i - 1].name == n;
        }
      }
    }
  }

  lemma {:induction false} UpsertKeeps(docs: Docs, batch: seq<Doc>, n: string)
    requires n in docs && forall i :: 0 <= i < |batch| ==> batch[i].name != n
    decreases |batch|
    ensures n in Upsert(docs, batch) && Upsert(docs, batch)[n] == docs[n]
  {
    if batch != [] {
      var d := batch[0];
      var tail := batch[1..];
      assert d.name != n;
      forall i | 0 <= i < |tail| ensures tail[i].name != n {
        assert tail[i] == batch[i + 1];
      }
      UpsertKeeps(docs[d.name := d.aliases], tail, n);
    }
  }

  lemma {:induction false} UpsertLast(docs: Docs, batch: seq<Doc>, i: nat)
    requires i < |batch| && forall j :: i < j < |batch| ==> batch[j].name != batch[i].name
    decreases |batch|
    ensures batch[i].name in Upsert(docs, batch) && Upsert(docs, batch)[batch[i].name] == batch[i].aliases
  {
    var d := batch[0];
    var tail := batch[1..];
    var docs' := docs[d.name := d.aliases];
    if i > 0 {
      assert batch[i] == tail[i - 1];
      forall j | i - 1 < j < |tail| ensures tail[j].name != tail[i - 1].name {
        assert tail[j] == batch[j + 1];
      }
      UpsertLast(docs', tail, i - 1);
    } else {
      forall j | 0 <= j < |tail| ensures tail[j].name != d.name {
        assert tail[j] == batch[j + 1];
      }
      UpsertKeeps(docs', tail, d.name);
    }
  }

  // ---------------------------------------------------------------------------
  // Records and loading

  /** The fields of a current snapshot (`Index` without its cache, which is
      never serialised). */
  datatype Record = Record(docAliases: Docs, nDocs: nat, version: u32)

  /** The fields of a legacy snapshot (`OldIndex`); `k1` and `b` are kept as
      the bit patterns of the two `f32`s. */
  datatype LegacyRecord = LegacyRecord(postings: map<string, seq<string>>, docLen: map<string, nat>,
                                       docAliases: Docs, nDocs: nat, k1Bits: bv32, bBits: bv32, version: u32)

  /** What decoding the bytes gave: a current record, else a legacy record,
      else the legacy decoder's error message (the current decoder's error is
      discarded by the source). */
  datatype Decoded = Current(record: Record) | Legacy(legacy: LegacyRecord) | Neither(legacyError: string)

  /** The migration of `load`: names and aliases and the count carried over,
      the token index and the scoring parameters dropped, the version set. */
  function Migrate(legacy: LegacyRecord): Record
  {
    Record(legacy.docAliases, legacy.nDocs, CurrentVersion)
  }

  function LoadFailure(legacyError: string): string
  {
    "Failed to load index: " + legacyError + ". The index format may be incompatible."
  }

  /** `load` on already decoded bytes: the record the loaded index holds, or the error. */
  function Load(d: Decoded): Outcome<Record>
  {
    match d
    case Current(r) => Ok(r)
    case Legacy(l) => Ok(Migrate(l))
    case Neither(e) => Err(LoadFailure(e))
  }

  /** Loading gives back a dumped record unchanged; a legacy record keeps its
      documents and count, whatever its version, and becomes version 2; when
      neither format decodes, loading fails with a message naming the legacy
      error. */
  lemma LoadMeaning(d: Decoded)
    ensures d.Current? ==> Load(d) == Ok(d.record)
    ensures d.Legacy? ==> (Load(d).Ok? && Load(d).value.docAliases == d.legacy.docAliases
      && Load(d).value.nDocs == d.legacy.nDocs && Load(d).value.version == 2)
    ensures d.Neither? ==> (Load(d).Err? && StartsWith(Load(d).msg, "Failed to load index: ")
      && Load(d).msg[22..22 + |d.legacyError|] == d.legacyError)
  {
    if d.Neither? {
      var m := Load(d).msg;
      assert m == "Failed to load index: " + d.legacyError + ". The index format may be incompatible.";
      assert m[..22] == "Failed to load index: ";
    }
  }

  // ---------------------------------------------------------------------------
  // Search dispatch

  /** `queries.iter().map(|q| q.to_lowercase())`. */
  function LowerAll(conv: Converters, qs: seq<string>): (r: seq<string>)
    ensures |r| == |qs| && forall i :: 0 <= i < |qs| ==> r[i] == conv.lower(qs[i])
  {
    seq(|qs|, i requires 0 <= i < |qs| => conv.lower(qs[i]))
  }

  /** The AND path is taken for a single query that contains a space. */
  predicate IsAndQuery(queries: seq<string>) {
    |queries| == 1 && ' ' in queries[0]
  }

  /** What `search` returns for a decoded query list. */
  function Dispatch(conv: Converters, docs: Docs, nDocs: nat, order: seq<string>,
                    query: Outcome<seq<string>>, limit: Option<nat>): Outcome<seq<string>>
    requires forall n :: n in order ==> n in docs
  {
    match query
    case Err(msg) => Err(msg)
    case Ok(original) =>
      var lim := if limit.Some? then limit.value else DefaultLimit;
      if nDocs == 0 then Ok([])
      else
        var queries := LowerAll(conv, original);
        if IsAndQuery(queries) then Ok(AndAsWritten(conv, docs, order, Split(queries[0], ' '), lim))
        else Ok(Unified(conv, docs, order, queries, lim))
  }

  /** What the dispatch means: a query list that does not decode is an error;
      an empty index gives no results; otherwise distinct documents, each
      matching the queries the way the chosen search requires, with the AND
      path taken exactly for one lowercased query holding a space, whose
      space-separated pieces are the keywords. There are at most the limit
      (10 when none is given) of them, except that the AND path with a limit
      of 0 still returns one (AndLimitZeroOverflows). */
  lemma DispatchMeaning(conv: Converters, docs: Docs, nDocs: nat, order: seq<string>,
                        query: Outcome<seq<string>>, limit: Option<nat>)
    requires IsEnumeration(order, docs)
    ensures var r := Dispatch(conv, docs, nDocs, order, query, limit);
      && (r.Err? <==> query.Err?)
      && (query.Ok? && nDocs == 0 ==> r == Ok([]))
      && (r.Ok? ==> var lim := if limit.Some? then limit.value else DefaultLimit;
                    |r.value| <= if lim == 0 then 1 else lim)
      && (r.Ok? && query.Ok? && !IsAndQuery(LowerAll(conv, query.value)) ==>
            |r.value| <= if limit.Some? then limit.value else DefaultLimit)
      && (r.Ok? ==> NoDup(r.value) && forall n :: n in r.value ==> n in docs)
    ensures query.Ok? && nDocs != 0 && IsAndQuery(LowerAll(conv, query.value)) ==>
      var q := LowerAll(conv, query.value)[0];
      var kws := Split(q, ' ');
      && |kws| >= 2 && Join(kws, ' ') == q
      && forall n :: n in Dispatch(conv, docs, nDocs, order, query, limit).value ==> DocHitsAll(conv, n, docs[n], kws)
    ensures query.Ok? && nDocs != 0 && !IsAndQuery(LowerAll(conv, query.value)) ==>
      forall n :: n in Dispatch(conv, docs, nDocs, order, query, limit).value ==>
        Classify(conv, n, docs[n], LowerAll(conv, query.value)).Some?
  {
    if query.Ok? && nDocs != 0 {
      var lim := if limit.Some? then limit.value else DefaultLimit;
      var queries := LowerAll(conv, query.value);
      if IsAndQuery(queries) {
        var kws := Split(queries[0], ' ');
        AndAsWrittenBound(conv, docs, order, kws, lim);
        AndAsWrittenSound(conv, docs, order, kws, lim);
        SplitJoin(queries[0], ' ');
        SplitCount(queries[0], ' ');
      } else {
        UnifiedProperties(conv, docs, order, queries, lim);
      }
    }
  }

  // ---------------------------------------------------------------------------
  // The index

  /** `Index`. */
  class Index {
    var docAliases: Docs
    var nDocs: nat
    var version: u32
    const cache: StringCache

    /** The cache is coherent and its reverse index agrees with the documents. */
    ghost predicate Valid()
      reads this, cache
    {
      cache.Valid() && Linked(docAliases, cache.aliasToDoc)
    }

    /** The conversion caches as `rebuild_cache` leaves them: exactly the
        documents' names and aliases are cached, the hiragana forms only for
        ASCII strings. */
    ghost predicate CachedAsRebuilt()
      reads this, cache
    {
      && (forall x :: x in cache.lowercase <==> Mentioned(docAliases, docAliases.Keys, x))
      && (forall x :: x in cache.hiragana <==> Mentioned(docAliases, docAliases.Keys, x) && IsAscii(x))
    }

    /** The central invariant of the count: it is the number of documents. */
    ghost predicate Counted()
      reads this
    {
      nDocs == |docAliases|
    }

    /** The serialised part of the index (`dump` writes these fields). */
    function State(): Record
      reads this
    {
      Record(docAliases, nDocs, version)
    }

    /** `Index::new`: no documents, version 2, an empty cache. */
    constructor (conv: Converters)
      ensures Valid() && Counted() && fresh(cache) && cache.conv == conv
      ensures docAliases == map[] && nDocs == 0 && version == CurrentVersion
      ensures cache.lowercase == map[] && cache.hiragana == map[] && cache.aliasToDoc == map[]
    {
      docAliases := map[];
      nDocs := 0;
      version := CurrentVersion;
      cache := new StringCache(conv);
    }

    /** The index `load` returns for a decoded record: its fields, and a cache
        rebuilt from its documents. */
    constructor FromRecord(conv: Converters, rec: Record)
      ensures Valid() && State() == rec && fresh(cache) && cache.conv == conv
      ensures CachedAsRebuilt()
    {
      docAliases := rec.docAliases;
      nDocs := rec.nDocs;
      version := rec.version;
      cache := new StringCache(conv);
      new;
      RebuildCache();
    }

    /** `get_version`. */
    function GetVersion(): u32
      reads this
    {
      version
    }

    /** `remove_doc`: an absent name changes nothing; a present one leaves the
        map and the cache, and the count drops by one, saturating at zero. */
    method RemoveDoc(name: string)
      requires cache.Valid()
      modifies this, cache
      ensures cache.Valid() && version == old(version)
      ensures docAliases == old(docAliases) - {name}
      ensures nDocs == if name in old(docAliases) then Dec(old(nDocs)) else old(nDocs)
      ensures name !in old(docAliases) ==>
        cache.lowercase == old(cache.lowercase) && cache.hiragana == old(cache.hiragana) && cache.aliasToDoc == old(cache.aliasToDoc)
      ensures name in old(docAliases) ==>
        && cache.lowercase == old(cache.lowercase) - ({name} + Elems(old(docAliases)[name]))
        && cache.hiragana == old(cache.hiragana) - ({name} + Elems(old(docAliases)[name]))
        && cache.aliasToDoc == UnlinkAll(old(cache.aliasToDoc), old(docAliases)[name], name)
      ensures cache.lowercase.Keys == old(cache.lowercase.Keys) - Dropped(old(docAliases), name)
      ensures cache.hiragana.Keys == old(cache.hiragana.Keys) - Dropped(old(docAliases), name)
      ensures cache.aliasToDoc == Detach(old(cache.aliasToDoc), old(docAliases), name)
      ensures old(Linked(docAliases, cache.aliasToDoc)) ==> Linked(docAliases, cache.aliasToDoc)
      ensures old(Counted()) ==> Counted()
    {
      if name in docAliases {
        var aliases := docAliases[name];
        ghost var before := docAliases;
        docAliases := docAliases - {name};
        cache.RemoveDocument(name, aliases);
        nDocs := if nDocs == 0 then 0 else nDocs - 1;
        assert nDocs == Dec(old(nDocs));
        if Linked(before, old(cache.aliasToDoc)) {
          LinkedRemove(before, old(cache.aliasToDoc), name);
        }
      }
    }

    /** `remove_document`: true exactly when the name was present; the name is
        absent afterwards, and nothing changes when it returns false. */
    method RemoveDocument(name: string) returns (found: bool)
      requires Valid()
      modifies this, cache
      ensures Valid() && version == old(version)
      ensures found == (name in old(docAliases))
      ensures docAliases == old(docAliases) - {name}
      ensures !found ==> (nDocs == old(nDocs) && cache.lowercase == old(cache.lowercase)
        && cache.hiragana == old(cache.hiragana) && cache.aliasToDoc == old(cache.aliasToDoc))
      ensures found ==>
        && nDocs == Dec(old(nDocs))
        && cache.lowercase == old(cache.lowercase) - ({name} + Elems(old(docAliases)[name]))
        && cache.hiragana == old(cache.hiragana) - ({name} + Elems(old(docAliases)[name]))
        && cache.aliasToDoc == UnlinkAll(old(cache.aliasToDoc), old(docAliases)[name], name)
      ensures old(Counted()) ==> Counted()
    {
      if name in docAliases {
        RemoveDoc(name);
        found := true;
      } else {
        found := false;
      }
    }

    /** `update_cache_for_document`: both forms of the name and of every alias
        cached, and the name linked from every alias in turn. */
    method UpdateCacheForDocument(name: string, aliases: seq<string>)
      requires cache.Valid()
      modifies cache
      ensures cache.Valid()
      ensures cache.aliasToDoc == LinkAll(old(cache.aliasToDoc), aliases, name)
      ensures forall x :: x in cache.lowercase <==> x in old(cache.lowercase) || x == name || x in aliases
      ensures forall x :: x in cache.hiragana <==> x in old(cache.hiragana) || ((x == name || x in aliases) && IsAscii(x))
    {
      var _ := cache.GetLowercase(name);
      var _ := cache.GetHiragana(name);
      CacheAliases(name, aliases);
    }

    /** The alias loop of `update_cache_for_document`. */
    method CacheAliases(name: string, aliases: seq<string>)
      requires cache.Valid()
      modifies cache
      ensures cache.Valid()
      ensures cache.aliasToDoc == LinkAll(old(cache.aliasToDoc), aliases, name)
      ensures forall x :: x in cache.lowercase <==> x in old(cache.lowercase) || x in aliases
      ensures forall x :: x in cache.hiragana <==> x in old(cache.hiragana) || (x in aliases && IsAscii(x))
    {
      var k := 0;
      while k < |aliases|
        invariant 0 <= k <= |aliases|
        invariant cache.Valid()
        invariant LinkAll(cache.aliasToDoc, aliases[k..], name) == LinkAll(old(cache.aliasToDoc), aliases, name)
        invariant forall x :: x in cache.lowercase <==> x in old(cache.lowercase) || x in aliases[..k]
        invariant forall x :: x in cache.hiragana <==> x in old(cache.hiragana) || (x in aliases[..k] && IsAscii(x))
      {
        var alias := aliases[k];
        assert aliases[..k + 1] == aliases[..k] + [alias];
        assert aliases[k..][1..] == aliases[k + 1..];
        CacheAlias(alias, name);
        k := k + 1;
      }
      assert aliases[..k] == aliases;
    }

    /** One turn of the alias loop of `update_cache_for_document`: both forms
        of the alias cached, and the name linked from it. */
    method CacheAlias(alias: string, name: string)
      requires cache.Valid()
      modifies cache
      ensures cache.Valid()
      ensures cache.aliasToDoc == Link(old(cache.aliasToDoc), alias, name)
      ensures forall x :: x in cache.lowercase <==> x in old(cache.lowercase) || x == alias
      ensures forall x :: x in cache.hiragana <==> x in old(cache.hiragana) || (x == alias && IsAscii(x))
    {
      var _ := cache.GetLowercase(alias);
      var _ := cache.GetHiragana(alias);
      cache.AddAliasMapping(alias, name);
    }

    /** `rebuild_cache`: the cache emptied, then every document's name and
        aliases cached and linked, so the reverse index agrees with the
        documents and exactly the names and aliases have their forms cached. */
    method RebuildCache()
      requires cache.Valid()
      modifies cache
      ensures Valid() && CachedAsRebuilt()
    {
      cache.Clear();
      var todo := docAliases.Keys;
      ghost var done: set<string> := {};
      while todo != {}
        invariant cache.Valid()
        invariant todo <= docAliases.Keys && done == docAliases.Keys - todo
        invariant LinkedOn(docAliases, done, cache.aliasToDoc)
        invariant forall x :: x in cache.lowercase <==> Mentioned(docAliases, done, x)
        invariant forall x :: x in cache.hiragana <==> Mentioned(docAliases, done, x) && IsAscii(x)
        decreases |todo|
      {
        var d :| d in todo;
        LinkStep(docAliases, done, cache.aliasToDoc, d);
        MentionedStep(docAliases, done, d);
        UpdateCacheForDocument(d, docAliases[d]);
        todo := todo - {d};
        done := done + {d};
      }
      assert done == docAliases.Keys;
    }

    /** `add_document` with its aliases already decoded: a decoding error
        changes nothing; otherwise the name maps to the new aliases, replacing
        any entry of that name, and every other document is unchanged. */
    method AddDocument(name: string, aliases: Outcome<seq<string>>) returns (r: Outcome<()>)
      requires Valid()
      modifies this, cache
      ensures Valid() && version == old(version)
      ensures aliases.Err? ==> (r == Err(aliases.msg) && docAliases == old(docAliases) && nDocs == old(nDocs)
        && cache.lowercase == old(cache.lowercase) && cache.hiragana == old(cache.hiragana)
        && cache.aliasToDoc == old(cache.aliasToDoc))
      ensures aliases.Ok? ==> r == Ok(()) && docAliases == old(docAliases)[name := aliases.value]
      ensures aliases.Ok? ==> nDocs == PutCount(old(docAliases), old(nDocs), name)
      ensures aliases.Ok? ==> CachedAfterPut(old(cache.lowercase.Keys), old(cache.hiragana.Keys),
                                             old(cache.aliasToDoc), old(docAliases), name, aliases.value,
                                             cache.lowercase, cache.hiragana, cache.aliasToDoc)
      ensures old(Counted()) ==> Counted()
    {
      if aliases.Err? {
        return Err(aliases.msg);
      }
      AddDecoded(name, aliases.value);
      r := Ok(());
    }

    /** The body of `add_document` once the aliases are decoded: `remove_doc`
        when the name is present, `update_cache_for_document`, then the entry
        inserted and counted. */
    method AddDecoded(name: string, aliases: seq<string>)
      requires Valid()
      modifies this, cache
      ensures Valid() && version == old(version)
      ensures docAliases == old(docAliases)[name := aliases]
      ensures nDocs == PutCount(old(docAliases), old(nDocs), name)
      ensures CachedAfterPut(old(cache.lowercase.Keys), old(cache.hiragana.Keys),
                             old(cache.aliasToDoc), old(docAliases), name, aliases,
                             cache.lowercase, cache.hiragana, cache.aliasToDoc)
      ensures old(Counted()) ==> Counted()
    {
      ghost var docs0, links0 := docAliases, cache.aliasToDoc;
      if name in docAliases {
        RemoveDoc(name);
      }
      ghost var lower1, hira1 := cache.lowercase.Keys, cache.hiragana.Keys;
      assert lower1 == old(cache.lowercase.Keys) - Dropped(docs0, name);
      assert hira1 == old(cache.hiragana.Keys) - Dropped(docs0, name);
      assert cache.aliasToDoc == Detach(links0, docs0, name);
      LinkedInsert(docAliases, cache.aliasToDoc, name, aliases);
      UpdateCacheForDocument(name, aliases);
      PutAfterRemoveDocs(docs0, name, aliases);
      docAliases := docAliases[name := aliases];
      nDocs := nDocs + 1;
    }

    /** `update_document`: an absent name gives false and changes nothing, even
        when the aliases do not decode; a present one with aliases that do not
        decode gives the error and changes nothing; otherwise true, with the
        name mapped to the new aliases. */
    method UpdateDocument(name: string, aliases: Outcome<seq<string>>) returns (r: Outcome<bool>)
      requires Valid()
      modifies this, cache
      ensures Valid() && version == old(version)
      ensures name !in old(docAliases) ==> r == Ok(false)
      ensures name in old(docAliases) && aliases.Err? ==> r == Err(aliases.msg)
      ensures r != Ok(true) ==> (docAliases == old(docAliases) && nDocs == old(nDocs)
        && cache.lowercase == old(cache.lowercase) && cache.hiragana == old(cache.hiragana)
        && cache.aliasToDoc == old(cache.aliasToDoc))
      ensures name in old(docAliases) && aliases.Ok? ==>
        r == Ok(true) && docAliases == old(docAliases)[name := aliases.value] && nDocs == Dec(old(nDocs)) + 1
      ensures name in old(docAliases) && aliases.Ok? ==>
        CachedAfterPut(old(cache.lowercase.Keys), old(cache.hiragana.Keys), old(cache.aliasToDoc),
                       old(docAliases), name, aliases.value, cache.lowercase, cache.hiragana, cache.aliasToDoc)
      ensures old(Counted()) ==> Counted()
    {
      if name !in docAliases {
        return Ok(false);
      }
      if aliases.Err? {
        return Err(aliases.msg);
      }
      ReplaceDocument(name, aliases.value);
      r := Ok(true);
    }

    /** The present, decoded path of `update_document`: `remove_doc`, then
        `add_document`, which leaves the name mapped to the new aliases. */
    method ReplaceDocument(name: string, aliases: seq<string>)
      requires Valid()
      modifies this, cache
      ensures Valid() && version == old(version)
      ensures docAliases == old(docAliases)[name := aliases]
      ensures nDocs == PutCount(old(docAliases), old(nDocs), name)
      ensures CachedAfterPut(old(cache.lowercase.Keys), old(cache.hiragana.Keys), old(cache.aliasToDoc),
                             old(docAliases), name, aliases, cache.lowercase, cache.hiragana, cache.aliasToDoc)
      ensures old(Counted()) ==> Counted()
    {
      ghost var before, lower0, hira0, links0 := docAliases, cache.lowercase.Keys, cache.hiragana.Keys, cache.aliasToDoc;
      RemoveDoc(name);
      ghost var docs1, lower1, hira1, links1 := docAliases, cache.lowercase.Keys, cache.hiragana.Keys, cache.aliasToDoc;
      AddDecoded(name, aliases);
      PutAfterRemove(lower0, hira0, links0, before, lower1, hira1, links1, docs1, name, aliases,
                     cache.lowercase, cache.hiragana, cache.aliasToDoc);
      PutAfterRemoveDocs(before, name, aliases);
    }

    /** `add_documents` with the batch already decoded: a decoding error
        changes nothing; otherwise each document replaces any entry of its
        name, in batch order, and the cache is rebuilt. */
    method AddDocuments(batch: Outcome<seq<Doc>>) returns (r: Outcome<()>)
      requires Valid()
      modifies this, cache
      ensures Valid() && version == old(version)
      ensures batch.Err? ==> (r == Err(batch.msg) && docAliases == old(docAliases) && nDocs == old(nDocs)
        && cache.lowercase == old(cache.lowercase) && cache.hiragana == old(cache.hiragana)
        && cache.aliasToDoc == old(cache.aliasToDoc))
      ensures batch.Ok? ==> r == Ok(()) && docAliases == Upsert(old(docAliases), batch.value)
      ensures batch.Ok? ==> nDocs == BatchCount(old(docAliases), old(nDocs), batch.value)
      ensures batch.Ok? ==> CachedAsRebuilt()
      ensures old(Counted()) ==> Counted()
    {
      if batch.Err? {
        return Err(batch.msg);
      }
      var docs := batch.value;
      var i := 0;
      while i < |docs|
        invariant 0 <= i <= |docs|
        invariant cache.Valid() && version == old(version)
        invariant Upsert(docAliases, docs[i..]) == Upsert(old(docAliases), docs)
        invariant BatchCount(docAliases, nDocs, docs[i..]) == BatchCount(old(docAliases), old(nDocs), docs)
        invariant old(Counted()) ==> Counted()
      {
        assert docs[i..][1..] == docs[i + 1..];
        PutDocument(docs[i].name, docs[i].aliases);
        i := i + 1;
      }
      RebuildCache();
      r := Ok(());
    }

    /** The body of the batch loop of `add_documents`: any entry of the name
        removed, then the name mapped to its aliases and counted; the cache is
        left to the rebuild that follows the loop. */
    method PutDocument(name: string, aliases: seq<string>)
      requires cache.Valid()
      modifies this, cache
      ensures cache.Valid() && version == old(version)
      ensures docAliases == old(docAliases)[name := aliases]
      ensures nDocs == PutCount(old(docAliases), old(nDocs), name)
      ensures cache.lowercase == old(cache.lowercase) - Dropped(old(docAliases), name)
      ensures cache.hiragana == old(cache.hiragana) - Dropped(old(docAliases), name)
      ensures cache.aliasToDoc == Detach(old(cache.aliasToDoc), old(docAliases), name)
      ensures old(Counted()) ==> Counted()
    {
      ghost var before := docAliases;
      if name in docAliases {
        RemoveDoc(name);
      }
      PutAfterRemoveDocs(before, name, aliases);
      docAliases := docAliases[name := aliases];
      nDocs := nDocs + 1;
    }

    /** `replace_all_documents`: the index is emptied first, so a batch that
        does not decode leaves it empty; otherwise it then holds the batch. */
    method ReplaceAllDocuments(batch: Outcome<seq<Doc>>) returns (r: Outcome<()>)
      requires Valid()
      modifies this, cache
      ensures Valid() && Counted() && version == old(version)
      ensures batch.Err? ==> (r == Err(batch.msg) && docAliases == map[]
        && cache.lowercase == map[] && cache.hiragana == map[] && cache.aliasToDoc == map[])
      ensures batch.Ok? ==> r == Ok(()) && docAliases == Upsert(map[], batch.value) && CachedAsRebuilt()
    {
      ClearIndex();
      r := AddDocuments(batch);
    }

    /** `clear_index`: no documents, a zero count and an empty cache. */
    method ClearIndex()
      modifies this, cache
      ensures Valid() && Counted() && version == old(version)
      ensures docAliases == map[] && nDocs == 0
      ensures cache.lowercase == map[] && cache.hiragana == map[] && cache.aliasToDoc == map[]
    {
      docAliases := map[];
      nDocs := 0;
      cache.Clear();
    }

    /** `search` with the query list already decoded; `order` is the iteration
        order of the document map. Only the conversion caches change: not at
        all on an error or an empty index, else they gain some names and
        aliases, among them every document returned. */
    method Search(query: Outcome<seq<string>>, limit: Option<nat>, order: seq<string>)
      returns (r: Outcome<seq<string>>)
      requires Valid() && IsEnumeration(order, docAliases)
      modifies cache
      ensures Valid() && cache.aliasToDoc == old(cache.aliasToDoc)
      ensures query.Err? || nDocs == 0 ==> cache.lowercase == old(cache.lowercase) && cache.hiragana == old(cache.hiragana)
      ensures r.Ok? ==> GrewWithin(old(cache.lowercase), old(cache.hiragana), cache.lowercase, cache.hiragana,
                                   Elems(r.value), DocStrings(docAliases))
      ensures r == Dispatch(cache.conv, docAliases, nDocs, order, query, limit)
    {
      if query.Err? {
        return Err(query.msg);
      }
      var original := query.value;
      var resultLimit := if limit.Some? then limit.value else DefaultLimit;
      if nDocs == 0 {
        r := Ok([]);
        GrewWithinBy(cache.lowercase, cache.hiragana, cache.lowercase, cache.hiragana, {}, DocStrings(docAliases), {});
        return;
      }
      var queries := LowerAll(cache.conv, original);
      if |queries| == 1 && ' ' in queries[0] {
        var keywords := Split(queries[0], ' ');
        var results := SearchAnd(docAliases, order, cache, keywords, resultLimit);
        return Ok(results);
      }
      var results := SearchUnified(docAliases, order, cache, queries, resultLimit);
      r := Ok(results);
    }

    /** `search_no_limit`: `search` with the default limit. */
    method SearchNoLimit(query: Outcome<seq<string>>, order: seq<string>) returns (r: Outcome<seq<string>>)
      requires Valid() && IsEnumeration(order, docAliases)
      modifies cache
      ensures Valid() && cache.aliasToDoc == old(cache.aliasToDoc)
      ensures query.Err? || nDocs == 0 ==> cache.lowercase == old(cache.lowercase) && cache.hiragana == old(cache.hiragana)
      ensures r.Ok? ==> GrewWithin(old(cache.lowercase), old(cache.hiragana), cache.lowercase, cache.hiragana,
                                   Elems(r.value), DocStrings(docAliases))
      ensures r == Dispatch(cache.conv, docAliases, nDocs, order, query, None)
      ensures r.Ok? ==> |r.value| <= DefaultLimit && NoDup(r.value) && forall n :: n in r.value ==> n in docAliases
    {
      r := Search(query, None, order);
      DispatchMeaning(cache.conv, docAliases, nDocs, order, query, None);
    }

    /** `search_with_limit`: `search` with an explicit limit, which the AND
        path exceeds by one when it is 0. */
    method SearchWithLimit(query: Outcome<seq<string>>, limit: nat, order: seq<string>) returns (r: Outcome<seq<string>>)
      requires Valid() && IsEnumeration(order, docAliases)
      modifies cache
      ensures Valid() && cache.aliasToDoc == old(cache.aliasToDoc)
      ensures query.Err? || nDocs == 0 ==> cache.lowercase == old(cache.lowercase) && cache.hiragana == old(cache.hiragana)
      ensures r.Ok? ==> GrewWithin(old(cache.lowercase), old(cache.hiragana), cache.lowercase, cache.hiragana,
                                   Elems(r.value), DocStrings(docAliases))
      ensures r == Dispatch(cache.conv, docAliases, nDocs, order, query, Some(limit))
      ensures r.Ok? ==> |r.value| <= (if limit == 0 then 1 else limit) && NoDup(r.value)
      ensures r.Ok? ==> forall n :: n in r.value ==> n in docAliases
    {
      r := Search(query, Some(limit), order);
      DispatchMeaning(cache.conv, docAliases, nDocs, order, query, Some(limit));
    }
  }

  /** `load`: the index for a decoded snapshot, with its cache rebuilt, or the error. */
  method LoadIndex(conv: Converters, d: Decoded) returns (r: Outcome<Index>)
    ensures r.Ok? <==> Load(d).Ok?
    ensures r.Err? ==> r.msg == Load(d).msg
    ensures r.Ok? ==> (fresh(r.value) && fresh(r.value.cache) && r.value.Valid()
      && r.value.cache.conv == conv && r.value.State() == Load(d).value && r.value.CachedAsRebuilt())
  {
    var loaded := Load(d);
    if loaded.Err? {
      r := Err(loaded.msg);
    } else {
      var index := new Index.FromRecord(conv, loaded.value);
      r := Ok(index);
    }
  }
}
