/** The `Index` of the token-indexed engine (src/lib.rs): postings, per-document
    token counts and the document count, with the mutation API that keeps
    them consistent and the `search` entry points. */
module TokenEngine {
  import opened Text
  import opened Seqs
  import opened Wrappers
  import opened Multimap
  import opened Tokenizer
  import opened Postings
  import opened Query

  /** The limit `search` uses when none is given. */
  const DefaultLimit: nat := 20

  /** One element of the `emojis` array of a batch. */
  datatype Doc = Doc(name: string, aliases: seq<string>)

  /** The three fields the mutation API changes, as a value. */
  datatype IndexState = IndexState(postings: PostingMap, docLen: map<string, nat>, nDocs: nat)

  /** `usize::saturating_sub(1)`. */
  function Decrement(n: nat): nat {
    if n == 0 then 0 else n - 1
  }

  /** `remove_doc`: nothing for an unknown name; otherwise its count entry
      goes, the postings are scrubbed of it and the document count drops. */
  function RemoveOne(s: IndexState, d: string): IndexState
  {
    if d !in s.docLen then s
    else IndexState(Scrub(s.postings, d), s.docLen - {d}, Decrement(s.nDocs))
  }

  /** One document of `add_document` / `add_documents`: any entry of the name
      removed, the count `|aliases| + 1` recorded, the document counted, and
      the name pushed under every token it registers. */
  function AddOne(s: IndexState, name: string, aliases: seq<string>): IndexState
  {
    var s1 := RemoveOne(s, name);
    IndexState(LinkAll(s1.postings, Registered(name, aliases), name), s1.docLen[name := |aliases| + 1], s1.nDocs + 1)
  }

  /** The document loop of `add_documents`. */
  function AddAll(s: IndexState, batch: seq<Doc>): IndexState
    decreases |batch|
  {
    if batch == [] then s else AddAll(AddOne(s, batch[0].name, batch[0].aliases), batch[1..])
  }

  /** The document is in the list of token `t`. */
  ghost predicate Listed(s: IndexState, t: string, d: string) {
    t in s.postings && d in s.postings[t]
  }

  /** Removal keeps the invariant, and the document count matching. */
  lemma RemoveOneWellFormed(s: IndexState, d: string)
    requires WellFormed(s.postings, s.docLen)
    ensures WellFormed(RemoveOne(s, d).postings, RemoveOne(s, d).docLen)
    ensures RemoveOne(s, d).docLen == s.docLen - {d}
    ensures s.nDocs == |s.docLen| ==> RemoveOne(s, d).nDocs == |RemoveOne(s, d).docLen|
  {
    if d !in s.docLen {
      assert s.docLen - {d} == s.docLen;
    } else {
      WellFormedScrub(s.postings, s.docLen, d);
    }
  }

  /** Removal keeps the invariant; afterwards an absent name changed nothing,
      and a present one is uncounted, in no list, every list it emptied is
      gone, and every other document is listed exactly where it was. */
  lemma RemoveOneMeaning(s: IndexState, d: string)
    requires WellFormed(s.postings, s.docLen)
    ensures WellFormed(RemoveOne(s, d).postings, RemoveOne(s, d).docLen)
    ensures d !in s.docLen ==> RemoveOne(s, d) == s
    ensures d in s.docLen ==> (
      && RemoveOne(s, d).docLen == s.docLen - {d}
      && RemoveOne(s, d).nDocs == Decrement(s.nDocs)
      && (forall t :: !Listed(RemoveOne(s, d), t, d))
      && (forall t :: Listed(s, t, d) && Without(s.postings[t], d) == [] ==> t !in RemoveOne(s, d).postings))
    ensures forall t, e :: e != d ==> (Listed(RemoveOne(s, d), t, e) <==> Listed(s, t, e))
    ensures s.nDocs == |s.docLen| ==> RemoveOne(s, d).nDocs == |RemoveOne(s, d).docLen|
  {
    if d in s.docLen {
      WellFormedScrub(s.postings, s.docLen, d);
      ScrubMeaning(s.postings, d);
    } else {
      forall t | t in s.postings ensures d !in s.postings[t] {
      }
    }
  }

  /** Adding keeps the invariant, records `|aliases| + 1` for the name and
      keeps the document count matching. */
  lemma AddOneWellFormed(s: IndexState, name: string, aliases: seq<string>)
    requires WellFormed(s.postings, s.docLen)
    ensures WellFormed(AddOne(s, name, aliases).postings, AddOne(s, name, aliases).docLen)
    ensures AddOne(s, name, aliases).docLen == s.docLen[name := |aliases| + 1]
    ensures s.nDocs == |s.docLen| ==> AddOne(s, name, aliases).nDocs == |AddOne(s, name, aliases).docLen|
  {
    var s1 := RemoveOne(s, name);
    RemoveOneWellFormed(s, name);
    assert name !in s1.docLen;
    WellFormedRegister(s1.postings, s1.docLen, name, aliases, |aliases| + 1);
    AddOneCounts(s, name, |aliases| + 1);
  }

  lemma AddOneCounts(s: IndexState, name: string, n: nat)
    ensures (s.docLen - {name})[name := n] == s.docLen[name := n]
    ensures s.nDocs == |s.docLen| ==> RemoveOne(s, name).nDocs + 1 == |s.docLen[name := n]|
  {
    var m := s.docLen;
    assert (m - {name})[name := n] == m[name := n];
  }

  /** After adding, the name is listed under exactly the tokens it is wanted
      under, its own name among them. */
  lemma AddOneListsName(s: IndexState, name: string, aliases: seq<string>)
    requires WellFormed(s.postings, s.docLen)
    ensures forall t :: Listed(AddOne(s, name, aliases), t, name) <==> Wanted(name, aliases, t)
    ensures Listed(AddOne(s, name, aliases), name, name)
  {
    var s1 := RemoveOne(s, name);
    RemoveOneMeaning(s, name);
    WellFormedRegister(s1.postings, s1.docLen, name, aliases, |aliases| + 1);
  }

  /** Adding a document leaves every other document listed exactly where it was. */
  lemma AddOneKeepsOthers(s: IndexState, name: string, aliases: seq<string>)
    requires WellFormed(s.postings, s.docLen)
    ensures forall t, e :: e != name ==> (Listed(AddOne(s, name, aliases), t, e) <==> Listed(s, t, e))
  {
    var s1 := RemoveOne(s, name);
    RemoveOneMeaning(s, name);
    LinkAllResult(s1.postings, Registered(name, aliases), name);
  }

  /** A batch keeps the invariant and the document count. */
  lemma {:induction false} AddAllWellFormed(s: IndexState, batch: seq<Doc>)
    requires WellFormed(s.postings, s.docLen)
    decreases |batch|
    ensures WellFormed(AddAll(s, batch).postings, AddAll(s, batch).docLen)
    ensures s.nDocs == |s.docLen| ==> AddAll(s, batch).nDocs == |AddAll(s, batch).docLen|
  {
    if batch != [] {
      AddOneWellFormed(s, batch[0].name, batch[0].aliases);
      AddAllWellFormed(AddOne(s, batch[0].name, batch[0].aliases), batch[1..]);
    }
  }

  /** The count map after a batch: each document's name mapped to
      `|aliases| + 1`, in batch order. */
  function Counts(m: map<string, nat>, batch: seq<Doc>): map<string, nat>
    decreases |batch|
  {
    if batch == [] then m else Counts(m[batch[0].name := |batch[0].aliases| + 1], batch[1..])
  }

  /** A batch changes the count map as `Counts` says. */
  lemma {:induction false} AddAllCounts(s: IndexState, batch: seq<Doc>)
    decreases |batch|
    ensures AddAll(s, batch).docLen == Counts(s.docLen, batch)
  {
    if batch != [] {
      var n := |batch[0].aliases| + 1;
      AddOneCounts(s, batch[0].name, n);
      var s1 := AddOne(s, batch[0].name, batch[0].aliases);
      assert s1.docLen == s.docLen[batch[0].name := n];
      AddAllCounts(s1, batch[1..]);
    }
  }

  lemma {:induction false} CountsNames(m: map<string, nat>, batch: seq<Doc>)
    decreases |batch|
    ensures forall n :: n in Counts(m, batch) <==> n in m || exists i :: 0 <= i < |batch| && batch[i].name == n
  {
    if batch != [] {
      var m1 := m[batch[0].name := |batch[0].aliases| + 1];
      CountsNames(m1, batch[1..]);
      forall n ensures n in Counts(m, batch) <==> n in m || exists i :: 0 <= i < |batch| && batch[i].name == n {
        if exists i :: 0 <= i < |batch| - 1 && batch[1..][i].name == n {
          var i :| 0 <= i < |batch| - 1 && batch[1..][i].name == n;
          assert batch[i + 1].name == n;
        }
        if exists i :: 0 <= i < |batch| && batch[i].name == n {
          var i :| 0 <= i < |batch| && batch[i].name == n;
          if i > 0 {
            assert batch[1..][i - 1].name == n;
          }
        }
      }
    }
  }

  lemma {:induction false} CountsKeeps(m: map<string, nat>, batch: seq<Doc>, n: string)
    requires forall j :: 0 <= j < |batch| ==> batch[j].name != n
    requires n in m
    decreases |batch|
    ensures n in Counts(m, batch) && Counts(m, batch)[n] == m[n]
  {
    if batch != [] {
      var m1 := m[batch[0].name := |batch[0].aliases| + 1];
      assert m1[n] == m[n];
      CountsKeeps(m1, batch[1..], n);
    }
  }

  lemma {:induction false} CountsLastAt(m: map<string, nat>, batch: seq<Doc>, i: nat)
    requires i < |batch|
    requires forall j :: i < j < |batch| ==> batch[j].name != batch[i].name
    decreases |batch|
    ensures batch[i].name in Counts(m, batch) && Counts(m, batch)[batch[i].name] == |batch[i].aliases| + 1
  {
    var m1 := m[batch[0].name := |batch[0].aliases| + 1];
    var tail := batch[1..];
    if i > 0 {
      assert tail[i - 1] == batch[i];
      forall j | i - 1 < j < |tail| ensures tail[j].name != tail[i - 1].name {
        assert tail[j] == batch[j + 1];
      }
      CountsLastAt(m1, tail, i - 1);
    } else {
      forall j | 0 <= j < |tail| ensures tail[j].name != batch[0].name {
        assert tail[j] == batch[j + 1];
      }
      CountsKeeps(m1, tail, batch[0].name);
    }
  }

  /** After a batch the documents are the old ones and those of the batch,
      each batch document counted with the aliases of its last occurrence,
      and a name the batch does not mention keeps its count. */
  lemma AddAllDocuments(s: IndexState, batch: seq<Doc>)
    ensures forall n :: n in AddAll(s, batch).docLen <==> n in s.docLen || exists i :: 0 <= i < |batch| && batch[i].name == n
    ensures forall i :: 0 <= i < |batch| && (forall j :: i < j < |batch| ==> batch[j].name != batch[i].name) ==>
      AddAll(s, batch).docLen[batch[i].name] == |batch[i].aliases| + 1
    ensures forall n :: n in s.docLen && (forall j :: 0 <= j < |batch| ==> batch[j].name != n) ==>
      AddAll(s, batch).docLen[n] == s.docLen[n]
  {
    AddAllCounts(s, batch);
    CountsNames(s.docLen, batch);
    forall i | 0 <= i < |batch| && (forall j :: i < j < |batch| ==> batch[j].name != batch[i].name)
      ensures AddAll(s, batch).docLen[batch[i].name] == |batch[i].aliases| + 1
    {
      CountsLastAt(s.docLen, batch, i);
    }
    forall n | n in s.docLen && (forall j :: 0 <= j < |batch| ==> batch[j].name != n)
      ensures AddAll(s, batch).docLen[n] == s.docLen[n]
    {
      CountsKeeps(s.docLen, batch, n);
    }
  }

  function LimitOf(limit: Option<nat>): nat {
    if limit.Some? then limit.value else DefaultLimit
  }

  /** The match types the visit of the expanded query leaves. */
  function Classified(p: PostingMap, conv: Converters, original: seq<string>, limit: nat): map<string, bv8>
  {
    VisitTerms(Tally(0, map[]), p, Expand(conv, original), original, limit).types
  }

  /** A ranking of the classified documents returns at most `limit` distinct
      documents of the index, each listed under a token of the expanded query,
      by non-increasing priority. */
  lemma SearchSound(p: PostingMap, docLen: map<string, nat>, conv: Converters, original: seq<string>,
                    limit: nat, score: string -> int, r: seq<string>)
    requires WellFormed(p, docLen)
    requires TopRanked(r, Classified(p, conv, original, limit), score, limit)
    ensures |r| <= limit && NoDup(r)
    ensures forall d :: d in r ==> d in docLen && exists t :: t in Expand(conv, original) && t in p && d in p[t]
    ensures forall i, j :: 0 <= i < j < |r| ==>
      Priority(Classified(p, conv, original, limit)[r[i]]) >= Priority(Classified(p, conv, original, limit)[r[j]])
  {
    var types := Classified(p, conv, original, limit);
    VisitMeaning(p, Expand(conv, original), original, limit);
    forall i, j | 0 <= i < j < |r| ensures Priority(types[r[i]]) >= Priority(types[r[j]]) {
      assert KeyGe(RankKey(types, score)(r[i]), RankKey(types, score)(r[j]));
    }
  }

  /** A ranking shorter than `limit` returns every document listed under a
      token of the expanded query: the work budget only stops the visit once
      twice the limit documents are classified. */
  lemma SearchExhaustive(p: PostingMap, conv: Converters, original: seq<string>,
                         limit: nat, score: string -> int, r: seq<string>)
    requires TopRanked(r, Classified(p, conv, original, limit), score, limit)
    requires |r| < limit
    ensures forall t, d :: t in Expand(conv, original) && t in p && d in p[t] ==> d in r
  {
    VisitMeaning(p, Expand(conv, original), original, limit);
    ShortRankingHasAll(r, Classified(p, conv, original, limit), score, limit);
  }

  /** The `Index`. */
  class Index {
    var postings: PostingMap
    var docLen: map<string, nat>
    var nDocs: nat

    ghost predicate Valid()
      reads this
    {
      WellFormed(postings, docLen)
    }

    /** The document count agrees with the count map. */
    ghost predicate Counted()
      reads this
    {
      nDocs == |docLen|
    }

    function State(): IndexState
      reads this
    {
      IndexState(postings, docLen, nDocs)
    }

    /** `new` / `with_params`: an empty index. */
    constructor ()
      ensures Valid() && Counted()
      ensures postings == map[] && docLen == map[] && nDocs == 0
    {
      postings := map[];
      docLen := map[];
      nDocs := 0;
    }

    /** `remove_doc`: the targeted loop over the name and, under 50 bytes, its
        bigrams, and then the retain over every list. */
    method RemoveDoc(d: string)
      requires Valid()
      modifies this
      ensures Valid()
      ensures State() == RemoveOne(old(State()), d)
      ensures old(Counted()) ==> Counted()
    {
      if d !in docLen {
        return;
      }
      WellFormedScrub(postings, docLen, d);
      docLen := docLen - {d};
      var toks := [d];
      if ByteLen(d) < 50 {
        var more := Tokenize2gram(d);
        toks := toks + more;
      }
      ghost var p0 := postings;
      var i := 0;
      while i < |toks|
        invariant 0 <= i <= |toks|
        invariant NoEmpty(postings) && Scrub(postings, d) == Scrub(p0, d)
        invariant docLen == old(docLen) - {d} && nDocs == old(nDocs)
      {
        var token := toks[i];
        if token in postings {
          ghost var prev := postings;
          var before := |postings[token]|;
          var list := Without(postings[token], d);
          UnlinkThenScrub(postings, token, d);
          if list == [] {
            postings := postings - {token};
          } else {
            postings := postings[token := list];
            assert postings == Unlink(prev, token, d);
            if before == |list| && token == d {
              break;
            }
          }
        }
        i := i + 1;
      }
      postings := Scrub(postings, d);
      nDocs := Decrement(nDocs);
    }

    /** `remove_document`: whether the name was present, and it is gone. */
    method RemoveDocument(d: string) returns (found: bool)
      requires Valid()
      modifies this
      ensures Valid()
      ensures found == (d in old(docLen))
      ensures State() == RemoveOne(old(State()), d)
      ensures !found ==> State() == old(State())
      ensures old(Counted()) ==> Counted()
    {
      if d in docLen {
        RemoveDoc(d);
        found := true;
      } else {
        found := false;
      }
    }

    /** One seen-set guarded loop of pushes of the name. */
    method LinkUnseen(toks: seq<string>, name: string, seen: set<string>, ghost pushed: seq<string>, ghost base: PostingMap)
      returns (seen': set<string>, ghost pushed': seq<string>)
      requires (forall t :: t in seen <==> t in pushed) && postings == LinkAll(base, pushed, name)
      modifies this
      ensures pushed' == AddUnseen(pushed, toks)
      ensures (forall t :: t in seen' <==> t in pushed') && postings == LinkAll(base, pushed', name)
      ensures docLen == old(docLen) && nDocs == old(nDocs)
    {
      seen', pushed' := seen, pushed;
      var i := 0;
      while i < |toks|
        invariant 0 <= i <= |toks|
        invariant (forall t :: t in seen' <==> t in pushed') && postings == LinkAll(base, pushed', name)
        invariant AddUnseen(pushed', toks[i..]) == AddUnseen(pushed, toks)
        invariant docLen == old(docLen) && nDocs == old(nDocs)
      {
        assert toks[i..][1..] == toks[i + 1..];
        var token := toks[i];
        if token !in seen' {
          seen' := seen' + {token};
          LinkAllSnoc(base, pushed', token, name);
          postings := Link(postings, token, name);
          pushed' := pushed' + [token];
        }
        i := i + 1;
      }
    }

    /** The registration part of `add_document`: the name pushed under its
        own name, each bigram of the name, and each alias with its bigrams,
        every token at most once, guarded by the `seen` set. */
    method Register(name: string, aliases: seq<string>)
      modifies this
      ensures postings == LinkAll(old(postings), Registered(name, aliases), name)
      ensures docLen == old(docLen) && nDocs == old(nDocs)
    {
      ghost var base := postings;
      var seen: set<string> := {name};
      postings := Link(postings, name, name);
      ghost var pushed := [name];
      var nameTokens := Tokenize2gram(name);
      seen, pushed := LinkUnseen(nameTokens, name, seen, pushed, base);
      var k := 0;
      while k < |aliases|
        invariant 0 <= k <= |aliases|
        invariant (forall t :: t in seen <==> t in pushed) && postings == LinkAll(base, pushed, name)
        invariant AddAliases(pushed, aliases[k..]) == Registered(name, aliases)
        invariant docLen == old(docLen) && nDocs == old(nDocs)
      {
        assert aliases[k..][1..] == aliases[k + 1..];
        var alias := aliases[k];
        if alias !in seen {
          seen := seen + {alias};
          LinkAllSnoc(base, pushed, alias, name);
          postings := Link(postings, alias, name);
          pushed := pushed + [alias];
          var aliasTokens := Tokenize2gram(alias);
          seen, pushed := LinkUnseen(aliasTokens, name, seen, pushed, base);
        }
        k := k + 1;
      }
    }

    /** The body shared by `add_document` and the loop of `add_documents`. */
    method IndexDocument(name: string, aliases: seq<string>)
      requires Valid()
      modifies this
      ensures Valid()
      ensures State() == AddOne(old(State()), name, aliases)
      ensures old(Counted()) ==> Counted()
    {
      if name in docLen {
        RemoveDoc(name);
      }
      AddOneWellFormed(old(State()), name, aliases);
      docLen := docLen[name := |aliases| + 1];
      nDocs := nDocs + 1;
      Register(name, aliases);
    }

    /** `add_document` with its aliases already decoded: a decoding error
        changes nothing; otherwise the document is (re)indexed. */
    method AddDocument(name: string, aliases: Outcome<seq<string>>) returns (r: Outcome<()>)
      requires Valid()
      modifies this
      ensures Valid()
      ensures aliases.Err? ==> r == Err(aliases.msg) && State() == old(State())
      ensures aliases.Ok? ==> r == Ok(()) && State() == AddOne(old(State()), name, aliases.value)
      ensures old(Counted()) ==> Counted()
    {
      if aliases.Err? {
        return Err(aliases.msg);
      }
      IndexDocument(name, aliases.value);
      r := Ok(());
    }

    /** `add_documents` with the batch already decoded: a decoding error
        changes nothing; otherwise each document is indexed in batch order. */
    method AddDocuments(batch: Outcome<seq<Doc>>) returns (r: Outcome<()>)
      requires Valid()
      modifies this
      ensures Valid()
      ensures batch.Err? ==> r == Err(batch.msg) && State() == old(State())
      ensures batch.Ok? ==> r == Ok(()) && State() == AddAll(old(State()), batch.value)
      ensures old(Counted()) ==> Counted()
    {
      if batch.Err? {
        return Err(batch.msg);
      }
      var docs := batch.value;
      var i := 0;
      while i < |docs|
        invariant 0 <= i <= |docs|
        invariant Valid()
        invariant AddAll(State(), docs[i..]) == AddAll(old(State()), docs)
        invariant old(Counted()) ==> Counted()
      {
        assert docs[i..][1..] == docs[i + 1..];
        IndexDocument(docs[i].name, docs[i].aliases);
        i := i + 1;
      }
      r := Ok(());
    }

    /** `update_document`: an absent name gives false and changes nothing,
        before the aliases are looked at; a present one with aliases that do
        not decode gives the error and changes nothing; otherwise true, with
        the document reindexed under its new aliases. */
    method UpdateDocument(name: string, aliases: Outcome<seq<string>>) returns (r: Outcome<bool>)
      requires Valid()
      modifies this
      ensures Valid()
      ensures name !in old(docLen) ==> r == Ok(false)
      ensures name in old(docLen) && aliases.Err? ==> r == Err(aliases.msg)
      ensures r != Ok(true) ==> State() == old(State())
      ensures name in old(docLen) && aliases.Ok? ==>
        r == Ok(true) && State() == AddOne(old(State()), name, aliases.value)
      ensures old(Counted()) ==> Counted()
    {
      if name !in docLen {
        return Ok(false);
      }
      if aliases.Err? {
        return Err(aliases.msg);
      }
      RemoveDoc(name);
      var _ := AddDocument(name, aliases);
      r := Ok(true);
    }

    /** `replace_all_documents`: the index is emptied first, so a batch that
        does not decode leaves it empty; otherwise it then holds the batch. */
    method ReplaceAllDocuments(batch: Outcome<seq<Doc>>) returns (r: Outcome<()>)
      requires Valid()
      modifies this
      ensures Valid() && Counted()
      ensures batch.Err? ==> r == Err(batch.msg) && postings == map[] && docLen == map[] && nDocs == 0
      ensures batch.Ok? ==> r == Ok(()) && State() == AddAll(IndexState(map[], map[], 0), batch.value)
    {
      ClearIndex();
      r := AddDocuments(batch);
    }

    /** `clear_index`: no postings, no documents, a zero count. */
    method ClearIndex()
      modifies this
      ensures Valid() && Counted()
      ensures postings == map[] && docLen == map[] && nDocs == 0
    {
      postings := map[];
      docLen := map[];
      nDocs := 0;
    }

    /** `search` with the query list already decoded; `score` stands for the
        BM25 score each document accumulates. A decoding error is returned;
        an empty index gives no result; otherwise the best `limit` (default
        20) of the documents the visit of the expanded query classifies. */
    method Search(conv: Converters, query: Outcome<seq<string>>, limit: Option<nat>, score: string -> int)
      returns (r: Outcome<seq<string>>)
      ensures query.Err? ==> r == Err(query.msg)
      ensures query.Ok? && nDocs == 0 ==> r == Ok([])
      ensures query.Ok? && nDocs != 0 ==>
        r.Ok? && TopRanked(r.value, Classified(postings, conv, query.value, LimitOf(limit)), score, LimitOf(limit))
    {
      if query.Err? {
        return Err(query.msg);
      }
      var original := query.value;
      var resultLimit := if limit.Some? then limit.value else DefaultLimit;
      if nDocs == 0 {
        return Ok([]);
      }
      var expanded := ExpandQuery(conv, original);
      var tally := VisitPostings(postings, expanded, original, resultLimit);
      var ranked := RankDocs(tally.types, score, resultLimit);
      r := Ok(ranked);
    }

    /** `search_no_limit`: `search` with the default limit of 20. */
    method SearchNoLimit(conv: Converters, query: Outcome<seq<string>>, score: string -> int)
      returns (r: Outcome<seq<string>>)
      requires Valid()
      ensures query.Err? ==> r == Err(query.msg)
      ensures query.Ok? && nDocs == 0 ==> r == Ok([])
      ensures query.Ok? && nDocs != 0 ==>
        r.Ok? && TopRanked(r.value, Classified(postings, conv, query.value, DefaultLimit), score, DefaultLimit)
      ensures r.Ok? ==> |r.value| <= DefaultLimit && NoDup(r.value) && forall d :: d in r.value ==> d in docLen
    {
      r := Search(conv, query, None, score);
      if r.Ok? && nDocs != 0 {
        SearchSound(postings, docLen, conv, query.value, DefaultLimit, score, r.value);
      }
    }

    /** `search_with_limit`: `search` with an explicit limit. */
    method SearchWithLimit(conv: Converters, query: Outcome<seq<string>>, limit: nat, score: string -> int)
      returns (r: Outcome<seq<string>>)
      requires Valid()
      ensures query.Err? ==> r == Err(query.msg)
      ensures query.Ok? && nDocs == 0 ==> r == Ok([])
      ensures query.Ok? && nDocs != 0 ==>
        r.Ok? && TopRanked(r.value, Classified(postings, conv, query.value, limit), score, limit)
      ensures r.Ok? ==> |r.value| <= limit && NoDup(r.value) && forall d :: d in r.value ==> d in docLen
    {
      r := Search(conv, query, Some(limit), score);
      if r.Ok? && nDocs != 0 {
        SearchSound(postings, docLen, conv, query.value, limit, score, r.value);
      }
    }
  }
}
