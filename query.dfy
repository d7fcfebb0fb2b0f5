/** Query processing of the token-indexed engine (src/lib.rs `search`): the
    expansion of the query terms into tokens, the match-type bit of a
    (token, document) pair, the visit of the posting lists under the work
    budget, and the final top-`limit` ranking. BM25 scores are floating
    point and appear only as an opaque integer key per document. */
module Query {
  import opened Text
  import opened Seqs
  import opened Tokenizer
  import opened Postings

  // ---------------------------------------------------------------------------
  // Expansion

  /** The expansion built so far and the `seen_tokens` set beside it. */
  datatype Expansion = Expansion(tokens: seq<string>, seen: set<string>)

  /** `push` + `seen_tokens.insert` with no membership test, as the verbatim
      term and its transliteration are added. */
  function Push(e: Expansion, t: string): Expansion {
    Expansion(e.tokens + [t], e.seen + {t})
  }

  /** `for token in tokens { if seen_tokens.insert(token) { push } }` */
  function PushUnseen(e: Expansion, toks: seq<string>): Expansion
    decreases |toks|
  {
    if toks == [] then e
    else if toks[0] in e.seen then PushUnseen(e, toks[1..])
    else PushUnseen(Push(e, toks[0]), toks[1..])
  }

  /** A term the transliteration is tried on. */
  predicate Transliterable(term: string) {
    ByteLen(term) < 50 && IsAsciiAlphabetic(term)
  }

  /** The tokens one query term contributes, in push order. */
  function ExpandTerm(conv: Converters, e: Expansion, term: string): Expansion
  {
    var e1 := Push(e, term);
    var hira := conv.hira(conv.lower(term));
    var e2 := if Transliterable(term) && hira != term then PushUnseen(Push(e1, hira), Bigrams(hira)) else e1;
    if ByteLen(term) < 100 then PushUnseen(e2, Bigrams(term)) else e2
  }

  function ExpandTerms(conv: Converters, e: Expansion, terms: seq<string>): Expansion
    decreases |terms|
  {
    if terms == [] then e else ExpandTerms(conv, ExpandTerm(conv, e, terms[0]), terms[1..])
  }

  /** Sort key of `sort_by(|a, b| b.len().cmp(&a.len()))`: longest first. */
  function ByLength(t: string): Key {
    (ByteLen(t), 0)
  }

  /** The expanded query in the order the posting lists are visited. */
  function Expand(conv: Converters, original: seq<string>): seq<string>
  {
    SortDesc(ExpandTerms(conv, Expansion([], {}), original).tokens, ByLength)
  }

  /** The tokens a single term `o` is meant to expand to: itself; for an ASCII
      alphabetic term under 50 bytes its transliteration, when different, and
      that transliteration's bigrams; for a term under 100 bytes its bigrams. */
  ghost predicate ExpandsTo(conv: Converters, o: string, t: string) {
    var hira := conv.hira(conv.lower(o));
    || t == o
    || (Transliterable(o) && hira != o && (t == hira || t in Bigrams(hira)))
    || (ByteLen(o) < 100 && t in Bigrams(o))
  }

  ghost predicate Tracks(e: Expansion) {
    forall t :: t in e.seen <==> t in e.tokens
  }

  lemma {:induction false} PushUnseenResult(e: Expansion, toks: seq<string>)
    requires Tracks(e)
    decreases |toks|
    ensures Tracks(PushUnseen(e, toks))
    ensures forall t :: t in PushUnseen(e, toks).tokens <==> t in e.tokens || t in toks
  {
    if toks != [] {
      var e1 := if toks[0] in e.seen then e else Push(e, toks[0]);
      PushUnseenResult(e1, toks[1..]);
      assert forall t :: t in toks <==> t == toks[0] || t in toks[1..];
    }
  }

  lemma ExpandTermResult(conv: Converters, e: Expansion, term: string)
    requires Tracks(e)
    ensures Tracks(ExpandTerm(conv, e, term))
    ensures forall t :: t in ExpandTerm(conv, e, term).tokens <==> t in e.tokens || ExpandsTo(conv, term, t)
  {
    var e1 := Push(e, term);
    var hira := conv.hira(conv.lower(term));
    if Transliterable(term) && hira != term {
      PushUnseenResult(Push(e1, hira), Bigrams(hira));
    }
    var e2 := if Transliterable(term) && hira != term then PushUnseen(Push(e1, hira), Bigrams(hira)) else e1;
    if ByteLen(term) < 100 {
      PushUnseenResult(e2, Bigrams(term));
    }
  }

  lemma {:induction false} ExpandTermsResult(conv: Converters, e: Expansion, terms: seq<string>)
    requires Tracks(e)
    decreases |terms|
    ensures forall t :: t in ExpandTerms(conv, e, terms).tokens <==>
      t in e.tokens || exists o :: o in terms && ExpandsTo(conv, o, t)
  {
    if terms != [] {
      ExpandTermResult(conv, e, terms[0]);
      ExpandTermsResult(conv, ExpandTerm(conv, e, terms[0]), terms[1..]);
      forall t ensures (exists o :: o in terms && ExpandsTo(conv, o, t)) <==>
        ExpandsTo(conv, terms[0], t) || exists o :: o in terms[1..] && ExpandsTo(conv, o, t)
      {
        if exists o :: o in terms && ExpandsTo(conv, o, t) {
          var o :| o in terms && ExpandsTo(conv, o, t);
          if o != terms[0] {
            assert o in terms[1..];
          }
        }
        if exists o :: o in terms[1..] && ExpandsTo(conv, o, t) {
          var o :| o in terms[1..] && ExpandsTo(conv, o, t);
          assert o in terms;
        }
      }
    }
  }

  /** The expansion holds exactly the tokens the query terms expand to (so
      every verbatim term, bigrams only of terms under 100 bytes, and
      transliterations only of ASCII alphabetic terms under 50 bytes). */
  lemma ExpandMembers(conv: Converters, original: seq<string>)
    ensures forall t :: t in Expand(conv, original) <==> exists o :: o in original && ExpandsTo(conv, o, t)
    ensures forall o :: o in original ==> o in Expand(conv, original)
  {
    var raw := ExpandTerms(conv, Expansion([], {}), original).tokens;
    ExpandTermsResult(conv, Expansion([], {}), original);
    SortDescCorrect(raw, ByLength);
    var r := Expand(conv, original);
    forall t ensures t in r <==> t in raw {
      assert t in r <==> t in multiset(r);
      assert t in raw <==> t in multiset(raw);
    }
    forall o | o in original ensures o in r {
      assert ExpandsTo(conv, o, o);
    }
  }

  /** The expansion is visited longest first, and it is a reordering of the
      tokens in push order. */
  lemma ExpandOrder(conv: Converters, original: seq<string>)
    ensures forall i, j :: 0 <= i < j < |Expand(conv, original)| ==>
      ByteLen(Expand(conv, original)[i]) >= ByteLen(Expand(conv, original)[j])
    ensures multiset(Expand(conv, original)) == multiset(ExpandTerms(conv, Expansion([], {}), original).tokens)
  {
    SortDescCorrect(ExpandTerms(conv, Expansion([], {}), original).tokens, ByLength);
  }

  /** The expansion is not free of duplicates, unlike the token set that the
      seen set suggests: a verbatim term is pushed without consulting it, so
      a repeated term is visited twice. */
  lemma ExpansionKeepsRepeats(conv: Converters)
    ensures Expand(conv, ["1!", "1!"]) == ["1!", "1!"]
  {
    var w: string := "1!";
    assert !IsAsciiLetter(w[0]);
    assert !Transliterable(w);
    assert w[..2] == w && Pairs(w[1..]) == [];
    assert Bigrams(w) == [w, w];
    assert ByteLen(w) == 2;
    assert [w, w][1..] == [w] && [w][1..] == [];
    var e1 := ExpandTerm(conv, Expansion([], {}), w);
    assert PushUnseen(Expansion([w], {w}), []) == Expansion([w], {w});
    assert PushUnseen(Expansion([w], {w}), [w]) == Expansion([w], {w});
    assert PushUnseen(Expansion([w], {w}), [w, w]) == Expansion([w], {w});
    assert Push(Expansion([], {}), w) == Expansion([w], {w});
    assert e1 == PushUnseen(Push(Expansion([], {}), w), Bigrams(w));
    assert e1 == Expansion([w], {w});
    var e2 := ExpandTerm(conv, e1, w);
    assert PushUnseen(Expansion([w, w], {w}), []) == Expansion([w, w], {w});
    assert PushUnseen(Expansion([w, w], {w}), [w]) == Expansion([w, w], {w});
    assert PushUnseen(Expansion([w, w], {w}), [w, w]) == Expansion([w, w], {w});
    assert Push(e1, w) == Expansion([w, w], {w});
    assert e2 == PushUnseen(Push(e1, w), Bigrams(w));
    assert e2 == Expansion([w, w], {w});
    assert ["1!", "1!"][1..] == ["1!"];
    assert ExpandTerms(conv, Expansion([], {}), ["1!", "1!"]) == e2;
    assert SortDesc([w], ByLength) == [w];
    assert SortDesc([w, w], ByLength) == Insert(w, [w], ByLength);
  }

  // ---------------------------------------------------------------------------
  // Match types

  /** The six match-type bits; a higher bit is a better match. */
  const NameExactBit: bv8 := 0x20
  const AliasExactBit: bv8 := 0x10
  const NamePrefixBit: bv8 := 0x08
  const AliasPrefixBit: bv8 := 0x04
  const NamePartialBit: bv8 := 0x02
  const AliasPartialBit: bv8 := 0x01

  /** `token_is_from_original_query`: the token is a query term or a prefix of one. */
  predicate FromOriginal(token: string, original: seq<string>) {
    token in original || exists o :: o in original && StartsWith(o, token)
  }

  /** The bit a visit of `doc` in `term`'s list sets. Without per-alias
      provenance, tokens that are not verbatim terms and do not occur in the
      name count as alias prefix when they start a query term, and as alias
      partial when they are at most two bytes long. */
  function MatchBit(term: string, doc: string, original: seq<string>): bv8
  {
    if term in original then (if term == doc then NameExactBit else AliasExactBit)
    else if ByteLen(term) <= 50 && StartsWith(doc, term) then NamePrefixBit
    else if ByteLen(term) <= 50 && Contains(doc, term) then NamePartialBit
    else if FromOriginal(term, original) then AliasPrefixBit
    else if ByteLen(term) <= 2 then AliasPartialBit
    else 0
  }

  /** The priority the ranking compares: the OR of the six masked bits. */
  function Priority(m: bv8): bv8 {
    (m & NameExactBit) | (m & AliasExactBit) | (m & NamePrefixBit)
      | (m & AliasPrefixBit) | (m & NamePartialBit) | (m & AliasPartialBit)
  }

  /** Every visit sets at most one bit, and no bit outside the six; so the
      accumulated type is its own priority, and a type holding a bit outranks
      every type holding neither that bit nor a higher one. */
  lemma MatchBitLaws(term: string, doc: string, original: seq<string>, m: bv8, n: bv8, b: bv8)
    ensures MatchBit(term, doc, original) in {0, NameExactBit, AliasExactBit, NamePrefixBit,
                                              AliasPrefixBit, NamePartialBit, AliasPartialBit}
    ensures m < 64 ==> Priority(m) == m
    ensures m < 64 ==> (m | MatchBit(term, doc, original)) < 64
    ensures (b in {NameExactBit, AliasExactBit, NamePrefixBit, AliasPrefixBit, NamePartialBit, AliasPartialBit}
      && m & b != 0 && n < b) ==> m > n
  {
  }

  // ---------------------------------------------------------------------------
  // Visiting the posting lists

  /** The visit count, and the accumulated match type of every document
      visited (its keys are also the keys of the score map). */
  datatype Tally = Tally(visits: nat, types: map<string, bv8>)

  /** The work budget: more visits than ten times the limit, with at least
      twice the limit distinct documents already scored. */
  predicate OverBudget(t: Tally, limit: nat) {
    t.visits > limit * 10 && |t.types| >= limit * 2
  }

  /** Scoring one document of a list: one more visit, and the visit's bit ORed
      into the document's type (a document not yet scored starts from 0). */
  function Visit(t: Tally, term: string, d: string, original: seq<string>): Tally
  {
    var prev: bv8 := if d in t.types then t.types[d] else 0;
    Tally(t.visits + 1, t.types[d := prev | MatchBit(term, d, original)])
  }

  /** The inner loop over one posting list, left by `break` once over budget. */
  function VisitList(t: Tally, term: string, list: seq<string>, original: seq<string>, limit: nat): Tally
    decreases |list|
  {
    if list == [] || OverBudget(t, limit) then t
    else VisitList(Visit(t, term, list[0], original), term, list[1..], original, limit)
  }

  /** The outer loop over the expanded tokens; tokens with no list are skipped. */
  function VisitTerms(t: Tally, p: PostingMap, terms: seq<string>, original: seq<string>, limit: nat): Tally
    decreases |terms|
  {
    if terms == [] then t
    else VisitTerms(if terms[0] in p then VisitList(t, terms[0], p[terms[0]], original, limit) else t,
                    p, terms[1..], original, limit)
  }

  /** A visit keeps every accumulated type among the six bits. */
  lemma VisitBitBelow(t: Tally, term: string, doc: string, original: seq<string>)
    requires forall d :: d in t.types ==> t.types[d] < 64
    ensures forall d :: d in Visit(t, term, doc, original).types ==> Visit(t, term, doc, original).types[d] < 64
  {
    var prev: bv8 := if doc in t.types then t.types[doc] else 0;
    MatchBitLaws(term, doc, original, prev, 0, 0);
  }

  /** Visiting only adds documents, never counts down, keeps an exceeded budget
      exceeded, keeps every type within the six bits, and either finishes the
      list or stops over budget. */
  lemma VisitListResult(t: Tally, term: string, list: seq<string>, original: seq<string>, limit: nat)
    requires forall d :: d in t.types ==> t.types[d] < 64
    ensures var r := VisitList(t, term, list, original, limit);
      && r.visits >= t.visits
      && (forall d :: d in t.types ==> d in r.types)
      && (forall d :: d in r.types ==> d in t.types || d in list)
      && (forall d :: d in r.types ==> r.types[d] < 64)
      && (OverBudget(t, limit) ==> OverBudget(r, limit))
      && (OverBudget(r, limit) || forall d :: d in list ==> d in r.types)
  {
    VisitListKeys(t, term, list, original, limit);
    VisitListBits(t, term, list, original, limit);
    VisitListBudget(t, term, list, original, limit);
  }

  /** The visits only count up, and the documents scored are the old ones
      plus some of the list's. */
  lemma {:induction false} VisitListKeys(t: Tally, term: string, list: seq<string>, original: seq<string>, limit: nat)
    decreases |list|
    ensures var r := VisitList(t, term, list, original, limit);
      && r.visits >= t.visits
      && (forall d :: d in t.types ==> d in r.types)
      && (forall d :: d in r.types ==> d in t.types || d in list)
  {
    if list != [] && !OverBudget(t, limit) {
      var d := list[0];
      var t1 := Visit(t, term, d, original);
      VisitListKeys(t1, term, list[1..], original, limit);
      assert forall x :: x in list <==> x == d || x in list[1..];
    }
  }

  /** Every accumulated type stays among the six bits. */
  lemma {:induction false} VisitListBits(t: Tally, term: string, list: seq<string>, original: seq<string>, limit: nat)
    requires forall d :: d in t.types ==> t.types[d] < 64
    decreases |list|
    ensures forall d :: d in VisitList(t, term, list, original, limit).types ==>
      VisitList(t, term, list, original, limit).types[d] < 64
  {
    if list != [] && !OverBudget(t, limit) {
      var t1 := Visit(t, term, list[0], original);
      VisitBitBelow(t, term, list[0], original);
      VisitListBits(t1, term, list[1..], original, limit);
    }
  }

  /** Once over budget the list is left; short of it, every document of the
      list has been scored. */
  lemma {:induction false} VisitListBudget(t: Tally, term: string, list: seq<string>, original: seq<string>, limit: nat)
    decreases |list|
    ensures var r := VisitList(t, term, list, original, limit);
      && (OverBudget(t, limit) ==> OverBudget(r, limit))
      && (OverBudget(r, limit) || forall d :: d in list ==> d in r.types)
  {
    if list != [] && !OverBudget(t, limit) {
      var d := list[0];
      var t1 := Visit(t, term, d, original);
      VisitListBudget(t1, term, list[1..], original, limit);
      VisitListKeys(t1, term, list[1..], original, limit);
      assert d in t1.types;
      assert forall x :: x in list ==> x == d || x in list[1..];
    }
  }

  lemma {:induction false} VisitTermsResult(t: Tally, p: PostingMap, terms: seq<string>, original: seq<string>, limit: nat)
    requires forall d :: d in t.types ==> t.types[d] < 64
    decreases |terms|
    ensures var r := VisitTerms(t, p, terms, original, limit);
      && (forall d :: d in t.types ==> d in r.types)
      && (forall d :: d in r.types ==> d in t.types || exists x :: x in terms && x in p && d in p[x])
      && (forall d :: d in r.types ==> r.types[d] < 64)
      && (OverBudget(t, limit) ==> OverBudget(r, limit))
      && (OverBudget(r, limit) || forall x, d :: x in terms && x in p && d in p[x] ==> d in r.types)
  {
    if terms != [] {
      var x := terms[0];
      var t1 := if x in p then VisitList(t, x, p[x], original, limit) else t;
      if x in p {
        VisitListResult(t, x, p[x], original, limit);
      }
      VisitTermsResult(t1, p, terms[1..], original, limit);
      var r := VisitTerms(t, p, terms, original, limit);
      forall d | d in r.types ensures d in t.types || exists y :: y in terms && y in p && d in p[y] {
        if d !in t.types && d in t1.types {
          assert x in terms && x in p && d in p[x];
        } else if d !in t.types {
          var y :| y in terms[1..] && y in p && d in p[y];
          assert y in terms;
        }
      }
      if !OverBudget(r, limit) {
        assert !OverBudget(t1, limit);
        forall y, d | y in terms && y in p && d in p[y] ensures d in r.types {
          if y != x {
            assert y in terms[1..];
          }
        }
      }
    }
  }

  /** The documents the visit classifies: listed under some expanded token;
      and the budget stops the visit only once twice the limit distinct
      documents are scored, so a short result is never the budget's doing. */
  lemma VisitMeaning(p: PostingMap, terms: seq<string>, original: seq<string>, limit: nat)
    ensures var r := VisitTerms(Tally(0, map[]), p, terms, original, limit);
      && (forall d :: d in r.types ==> (exists x :: x in terms && x in p && d in p[x]) && r.types[d] < 64)
      && (|r.types| >= 2 * limit || forall x, d :: x in terms && x in p && d in p[x] ==> d in r.types)
  {
    VisitTermsResult(Tally(0, map[]), p, terms, original, limit);
  }

  // ---------------------------------------------------------------------------
  // Ranking

  /** Ranking key: priority first, then the score. */
  function RankKey(types: map<string, bv8>, score: string -> int): string -> Key
  {
    d => (if d in types then Priority(types[d]) as int else 0, score(d))
  }

  /** `limit` best documents by priority then score, best first: what both the
      heap path and the sort path compute (they differ only in how documents
      with the same priority and score are ordered). */
  ghost predicate TopRanked(r: seq<string>, types: map<string, bv8>, score: string -> int, limit: nat) {
    && |r| <= limit
    && NoDup(r)
    && (forall d :: d in r ==> d in types)
    && SortedDesc(r, RankKey(types, score))
    && (forall d :: d in types && d !in r ==>
          |r| == limit && forall x :: x in r ==> KeyGe(RankKey(types, score)(x), RankKey(types, score)(d)))
  }

  /** Sorting any enumeration of the scored documents and taking the first
      `limit` gives the top `limit`. */
  lemma SortTakeIsTop(order: seq<string>, types: map<string, bv8>, score: string -> int, limit: nat)
    requires NoDup(order) && forall d :: d in order <==> d in types
    ensures TopRanked(Take(SortDesc(order, RankKey(types, score)), limit), types, score, limit)
  {
    var key := RankKey(types, score);
    var s := SortDesc(order, key);
    SortDescCorrect(order, key);
    PermutationNoDup(order, s);
    var r := Take(s, limit);
    forall d ensures d in s <==> d in order {
      assert d in s <==> d in multiset(s);
      assert d in order <==> d in multiset(order);
    }
    forall d | d in types && d !in r
      ensures |r| == limit && forall x :: x in r ==> KeyGe(key(x), key(d))
    {
      TakeSortedBound(s, key, limit, d);
    }
  }

  /** A top ranking shorter than the limit holds every scored document, so
      fewer than `limit` were scored. */
  lemma ShortRankingHasAll(r: seq<string>, types: map<string, bv8>, score: string -> int, limit: nat)
    requires TopRanked(r, types, score, limit) && |r| < limit
    ensures forall d :: d in types ==> d in r
    ensures |types| < limit
  {
    var inR := set x | x in r;
    assert types.Keys <= inR;
    SetOfSeqCard(r);
    SubsetCard(types.Keys, inR);
    assert |types.Keys| == |types|;
  }

  /** The ranking step: the scored documents in some iteration order of the
      score map, sorted and cut to `limit`. */
  method RankDocs(types: map<string, bv8>, score: string -> int, limit: nat) returns (ranked: seq<string>)
    ensures TopRanked(ranked, types, score, limit)
  {
    var order: seq<string> := [];
    var rest := types.Keys;
    while rest != {}
      invariant NoDup(order)
      invariant forall d :: d in order <==> d in types && d !in rest
      invariant rest <= types.Keys
      decreases rest
    {
      var d :| d in rest;
      NoDupAppend(order, d);
      order := order + [d];
      rest := rest - {d};
    }
    ranked := Take(SortDesc(order, RankKey(types, score)), limit);
    SortTakeIsTop(order, types, score, limit);
  }

  // ---------------------------------------------------------------------------
  // The loops as written

  /** The seen-set guarded push loop. */
  method PushNew(tokens: seq<string>, seen: set<string>, toks: seq<string>)
    returns (tokens': seq<string>, seen': set<string>)
    ensures Expansion(tokens', seen') == PushUnseen(Expansion(tokens, seen), toks)
  {
    tokens', seen' := tokens, seen;
    var i := 0;
    while i < |toks|
      invariant 0 <= i <= |toks|
      invariant PushUnseen(Expansion(tokens', seen'), toks[i..]) == PushUnseen(Expansion(tokens, seen), toks)
    {
      assert toks[i..][1..] == toks[i + 1..];
      var token := toks[i];
      if token !in seen' {
        seen' := seen' + {token};
        tokens' := tokens' + [token];
      }
      i := i + 1;
    }
  }

  /** The expansion loop of `search` followed by the in-place sort. */
  method ExpandQuery(conv: Converters, original: seq<string>) returns (expanded: seq<string>)
    ensures expanded == Expand(conv, original)
  {
    var tokens: seq<string> := [];
    var seen: set<string> := {};
    var i := 0;
    while i < |original|
      invariant 0 <= i <= |original|
      invariant ExpandTerms(conv, Expansion(tokens, seen), original[i..]) == ExpandTerms(conv, Expansion([], {}), original)
    {
      assert original[i..][1..] == original[i + 1..];
      var term := original[i];
      tokens := tokens + [term];
      seen := seen + {term};
      if ByteLen(term) < 50 && IsAsciiAlphabetic(term) {
        var hira := conv.hira(conv.lower(term));
        if hira != term {
          tokens := tokens + [hira];
          seen := seen + {hira};
          var hiraTokens := Tokenize2gram(hira);
          tokens, seen := PushNew(tokens, seen, hiraTokens);
        }
      }
      if ByteLen(term) < 100 {
        var termTokens := Tokenize2gram(term);
        tokens, seen := PushNew(tokens, seen, termTokens);
      }
      i := i + 1;
    }
    expanded := SortDesc(tokens, ByLength);
  }

  /** `token_is_from_original_query` as written: a membership test, then a
      scan for a query term the token starts. */
  method TokenIsFromOriginalQuery(token: string, original: seq<string>) returns (r: bool)
    ensures r == FromOriginal(token, original)
  {
    if token in original {
      return true;
    }
    var i := 0;
    while i < |original|
      invariant 0 <= i <= |original|
      invariant forall k :: 0 <= k < i ==> !StartsWith(original[k], token)
    {
      if StartsWith(original[i], token) {
        return true;
      }
      i := i + 1;
    }
    return false;
  }

  /** The classification branch of the scoring loop. */
  method ClassifyVisit(term: string, doc: string, original: seq<string>, originalContainsTerm: bool)
    returns (bit: bv8)
    requires originalContainsTerm == (term in original)
    ensures bit == MatchBit(term, doc, original)
  {
    if originalContainsTerm {
      if term == doc {
        bit := NameExactBit;
      } else {
        bit := AliasExactBit;
      }
    } else if ByteLen(term) <= 50 && StartsWith(doc, term) {
      bit := NamePrefixBit;
    } else if ByteLen(term) <= 50 && Contains(doc, term) {
      bit := NamePartialBit;
    } else {
      var fromOriginal := TokenIsFromOriginalQuery(term, original);
      if fromOriginal {
        bit := AliasPrefixBit;
      } else if ByteLen(term) <= 2 {
        bit := AliasPartialBit;
      } else {
        bit := 0;
      }
    }
  }

  /** One visit of `VisitList`, short of the budget. */
  lemma VisitListStep(visits: nat, types: map<string, bv8>, term: string, list: seq<string>, j: nat,
                      original: seq<string>, limit: nat, prev: bv8, bit: bv8)
    requires j < |list| && !OverBudget(Tally(visits, types), limit)
    requires prev == if list[j] in types then types[list[j]] else 0
    requires bit == MatchBit(term, list[j], original)
    ensures VisitList(Tally(visits, types), term, list[j..], original, limit)
      == VisitList(Tally(visits + 1, types[list[j] := prev | bit]), term, list[j + 1..], original, limit)
  {
    assert list[j..][0] == list[j] && list[j..][1..] == list[j + 1..];
    VisitIs(visits, types, term, list[j], original, bit);
  }

  /** `Visit` is the update the loop body makes. */
  lemma VisitIs(visits: nat, types: map<string, bv8>, term: string, doc: string, original: seq<string>, bit: bv8)
    requires bit == MatchBit(term, doc, original)
    ensures Visit(Tally(visits, types), term, doc, original)
      == Tally(visits + 1, types[doc := (if doc in types then types[doc] else 0) | bit])
  {
  }

  /** The inner loop of the scoring loop: one posting list, left by `break`
      once over budget. */
  method VisitPostingList(visits0: nat, types0: map<string, bv8>, term: string, list: seq<string>,
                          original: seq<string>, limit: nat) returns (visits: nat, types: map<string, bv8>)
    ensures Tally(visits, types) == VisitList(Tally(visits0, types0), term, list, original, limit)
  {
    visits, types := visits0, types0;
    var originalContainsTerm := term in original;
    var j := 0;
    while j < |list|
      invariant 0 <= j <= |list|
      invariant VisitList(Tally(visits, types), term, list[j..], original, limit)
        == VisitList(Tally(visits0, types0), term, list, original, limit)
    {
      if visits > limit * 10 && |types| >= limit * 2 {
        break;
      }
      var doc := list[j];
      var prev: bv8 := if doc in types then types[doc] else 0;
      var bit := ClassifyVisit(term, doc, original, originalContainsTerm);
      VisitListStep(visits, types, term, list, j, original, limit, prev, bit);
      visits := visits + 1;
      types := types[doc := prev | bit];
      j := j + 1;
    }
  }

  /** The scoring loop of `search`, nested as written, with the budget `break`
      leaving only the inner loop. */
  method VisitPostings(p: PostingMap, expanded: seq<string>, original: seq<string>, limit: nat)
    returns (tally: Tally)
    ensures tally == VisitTerms(Tally(0, map[]), p, expanded, original, limit)
  {
    var visits: nat := 0;
    var types: map<string, bv8> := map[];
    var i := 0;
    while i < |expanded|
      invariant 0 <= i <= |expanded|
      invariant VisitTerms(Tally(visits, types), p, expanded[i..], original, limit)
        == VisitTerms(Tally(0, map[]), p, expanded, original, limit)
    {
      assert expanded[i..][1..] == expanded[i + 1..];
      var term := expanded[i];
      if term in p {
        visits, types := VisitPostingList(visits, types, term, p[term], original, limit);
      }
      i := i + 1;
    }
    tally := Tally(visits, types);
  }
}
