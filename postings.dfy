/** The postings of the token-indexed engine (src/lib.rs), token -> names of
    the documents registered under it, as values: the tokens a document is
    registered under, what removing a document leaves, and the invariant the
    mutation API keeps. */
module Postings {
  import opened Seqs
  import opened Multimap
  import opened Tokenizer

  type PostingMap = map<string, seq<string>>

  // ---------------------------------------------------------------------------
  // Registration

  /** One `for token in tokens { if !seen.insert(token) { continue; } push }`
      loop, the seen set kept as the list of tokens pushed so far. */
  function AddUnseen(seen: seq<string>, toks: seq<string>): seq<string>
    decreases |toks|
  {
    if toks == [] then seen
    else if toks[0] in seen then AddUnseen(seen, toks[1..])
    else AddUnseen(seen + [toks[0]], toks[1..])
  }

  /** The alias loop: an alias already seen is skipped together with its
      bigrams; a new one is pushed, then its bigrams not yet seen. */
  function AddAliases(seen: seq<string>, aliases: seq<string>): seq<string>
    decreases |aliases|
  {
    if aliases == [] then seen
    else if aliases[0] in seen then AddAliases(seen, aliases[1..])
    else AddAliases(AddUnseen(seen + [aliases[0]], Bigrams(aliases[0])), aliases[1..])
  }

  /** The tokens `add_document` pushes the name under, in push order: the name,
      its bigrams, then the aliases with theirs. */
  function Registered(name: string, aliases: seq<string>): seq<string>
  {
    AddAliases(AddUnseen([name], Bigrams(name)), aliases)
  }

  /** The tokens a document is meant to be found under: its name, its aliases
      and the bigrams of each. */
  ghost predicate Wanted(name: string, aliases: seq<string>, t: string) {
    t == name || t in Bigrams(name) || t in aliases || exists a :: a in aliases && t in Bigrams(a)
  }

  /** Every bigram of a seen token is seen too. */
  ghost predicate Closed(seen: seq<string>) {
    forall t, u :: t in seen && u in Bigrams(t) ==> u in seen
  }

  lemma {:induction false} AddUnseenResult(seen: seq<string>, toks: seq<string>)
    decreases |toks|
    ensures |AddUnseen(seen, toks)| >= |seen| && AddUnseen(seen, toks)[..|seen|] == seen
    ensures forall t :: t in AddUnseen(seen, toks) <==> t in seen || t in toks
    ensures NoDup(seen) ==> NoDup(AddUnseen(seen, toks))
  {
    if toks != [] {
      var s1 := if toks[0] in seen then seen else seen + [toks[0]];
      AddUnseenResult(s1, toks[1..]);
      if toks[0] !in seen && NoDup(seen) {
        NoDupAppend(seen, toks[0]);
      }
      assert forall t :: t in toks <==> t == toks[0] || t in toks[1..];
      var r := AddUnseen(seen, toks);
      assert r[..|seen|] == r[..|s1|][..|seen|];
    }
  }

  /** Registering a word and its bigrams keeps the seen list closed. */
  lemma ClosedAfterWord(seen: seq<string>, w: string)
    requires Closed(seen)
    ensures Closed(AddUnseen(seen + [w], Bigrams(w)))
  {
    var r := AddUnseen(seen + [w], Bigrams(w));
    AddUnseenResult(seen + [w], Bigrams(w));
    forall t, u | t in r && u in Bigrams(t) ensures u in r {
      if t in Bigrams(w) && t !in seen && t != w {
        BigramsOfToken(w, t, u);
      }
    }
  }

  lemma {:induction false} AddAliasesResult(seen: seq<string>, aliases: seq<string>)
    requires Closed(seen)
    decreases |aliases|
    ensures |AddAliases(seen, aliases)| >= |seen| && AddAliases(seen, aliases)[..|seen|] == seen
    ensures forall t :: t in AddAliases(seen, aliases) <==>
      t in seen || t in aliases || exists a :: a in aliases && t in Bigrams(a)
    ensures NoDup(seen) ==> NoDup(AddAliases(seen, aliases))
    ensures Closed(AddAliases(seen, aliases))
  {
    if aliases != [] {
      var a := aliases[0];
      var rest := aliases[1..];
      var s1 := if a in seen then seen else AddUnseen(seen + [a], Bigrams(a));
      if a !in seen {
        ClosedAfterWord(seen, a);
        AddUnseenResult(seen + [a], Bigrams(a));
        assert (seen + [a])[..|seen|] == seen;
        if NoDup(seen) {
          NoDupAppend(seen, a);
        }
      }
      AddAliasesResult(s1, rest);
      var r := AddAliases(seen, aliases);
      assert r[..|seen|] == r[..|s1|][..|seen|];
      forall t ensures t in r <==> t in seen || t in aliases || exists b :: b in aliases && t in Bigrams(b) {
        if t in Bigrams(a) {
          assert a in aliases;
        }
        if exists b :: b in rest && t in Bigrams(b) {
          var b :| b in rest && t in Bigrams(b);
          assert b in aliases;
        }
        if exists b :: b in aliases && t in Bigrams(b) {
          var b :| b in aliases && t in Bigrams(b);
          if b != a {
            assert b in rest;
          }
        }
        assert t in aliases <==> t == a || t in rest;
      }
    }
  }

  /** The tokens `add_document` registers are exactly the wanted ones, each
      once, the name first: the skipped aliases lose nothing, because an alias
      already seen had its bigrams seen with it. */
  lemma RegisteredMeaning(name: string, aliases: seq<string>)
    ensures NoDup(Registered(name, aliases))
    ensures |Registered(name, aliases)| > 0 && Registered(name, aliases)[0] == name
    ensures forall t :: t in Registered(name, aliases) <==> Wanted(name, aliases, t)
  {
    assert Closed([]);
    ClosedAfterWord([], name);
    assert [] + [name] == [name];
    AddUnseenResult([name], Bigrams(name));
    var s0 := AddUnseen([name], Bigrams(name));
    AddAliasesResult(s0, aliases);
    assert Registered(name, aliases)[..1] == s0[..1];
  }

  // ---------------------------------------------------------------------------
  // Removal

  /** The fallback `postings.retain`: the document dropped from every list, a
      list dropped when that change emptied it, one left unchanged kept. */
  function Scrub(p: PostingMap, d: string): PostingMap
  {
    map t | t in p && (|Without(p[t], d)| == |p[t]| || Without(p[t], d) != []) :: Without(p[t], d)
  }

  /** After the retain the document is in no list, the lists that held only
      it are gone, and the lists that never held it are untouched. */
  lemma ScrubMeaning(p: PostingMap, d: string)
    ensures forall t :: t in Scrub(p, d) <==> t in p && (d !in p[t] || Without(p[t], d) != [])
    ensures forall t :: t in Scrub(p, d) ==> Scrub(p, d)[t] == Without(p[t], d) && d !in Scrub(p, d)[t]
    ensures forall t :: t in p && d !in p[t] ==> t in Scrub(p, d) && Scrub(p, d)[t] == p[t]
    ensures forall t :: t in p && d in p[t] && Without(p[t], d) == [] ==> t !in Scrub(p, d)
  {
  }

  ghost predicate NoEmpty(p: PostingMap) {
    forall t :: t in p ==> p[t] != []
  }

  /** One step of the targeted loop of `remove_doc` changes nothing the final
      retain would not do anyway, as long as no list is empty. */
  lemma UnlinkThenScrub(p: PostingMap, t: string, d: string)
    requires NoEmpty(p)
    ensures NoEmpty(Unlink(p, t, d))
    ensures Scrub(Unlink(p, t, d), d) == Scrub(p, d)
  {
    var u := Unlink(p, t, d);
    if t in p {
      var kept := Without(p[t], d);
      assert Without(kept, d) == kept;
    }
    forall k | k in Scrub(u, d) ensures k in Scrub(p, d) && Scrub(u, d)[k] == Scrub(p, d)[k] {
      if k == t {
        assert Without(Without(p[t], d), d) == Without(p[t], d);
      }
    }
    forall k | k in Scrub(p, d) ensures k in Scrub(u, d) {
      if k == t {
        assert Without(Without(p[t], d), d) == Without(p[t], d);
      }
    }
  }

  // ---------------------------------------------------------------------------
  // The invariant

  /** What the mutation API keeps: no list is empty or repeats a name, every
      listed name is a document, and every document is listed under its own
      name. */
  ghost predicate WellFormed(p: PostingMap, docLen: map<string, nat>) {
    && (forall t :: t in p ==> p[t] != [] && NoDup(p[t]))
    && (forall t, d :: t in p && d in p[t] ==> d in docLen)
    && (forall d :: d in docLen ==> d in p && d in p[d])
  }

  /** Removing a document keeps the invariant for the remaining documents. */
  lemma WellFormedScrub(p: PostingMap, docLen: map<string, nat>, d: string)
    requires WellFormed(p, docLen)
    ensures WellFormed(Scrub(p, d), docLen - {d})
  {
    var r := Scrub(p, d);
    forall t | t in r ensures NoDup(r[t]) {
      WithoutNoDup(p[t], d);
    }
    forall e | e in docLen - {d} ensures e in r && e in r[e] {
      assert e in Without(p[e], d);
    }
  }

  /** Registering a new document keeps the invariant, and afterwards the
      document is listed under exactly its wanted tokens. */
  lemma WellFormedRegister(p: PostingMap, docLen: map<string, nat>, name: string, aliases: seq<string>, n: nat)
    requires WellFormed(p, docLen) && name !in docLen
    ensures WellFormed(LinkAll(p, Registered(name, aliases), name), docLen[name := n])
    ensures var r := LinkAll(p, Registered(name, aliases), name);
      forall t :: (t in r && name in r[t]) <==> Wanted(name, aliases, t)
  {
    var toks := Registered(name, aliases);
    var r := LinkAll(p, toks, name);
    RegisteredMeaning(name, aliases);
    LinkAllResult(p, toks, name);
    LinkAllDistinct(p, toks, name);
    forall t | t in r ensures r[t] != [] && NoDup(r[t]) {
      if t in toks {
        if t in p {
          NoDupAppend(p[t], name);
        }
      }
    }
    assert name in toks;
  }
}
