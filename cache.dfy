/** The normalisation cache of the current engine (crate/src/cache.rs): memoised
    lowercase and hiragana forms, and the alias -> documents reverse index used
    to drop cache entries when a document goes away. Also the six-level
    match priority. */
module Cache {
  import opened Text
  import opened Seqs
  import opened Wrappers
  import opened Multimap

  /** Match classes, best first; `Rank` is the enum's discriminant, which is
      what the derived `Ord` compares. */
  datatype MatchPriority = NameExact | AliasExact | NamePrefix | AliasPrefix | NamePartial | AliasPartial
  {
    function Rank(): (r: nat)
      ensures 1 <= r <= 6
    {
      match this
      case NameExact => 1
      case AliasExact => 2
      case NamePrefix => 3
      case AliasPrefix => 4
      case NamePartial => 5
      case AliasPartial => 6
    }

    /** `self < other` under the derived ordering. */
    predicate Lt(other: MatchPriority) {
      Rank() < other.Rank()
    }
  }

  /** The derived order is a strict total order on the six classes, with
      NameExact < AliasExact < NamePrefix < AliasPrefix < NamePartial < AliasPartial. */
  lemma PriorityTotalOrder(p: MatchPriority, q: MatchPriority, s: MatchPriority)
    ensures p.Rank() == q.Rank() ==> p == q
    ensures p.Lt(q) || p == q || q.Lt(p)
    ensures !(p.Lt(q) && q.Lt(p))
    ensures p.Lt(q) && q.Lt(s) ==> p.Lt(s)
    ensures NameExact.Lt(AliasExact) && AliasExact.Lt(NamePrefix) && NamePrefix.Lt(AliasPrefix)
    ensures AliasPrefix.Lt(NamePartial) && NamePartial.Lt(AliasPartial)
  {
  }

  /** Every cached form is what the converters give, and the reverse index
      holds no empty list: the cache carries nothing that cannot be recomputed. */
  ghost predicate Coherent(conv: Converters, lowercase: map<string, string>, hiragana: map<string, string>,
                           aliasToDoc: map<string, seq<string>>)
  {
    && (forall k :: k in lowercase ==> lowercase[k] == conv.lower(k))
    && (forall k :: k in hiragana ==> IsAscii(k) && hiragana[k] == conv.hira(conv.lower(k)))
    && (forall a :: a in aliasToDoc ==> aliasToDoc[a] != [])
  }

  /** The all-ASCII strings of `s`: those whose hiragana form `get_hiragana` stores. */
  function AsciiOnly(s: set<string>): set<string> {
    set x | x in s && IsAscii(x)
  }

  /** The conversion caches went from (`lower0`, `hira0`) to (`lower1`, `hira1`)
      by looking up exactly the strings of `looked`, each with `get_lowercase`
      and `get_hiragana`: every lookup stores its lowercase form, and its
      hiragana form when it is all ASCII. With both pairs coherent, the keys
      fix the maps (CoherentByKeys), so this is the whole new cache. */
  ghost predicate GrewBy(lower0: map<string, string>, hira0: map<string, string>,
                         lower1: map<string, string>, hira1: map<string, string>, looked: set<string>)
  {
    lower1.Keys == lower0.Keys + looked && hira1.Keys == hira0.Keys + AsciiOnly(looked)
  }

  /** The caches grew by looking up some strings of `may`, among them all of `must`. */
  ghost predicate GrewWithin(lower0: map<string, string>, hira0: map<string, string>,
                             lower1: map<string, string>, hira1: map<string, string>,
                             must: set<string>, may: set<string>)
  {
    exists looked :: must <= looked <= may && GrewBy(lower0, hira0, lower1, hira1, looked)
  }

  /** Two lookups in a row are one lookup of both sets. */
  lemma GrewByTrans(lower0: map<string, string>, hira0: map<string, string>,
                    lower1: map<string, string>, hira1: map<string, string>,
                    lower2: map<string, string>, hira2: map<string, string>, s: set<string>, t: set<string>)
    requires GrewBy(lower0, hira0, lower1, hira1, s) && GrewBy(lower1, hira1, lower2, hira2, t)
    ensures GrewBy(lower0, hira0, lower2, hira2, s + t)
  {
    assert AsciiOnly(s + t) == AsciiOnly(s) + AsciiOnly(t);
  }

  /** A set of lookups between `must` and `may` witnesses GrewWithin. */
  lemma GrewWithinBy(lower0: map<string, string>, hira0: map<string, string>,
                     lower1: map<string, string>, hira1: map<string, string>,
                     must: set<string>, may: set<string>, looked: set<string>)
    requires must <= looked <= may && GrewBy(lower0, hira0, lower1, hira1, looked)
    ensures GrewWithin(lower0, hira0, lower1, hira1, must, may)
  {
  }

  /** Coherent caches with the same keys are the same caches. */
  lemma CoherentByKeys(conv: Converters, lower: map<string, string>, hira: map<string, string>,
                       lower': map<string, string>, hira': map<string, string>, aliasToDoc: map<string, seq<string>>)
    requires Coherent(conv, lower, hira, aliasToDoc) && Coherent(conv, lower', hira', aliasToDoc)
    requires lower.Keys == lower'.Keys && hira.Keys == hira'.Keys
    ensures lower == lower' && hira == hira'
  {
  }

  /** `StringCache`. */
  class StringCache {
    const conv: Converters
    var lowercase: map<string, string>
    var hiragana: map<string, string>
    var aliasToDoc: map<string, seq<string>>

    ghost predicate Valid()
      reads this
    {
      Coherent(conv, lowercase, hiragana, aliasToDoc)
    }

    /** `StringCache::new()`: all three maps empty. */
    constructor (conv: Converters)
      ensures Valid() && this.conv == conv
      ensures lowercase == map[] && hiragana == map[] && aliasToDoc == map[]
    {
      this.conv := conv;
      lowercase := map[];
      hiragana := map[];
      aliasToDoc := map[];
    }

    /** `get_lowercase`: the lowercase form, computed and stored on first use. */
    method GetLowercase(text: string) returns (r: string)
      requires Valid()
      modifies this
      ensures Valid()
      ensures r == conv.lower(text)
      ensures lowercase == old(lowercase)[text := conv.lower(text)]
      ensures text in old(lowercase) ==> lowercase == old(lowercase)
      ensures hiragana == old(hiragana) && aliasToDoc == old(aliasToDoc)
    {
      if text !in lowercase {
        lowercase := lowercase[text := conv.lower(text)];
      }
      r := lowercase[text];
    }

    /** `get_hiragana`: for an all-ASCII string the hiragana form of its
        lowercase form, computed and stored on first use; otherwise nothing,
        and nothing stored. */
    method GetHiragana(text: string) returns (r: Option<string>)
      requires Valid()
      modifies this
      ensures Valid()
      ensures r == if IsAscii(text) then Some(conv.hira(conv.lower(text))) else None
      ensures hiragana == if IsAscii(text) then old(hiragana)[text := conv.hira(conv.lower(text))] else old(hiragana)
      ensures lowercase == old(lowercase) && aliasToDoc == old(aliasToDoc)
    {
      if IsAscii(text) {
        if text !in hiragana {
          hiragana := hiragana[text := conv.hira(conv.lower(text))];
        }
        r := Some(hiragana[text]);
      } else {
        r := None;
      }
    }

    /** `clear`. */
    method Clear()
      modifies this
      ensures Valid()
      ensures lowercase == map[] && hiragana == map[] && aliasToDoc == map[]
    {
      lowercase := map[];
      hiragana := map[];
      aliasToDoc := map[];
    }

    /** `add_alias_mapping`: `doc` appended to the end of `alias`'s list. */
    method AddAliasMapping(alias: string, doc: string)
      requires Valid()
      modifies this
      ensures Valid()
      ensures aliasToDoc == Link(old(aliasToDoc), alias, doc)
      ensures alias in old(aliasToDoc) ==> aliasToDoc[alias] == old(aliasToDoc)[alias] + [doc]
      ensures alias !in old(aliasToDoc) ==> aliasToDoc[alias] == [doc]
      ensures forall a :: a != alias ==> (a in aliasToDoc <==> a in old(aliasToDoc))
      ensures forall a :: a != alias && a in aliasToDoc ==> aliasToDoc[a] == old(aliasToDoc)[a]
      ensures lowercase == old(lowercase) && hiragana == old(hiragana)
    {
      var docs := if alias in aliasToDoc then aliasToDoc[alias] else [];
      aliasToDoc := aliasToDoc[alias := docs + [doc]];
    }

    /** `remove_alias_mapping`: `doc` gone from `alias`'s list, the entry gone
        once its list is empty, every other alias untouched. */
    method RemoveAliasMapping(alias: string, doc: string)
      requires Valid()
      modifies this
      ensures Valid()
      ensures aliasToDoc == Unlink(old(aliasToDoc), alias, doc)
      ensures alias in aliasToDoc ==> doc !in aliasToDoc[alias] && aliasToDoc[alias] != []
      ensures alias in aliasToDoc <==> alias in old(aliasToDoc) && Without(old(aliasToDoc)[alias], doc) != []
      ensures forall a :: a != alias ==> (a in aliasToDoc <==> a in old(aliasToDoc))
      ensures forall a :: a != alias && a in aliasToDoc ==> aliasToDoc[a] == old(aliasToDoc)[a]
      ensures lowercase == old(lowercase) && hiragana == old(hiragana)
    {
      if alias in aliasToDoc {
        aliasToDoc := aliasToDoc[alias := Without(aliasToDoc[alias], doc)];
      }
      if alias in aliasToDoc && aliasToDoc[alias] == [] {
        aliasToDoc := aliasToDoc - {alias};
      }
    }

    /** The two `remove` calls on the conversion caches for one string. */
    method Forget(text: string)
      requires Valid()
      modifies this
      ensures Valid()
      ensures lowercase == old(lowercase) - {text} && hiragana == old(hiragana) - {text}
      ensures aliasToDoc == old(aliasToDoc)
    {
      lowercase := lowercase - {text};
      hiragana := hiragana - {text};
    }

    /** One alias of `remove_document`: out of both caches, and unlinked from `doc`. */
    method ForgetAlias(alias: string, doc: string)
      requires Valid()
      modifies this
      ensures Valid()
      ensures lowercase == old(lowercase) - {alias} && hiragana == old(hiragana) - {alias}
      ensures aliasToDoc == Unlink(old(aliasToDoc), alias, doc)
    {
      Forget(alias);
      RemoveAliasMapping(alias, doc);
    }

    /** `remove_document`: the name and every alias leave both conversion
        caches, and the name is unlinked from each alias. */
    method RemoveDocument(name: string, aliases: seq<string>)
      requires Valid()
      modifies this
      ensures Valid()
      ensures lowercase == old(lowercase) - ({name} + Elems(aliases))
      ensures hiragana == old(hiragana) - ({name} + Elems(aliases))
      ensures aliasToDoc == UnlinkAll(old(aliasToDoc), aliases, name)
    {
      Forget(name);
      ghost var lower0, hira0 := lowercase, hiragana;
      var i := 0;
      while i < |aliases|
        invariant 0 <= i <= |aliases|
        invariant Valid()
        invariant lowercase == lower0 - Elems(aliases[..i])
        invariant hiragana == hira0 - Elems(aliases[..i])
        invariant UnlinkAll(aliasToDoc, aliases[i..], name) == UnlinkAll(old(aliasToDoc), aliases, name)
      {
        var alias := aliases[i];
        ElemsPrefixStep(aliases, i);
        assert aliases[i..][1..] == aliases[i + 1..];
        ForgetAlias(alias, name);
        assert (lower0 - Elems(aliases[..i])) - {alias} == lower0 - (Elems(aliases[..i]) + {alias});
        assert (hira0 - Elems(aliases[..i])) - {alias} == hira0 - (Elems(aliases[..i]) + {alias});
        i := i + 1;
      }
      assert aliases[..i] == aliases;
    }
  }
}
