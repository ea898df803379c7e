/** Which of the facets stored for an entry a query can ask for. */
module MemoryFacets {
  import opened Prelude
  import opened Ordering
  import opened Text
  import opened MemoryModel
  import opened MemoryFind
  import opened CivilDate
  import Timestamp

  // ---- Which stored facets a query facet can equal ----

  /** No character that normalising removes. */
  predicate FacetText(u: Unicode, s: string) {
    forall i :: 0 <= i < |s| ==> s[i] == ' ' || s[i] == '=' || u.IsWord(s[i])
  }

  lemma TermIsPlain(u: Unicode, raw: string)
    ensures FacetText(u, NormalizeFacetTerm(u, raw))
  {
    var n := EqualsAt(raw);
    if n < |raw| {
      PhraseIsPlain(u, raw[..n]);
      PhraseIsPlain(u, raw[n + 1..]);
    }
    hide NormalizePhrase;
  }

  lemma {:induction false} QueryFacetsArePlain(u: Unicode, words: seq<string>)
    ensures forall f :: f in QueryFacets(u, words) ==> FacetText(u, f)
  {
    hide NormalizeFacetTerm, FacetText;
    if words != [] {
      QueryFacetsArePlain(u, words[..|words| - 1]);
      TermIsPlain(u, words[|words| - 1]);
    }
  }

  /**
   The stored `slot.`, `tag.` and `day=` facets cannot be asked for: normalising a query word turns
   '.' and '-' into blanks, so no query facet equals one of them.
   */
  lemma QualifiedFacetsUnreachable(u: Unicode, query: string, f: string, key: string, value: string, createdAt: int)
    requires f in Parsed(u, query).facets
    ensures f != "slot." + key + "=" + value && f != "tag." + key + "=" + value && f != DayFacet(createdAt)
  {
    QueryFacetsArePlain(u, Fields(u, TrimSpace(u, query)));
    assert FacetText(u, f);
    hide Parsed, FacetText;
    FacetTextLacks(u, f, '.');
    FacetTextLacks(u, f, '-');
    assert ("slot." + key + "=" + value)[4] == '.' && ("tag." + key + "=" + value)[3] == '.';
    DayHasDash(createdAt);
  }

  lemma FacetTextLacks(u: Unicode, f: string, c: char)
    requires FacetText(u, f) && (c == '.' || c == '-')
    ensures c !in f
  {
    assert c in {' ', '.', '-', '='} && !u.IsWord(c);
  }

  lemma DayHasDash(createdAt: int)
    ensures '-' in DayFacet(createdAt)
  {
    CivilRoundTrip(createdAt / NANOS_PER_DAY);
    hide CivilFromDays;
    DateHasDash(CivilFromDays(createdAt / NANOS_PER_DAY));
  }

  lemma DateHasDash(d: Date)
    requires Valid(d)
    ensures '-' in Timestamp.DateString(d)
  {
    var f := Timestamp.DateFields(d);
    assert f[1] == "-" && f[1..][0] == "-";
    assert Timestamp.Concat(f) == f[0] + ("-" + Timestamp.Concat(f[1..][1..]));
    assert (f[0] + ("-" + Timestamp.Concat(f[1..][1..])))[|f[0]|] == '-';
  }

  /** A query facet is stored for an entry exactly as its entity, as an unqualified slot or as an unqualified tag. */
  lemma QueryFacetMatches(u: Unicode, query: string, f: string, e: Entry)
    requires f in Parsed(u, query).facets
    ensures f in KeysOf(u, Facet, e) <==>
              || (EntityKey(u, e) != "" && f == "entity=" + EntityKey(u, e))
              || (EntityKey(u, e) != ""
                  && exists w :: w in SlotWrites(u, e) && f == w.0 + "=" + NormalizePhrase(u, w.1))
              || (exists k :: k in e.tags && TagIs(u, e.tags, k, f))
  {
    forall key, value ensures f != "slot." + key + "=" + value && f != "tag." + key + "=" + value {
      QualifiedFacetsUnreachable(u, query, f, key, value, e.createdAt);
    }
    QualifiedFacetsUnreachable(u, query, f, "", "", e.createdAt);
    hide Parsed, DayFacet, WriteFacets, TagFacets, SlotWrites, TagIs, NormalizePhrase, KeysOf;
    FacetListMembers(u, e, f);
    WriteFacetMembers(u, SlotWrites(u, e), f);
    TagFacetMembers(u, e.tags, SortedKeys(e.tags), f);
  }

  lemma FacetListMembers(u: Unicode, e: Entry, f: string)
    ensures f in KeysOf(u, Facet, e) <==>
              || (EntityKey(u, e) != "" && (f == "entity=" + EntityKey(u, e) || f in WriteFacets(u, SlotWrites(u, e))))
              || f in TagFacets(u, e.tags, SortedKeys(e.tags)) || f == DayFacet(e.createdAt)
  {
    hide DayFacet, WriteFacets, TagFacets, SlotWrites, SortedKeys, EntityKey;
  }

  predicate TagIs(u: Unicode, tags: map<string, string>, k: string, f: string)
    requires k in tags
  {
    var key, value := NormalizePhrase(u, k), NormalizePhrase(u, tags[k]);
    key != "" && value != "" && f == key + "=" + value
  }

  lemma {:induction false} WriteFacetMembers(u: Unicode, writes: seq<(string, string)>, f: string)
    requires forall key, value :: f != "slot." + key + "=" + value
    ensures f in WriteFacets(u, writes) <==> exists w :: w in writes && f == w.0 + "=" + NormalizePhrase(u, w.1)
  {
    if writes != [] {
      var front, last := writes[..|writes| - 1], writes[|writes| - 1];
      assert writes == front + [last];
      hide NormalizePhrase;
      WriteFacetMembers(u, front, f);
      assert f in WriteFacets(u, writes)
          <==> f in WriteFacets(u, front) || f == last.0 + "=" + NormalizePhrase(u, last.1);
    }
  }

  lemma {:induction false} TagFacetMembers(u: Unicode, tags: map<string, string>, keys: seq<string>, f: string)
    requires forall k :: k in keys ==> k in tags
    requires forall key, value :: f != "tag." + key + "=" + value
    ensures f in TagFacets(u, tags, keys) <==> exists k :: k in keys && TagIs(u, tags, k, f)
  {
    if keys != [] {
      var front, last := keys[..|keys| - 1], keys[|keys| - 1];
      assert keys == front + [last];
      hide NormalizePhrase;
      TagFacetMembers(u, tags, front, f);
      assert f in TagFacets(u, tags, keys) <==> f in TagFacets(u, tags, front) || TagIs(u, tags, last, f);
    }
  }

  // ---- Which facets can be asked for ----

  ghost predicate CanBeAsked(u: Unicode, f: string) {
    exists query :: f in Parsed(u, query).facets
  }

  ghost predicate PairsUp(u: Unicode, f: string, x: string, y: string) {
    NormalizePhrase(u, x) != "" && NormalizePhrase(u, y) != ""
    && f == NormalizePhrase(u, x) + "=" + NormalizePhrase(u, y)
  }

  lemma {:induction false} EqualsAtFirst(a: string, b: string)
    requires '=' !in a
    ensures EqualsAt(a + "=" + b) == |a|
  {
    var s := a + "=" + b;
    if a != "" {
      assert s[0] == a[0];
      assert s[1..] == a[1..] + "=" + b;
      EqualsAtFirst(a[1..], b);
    }
  }

  lemma {:induction false} UnbrokenField(u: Unicode, s: string)
    requires forall i :: 0 <= i < |s| ==> !u.isSpace(s[i])
    ensures FieldLength(u, s) == |s|
  {
    if s != "" { UnbrokenField(u, s[1..]); }
  }

  /** A query of one word without blanks has that word for its only field. */
  lemma OneField(u: Unicode, s: string)
    requires s != "" && forall i :: 0 <= i < |s| ==> !u.isSpace(s[i])
    ensures Fields(u, TrimSpace(u, s)) == [s]
  {
    TrimFixpoint(u, s);
    UnbrokenField(u, s);
    assert s[..|s|] == s && s[|s|..] == "";
  }

  lemma PhraseHasNoEquals(u: Unicode, s: string)
    ensures '=' !in NormalizePhrase(u, s)
  {
    PhraseIsPlain(u, s);
    assert !u.IsWord('=');
  }

  lemma SamePair(a: string, b: string, c: string, d: string)
    requires a + "=" + b == c + "=" + d && '=' !in a && '=' !in c
    ensures a == c && b == d
  {
    var s := a + "=" + b;
    EqualsAtFirst(a, b);
    EqualsAtFirst(c, d);
    assert a == s[..|a|] && c == s[..|c|] && b == s[|a| + 1..] && d == s[|c| + 1..];
  }

  /** A word `left=right` without blanks asks for the facet of its two normalised sides, if neither is empty. */
  lemma FacetOfWord(u: Unicode, left: string, right: string)
    requires '=' !in left && NormalizePhrase(u, left) != "" && NormalizePhrase(u, right) != ""
    requires forall i :: 0 <= i < |left| ==> !u.isSpace(left[i])
    requires forall i :: 0 <= i < |right| ==> !u.isSpace(right[i])
    ensures Parsed(u, left + "=" + right).facets == [NormalizePhrase(u, left) + "=" + NormalizePhrase(u, right)]
  {
    var s := left + "=" + right;
    hide NormalizePhrase, TokenSet;
    EqualsAtFirst(left, right);
    OneField(u, s);
    assert s[..|left|] == left && s[|left| + 1..] == right;
    var facet := NormalizePhrase(u, left) + "=" + NormalizePhrase(u, right);
    assert NormalizeFacetTerm(u, s) == facet != "";
    var none: seq<string> := [s][..0];
    assert none == [] && QueryFacets(u, [s]) == QueryFacets(u, none) + [facet];
  }

  // ---- What a query asks for ----

  /** The word has an '=' in it, and the texts around the first one normalise to the two sides of the facet. */
  ghost predicate Asks(u: Unicode, w: string, f: string) {
    exists left, right :: w == left + "=" + right && '=' !in left && PairsUp(u, f, left, right)
  }

  lemma {:induction false} EqualsIsFirst(s: string)
    ensures '=' !in s[..EqualsAt(s)]
  {
    if s != "" && s[0] != '=' {
      EqualsIsFirst(s[1..]);
      assert s[..EqualsAt(s)] == [s[0]] + s[1..][..EqualsAt(s[1..])];
    }
  }

  lemma TermReads(u: Unicode, w: string, f: string)
    requires f != ""
    ensures NormalizeFacetTerm(u, w) == f <==> Asks(u, w, f)
  {
    hide NormalizePhrase;
    var n := EqualsAt(w);
    EqualsIsFirst(w);
    if NormalizeFacetTerm(u, w) == f {
      assert w == w[..n] + "=" + w[n + 1..] && PairsUp(u, f, w[..n], w[n + 1..]);
    }
    if left, right :| w == left + "=" + right && '=' !in left && PairsUp(u, f, left, right) {
      EqualsAtFirst(left, right);
      assert w[..n] == left && w[n + 1..] == right;
    }
  }

  lemma TermReadsNone(u: Unicode, w: string)
    ensures NormalizeFacetTerm(u, w) == "" <==> forall f :: !Asks(u, w, f)
  {
    if NormalizeFacetTerm(u, w) != "" { TermReads(u, w, NormalizeFacetTerm(u, w)); }
    if f :| Asks(u, w, f) {
      assert f != "";
      TermReads(u, w, f);
    }
  }

  lemma {:induction false} WordsRead(u: Unicode, words: seq<string>, f: string, t: string)
    ensures f in QueryFacets(u, words) <==> f != "" && exists w :: w in words && NormalizeFacetTerm(u, w) == f
    ensures t in QueryTokens(u, words)
            <==> exists w :: w in words && NormalizeFacetTerm(u, w) == "" && t in Tokens(u, w)
  {
    hide NormalizeFacetTerm, Tokens;
    if words != [] {
      var front, last := words[..|words| - 1], words[|words| - 1];
      assert words == front + [last];
      WordsRead(u, front, f, t);
    }
  }

  /**
   A query is read word by word: its facets are those its words ask for, its tokens are those of the words
   that ask for none, in order and once each, and the whole of it may be an entity.
   */
  lemma QueryReads(u: Unicode, query: string)
    ensures Parsed(u, query).exactEntity == NormalizePhrase(u, query)
    ensures forall f :: f in Parsed(u, query).facets
                        <==> exists w :: w in Fields(u, TrimSpace(u, query)) && Asks(u, w, f)
    ensures forall t :: t in Parsed(u, query).tokens
                        <==> exists w :: w in Fields(u, TrimSpace(u, query)) && (forall f :: !Asks(u, w, f))
                                         && t in Tokens(u, w)
    ensures var tokens := Parsed(u, query).tokens;
            forall i, j :: 0 <= i < j < |tokens| ==> LexLe(tokens[i], tokens[j]) && tokens[i] != tokens[j]
  {
    var words := Fields(u, TrimSpace(u, query));
    LexTotalOrder(QueryTokens(u, words));
    assert IsRanking(Parsed(u, query).tokens, QueryTokens(u, words), LexLe);
    hide QueryFacets, QueryTokens, Fields, NormalizeFacetTerm, Asks, Tokens, NormalizePhrase, LexLe, TrimSpace;
    forall f ensures f in Parsed(u, query).facets <==> exists w :: w in words && Asks(u, w, f) {
      WordsRead(u, words, f, f);
      forall w | f != "" ensures NormalizeFacetTerm(u, w) == f <==> Asks(u, w, f) { TermReads(u, w, f); }
      if f == "" { NothingAsked(u); }
    }
    forall t ensures t in Parsed(u, query).tokens
                     <==> exists w :: w in words && (forall f :: !Asks(u, w, f)) && t in Tokens(u, w)
    {
      WordsRead(u, words, t, t);
      forall w ensures NormalizeFacetTerm(u, w) == "" <==> forall f :: !Asks(u, w, f) { TermReadsNone(u, w); }
    }
  }

  lemma NothingAsked(u: Unicode)
    ensures forall w :: !Asks(u, w, "")
  {
  }

  /** The tokens of a phrase joined by '-': one word that normalises to the phrase. */
  lemma Hyphenated(u: Unicode, x: string)
    ensures var s := Join(Tokens(u, x), "-");
            && NormalizePhrase(u, s) == NormalizePhrase(u, x) && '=' !in s
            && forall i :: 0 <= i < |s| ==> !u.isSpace(s[i])
  {
    TokensAreTokens(u, x);
    PhraseOfJoin(u, Tokens(u, x), '-');
    assert u.lower('-') == '-' && !u.IsWord('=');
    JoinIsClean(u, Tokens(u, x), '-');
  }

  lemma {:induction false} QueryFacetsPairUp(u: Unicode, words: seq<string>, f: string)
    requires f in QueryFacets(u, words)
    ensures exists x, y :: PairsUp(u, f, x, y)
  {
    var front, last := words[..|words| - 1], words[|words| - 1];
    if f in QueryFacets(u, front) {
      QueryFacetsPairUp(u, front, f);
    } else {
      var n := EqualsAt(last);
      assert f == NormalizeFacetTerm(u, last);
      hide NormalizePhrase;
      assert PairsUp(u, f, last[..n], last[n + 1..]);
    }
  }

  /** A facet can be asked for exactly when it pairs two non-empty normalised phrases. */
  lemma AskableFacets(u: Unicode, f: string)
    ensures CanBeAsked(u, f) <==> exists x, y :: PairsUp(u, f, x, y)
  {
    hide NormalizePhrase;
    if CanBeAsked(u, f) {
      var query :| f in Parsed(u, query).facets;
      QueryFacetsPairUp(u, Fields(u, TrimSpace(u, query)), f);
    }
    if exists x, y :: PairsUp(u, f, x, y) {
      var x, y :| PairsUp(u, f, x, y);
      Hyphenated(u, x);
      Hyphenated(u, y);
      var left, right := Join(Tokens(u, x), "-"), Join(Tokens(u, y), "-");
      FacetOfWord(u, left, right);
      assert f in Parsed(u, left + "=" + right).facets;
    }
  }

  lemma PairCanBeAsked(u: Unicode, f: string, x: string, y: string)
    requires PairsUp(u, f, x, y)
    ensures CanBeAsked(u, f)
  {
    hide NormalizePhrase, CanBeAsked;
    AskableFacets(u, f);
  }

  lemma AskedPair(u: Unicode, f: string, key: string, value: string) returns (y: string)
    requires CanBeAsked(u, f) && f == key + "=" + value && '=' !in key
    ensures value == NormalizePhrase(u, y) != "" && NormalizePhrase(u, key) == key
  {
    hide NormalizePhrase, CanBeAsked;
    AskableFacets(u, f);
    var x, v :| PairsUp(u, f, x, v);
    y := v;
    PhraseHasNoEquals(u, x);
    SamePair(key, value, NormalizePhrase(u, x), NormalizePhrase(u, v));
    NormalizePhraseIdempotent(u, x);
  }

  lemma {:induction false} WritesAreNormal(u: Unicode, slots: map<string, string>, keys: seq<string>)
    requires forall k :: k in keys ==> k in slots
    ensures forall w :: w in Writes(u, slots, keys) ==>
              w.0 != "" && '=' !in w.0 && NormalizePhrase(u, w.0) == w.0
  {
    hide NormalizePhrase, TrimSpace;
    if keys != [] {
      var k := keys[|keys| - 1];
      WritesAreNormal(u, slots, keys[..|keys| - 1]);
      NormalizePhraseIdempotent(u, k);
      PhraseHasNoEquals(u, k);
    }
  }

  /** The entity as a stored facet; it can be asked for unless the tables take the word "entity" apart. */
  ghost predicate EntityFacet(u: Unicode, e: Entry, f: string) {
    EntityKey(u, e) != "" && f == "entity=" + EntityKey(u, e) && NormalizePhrase(u, "entity") == "entity"
  }

  /** A written slot as a stored facet, with a value that has tokens. */
  ghost predicate SlotFacet(u: Unicode, e: Entry, f: string) {
    && EntityKey(u, e) != ""
    && exists w :: w in SlotWrites(u, e) && f == w.0 + "=" + NormalizePhrase(u, w.1) && NormalizePhrase(u, w.1) != ""
  }

  ghost predicate TagFacet(u: Unicode, e: Entry, f: string) {
    exists k :: k in e.tags && TagIs(u, e.tags, k, f)
  }

  /**
   The stored facets that some query asks for, exactly: the entity, unqualified slots whose value
   has tokens, and unqualified tags.
   */
  lemma ReachableFacets(u: Unicode, f: string, e: Entry)
    ensures f in KeysOf(u, Facet, e) && CanBeAsked(u, f) <==>
              EntityFacet(u, e, f) || SlotFacet(u, e, f) || TagFacet(u, e, f)
  {
    if EntityFacet(u, e, f) || SlotFacet(u, e, f) || TagFacet(u, e, f) { ReachableIsAsked(u, f, e); }
    if CanBeAsked(u, f) { AskedIsReachable(u, f, e); }
  }

  lemma ReachableIsAsked(u: Unicode, f: string, e: Entry)
    requires EntityFacet(u, e, f) || SlotFacet(u, e, f) || TagFacet(u, e, f)
    ensures CanBeAsked(u, f)
  {
    hide NormalizePhrase, CanBeAsked;
    if EntityFacet(u, e, f) {
      PairCanBeAsked(u, f, "entity", e.entity);
    } else if SlotFacet(u, e, f) {
      var w :| w in SlotWrites(u, e) && f == w.0 + "=" + NormalizePhrase(u, w.1) && NormalizePhrase(u, w.1) != "";
      WritesAreNormal(u, e.slots, SortedKeys(e.slots));
      PairCanBeAsked(u, f, w.0, w.1);
    } else {
      var k :| k in e.tags && TagIs(u, e.tags, k, f);
      PairCanBeAsked(u, f, k, e.tags[k]);
    }
  }

  lemma AskedEntity(u: Unicode, f: string, e: Entry)
    requires CanBeAsked(u, f) && EntityKey(u, e) != "" && f == "entity=" + EntityKey(u, e)
    ensures EntityFacet(u, e, f)
  {
    hide NormalizePhrase, CanBeAsked, EntityKey;
    assert "entity=" + EntityKey(u, e) == "entity" + "=" + EntityKey(u, e);
    var _ := AskedPair(u, f, "entity", EntityKey(u, e));
  }

  lemma AskedSlot(u: Unicode, f: string, e: Entry, w: (string, string))
    requires CanBeAsked(u, f) && EntityKey(u, e) != ""
    requires w in SlotWrites(u, e) && f == w.0 + "=" + NormalizePhrase(u, w.1)
    ensures SlotFacet(u, e, f)
  {
    hide NormalizePhrase, CanBeAsked, EntityKey;
    WritesAreNormal(u, e.slots, SortedKeys(e.slots));
    var _ := AskedPair(u, f, w.0, NormalizePhrase(u, w.1));
  }

  lemma AskedIsReachable(u: Unicode, f: string, e: Entry)
    requires CanBeAsked(u, f)
    ensures f in KeysOf(u, Facet, e) <==> EntityFacet(u, e, f) || SlotFacet(u, e, f) || TagFacet(u, e, f)
  {
    var query :| f in Parsed(u, query).facets;
    hide NormalizePhrase, CanBeAsked, Parsed, KeysOf, TagIs, EntityKey, SlotWrites;
    QueryFacetMatches(u, query, f, e);
    if f in KeysOf(u, Facet, e) && !TagFacet(u, e, f) {
      if f == "entity=" + EntityKey(u, e) {
        AskedEntity(u, f, e);
      } else {
        var w :| w in SlotWrites(u, e) && f == w.0 + "=" + NormalizePhrase(u, w.1);
        AskedSlot(u, f, e, w);
      }
    }
  }

  // ---- A documented query that finds nothing ----

  predicate Unbroken(u: Unicode, s: string) {
    '=' !in s && forall i :: 0 <= i < |s| ==> !u.isSpace(s[i])
  }

  lemma TextOfTokens(u: Unicode, first: string, second: string)
    requires IsToken(u, first) && IsToken(u, second)
    ensures NormalizePhrase(u, first) == first && NormalizePhrase(u, first + "." + second) == first + " " + second
    ensures Unbroken(u, first) && Unbroken(u, first + "." + second)
  {
    PhraseOfJoin(u, [first], ' ');
    var parts := [first, second];
    assert parts[1..] == [second];
    PhraseOfJoin(u, parts, '.');
    assert u.lower('.') == '.' && !u.IsWord('=');
    JoinIsClean(u, parts, '.');
    assert MadeOf(u, first, '.');
  }

  lemma OneSlot(u: Unicode, e: Entry, key: string, value: string)
    requires e.slots == map[key := value] && NormalizePhrase(u, key) == key && TrimSpace(u, value) == value
    requires key != "" && value != ""
    ensures SlotWrites(u, e) == [(key, value)]
  {
    hide NormalizePhrase, TrimSpace;
    var keys := SortedKeys(e.slots);
    LexTotalOrder({key});
    assert e.slots.Keys == {key} && IsRanking([key], {key}, LexLe);
    RankingUnique(keys, [key], {key}, LexLe);
    assert keys[..0] == [];
    assert Writes(u, e.slots, keys) == Writes(u, e.slots, keys[..0]) + [(key, value)];
  }

  lemma OneSlotStored(u: Unicode, e: Entry, key: string, value: string)
    requires EntityKey(u, e) != "" && SlotWrites(u, e) == [(key, value)]
    ensures "slot." + key + "=" + NormalizePhrase(u, value) in KeysOf(u, Facet, e)
    ensures key + "=" + NormalizePhrase(u, value) in KeysOf(u, Facet, e)
  {
    assert WriteFacets(u, [(key, value)][..0]) == [];
    var q, p := "slot." + key + "=" + NormalizePhrase(u, value), key + "=" + NormalizePhrase(u, value);
    assert WriteFacets(u, [(key, value)]) == [] + [q, p];
    hide WriteFacets, NormalizePhrase, SlotWrites, KeysOf, EntityKey;
    assert [] + [q, p] == [q, p] && q in [q, p] && p in [q, p];
    FacetListMembers(u, e, q);
    FacetListMembers(u, e, p);
  }

  lemma NothingScanned(u: Unicode, e: Entry, q: ParsedQuery, f: string, decay: Decay)
    requires q.facets == [f] && f !in KeysOf(u, Facet, e)
    ensures ScanHits(u, [e], q, decay) == {}
  {
    hide KeysOf, HitAt, WordHit;
    assert q.facets[0] == f;
    forall id: nat | 1 <= id <= 1 ensures !Selected(u, [e], q, id) {
      assert !HasFacets(u, q.facets, e);
      assert [e][id - 1] == e;
    }
  }

  lemma SlotQuery(u: Unicode, first: string, key: string, value: string)
    requires IsToken(u, first) && IsToken(u, key) && IsToken(u, value)
    ensures Parsed(u, first + "." + key + "=" + value).facets == [first + " " + key + "=" + value]
    ensures Parsed(u, key + "=" + value).facets == [key + "=" + value]
  {
    TextOfTokens(u, first, key);
    TextOfTokens(u, key, value);
    TextOfTokens(u, value, key);
    hide NormalizePhrase, Parsed, IsToken;
    FacetOfWord(u, first + "." + key, value);
    FacetOfWord(u, key, value);
  }

  lemma TokenTrimmed(u: Unicode, t: string)
    requires IsToken(u, t)
    ensures TrimSpace(u, t) == t
  {
    TrimFixpoint(u, t);
  }

  lemma SlotNotStored(u: Unicode, e: Entry, first: string, key: string, value: string, query: string)
    requires var f := first + " " + key + "=" + value;
             f in Parsed(u, query).facets && ' ' !in "entity=" + EntityKey(u, e)
    requires SlotWrites(u, e) == [(key, value)] && e.tags == map[] && NormalizePhrase(u, value) == value
    ensures first + " " + key + "=" + value !in KeysOf(u, Facet, e)
  {
    hide Parsed, KeysOf, NormalizePhrase, SlotWrites, TagIs, EntityKey;
    var f := first + " " + key + "=" + value;
    QueryFacetMatches(u, query, f, e);
    assert f[|first|] == ' ' && |f| > |key + "=" + value|;
  }

  /**
   The documented query `slot.<key>=<value>` against an entry that has just this slot, all of them
   single tokens: the entry stores the facet, the query asks for another one, and the scan of a log
   with this entry selects nothing. Without the prefix the query asks for a facet the entry has.
   */
  lemma SlotQueryMisses(u: Unicode, e: Entry, first: string, key: string, value: string, decay: Decay)
    requires first == "slot" && IsToken(u, first) && IsToken(u, key) && IsToken(u, value) && IsToken(u, e.entity)
    requires e.slots == map[key := value] && e.tags == map[]
    ensures "slot." + key + "=" + value in KeysOf(u, Facet, e) && key + "=" + value in KeysOf(u, Facet, e)
    ensures first + " " + key + "=" + value !in KeysOf(u, Facet, e)
    ensures ScanHits(u, [e], Parsed(u, first + "." + key + "=" + value), decay) == {}
  {
    SlotQuery(u, first, key, value);
    TokenTrimmed(u, value);
    TextOfTokens(u, key, value);
    TextOfTokens(u, value, key);
    TextOfTokens(u, e.entity, key);
    assert key != "" && value != "" && e.entity != "";
    assert EntityKey(u, e) == e.entity;
    EntityUnbroken(u, e.entity);
    hide NormalizePhrase, TrimSpace, IsToken, Parsed, ScanHits, KeysOf, SlotWrites, EntityKey, Unbroken;
    OneSlot(u, e, key, value);
    OneSlotStored(u, e, key, value);
    var query := first + "." + key + "=" + value;
    SlotNotStored(u, e, first, key, value, query);
    NothingScanned(u, e, Parsed(u, query), first + " " + key + "=" + value, decay);
  }

  lemma EntityUnbroken(u: Unicode, t: string)
    requires IsToken(u, t)
    ensures ' ' !in "entity=" + t
  {
    assert !u.IsWord(' ');
  }

  lemma AsciiTokens(u: Unicode)
    requires u == ASCII
    ensures IsToken(u, "slot") && IsToken(u, "owner") && IsToken(u, "alice") && IsToken(u, "project")
  {
  }

  lemma DocumentedTexts(first: string, key: string, value: string)
    requires first == "slot" && key == "owner" && value == "alice"
    ensures first + "." + key + "=" + value == "slot.owner=alice" == "slot." + key + "=" + value
    ensures first + " " + key + "=" + value == "slot owner=alice"
    ensures key + "=" + value == "owner=alice"
  {
  }

  /** The same at a real query, with the tables of plain ASCII. */
  lemma DocumentedQueryMisses(u: Unicode, e: Entry, decay: Decay)
    requires u == ASCII && e.entity == "project" && e.slots == map["owner" := "alice"] && e.tags == map[]
    ensures "slot.owner=alice" in KeysOf(u, Facet, e) && "owner=alice" in KeysOf(u, Facet, e)
    ensures Parsed(u, "slot.owner=alice").facets == ["slot owner=alice"]
    ensures "slot owner=alice" !in KeysOf(u, Facet, e)
    ensures ScanHits(u, [e], Parsed(u, "slot.owner=alice"), decay) == {}
    ensures Parsed(u, "owner=alice").facets == ["owner=alice"]
  {
    AsciiTokens(u);
    hide NormalizePhrase, TrimSpace, IsToken, Parsed, ScanHits, KeysOf;
    var first, key, value := "slot", "owner", "alice";
    SlotQuery(u, first, key, value);
    SlotQueryMisses(u, e, first, key, value, decay);
    DocumentedTexts(first, key, value);
  }
}
