/** Searching the compiled memory: the postings must answer exactly as a scan of the log would. */
module MemoryFind {
  import opened Prelude
  import opened Ordering
  import opened Text
  import opened MemoryModel
  import opened MemoryStore

  // ---- Queries ----

  datatype ParsedQuery = ParsedQuery(tokens: seq<string>, facets: seq<string>, exactEntity: string)

  function FieldLength(u: Unicode, s: string): (n: nat)
    ensures n <= |s| && (s != "" && !u.isSpace(s[0]) ==> n > 0)
  {
    if s == "" || u.isSpace(s[0]) then 0 else 1 + FieldLength(u, s[1..])
  }

  /** The maximal runs of non-blank characters. */
  function Fields(u: Unicode, s: string): seq<string>
    decreases |s|
  {
    if s == "" then []
    else if u.isSpace(s[0]) then Fields(u, s[1..])
    else [s[..FieldLength(u, s)]] + Fields(u, s[FieldLength(u, s)..])
  }

  /** Position of the first '=', or the length of the text. */
  function EqualsAt(s: string): (n: nat)
    ensures n <= |s| && (n < |s| ==> s[n] == '=')
  {
    if s == "" || s[0] == '=' then 0 else 1 + EqualsAt(s[1..])
  }

  /** The facet a query word asks for, or "" when it asks for none. Every key prefix is treated alike. */
  function NormalizeFacetTerm(u: Unicode, raw: string): string {
    var n := EqualsAt(raw);
    if n == |raw| then "" else
      var key, value := NormalizePhrase(u, raw[..n]), NormalizePhrase(u, raw[n + 1..]);
      if key == "" || value == "" then "" else key + "=" + value
  }

  function QueryFacets(u: Unicode, words: seq<string>): seq<string> {
    if words == [] then [] else
      var facet := NormalizeFacetTerm(u, words[|words| - 1]);
      QueryFacets(u, words[..|words| - 1]) + (if facet == "" then [] else [facet])
  }

  function QueryTokens(u: Unicode, words: seq<string>): set<string> {
    if words == [] then {} else
      var last := words[|words| - 1];
      QueryTokens(u, words[..|words| - 1]) + (if NormalizeFacetTerm(u, last) == "" then TokenSet(u, last) else {})
  }

  ghost function Parsed(u: Unicode, query: string): ParsedQuery {
    var words := Fields(u, TrimSpace(u, query));
    LexTotalOrder(QueryTokens(u, words));
    ParsedQuery(Ranking(QueryTokens(u, words), LexLe), QueryFacets(u, words), NormalizePhrase(u, query))
  }

  lemma QueryNext(u: Unicode, words: seq<string>, i: nat)
    requires i < |words|
    ensures var facet := NormalizeFacetTerm(u, words[i]);
            && QueryFacets(u, words[..i + 1]) == QueryFacets(u, words[..i]) + (if facet == "" then [] else [facet])
            && QueryTokens(u, words[..i + 1])
               == QueryTokens(u, words[..i]) + (if facet == "" then TokenSet(u, words[i]) else {})
  {
    hide NormalizeFacetTerm, TokenSet;
    assert words[..i + 1][..i] == words[..i];
  }

  method ParseQuery(u: Unicode, query: string) returns (q: ParsedQuery)
    ensures q == Parsed(u, query)
  {
    var words := Fields(u, TrimSpace(u, query));
    var facets: seq<string> := [];
    var tokenSet: set<string> := {};
    for i := 0 to |words|
      invariant facets == QueryFacets(u, words[..i]) && tokenSet == QueryTokens(u, words[..i])
    {
      hide QueryFacets, QueryTokens, NormalizeFacetTerm;
      QueryNext(u, words, i);
      var facet := NormalizeFacetTerm(u, words[i]);
      if facet != "" {
        facets := facets + [facet];
        continue;
      }
      var tokens := Tokenize(u, words[i]);
      tokenSet := tokenSet + Elements(tokens);
    }
    assert words[..|words|] == words;
    var tokens := SortedStrings(tokenSet);
    LexTotalOrder(tokenSet);
    RankingUnique(tokens, Ranking(tokenSet, LexLe), tokenSet, LexLe);
    q := ParsedQuery(tokens, facets, NormalizePhrase(u, query));
  }

  lemma ParsedTokensDistinct(u: Unicode, query: string)
    ensures var q := Parsed(u, query); forall i, j :: 0 <= i < j < |q.tokens| ==> q.tokens[i] != q.tokens[j]
  {
    LexTotalOrder(QueryTokens(u, Fields(u, TrimSpace(u, query))));
    hide LexLe, TokenSet;
  }

  lemma {:induction false} FieldEnds(u: Unicode, w: string, s: string)
    requires forall k :: 0 <= k < |w| ==> !u.isSpace(w[k])
    requires s == "" || u.isSpace(s[0])
    ensures FieldLength(u, w + s) == |w|
  {
    if w == "" {
      assert w + s == s;
    } else {
      assert (w + s)[1..] == w[1..] + s;
      FieldEnds(u, w[1..], s);
    }
  }

  lemma {:induction false} FieldIsUnbroken(u: Unicode, s: string)
    ensures var n := FieldLength(u, s);
            (forall k :: 0 <= k < n ==> !u.isSpace(s[k])) && (n < |s| ==> u.isSpace(s[n]))
  {
    if s != "" && !u.isSpace(s[0]) {
      FieldIsUnbroken(u, s[1..]);
      assert forall k :: 0 <= k < |s| - 1 ==> s[1..][k] == s[k + 1];
    }
  }

  lemma FieldFirst(u: Unicode, w: string, s: string)
    requires w != "" && forall k :: 0 <= k < |w| ==> !u.isSpace(w[k])
    requires s == "" || u.isSpace(s[0])
    ensures Fields(u, w + s) == [w] + Fields(u, s)
  {
    FieldEnds(u, w, s);
    assert (w + s)[..|w|] == w && (w + s)[|w|..] == s;
  }

  /** A text without blanks is a single word. */
  lemma FieldsOfWord(u: Unicode, w: string)
    requires w != "" && forall k :: 0 <= k < |w| ==> !u.isSpace(w[k])
    ensures Fields(u, w) == [w] && Fields(u, "") == []
  {
    FieldFirst(u, w, "");
    assert w + "" == w;
  }

  lemma Regroup(w: string, x: string, y: string, z: string)
    ensures w + x + y + z == w + (x + y + z)
  {
  }

  lemma FieldsBlank(u: Unicode, c: char, s: string)
    requires u.isSpace(c)
    ensures Fields(u, [c] + s) == Fields(u, s)
  {
    assert ([c] + s)[1..] == s;
  }

  /** Blanks separate the words of a query and leave no trace. */
  lemma {:induction false} FieldsSplit(u: Unicode, a: string, c: char, b: string)
    requires u.isSpace(c)
    ensures Fields(u, a + [c] + b) == Fields(u, a) + Fields(u, b)
    decreases |a|
  {
    assert Fields(u, "") == [];
    FieldIsUnbroken(u, a);
    hide Fields;
    if a == "" {
      FieldsBlank(u, c, b);
      assert "" + [c] + b == [c] + b;
    } else if u.isSpace(a[0]) {
      var rest := a[1..];
      FieldsSplit(u, rest, c, b);
      FieldsBlank(u, a[0], rest);
      FieldsBlank(u, a[0], rest + [c] + b);
      assert a == [a[0]] + rest;
      Regroup([a[0]], rest, [c], b);
    } else {
      var w, rest := a[..FieldLength(u, a)], a[FieldLength(u, a)..];
      assert w != "" && (rest == "" || u.isSpace(rest[0]));
      hide FieldLength;
      FieldsSplit(u, rest, c, b);
      assert a == w + rest;
      Regroup(w, rest, [c], b);
      FieldFirst(u, w, rest);
      FieldFirst(u, w, rest + [c] + b);
      Associate([w], Fields(u, rest), Fields(u, b));
    }
  }

  // ---- Scores, in exact arithmetic ----

  datatype SearchHit = SearchHit(
    id: nat, createdAt: int, score: real, tokenScore: real, jaccard: real, temporalDecay: real, trust: real,
    entity: string, source: string, text: string, slots: map<string, string>, tags: map<string, string>)

  datatype SearchResult = SearchResult(query: string, hits: seq<SearchHit>, count: nat)

  /** Temporal decay of an entry by its creation time: any factor in (0, 1]. */
  type Decay = d: int -> real | forall t :: 0.0 < d(t) <= 1.0 witness (_ => 1.0)

  /** The fraction of the query tokens found among the terms; 1 for a query without tokens. */
  function TokenScore(tokens: seq<string>, terms: seq<string>): real {
    if tokens == [] then 1.0 else |Elements(tokens) * Elements(terms)| as real / |tokens| as real
  }

  /** Intersection over union; 0 when both are empty. */
  function Jaccard(a: set<string>, b: set<string>): real {
    if a + b == {} then 0.0 else |a * b| as real / |a + b| as real
  }

  function BaseScore(u: Unicode, q: ParsedQuery, e: Entry): real {
    var base := TokenScore(q.tokens, e.terms) * 0.5 + Jaccard(Elements(q.tokens), Elements(e.terms)) * 0.5;
    if q.exactEntity != "" && EntityKey(u, e) == q.exactEntity
      then (if base * 1.5 > 1.0 then 1.0 else base * 1.5) else base
  }

  function HitOf(u: Unicode, q: ParsedQuery, e: Entry, decay: Decay): SearchHit {
    var trust := EffectiveTrust(e.trust);
    SearchHit(e.id, e.createdAt, BaseScore(u, q, e) * decay(e.createdAt) * trust, TokenScore(q.tokens, e.terms),
              Jaccard(Elements(q.tokens), Elements(e.terms)), decay(e.createdAt), trust, e.entity, e.source, e.text,
              e.slots, e.tags)
  }

  /** Higher score first, then newer, then larger id. */
  predicate Better(a: SearchHit, b: SearchHit) {
    a.score > b.score
    || (a.score == b.score && (a.createdAt > b.createdAt || (a.createdAt == b.createdAt && a.id >= b.id)))
  }

  // ---- What a scan of the log selects ----

  ghost predicate HasFacets(u: Unicode, facets: seq<string>, e: Entry) {
    forall i :: 0 <= i < |facets| ==> facets[i] in KeysOf(u, Facet, e)
  }

  ghost predicate SharesToken(q: ParsedQuery, e: Entry) {
    exists t :: t in q.tokens && t in e.terms
  }

  ghost predicate MatchesWords(u: Unicode, q: ParsedQuery, e: Entry) {
    SharesToken(q, e) || (q.exactEntity != "" && EntityKey(u, e) == q.exactEntity)
  }

  ghost predicate Content(log: seq<Entry>, id: nat) {
    1 <= id <= |log| && !IsSignal(log[id - 1])
  }

  ghost predicate WordHit(u: Unicode, log: seq<Entry>, q: ParsedQuery, id: nat) {
    Content(log, id) && MatchesWords(u, q, log[id - 1])
  }

  ghost predicate FacetHit(u: Unicode, log: seq<Entry>, facets: seq<string>, id: nat) {
    Content(log, id) && HasFacets(u, facets, log[id - 1])
  }

  /**
   Content entries with every facet that share a token or are about the exact entity. Only when no
   entry of the whole log does the latter do facets alone select.
   */
  ghost predicate Selected(u: Unicode, log: seq<Entry>, q: ParsedQuery, id: nat) {
    && FacetHit(u, log, q.facets, id)
    && (WordHit(u, log, q, id) || (q.facets != [] && forall other :: !WordHit(u, log, q, other)))
  }

  ghost function HitAt(u: Unicode, log: seq<Entry>, q: ParsedQuery, decay: Decay, id: nat): SearchHit
    requires 1 <= id <= |log|
  {
    HitOf(u, q, Rated(log, id), decay)
  }

  ghost function ScanHits(u: Unicode, log: seq<Entry>, q: ParsedQuery, decay: Decay): set<SearchHit> {
    set id: nat | 1 <= id <= |log| && Selected(u, log, q, id) :: HitAt(u, log, q, decay, id)
  }

  lemma HitsAreOrdered(u: Unicode, log: seq<Entry>, q: ParsedQuery, decay: Decay)
    requires Sound(log)
    ensures TotalOrderOn(ScanHits(u, log, q, decay), Better)
  {
    hide BaseScore, TokenScore, Jaccard, EffectiveTrust, Selected;
    var hits := ScanHits(u, log, q, decay);
    forall x, y | x in hits && y in hits && Better(x, y) && Better(y, x) ensures x == y {
      var i: nat :| 1 <= i <= |log| && Selected(u, log, q, i) && x == HitAt(u, log, q, decay, i);
      var j: nat :| 1 <= j <= |log| && Selected(u, log, q, j) && y == HitAt(u, log, q, decay, j);
      assert SoundAt(log, i - 1) && SoundAt(log, j - 1);
    }
  }

  /** The best `top` entries of the log for a query, by scanning every entry; a non-positive `top` means five. */
  ghost function BestOfScan(u: Unicode, log: seq<Entry>, query: string, top: int, decay: Decay): seq<SearchHit>
    requires Sound(log)
  {
    HitsAreOrdered(u, log, Parsed(u, query), decay);
    FirstOf(Ranking(ScanHits(u, log, Parsed(u, query), decay), Better), if top <= 0 then 5 else top)
  }

  function FirstOf<T>(xs: seq<T>, n: nat): seq<T> {
    if |xs| > n then xs[..n] else xs
  }

  // ---- The search ----

  /** Intersection of two ascending lists by a single merge pass. */
  method IntersectIds(left: seq<nat>, right: seq<nat>) returns (result: seq<nat>)
    requires Ascending(left) && Ascending(right)
    ensures Ascending(result)
    ensures forall id :: id in result <==> id in left && id in right
  {
    result := [];
    var i, j := 0, 0;
    while i < |left| && j < |right|
      invariant 0 <= i <= |left| && 0 <= j <= |right|
      invariant Ascending(result)
      invariant forall id :: id in result <==> id in left[..i] && id in right[..j]
      invariant forall k :: 0 <= k < |result| ==> result[k] in left[..i]
      invariant j < |right| ==> forall k :: 0 <= k < i ==> left[k] < right[j]
      invariant i < |left| ==> forall k :: 0 <= k < j ==> right[k] < left[i]
      decreases |left| - i + |right| - j
    {
      if left[i] == right[j] {
        result := result + [left[i]];
        i, j := i + 1, j + 1;
      } else if left[i] < right[j] {
        i := i + 1;
      } else {
        j := j + 1;
      }
    }
    forall id | id in left && id in right ensures id in result {
      var m :| 0 <= m < |left| && left[m] == id;
      var n :| 0 <= n < |right| && right[n] == id;
      assert m < i || n < j;
      assert m < i <==> n < j;
      assert left[..i][m] == id && right[..j][n] == id;
    }
  }

  lemma CountMore(done: set<string>, t: string, s: set<string>)
    requires t !in done
    ensures |(done + {t}) * s| == |done * s| + (if t in s then 1 else 0)
  {
    if t in s {
      assert (done + {t}) * s == done * s + {t};
    } else {
      assert (done + {t}) * s == done * s;
    }
  }

  lemma CountUnion(a: set<string>, b: set<string>)
    ensures |a + b| == |a| + |b| - |a * b|
  {
    assert a + b == a + (b - a) && |a + (b - a)| == |a| + |b - a|;
    assert b == (b - a) + (a * b);
  }

  lemma CountNext(all: set<string>, rest: set<string>, t: string, s: set<string>)
    requires t in rest && rest <= all
    ensures |(all - (rest - {t})) * s| == |(all - rest) * s| + (if t in s then 1 else 0)
  {
    assert all - (rest - {t}) == all - rest + {t};
    CountMore(all - rest, t, s);
  }

  method JaccardSim(queryTokens: set<string>, entryTerms: seq<string>) returns (j: real)
    ensures j == Jaccard(queryTokens, Elements(entryTerms))
  {
    if |queryTokens| == 0 && |entryTerms| == 0 { return 0.0; }
    var entrySet := Elements(entryTerms);
    var intersection := 0;
    var rest := queryTokens;
    assert queryTokens - rest == {} && {} * entrySet == {};
    while rest != {}
      invariant rest <= queryTokens && intersection == |(queryTokens - rest) * entrySet|
    {
      hide Jaccard, Elements;
      var t :| t in rest;
      CountNext(queryTokens, rest, t, entrySet);
      if t in entrySet { intersection := intersection + 1; }
      rest := rest - {t};
    }
    assert queryTokens - {} == queryTokens;
    CountUnion(queryTokens, entrySet);
    var union := |queryTokens| + |entrySet| - intersection;
    if union == 0 { return 0.0; }
    j := intersection as real / union as real;
  }

  lemma MatchNext(tokens: seq<string>, i: nat, s: set<string>)
    requires i < |tokens| && tokens[i] !in tokens[..i]
    ensures |Elements(tokens[..i + 1]) * s| == |Elements(tokens[..i]) * s| + (if tokens[i] in s then 1 else 0)
  {
    assert tokens[..i + 1] == tokens[..i] + [tokens[i]];
    ElementsSnoc(tokens[..i], tokens[i]);
    CountMore(Elements(tokens[..i]), tokens[i], s);
  }

  method ComputeTokenScore(tokens: seq<string>, terms: seq<string>) returns (score: real)
    requires forall i, j :: 0 <= i < j < |tokens| ==> tokens[i] != tokens[j]
    ensures score == TokenScore(tokens, terms)
  {
    if |tokens| == 0 { return 1.0; }
    var entrySet := Elements(terms);
    var matches := 0;
    for i := 0 to |tokens|
      invariant matches == |Elements(tokens[..i]) * entrySet|
    {
      hide TokenScore;
      MatchNext(tokens, i, entrySet);
      if tokens[i] in entrySet { matches := matches + 1; }
    }
    assert tokens[..|tokens|] == tokens;
    score := matches as real / |tokens| as real;
  }

  method ComputeHit(u: Unicode, q: ParsedQuery, e: Entry, decay: Decay) returns (hit: SearchHit)
    requires forall i, j :: 0 <= i < j < |q.tokens| ==> q.tokens[i] != q.tokens[j]
    ensures hit == HitOf(u, q, e, decay)
  {
    hide TokenScore, Jaccard, NormalizePhrase;
    var tokenScore := ComputeTokenScore(q.tokens, e.terms);
    var jaccard := JaccardSim(Elements(q.tokens), e.terms);
    var base := tokenScore * 0.5 + jaccard * 0.5;
    if q.exactEntity != "" && NormalizePhrase(u, e.entity) == q.exactEntity {
      base := if base * 1.5 > 1.0 then 1.0 else base * 1.5;
    }
    var trust := EffectiveTrust(e.trust);
    assert base == BaseScore(u, q, e);
    hide BaseScore, EffectiveTrust;
    hit := SearchHit(e.id, e.createdAt, base * decay(e.createdAt) * trust,
                     tokenScore, jaccard, decay(e.createdAt), trust,
                     e.entity, e.source, e.text, e.slots, e.tags);
  }

  /** A posting list is ascending and names exactly the content entries that carry its key. */
  lemma PostingIsExact(u: Unicode, kind: Kind, log: seq<Entry>, key: string)
    requires Sound(log)
    ensures var ids := Lookup(PostingsOf(u, kind, log), key);
            Ascending(ids) && forall id :: id in ids <==> Content(log, id) && key in KeysOf(u, kind, log[id - 1])
  {
    hide KeysOf, IsSignal;
    forall i | 0 <= i < |log| ensures log[i].id == i + 1 { assert SoundAt(log, i); }
    IndexIsPostings(u, kind, PostingsOf(u, kind, log), log);
    ScanMembers(u, kind, log, key);
  }

  /**
   Entries having all the facets, by intersecting postings. `None` means that some facet, or the
   facets together, match nothing; an empty list means that there are no facets.
   */
  method FacetCandidates(engine: Engine, facets: seq<string>) returns (r: Option<seq<nat>>)
    requires engine.Valid()
    ensures r.None? ==> facets != [] && forall id :: !FacetHit(engine.u, engine.log, facets, id)
    ensures r.Some? ==> (r.value == [] <==> facets == [])
    ensures r.Some? && facets != [] ==> forall id :: id in r.value <==> FacetHit(engine.u, engine.log, facets, id)
  {
    hide KeysOf, PostingsOf, Sound, Content;
    var candidates: seq<nat> := [];
    for i := 0 to |facets|
      invariant candidates == [] <==> i == 0
      invariant Ascending(candidates)
      invariant i > 0 ==> forall id :: id in candidates <==> FacetHit(engine.u, engine.log, facets[..i], id)
    {
      PostingIsExact(engine.u, Facet, engine.log, facets[i]);
      FacetHitSnoc(engine.u, engine.log, facets, i);
      var postings := Lookup(engine.facetIndex, facets[i]);
      if |postings| == 0 {
        NoFacetHit(engine.u, engine.log, facets[..i + 1], facets);
        return None;
      }
      if candidates == [] {
        candidates := postings;
        continue;
      }
      candidates := IntersectIds(candidates, postings);
      if |candidates| == 0 {
        NoFacetHit(engine.u, engine.log, facets[..i + 1], facets);
        return None;
      }
    }
    assert facets[..|facets|] == facets;
    r := Some(candidates);
  }

  lemma FacetHitSnoc(u: Unicode, log: seq<Entry>, facets: seq<string>, i: nat)
    requires i < |facets|
    ensures forall id :: FacetHit(u, log, facets[..i + 1], id)
                    <==> Content(log, id) && facets[i] in KeysOf(u, Facet, log[id - 1])
                         && FacetHit(u, log, facets[..i], id)
    ensures i == 0 ==> forall id :: Content(log, id) ==> FacetHit(u, log, facets[..i], id)
  {
    hide KeysOf, IsSignal;
    var longer, shorter := facets[..i + 1], facets[..i];
    assert longer == shorter + [facets[i]];
    forall id | Content(log, id)
      ensures HasFacets(u, longer, log[id - 1])
              <==> facets[i] in KeysOf(u, Facet, log[id - 1]) && HasFacets(u, shorter, log[id - 1])
    {
      assert longer[i] == facets[i] && forall k :: 0 <= k < i ==> longer[k] == shorter[k];
    }
  }

  lemma NoFacetHit(u: Unicode, log: seq<Entry>, some: seq<string>, all: seq<string>)
    requires some <= all && forall id :: !FacetHit(u, log, some, id)
    ensures forall id :: !FacetHit(u, log, all, id)
  {
    hide KeysOf, IsSignal;
    forall id | FacetHit(u, log, all, id) ensures FacetHit(u, log, some, id) {
      assert forall k :: 0 <= k < |some| ==> some[k] == all[k];
    }
  }

  /** Entries sharing a token with the query or about its exact entity, from the postings. */
  method WordCandidates(engine: Engine, q: ParsedQuery) returns (candidates: set<nat>)
    requires engine.Valid()
    ensures forall id :: id in candidates <==> WordHit(engine.u, engine.log, q, id)
  {
    hide PostingsOf, Sound, Content;
    candidates := {};
    for i := 0 to |q.tokens|
      invariant forall id :: id in candidates <==> TokenHit(engine.log, q.tokens[..i], id)
    {
      PostingIsExact(engine.u, Token, engine.log, q.tokens[i]);
      TokenHitSnoc(engine.u, engine.log, q.tokens, i);
      candidates := candidates + Elements(Lookup(engine.tokenIndex, q.tokens[i]));
    }
    assert q.tokens[..|q.tokens|] == q.tokens;
    if q.exactEntity != "" {
      PostingIsExact(engine.u, Entity, engine.log, q.exactEntity);
      candidates := candidates + Elements(Lookup(engine.entityIndex, q.exactEntity));
    }
  }

  ghost predicate TokenHit(log: seq<Entry>, tokens: seq<string>, id: nat) {
    Content(log, id) && exists t :: t in tokens && t in log[id - 1].terms
  }

  lemma TokenHitSnoc(u: Unicode, log: seq<Entry>, tokens: seq<string>, i: nat)
    requires i < |tokens|
    ensures forall id :: TokenHit(log, tokens[..i + 1], id)
                    <==> TokenHit(log, tokens[..i], id)
                         || (Content(log, id) && tokens[i] in KeysOf(u, Token, log[id - 1]))
  {
    assert tokens[..i + 1] == tokens[..i] + [tokens[i]];
    forall id | Content(log, id)
      ensures tokens[i] in KeysOf(u, Token, log[id - 1]) <==> tokens[i] in log[id - 1].terms {}
    forall id: nat | TokenHit(log, tokens[..i + 1], id)
      ensures TokenHit(log, tokens[..i], id) || (Content(log, id) && tokens[i] in log[id - 1].terms)
    {
      var t :| t in tokens[..i + 1] && t in log[id - 1].terms;
      assert t in tokens[..i] || t == tokens[i];
    }
    forall id: nat | TokenHit(log, tokens[..i], id) ensures TokenHit(log, tokens[..i + 1], id) {
      var t :| t in tokens[..i] && t in log[id - 1].terms;
      assert t in tokens[..i + 1];
    }
    forall id: nat | Content(log, id) && tokens[i] in log[id - 1].terms ensures TokenHit(log, tokens[..i + 1], id) {
      assert tokens[i] in tokens[..i + 1];
    }
  }

  lemma SelectedIsEntry(u: Unicode, log: seq<Entry>, q: ParsedQuery, decay: Decay, id: nat)
    requires Sound(log) && Selected(u, log, q, id)
    ensures 1 <= id <= |log| && HitAt(u, log, q, decay, id).id == id
    ensures HitAt(u, log, q, decay, id) in ScanHits(u, log, q, decay)
  {
    hide HasFacets, WordHit, IsSignal, BaseScore, TokenScore, Jaccard, EffectiveTrust;
    assert SoundAt(log, id - 1);
  }

  lemma ScanHitIsSelected(u: Unicode, log: seq<Entry>, q: ParsedQuery, decay: Decay, hit: SearchHit)
    requires Sound(log) && hit in ScanHits(u, log, q, decay)
    ensures Selected(u, log, q, hit.id) && 1 <= hit.id <= |log| && hit == HitAt(u, log, q, decay, hit.id)
  {
    hide Selected, HitAt;
    var id: nat :| 1 <= id <= |log| && Selected(u, log, q, id) && hit == HitAt(u, log, q, decay, id);
    SelectedIsEntry(u, log, q, decay, id);
  }

  /** The first hits of the ranking are in order, and no hit left out comes before any of them. */
  lemma FirstAreBest(u: Unicode, log: seq<Entry>, q: ParsedQuery, decay: Decay, all: seq<SearchHit>, limit: nat)
    requires Sound(log) && IsRanking(all, ScanHits(u, log, q, decay), Better)
    ensures |FirstOf(all, limit)| <= limit
    ensures var hits := FirstOf(all, limit);
            forall i, j :: 0 <= i < j < |hits| ==>
              hits[i].score > hits[j].score
              || (hits[i].score == hits[j].score
                  && (hits[i].createdAt > hits[j].createdAt
                      || (hits[i].createdAt == hits[j].createdAt && hits[i].id > hits[j].id)))
    ensures var hits := FirstOf(all, limit);
            forall i :: 0 <= i < |hits| ==>
              Selected(u, log, q, hits[i].id) && hits[i] == HitAt(u, log, q, decay, hits[i].id)
    ensures var hits := FirstOf(all, limit);
            forall id :: Selected(u, log, q, id) ==>
              var other := HitAt(u, log, q, decay, id);
              other in hits
              || (|hits| == limit
                  && forall i :: 0 <= i < |hits| ==>
                      hits[i].score > other.score
                      || (hits[i].score == other.score
                          && (hits[i].createdAt > other.createdAt
                              || (hits[i].createdAt == other.createdAt && hits[i].id > id))))
  {
    hide ScanHits, WordHit, HasFacets, IsSignal, HitOf, Rated;
    forall i | 0 <= i < |all| ensures 1 <= all[i].id <= |log|
      ensures Selected(u, log, q, all[i].id) && all[i] == HitAt(u, log, q, decay, all[i].id)
    {
      ScanHitIsSelected(u, log, q, decay, all[i]);
    }
    forall i, j | 0 <= i < j < |all| ensures all[i].id != all[j].id { assert all[i] != all[j]; }
    forall id | Selected(u, log, q, id)
      ensures HitAt(u, log, q, decay, id) in all && HitAt(u, log, q, decay, id).id == id
    {
      SelectedIsEntry(u, log, q, decay, id);
    }
  }

  /** Every entry the query selects, scored: facets first, then words, or the facets alone. */
  method Matches(engine: Engine, q: ParsedQuery, decay: Decay) returns (hits: seq<SearchHit>)
    requires engine.Valid()
    requires forall i, j :: 0 <= i < j < |q.tokens| ==> q.tokens[i] != q.tokens[j]
    ensures Elements(hits) == ScanHits(engine.u, engine.log, q, decay)
    ensures forall i, j :: 0 <= i < j < |hits| ==> hits[i] != hits[j]
  {
    hide FacetHit, WordHit, Selected, ScanHits, Passes, HitAt, Compile, Sound, IsNormal;
    var facetCandidates := FacetCandidates(engine, q.facets);
    if facetCandidates.None? {
      NothingSelected(engine.u, engine.log, q, decay);
      return [];
    }
    var candidateSet := WordCandidates(engine, q);
    if |candidateSet| == 0 && |facetCandidates.value| > 0 {
      candidateSet := Elements(facetCandidates.value);
    }
    CandidatesCover(engine.u, engine.log, q, facetCandidates.value, candidateSet);
    hits := ScoreCandidates(engine, q, facetCandidates.value, candidateSet, decay);
  }

  /** Searches the compiled index: the result is the one a scan of the whole log would give. */
  method Find(engine: Engine, query: string, top: int, decay: Decay) returns (r: SearchResult)
    requires engine.Valid()
    ensures r.hits == BestOfScan(engine.u, engine.log, TrimSpace(engine.u, query), top, decay)
    ensures r.query == TrimSpace(engine.u, query) && r.count == |r.hits|
    ensures r.count <= if top <= 0 then 5 else top
    ensures forall i, j :: 0 <= i < j < |r.hits| ==>
              r.hits[i].score > r.hits[j].score
              || (r.hits[i].score == r.hits[j].score
                  && (r.hits[i].createdAt > r.hits[j].createdAt
                      || (r.hits[i].createdAt == r.hits[j].createdAt && r.hits[i].id > r.hits[j].id)))
    ensures var q := Parsed(engine.u, r.query);
            forall i :: 0 <= i < |r.hits| ==>
              Selected(engine.u, engine.log, q, r.hits[i].id)
              && r.hits[i] == HitAt(engine.u, engine.log, q, decay, r.hits[i].id)
    ensures var q := Parsed(engine.u, r.query);
            forall id :: Selected(engine.u, engine.log, q, id) ==>
              var other := HitAt(engine.u, engine.log, q, decay, id);
              other in r.hits
              || (r.count == (if top <= 0 then 5 else top)
                  && forall i :: 0 <= i < |r.hits| ==>
                      r.hits[i].score > other.score
                      || (r.hits[i].score == other.score
                          && (r.hits[i].createdAt > other.createdAt
                              || (r.hits[i].createdAt == other.createdAt && r.hits[i].id > id))))
  {
    hide Parsed, Selected, ScanHits, HitAt, Compile, Sound, IsNormal, TotalOrderOn, IsRanking, Better, TrimSpace;
    ParsedTokensDistinct(engine.u, TrimSpace(engine.u, query));
    var limit := if top <= 0 then 5 else top;
    var text := TrimSpace(engine.u, query);
    var q := ParseQuery(engine.u, text);
    var hits := Matches(engine, q, decay);
    HitsAreOrdered(engine.u, engine.log, q, decay);
    hits := Sort(hits, Better);
    FirstAreBest(engine.u, engine.log, q, decay, hits, limit);
    if |hits| > limit { hits := hits[..limit]; }
    r := SearchResult(text, hits, |hits|);
  }

  lemma NothingSelected(u: Unicode, log: seq<Entry>, q: ParsedQuery, decay: Decay)
    requires Sound(log) && forall id :: !FacetHit(u, log, q.facets, id)
    ensures ScanHits(u, log, q, decay) == {}
  {
    hide FacetHit, HitAt;
  }

  /** Every selected entry is a candidate, and a candidate is selected when it passes the facet filter. */
  lemma CandidatesCover(u: Unicode, log: seq<Entry>, q: ParsedQuery, facetCandidates: seq<nat>, candidateSet: set<nat>)
    requires facetCandidates == [] <==> q.facets == []
    requires q.facets != [] ==> forall id :: id in facetCandidates <==> FacetHit(u, log, q.facets, id)
    requires if exists id :: WordHit(u, log, q, id) then forall id :: id in candidateSet <==> WordHit(u, log, q, id)
             else candidateSet == Elements(facetCandidates)
    ensures forall id :: Selected(u, log, q, id) <==> id in candidateSet && Passes(facetCandidates, id)
  {
    hide MatchesWords, IsSignal;
    forall id ensures Selected(u, log, q, id) <==> id in candidateSet && Passes(facetCandidates, id) {
      assert q.facets == [] && WordHit(u, log, q, id) ==> FacetHit(u, log, q.facets, id);
    }
  }

  predicate Passes(facetCandidates: seq<nat>, id: nat) {
    facetCandidates == [] || id in facetCandidates
  }

  ghost function HitsAmong(u: Unicode, log: seq<Entry>, q: ParsedQuery, decay: Decay, ids: set<nat>): set<SearchHit> {
    set id | id in ids && Selected(u, log, q, id) :: HitAt(u, log, q, decay, id)
  }

  lemma HitsAmongSnoc(u: Unicode, log: seq<Entry>, q: ParsedQuery, decay: Decay, ids: set<nat>, id: nat)
    ensures HitsAmong(u, log, q, decay, ids + {id})
         == HitsAmong(u, log, q, decay, ids) + (if Selected(u, log, q, id) then {HitAt(u, log, q, decay, id)} else {})
  {
    hide HitAt, WordHit, HasFacets, IsSignal;
  }

  lemma HitsAmongCandidates(u: Unicode, log: seq<Entry>, q: ParsedQuery, decay: Decay, ids: set<nat>)
    requires forall id :: Selected(u, log, q, id) ==> id in ids
    ensures HitsAmong(u, log, q, decay, ids) == ScanHits(u, log, q, decay)
  {
    hide HitAt, WordHit, HasFacets, IsSignal;
  }

  /** A candidate that passes the facet filter is an entry of the snapshot, and not a signal. */
  lemma SelectedEntry(engine: Engine, q: ParsedQuery, id: nat)
    requires engine.Valid() && Selected(engine.u, engine.log, q, id)
    ensures 1 <= id <= |engine.log| && id in engine.entries && engine.entries[id] == Rated(engine.log, id)
    ensures engine.entries[id].signal.None? && engine.entries[id].id == id
  {
    hide MatchesWords, HasFacets, PostingsOf, StatesOf, TrustOf, Latest;
    assert SoundAt(engine.log, id - 1);
  }

  method ScoreCandidates(engine: Engine, q: ParsedQuery, facetCandidates: seq<nat>,
                         candidateSet: set<nat>, decay: Decay)
    returns (hits: seq<SearchHit>)
    requires engine.Valid()
    requires forall i, j :: 0 <= i < j < |q.tokens| ==> q.tokens[i] != q.tokens[j]
    requires forall id :: Selected(engine.u, engine.log, q, id) <==> id in candidateSet && Passes(facetCandidates, id)
    ensures Elements(hits) == ScanHits(engine.u, engine.log, q, decay)
    ensures forall i, j :: 0 <= i < j < |hits| ==> hits[i] != hits[j]
  {
    hits := [];
    var facetSet := Elements(facetCandidates);
    var rest := candidateSet;
    ghost var done := {};
    hide HitOf, Selected, Rated, Compile, WellFormed, BaseScore;
    while rest != {}
      invariant rest <= candidateSet && done == candidateSet - rest
      invariant Elements(hits) == HitsAmong(engine.u, engine.log, q, decay, done)
      invariant forall i :: 0 <= i < |hits| ==> hits[i].id in done
      invariant forall i, j :: 0 <= i < j < |hits| ==> hits[i].id != hits[j].id
    {
      var id :| id in rest;
      HitsAmongSnoc(engine.u, engine.log, q, decay, done, id);
      rest, done := rest - {id}, done + {id};
      if |facetCandidates| > 0 && id !in facetSet { continue; }
      SelectedEntry(engine, q, id);
      if id !in engine.entries { continue; }
      var entry := engine.entries[id];
      if entry.signal.Some? { continue; }
      var hit := ComputeHit(engine.u, q, entry, decay);
      HitIdIs(engine.u, q, entry, decay);
      ElementsSnoc(hits, hit);
      hits := hits + [hit];
    }
    assert done == candidateSet;
    HitsAmongCandidates(engine.u, engine.log, q, decay, done);
  }

  lemma HitIdIs(u: Unicode, q: ParsedQuery, e: Entry, decay: Decay)
    ensures HitOf(u, q, e, decay).id == e.id
  {
  }

  // ---- What a hit reports, and bounds on scores ----

  /** Trust of an entry by the signals the log holds for it. */
  lemma TrustBySignals(log: seq<Entry>, id: nat)
    requires 1 <= id <= |log|
    ensures EffectiveTrust(StoredTrust(Signals(log, id)))
            == 1.0 + (if SignalSeen(log, id, Helpful) then 0.05 else 0.0)
               - (if SignalSeen(log, id, Unhelpful) then 0.10 else 0.0)
  {
    SignalsAreSeen(log, id);
    assert Signals(log, id) != [] ==> Signals(log, id)[0] in Signals(log, id);
    hide SignalSeen, Signals;
  }

  lemma ShareOfTokens(tokens: seq<string>, terms: seq<string>)
    ensures var asked, held := set t | t in tokens, set t | t in terms;
            && TokenScore(tokens, terms)
               == (if tokens == [] then 1.0 else |asked * held| as real / |tokens| as real)
            && Jaccard(Elements(tokens), Elements(terms))
               == (if asked + held == {} then 0.0 else |asked * held| as real / |asked + held| as real)
  {
    assert Elements(tokens) == set t | t in tokens;
    assert Elements(terms) == set t | t in terms;
  }

  lemma BoostedBase(u: Unicode, q: ParsedQuery, e: Entry, base: real)
    requires base == (TokenScore(q.tokens, e.terms) + Jaccard(Elements(q.tokens), Elements(e.terms))) / 2.0
    ensures var exact := q.exactEntity != "" && NormalizePhrase(u, e.entity) == q.exactEntity;
            BaseScore(u, q, e) == if !exact then base else if base * 1.5 <= 1.0 then base * 1.5 else 1.0
  {
    hide TokenScore, Jaccard, NormalizePhrase;
  }

  /**
   What a hit reports, written out on the log: the entry's own fields, the shares of common tokens, trust
   by the signals seen, and the score, boosted by half for the exact entity but not above 1.
   */
  lemma HitReports(u: Unicode, log: seq<Entry>, q: ParsedQuery, decay: Decay, id: nat)
    requires 1 <= id <= |log|
    ensures var hit, e := HitAt(u, log, q, decay, id), log[id - 1];
            && hit.id == e.id && hit.createdAt == e.createdAt && hit.text == e.text && hit.entity == e.entity
            && hit.source == e.source && hit.slots == e.slots && hit.tags == e.tags
            && hit.temporalDecay == decay(e.createdAt)
            && hit.trust == 1.0 + (if SignalSeen(log, id, Helpful) then 0.05 else 0.0)
                            - (if SignalSeen(log, id, Unhelpful) then 0.10 else 0.0)
    ensures var hit, e := HitAt(u, log, q, decay, id), log[id - 1];
            var asked, held := set t | t in q.tokens, set t | t in e.terms;
            && hit.tokenScore == (if q.tokens == [] then 1.0 else |asked * held| as real / |q.tokens| as real)
            && hit.jaccard
               == (if asked + held == {} then 0.0 else |asked * held| as real / |asked + held| as real)
    ensures var hit, e := HitAt(u, log, q, decay, id), log[id - 1];
            var exact := q.exactEntity != "" && NormalizePhrase(u, e.entity) == q.exactEntity;
            var base := (hit.tokenScore + hit.jaccard) / 2.0;
            hit.score == (if !exact then base else if base * 1.5 <= 1.0 then base * 1.5 else 1.0)
                         * hit.temporalDecay * hit.trust
  {
    hide TokenScore, Jaccard, NormalizePhrase, BaseScore, EffectiveTrust, StoredTrust, SignalSeen, Signals;
    var hit, e := HitAt(u, log, q, decay, id), log[id - 1];
    TrustBySignals(log, id);
    ShareOfTokens(q.tokens, e.terms);
    BoostedBase(u, q, Rated(log, id), (hit.tokenScore + hit.jaccard) / 2.0);
  }

  lemma {:induction false} DistinctCount(xs: seq<string>)
    requires forall i, j :: 0 <= i < j < |xs| ==> xs[i] != xs[j]
    ensures |Elements(xs)| == |xs|
  {
    if xs == [] {
      assert Elements(xs) == {};
    } else {
      var front, last := xs[..|xs| - 1], xs[|xs| - 1];
      DistinctCount(front);
      ElementsSnoc(front, last);
      assert xs == front + [last] && last !in front;
    }
  }

  lemma SmallerSet(a: set<string>, b: set<string>)
    requires a <= b
    ensures |a| <= |b|
  {
    assert b == a + (b - a) && |a + (b - a)| == |a| + |b - a|;
  }

  lemma Scale(a: real, b: real, c: real)
    requires a <= b && 0.0 <= c
    ensures a * c <= b * c && c * a <= c * b
  {
    assert 0.0 <= (b - a) * c;
  }

  lemma Unscale(a: real, b: real, c: real)
    requires a * c <= b * c && 0.0 < c
    ensures a <= b
  {
  }

  lemma Quotient(a: real, b: real)
    requires b > 0.0
    ensures a / b * b == a && (a >= 0.0 ==> a / b >= 0.0)
  {
  }

  lemma Ratio(n: nat, small: nat, large: nat)
    requires n <= small <= large && small > 0
    ensures 0.0 <= n as real / large as real <= n as real / small as real <= 1.0
  {
    var all, few, many := n as real, small as real, large as real;
    var x, y := all / many, all / few;
    Quotient(all, few);
    Quotient(all, many);
    Scale(few, many, x);
    assert x * few <= y * few;
    Unscale(x, y, few);
    assert y * few <= 1.0 * few;
    Unscale(y, 1.0, few);
  }

  lemma FractionOf(a: real, b: real)
    requires 0.0 <= a <= 1.0 && 0.0 < b
    ensures 0.0 <= a * b <= b
  {
    Scale(a, 1.0, b);
    Scale(0.0, a, b);
    assert a * b <= 1.0 * b;
    assert 1.0 * b == b;
  }

  lemma Product(a: real, b: real, c: real)
    requires 0.0 <= a <= 1.0 && 0.0 < b <= 1.0 && 0.0 < c <= 1.05
    ensures 0.0 <= a * b * c <= 1.05
  {
    FractionOf(a, b);
    var ab := a * b;
    assert ab <= 1.0;
    FractionOf(ab, c);
  }

  /** Jaccard similarity never exceeds the token score, and both are fractions. */
  lemma SimilarityBounds(tokens: seq<string>, terms: seq<string>)
    requires forall i, j :: 0 <= i < j < |tokens| ==> tokens[i] != tokens[j]
    ensures 0.0 <= Jaccard(Elements(tokens), Elements(terms)) <= TokenScore(tokens, terms) <= 1.0
  {
    var a, b := Elements(tokens), Elements(terms);
    DistinctCount(tokens);
    if tokens == [] {
      assert a == {} && a * b == {};
    } else {
      SmallerSet(a * b, a);
      SmallerSet(a, a + b);
      assert tokens[0] in a && a + b != {};
      Ratio(|a * b|, |a|, |a + b|);
    }
  }

  /** Every result of a search scores between 0 and 1.05. */
  lemma ScoreBounds(u: Unicode, log: seq<Entry>, query: string, decay: Decay, hit: SearchHit)
    requires hit in ScanHits(u, log, Parsed(u, query), decay)
    ensures 0.0 <= hit.jaccard <= hit.tokenScore <= 1.0
    ensures 0.90 <= hit.trust <= 1.05
    ensures 0.0 <= hit.score <= 1.05
  {
    var q := Parsed(u, query);
    var id: nat :| 1 <= id <= |log| && Selected(u, log, q, id) && hit == HitAt(u, log, q, decay, id);
    HitBounds(u, q, Rated(log, id), decay, Signals(log, id));
  }

  lemma HitBounds(u: Unicode, q: ParsedQuery, e: Entry, decay: Decay, signals: seq<Signal>)
    requires forall i, j :: 0 <= i < j < |q.tokens| ==> q.tokens[i] != q.tokens[j]
    requires e.trust == StoredTrust(signals)
    ensures var hit := HitOf(u, q, e, decay);
            0.0 <= hit.jaccard <= hit.tokenScore <= 1.0 && 0.90 <= hit.trust <= 1.05 && 0.0 <= hit.score <= 1.05
  {
    hide TokenScore, Jaccard, EntityKey;
    SimilarityBounds(q.tokens, e.terms);
    assert 0.90 <= EffectiveTrust(e.trust) <= 1.05 by {
      assert signals != [] ==> signals[0] in signals;
    }
    Product(BaseScore(u, q, e), decay(e.createdAt), EffectiveTrust(e.trust));
  }
}
