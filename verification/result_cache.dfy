/** The client-side result cache of `src/components/EmailGenerator.tsx`:
    entries keyed by ten request fields, found by exact match in insertion
    order, appended after each fresh generation with only the last 50 kept,
    and the generate flow that consults it. */
module ResultCache {
  import opened Wrappers
  import opened Strings
  import opened Seqs

  /** `.slice(-50)` in the insert step. */
  const CacheLimit: nat := 50

  /** The ten fields of the cache key, in the key's order. The sliders
      (formality, creativity, temperature) and the token count are
      JavaScript numbers and are compared by value, as the serialised key
      compares them. */
  datatype Request = Request(
    context: string,
    tone: string,
    length: string,
    model: string,
    formality: real,
    creativity: real,
    writingStyle: string,
    language: string,
    maxTokens: real,
    temperature: real)

  /** A cached generation: the key fields plus id, result and timestamp. */
  datatype CacheEntry = CacheEntry(
    id: string,
    context: string,
    tone: string,
    length: string,
    model: string,
    formality: real,
    creativity: real,
    writingStyle: string,
    language: string,
    maxTokens: real,
    temperature: real,
    result: string,
    timestamp: int)

  /** The key an entry was stored under. */
  function KeyOf(e: CacheEntry): Request {
    Request(e.context, e.tone, e.length, e.model, e.formality, e.creativity,
            e.writingStyle, e.language, e.maxTokens, e.temperature)
  }

  /** The `find` predicate: the serialised keys agree, field by field. */
  predicate Matches(e: CacheEntry, r: Request) {
    && e.context == r.context
    && e.tone == r.tone
    && e.length == r.length
    && e.model == r.model
    && e.formality == r.formality
    && e.creativity == r.creativity
    && e.writingStyle == r.writingStyle
    && e.language == r.language
    && e.maxTokens == r.maxTokens
    && e.temperature == r.temperature
  }

  /** An entry matches exactly the request it was stored under: a request
      that differs in any one of the ten fields misses. */
  lemma MatchesIffSameKey(e: CacheEntry, r: Request)
    ensures Matches(e, r) <==> KeyOf(e) == r
  {
  }

  /** Id, result and timestamp play no part in matching. */
  lemma MatchIgnoresBookkeeping(e: CacheEntry, r: Request, id: string, result: string, timestamp: int)
    ensures Matches(e.(id := id, result := result, timestamp := timestamp), r) == Matches(e, r)
  {
  }

  /** The first index at or after `from` whose entry matches. */
  function FindFrom(cache: seq<CacheEntry>, r: Request, from: nat): (k: Option<nat>)
    requires from <= |cache|
    ensures k.Some? ==> from <= k.value < |cache| && Matches(cache[k.value], r)
    ensures k.Some? ==> forall j :: from <= j < k.value ==> !Matches(cache[j], r)
    ensures k.None? <==> forall j :: from <= j < |cache| ==> !Matches(cache[j], r)
    decreases |cache| - from
  {
    if from == |cache| then None
    else if Matches(cache[from], r) then Some(from)
    else FindFrom(cache, r, from + 1)
  }

  /** `cache.find(...)`, as an index: the first matching entry in
      insertion order. */
  function Find(cache: seq<CacheEntry>, r: Request): (k: Option<nat>)
    ensures k.Some? ==> k.value < |cache| && Matches(cache[k.value], r)
    ensures k.Some? ==> forall j :: 0 <= j < k.value ==> !Matches(cache[j], r)
    ensures k.None? <==> forall j :: 0 <= j < |cache| ==> !Matches(cache[j], r)
  {
    FindFrom(cache, r, 0)
  }

  /** `checkCache`: the stored result of the first matching entry. */
  function Lookup(cache: seq<CacheEntry>, r: Request): (res: Option<string>)
    ensures res.Some? <==> exists j :: 0 <= j < |cache| && Matches(cache[j], r)
    ensures res.Some? ==> exists j :: 0 <= j < |cache| && Matches(cache[j], r)
                            && res.value == cache[j].result
                            && forall i :: 0 <= i < j ==> !Matches(cache[i], r)
  {
    match Find(cache, r)
    case Some(j) => Some(cache[j].result)
    case None => None
  }

  /** The entry built after a fresh generation; `id` and `timestamp` are
      the two readings of the clock. */
  function NewEntry(r: Request, id: string, result: string, timestamp: int): (e: CacheEntry)
    ensures KeyOf(e) == r && e.result == result
  {
    CacheEntry(id, r.context, r.tone, r.length, r.model, r.formality, r.creativity,
               r.writingStyle, r.language, r.maxTokens, r.temperature, result, timestamp)
  }

  /** `[...prev, entry].slice(-50)`. */
  function Insert(cache: seq<CacheEntry>, e: CacheEntry): (c: seq<CacheEntry>)
    ensures |c| == if |cache| + 1 < CacheLimit then |cache| + 1 else CacheLimit
    ensures c[|c| - 1] == e
    ensures IsSuffix(c[..|c| - 1], cache)
  {
    PushWindow(cache, e, CacheLimit)
  }

  /** `clearCache`. */
  function Clear(cache: seq<CacheEntry>): (c: seq<CacheEntry>)
    ensures |c| == 0
  {
    []
  }

  /** After clearing, every lookup misses. */
  lemma ClearedCacheMisses(cache: seq<CacheEntry>, r: Request)
    ensures Lookup(Clear(cache), r) == None
  {
  }

  /** Inserting into a cache within the limit keeps it within the limit. */
  lemma InsertBounded(cache: seq<CacheEntry>, e: CacheEntry)
    ensures |Insert(cache, e)| <= CacheLimit
  {
  }

  /** A lookup that missed before an insert finds the new entry after it. */
  lemma LookupAfterInsert(cache: seq<CacheEntry>, e: CacheEntry, r: Request)
    requires Lookup(cache, r) == None && Matches(e, r)
    ensures Lookup(Insert(cache, e), r) == Some(e.result)
  {
    var c := Insert(cache, e);
    var n := |c| - 1;
    assert Find(cache, r) == None;
    FindInSuffix(cache + [e], |cache| + 1 - |c|, |cache|, r);
    assert c == (cache + [e])[|cache| + 1 - |c|..];
  }

  /** Inserting the entry for one request does not make a different
      request hit: a request that differs from it in any of the ten fields
      still misses. */
  lemma OtherRequestStillMisses(cache: seq<CacheEntry>, r: Request, other: Request,
                                id: string, result: string, timestamp: int)
    requires Lookup(cache, other) == None && other != r
    ensures Lookup(Insert(cache, NewEntry(r, id, result, timestamp)), other) == None
  {
    var e := NewEntry(r, id, result, timestamp);
    var c := Insert(cache, e);
    assert Find(cache, other) == None;
    MatchesIffSameKey(e, other);
    NoMatchInSuffix(cache + [e], |cache| + 1 - |c|, other);
    assert c == (cache + [e])[|cache| + 1 - |c|..];
  }

  /** A request no entry matches matches no entry of a suffix either. */
  lemma NoMatchInSuffix(entries: seq<CacheEntry>, d: nat, r: Request)
    requires d <= |entries|
    requires forall j :: 0 <= j < |entries| ==> !Matches(entries[j], r)
    ensures Find(entries[d..], r) == None
  {
    var c := entries[d..];
    assert forall j :: 0 <= j < |c| ==> c[j] == entries[d + j];
  }

  // ----- The generate flow -----

  datatype Outcome =
    | Rejected          // blank context: error toast, nothing else
    | Hit(result: string)
    | Generated(result: string)
    | Failed            // the request to the generation endpoint failed

  datatype Step = Step(outcome: Outcome, cache: seq<CacheEntry>)

  /** The end of `handleGenerate`, once the endpoint has answered `email`:
      the updater `prev => [...prev, entry].slice(-50)` applied to the cache
      as it stands at that moment, `current`, which need not be the cache
      the lookup saw before the fetch. */
  function FinishGenerate(current: seq<CacheEntry>, r: Request, email: string, id: string, now: int): (c: seq<CacheEntry>)
    ensures |c| == if |current| + 1 < CacheLimit then |current| + 1 else CacheLimit
    ensures KeyOf(c[|c| - 1]) == r && c[|c| - 1].result == email
    ensures IsSuffix(c[..|c| - 1], current)
    ensures Lookup(current, r) == None ==> Lookup(c, r) == Some(email)
  {
    var e := NewEntry(r, id, email, now);
    MatchesIffSameKey(e, r);
    if Lookup(current, r) == None then
      LookupAfterInsert(current, e, r);
      Insert(current, e)
    else
      Insert(current, e)
  }

  /** The cache can be cleared while the request is in flight (the clear
      button stays enabled during loading): the answer then lands in the
      empty cache, which ends up holding the new entry alone. */
  lemma ClearDuringFetch(cache: seq<CacheEntry>, r: Request, email: string, id: string, now: int)
    ensures FinishGenerate(Clear(cache), r, email, id, now) == [NewEntry(r, id, email, now)]
    ensures Lookup(FinishGenerate(Clear(cache), r, email, id, now), r) == Some(email)
  {
  }

  /** `handleGenerate` when nothing else changes the cache during the
      fetch: the blank-context guard, then the cache, then the generation
      endpoint, whose answer is `response` (`None` when the call fails);
      `id` and `now` are the clock readings of the new entry. */
  function HandleGenerate(cache: seq<CacheEntry>, r: Request, response: Option<string>, id: string, now: int): (s: Step)
    ensures IsBlank(r.context) ==> s == Step(Rejected, cache)
    ensures s.outcome.Rejected? ==> IsBlank(r.context)
    ensures s.outcome.Hit? ==> s.cache == cache && Lookup(cache, r) == Some(s.outcome.result)
    ensures s.outcome.Generated? ==>
      && !IsBlank(r.context) && Lookup(cache, r) == None && response == Some(s.outcome.result)
      && s.cache == Insert(cache, NewEntry(r, id, s.outcome.result, now))
    ensures !s.outcome.Generated? ==> s.cache == cache
    ensures !IsBlank(r.context) && Lookup(cache, r).Some? ==> s == Step(Hit(Lookup(cache, r).value), cache)
    ensures !IsBlank(r.context) && Lookup(cache, r).None? && response.Some? ==>
      s == Step(Generated(response.value), Insert(cache, NewEntry(r, id, response.value, now)))
    ensures !IsBlank(r.context) && Lookup(cache, r).None? && response.None? ==> s == Step(Failed, cache)
  {
    TrimEmptyIffBlank(r.context);
    if Trim(r.context) == [] then Step(Rejected, cache)
    else match Lookup(cache, r)
      case Some(result) => Step(Hit(result), cache)
      case None =>
        match response
        case None => Step(Failed, cache)
        case Some(email) => Step(Generated(email), FinishGenerate(cache, r, email, id, now))
  }

  /** The cache never grows past its limit. */
  lemma HandleGenerateBounded(cache: seq<CacheEntry>, r: Request, response: Option<string>, id: string, now: int)
    requires |cache| <= CacheLimit
    ensures |HandleGenerate(cache, r, response, id, now).cache| <= CacheLimit
  {
  }

  /** A request that misses is generated from the endpoint's answer; asking
      again is then a hit on that result, whatever the endpoint would answer,
      and leaves the cache as it is. */
  lemma RepeatIsHit(cache: seq<CacheEntry>, r: Request, email: string, id: string, now: int,
                    response': Option<string>, id': string, now': int)
    requires !IsBlank(r.context) && Lookup(cache, r) == None
    ensures var s := HandleGenerate(cache, r, Some(email), id, now);
      && s.outcome == Generated(email)
      && HandleGenerate(s.cache, r, response', id', now') == Step(Hit(email), s.cache)
  {
    TrimEmptyIffBlank(r.context);
    LookupAfterInsert(cache, NewEntry(r, id, email, now), r);
  }

  // ----- Many inserts -----

  /** The cache after inserting `entries` one by one. */
  function InsertAll(cache: seq<CacheEntry>, entries: seq<CacheEntry>): (c: seq<CacheEntry>)
    requires |cache| <= CacheLimit
    ensures c == KeepLast(cache + entries, CacheLimit)
  {
    PushEachWindow(cache, entries, CacheLimit);
    PushEach(cache, entries, CacheLimit)
  }

  /** The keys of `entries`, in order. */
  function Keys(entries: seq<CacheEntry>): (ks: seq<Request>)
    ensures |ks| == |entries|
    ensures forall i :: 0 <= i < |entries| ==> ks[i] == KeyOf(entries[i])
  {
    seq(|entries|, i requires 0 <= i < |entries| => KeyOf(entries[i]))
  }

  /** With distinct keys, an entry's request matches no other entry. */
  lemma OnlyOwnEntryMatches(entries: seq<CacheEntry>, i: nat, j: nat)
    requires Distinct(Keys(entries)) && i < |entries| && j < |entries| && i != j
    ensures !Matches(entries[j], KeyOf(entries[i]))
  {
    MatchesIffSameKey(entries[j], KeyOf(entries[i]));
    var ks := Keys(entries);
    if i < j {
      assert ks[i] != ks[j];
    } else {
      assert ks[j] != ks[i];
    }
  }

  /** Filling an empty cache keeps the last (at most) 50 entries. */
  lemma WindowFromEmpty(entries: seq<CacheEntry>)
    ensures var c := InsertAll([], entries);
      && |c| == (if |entries| < CacheLimit then |entries| else CacheLimit)
      && c == entries[|entries| - |c|..]
  {
    assert [] + entries == entries;
  }

  /** With distinct keys, the request of entry `i` matches no other entry. */
  lemma OthersMiss(entries: seq<CacheEntry>, i: nat)
    requires Distinct(Keys(entries)) && i < |entries|
    ensures forall j :: 0 <= j < |entries| && j != i ==> !Matches(entries[j], KeyOf(entries[i]))
  {
    forall j | 0 <= j < |entries| && j != i
      ensures !Matches(entries[j], KeyOf(entries[i]))
    {
      OnlyOwnEntryMatches(entries, i, j);
    }
  }

  /** A request matching exactly one entry is found in a suffix of the
      entries exactly when that entry survives in the suffix. */
  lemma FindInSuffix(entries: seq<CacheEntry>, d: nat, i: nat, r: Request)
    requires d <= |entries| && i < |entries| && Matches(entries[i], r)
    requires forall j :: 0 <= j < |entries| && j != i ==> !Matches(entries[j], r)
    ensures i < d ==> Find(entries[d..], r) == None
    ensures i >= d ==> Find(entries[d..], r) == Some(i - d)
  {
    var c := entries[d..];
    assert forall j :: 0 <= j < |c| ==> c[j] == entries[d + j];
  }

  /** After inserting requests with distinct keys into an empty cache, the
      oldest ones (all but the last 50) miss and the last 50 hit their own
      result. */
  lemma DistinctInsertsWindow(entries: seq<CacheEntry>, i: nat)
    requires Distinct(Keys(entries)) && i < |entries|
    ensures i + CacheLimit < |entries| ==> Lookup(InsertAll([], entries), KeyOf(entries[i])) == None
    ensures i + CacheLimit >= |entries| ==>
      Lookup(InsertAll([], entries), KeyOf(entries[i])) == Some(entries[i].result)
  {
    OthersMiss(entries, i);
    SingleMatchWindow(entries, i);
  }

  /** When only entry `i` matches its own request, filling an empty cache
      with the entries keeps that request a hit exactly while entry `i` is
      among the last 50. */
  lemma SingleMatchWindow(entries: seq<CacheEntry>, i: nat)
    requires i < |entries|
    requires forall j :: 0 <= j < |entries| && j != i ==> !Matches(entries[j], KeyOf(entries[i]))
    ensures i + CacheLimit < |entries| ==> Lookup(InsertAll([], entries), KeyOf(entries[i])) == None
    ensures i + CacheLimit >= |entries| ==>
      Lookup(InsertAll([], entries), KeyOf(entries[i])) == Some(entries[i].result)
  {
    var c := InsertAll([], entries);
    WindowFromEmpty(entries);
    WindowLookup(entries, c, i);
  }

  /** The same, for any window `c` holding the last (at most) 50 entries. */
  lemma WindowLookup(entries: seq<CacheEntry>, c: seq<CacheEntry>, i: nat)
    requires i < |entries|
    requires forall j :: 0 <= j < |entries| && j != i ==> !Matches(entries[j], KeyOf(entries[i]))
    requires |c| == (if |entries| < CacheLimit then |entries| else CacheLimit)
    requires c == entries[|entries| - |c|..]
    ensures i + CacheLimit < |entries| ==> Lookup(c, KeyOf(entries[i])) == None
    ensures i + CacheLimit >= |entries| ==> Lookup(c, KeyOf(entries[i])) == Some(entries[i].result)
  {
    var r := KeyOf(entries[i]);
    MatchesIffSameKey(entries[i], r);
    SuffixLookup(entries, |entries| - |c|, i, r);
  }

  /** A request matching exactly entry `i` hits that entry in a suffix of
      the entries exactly when the suffix still holds it. */
  lemma SuffixLookup(entries: seq<CacheEntry>, d: nat, i: nat, r: Request)
    requires d <= |entries| && i < |entries| && Matches(entries[i], r)
    requires forall j :: 0 <= j < |entries| && j != i ==> !Matches(entries[j], r)
    ensures i < d ==> Lookup(entries[d..], r) == None
    ensures i >= d ==> Lookup(entries[d..], r) == Some(entries[i].result)
  {
    FindInSuffix(entries, d, i, r);
    if i >= d {
      LookupFound(entries[d..], r, i - d);
      assert entries[d..][i - d] == entries[i];
    }
  }

  /** A lookup returns the result of the entry `Find` locates. */
  lemma LookupFound(cache: seq<CacheEntry>, r: Request, k: nat)
    requires Find(cache, r) == Some(k)
    ensures k < |cache| && Lookup(cache, r) == Some(cache[k].result)
  {
  }

  /** Sixty distinct requests: the first ten miss, the last fifty hit. */
  lemma SixtyDistinctInserts(entries: seq<CacheEntry>)
    requires |entries| == 60 && Distinct(Keys(entries))
    ensures forall i :: 0 <= i < 10 ==> Lookup(InsertAll([], entries), KeyOf(entries[i])) == None
    ensures forall i :: 10 <= i < 60 ==>
      Lookup(InsertAll([], entries), KeyOf(entries[i])) == Some(entries[i].result)
  {
    forall i | 0 <= i < 60
      ensures i < 10 ==> Lookup(InsertAll([], entries), KeyOf(entries[i])) == None
      ensures i >= 10 ==> Lookup(InsertAll([], entries), KeyOf(entries[i])) == Some(entries[i].result)
    {
      DistinctInsertsWindow(entries, i);
    }
  }
}
