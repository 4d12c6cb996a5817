/** The translation endpoint (api/translate.js): a bounded insertion-ordered cache, the split of a
    request into cache hits and texts to translate, DeepL with LibreTranslate as fallback, and
    the write-back of provider output into the response and the cache. */
module TranslateApi {
  import opened Wrappers
  import opened Batch

  // ================================================================ cache keys

  /** Capacity of the process-wide cache (`CACHE_MAX`). */
  const CacheMax: nat := 2000

  // ================================================================ bounded cache

  /** The JavaScript `Map` behind the cache: its keys in insertion order and its entries. */
  datatype CacheState = CacheState(order: seq<string>, entries: map<string, string>)

  ghost predicate NoDup(s: seq<string>) {
    forall i, j :: 0 <= i < j < |s| ==> s[i] != s[j]
  }

  /** `order` lists every key of `entries` exactly once. */
  ghost predicate WellFormed(st: CacheState) {
    NoDup(st.order) && (forall k :: k in st.entries <==> k in st.order) && |st.order| == |st.entries|
  }

  /** At most `CacheMax` entries; the empty key, on which eviction is skipped, is absent. */
  ghost predicate Bounded(st: CacheState) {
    |st.entries| <= CacheMax && "" !in st.entries
  }

  lemma RemoveCard(m: map<string, string>, k: string)
    requires k in m
    ensures |m - {k}| == |m| - 1
  {
    assert (m - {k}).Keys == m.Keys - {k};
  }

  lemma TailMembers(order: seq<string>)
    requires NoDup(order) && |order| > 0
    ensures forall k :: k in order[1..] <==> k in order && k != order[0]
  {
    forall k | k in order && k != order[0]
      ensures k in order[1..]
    {
      var i :| 0 <= i < |order| && order[i] == k;
      assert order[1..][i - 1] == k;
    }
  }

  /** Lines 7-11: when full, the first key in insertion order is deleted, unless it is falsy. */
  function EvictOldest(st: CacheState): (r: CacheState)
    ensures |st.entries| < CacheMax ==> r == st
  {
    if |st.entries| >= CacheMax && |st.order| > 0 && st.order[0] != "" then
      CacheState(st.order[1..], st.entries - {st.order[0]})
    else
      st
  }

  /** `cacheSet(key, value)`: evict when full, then `Map.set` (an existing key keeps its place in
      the insertion order, a new key goes last). Afterwards the key holds the new value. */
  function Put(st: CacheState, key: string, value: string): (r: CacheState)
    ensures key in r.entries && r.entries[key] == value
  {
    var e := EvictOldest(st);
    if key in e.entries then
      CacheState(e.order, e.entries[key := value])
    else
      CacheState(e.order + [key], e.entries[key := value])
  }

  lemma NoDupTail(s: seq<string>)
    requires NoDup(s) && |s| > 0
    ensures NoDup(s[1..])
  {
    forall i, j | 0 <= i < j < |s| - 1
      ensures s[1..][i] != s[1..][j]
    {
      assert s[1..][i] == s[i + 1] && s[1..][j] == s[j + 1];
    }
  }

  lemma NoDupAppend(s: seq<string>, x: string)
    requires NoDup(s) && x !in s
    ensures NoDup(s + [x])
  {
    forall i, j | 0 <= i < j < |s| + 1
      ensures (s + [x])[i] != (s + [x])[j]
    {
      assert (s + [x])[i] == s[i];
    }
  }

  lemma EvictWellFormed(st: CacheState)
    requires WellFormed(st)
    ensures WellFormed(EvictOldest(st))
  {
    if |st.entries| >= CacheMax && |st.order| > 0 && st.order[0] != "" {
      var o := st.order;
      var m := st.entries - {o[0]};
      TailMembers(o);
      NoDupTail(o);
      RemoveCard(st.entries, o[0]);
      assert forall k :: k in m <==> k in st.entries && k != o[0];
      assert EvictOldest(st) == CacheState(o[1..], m);
    }
  }

  /** `cacheSet` keeps the order and the map in step. */
  lemma PutWellFormed(st: CacheState, key: string, value: string)
    requires WellFormed(st)
    ensures WellFormed(Put(st, key, value))
  {
    var e := EvictOldest(st);
    EvictWellFormed(st);
    var m := e.entries[key := value];
    if key in e.entries {
      assert m.Keys == e.entries.Keys;
      assert Put(st, key, value) == CacheState(e.order, m);
    } else {
      NoDupAppend(e.order, key);
      assert forall k :: k in m <==> k in e.order + [key];
      assert Put(st, key, value) == CacheState(e.order + [key], m);
    }
  }

  /** `cacheSet` keeps the bound when the key is not the empty string: a full cache evicts first. */
  lemma PutBounded(st: CacheState, key: string, value: string)
    requires WellFormed(st) && Bounded(st) && key != ""
    ensures Bounded(Put(st, key, value))
  {
    var e := EvictOldest(st);
    if |st.entries| >= CacheMax {
      assert st.order[0] in st.entries;
      RemoveCard(st.entries, st.order[0]);
      assert |e.entries| == CacheMax - 1;
    }
  }

  /** `cacheSet` adds no other key and changes no other value. */
  lemma PutAddsNothingElse(st: CacheState, key: string, value: string)
    ensures forall k :: k in Put(st, key, value).entries && k != key ==>
              k in st.entries && Put(st, key, value).entries[k] == st.entries[k]
  {
  }

  /** Every other key survives, except the oldest key of a full cache. */
  lemma PutKeeps(st: CacheState, key: string, value: string, k: string)
    requires k in st.entries && k != key
    requires |st.entries| < CacheMax || st.order == [] || k != st.order[0]
    ensures k in Put(st, key, value).entries && Put(st, key, value).entries[k] == st.entries[k]
  {
  }

  /** Below capacity `cacheSet` is a plain `Map.set`. */
  lemma PutBelowCapacity(st: CacheState, key: string, value: string)
    requires |st.entries| < CacheMax
    ensures Put(st, key, value).entries == st.entries[key := value]
  {
  }

  /** A full cache loses its oldest key, unless that key is the empty string or the one written. */
  lemma PutEvictsOldest(st: CacheState, key: string, value: string)
    requires WellFormed(st) && |st.entries| >= CacheMax
    requires st.order[0] != "" && st.order[0] != key
    ensures st.order[0] !in Put(st, key, value).entries
  {
  }

  /** Lines 7-11 with the empty string as oldest key: nothing is evicted and a full cache grows. */
  lemma EmptyOldestKeyOverflows(st: CacheState, key: string, value: string)
    requires WellFormed(st) && |st.entries| == CacheMax && st.order[0] == "" && key !in st.entries
    ensures |Put(st, key, value).entries| == CacheMax + 1
  {
  }

  /** Insertion order below capacity: an existing key keeps its place (it is not refreshed), a new
      key goes last. */
  lemma PutOrder(st: CacheState, key: string, value: string)
    requires WellFormed(st) && |st.entries| < CacheMax
    ensures key in st.entries ==> Put(st, key, value).order == st.order
    ensures key !in st.entries ==> Put(st, key, value).order == st.order + [key]
  {
  }

  /** The cache after a sequence of `cacheSet` calls, in order; the last write is visible. */
  function PutAll(st: CacheState, writes: seq<(string, string)>): (r: CacheState)
    ensures writes != [] ==>
              writes[|writes| - 1].0 in r.entries && r.entries[writes[|writes| - 1].0] == writes[|writes| - 1].1
    decreases |writes|
  {
    if writes == [] then st
    else
      var w := writes[|writes| - 1];
      Put(PutAll(st, writes[..|writes| - 1]), w.0, w.1)
  }

  lemma PutAllStep(st: CacheState, writes: seq<(string, string)>, k: nat)
    requires k < |writes|
    ensures PutAll(st, writes[..k + 1]) == Put(PutAll(st, writes[..k]), writes[k].0, writes[k].1)
  {
    assert writes[..k + 1][..k] == writes[..k];
  }

  /** A run of `cacheSet` calls keeps the state well formed, and keeps the bound when no key written
      is the empty string. */
  lemma {:induction false} PutAllWellFormed(st: CacheState, writes: seq<(string, string)>)
    requires WellFormed(st)
    ensures WellFormed(PutAll(st, writes))
    ensures Bounded(st) && (forall j :: 0 <= j < |writes| ==> writes[j].0 != "") ==> Bounded(PutAll(st, writes))
    decreases |writes|
  {
    if writes != [] {
      var n := |writes| - 1;
      PutAllWellFormed(st, writes[..n]);
      PutWellFormed(PutAll(st, writes[..n]), writes[n].0, writes[n].1);
      if Bounded(st) && (forall j :: 0 <= j < |writes| ==> writes[j].0 != "") {
        assert forall j :: 0 <= j < n ==> writes[..n][j] == writes[j];
        PutBounded(PutAll(st, writes[..n]), writes[n].0, writes[n].1);
      }
    }
  }

  /** Inserting an existing key does not refresh its age: with one free slot, rewriting the oldest
      key and then inserting two new keys evicts the key just rewritten. */
  lemma RewriteDoesNotRefresh(st: CacheState, k: string, x: string, y: string, v: string, vx: string, vy: string)
    requires WellFormed(st) && Bounded(st) && |st.entries| == CacheMax - 1
    requires st.order != [] && k == st.order[0]
    requires x != "" && y != "" && x != y && x !in st.entries && y !in st.entries
    ensures k !in PutAll(st, [(k, v), (x, vx), (y, vy)]).entries
  {
    var ws := [(k, v), (x, vx), (y, vy)];
    assert ws[..2][..1] == [(k, v)] && ws[..1] == [(k, v)] && ws[..2] == [(k, v), (x, vx)];
    assert [(k, v)][..0] == [];
    var s1 := Put(st, k, v);
    PutOrder(st, k, v);
    PutWellFormed(st, k, v);
    assert PutAll(st, ws[..1]) == s1;
    assert s1.order == st.order && |s1.entries| == CacheMax - 1;
    var s2 := Put(s1, x, vx);
    PutOrder(s1, x, vx);
    PutWellFormed(s1, x, vx);
    assert PutAll(st, ws[..2]) == s2;
    assert s2.order == st.order + [x] && s2.order[0] == k;
    assert k != "" && k != y;
    PutEvictsOldest(s2, y, vy);
  }

  class ResponseCache {
    var order: seq<string>
    var entries: map<string, string>

    function State(): CacheState
      reads this
    {
      CacheState(order, entries)
    }

    ghost predicate Valid()
      reads this
    {
      WellFormed(State()) && Bounded(State())
    }

    constructor ()
      ensures Valid() && order == [] && entries == map[]
    {
      order := [];
      entries := map[];
    }

    /** `cacheGet(key)`. */
    function Get(key: string): (r: Option<string>)
      reads this
      ensures r.Some? <==> key in entries
      ensures r.Some? ==> r.value == entries[key]
    {
      if key in entries then Some(entries[key]) else None
    }

    /** `cacheSet(key, value)`. */
    method Set(key: string, value: string)
      requires Valid() && key != ""
      modifies this
      ensures Valid()
      ensures State() == Put(old(State()), key, value)
    {
      PutWellFormed(State(), key, value);
      PutBounded(State(), key, value);
      if |entries| >= CacheMax {
        if |order| > 0 {
          var first := order[0];
          if first != "" {
            order := order[1..];
            entries := entries - {first};
          }
        }
      }
      if key !in entries {
        order := order + [key];
      }
      entries := entries[key := value];
    }
  }

  // ================================================================ providers

  /** One element of DeepL's `translations` array: `null`, or an object whose `text` may be absent. */
  datatype DeepLEntry = NullEntry | Entry(text: Option<string>)

  /** What the DeepL request produced: no response at all, or a status and the parsed
      `translations` field (absent also when the body was not JSON). */
  datatype DeepLReply = DeepLUnreachable | DeepLHttp(ok: bool, translations: Option<seq<DeepLEntry>>)

  predicate NoNullEntry(es: seq<DeepLEntry>) {
    forall k :: 0 <= k < |es| ==> es[k].Entry?
  }

  function EntriesOf(reply: DeepLReply): seq<DeepLEntry> {
    if reply.DeepLHttp? then reply.translations.GetOr([]) else []
  }

  /** `translateDeepL`: `None` when it throws. It throws when the key is missing (before any
      request), when the request fails, on a non-ok status, and on a `null` entry; otherwise it
      returns one string per returned entry, `""` where `text` is missing or empty. */
  function TranslateDeepL(apiKey: string, reply: DeepLReply): (r: Option<seq<string>>)
    ensures r.Some? <==>
              apiKey != "" && reply.DeepLHttp? && reply.ok && NoNullEntry(EntriesOf(reply))
    ensures r.Some? ==>
              |r.value| == |EntriesOf(reply)| &&
              forall k :: 0 <= k < |r.value| ==> r.value[k] == EntriesOf(reply)[k].text.GetOr("")
  {
    if apiKey == "" then None
    else
      match reply
      case DeepLUnreachable => None
      case DeepLHttp(ok, translations) =>
        var es := translations.GetOr([]);
        if !ok || !NoNullEntry(es) then None
        else Some(seq(|es|, k requires 0 <= k < |es| => es[k].text.GetOr("")))
  }

  /** What one LibreTranslate request produced: a thrown `fetch`, or the parsed body's
      `translatedText` (absent also for an error body or one that is not JSON). */
  datatype LibreReply = LibreUnreachable | LibreJson(translatedText: Option<string>)

  /** One step of `translateLibre`: the translation, or the original text `q`. */
  function LibreItem(q: string, reply: LibreReply): (r: string)
    ensures r == q || (reply.LibreJson? && reply.translatedText == Some(r))
    ensures reply.LibreUnreachable? || reply.translatedText.None? ==> r == q
  {
    match reply
    case LibreJson(Some(t)) => t
    case _ => q
  }

  /** `translateLibre`: one request per text, `replies(k)` answering the `k`-th; never throws,
      never shortens the batch. */
  method TranslateLibre(texts: seq<string>, replies: nat -> LibreReply) returns (out: seq<string>)
    ensures |out| == |texts|
    ensures forall k :: 0 <= k < |texts| ==> out[k] == LibreItem(texts[k], replies(k))
  {
    out := [];
    var k := 0;
    while k < |texts|
      invariant 0 <= k <= |texts|
      invariant |out| == k
      invariant forall j :: 0 <= j < k ==> out[j] == LibreItem(texts[j], replies(j))
    {
      out := out + [LibreItem(texts[k], replies(k))];
      k := k + 1;
    }
  }

  /** Which provider served a batch and what it returned. */
  datatype Provided = Provided(provider: string, translated: seq<string>)

  /** Lines 40-48: DeepL is always tried first; LibreTranslate is tried exactly when DeepL throws. */
  function Providers(need: seq<string>, apiKey: string, deepl: DeepLReply, libre: nat -> LibreReply): (p: Provided)
    ensures p.provider == "deepl" || p.provider == "libre"
    ensures p.provider == "deepl" <==> TranslateDeepL(apiKey, deepl).Some?
    ensures p.provider == "deepl" ==> TranslateDeepL(apiKey, deepl) == Some(p.translated)
    ensures p.provider == "libre" ==>
              |p.translated| == |need| &&
              forall k :: 0 <= k < |need| ==> p.translated[k] == LibreItem(need[k], libre(k))
  {
    match TranslateDeepL(apiKey, deepl)
    case Some(t) => Provided("deepl", t)
    case None => Provided("libre", seq(|need|, k requires 0 <= k < |need| => LibreItem(need[k], libre(k))))
  }

  // ================================================================ request handling

  /** The fields of the parsed JSON body the handler reads. `texts` is `None` unless it is an array. */
  datatype Body = Body(texts: Option<seq<string>>, text: Option<string>, target: Option<string>)

  /** `body` is `None` when the request body is not valid JSON (`readBody` then yields `{}`). */
  datatype Request = Request(httpMethod: string, body: Option<Body>)

  datatype Response =
    | MethodNotAllowed
    | MissingTexts
    | Translated(provider: string, translations: seq<Option<string>>)

  /** The HTTP status of each answer (lines 17, 24 and 59). */
  function Status(r: Response): (code: int)
    ensures code == 405 <==> r.MethodNotAllowed?
    ensures code == 400 <==> r.MissingTexts?
    ensures code == 200 <==> r.Translated?
  {
    match r
    case MethodNotAllowed => 405
    case MissingTexts => 400
    case Translated(_, _) => 200
  }

  /** Line 21: a body that is not JSON reads as `{}`, with every field absent. */
  function BodyOf(req: Request): (b: Body)
    ensures req.body.Some? ==> b == req.body.value
    ensures req.body.None? ==> b.texts.None? && b.text.None? && b.target.None?
  {
    req.body.GetOr(Body(None, None, None))
  }

  /** Line 22: `texts` if it is an array, else `[text]` if `text` is non-empty, else nothing. */
  function Items(b: Body): (items: seq<string>)
    ensures b.texts.Some? ==> items == b.texts.value
    ensures b.texts.None? ==> |items| <= 1 && (items != [] <==> b.text.Some? && b.text.value != "")
    ensures b.texts.None? && items != [] ==> items[0] == b.text.value
  {
    if b.texts.Some? then b.texts.value
    else if b.text.Some? && b.text.value != "" then [b.text.value]
    else []
  }

  /** Line 21: `target` defaults to `"es"`. */
  function Target(b: Body): (target: string)
    ensures b.target.Some? ==> target == b.target.value
    ensures b.target.None? ==> target == "es"
  {
    b.target.GetOr("es")
  }

  /** The `cacheSet` calls of lines 51-55, one per provider output. An output beyond the texts
      asked for has no `need[k]`, so it is stored under the key of the text "undefined". */
  function Writes(target: string, need: seq<string>, translated: seq<string>): (ws: seq<(string, string)>)
    ensures |ws| == |translated|
  {
    seq(|translated|, k requires 0 <= k < |translated| =>
          (CacheKey(target, if k < |need| then need[k] else "undefined"), translated[k]))
  }

  /** Lines 28-36: every hit fills its slot from the cache, every miss goes to `need`/`idx`. */
  method Partition(cache: ResponseCache, target: string, items: seq<string>)
    returns (out: seq<Option<string>>, need: seq<string>, idx: seq<nat>)
    ensures |out| == |items|
    ensures forall i :: 0 <= i < |items| ==> out[i] == cache.Get(CacheKey(target, items[i]))
    ensures need == Select(items, MissFlags(cache.entries, target, items))
    ensures idx == Positions(MissFlags(cache.entries, target, items))
  {
    ghost var flags := MissFlags(cache.entries, target, items);
    out, need, idx := [], [], [];
    var i := 0;
    while i < |items|
      invariant 0 <= i <= |items| && |out| == i
      invariant forall j :: 0 <= j < i ==> out[j] == cache.Get(CacheKey(target, items[j]))
      invariant need == Select(items[..i], flags[..i])
      invariant idx == Positions(flags[..i])
    {
      SelectStep(items, flags, i);
      PositionsStep(flags, i);
      var c := cache.Get(CacheKey(target, items[i]));
      out := out + [c];
      if c.None? {
        need := need + [items[i]];
        idx := idx + [i];
      }
      i := i + 1;
    }
    assert items[..i] == items && flags[..i] == flags;
  }

  /** The cache after the first `k` iterations of the write-back loop. */
  function Replayed(st: CacheState, target: string, need: seq<string>, translated: seq<string>, k: nat): (r: CacheState)
    requires k <= |translated|
    ensures k > 0 ==> CacheKey(target, if k - 1 < |need| then need[k - 1] else "undefined") in r.entries
  {
    if k == 0 then st
    else Put(Replayed(st, target, need, translated, k - 1),
             CacheKey(target, if k - 1 < |need| then need[k - 1] else "undefined"), translated[k - 1])
  }

  /** The loop performs exactly the writes `Writes` lists, in order. */
  lemma {:induction false} ReplayedIsPutAll(st: CacheState, target: string, need: seq<string>, translated: seq<string>, k: nat)
    requires k <= |translated|
    ensures Replayed(st, target, need, translated, k) == PutAll(st, Writes(target, need, translated)[..k])
  {
    var ws := Writes(target, need, translated);
    if k == 0 {
      assert ws[..0] == [];
    } else {
      ReplayedIsPutAll(st, target, need, translated, k - 1);
      PutAllStep(st, ws, k - 1);
    }
  }

  /** Lines 51-55: provider output `k` fills slot `idx[k]` and is cached under `need[k]`'s key. */
  method WriteBack(cache: ResponseCache, target: string, need: seq<string>, idx: seq<nat>,
                   translated: seq<string>, out0: seq<Option<string>>)
    returns (out: seq<Option<string>>)
    requires cache.Valid() && forall j :: 0 <= j < |idx| ==> idx[j] < |out0|
    modifies cache
    ensures cache.Valid()
    ensures cache.State() == PutAll(old(cache.State()), Writes(target, need, translated))
    ensures out == Fill(out0, idx, translated, |translated|)
  {
    ghost var st0 := cache.State();
    ghost var ws := Writes(target, need, translated);
    out := out0;
    var k := 0;
    while k < |translated|
      invariant 0 <= k <= |translated|
      invariant cache.Valid()
      invariant cache.State() == Replayed(st0, target, need, translated, k)
      invariant out == Fill(out0, idx, translated, k)
    {
      FillStep(out0, idx, translated, k);
      var tr := translated[k];
      if k < |idx| {
        out := out[idx[k] := Some(tr)];
      }
      // past the end of `need`, the template literal renders the missing text as "undefined"
      var text := if k < |need| then need[k] else "undefined";
      cache.Set(CacheKey(target, text), tr);
      k := k + 1;
    }
    ReplayedIsPutAll(st0, target, need, translated, k);
    assert ws[..k] == ws;
  }

  /** Lines 38-50: DeepL first; when it yields nothing, LibreTranslate one text at a time. */
  method Translate(need: seq<string>, deeplKey: string, deepl: DeepLReply, libre: nat -> LibreReply)
    returns (p: Provided)
    ensures p == Providers(need, deeplKey, deepl, libre)
  {
    var fromDeepL := TranslateDeepL(deeplKey, deepl);
    if fromDeepL.Some? {
      p := Provided("deepl", fromDeepL.value);
    } else {
      var translated := TranslateLibre(need, libre);
      p := Provided("libre", translated);
    }
  }

  /** The outcome of a POST with a non-empty batch, from cache state `st0` to `st1`: one slot per
      item; hits come from the cache; if there are none to translate the provider is `"cache"` and
      nothing changes; otherwise the providers' output fills the missed slots by rank (a slot past
      the end of the output stays empty, a JSON `null`) and is written to the cache in order. */
  ghost predicate Served(st0: CacheState, st1: CacheState, target: string, items: seq<string>,
                         deeplKey: string, deepl: DeepLReply, libre: nat -> LibreReply, resp: Response)
  {
    var flags := MissFlags(st0.entries, target, items);
    var need := Select(items, flags);
    resp.Translated? && |resp.translations| == |items| &&
    (forall i :: 0 <= i < |items| && !flags[i] ==>
       resp.translations[i] == Some(st0.entries[CacheKey(target, items[i])])) &&
    (need == [] ==> resp.provider == "cache" && st1 == st0) &&
    (need != [] ==>
       var p := Providers(need, deeplKey, deepl, libre);
       resp.provider == p.provider &&
       (forall i :: 0 <= i < |items| && flags[i] ==>
          resp.translations[i] ==
            if Rank(flags, i) < |p.translated| then Some(p.translated[Rank(flags, i)]) else None) &&
       st1 == PutAll(st0, Writes(target, need, p.translated)))
  }

  /** Lines 24-57: look up every item, translate the misses, write them back and answer. */
  method Serve(cache: ResponseCache, target: string, items: seq<string>,
               deeplKey: string, deepl: DeepLReply, libre: nat -> LibreReply)
    returns (resp: Response)
    requires cache.Valid()
    modifies cache
    ensures cache.Valid()
    ensures Served(old(cache.State()), cache.State(), target, items, deeplKey, deepl, libre, resp)
  {
    ghost var flags := MissFlags(cache.entries, target, items);
    var out, need, idx := Partition(cache, target, items);
    ghost var out0 := out;
    if |need| > 0 {
      var p := Translate(need, deeplKey, deepl, libre);
      out := WriteBack(cache, target, need, idx, p.translated, out);
      FillByRank(items, flags, out0, p.translated, |p.translated|);
      resp := Translated(p.provider, out);
    } else {
      resp := Translated("cache", out);
    }
  }

  /** `handler`: 405 for any method but POST, 400 for an empty batch, otherwise 200 as `Served`
      describes. */
  method Handle(cache: ResponseCache, req: Request, deeplKey: string, deepl: DeepLReply, libre: nat -> LibreReply)
    returns (resp: Response)
    requires cache.Valid()
    modifies cache
    ensures cache.Valid()
    ensures Status(resp) == 405 <==> req.httpMethod != "POST"
    ensures Status(resp) == 400 <==> req.httpMethod == "POST" && Items(BodyOf(req)) == []
    ensures Status(resp) == 200 <==> req.httpMethod == "POST" && Items(BodyOf(req)) != []
    ensures req.httpMethod != "POST" ==> resp == MethodNotAllowed && cache.State() == old(cache.State())
    ensures req.httpMethod == "POST" && Items(BodyOf(req)) == [] ==>
              resp == MissingTexts && cache.State() == old(cache.State())
    ensures req.httpMethod == "POST" && Items(BodyOf(req)) != [] ==>
              Served(old(cache.State()), cache.State(), Target(BodyOf(req)), Items(BodyOf(req)),
                     deeplKey, deepl, libre, resp)
  {
    if req.httpMethod != "POST" {
      return MethodNotAllowed;
    }
    var body := BodyOf(req);
    var items := Items(body);
    if |items| == 0 {
      return MissingTexts;
    }
    resp := Serve(cache, Target(body), items, deeplKey, deepl, libre);
  }

  lemma {:induction false} PutAllSize(st: CacheState, ws: seq<(string, string)>)
    requires |st.entries| + |ws| <= CacheMax
    ensures |PutAll(st, ws).entries| <= |st.entries| + |ws|
    decreases |ws|
  {
    if ws != [] {
      var n := |ws| - 1;
      PutAllSize(st, ws[..n]);
      PutBelowCapacity(PutAll(st, ws[..n]), ws[n].0, ws[n].1);
    }
  }

  /** Below capacity nothing is evicted: a key present before is still present. */
  lemma {:induction false} PutAllRetains(st: CacheState, ws: seq<(string, string)>, key: string)
    requires |st.entries| + |ws| <= CacheMax && key in st.entries
    ensures key in PutAll(st, ws).entries
    decreases |ws|
  {
    if ws != [] {
      var n := |ws| - 1;
      PutAllRetains(st, ws[..n], key);
      PutAllSize(st, ws[..n]);
      PutBelowCapacity(PutAll(st, ws[..n]), ws[n].0, ws[n].1);
    }
  }

  /** Below capacity every written key is present afterwards. */
  lemma {:induction false} PutAllWritten(st: CacheState, ws: seq<(string, string)>, j: nat)
    requires |st.entries| + |ws| <= CacheMax && j < |ws|
    ensures ws[j].0 in PutAll(st, ws).entries
    decreases |ws|, 1
  {
    if j < |ws| - 1 {
      PutAllWrittenBefore(st, ws, j);
    } else {
      assert ws[j] == ws[|ws| - 1];
    }
  }

  /** A key written before the last write survives the last write. */
  lemma {:induction false} PutAllWrittenBefore(st: CacheState, ws: seq<(string, string)>, j: nat)
    requires |st.entries| + |ws| <= CacheMax && j < |ws| - 1
    ensures ws[j].0 in PutAll(st, ws).entries
    decreases |ws|, 0
  {
    var n := |ws| - 1;
    var init := ws[..n];
    var prev := PutAll(st, init);
    PutAllWritten(st, init, j);
    PutAllSize(st, init);
    PutBelowCapacity(prev, ws[n].0, ws[n].1);
    assert init[j] == ws[j];
    assert PutAll(st, ws) == Put(prev, ws[n].0, ws[n].1);
  }

  /** Once a batch has been translated and written back with room to spare, the same batch is a
      complete cache hit: the next identical request is answered with provider `"cache"`. */
  lemma RepeatIsAllHits(st: CacheState, target: string, items: seq<string>, translated: seq<string>)
    requires |translated| == |Select(items, MissFlags(st.entries, target, items))|
    requires |st.entries| + |translated| <= CacheMax
    ensures var after := PutAll(st, Writes(target, Select(items, MissFlags(st.entries, target, items)), translated));
      Select(items, MissFlags(after.entries, target, items)) == []
  {
    var flags := MissFlags(st.entries, target, items);
    var need := Select(items, flags);
    var ws := Writes(target, need, translated);
    var after := PutAll(st, ws);
    forall i | 0 <= i < |items|
      ensures CacheKey(target, items[i]) in after.entries
    {
      if flags[i] {
        SelectAtRank(items, flags, i);
        PutAllWritten(st, ws, Rank(flags, i));
        assert ws[Rank(flags, i)].0 == CacheKey(target, items[i]);
      } else {
        PutAllRetains(st, ws, CacheKey(target, items[i]));
      }
    }
    var flags2 := MissFlags(after.entries, target, items);
    assert forall i :: 0 <= i < |flags2| ==> !flags2[i];
    CountTrueNone(flags2);
  }
}
