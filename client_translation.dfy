/** The browser side of translation (js/script.js:29-101): `translateMany` with its own cache of
    `es|text` keys, and the two callers that pack recipe text into one batch. */
module ClientTranslation {
  import opened Wrappers
  import opened Batch
  import opened Recipes

  /** The browser always asks for Spanish: its keys are `es|${t}`. */
  const Target: string := "es"

  /** What the `fetch` to the endpoint gives. `Thrown`: the request failed or timed out.
      `Answered(ts)`: the body was read; `ts` is its `translations` array, `None` when the field is
      missing or the body is not JSON; `null` entries are `None`. */
  datatype Reply = Thrown | Answered(translations: Option<seq<Option<string>>>)

  /** The entries of `trans = j?.translations || need` the write-back loop consumes, one per text
      sent. */
  function Answer(need: seq<string>, reply: Reply): (a: seq<Option<string>>)
    ensures |a| <= |need|
  {
    match reply
    case Thrown => []
    case Answered(None) => seq(|need|, k requires 0 <= k < |need| => Some(need[k]))
    case Answered(Some(ts)) => if |ts| <= |need| then ts else ts[..|need|]
  }

  /** `tr ?? need[k]` for each consumed entry: what the slot and the cache receive. */
  function Resolved(need: seq<string>, reply: Reply): (vals: seq<string>)
    ensures |vals| <= |need|
    ensures reply.Answered? && reply.translations.None? ==> vals == need
    ensures reply.Thrown? ==> vals == []
  {
    var a := Answer(need, reply);
    seq(|a|, k requires 0 <= k < |a| => a[k].GetOr(need[k]))
  }

  /** The cache after the first `k` writes `_tCache.set("es|" + need[j], vals[j])`. */
  function Stored(m: map<string, string>, need: seq<string>, vals: seq<string>, k: nat): map<string, string>
    requires k <= |vals| <= |need|
  {
    if k == 0 then m else Stored(m, need, vals, k - 1)[CacheKey(Target, need[k - 1]) := vals[k - 1]]
  }

  /** The texts `translateMany` sends: the misses, in order; nothing when it returns early. */
  function Requested(m: map<string, string>, on: bool, texts: seq<string>): seq<string> {
    if !on || texts == [] then [] else Select(texts, MissFlags(m, Target, texts))
  }

  /** The client cache after `translateMany(texts)`. */
  function AfterBatch(m: map<string, string>, on: bool, texts: seq<string>, reply: Reply): map<string, string> {
    var need := Requested(m, on, texts);
    var vals := Resolved(need, reply);
    Stored(m, need, vals, |vals|)
  }

  /** Reference definition of `translateMany(texts)`'s result: the input when translation is off
      or the input is empty; otherwise a hit comes from the cache, a miss of rank `r` gets the
      `r`-th resolved value, and any miss without one (a failed request, a short or empty
      answer) keeps its original text. */
  function Translated(m: map<string, string>, on: bool, texts: seq<string>, reply: Reply): (out: seq<string>)
    ensures |out| == |texts|
  {
    if !on || texts == [] then texts
    else
      var flags := MissFlags(m, Target, texts);
      var vals := Resolved(Select(texts, flags), reply);
      seq(|texts|, i requires 0 <= i < |texts| =>
            if !flags[i] then m[CacheKey(Target, texts[i])]
            else if Rank(flags, i) < |vals| then vals[Rank(flags, i)]
            else texts[i])
  }

  /** `_tCache.has(key) ? _tCache.get(key) : empty slot`. */
  function Lookup(m: map<string, string>, t: string): (c: Option<string>)
    ensures c.Some? <==> CacheKey(Target, t) in m
  {
    if CacheKey(Target, t) in m then Some(m[CacheKey(Target, t)]) else None
  }

  /** The slots of `out` after the partition loop: the cached translation of each hit. */
  function Slots(m: map<string, string>, texts: seq<string>): (slots: seq<Option<string>>)
    ensures |slots| == |texts|
    ensures forall i :: 0 <= i < |texts| ==> slots[i] == Lookup(m, texts[i])
  {
    seq(|texts|, i requires 0 <= i < |texts| => Lookup(m, texts[i]))
  }

  lemma SlotsStep(m: map<string, string>, texts: seq<string>, i: nat)
    requires i < |texts|
    ensures Slots(m, texts[..i + 1]) == Slots(m, texts[..i]) + [Lookup(m, texts[i])]
  {
    assert texts[..i + 1][..i] == texts[..i];
  }

  /** The slots of `out` once the partition loop, the write-back (or, after a failed request,
      the restore loop) have run, before the final merge. */
  function Merged(m: map<string, string>, texts: seq<string>, reply: Reply): (slots: seq<Option<string>>)
    ensures |slots| == |texts|
  {
    var flags := MissFlags(m, Target, texts);
    var need := Select(texts, flags);
    var vals := if reply.Thrown? then need else Resolved(need, reply);
    Fill(Slots(m, texts), Positions(flags), vals, |vals|)
  }

  /** Merging the slots with the originals gives the reference result. */
  lemma MergedIsTranslated(m: map<string, string>, texts: seq<string>, reply: Reply)
    requires texts != []
    ensures forall i :: 0 <= i < |texts| ==> Merged(m, texts, reply)[i].GetOr(texts[i]) == Translated(m, true, texts, reply)[i]
  {
    var flags := MissFlags(m, Target, texts);
    var need := Select(texts, flags);
    var vals := if reply.Thrown? then need else Resolved(need, reply);
    var slots0 := Slots(m, texts);
    FillByRank(texts, flags, slots0, vals, |vals|);
    forall i | 0 <= i < |texts| && flags[i]
      ensures Rank(flags, i) < |need| && need[Rank(flags, i)] == texts[i]
    {
      SelectAtRank(texts, flags, i);
    }
  }

  /** The module-level `_tCache`. */
  class TranslationCache {
    var entries: map<string, string>

    constructor()
      ensures entries == map[]
    {
      entries := map[];
    }

    /** Lines 42-46: hits fill their slot, misses go to `need` and `idx`. */
    method Split(texts: seq<string>) returns (out: seq<Option<string>>, need: seq<string>, idx: seq<nat>)
      ensures out == Slots(entries, texts)
      ensures need == Select(texts, MissFlags(entries, Target, texts))
      ensures idx == Positions(MissFlags(entries, Target, texts))
    {
      ghost var flags := MissFlags(entries, Target, texts);
      out, need, idx := [], [], [];
      var i := 0;
      while i < |texts|
        invariant 0 <= i <= |texts|
        invariant out == Slots(entries, texts[..i])
        invariant need == Select(texts[..i], flags[..i])
        invariant idx == Positions(flags[..i])
      {
        SlotsStep(entries, texts, i);
        SelectStep(texts, flags, i);
        PositionsStep(flags, i);
        var key := CacheKey(Target, texts[i]);
        if key in entries {
          out := out + [Some(entries[key])];
        } else {
          out := out + [None];
          need := need + [texts[i]];
          idx := idx + [i];
        }
        i := i + 1;
      }
      assert texts[..i] == texts && flags[..i] == flags;
    }

    /** Lines 64-69: write each resolved value into its slot and into the cache. */
    method Store(need: seq<string>, idx: seq<nat>, vals: seq<string>, out0: seq<Option<string>>)
      returns (out: seq<Option<string>>)
      requires |vals| <= |need| && forall j :: 0 <= j < |idx| ==> idx[j] < |out0|
      modifies this
      ensures entries == Stored(old(entries), need, vals, |vals|)
      ensures out == Fill(out0, idx, vals, |vals|)
    {
      ghost var m0 := entries;
      out := out0;
      var k := 0;
      while k < |vals|
        invariant 0 <= k <= |vals|
        invariant entries == Stored(m0, need, vals, k)
        invariant out == Fill(out0, idx, vals, k)
      {
        FillStep(out0, idx, vals, k);
        if k < |idx| {
          out := out[idx[k] := Some(vals[k])];
        }
        entries := entries[CacheKey(Target, need[k]) := vals[k]];
        k := k + 1;
      }
    }

    /** Lines 50-75: send the misses and take in the reply. */
    method Exchange(need: seq<string>, idx: seq<nat>, reply: Reply, slots0: seq<Option<string>>)
      returns (slots: seq<Option<string>>)
      requires forall j :: 0 <= j < |idx| ==> idx[j] < |slots0|
      modifies this
      ensures reply.Thrown? ==> entries == old(entries) && slots == Fill(slots0, idx, need, |need|)
      ensures reply.Answered? ==>
                entries == Stored(old(entries), need, Resolved(need, reply), |Resolved(need, reply)|) &&
                slots == Fill(slots0, idx, Resolved(need, reply), |Resolved(need, reply)|)
    {
      match reply
      case Thrown =>
        slots := Restore(need, idx, slots0);
      case Answered(ts) =>
        var trans := if ts.Some? then ts.value else seq(|need|, k requires 0 <= k < |need| => Some(need[k]));
        var n := if |trans| <= |need| then |trans| else |need|;
        var vals := seq(n, k requires 0 <= k < n => trans[k].GetOr(need[k]));
        assert vals == Resolved(need, reply);
        slots := Store(need, idx, vals, slots0);
    }
  }

  /** Line 74: after a failed request every miss gets its original text. */
  method Restore(need: seq<string>, idx: seq<nat>, out0: seq<Option<string>>) returns (out: seq<Option<string>>)
    requires forall j :: 0 <= j < |idx| ==> idx[j] < |out0|
    ensures out == Fill(out0, idx, need, |need|)
  {
    out := out0;
    var k := 0;
    while k < |need|
      invariant 0 <= k <= |need|
      invariant out == Fill(out0, idx, need, k)
    {
      FillStep(out0, idx, need, k);
      if k < |idx| {
        out := out[idx[k] := Some(need[k])];
      }
      k := k + 1;
    }
  }

  /** Line 78: every slot still empty gets its original text. */
  method Complete(slots: seq<Option<string>>, texts: seq<string>) returns (out: seq<string>)
    requires |slots| == |texts|
    ensures |out| == |texts|
    ensures forall i :: 0 <= i < |texts| ==> out[i] == slots[i].GetOr(texts[i])
  {
    out := [];
    var i := 0;
    while i < |texts|
      invariant 0 <= i <= |texts| && |out| == i
      invariant forall j :: 0 <= j < i ==> out[j] == slots[j].GetOr(texts[j])
    {
      out := out + [slots[i].GetOr(texts[i])];
      i := i + 1;
    }
  }

  /** `translateMany(texts)`, with `on` for `shouldTranslate()` and `reply` for the request's
      outcome (used only when something is sent). */
  method TranslateMany(cache: TranslationCache, on: bool, texts: seq<string>, reply: Reply)
    returns (out: seq<string>)
    modifies cache
    ensures out == Translated(old(cache.entries), on, texts, reply)
    ensures cache.entries == AfterBatch(old(cache.entries), on, texts, reply)
  {
    if !on || |texts| == 0 {
      return texts;
    }
    ghost var m0 := cache.entries;
    var slots, need, idx := cache.Split(texts);
    ghost var vals := if reply.Thrown? then need else Resolved(need, reply);
    if |need| > 0 {
      slots := cache.Exchange(need, idx, reply, slots);
    } else {
      assert |vals| == 0;
    }
    assert slots == Merged(m0, texts, reply);
    out := Complete(slots, texts);
    MergedIsTranslated(m0, texts, reply);
  }

  // ================================================================ properties of translateMany

  /** Line 36: with translation off, or nothing to translate, the input comes back as it is and
      nothing is cached. */
  lemma OffOrEmptyUnchanged(m: map<string, string>, on: bool, texts: seq<string>, reply: Reply)
    requires !on || texts == []
    ensures Translated(m, on, texts, reply) == texts
    ensures AfterBatch(m, on, texts, reply) == m
  {
  }

  /** Whatever happens, a miss without a translation keeps its text: after a failed request every
      item is either a cache hit or its original. */
  lemma ThrownKeepsOriginals(m: map<string, string>, texts: seq<string>, i: nat)
    requires i < |texts|
    ensures CacheKey(Target, texts[i]) !in m ==> Translated(m, true, texts, Thrown)[i] == texts[i]
    ensures CacheKey(Target, texts[i]) in m ==> Translated(m, true, texts, Thrown)[i] == m[CacheKey(Target, texts[i])]
  {
  }

  /** A hit is answered from the cache, whatever the reply says. */
  lemma HitsComeFromCache(m: map<string, string>, texts: seq<string>, reply: Reply, i: nat)
    requires i < |texts| && CacheKey(Target, texts[i]) in m
    ensures Translated(m, true, texts, reply)[i] == m[CacheKey(Target, texts[i])]
    ensures texts[i] !in Requested(m, true, texts)
  {
    var flags := MissFlags(m, Target, texts);
    forall t | t in Requested(m, true, texts)
      ensures t != texts[i]
    {
      SelectMember(texts, flags, t);
    }
  }

  /** When every item hits, nothing is sent, and the reply can change neither the result nor the
      cache. */
  lemma AllHitsIgnoreReply(m: map<string, string>, texts: seq<string>, r1: Reply, r2: Reply)
    requires Requested(m, true, texts) == []
    ensures Translated(m, true, texts, r1) == Translated(m, true, texts, r2)
    ensures AfterBatch(m, true, texts, r1) == m && AfterBatch(m, true, texts, r2) == m
  {
    var flags := MissFlags(m, Target, texts);
    forall i | 0 <= i < |texts| && flags[i]
      ensures false
    {
      if texts != [] {
        RankBound(flags, i);
      }
    }
  }

  /** Stored values are only ever added: every key of the old cache is still there. */
  lemma {:induction false} StoredKeeps(m: map<string, string>, need: seq<string>, vals: seq<string>, k: nat, key: string)
    requires k <= |vals| <= |need| && key in m
    ensures key in Stored(m, need, vals, k)
  {
    if k > 0 {
      StoredKeeps(m, need, vals, k - 1, key);
    }
  }

  /** Every text written back is in the cache afterwards. */
  lemma {:induction false} StoredHas(m: map<string, string>, need: seq<string>, vals: seq<string>, k: nat, j: nat)
    requires k <= |vals| <= |need| && j < k
    ensures CacheKey(Target, need[j]) in Stored(m, need, vals, k)
  {
    if j < k - 1 {
      StoredHas(m, need, vals, k - 1, j);
    }
  }

  /** The cache keeps, for each text sent, the value of its last write-back: the value placed in
      that text's slot unless the same text was sent again later in the batch. */
  lemma {:induction false} StoredLast(m: map<string, string>, need: seq<string>, vals: seq<string>, k: nat, j: nat)
    requires k <= |vals| <= |need| && j < k
    requires forall l :: j < l < k ==> need[l] != need[j]
    ensures CacheKey(Target, need[j]) in Stored(m, need, vals, k)
    ensures Stored(m, need, vals, k)[CacheKey(Target, need[j])] == vals[j]
  {
    if j < k - 1 {
      CacheKeySameTarget(Target, need[k - 1], need[j]);
      StoredLast(m, need, vals, k - 1, j);
    }
  }

  /** After an answer that covers every text sent, the same batch is a complete hit: nothing is
      sent the second time. */
  lemma RepeatIsAllHits(m: map<string, string>, texts: seq<string>, reply: Reply)
    requires texts != []
    requires |Resolved(Requested(m, true, texts), reply)| == |Requested(m, true, texts)|
    ensures Requested(AfterBatch(m, true, texts, reply), true, texts) == []
  {
    var flags := MissFlags(m, Target, texts);
    var need := Requested(m, true, texts);
    var vals := Resolved(need, reply);
    var after := AfterBatch(m, true, texts, reply);
    forall i | 0 <= i < |texts|
      ensures CacheKey(Target, texts[i]) in after
    {
      if flags[i] {
        SelectAtRank(texts, flags, i);
        StoredHas(m, need, vals, |vals|, Rank(flags, i));
      } else {
        StoredKeeps(m, need, vals, |vals|, CacheKey(Target, texts[i]));
      }
    }
    var flags2 := MissFlags(after, Target, texts);
    assert forall i :: 0 <= i < |flags2| ==> !flags2[i];
    CountTrueNone(flags2);
  }

  /** With no translation coming back (a failed request, or a body without `translations`) and a
      cache that maps every text to itself, `translateMany` is the identity. */
  lemma EchoIsIdentity(m: map<string, string>, on: bool, texts: seq<string>, reply: Reply)
    requires reply == Thrown || reply == Answered(None)
    requires forall i :: 0 <= i < |texts| && CacheKey(Target, texts[i]) in m ==> m[CacheKey(Target, texts[i])] == texts[i]
    ensures Translated(m, on, texts, reply) == texts
  {
    if on && texts != [] {
      var flags := MissFlags(m, Target, texts);
      var out := Translated(m, on, texts, reply);
      forall i | 0 <= i < |texts|
        ensures out[i] == texts[i]
      {
        if flags[i] && reply.Answered? {
          SelectAtRank(texts, flags, i);
        }
      }
    }
  }

  // ================================================================ translateRecipe, translateTitles

  /** `[title, ...ings, ...pasos]`. */
  function Pack(r: Recipe): (p: seq<string>)
    ensures |p| == 1 + |r.ingredientes| + |r.pasos|
  {
    [Title(r)] + r.ingredientes + r.pasos
  }

  /** `{...r, titulo: tr[0], ingredientes: tr.slice(1, 1 + ings.length), pasos: tr.slice(1 + ings.length)}`,
      for a `tr` as long as the pack, which `translateMany` guarantees. */
  function Unpack(r: Recipe, tr: seq<string>): (t: Recipe)
    requires |tr| == |Pack(r)|
    ensures |t.ingredientes| == |r.ingredientes| && |t.pasos| == |r.pasos|
    ensures t.id == r.id && t.categoria == r.categoria && t.fav == r.fav
    ensures Pack(t) == tr
  {
    var n := 1 + |r.ingredientes|;
    var t := r.(titulo := Some(tr[0]), ingredientes := tr[1..n], pasos := tr[n..]);
    assert [tr[0]] + tr[1..n] + tr[n..] == tr;
    t
  }

  /** Unpacking an untranslated pack gives the recipe back (with a missing title made `""`). */
  lemma UnpackPack(r: Recipe)
    ensures Unpack(r, Pack(r)) == r.(titulo := Some(Title(r)))
  {
    var p := Pack(r);
    var n := 1 + |r.ingredientes|;
    assert p[1..n] == r.ingredientes && p[n..] == r.pasos;
  }

  /** `translateRecipe(r)`. */
  method TranslateRecipe(cache: TranslationCache, on: bool, r: Recipe, reply: Reply) returns (t: Recipe)
    modifies cache
    ensures t == Unpack(r, Translated(old(cache.entries), on, Pack(r), reply))
    ensures cache.entries == AfterBatch(old(cache.entries), on, Pack(r), reply)
  {
    var tr := TranslateMany(cache, on, Pack(r), reply);
    var n := 1 + |r.ingredientes|;
    t := r.(titulo := Some(tr[0]), ingredientes := tr[1..n], pasos := tr[n..]);
  }

  /** With no translation coming back and a cache that maps every text to itself, a recipe comes
      back from `translateRecipe` unchanged. */
  lemma TranslateRecipeEcho(m: map<string, string>, on: bool, r: Recipe, reply: Reply)
    requires reply == Thrown || reply == Answered(None)
    requires forall t :: CacheKey(Target, t) in m ==> m[CacheKey(Target, t)] == t
    ensures Unpack(r, Translated(m, on, Pack(r), reply)) == r.(titulo := Some(Title(r)))
  {
    EchoIsIdentity(m, on, Pack(r), reply);
    UnpackPack(r);
  }

  /** `recipes.map(r => r.titulo || "")`. */
  function Titles(recipes: seq<Recipe>): (ts: seq<string>)
    ensures |ts| == |recipes|
  {
    seq(|recipes|, i requires 0 <= i < |recipes| => Title(recipes[i]))
  }

  /** `recipes.map((r, i) => ({...r, titulo: tt[i]}))`: only the titles change. */
  function Retitled(recipes: seq<Recipe>, tt: seq<string>): (rs: seq<Recipe>)
    requires |tt| == |recipes|
    ensures |rs| == |recipes| && Titles(rs) == tt
    ensures forall i :: 0 <= i < |rs| ==> rs[i].(titulo := recipes[i].titulo) == recipes[i]
  {
    seq(|recipes|, i requires 0 <= i < |recipes| => recipes[i].(titulo := Some(tt[i])))
  }

  /** `translateTitles(recipes)`. */
  method TranslateTitles(cache: TranslationCache, on: bool, recipes: seq<Recipe>, reply: Reply)
    returns (rs: seq<Recipe>)
    modifies cache
    ensures rs == Retitled(recipes, Translated(old(cache.entries), on, Titles(recipes), reply))
    ensures cache.entries == AfterBatch(old(cache.entries), on, Titles(recipes), reply)
  {
    var titles := seq(|recipes|, i requires 0 <= i < |recipes| => Title(recipes[i]));
    var tt := titles;
    if on && |titles| > 0 {
      tt := TranslateMany(cache, on, titles, reply);
    }
    rs := seq(|recipes|, i requires 0 <= i < |recipes| => recipes[i].(titulo := Some(tt[i])));
  }
}
