/** Recipe records of the browser script and the list helpers over them: `dedupByTitle`
    (js/script.js:12-20), `cacheRecipes` (js/script.js:26) and the search boxes of the
    "Mis recetas" and "Favoritas" grids (js/script.js:497, 513-528). */
module Recipes {
  import opened Wrappers
  import opened Seqs
  import opened Text

  /** A recipe as the script reads it. A missing `titulo` is `None`; missing `ingredientes` or
      `pasos` are empty; a missing `fav` is `false`; a missing `categoria` is `""` (both are falsy
      in the `||` chains that read it). Other fields are carried along untouched by every
      operation here and are not represented. */
  datatype Recipe = Recipe(id: string, titulo: Option<string>, categoria: string,
                           ingredientes: seq<string>, pasos: seq<string>, fav: bool)

  /** `r.titulo || ""`. */
  function Title(r: Recipe): string {
    r.titulo.GetOr("")
  }

  /** `(r.titulo || "").toLowerCase()`: the key `dedupByTitle` compares. */
  function TitleKey(r: Recipe): string {
    Lower(Title(r))
  }

  /** The title keys occurring in `s`. */
  function TitleKeys(s: seq<Recipe>): (ks: set<string>)
    ensures forall i :: 0 <= i < |s| ==> TitleKey(s[i]) in ks
  {
    set r | r in s :: TitleKey(r)
  }

  lemma TitleKeysSnoc(s: seq<Recipe>, x: Recipe)
    ensures TitleKeys(s + [x]) == TitleKeys(s) + {TitleKey(x)}
  {
    assert forall r :: r in s + [x] <==> r in s || r == x;
  }

  // ================================================================ dedupByTitle

  /** Reference definition: a record is kept when no earlier record has its title key. */
  function Dedup(arr: seq<Recipe>): seq<Recipe>
    decreases |arr|
  {
    if arr == [] then []
    else
      var n := |arr| - 1;
      Dedup(arr[..n]) + (if TitleKey(arr[n]) in TitleKeys(arr[..n]) then [] else [arr[n]])
  }

  /** One more record: it is kept exactly when its key is new. */
  lemma DedupStep(arr: seq<Recipe>, i: nat)
    requires i < |arr|
    ensures Dedup(arr[..i + 1]) ==
            Dedup(arr[..i]) + (if TitleKey(arr[i]) in TitleKeys(arr[..i]) then [] else [arr[i]])
    ensures TitleKeys(arr[..i + 1]) == TitleKeys(arr[..i]) + {TitleKey(arr[i])}
  {
    assert arr[..i + 1][..i] == arr[..i];
    assert arr[..i + 1] == arr[..i] + [arr[i]];
    TitleKeysSnoc(arr[..i], arr[i]);
  }

  /** `dedupByTitle`: `filter` with a `Set` of the keys seen so far. */
  method DedupByTitle(arr: seq<Recipe>) returns (r: seq<Recipe>)
    ensures r == Dedup(arr)
  {
    var seen: set<string> := {};
    r := [];
    var i := 0;
    while i < |arr|
      invariant 0 <= i <= |arr|
      invariant seen == TitleKeys(arr[..i])
      invariant r == Dedup(arr[..i])
    {
      DedupStep(arr, i);
      var k := TitleKey(arr[i]);
      if k !in seen {
        seen := seen + {k};
        r := r + [arr[i]];
      }
      i := i + 1;
    }
    assert arr[..i] == arr;
  }

  /** The result keeps the input's order: it is a subsequence of the input. */
  lemma {:induction false} DedupSubsequence(arr: seq<Recipe>)
    ensures IsSubsequence(Dedup(arr), arr)
    decreases |arr|
  {
    if arr != [] {
      var n := |arr| - 1;
      var init := Dedup(arr[..n]);
      DedupSubsequence(arr[..n]);
      if TitleKey(arr[n]) !in TitleKeys(arr[..n]) {
        var r := init + [arr[n]];
        assert r == Dedup(arr) && r[..|r| - 1] == init && r[|r| - 1] == arr[n];
      } else {
        assert init == Dedup(arr);
      }
    }
  }

  /** Every title key of the input survives. */
  lemma {:induction false} DedupKeys(arr: seq<Recipe>)
    ensures TitleKeys(Dedup(arr)) == TitleKeys(arr)
    decreases |arr|
  {
    if arr != [] {
      var n := |arr| - 1;
      DedupKeys(arr[..n]);
      assert arr == arr[..n] + [arr[n]];
      TitleKeysSnoc(arr[..n], arr[n]);
      if TitleKey(arr[n]) !in TitleKeys(arr[..n]) {
        TitleKeysSnoc(Dedup(arr[..n]), arr[n]);
      }
    }
  }

  /** No two kept records share a title key. */
  lemma {:induction false} DedupDistinct(arr: seq<Recipe>)
    ensures forall i, j :: 0 <= i < j < |Dedup(arr)| ==> TitleKey(Dedup(arr)[i]) != TitleKey(Dedup(arr)[j])
    decreases |arr|
  {
    if arr != [] {
      var n := |arr| - 1;
      var init := Dedup(arr[..n]);
      DedupDistinct(arr[..n]);
      DedupKeys(arr[..n]);
      if TitleKey(arr[n]) !in TitleKeys(arr[..n]) {
        var r := init + [arr[n]];
        forall i, j | 0 <= i < j < |r|
          ensures TitleKey(r[i]) != TitleKey(r[j])
        {
          if j == |init| {
            assert r[i] == init[i];
          }
        }
      }
    }
  }

  /** The first record with a given title key is kept. */
  lemma {:induction false} DedupKeepsFirst(arr: seq<Recipe>, i: nat)
    requires i < |arr| && TitleKey(arr[i]) !in TitleKeys(arr[..i])
    ensures arr[i] in Dedup(arr)
    decreases |arr|
  {
    var n := |arr| - 1;
    if i < n {
      assert arr[..n][..i] == arr[..i] && arr[..n][i] == arr[i];
      DedupKeepsFirst(arr[..n], i);
    }
  }

  // ================================================================ cacheRecipes

  /** Position of the last record with this `id`, or -1. */
  function LastWithId(arr: seq<Recipe>, id: string): (k: int)
    ensures -1 <= k < |arr|
    ensures k >= 0 ==> arr[k].id == id && forall j :: k < j < |arr| ==> arr[j].id != id
    ensures k < 0 ==> forall j :: 0 <= j < |arr| ==> arr[j].id != id
    decreases |arr|
  {
    if arr == [] then -1
    else if arr[|arr| - 1].id == id then |arr| - 1
    else LastWithId(arr[..|arr| - 1], id)
  }

  /** The id map after `recipeCache.set(r.id, r)` for every record, in order, whose `id` is truthy. */
  function Cached(m: map<string, Recipe>, arr: seq<Recipe>): map<string, Recipe>
    decreases |arr|
  {
    if arr == [] then m
    else
      var n := |arr| - 1;
      var before := Cached(m, arr[..n]);
      if arr[n].id != "" then before[arr[n].id := arr[n]] else before
  }

  /** The last record with a non-empty id wins; ids absent from the batch keep their entry. */
  lemma {:induction false} CachedLookup(m: map<string, Recipe>, arr: seq<Recipe>, id: string)
    ensures id != "" && LastWithId(arr, id) >= 0 ==>
              id in Cached(m, arr) && Cached(m, arr)[id] == arr[LastWithId(arr, id)]
    ensures id == "" || LastWithId(arr, id) < 0 ==>
              (id in Cached(m, arr) <==> id in m) && (id in m ==> Cached(m, arr)[id] == m[id])
    decreases |arr|
  {
    if arr != [] {
      var n := |arr| - 1;
      CachedLookup(m, arr[..n], id);
    }
  }

  /** The process-wide `recipeCache` map from id to the last record seen with it. */
  class RecipeCache {
    var byId: map<string, Recipe>

    constructor()
      ensures byId == map[]
    {
      byId := map[];
    }

    /** `cacheRecipes(arr)`. */
    method CacheRecipes(arr: seq<Recipe>)
      modifies this
      ensures byId == Cached(old(byId), arr)
    {
      var i := 0;
      ghost var m0 := byId;
      while i < |arr|
        invariant 0 <= i <= |arr|
        invariant byId == Cached(m0, arr[..i])
      {
        assert arr[..i + 1][..i] == arr[..i];
        var r := arr[i];
        if r.id != "" {
          byId := byId[r.id := r];
        }
        i := i + 1;
      }
      assert arr[..i] == arr;
    }
  }

  // ================================================================ search boxes

  /** What the search box hands to the grid: `e.target.value.trim().toLowerCase()`. */
  function FilterText(v: string): (f: string)
    ensures |f| <= |v|
    ensures f == "" <==> AllSpace(v)
  {
    Lower(Trim(v))
  }

  /** The title, lower-cased, or the ingredients joined with `,`, lower-cased, contain `f`. */
  predicate Matches(r: Recipe, f: string)
    ensures f == "" ==> Matches(r, f)
  {
    Contains(Lower(Title(r)), f) || Contains(Lower(Join(r.ingredientes, ",")), f)
  }

  function MatchesText(f: string): Recipe -> bool {
    (r: Recipe) => Matches(r, f)
  }

  function IsFavorite(r: Recipe): bool {
    r.fav
  }

  /** The grid's list for filter text `f`: everything when `f` is empty, else the matching records. */
  function SearchRecipes(base: seq<Recipe>, f: string): (r: seq<Recipe>)
    ensures forall x :: x in r <==> x in base && (f == "" || Matches(x, f))
    ensures IsSubsequence(r, base)
  {
    if f == "" then
      SubsequenceRefl(base);
      base
    else
      FilterMember(base, MatchesText(f));
      FilterSubsequence(base, MatchesText(f));
      Filter(base, MatchesText(f))
  }

  /** "Mis recetas": the saved list sorted newest first, filtered by the search text. The sort by
      `createdAt` is not modelled: `byDate` is its result, some ordering of `saved`. */
  function MisRecetas(saved: seq<Recipe>, byDate: seq<Recipe>, f: string): (r: seq<Recipe>)
    requires multiset(byDate) == multiset(saved)
    ensures forall x :: x in r <==> x in saved && (f == "" || Matches(x, f))
    ensures IsSubsequence(r, byDate)
  {
    assert forall x :: x in byDate <==> x in saved by {
      forall x
        ensures x in byDate <==> x in saved
      {
        assert x in byDate <==> x in multiset(byDate);
        assert x in saved <==> x in multiset(saved);
      }
    }
    SearchRecipes(byDate, f)
  }

  /** "Favoritas": the saved records with `fav` set, filtered by the search text. */
  function Favoritas(saved: seq<Recipe>, f: string): (r: seq<Recipe>)
    ensures forall x :: x in r <==> x in saved && x.fav && (f == "" || Matches(x, f))
    ensures IsSubsequence(r, saved)
  {
    var favs := Filter(saved, IsFavorite);
    FilterMember(saved, IsFavorite);
    FilterSubsequence(saved, IsFavorite);
    SubsequenceTrans(SearchRecipes(favs, f), favs, saved);
    SearchRecipes(favs, f)
  }
}
