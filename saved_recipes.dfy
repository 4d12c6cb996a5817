/** The saved-recipe list ("Mis recetas") and the forms that write into it: `upsertReceta`,
    `isSaved` (js/script.js:121-122), delete and the favourite toggle of the detail modal and of
    the cards (js/script.js:321-338, 585-602), the edit form (js/script.js:340-365) and the
    new-recipe form (js/script.js:531-563). The browser's storage is the `recetas` field. */
module SavedRecipes {
  import opened Wrappers
  import opened Seqs
  import opened Text
  import opened Html
  import opened Recipes

  // ================================================================ list operations

  /** `findIndex(x => x.id === id)`: the first position with this id, or -1. */
  function IndexOfId(s: seq<Recipe>, id: string): (i: int)
    ensures -1 <= i < |s|
    ensures i >= 0 ==> s[i].id == id && forall j :: 0 <= j < i ==> s[j].id != id
    ensures i < 0 ==> forall j :: 0 <= j < |s| ==> s[j].id != id
    decreases |s|
  {
    if s == [] then -1
    else if s[0].id == id then 0
    else
      var k := IndexOfId(s[1..], id);
      if k < 0 then -1 else k + 1
  }

  /** `some(r => r.id === id)`. */
  predicate Saved(s: seq<Recipe>, id: string) {
    exists j :: 0 <= j < |s| && s[j].id == id
  }

  lemma SavedIndex(s: seq<Recipe>, id: string)
    ensures Saved(s, id) <==> IndexOfId(s, id) >= 0
  {
  }

  /** `upsertReceta`: the first record with the same id is replaced, or the record is appended. */
  function Upserted(s: seq<Recipe>, r: Recipe): (t: seq<Recipe>)
    ensures r in t && |s| <= |t| <= |s| + 1
  {
    var i := IndexOfId(s, r.id);
    if i >= 0 then
      assert s[i := r][i] == r;
      s[i := r]
    else
      assert (s + [r])[|s|] == r;
      s + [r]
  }

  /** The test `x => x.id !== id`. */
  function OtherId(id: string): Recipe -> bool {
    (x: Recipe) => x.id != id
  }

  /** `filter(x => x.id !== id)`. */
  function WithoutId(s: seq<Recipe>, id: string): (t: seq<Recipe>)
    ensures forall x :: x in t <==> x in s && x.id != id
    ensures IsSubsequence(t, s)
    ensures !Saved(t, id)
  {
    FilterMember(s, OtherId(id));
    FilterSubsequence(s, OtherId(id));
    Filter(s, OtherId(id))
  }

  /** `rec.fav = !rec.fav` on the record `find` returns, if any. */
  function Toggled(s: seq<Recipe>, id: string): (t: seq<Recipe>)
    ensures |t| == |s| && forall j :: 0 <= j < |s| ==> t[j].id == s[j].id
  {
    var i := IndexOfId(s, id);
    if i >= 0 then s[i := s[i].(fav := !s[i].fav)] else s
  }

  /** After an upsert the record is saved, and looking its id up finds it. */
  lemma UpsertFinds(s: seq<Recipe>, r: Recipe)
    ensures Saved(Upserted(s, r), r.id)
    ensures Upserted(s, r)[IndexOfId(Upserted(s, r), r.id)] == r
  {
    var i := IndexOfId(s, r.id);
    var u := Upserted(s, r);
    if i >= 0 {
      assert IndexOfId(u, r.id) == i by {
        assert u[i].id == r.id && forall j :: 0 <= j < i ==> u[j] == s[j];
        IndexOfIdFirst(u, r.id, i);
      }
    } else {
      assert u[|s|] == r && forall j :: 0 <= j < |s| ==> u[j] == s[j];
      IndexOfIdFirst(u, r.id, |s|);
    }
  }

  /** `IndexOfId` is the first position carrying the id. */
  lemma IndexOfIdFirst(s: seq<Recipe>, id: string, i: nat)
    requires i < |s| && s[i].id == id && forall j :: 0 <= j < i ==> s[j].id != id
    ensures IndexOfId(s, id) == i
  {
  }

  /** An upsert replaces in place (same length and positions) or appends. */
  lemma UpsertShape(s: seq<Recipe>, r: Recipe)
    ensures Saved(s, r.id) ==>
              |Upserted(s, r)| == |s| &&
              (forall j :: 0 <= j < |s| && j != IndexOfId(s, r.id) ==> Upserted(s, r)[j] == s[j])
    ensures !Saved(s, r.id) ==> Upserted(s, r) == s + [r]
  {
  }

  /** Upserting the same record twice is the same as once. */
  lemma UpsertIdempotent(s: seq<Recipe>, r: Recipe)
    ensures Upserted(Upserted(s, r), r) == Upserted(s, r)
  {
    UpsertFinds(s, r);
  }

  /** An upsert touches no record of another id: deleting the id afterwards gives what deleting
      it before gives. */
  lemma UpsertThenDelete(s: seq<Recipe>, r: Recipe)
    ensures WithoutId(Upserted(s, r), r.id) == WithoutId(s, r.id)
  {
    var i := IndexOfId(s, r.id);
    if i >= 0 {
      FilterUpdate(s, OtherId(r.id), i, r);
    } else {
      FilterAppend(s, OtherId(r.id), r);
    }
  }

  /** The toggle flips `fav` of the first record with the id and changes nothing else. */
  lemma ToggleFlips(s: seq<Recipe>, id: string)
    ensures |Toggled(s, id)| == |s|
    ensures forall j :: 0 <= j < |s| && j != IndexOfId(s, id) ==> Toggled(s, id)[j] == s[j]
    ensures Saved(s, id) ==>
              var i := IndexOfId(s, id);
              Toggled(s, id)[i].fav == !s[i].fav && Toggled(s, id)[i].(fav := s[i].fav) == s[i]
  {
  }

  /** Toggling twice restores the list. */
  lemma ToggleTwice(s: seq<Recipe>, id: string)
    ensures Toggled(Toggled(s, id), id) == s
  {
    var i := IndexOfId(s, id);
    if i >= 0 {
      var t := Toggled(s, id);
      assert forall j :: 0 <= j < i ==> t[j] == s[j];
      IndexOfIdFirst(t, id, i);
    }
  }

  // ================================================================ forms

  /** The new-recipe form: title, category, comma-separated ingredients and steps. `splitSteps`
      stands for `split(/\n+|\. +(?!\d)/)`, which is not modelled. A blank title is refused. */
  function NewRecipe(id: string, tituloRaw: string, catRaw: string, ingRaw: string, pasosRaw: string,
                     splitSteps: string -> seq<string>): (r: Option<Recipe>)
    ensures r.None? <==> AllSpace(tituloRaw)
    ensures r.Some? ==>
              r.value.id == id && r.value.titulo == Some(Trim(tituloRaw)) && !r.value.fav &&
              r.value.categoria == (if Lower(Trim(catRaw)) == "" then "general" else Lower(Trim(catRaw))) &&
              r.value.ingredientes == ParseCommaList(ingRaw) &&
              r.value.pasos == (if AllSpace(pasosRaw) then [] else Clean(splitSteps(Trim(pasosRaw))))
    ensures r.Some? ==>
              r.value.categoria != "" &&
              (forall k :: 0 <= k < |r.value.ingredientes| ==>
                 r.value.ingredientes[k] != "" && Trimmed(r.value.ingredientes[k]) && ',' !in r.value.ingredientes[k]) &&
              (forall k :: 0 <= k < |r.value.pasos| ==> r.value.pasos[k] != "" && Trimmed(r.value.pasos[k]))
  {
    var titulo := Trim(tituloRaw);
    var cat := Lower(Trim(catRaw));
    var ing := Trim(ingRaw);
    var pasos := Trim(pasosRaw);
    ParseCommaListTrim(ingRaw);
    if titulo == "" then None
    else
      Some(Recipe(id, Some(titulo), if cat == "" then "general" else cat,
                  if ing == "" then [] else ParseCommaList(ing),
                  if pasos == "" then [] else Clean(splitSteps(pasos)), false))
  }

  /** The edit form's save: one ingredient and one step per line; an empty category keeps the
      old one, or `general`. A blank title is refused. */
  function Edited(r: Recipe, tituloRaw: string, catRaw: string, ingsRaw: string, pasosRaw: string): (e: Option<Recipe>)
    ensures e.None? <==> AllSpace(tituloRaw)
    ensures e.Some? ==>
              e.value.id == r.id && e.value.fav == r.fav && e.value.titulo == Some(Trim(tituloRaw)) &&
              e.value.categoria ==
                (if Lower(Trim(catRaw)) != "" then Lower(Trim(catRaw))
                 else if r.categoria != "" then r.categoria else "general") &&
              e.value.ingredientes == ParseLines(ingsRaw) && e.value.pasos == ParseLines(pasosRaw)
    ensures e.Some? ==>
              e.value.categoria != "" &&
              (forall k :: 0 <= k < |e.value.ingredientes| ==>
                 e.value.ingredientes[k] != "" && Trimmed(e.value.ingredientes[k])) &&
              (forall k :: 0 <= k < |e.value.pasos| ==> e.value.pasos[k] != "" && Trimmed(e.value.pasos[k]))
  {
    var titulo := Trim(tituloRaw);
    var cat := Lower(Trim(catRaw));
    if titulo == "" then None
    else
      Some(r.(titulo := Some(titulo),
              categoria := if cat != "" then cat else if r.categoria != "" then r.categoria else "general",
              ingredientes := ParseLines(ingsRaw), pasos := ParseLines(pasosRaw)))
  }

  /** What the edit form shows for a text (js/script.js:253-262): the escaped markup, decoded by
      the browser back into the field's text. */
  function FieldValue(s: string): (v: string)
    ensures v == s
  {
    EscapeRoundTrip(s);
    UnescapeHtml(EscapeHtml(s))
  }

  predicate IsLineBreak(c: char) {
    c == '\n' || c == '\r'
  }

  function NotLineBreak(c: char): bool {
    !IsLineBreak(c)
  }

  /** The value of a one-line `<input>` (the title and the category, js/script.js:254, 257):
      the browser strips line breaks from it. */
  function InputValue(s: string): (v: string)
    ensures forall c :: c in v <==> c in s && !IsLineBreak(c)
    ensures (forall i :: 0 <= i < |s| ==> !IsLineBreak(s[i])) ==> v == s
  {
    FilterMember(s, NotLineBreak);
    if forall i :: 0 <= i < |s| ==> !IsLineBreak(s[i]) then
      FilterAll(s, NotLineBreak);
      Filter(s, NotLineBreak)
    else
      Filter(s, NotLineBreak)
  }

  /** A title typed with a line break in it loses the break on the way through the form. */
  lemma InputDropsLineBreak()
    ensures InputValue(FieldValue("a\nb")) == "ab"
  {
    var s := "a\nb";
    assert s[..2][..1] == "a" && s[..1] == "a";
    assert Filter(s[..1], NotLineBreak) == "a" by {
      assert s[..1][..0] == [];
    }
    assert Filter(s[..2], NotLineBreak) == "a" by {
      assert s[..2][..1] == s[..1];
    }
    assert s[..3] == s;
  }

  /** Saving the edit form unchanged gives the record back, for a record whose title is trimmed
      and non-empty, whose category is trimmed, lower-case and non-empty, whose title and category
      hold no line break (an `<input>` drops them), and whose ingredients and steps are trimmed,
      non-empty and free of line breaks (a `<textarea>` turns a `\r` into a new line). */
  lemma EditUnchanged(r: Recipe)
    requires r.titulo.Some? && Title(r) != "" && Trimmed(Title(r))
    requires r.categoria != "" && Lower(Trim(r.categoria)) == r.categoria
    requires forall i :: 0 <= i < |Title(r)| ==> !IsLineBreak(Title(r)[i])
    requires forall i :: 0 <= i < |r.categoria| ==> !IsLineBreak(r.categoria[i])
    requires forall k :: 0 <= k < |r.ingredientes| ==>
               r.ingredientes[k] != "" && Trimmed(r.ingredientes[k]) &&
               '\n' !in r.ingredientes[k] && '\r' !in r.ingredientes[k]
    requires forall k :: 0 <= k < |r.pasos| ==>
               r.pasos[k] != "" && Trimmed(r.pasos[k]) && '\n' !in r.pasos[k] && '\r' !in r.pasos[k]
    ensures Edited(r, InputValue(FieldValue(Title(r))), InputValue(FieldValue(r.categoria)),
                   FieldValue(Join(r.ingredientes, "\n")), FieldValue(Join(r.pasos, "\n"))) == Some(r)
  {
    ParseLinesJoin(r.ingredientes);
    ParseLinesJoin(r.pasos);
  }

  // ================================================================ the stored list

  /** What a delete request ends in. */
  datatype DeleteOutcome = NotSaved | Cancelled | Deleted

  /** What a save from the edit form ends in. */
  datatype EditOutcome = EditNotSaved | TitleMissing | EditSaved(r: Recipe)

  /** The list of saved recipes, as stored under `recetas_v1`. */
  class RecipeStore {
    var recetas: seq<Recipe>

    constructor(saved: seq<Recipe>)
      ensures recetas == saved
    {
      recetas := saved;
    }

    /** `findIndex` over the stored list. */
    method FindIndex(id: string) returns (i: int)
      ensures i == IndexOfId(recetas, id)
    {
      i := 0;
      while i < |recetas|
        invariant 0 <= i <= |recetas|
        invariant forall j :: 0 <= j < i ==> recetas[j].id != id
      {
        if recetas[i].id == id {
          IndexOfIdFirst(recetas, id, i);
          return;
        }
        i := i + 1;
      }
      i := -1;
    }

    /** `isSaved(id)`. */
    method IsSaved(id: string) returns (b: bool)
      ensures b <==> Saved(recetas, id)
    {
      var i := FindIndex(id);
      SavedIndex(recetas, id);
      b := i >= 0;
    }

    /** `upsertReceta(r)`. */
    method Upsert(r: Recipe)
      modifies this
      ensures recetas == Upserted(old(recetas), r)
    {
      var i := FindIndex(r.id);
      if i >= 0 {
        recetas := recetas[i := r];
      } else {
        recetas := recetas + [r];
      }
    }

    /** The delete buttons: only a saved recipe can be deleted, and only after confirmation. */
    method Delete(id: string, confirmed: bool) returns (outcome: DeleteOutcome)
      modifies this
      ensures !Saved(old(recetas), id) ==> outcome == NotSaved && recetas == old(recetas)
      ensures Saved(old(recetas), id) && !confirmed ==> outcome == Cancelled && recetas == old(recetas)
      ensures Saved(old(recetas), id) && confirmed ==> outcome == Deleted && recetas == WithoutId(old(recetas), id)
    {
      var found := IsSaved(id);
      if !found {
        return NotSaved;
      }
      if !confirmed {
        return Cancelled;
      }
      recetas := Filter(recetas, OtherId(id));
      outcome := Deleted;
    }

    /** The favourite buttons: flip `fav` of the saved recipe with this id, if there is one. */
    method ToggleFav(id: string) returns (found: bool)
      modifies this
      ensures found <==> Saved(old(recetas), id)
      ensures recetas == Toggled(old(recetas), id)
    {
      var i := FindIndex(id);
      SavedIndex(recetas, id);
      found := i >= 0;
      if found {
        recetas := recetas[i := recetas[i].(fav := !recetas[i].fav)];
      }
    }

    /** The edit form's save button for the recipe shown in the modal. */
    method SaveEdit(id: string, tituloRaw: string, catRaw: string, ingsRaw: string, pasosRaw: string)
      returns (outcome: EditOutcome)
      modifies this
      ensures !Saved(old(recetas), id) ==> outcome == EditNotSaved && recetas == old(recetas)
      ensures Saved(old(recetas), id) && AllSpace(tituloRaw) ==> outcome == TitleMissing && recetas == old(recetas)
      ensures Saved(old(recetas), id) && !AllSpace(tituloRaw) ==>
                var e := Edited(old(recetas)[IndexOfId(old(recetas), id)], tituloRaw, catRaw, ingsRaw, pasosRaw).value;
                outcome == EditSaved(e) && recetas == Upserted(old(recetas), e)
    {
      var i := FindIndex(id);
      SavedIndex(recetas, id);
      if i < 0 {
        return EditNotSaved;
      }
      var e := Edited(recetas[i], tituloRaw, catRaw, ingsRaw, pasosRaw);
      if e.None? {
        return TitleMissing;
      }
      Upsert(e.value);
      outcome := EditSaved(e.value);
    }
  }
}
