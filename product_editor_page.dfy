/** The admin product editor: the form record a new or loaded product is
    edited in, and the handlers that compute the next form from the
    previous one. */
module ProductEditorPage {
  import opened Seqs
  import opened Text
  import opened Js
  import Helpers

  /** The form a new product starts from. */
  const INITIAL_FORM: Record := map[
    "title" := Str(""), "slug" := Str(""), "brand" := Str(""), "model" := Str(""),
    "shortSlogan" := Str(""), "description" := Str(""), "price" := Str(""),
    "condition" := Str("Used"), "ram" := Str(""), "cpu" := Str(""), "gpu" := Str(""),
    "storage" := Str(""), "color" := Str(""), "stockCount" := Str(""),
    "isLimitedStock" := Bool(false), "isNewArrival" := Bool(false), "isDeal" := Bool(false),
    "isTopHighlight" := Bool(false), "isBottomHighlight" := Bool(false),
    "category" := Arr([]), "tags" := Arr([]), "featuredImage" := Str(""),
    "galleryImages" := Arr([]), "published" := Bool(false)]

  /** The list fields the handlers work on: tags and gallery images are
      arrays, the category list is an array or falsy (`prev.category || []`). */
  predicate ListsWellFormed(form: Record)
  {
    && Get(form, "tags").Arr?
    && Get(form, "galleryImages").Arr?
    && (Get(form, "category").Arr? || !Truthy(Get(form, "category")))
  }

  /** The selected categories, with a falsy field read as none. */
  function Categories(form: Record): seq<Value>
  {
    if Get(form, "category").Arr? then Get(form, "category").elems else []
  }

  function Tags(form: Record): seq<Value>
    requires ListsWellFormed(form)
  {
    Get(form, "tags").elems
  }

  function Gallery(form: Record): seq<Value>
    requires ListsWellFormed(form)
  {
    Get(form, "galleryImages").elems
  }

  /** A falsy list field becomes `[]`. */
  function OrEmpty(v: Value): (r: Value)
    ensures Truthy(v) ==> r == v
    ensures !Truthy(v) ==> r == Arr([])
  {
    if Truthy(v) then v else Arr([])
  }

  // --------------------------------------------------------------- load

  /** The form a loaded product is edited in: the product's fields, with a
      missing or falsy category, tag or gallery list replaced by `[]`. */
  function LoadForm(data: Record): (r: Record)
    ensures r.Keys == data.Keys + {"category", "tags", "galleryImages"}
    ensures forall k :: k in data && k !in {"category", "tags", "galleryImages"} ==> r[k] == data[k]
    ensures forall k :: k in {"category", "tags", "galleryImages"} ==>
              (Truthy(Get(data, k)) ==> r[k] == data[k]) && (!Truthy(Get(data, k)) ==> r[k] == Arr([]))
  {
    data + map[
      "category" := OrEmpty(Get(data, "category")),
      "tags" := OrEmpty(Get(data, "tags")),
      "galleryImages" := OrEmpty(Get(data, "galleryImages"))]
  }

  /** The new-product form and every loaded product whose lists are arrays
      (or missing) are forms the handlers accept; a stored list field that
      is a truthy non-array is kept as it is and is outside them. */
  lemma LoadFormWellFormed(data: Record)
    ensures ListsWellFormed(INITIAL_FORM)
    ensures ListsWellFormed(LoadForm(data)) <==>
      && (Get(data, "tags").Arr? || !Truthy(Get(data, "tags")))
      && (Get(data, "galleryImages").Arr? || !Truthy(Get(data, "galleryImages")))
      && (Get(data, "category").Arr? || !Truthy(Get(data, "category")))
  {
    var r := LoadForm(data);
    assert Get(r, "tags") == OrEmpty(Get(data, "tags"));
    assert Get(r, "galleryImages") == OrEmpty(Get(data, "galleryImages"));
    assert Get(r, "category") == OrEmpty(Get(data, "category"));
  }

  // ------------------------------------------------------------- change

  /** What an input's change event carries. */
  datatype InputEvent = InputEvent(name: string, value: string, isCheckbox: bool, checked: bool)

  /** `handleChange(e)`: the two queued updates, applied in order. The field
      named by the input gets `checked` for a checkbox and the text
      otherwise; then, while creating, a title change also writes the slug
      generated from the new title. */
  function HandleChange(form: Record, e: InputEvent, isEditing: bool): (r: Record)
    ensures Get(r, e.name) == (if e.isCheckbox then Bool(e.checked) else Str(e.value))
    ensures forall k :: k != e.name && k != "slug" ==> Get(r, k) == Get(form, k)
    ensures e.name == "title" && !isEditing ==> Get(r, "slug") == Str(Helpers.GenerateSlug(e.value))
    ensures e.name != "slug" && (e.name != "title" || isEditing) ==> Get(r, "slug") == Get(form, "slug")
    ensures e.name != "category" && e.name != "tags" && e.name != "galleryImages" && ListsWellFormed(form) ==> ListsWellFormed(r)
  {
    var v := if e.isCheckbox then Bool(e.checked) else Str(e.value);
    var next := form[e.name := v];
    UpdateKeepsLists(form, e.name, v);
    UpdateKeepsOthers(form, e.name, v);
    if e.name == "title" && !isEditing then
      var slug := Str(Helpers.GenerateSlug(e.value));
      UpdateKeepsLists(next, "slug", slug);
      UpdateKeepsOthers(next, "slug", slug);
      next["slug" := slug]
    else next
  }

  /** Writing a field other than the three lists keeps the lists as they
      were. */
  lemma UpdateKeepsLists(form: Record, k: string, v: Value)
    ensures k != "category" && k != "tags" && k != "galleryImages" && ListsWellFormed(form) ==> ListsWellFormed(form[k := v])
  {
  }

  /** Writing one field leaves every other field as it was. */
  lemma UpdateKeepsOthers(form: Record, k: string, v: Value)
    ensures Get(form[k := v], k) == v
    ensures forall j :: j != k ==> Get(form[k := v], j) == Get(form, j)
  {
  }

  /** Writing an array into one of the lists keeps the form well formed. */
  lemma UpdateKeepsOtherLists(form: Record, k: string, v: Value)
    requires v.Arr?
    ensures ListsWellFormed(form) ==> ListsWellFormed(form[k := v])
  {
  }

  /** While creating, every title typed leaves a well-formed slug in the
      form; while editing, typing a title never touches the stored slug. */
  lemma TitleSlug(form: Record, title: string)
    ensures Helpers.IsSlug(Get(HandleChange(form, InputEvent("title", title, false, false), false), "slug").s)
    ensures Get(HandleChange(form, InputEvent("title", title, false, false), true), "slug") == Get(form, "slug")
  {
  }

  // ---------------------------------------------------------- categories

  /** `handleCategoryChange(category)`: drop a selected category (every
      copy, by `!==`), append an unselected one at the end. */
  function HandleCategoryChange(form: Record, category: string): (r: Record)
    ensures ListsWellFormed(form) ==> ListsWellFormed(r)
    ensures forall k :: k != "category" ==> Get(r, k) == Get(form, k)
    ensures Get(r, "category").Arr?
    ensures forall y :: y in Categories(r) <==> if y == Str(category) then Str(category) !in Categories(form) else y in Categories(form)
    ensures Str(category) !in Categories(form) ==> Categories(r) == Categories(form) + [Str(category)]
    ensures Str(category) in Categories(form) ==> IsSubsequence(Categories(r), Categories(form))
  {
    var cats := Categories(form);
    var c := Str(category);
    assert Includes(Arr(cats), c) <==> c in cats by {
      forall i | 0 <= i < |cats| ensures SameValueZero(cats[i], c) <==> cats[i] == c {
        StrictEqualsString(cats[i], category);
      }
    }
    var kept := Filter(cats, (x: Value) => !StrictEquals(x, c));
    forall y ensures y in kept <==> y in cats && y != c {
      FilterMembership(cats, (x: Value) => !StrictEquals(x, c), y);
      StrictEqualsString(y, category);
    }
    FilterIsSubsequence(cats, (x: Value) => !StrictEquals(x, c));
    if Includes(Arr(cats), c) then form["category" := Arr(kept)] else form["category" := Arr(cats + [c])]
  }

  /** Clicking the same category twice restores which categories are
      selected, and restores the list itself when it was unselected. */
  lemma {:induction false} CategoryChangeTwice(form: Record, category: string)
    ensures var twice := HandleCategoryChange(HandleCategoryChange(form, category), category);
      && (forall y :: y in Categories(twice) <==> y in Categories(form))
      && (Str(category) !in Categories(form) ==> Categories(twice) == Categories(form))
  {
    var c := Str(category);
    var once := HandleCategoryChange(form, category);
    var twice := HandleCategoryChange(once, category);
    if c !in Categories(form) {
      var cats := Categories(form);
      assert Categories(once) == cats + [c];
      assert Includes(Arr(cats + [c]), c) by {
        assert (cats + [c])[|cats|] == c;
      }
      FilterAppend(cats, [c], (x: Value) => !StrictEquals(x, c));
      forall i | 0 <= i < |cats| ensures !StrictEquals(cats[i], c) {
        StrictEqualsString(cats[i], category);
      }
      FilterAll(cats, (x: Value) => !StrictEquals(x, c));
      assert Categories(twice) == Filter(cats + [c], (x: Value) => !StrictEquals(x, c));
    }
  }

  // ---------------------------------------------------------------- tags

  /** The form together with the tag input box. */
  datatype TagEdit = TagEdit(form: Record, tagInput: string)

  /** `handleAddTag()`: the trimmed input is appended when it is not blank
      and not already a tag; only then is the input box cleared. */
  function HandleAddTag(form: Record, tagInput: string): (r: TagEdit)
    requires ListsWellFormed(form)
    ensures ListsWellFormed(r.form)
    ensures forall k :: k != "tags" ==> Get(r.form, k) == Get(form, k)
    ensures var t := Trim(tagInput);
      if t != [] && Str(t) !in Tags(form)
      then Tags(r.form) == Tags(form) + [Str(t)] && r.tagInput == []
      else r == TagEdit(form, tagInput)
  {
    AddTag(form, tagInput, Trim(tagInput))
  }

  /** The body of `handleAddTag` once the input `tagInput` is trimmed to
      `t`. */
  function AddTag(form: Record, tagInput: string, t: string): (r: TagEdit)
    requires ListsWellFormed(form)
    ensures ListsWellFormed(r.form)
    ensures forall k :: k != "tags" ==> Get(r.form, k) == Get(form, k)
    ensures if t != [] && Str(t) !in Tags(form)
      then Tags(r.form) == Tags(form) + [Str(t)] && r.tagInput == []
      else r == TagEdit(form, tagInput)
  {
    var tags := Get(form, "tags");
    IncludesString(tags.elems, t);
    UpdateKeepsOtherLists(form, "tags", Arr(tags.elems + [Str(t)]));
    if t != [] && !Includes(tags, Str(t)) then TagEdit(form["tags" := Arr(tags.elems + [Str(t)])], [])
    else TagEdit(form, tagInput)
  }

  /** Non-blank text with no white space at either end, which is its own
      trim. */
  predicate IsTrimmedWord(s: string)
  {
    s != [] && !IsWhiteSpace(s[0]) && !IsWhiteSpace(s[|s| - 1])
  }

  /** The tags the editor itself adds are trimmed, non-blank and distinct. */
  predicate CleanTags(tags: seq<Value>)
  {
    && (forall i :: 0 <= i < |tags| ==> tags[i].Str? && IsTrimmedWord(tags[i].s))
    && (forall i, j :: 0 <= i < j < |tags| ==> tags[i] != tags[j])
  }

  /** Adding a tag keeps the tag list clean: no blank tag, no white space
      at either end, no repeat. */
  lemma AddTagKeepsClean(form: Record, tagInput: string)
    requires ListsWellFormed(form) && CleanTags(Tags(form))
    ensures CleanTags(Tags(HandleAddTag(form, tagInput).form))
  {
    var tags := Tags(form);
    var t := Trim(tagInput);
    var r := HandleAddTag(form, tagInput);
    if t != [] && Str(t) !in tags {
      assert Tags(r.form) == tags + [Str(t)];
      AppendKeepsClean(tags, t);
    } else {
      assert r.form == form;
    }
  }

  lemma AppendKeepsClean(tags: seq<Value>, t: string)
    requires CleanTags(tags) && IsTrimmedWord(t) && Str(t) !in tags
    ensures CleanTags(tags + [Str(t)])
  {
    var n := tags + [Str(t)];
    forall i | 0 <= i < |n| ensures n[i].Str? && IsTrimmedWord(n[i].s) {
      if i < |tags| {
        assert n[i] == tags[i];
      }
    }
    forall i, j | 0 <= i < j < |n| ensures n[i] != n[j] {
      assert n[i] == tags[i];
      if j == |tags| {
        assert tags[i] in tags;
      } else {
        assert n[j] == tags[j];
      }
    }
  }

  /** `handleRemoveTag(tag)`: every tag `!==` to the clicked one stays, in
      order. */
  function HandleRemoveTag(form: Record, tag: Value): (r: Record)
    requires ListsWellFormed(form)
    ensures ListsWellFormed(r)
    ensures forall k :: k != "tags" ==> Get(r, k) == Get(form, k)
    ensures forall y :: y in Tags(r) <==> y in Tags(form) && !StrictEquals(y, tag)
    ensures IsSubsequence(Tags(r), Tags(form))
  {
    var tags := Get(form, "tags").elems;
    forall y {
      FilterMembership(tags, (t: Value) => !StrictEquals(t, tag), y);
    }
    FilterIsSubsequence(tags, (t: Value) => !StrictEquals(t, tag));
    form["tags" := Arr(Filter(tags, (t: Value) => !StrictEquals(t, tag)))]
  }

  /** Removing a tag just added gives the tag list back. */
  lemma RemoveUndoesAdd(form: Record, tagInput: string)
    requires ListsWellFormed(form)
    requires Trim(tagInput) != [] && Str(Trim(tagInput)) !in Tags(form)
    ensures Tags(HandleRemoveTag(HandleAddTag(form, tagInput).form, Str(Trim(tagInput)))) == Tags(form)
  {
    var t := Trim(tagInput);
    var c := Str(t);
    var tags := Tags(form);
    var added := HandleAddTag(form, tagInput).form;
    assert Tags(added) == tags + [c];
    assert Tags(HandleRemoveTag(added, c)) == Filter(tags + [c], (x: Value) => !StrictEquals(x, c));
    FilterAppend(tags, [c], (x: Value) => !StrictEquals(x, c));
    forall i | 0 <= i < |tags| ensures !StrictEquals(tags[i], c) {
      assert tags[i] in tags;
      StrictEqualsString(tags[i], t);
    }
    FilterAll(tags, (x: Value) => !StrictEquals(x, c));
    assert Filter([c], (x: Value) => !StrictEquals(x, c)) == [] by {
      assert StrictEquals(c, c);
    }
  }

  // ------------------------------------------------------------- gallery

  /** `handleRemoveGalleryImage(index)`: the image at `index` goes, the
      others stay in order; an index outside the list removes nothing. */
  function HandleRemoveGalleryImage(form: Record, index: int): (r: Record)
    requires ListsWellFormed(form)
    ensures ListsWellFormed(r)
    ensures forall k :: k != "galleryImages" ==> Get(r, k) == Get(form, k)
    ensures 0 <= index < |Gallery(form)| ==>
              && |Gallery(r)| == |Gallery(form)| - 1
              && (forall j :: 0 <= j < index ==> Gallery(r)[j] == Gallery(form)[j])
              && (forall j :: index <= j < |Gallery(r)| ==> Gallery(r)[j] == Gallery(form)[j + 1])
    ensures !(0 <= index < |Gallery(form)|) ==> Gallery(r) == Gallery(form)
  {
    form["galleryImages" := Arr(RemoveIndex(Get(form, "galleryImages").elems, index))]
  }

  // -------------------------------------------------------------- submit

  /** The record `handleSubmit` saves: the form with `price` and
      `stockCount` passed through `Number`. */
  function ProductData(form: Record): (r: Record)
    ensures r.Keys == form.Keys + {"price", "stockCount"}
    ensures forall k :: k in form && k != "price" && k != "stockCount" ==> r[k] == form[k]
    ensures r["price"].Num? || r["price"] == NaN
    ensures r["stockCount"].Num? || r["stockCount"] == NaN
  {
    form["price" := ToNumber(Get(form, "price"))]["stockCount" := ToNumber(Get(form, "stockCount"))]
  }

  /** Decimal text in the price and stock boxes is saved as that number. */
  lemma ProductDataNumbers(form: Record, price: int, stock: int)
    ensures var r := ProductData(form["price" := Str(IntToString(price))]["stockCount" := Str(IntToString(stock))]);
      r["price"] == Num(price) && r["stockCount"] == Num(stock)
  {
    NumberOfIntText(price);
    NumberOfIntText(stock);
  }

  /** A box left blank, as the new-product form starts, is saved as 0. */
  lemma BlankBoxesSaveZero(form: Record)
    requires Get(form, "price") == Str("") && Get(form, "stockCount") == Str("")
    ensures ProductData(form)["price"] == Num(0) && ProductData(form)["stockCount"] == Num(0)
    ensures Get(INITIAL_FORM, "price") == Str("") && Get(INITIAL_FORM, "stockCount") == Str("")
  {
    BlankIsZero();
    ProductDataBoxes(form);
    InitialBoxesBlank();
  }

  lemma BlankIsZero()
    ensures ToNumber(Str("")) == Num(0)
  {
    assert Trim("") == [];
    NumberOfText("");
  }

  lemma ProductDataBoxes(form: Record)
    ensures ProductData(form)["price"] == ToNumber(Get(form, "price"))
    ensures ProductData(form)["stockCount"] == ToNumber(Get(form, "stockCount"))
  {
    assert "price" != "stockCount";
  }

  lemma InitialBoxesBlank()
    ensures Get(INITIAL_FORM, "price") == Str("") && Get(INITIAL_FORM, "stockCount") == Str("")
  {
    assert "price"[0] != "color"[0];
    assert "stockCount"[1] != "isLimitedStock"[1];
    assert INITIAL_FORM["price"] == Str("");
    assert INITIAL_FORM["stockCount"] == Str("");
  }
}
