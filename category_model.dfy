/** The Category schema: a slug id that is required, unique, trimmed and
    matches `^[a-z0-9-]+$`, and a required, trimmed bilingual name. */
module CategoryModel {
  import opened Text
  import opened Validators

  datatype Name = Name(pt: string, en: string)

  datatype Category = Category(categoryId: string, name: Name)

  /** A category document as built from request strings: the `trim`
      setters run on assignment. */
  function Make(categoryId: string, pt: string, en: string): Category {
    Category(Trim(categoryId), Name(Trim(pt), Trim(en)))
  }

  /** What `save` validates: `required` rejects an empty string, `match`
      the id pattern. Uniqueness is a property of the whole collection. */
  predicate Valid(c: Category) {
    IsSlug(c.categoryId) && c.name.pt != "" && c.name.en != ""
  }

  /** A stored category: valid, and every string as its setter left it. */
  predicate Stored(c: Category) {
    Valid(c) && Trimmed(c.categoryId) && Trimmed(c.name.pt) && Trimmed(c.name.en)
  }

  /** Whatever passes validation after the setters ran is stored trimmed,
      and validation fails exactly when the trimmed id is not a slug or a
      trimmed name is empty. */
  lemma MakeThenSave(categoryId: string, pt: string, en: string)
    ensures Valid(Make(categoryId, pt, en)) <==>
      IsSlug(Trim(categoryId)) && Trim(pt) != "" && Trim(en) != ""
    ensures Valid(Make(categoryId, pt, en)) ==> Stored(Make(categoryId, pt, en))
  {
  }
}
