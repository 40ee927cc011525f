/** The Video schema: required, trimmed bilingual title; optional trimmed
    bilingual description; required thumbnail and video URLs matching
    `^https?:\/\/.*`; a required category id; `featured` defaulting to
    false and `order` to 0. */
module VideoModel {
  import opened Common
  import opened Text
  import opened Validators

  datatype Title = Title(pt: string, en: string)

  datatype Description = Description(pt: Option<string>, en: Option<string>)

  datatype Video = Video(
    title: Title,
    description: Description,
    thumbnail: string,
    videoUrl: string,
    category: string,
    featured: bool,
    order: int)

  const DefaultOrder: int := 0

  function TrimOpt(s: Option<string>): Option<string> {
    if s.Some? then Some(Trim(s.value)) else None
  }

  /** A new video document: setters trim every string, `order` takes its
      default. */
  function Make(title: Title, description: Description, thumbnail: string, videoUrl: string,
                category: string, featured: bool): Video
  {
    Video(Title(Trim(title.pt), Trim(title.en)),
          Description(TrimOpt(description.pt), TrimOpt(description.en)),
          Trim(thumbnail), Trim(videoUrl), Trim(category), featured, DefaultOrder)
  }

  /** What `save` validates. The description is optional and unchecked. */
  predicate Valid(v: Video) {
    && v.title.pt != "" && v.title.en != ""
    && IsHttpUrl(v.thumbnail) && IsHttpUrl(v.videoUrl)
    && v.category != ""
  }

  predicate TrimmedOpt(s: Option<string>) {
    s.Some? ==> Trimmed(s.value)
  }

  /** What every stored video satisfies: the checks of `save` on the fields
      that only `save` writes, and every string as its setter left it. The
      category is left out: `updateMany` rewrites it without validation, and
      whether it is non-empty follows from referential integrity instead. */
  predicate Stored(v: Video) {
    && v.title.pt != "" && v.title.en != ""
    && IsHttpUrl(v.thumbnail) && IsHttpUrl(v.videoUrl)
    && Trimmed(v.title.pt) && Trimmed(v.title.en)
    && TrimmedOpt(v.description.pt) && TrimmedOpt(v.description.en)
    && Trimmed(v.thumbnail) && Trimmed(v.videoUrl) && Trimmed(v.category)
  }

  /** A new video has order 0, keeps the given flag, is stored trimmed when
      it validates, and validates exactly when the trimmed titles are
      non-empty, both trimmed URLs start with http:// or https:// and the
      trimmed category is non-empty; the description never blocks it. */
  lemma MakeThenSave(title: Title, description: Description, thumbnail: string, videoUrl: string,
                     category: string, featured: bool)
    ensures var v := Make(title, description, thumbnail, videoUrl, category, featured);
      && v.order == 0 && v.featured == featured
      && (Valid(v) <==> Trim(title.pt) != "" && Trim(title.en) != ""
                        && IsHttpUrl(Trim(thumbnail)) && IsHttpUrl(Trim(videoUrl)) && Trim(category) != "")
      && (Valid(v) ==> Stored(v))
  {
  }
}
