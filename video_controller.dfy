/** The video handlers of the content API: the filtered, searched and
    paginated listing, lookup by id, creation and update checked against
    the category collection, and deletion. */
module VideoController {
  import opened Common
  import opened Text
  import opened Query
  import opened Store
  import VideoModel

  type Video = VideoModel.Video

  /** `req.body.title`: an object whose parts may be absent. */
  datatype TitleInput = TitleInput(pt: Option<string>, en: Option<string>)

  /** `req.body.description`: an object whose parts may be absent. */
  datatype DescriptionInput = DescriptionInput(pt: Option<string>, en: Option<string>)

  /** The body of POST /api/videos. An absent URL is the empty string,
      which the schema rejects alike. An absent category is kept apart: the
      category lookup treats it unlike the empty string. */
  datatype NewVideo = NewVideo(
    title: Option<TitleInput>,
    description: Option<DescriptionInput>,
    thumbnail: string,
    videoUrl: string,
    category: Option<string>,
    featured: Option<bool>)

  /** The body of PUT /api/videos/:id. */
  datatype VideoPatch = VideoPatch(
    title: Option<TitleInput>,
    description: Option<DescriptionInput>,
    thumbnail: Option<string>,
    videoUrl: Option<string>,
    category: Option<string>,
    featured: Option<bool>,
    order: Option<int>)

  /** The query string of GET /api/videos; `page` and `limit` as `parseInt`
      read them (`None` for NaN). */
  datatype VideoQuery = VideoQuery(
    page: Option<int>,
    limit: Option<int>,
    category: Option<string>,
    search: Option<string>,
    lang: Option<string>,
    sort: Option<string>)

  /** `req.query.lang || 'pt'`. */
  function Language(q: VideoQuery): string {
    OrElse(q.lang, "pt")
  }

  /** One `$or` branch: the `title.<lang>` or `description.<lang>` field
      matches the search. A language the schema lacks names no field, and an
      absent description matches nothing. */
  predicate SearchHit(v: Video, lang: string, needle: string) {
    if lang == "pt" then
      ContainsIgnoringCase(v.title.pt, needle)
      || (v.description.pt.Some? && ContainsIgnoringCase(v.description.pt.value, needle))
    else if lang == "en" then
      ContainsIgnoringCase(v.title.en, needle)
      || (v.description.en.Some? && ContainsIgnoringCase(v.description.en.value, needle))
    else false
  }

  /** The query document of the listing: the category clause when the
      category is truthy and not "all", the `$or` clause when the search is
      truthy. */
  predicate Matches(q: VideoQuery, v: Video) {
    var cat := CategoryFilter(q.category);
    && (cat.Some? ==> v.category == cat.value)
    && (Truthy(q.search) ==> SearchHit(v, Language(q), q.search.value))
  }

  function Keep(q: VideoQuery): Video -> bool {
    (v: Video) => Matches(q, v)
  }

  /** Without a category and a search, the listing selects every video. */
  lemma NoFilterSelectsAll(videos: map<nat, Video>, q: VideoQuery)
    requires !Truthy(q.category) || q.category.value == "all"
    requires !Truthy(q.search)
    ensures Selected(videos, Keep(q)) == videos.Keys
  {
    forall k | k in videos ensures k in Selected(videos, Keep(q)) {
      assert Matches(q, videos[k]);
    }
  }

  /** A search in a language other than "pt" and "en" finds nothing. */
  lemma UnknownLanguageFindsNothing(videos: map<nat, Video>, q: VideoQuery)
    requires Truthy(q.search) && Language(q) != "pt" && Language(q) != "en"
    ensures Selected(videos, Keep(q)) == {}
  {
    forall k | k in videos ensures !Keep(q)(videos[k]) {
      assert !SearchHit(videos[k], Language(q), q.search.value);
    }
  }

  /** The search ignores the case of the search string. */
  lemma SearchIgnoresCase(v: Video, lang: string, needle: string)
    ensures SearchHit(v, lang, needle) <==> SearchHit(v, lang, Lower(needle))
  {
    ContainsIgnoresNeedleCase(v.title.pt, needle);
    ContainsIgnoresNeedleCase(v.title.en, needle);
    if v.description.pt.Some? {
      ContainsIgnoresNeedleCase(v.description.pt.value, needle);
    }
    if v.description.en.Some? {
      ContainsIgnoresNeedleCase(v.description.en.value, needle);
    }
  }

  /** A category filter selects only videos of that (trimmed) category,
      and all of them when there is no search. */
  lemma CategoryFilterSelectsUses(videos: map<nat, Video>, q: VideoQuery)
    requires CategoryFilter(q.category).Some? && !Truthy(q.search)
    ensures Selected(videos, Keep(q)) == UsesOf(videos, Trim(q.category.value))
  {
    var cid := Trim(q.category.value);
    forall k | k in videos ensures Keep(q)(videos[k]) <==> videos[k].category == cid {
    }
  }

  /** GET /api/videos. The count is over every matching video; the page is
      the matching videos from position `skip` on, at most |limit| of them.
      Without a sort, or with `createdAt_desc`, the page is in newest-first
      order: the i-th item has exactly skip + i newer matches. A negative
      skip, or a sort key the database refuses (such as the empty field of
      `_desc`), is `server_error`. */
  method GetVideos(db: ContentStore, q: VideoQuery) returns (res: Code, listing: Listing<Doc<Video>>)
    requires db.Valid()
    ensures
      var p := ReadPaging(q.page, q.limit);
      var hits := Selected(db.videos, Keep(q));
      && (res == Ok <==> p.skip >= 0 && SortAccepted(ParseSort(q.sort)))
      && (res != Ok ==> res == ServerError && listing.items == [])
      && listing.total == |hits|
      && listing.page == p.page && listing.limit == p.limit
      && listing.pages == Pages(listing.total, p.limit)
      && |listing.items| == (if res != Ok then 0 else Min(Abs(p.limit), Max(0, |hits| - p.skip)))
      && (forall i :: 0 <= i < |listing.items| ==>
           && listing.items[i].id in hits
           && listing.items[i].doc == db.videos[listing.items[i].id])
      && (ParseSort(q.sort) == DefaultSort ==>
           forall i :: 0 <= i < |listing.items| ==> |Newer(hits, listing.items[i].id)| == p.skip + i)
  {
    var p := ReadPaging(q.page, q.limit);
    var total := |Selected(db.videos, Keep(q))|;
    var page := Page(db.videos, db.nextId, Keep(q), p.skip, p.limit);
    var found := page.Some? && SortAccepted(ParseSort(q.sort));
    var items := if found then page.value else [];
    listing := Listing(items, total, p.page, p.limit, Pages(total, p.limit));
    res := if found then Ok else ServerError;
  }

  /** GET /api/videos/:id. */
  method GetVideoById(db: ContentStore, id: nat) returns (res: Code, video: Option<Video>)
    ensures id in db.videos <==> res == Ok
    ensures id in db.videos ==> video == Some(db.videos[id])
    ensures id !in db.videos ==> res == NotFound && video == None
  {
    if id in db.videos {
      return Ok, Some(db.videos[id]);
    }
    return NotFound, None;
  }

  /** The document `new Video({...})` builds, or `None` when the body lacks
      a title or description object (reading a part of it throws). */
  function Built(body: NewVideo): Option<Video> {
    if body.title.None? || body.description.None? then None
    else
      var t := body.title.value;
      var d := body.description.value;
      Some(VideoModel.Make(
        VideoModel.Title(IfDefined(t.pt, ""), IfDefined(t.en, "")),
        VideoModel.Description(d.pt, d.en),
        body.thumbnail, body.videoUrl, IfDefined(body.category, ""),
        body.featured == Some(true)))
  }

  /** A body without `category` never yields a video `save` accepts, so
      after passing the lookup it is answered `server_error`. */
  lemma AbsentCategoryIsNotSaved(body: NewVideo)
    requires body.category.None?
    ensures Built(body).Some? ==> !VideoModel.Valid(Built(body).value)
  {
    assert Trim("") == "";
  }

  /** A video whose category exists keeps every reference valid. */
  lemma NewVideoKeepsReferences(categories: map<nat, Category>, videos: map<nat, Video>, id: nat, v: Video)
    requires References(categories, videos) && v.category in CategoryIds(categories)
    ensures References(categories, videos[id := v])
  {
    forall k | k in videos && k != id ensures videos[k].category in CategoryIds(categories) {
    }
    assert videos[id := v][id] == v;
  }

  /** POST /api/videos. The category lookup comes first and casts the id
      through the trim setter; a body without `category` passes it whenever
      any category exists. Then a missing title or description object, or
      a document `save` rejects (among them one without a category), is
      `server_error`. A created video names an existing category, so
      referential integrity is kept. */
  method CreateVideo(db: ContentStore, body: NewVideo) returns (res: Code, id: nat)
    requires db.Valid()
    modifies db
    ensures db.Valid()
    ensures old(db.Integrity()) ==> db.Integrity()
    ensures res == InvalidCategory <==> !CategoryFound(old(db.categories), body.category)
    ensures res == Created <==>
      CategoryFound(old(db.categories), body.category) && Built(body).Some? && VideoModel.Valid(Built(body).value)
    ensures res in {Created, InvalidCategory, ServerError}
    ensures res == Created ==>
      && id == old(db.nextId) && db.nextId == id + 1
      && db.videos == old(db.videos)[id := Built(body).value]
      && body.category.Some?
      && db.videos[id].order == 0 && db.videos[id].category == Trim(body.category.value)
      && db.videos[id].category in CategoryIds(db.categories)
      && db.categories == old(db.categories) && db.contacts == old(db.contacts)
      && db.users == old(db.users) && db.config == old(db.config)
    ensures res != Created ==> unchanged(db)
  {
    id := 0;
    if !CategoryFound(db.categories, body.category) {
      return InvalidCategory, id;
    }
    var built := Built(body);
    if built.None? {
      return ServerError, id;
    }
    var v := built.value;
    if !VideoModel.Valid(v) {
      return ServerError, id;
    }
    var t, d := body.title.value, body.description.value;
    VideoModel.MakeThenSave(VideoModel.Title(IfDefined(t.pt, ""), IfDefined(t.en, "")),
      VideoModel.Description(d.pt, d.en), body.thumbnail, body.videoUrl, IfDefined(body.category, ""),
      body.featured == Some(true));
    id := db.InsertVideo(v);
    if old(db.Integrity()) {
      NewVideoKeepsReferences(db.categories, old(db.videos), id, v);
    }
    res := Created;
  }

  /** `body.part || stored.part` on an optional field. */
  function OrElseOpt(field: Option<string>, stored: Option<string>): Option<string> {
    if Truthy(field) then field else stored
  }

  /** The video as the handler assigns it before `save`: a title or
      description object replaces its truthy parts only, the strings fall
      back with `||`, `featured` and `order` with `!== undefined`, and the
      trim setters run on every assigned string. */
  function Merge(v: Video, body: VideoPatch): Video {
    var title := if body.title.Some? then
        VideoModel.Title(Trim(OrElse(body.title.value.pt, v.title.pt)), Trim(OrElse(body.title.value.en, v.title.en)))
      else v.title;
    var description := if body.description.Some? then
        VideoModel.Description(VideoModel.TrimOpt(OrElseOpt(body.description.value.pt, v.description.pt)),
                               VideoModel.TrimOpt(OrElseOpt(body.description.value.en, v.description.en)))
      else v.description;
    VideoModel.Video(title, description,
      Trim(OrElse(body.thumbnail, v.thumbnail)),
      Trim(OrElse(body.videoUrl, v.videoUrl)),
      Trim(OrElse(body.category, v.category)),
      IfDefined(body.featured, v.featured),
      IfDefined(body.order, v.order))
  }

  /** An update keeps every field the body leaves out or gives as a falsy
      string, takes the trimmed value of every truthy one, and a merged
      video that validates is stored trimmed. */
  lemma MergeKeepsOrReplaces(v: Video, body: VideoPatch)
    requires VideoModel.Stored(v)
    ensures var m := Merge(v, body);
      && (Truthy(body.category) ==> m.category == Trim(body.category.value))
      && (!Truthy(body.category) ==> m.category == v.category)
      && (Truthy(body.thumbnail) ==> m.thumbnail == Trim(body.thumbnail.value))
      && (!Truthy(body.thumbnail) ==> m.thumbnail == v.thumbnail)
      && (Truthy(body.videoUrl) ==> m.videoUrl == Trim(body.videoUrl.value))
      && (!Truthy(body.videoUrl) ==> m.videoUrl == v.videoUrl)
      && (body.title.None? ==> m.title == v.title)
      && (body.title.Some? ==> var t := body.title.value;
            && m.title.pt == (if Truthy(t.pt) then Trim(t.pt.value) else v.title.pt)
            && m.title.en == (if Truthy(t.en) then Trim(t.en.value) else v.title.en))
      && (body.description.None? ==> m.description == v.description)
      && (body.description.Some? ==> var d := body.description.value;
            && m.description.pt == (if Truthy(d.pt) then Some(Trim(d.pt.value)) else v.description.pt)
            && m.description.en == (if Truthy(d.en) then Some(Trim(d.en.value)) else v.description.en))
      && (body.featured.None? ==> m.featured == v.featured)
      && (body.order.None? ==> m.order == v.order)
      && (body.featured.Some? ==> m.featured == body.featured.value)
      && (body.order.Some? ==> m.order == body.order.value)
      && (VideoModel.Valid(m) ==> VideoModel.Stored(m))
  {
    TrimmedIsFixed(v.thumbnail);
    TrimmedIsFixed(v.videoUrl);
    TrimmedIsFixed(v.category);
    TrimmedIsFixed(v.title.pt);
    TrimmedIsFixed(v.title.en);
    if v.description.pt.Some? {
      TrimmedIsFixed(v.description.pt.value);
    }
    if v.description.en.Some? {
      TrimmedIsFixed(v.description.en.value);
    }
  }

  /** `video.save()` after the merge: validation, then the write. */
  method SaveVideo(db: ContentStore, id: nat, m: Video) returns (res: Code)
    requires db.Valid() && id in db.videos
    requires VideoModel.Valid(m) ==> VideoModel.Stored(m)
    modifies db`videos
    ensures db.Valid()
    ensures res == (if VideoModel.Valid(m) then Ok else ServerError)
    ensures db.videos == (if VideoModel.Valid(m) then old(db.videos)[id := m] else old(db.videos))
  {
    if !VideoModel.Valid(m) {
      return ServerError;
    }
    db.ReplaceVideo(id, m);
    res := Ok;
  }

  /** The category an update leaves on a video exists when the stored one
      did and any truthy new one passed the lookup. */
  lemma MergedVideoKeepsReferences(categories: map<nat, Category>, videos: map<nat, Video>, id: nat, body: VideoPatch)
    requires id in videos && References(categories, videos) && VideoModel.Stored(videos[id])
    requires CategoryAccepted(categories, body)
    ensures References(categories, videos[id := Merge(videos[id], body)])
  {
    MergeKeepsOrReplaces(videos[id], body);
    NewVideoKeepsReferences(categories, videos, id, Merge(videos[id], body));
  }

  /** The category check of an update passes: the body names no category,
      or one the lookup finds. */
  predicate CategoryAccepted(categories: map<nat, Category>, body: VideoPatch) {
    !Truthy(body.category) || Trim(body.category.value) in CategoryIds(categories)
  }

  /** PUT /api/videos/:id. A truthy category is looked up before the video
      is; then a missing video is `not_found`; otherwise the merged video is
      saved if it validates and `server_error` is answered if it does not.
      Every outcome keeps referential integrity. */
  method UpdateVideo(db: ContentStore, id: nat, body: VideoPatch) returns (res: Code)
    requires db.Valid()
    modifies db`videos
    ensures db.Valid()
    ensures old(db.Integrity()) ==> db.Integrity()
    ensures res == InvalidCategory <==> !CategoryAccepted(old(db.categories), body)
    ensures res == NotFound <==> CategoryAccepted(old(db.categories), body) && id !in old(db.videos)
    ensures res in {Ok, InvalidCategory, NotFound, ServerError}
    ensures res == Ok ==> id in old(db.videos) && db.videos == old(db.videos)[id := Merge(old(db.videos)[id], body)]
    ensures res == ServerError ==> id in old(db.videos) && !VideoModel.Valid(Merge(old(db.videos)[id], body))
    ensures res == Ok ==> VideoModel.Valid(db.videos[id])
    ensures res != Ok ==> db.videos == old(db.videos)
  {
    if !CategoryAccepted(db.categories, body) {
      return InvalidCategory;
    }
    if id !in db.videos {
      return NotFound;
    }
    res := SavePatched(db, id, body);
  }

  /** The merge and `save` of an update whose category check passed. */
  method SavePatched(db: ContentStore, id: nat, body: VideoPatch) returns (res: Code)
    requires db.Valid() && id in db.videos && CategoryAccepted(db.categories, body)
    modifies db`videos
    ensures db.Valid()
    ensures old(db.Integrity()) ==> db.Integrity()
    ensures var m := Merge(old(db.videos)[id], body);
      && res == (if VideoModel.Valid(m) then Ok else ServerError)
      && db.videos == (if VideoModel.Valid(m) then old(db.videos)[id := m] else old(db.videos))
  {
    var m := Merge(db.videos[id], body);
    MergeKeepsOrReplaces(db.videos[id], body);
    if db.Integrity() {
      MergedVideoKeepsReferences(db.categories, db.videos, id, body);
    }
    res := SaveVideo(db, id, m);
  }

  /** DELETE /api/videos/:id. Removing a video never breaks a reference. */
  method DeleteVideo(db: ContentStore, id: nat) returns (res: Code)
    requires db.Valid()
    modifies db`videos
    ensures db.Valid()
    ensures old(db.Integrity()) ==> db.Integrity()
    ensures id in old(db.videos) <==> res == Ok
    ensures res != Ok ==> res == NotFound && db.videos == old(db.videos)
    ensures res == Ok ==> db.videos == old(db.videos) - {id}
  {
    if id !in db.videos {
      return NotFound;
    }
    if db.Integrity() {
      RemovedVideoKeepsReferences(db.categories, db.videos, id);
    }
    db.RemoveVideo(id);
    res := Ok;
  }

  lemma RemovedVideoKeepsReferences(categories: map<nat, Category>, videos: map<nat, Video>, id: nat)
    requires References(categories, videos)
    ensures References(categories, videos - {id})
  {
  }
}
