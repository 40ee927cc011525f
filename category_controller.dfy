/** The category handlers: create with the duplicate-id check, update with
    the rename cascade to videos, delete with the in-use guard, and the
    paginated list of one category's videos. */
module CategoryController {
  import opened Common
  import opened Text
  import opened Validators
  import opened Query
  import opened Store
  import CategoryModel
  import VideoModel

  /** `req.body.name` of a category request. */
  datatype NameInput = NameInput(pt: Option<string>, en: Option<string>)

  /** The body of POST /api/categories. */
  datatype NewCategory = NewCategory(categoryId: Option<string>, name: Option<NameInput>)

  /** The body of PUT /api/categories/:id. */
  datatype CategoryPatch = CategoryPatch(categoryId: Option<string>, name: Option<NameInput>)

  /** The listing query of GET /api/categories/:id/videos. */
  datatype VideoPageQuery = VideoPageQuery(page: Option<int>, limit: Option<int>, sort: Option<string>)

  /** The document `new Category(...)` builds from a create body; absent
      when `req.body.name` is missing and reading `name.pt` throws. An
      absent string field is left empty, which `required` rejects. */
  function Built(body: NewCategory): Option<CategoryModel.Category> {
    if body.name.None? then None
    else Some(CategoryModel.Make(IfDefined(body.categoryId, ""), IfDefined(body.name.value.pt, ""), IfDefined(body.name.value.en, "")))
  }

  /** POST /api/categories: refused when the duplicate lookup finds a
      category, which is when the (trimmed) id is taken or, for a body
      without `categoryId`, when any category exists; a body without
      `name`, or a document the schema rejects, is a server error;
      otherwise the category is added under a fresh id and nothing else
      changes. */
  method CreateCategory(db: ContentStore, body: NewCategory) returns (res: Code, id: nat)
    requires db.Valid()
    modifies db
    ensures db.Valid()
    ensures old(db.Integrity()) ==> db.Integrity()
    ensures res == CategoryExists <==> CategoryFound(old(db.categories), body.categoryId)
    ensures res == Created <==>
      !CategoryFound(old(db.categories), body.categoryId) && Built(body).Some? && CategoryModel.Valid(Built(body).value)
    ensures res in {Created, CategoryExists, ServerError}
    ensures res == Created ==>
      && id == old(db.nextId) && db.nextId == id + 1
      && body.categoryId.Some?
      && db.categories == old(db.categories)[id := Built(body).value]
      && db.categories[id].categoryId == Trim(body.categoryId.value)
      && db.videos == old(db.videos) && db.contacts == old(db.contacts)
      && db.users == old(db.users) && db.config == old(db.config)
    ensures res != Created ==> unchanged(db)
  {
    id := 0;
    if CategoryFound(db.categories, body.categoryId) {
      return CategoryExists, id;
    }
    var built := Built(body);
    if built.None? {
      return ServerError, id;
    }
    var c := built.value;
    if !CategoryModel.Valid(c) {
      return ServerError, id;
    }
    CategoryModel.MakeThenSave(IfDefined(body.categoryId, ""), IfDefined(body.name.value.pt, ""), IfDefined(body.name.value.en, ""));
    id := db.InsertCategory(c);
    if old(db.Integrity()) {
      NewCategoryKeepsReferences(old(db.categories), db.videos, id, c);
    }
    res := Created;
  }

  /** Whether an update asks for a new `categoryId`: the body's value is
      truthy and differs, as a raw string, from the stored one. */
  predicate Renames(c: CategoryModel.Category, body: CategoryPatch) {
    Truthy(body.categoryId) && body.categoryId.value != c.categoryId
  }

  /** The category as the handler assigns it before `save`: empty or absent
      values keep the old ones, and the trim setters run. */
  function Merge(c: CategoryModel.Category, body: CategoryPatch): CategoryModel.Category {
    CategoryModel.Make(
      OrElse(body.categoryId, c.categoryId),
      if body.name.Some? then OrElse(body.name.value.pt, c.name.pt) else c.name.pt,
      if body.name.Some? then OrElse(body.name.value.en, c.name.en) else c.name.en)
  }

  /** An empty or absent `categoryId`, `name.pt` or `name.en` keeps the old
      value; a supplied one replaces it, trimmed. */
  lemma MergeKeepsOrReplaces(c: CategoryModel.Category, body: CategoryPatch)
    requires CategoryModel.Stored(c)
    ensures var m := Merge(c, body);
      && m.categoryId == (if Truthy(body.categoryId) then Trim(body.categoryId.value) else c.categoryId)
      && m.name.pt == (if body.name.Some? && Truthy(body.name.value.pt) then Trim(body.name.value.pt.value) else c.name.pt)
      && m.name.en == (if body.name.Some? && Truthy(body.name.value.en) then Trim(body.name.value.en.value) else c.name.en)
      && (!Renames(c, body) ==> m.categoryId == c.categoryId)
  {
    TrimmedIsFixed(c.categoryId);
    TrimmedIsFixed(c.name.pt);
    TrimmedIsFixed(c.name.en);
  }

  /** PUT /api/categories/:id, as the source orders it: the referencing
      videos are rewritten to the new id BEFORE `save` runs the schema's
      checks, so a rejected save leaves the videos rewritten. */
  method UpdateCategory(db: ContentStore, id: nat, body: CategoryPatch) returns (res: Code)
    requires db.Valid()
    modifies db
    ensures db.Valid()
    ensures id !in old(db.categories) ==> res == NotFound && unchanged(db)
    ensures id in old(db.categories) ==>
      var c := old(db.categories)[id];
      var m := Merge(c, body);
      if Renames(c, body) && m.categoryId in old(CategoryIds(db.categories)) then
        res == CategoryExists && unchanged(db)
      else
        && db.videos == (if Renames(c, body) then Cascade(old(db.videos), c.categoryId, m.categoryId) else old(db.videos))
        && res == (if CategoryModel.Valid(m) then Ok else ServerError)
        && db.categories == (if CategoryModel.Valid(m) then old(db.categories)[id := m] else old(db.categories))
        && db.contacts == old(db.contacts) && db.users == old(db.users)
        && db.config == old(db.config) && db.nextId == old(db.nextId)
    ensures old(db.Integrity()) && res != ServerError ==> db.Integrity()
  {
    if id !in db.categories {
      return NotFound;
    }
    var c := db.categories[id];
    // the merged document; `updateMany`'s setter trims the new id the same way
    var m := Merge(c, body);
    if Renames(c, body) {
      if m.categoryId in CategoryIds(db.categories) {
        return CategoryExists;
      }
      MoveVideos(db, c.categoryId, m.categoryId);
    }
    SaveMerged(old(db.categories), old(db.videos), id, body);
    res := SaveCategory(db, id, m);
  }

  /** The cascade step: count the videos of the old id and, when there are
      any, move them to the new one. */
  method MoveVideos(db: ContentStore, from: string, to: string)
    requires db.Valid() && Trimmed(to)
    modifies db`videos
    ensures db.Valid()
    ensures db.videos == Cascade(old(db.videos), from, to)
  {
    if |UsesOf(db.videos, from)| > 0 {
      db.RenameInVideos(from, to);
    } else {
      CascadeWithoutUses(db.videos, from, to);
    }
  }

  /** `category.save()`: validation, then the write. */
  method SaveCategory(db: ContentStore, id: nat, m: CategoryModel.Category) returns (res: Code)
    requires db.Valid() && id in db.categories
    requires CategoryModel.Valid(m) ==> CategoryModel.Stored(m)
    requires m.categoryId == db.categories[id].categoryId || m.categoryId !in CategoryIds(db.categories)
    modifies db`categories
    ensures db.Valid()
    ensures res == (if CategoryModel.Valid(m) then Ok else ServerError)
    ensures db.categories == (if CategoryModel.Valid(m) then old(db.categories)[id := m] else old(db.categories))
  {
    if !CategoryModel.Valid(m) {
      return ServerError;
    }
    db.ReplaceCategory(id, m);
    res := Ok;
  }

  /** PUT /api/categories/:id with `save`'s checks run before the cascade:
      a rejected update writes nothing, and every outcome keeps referential
      integrity. */
  method UpdateCategoryValidatedFirst(db: ContentStore, id: nat, body: CategoryPatch) returns (res: Code)
    requires db.Valid()
    modifies db
    ensures db.Valid()
    ensures id !in old(db.categories) ==> res == NotFound && unchanged(db)
    ensures id in old(db.categories) ==>
      var c := old(db.categories)[id];
      var m := Merge(c, body);
      if Renames(c, body) && m.categoryId in old(CategoryIds(db.categories)) then
        res == CategoryExists && unchanged(db)
      else if !CategoryModel.Valid(m) then
        res == ServerError && unchanged(db)
      else
        && res == Ok
        && db.videos == (if Renames(c, body) then Cascade(old(db.videos), c.categoryId, m.categoryId) else old(db.videos))
        && db.categories == old(db.categories)[id := m]
        && db.contacts == old(db.contacts) && db.users == old(db.users)
        && db.config == old(db.config) && db.nextId == old(db.nextId)
    ensures old(db.Integrity()) ==> db.Integrity()
  {
    if id !in db.categories {
      return NotFound;
    }
    var c := db.categories[id];
    var m := Merge(c, body);
    if Renames(c, body) && m.categoryId in CategoryIds(db.categories) {
      return CategoryExists;
    }
    if !CategoryModel.Valid(m) {
      return ServerError;
    }
    SaveMerged(old(db.categories), old(db.videos), id, body);
    if Renames(c, body) {
      MoveVideos(db, c.categoryId, m.categoryId);
    }
    res := SaveCategory(db, id, m);
  }

  /** The facts behind an update: the merged category is stored trimmed
      once it validates, keeps its id or takes a free one, and the videos,
      cascaded when the id changes, still all name an existing category. */
  lemma SaveMerged(categories: map<nat, CategoryModel.Category>, videos: map<nat, VideoModel.Video>, id: nat, body: CategoryPatch)
    requires id in categories && CategoryModel.Stored(categories[id])
    requires var c := categories[id];
      !(Renames(c, body) && Merge(c, body).categoryId in CategoryIds(categories))
    ensures var c, m := categories[id], Merge(categories[id], body);
      && (CategoryModel.Valid(m) ==> CategoryModel.Stored(m))
      && (m.categoryId == c.categoryId || m.categoryId !in CategoryIds(categories))
      && (References(categories, videos) ==>
            References(categories[id := m], if Renames(c, body) then Cascade(videos, c.categoryId, m.categoryId) else videos))
  {
    var c := categories[id];
    var m := Merge(c, body);
    MergeKeepsOrReplaces(c, body);
    if References(categories, videos) {
      if Renames(c, body) {
        CascadeKeepsReferences(categories, videos, id, m);
      } else {
        RenamelessUpdateKeepsReferences(categories, videos, id, m);
      }
    }
  }

  /** A new category adds an id and removes none. */
  lemma NewCategoryKeepsReferences(categories: map<nat, CategoryModel.Category>, videos: map<nat, VideoModel.Video>,
                                   id: nat, c: CategoryModel.Category)
    requires id !in categories
    requires References(categories, videos)
    ensures References(categories[id := c], videos)
  {
    var after := categories[id := c];
    forall k | k in videos ensures videos[k].category in CategoryIds(after) {
      var j :| j in categories && categories[j].categoryId == videos[k].category;
      assert after[j] == categories[j];
    }
  }

  /** Updating a category without changing its id keeps every video's
      reference resolvable. */
  lemma RenamelessUpdateKeepsReferences(categories: map<nat, CategoryModel.Category>, videos: map<nat, VideoModel.Video>,
                                        id: nat, m: CategoryModel.Category)
    requires id in categories && m.categoryId == categories[id].categoryId
    requires References(categories, videos)
    ensures References(categories[id := m], videos)
  {
    var after := categories[id := m];
    forall k | k in videos ensures videos[k].category in CategoryIds(after) {
      var j :| j in categories && categories[j].categoryId == videos[k].category;
      assert after[j].categoryId == categories[j].categoryId;
    }
  }

  /** The cascade moves exactly the videos of the old id to the new id:
      afterwards none names the old id (when the ids differ), every video
      that named it names the new one, and every other video is unchanged. */
  lemma CascadeRedirects(videos: map<nat, VideoModel.Video>, from: string, to: string)
    ensures var after := Cascade(videos, from, to);
      && after.Keys == videos.Keys
      && (from != to ==> UsesOf(after, from) == {})
      && UsesOf(after, to) == UsesOf(videos, from) + UsesOf(videos, to)
      && (forall k :: k in videos && videos[k].category == from ==> after[k] == videos[k].(category := to))
      && (forall k :: k in videos && videos[k].category != from ==> after[k] == videos[k])
  {
  }

  /** A cascade over no referencing video changes nothing. */
  lemma CascadeWithoutUses(videos: map<nat, VideoModel.Video>, from: string, to: string)
    requires |UsesOf(videos, from)| == 0
    ensures Cascade(videos, from, to) == videos
  {
    forall k | k in videos ensures videos[k].category != from {
      assert k !in UsesOf(videos, from);
    }
  }

  /** Renaming a category together with the cascade keeps every video's
      reference resolvable, whatever the new id. */
  lemma CascadeKeepsReferences(categories: map<nat, CategoryModel.Category>, videos: map<nat, VideoModel.Video>,
                               id: nat, renamed: CategoryModel.Category)
    requires id in categories
    requires References(categories, videos)
    ensures References(categories[id := renamed], Cascade(videos, categories[id].categoryId, renamed.categoryId))
  {
    var from := categories[id].categoryId;
    var after := categories[id := renamed];
    var moved := Cascade(videos, from, renamed.categoryId);
    forall k | k in moved ensures moved[k].category in CategoryIds(after) {
      if videos[k].category == from {
        assert after[id].categoryId == renamed.categoryId;
      } else {
        var j :| j in categories && categories[j].categoryId == videos[k].category;
        assert j != id;
        assert after[j].categoryId == videos[k].category;
      }
    }
  }

  /** DELETE /api/categories/:id: refused with the number of referencing
      videos while any video names the category; otherwise exactly that
      category goes. */
  method DeleteCategory(db: ContentStore, id: nat) returns (res: Code)
    requires db.Valid()
    modifies db
    ensures db.Valid()
    ensures id !in old(db.categories) ==> res == NotFound && unchanged(db)
    ensures id in old(db.categories) ==>
      var uses := UsesOf(old(db.videos), old(db.categories)[id].categoryId);
      if |uses| > 0 then res == CategoryInUse(|uses|) && unchanged(db)
      else
        && res == Ok
        && db.categories == old(db.categories) - {id}
        && db.videos == old(db.videos) && db.contacts == old(db.contacts)
        && db.users == old(db.users) && db.config == old(db.config) && db.nextId == old(db.nextId)
    ensures old(db.Integrity()) ==> db.Integrity()
  {
    if id !in db.categories {
      return NotFound;
    }
    var c := db.categories[id];
    var count := |UsesOf(db.videos, c.categoryId)|;
    if count > 0 {
      return CategoryInUse(count);
    }
    if db.Integrity() {
      UnusedDeleteKeepsReferences(db.categories, db.videos, id);
    }
    db.RemoveCategory(id);
    res := Ok;
  }

  /** Removing a category no video names keeps every reference resolvable. */
  lemma UnusedDeleteKeepsReferences(categories: map<nat, CategoryModel.Category>, videos: map<nat, VideoModel.Video>, id: nat)
    requires id in categories
    requires References(categories, videos)
    requires |UsesOf(videos, categories[id].categoryId)| == 0
    ensures References(categories - {id}, videos)
  {
    var after := categories - {id};
    forall k | k in videos ensures videos[k].category in CategoryIds(after) {
      var j :| j in categories && categories[j].categoryId == videos[k].category;
      assert k !in UsesOf(videos, categories[id].categoryId);
      assert j in after;
    }
  }

  /** A second delete of the same category finds nothing. */
  method DeleteTwice(db: ContentStore, id: nat) returns (first: Code, second: Code)
    requires db.Valid()
    modifies db
    ensures first == Ok ==> second == NotFound
    ensures id in old(db.categories) && |UsesOf(old(db.videos), old(db.categories)[id].categoryId)| == 0 ==>
      first == Ok && second == NotFound && db.categories == old(db.categories) - {id}
  {
    first := DeleteCategory(db, id);
    second := DeleteCategory(db, id);
  }

  /** The gap in `UpdateCategory`: when a category is renamed to an id that
      no category holds and `save` then rejects the document, the videos
      have already moved to that id while the category keeps the old one,
      so every moved video names a category that does not exist. */
  lemma RejectedRenameStrandsVideos(categories: map<nat, CategoryModel.Category>, videos: map<nat, VideoModel.Video>,
                                    id: nat, body: CategoryPatch, v: nat)
    requires id in categories && v in videos
    requires var c := categories[id];
      && Renames(c, body) && Merge(c, body).categoryId !in CategoryIds(categories)
      && videos[v].category == c.categoryId
    ensures var c := categories[id];
      var moved := Cascade(videos, c.categoryId, Merge(c, body).categoryId);
      && moved[v].category !in CategoryIds(categories)
      && !References(categories, moved)
  {
  }

  const ShortFilms: CategoryModel.Category := CategoryModel.Category("short-films", CategoryModel.Name("Curtas", "Short films"))

  const Clip: VideoModel.Video := VideoModel.Video(
    VideoModel.Title("Clipe", "Clip"), VideoModel.Description(None, None),
    "https://img.example/1.jpg", "https://video.example/1", "short-films", false, 0)

  lemma ShortFilmsIsStored()
    ensures CategoryModel.Stored(ShortFilms)
  {
    SlugIsTrimmed("short-films");
  }

  lemma ClipIsStored()
    ensures VideoModel.Stored(Clip)
  {
    assert Clip.thumbnail[..8] == "https://";
    assert Clip.videoUrl[..8] == "https://";
  }

  /** A store holding one category, "short-films", and one video in it. */
  method OneShortFilm() returns (db: ContentStore, cid: nat, vid: nat)
    ensures fresh(db)
    ensures db.Valid() && db.Integrity()
    ensures db.categories == map[cid := ShortFilms]
    ensures db.videos == map[vid := Clip]
  {
    db := new ContentStore();
    ShortFilmsIsStored();
    cid := db.InsertCategory(ShortFilms);
    ClipIsStored();
    vid := db.InsertVideo(Clip);
    assert db.categories[cid].categoryId == Clip.category;
  }

  /** A concrete run of the gap: a category "short-films" with one video,
      renamed to "Shorts". The upper-case id fails `^[a-z0-9-]+$`, the
      handler answers `server_error`, and the video now names "Shorts",
      which no category holds. */
  method RenameToCapitalisedIdStrandsVideo() returns (db: ContentStore, res: Code)
    ensures res == ServerError
    ensures db.Valid() && !db.Integrity()
    ensures CategoryIds(db.categories) == {"short-films"}
    ensures exists k :: k in db.videos && db.videos[k].category == "Shorts"
  {
    var cid, vid;
    db, cid, vid := OneShortFilm();
    var patch := CategoryPatch(Some("Shorts"), None);
    var c := db.categories[cid];
    var m := Merge(c, patch);
    ShortsRejected(c, patch);
    assert CategoryIds(db.categories) == {"short-films"} by {
      assert db.categories[cid].categoryId == "short-films";
    }
    ghost var ids := CategoryIds(db.categories);
    ghost var moved := Cascade(db.videos, "short-films", "Shorts");
    assert moved[vid].category == "Shorts";
    res := UpdateCategory(db, cid, patch);
    assert db.videos == moved;
    assert CategoryIds(db.categories) == ids;
    assert vid in db.videos && db.videos[vid].category !in CategoryIds(db.categories);
  }

  /** Renaming "short-films" to "Shorts": a rename to a free id that the
      pattern rejects. */
  lemma ShortsRejected(c: CategoryModel.Category, patch: CategoryPatch)
    requires c == ShortFilms && patch == CategoryPatch(Some("Shorts"), None)
    ensures Renames(c, patch)
    ensures Merge(c, patch).categoryId == "Shorts"
    ensures !CategoryModel.Valid(Merge(c, patch))
  {
    TrimNoSpace("Shorts");
    assert !SlugChar("Shorts"[0]);
  }

  /** The selection of one category's videos. */
  function InCategory(categoryId: string): VideoModel.Video -> bool {
    (v: VideoModel.Video) => v.category == categoryId
  }

  /** GET /api/categories/:id/videos: the page of the videos whose
      `category` is this category's id, with their count and
      `ceil(total / limit)` pages; without a sort, or with
      `createdAt_desc`, the page is newest first. A negative skip, or a
      sort key MongoDB refuses (such as the empty field of `_desc`), is a
      server error. */
  method GetCategoryVideos(db: ContentStore, id: nat, q: VideoPageQuery)
    returns (res: Code, listing: Listing<Doc<VideoModel.Video>>)
    requires db.Valid()
    ensures id !in db.categories ==> res == NotFound
    ensures id in db.categories ==>
      var p := ReadPaging(q.page, q.limit);
      var cid := db.categories[id].categoryId;
      var uses := UsesOf(db.videos, cid);
      && (res == Ok <==> p.skip >= 0 && SortAccepted(ParseSort(q.sort)))
      && (res != Ok ==> res == ServerError)
      && listing.total == |uses|
      && listing.page == p.page && listing.limit == p.limit
      && listing.pages == Pages(listing.total, p.limit)
      && |listing.items| == (if res != Ok then 0 else Min(Abs(p.limit), Max(0, |uses| - p.skip)))
      && (forall i :: 0 <= i < |listing.items| ==>
           && listing.items[i].id in uses
           && listing.items[i].doc == db.videos[listing.items[i].id])
      && (ParseSort(q.sort) == DefaultSort ==>
           forall i :: 0 <= i < |listing.items| ==> |Newer(uses, listing.items[i].id)| == p.skip + i)
  {
    listing := Listing([], 0, 0, 0, 0);
    if id !in db.categories {
      return NotFound, listing;
    }
    var cid := db.categories[id].categoryId;
    var p := ReadPaging(q.page, q.limit);
    assert Selected(db.videos, InCategory(cid)) == UsesOf(db.videos, cid);
    var total := |UsesOf(db.videos, cid)|;
    var page := Page(db.videos, db.nextId, InCategory(cid), p.skip, p.limit);
    var found := page.Some? && SortAccepted(ParseSort(q.sort));
    var items := if found then page.value else [];
    listing := Listing(items, total, p.page, p.limit, Pages(total, p.limit));
    res := if found then Ok else ServerError;
  }
}
