/** The document store the controllers work on: one map per collection from
    record id to document, and the optional site-config singleton. Record ids
    come from one counter, so a larger id is a later creation (the
    `createdAt` order). Relations between collections are by value: a video
    names its category by `categoryId`. */
module Store {
  import opened Common
  import opened Text
  import opened Query
  import CategoryModel
  import VideoModel
  import ContactModel
  import SiteConfigModel
  import UserModel

  type Category = CategoryModel.Category
  type Video = VideoModel.Video
  type Contact = ContactModel.Contact
  type SiteConfig = SiteConfigModel.SiteConfig
  type User = UserModel.User

  /** The `categoryId`s held by some category. */
  function CategoryIds(categories: map<nat, Category>): set<string> {
    set k | k in categories :: categories[k].categoryId
  }

  /** The unique index on `categoryId`. */
  predicate UniqueCategoryIds(categories: map<nat, Category>) {
    forall j, k :: j in categories && k in categories && categories[j].categoryId == categories[k].categoryId ==> j == k
  }

  /** Referential integrity: every video names an existing category. */
  predicate References(categories: map<nat, Category>, videos: map<nat, Video>) {
    forall k :: k in videos ==> videos[k].category in CategoryIds(categories)
  }

  /** The videos `Video.countDocuments({ category })` counts. */
  function UsesOf(videos: map<nat, Video>, categoryId: string): set<nat> {
    set k | k in videos && videos[k].category == categoryId
  }

  /** `Video.updateMany({ category: from }, { category: to })`. */
  function Cascade(videos: map<nat, Video>, from: string, to: string): map<nat, Video> {
    map k | k in videos :: if videos[k].category == from then videos[k].(category := to) else videos[k]
  }

  /** The unique index on users' e-mail. */
  predicate UniqueEmails(users: map<nat, User>) {
    forall j, k :: j in users && k in users && users[j].email == users[k].email ==> j == k
  }

  function UsersWithEmail(users: map<nat, User>, email: string): set<nat> {
    set k | k in users && users[k].email == email
  }

  /** `Category.findOne({ categoryId: value })` finds a category: one whose
      id is the value after the trim setter, or, when the value is absent,
      any category at all, since an undefined filter value drops its clause
      and the query becomes `findOne({})`. */
  predicate CategoryFound(categories: map<nat, Category>, value: Option<string>) {
    if value.None? then categories != map[] else Trim(value.value) in CategoryIds(categories)
  }

  /** `User.findOne({ email: value })` finds a user: one with that address,
      or any user at all when the value is absent. */
  predicate UserFound(users: map<nat, User>, value: Option<string>) {
    if value.None? then users != map[] else UsersWithEmail(users, value.value) != {}
  }

  predicate IdsBelow<T>(m: map<nat, T>, bound: nat) {
    forall k :: k in m ==> k < bound
  }

  /** Every category as `save` accepted it, with a unique `categoryId`. */
  predicate StoredCategories(categories: map<nat, Category>) {
    (forall k :: k in categories ==> CategoryModel.Stored(categories[k])) && UniqueCategoryIds(categories)
  }

  predicate StoredVideos(videos: map<nat, Video>) {
    forall k :: k in videos ==> VideoModel.Stored(videos[k])
  }

  predicate StoredContacts(contacts: map<nat, Contact>) {
    forall k :: k in contacts ==> ContactModel.Valid(contacts[k])
  }

  class ContentStore {
    var categories: map<nat, Category>
    var videos: map<nat, Video>
    var contacts: map<nat, Contact>
    var users: map<nat, User>
    var config: Option<SiteConfig>
    var nextId: nat

    /** What the schemas and unique indexes guarantee of every stored
        document; every id was handed out by the counter. */
    ghost predicate Valid()
      reads this
    {
      && IdsBelow(categories, nextId) && StoredCategories(categories)
      && IdsBelow(videos, nextId) && StoredVideos(videos)
      && IdsBelow(contacts, nextId) && StoredContacts(contacts)
      && IdsBelow(users, nextId) && UniqueEmails(users)
      && (config.Some? ==> SiteConfigModel.Stored(config.value))
    }

    /** Every video's `category` names an existing `categoryId`. Nothing in
        the storage enforces this; the handlers have to keep it. */
    ghost predicate Integrity()
      reads this
    {
      References(categories, videos)
    }

    constructor ()
      ensures Valid() && Integrity()
      ensures categories == map[] && videos == map[] && contacts == map[] && users == map[]
      ensures config == None && nextId == 0
    {
      categories, videos, contacts, users := map[], map[], map[], map[];
      config := None;
      nextId := 0;
    }

    /** A fresh record id (a new ObjectId). */
    method FreshId() returns (id: nat)
      modifies this`nextId
      ensures id == old(nextId) && nextId == id + 1
    {
      id := nextId;
      nextId := nextId + 1;
    }

    /** `save` of a new category whose `categoryId` is not taken. */
    method InsertCategory(c: Category) returns (id: nat)
      requires Valid() && CategoryModel.Stored(c) && c.categoryId !in CategoryIds(categories)
      modifies this
      ensures Valid()
      ensures id == old(nextId) && nextId == id + 1 && id !in old(categories)
      ensures categories == old(categories)[id := c]
      ensures videos == old(videos) && contacts == old(contacts) && users == old(users) && config == old(config)
      ensures CategoryIds(categories) == CategoryIds(old(categories)) + {c.categoryId}
    {
      id := FreshId();
      AddKeepsCategoriesStored(categories, id, c);
      categories := categories[id := c];
    }

    /** `save` of an existing category, keeping its id or moving it to one
        no other category holds. */
    method ReplaceCategory(id: nat, c: Category)
      requires Valid() && id in categories && CategoryModel.Stored(c)
      requires c.categoryId == categories[id].categoryId || c.categoryId !in CategoryIds(categories)
      modifies this`categories
      ensures Valid()
      ensures categories == old(categories)[id := c]
    {
      ReplaceKeepsCategoriesStored(categories, id, c);
      categories := categories[id := c];
    }

    /** `deleteOne` on a category. */
    method RemoveCategory(id: nat)
      requires Valid()
      modifies this`categories
      ensures Valid()
      ensures categories == old(categories) - {id}
    {
      categories := categories - {id};
    }

    /** `updateMany({ category: from }, { category: to })`: the update
        bypasses validation; only the trim setter runs. */
    method RenameInVideos(from: string, to: string)
      requires Valid() && Trimmed(to)
      modifies this`videos
      ensures Valid()
      ensures videos == Cascade(old(videos), from, to)
    {
      CascadeKeepsVideosStored(videos, from, to);
      videos := Cascade(videos, from, to);
    }

    /** `save` of a new video. */
    method InsertVideo(v: Video) returns (id: nat)
      requires Valid() && VideoModel.Stored(v)
      modifies this
      ensures Valid()
      ensures id == old(nextId) && nextId == id + 1 && id !in old(videos)
      ensures videos == old(videos)[id := v]
      ensures categories == old(categories) && contacts == old(contacts) && users == old(users) && config == old(config)
    {
      id := FreshId();
      videos := videos[id := v];
    }

    /** `save` of an existing video. */
    method ReplaceVideo(id: nat, v: Video)
      requires Valid() && id in videos && VideoModel.Stored(v)
      modifies this`videos
      ensures Valid()
      ensures videos == old(videos)[id := v]
    {
      videos := videos[id := v];
    }

    /** `deleteOne` on a video. */
    method RemoveVideo(id: nat)
      requires Valid()
      modifies this`videos
      ensures Valid()
      ensures videos == old(videos) - {id}
    {
      videos := videos - {id};
    }

    /** `save` of a new contact message. */
    method InsertContact(m: Contact) returns (id: nat)
      requires Valid() && ContactModel.Valid(m)
      modifies this
      ensures Valid()
      ensures id == old(nextId) && nextId == id + 1 && id !in old(contacts)
      ensures contacts == old(contacts)[id := m]
      ensures categories == old(categories) && videos == old(videos) && users == old(users) && config == old(config)
    {
      id := FreshId();
      contacts := contacts[id := m];
    }

    /** `save` of an existing contact message. */
    method ReplaceContact(id: nat, m: Contact)
      requires Valid() && id in contacts && ContactModel.Valid(m)
      modifies this`contacts
      ensures Valid()
      ensures contacts == old(contacts)[id := m]
    {
      contacts := contacts[id := m];
    }

    /** `deleteOne` on a contact message. */
    method RemoveContact(id: nat)
      requires Valid()
      modifies this`contacts
      ensures Valid()
      ensures contacts == old(contacts) - {id}
    {
      contacts := contacts - {id};
    }

    /** `save` of a new user whose e-mail is not taken. */
    method InsertUser(u: User) returns (id: nat)
      requires Valid() && UsersWithEmail(users, u.email) == {}
      modifies this
      ensures Valid()
      ensures id == old(nextId) && nextId == id + 1 && id !in old(users)
      ensures users == old(users)[id := u]
      ensures categories == old(categories) && videos == old(videos) && contacts == old(contacts) && config == old(config)
    {
      id := FreshId();
      AddKeepsEmailsUnique(users, id, u);
      users := users[id := u];
    }

    /** `save` of an existing user, keeping the e-mail or taking one no
        other user holds. */
    method ReplaceUser(id: nat, u: User)
      requires Valid() && id in users
      requires UsersWithEmail(users, u.email) <= {id}
      modifies this`users
      ensures Valid()
      ensures users == old(users)[id := u]
    {
      ReplaceKeepsEmailsUnique(users, id, u);
      users := users[id := u];
    }

    /** `save` of the site-config singleton. */
    method SetConfig(c: SiteConfig)
      requires Valid() && SiteConfigModel.Stored(c)
      modifies this`config
      ensures Valid()
      ensures config == Some(c)
    {
      config := Some(c);
    }
  }

  /** A category whose id no other holds keeps the ids unique. */
  lemma AddKeepsCategoriesStored(categories: map<nat, Category>, id: nat, c: Category)
    requires StoredCategories(categories) && CategoryModel.Stored(c)
    requires id !in categories && c.categoryId !in CategoryIds(categories)
    ensures StoredCategories(categories[id := c])
    ensures CategoryIds(categories[id := c]) == CategoryIds(categories) + {c.categoryId}
  {
    forall j | j in categories ensures categories[j].categoryId != c.categoryId {
      assert categories[j].categoryId in CategoryIds(categories);
    }
    var after := categories[id := c];
    forall x | x in CategoryIds(categories) ensures x in CategoryIds(after) {
      var k :| k in categories && categories[k].categoryId == x;
      assert after[k] == categories[k];
    }
    assert after[id].categoryId == c.categoryId;
  }

  /** Replacing a category by a stored one that keeps its id, or takes an
      id no category holds, keeps the ids unique. */
  lemma ReplaceKeepsCategoriesStored(categories: map<nat, Category>, id: nat, c: Category)
    requires id in categories && StoredCategories(categories) && CategoryModel.Stored(c)
    requires c.categoryId == categories[id].categoryId || c.categoryId !in CategoryIds(categories)
    ensures StoredCategories(categories[id := c])
  {
    forall j | j in categories && j != id ensures categories[j].categoryId != c.categoryId {
      if c.categoryId != categories[id].categoryId {
        assert categories[j].categoryId in CategoryIds(categories);
      }
    }
  }

  /** Moving videos to a trimmed category id leaves each as the setters
      leave it. */
  lemma CascadeKeepsVideosStored(videos: map<nat, Video>, from: string, to: string)
    requires StoredVideos(videos) && Trimmed(to)
    ensures StoredVideos(Cascade(videos, from, to))
  {
    var after := Cascade(videos, from, to);
    forall k | k in after ensures VideoModel.Stored(after[k]) {
      assert after[k] == if videos[k].category == from then videos[k].(category := to) else videos[k];
    }
  }

  lemma AddKeepsEmailsUnique(users: map<nat, User>, id: nat, u: User)
    requires UniqueEmails(users) && UsersWithEmail(users, u.email) == {}
    ensures UniqueEmails(users[id := u])
  {
    forall j | j in users && j != id ensures users[j].email != u.email {
      assert j !in UsersWithEmail(users, u.email);
    }
  }

  lemma ReplaceKeepsEmailsUnique(users: map<nat, User>, id: nat, u: User)
    requires UniqueEmails(users) && UsersWithEmail(users, u.email) <= {id}
    ensures UniqueEmails(users[id := u])
  {
    forall j | j in users && j != id ensures users[j].email != u.email {
      assert j !in UsersWithEmail(users, u.email);
    }
  }

  predicate Decreasing(ids: seq<nat>) {
    forall i, j :: 0 <= i < j < |ids| ==> ids[i] > ids[j]
  }

  function Elems(ids: seq<nat>): set<nat> {
    set i | i in ids
  }

  /** The ids of the documents of `m` that `keep` selects: all of them, each
      once, newest first (the default `sort({ createdAt: -1 })` of the
      listings), and as many as `countDocuments` counts. */
  method NewestFirst<T>(m: map<nat, T>, bound: nat, keep: T -> bool) returns (ids: seq<nat>)
    requires IdsBelow(m, bound)
    ensures Elems(ids) == Selected(m, keep)
    ensures forall i :: 0 <= i < |ids| ==> ids[i] in m && keep(m[ids[i]])
    ensures Decreasing(ids)
    ensures |ids| == |Selected(m, keep)|
  {
    ids := [];
    var n := bound;
    while n > 0
      invariant n <= bound
      invariant forall i :: 0 <= i < |ids| ==> ids[i] in m && keep(m[ids[i]]) && ids[i] >= n
      invariant forall k :: n <= k && k in m && keep(m[k]) ==> k in ids
      invariant Decreasing(ids)
    {
      n := n - 1;
      if n in m && keep(m[n]) {
        ids := ids + [n];
      }
    }
    DecreasingCount(ids);
  }

  /** A strictly decreasing sequence has as many elements as distinct values. */
  lemma {:induction false} DecreasingCount(ids: seq<nat>)
    requires Decreasing(ids)
    ensures |Elems(ids)| == |ids|
  {
    if ids != [] {
      var tail := ids[1..];
      assert Decreasing(tail) by {
        forall i, j | 0 <= i < j < |tail| ensures tail[i] > tail[j] {
          assert tail[i] == ids[i + 1] && tail[j] == ids[j + 1];
        }
      }
      DecreasingCount(tail);
      assert Elems(ids) == {ids[0]} + Elems(tail) by {
        assert ids == [ids[0]] + tail;
      }
      assert ids[0] !in Elems(tail) by {
        forall j | 0 <= j < |tail| ensures tail[j] != ids[0] {
          assert tail[j] == ids[j + 1];
        }
      }
    }
  }

  /** A document together with its record id, as a query returns it. */
  datatype Doc<T> = Doc(id: nat, doc: T)

  /** The ids of the documents of `m` that `keep` selects. */
  function Selected<T>(m: map<nat, T>, keep: T -> bool): set<nat> {
    set k | k in m && keep(m[k])
  }

  /** The ids in `s` created after `id`. */
  function Newer(s: set<nat>, id: nat): set<nat> {
    set k | k in s && k > id
  }

  function Min(a: int, b: int): int {
    if a < b then a else b
  }

  function Max(a: int, b: int): int {
    if a < b then b else a
  }

  /** In a strictly decreasing sequence, the elements greater than the j-th
      are the j before it. */
  lemma {:induction false} DecreasingRank(ids: seq<nat>, j: nat)
    requires Decreasing(ids) && j < |ids|
    ensures Newer(Elems(ids), ids[j]) == Elems(ids[..j])
    ensures |Newer(Elems(ids), ids[j])| == j
  {
    var pre := ids[..j];
    forall k | k in Newer(Elems(ids), ids[j]) ensures k in Elems(pre) {
      var i :| 0 <= i < |ids| && ids[i] == k;
      assert i < j;
      assert pre[i] == k;
    }
    forall k | k in Elems(pre) ensures k in Newer(Elems(ids), ids[j]) {
      var i :| 0 <= i < |pre| && pre[i] == k;
      assert ids[i] == k;
    }
    assert Decreasing(pre);
    DecreasingCount(pre);
  }

  /** `find(filter).sort({ createdAt: -1 }).skip(skip).limit(limit)`: the
      database rejects a negative skip; otherwise the page holds
      min(|limit|, selected - skip) documents (none past the end), each
      selected, with its stored contents, and the i-th has exactly
      skip + i selected documents newer than it, which fixes both the
      order and the window. */
  method Page<T>(m: map<nat, T>, bound: nat, keep: T -> bool, skip: int, limit: int) returns (r: Option<seq<Doc<T>>>)
    requires IdsBelow(m, bound) && limit != 0
    ensures r.None? <==> skip < 0
    ensures r.Some? ==> |r.value| == Min(Abs(limit), Max(0, |Selected(m, keep)| - skip))
    ensures r.Some? ==> forall i :: 0 <= i < |r.value| ==>
      && r.value[i].id in Selected(m, keep)
      && r.value[i].doc == m[r.value[i].id]
      && |Newer(Selected(m, keep), r.value[i].id)| == skip + i
  {
    var ids := NewestFirst(m, bound, keep);
    var docs := seq(|ids|, i requires 0 <= i < |ids| => Doc(ids[i], m[ids[i]]));
    r := Window(docs, skip, limit);
    if r.Some? {
      forall i | 0 <= i < |r.value|
        ensures r.value[i].id in Selected(m, keep)
        ensures r.value[i].doc == m[r.value[i].id]
        ensures |Newer(Selected(m, keep), r.value[i].id)| == skip + i
      {
        assert r.value[i] == docs[skip + i];
        DecreasingRank(ids, skip + i);
      }
    }
  }
}
