/**
 * The database as a value: one map from primary key to record per table, the
 * next key to hand out, and the posts the publish receiver has dispatched
 * notifications for, in order. Every write goes through the save rules of
 * `Models`, and every post write goes past the receiver of `Signals`.
 */
module Database {
  import opened Wrappers
  import opened Ordering
  import opened Models
  import Signals

  datatype Db = Db(
    categories: map<Id, Category>,
    tags: map<Id, Tag>,
    posts: map<Id, Post>,
    pages: map<Id, Page>,
    comments: map<Id, Comment>,
    pageCategories: map<Id, PageCategory>,
    nextId: Id,
    notified: seq<Id>)

  // ----- Integrity -----

  /** Every key in use is below `nextId`, so `nextId` is free in every table. */
  predicate KeysBelowNext(db: Db) {
    (forall k :: k in db.categories ==> k < db.nextId)
    && (forall k :: k in db.tags ==> k < db.nextId)
    && (forall k :: k in db.posts ==> k < db.nextId)
    && (forall k :: k in db.pages ==> k < db.nextId)
    && (forall k :: k in db.comments ==> k < db.nextId)
    && (forall k :: k in db.pageCategories ==> k < db.nextId)
  }

  /** Category and tag names are unique (`unique=True` on both). */
  predicate UniqueNames(db: Db) {
    (forall i, j :: i in db.categories && j in db.categories && db.categories[i].name == db.categories[j].name ==> i == j)
    && (forall i, j :: i in db.tags && j in db.tags && db.tags[i].name == db.tags[j].name ==> i == j)
  }

  /** No two rows of a table carry the same WordPress id, so a lookup by it finds at most one row. */
  predicate UniqueWpIds(db: Db) {
    (forall i, j ::
       i in db.posts && j in db.posts && db.posts[i].wpPostId.Some? && db.posts[i].wpPostId == db.posts[j].wpPostId
       ==> i == j)
    && (forall i, j ::
          i in db.pages && j in db.pages && db.pages[i].wpPageId.Some? && db.pages[i].wpPageId == db.pages[j].wpPageId
          ==> i == j)
    && (forall i, j ::
          i in db.comments && j in db.comments && db.comments[i].wpCommentId.Some?
          && db.comments[i].wpCommentId == db.comments[j].wpCommentId
          ==> i == j)
  }

  /** Every foreign key and many-to-many link names an existing row. */
  predicate LinksValid(db: Db) {
    (forall k :: k in db.posts ==> db.posts[k].categories <= db.categories.Keys && db.posts[k].tags <= db.tags.Keys)
    && (forall k :: k in db.comments ==> db.comments[k].post in db.posts)
    && (forall k :: k in db.pages && db.pages[k].category.Some? ==> db.pages[k].category.value in db.pageCategories)
  }

  predicate ValidDb(db: Db) {
    KeysBelowNext(db) && UniqueNames(db) && UniqueWpIds(db) && LinksValid(db)
  }

  /** Every post and page row is in the form its `save` leaves it in. */
  predicate AllSaved(db: Db, slugify: Slugify) {
    (forall k :: k in db.posts ==> PostIsSaved(db.posts[k], slugify))
    && (forall k :: k in db.pages ==> PageIsSaved(db.pages[k], slugify))
  }

  // ----- Lookups -----

  predicate HasCategoryNamed(db: Db, name: string) {
    exists k :: k in db.categories && db.categories[k].name == name
  }

  predicate HasTagNamed(db: Db, name: string) {
    exists k :: k in db.tags && db.tags[k].name == name
  }

  /** The rows `Category.objects.get(name=...)` can return. */
  function CategoriesNamed(db: Db, name: string): set<Id> {
    set k | k in db.categories && db.categories[k].name == name
  }

  function TagsNamed(db: Db, name: string): set<Id> {
    set k | k in db.tags && db.tags[k].name == name
  }

  /** With unique names a lookup by name finds exactly the one row, or nothing. */
  lemma NamedLookup(db: Db, name: string, k: Id)
    requires UniqueNames(db)
    ensures k in db.categories && db.categories[k].name == name ==> CategoriesNamed(db, name) == {k}
    ensures k in db.tags && db.tags[k].name == name ==> TagsNamed(db, name) == {k}
    ensures !HasCategoryNamed(db, name) ==> CategoriesNamed(db, name) == {}
    ensures !HasTagNamed(db, name) ==> TagsNamed(db, name) == {}
  {
  }

  predicate HasPostWp(db: Db, wpId: int) {
    exists k :: k in db.posts && db.posts[k].wpPostId == Some(wpId)
  }

  predicate HasPageWp(db: Db, wpId: int) {
    exists k :: k in db.pages && db.pages[k].wpPageId == Some(wpId)
  }

  predicate HasCommentWp(db: Db, wpId: int) {
    exists k :: k in db.comments && db.comments[k].wpCommentId == Some(wpId)
  }

  /** The pages whose slug is `slug`. */
  function PagesWithSlug(db: Db, slug: string): set<Id> {
    set k | k in db.pages && db.pages[k].slug == slug
  }

  /** Rows are only added: every existing category, tag and comment stays as it is, and every post and page keeps its WordPress id. */
  predicate Grows(db: Db, r: Db) {
    (forall k :: k in db.categories ==> k in r.categories && r.categories[k] == db.categories[k])
    && (forall k :: k in db.tags ==> k in r.tags && r.tags[k] == db.tags[k])
    && (forall k :: k in db.posts ==> k in r.posts && r.posts[k].wpPostId == db.posts[k].wpPostId)
    && (forall k :: k in db.pages ==> k in r.pages && r.pages[k].wpPageId == db.pages[k].wpPageId)
    && (forall k :: k in db.comments ==> k in r.comments && r.comments[k] == db.comments[k])
  }

  lemma GrowsTransitive(a: Db, b: Db, c: Db)
    ensures Grows(a, b) && Grows(b, c) ==> Grows(a, c)
  {
  }

  /** What a lookup finds before the database grows, it still finds after. */
  lemma GrowsKeepsLookups(a: Db, b: Db)
    ensures Grows(a, b) ==>
      (forall n :: HasCategoryNamed(a, n) ==> HasCategoryNamed(b, n))
      && (forall n :: HasTagNamed(a, n) ==> HasTagNamed(b, n))
      && (forall w :: HasPostWp(a, w) ==> HasPostWp(b, w))
      && (forall w :: HasPageWp(a, w) ==> HasPageWp(b, w))
      && (forall w :: HasCommentWp(a, w) ==> HasCommentWp(b, w))
  {
    if Grows(a, b) {
      forall n | HasCategoryNamed(a, n) ensures HasCategoryNamed(b, n) {
        var k :| k in a.categories && a.categories[k].name == n;
        assert b.categories[k].name == n;
      }
      forall n | HasTagNamed(a, n) ensures HasTagNamed(b, n) {
        var k :| k in a.tags && a.tags[k].name == n;
        assert b.tags[k].name == n;
      }
      forall w | HasPostWp(a, w) ensures HasPostWp(b, w) {
        var k :| k in a.posts && a.posts[k].wpPostId == Some(w);
        assert b.posts[k].wpPostId == Some(w);
      }
      forall w | HasPageWp(a, w) ensures HasPageWp(b, w) {
        var k :| k in a.pages && a.pages[k].wpPageId == Some(w);
        assert b.pages[k].wpPageId == Some(w);
      }
      forall w | HasCommentWp(a, w) ensures HasCommentWp(b, w) {
        var k :| k in a.comments && a.comments[k].wpCommentId == Some(w);
        assert b.comments[k].wpCommentId == Some(w);
      }
    }
  }

  // ----- Writing one row keeps integrity -----

  /** A post row written under a key below the next one, with existing links and a WordPress id of its own. */
  predicate PostRowFits(db: Db, k: Id, q: Post, next: Id) {
    k < next && db.nextId <= next
    && q.categories <= db.categories.Keys && q.tags <= db.tags.Keys
    && (q.wpPostId.Some? ==> forall j :: j in db.posts && j != k ==> db.posts[j].wpPostId != q.wpPostId)
  }

  lemma PutPostValid(db: Db, k: Id, q: Post, next: Id, notified: seq<Id>)
    requires ValidDb(db) && PostRowFits(db, k, q, next)
    ensures ValidDb(db.(posts := db.posts[k := q], nextId := next, notified := notified))
  {
    PutPostKeys(db, k, q, next, notified);
    PutPostUnique(db, k, q, next, notified);
    PutPostLinks(db, k, q, next, notified);
  }

  lemma PutPostKeys(db: Db, k: Id, q: Post, next: Id, notified: seq<Id>)
    requires KeysBelowNext(db) && UniqueNames(db) && k < next && db.nextId <= next
    ensures KeysBelowNext(db.(posts := db.posts[k := q], nextId := next, notified := notified))
    ensures UniqueNames(db.(posts := db.posts[k := q], nextId := next, notified := notified))
  {
  }

  lemma PutPostUnique(db: Db, k: Id, q: Post, next: Id, notified: seq<Id>)
    requires UniqueWpIds(db)
    requires q.wpPostId.Some? ==> forall j :: j in db.posts && j != k ==> db.posts[j].wpPostId != q.wpPostId
    ensures UniqueWpIds(db.(posts := db.posts[k := q], nextId := next, notified := notified))
  {
  }

  lemma PutPostLinks(db: Db, k: Id, q: Post, next: Id, notified: seq<Id>)
    requires LinksValid(db) && q.categories <= db.categories.Keys && q.tags <= db.tags.Keys
    ensures LinksValid(db.(posts := db.posts[k := q], nextId := next, notified := notified))
  {
  }

  /** A page row written under a key below the next one, under an existing heading and with a WordPress id of its own. */
  predicate PageRowFits(db: Db, k: Id, q: Page, next: Id) {
    k < next && db.nextId <= next
    && (q.category.Some? ==> q.category.value in db.pageCategories)
    && (q.wpPageId.Some? ==> forall j :: j in db.pages && j != k ==> db.pages[j].wpPageId != q.wpPageId)
  }

  lemma PutPageValid(db: Db, k: Id, q: Page, next: Id)
    requires ValidDb(db) && PageRowFits(db, k, q, next)
    ensures ValidDb(db.(pages := db.pages[k := q], nextId := next))
  {
    PutPageKeys(db, k, q, next);
    PutPageUnique(db, k, q, next);
    PutPageLinks(db, k, q, next);
  }

  lemma PutPageKeys(db: Db, k: Id, q: Page, next: Id)
    requires KeysBelowNext(db) && UniqueNames(db) && k < next && db.nextId <= next
    ensures KeysBelowNext(db.(pages := db.pages[k := q], nextId := next))
    ensures UniqueNames(db.(pages := db.pages[k := q], nextId := next))
  {
  }

  lemma PutPageUnique(db: Db, k: Id, q: Page, next: Id)
    requires UniqueWpIds(db)
    requires q.wpPageId.Some? ==> forall j :: j in db.pages && j != k ==> db.pages[j].wpPageId != q.wpPageId
    ensures UniqueWpIds(db.(pages := db.pages[k := q], nextId := next))
  {
  }

  lemma PutPageLinks(db: Db, k: Id, q: Page, next: Id)
    requires LinksValid(db) && (q.category.Some? ==> q.category.value in db.pageCategories)
    ensures LinksValid(db.(pages := db.pages[k := q], nextId := next))
  {
  }

  // ----- Writes -----

  /**
   * `Category.objects.get_or_create(name=..., defaults=...)`: an existing name
   * leaves the database as it is; a new name is inserted, through `save`, under
   * the next key.
   */
  function GetOrCreateCategory(db: Db, name: string, slug: string, description: string, slugify: Slugify): (r: Db)
    ensures HasCategoryNamed(db, name) ==> r == db
    ensures !HasCategoryNamed(db, name) ==>
      r == db.(categories := db.categories[db.nextId := SavedCategory(Category(name, slug, description), slugify)],
               nextId := db.nextId + 1)
    ensures HasCategoryNamed(r, name)
  {
    if HasCategoryNamed(db, name) then db
    else
      var r := db.(categories := db.categories[db.nextId := SavedCategory(Category(name, slug, description), slugify)],
                   nextId := db.nextId + 1);
      assert r.categories[db.nextId].name == name;
      r
  }

  /** A category created under a new name keeps integrity. */
  lemma GetOrCreateCategoryValid(db: Db, name: string, slug: string, description: string, slugify: Slugify)
    requires ValidDb(db)
    ensures var r := GetOrCreateCategory(db, name, slug, description, slugify); ValidDb(r) && Grows(db, r)
  {
    if !HasCategoryNamed(db, name) {
      var c := SavedCategory(Category(name, slug, description), slugify);
      PutCategoryValid(db, c);
    }
  }

  /** A category under a name no row has yet, stored under the next key, keeps integrity. */
  lemma PutCategoryValid(db: Db, c: Category)
    requires ValidDb(db) && !HasCategoryNamed(db, c.name)
    ensures var r := db.(categories := db.categories[db.nextId := c], nextId := db.nextId + 1);
      ValidDb(r) && Grows(db, r)
  {
    var r := db.(categories := db.categories[db.nextId := c], nextId := db.nextId + 1);
    assert KeysBelowNext(r) && UniqueWpIds(r) && LinksValid(r);
    PutCategoryNames(db, c);
  }

  lemma PutCategoryNames(db: Db, c: Category)
    requires UniqueNames(db) && !HasCategoryNamed(db, c.name)
    ensures UniqueNames(db.(categories := db.categories[db.nextId := c], nextId := db.nextId + 1))
  {
    var r := db.(categories := db.categories[db.nextId := c], nextId := db.nextId + 1);
    forall i, j | i in r.categories && j in r.categories && r.categories[i].name == r.categories[j].name
      ensures i == j
    {
    }
  }

  /** `Tag.objects.get_or_create(name=..., defaults=...)`. */
  function GetOrCreateTag(db: Db, name: string, slug: string, slugify: Slugify): (r: Db)
    ensures HasTagNamed(db, name) ==> r == db
    ensures !HasTagNamed(db, name) ==>
      r == db.(tags := db.tags[db.nextId := SavedTag(Tag(name, slug), slugify)], nextId := db.nextId + 1)
    ensures HasTagNamed(r, name)
  {
    if HasTagNamed(db, name) then db
    else
      var r := db.(tags := db.tags[db.nextId := SavedTag(Tag(name, slug), slugify)], nextId := db.nextId + 1);
      assert r.tags[db.nextId].name == name;
      r
  }

  lemma GetOrCreateTagValid(db: Db, name: string, slug: string, slugify: Slugify)
    requires ValidDb(db)
    ensures var r := GetOrCreateTag(db, name, slug, slugify); ValidDb(r) && Grows(db, r)
  {
    if !HasTagNamed(db, name) {
      PutTagValid(db, SavedTag(Tag(name, slug), slugify));
    }
  }

  /** A tag under a name no row has yet, stored under the next key, keeps integrity. */
  lemma PutTagValid(db: Db, t: Tag)
    requires ValidDb(db) && !HasTagNamed(db, t.name)
    ensures var r := db.(tags := db.tags[db.nextId := t], nextId := db.nextId + 1);
      ValidDb(r) && Grows(db, r)
  {
    var r := db.(tags := db.tags[db.nextId := t], nextId := db.nextId + 1);
    assert KeysBelowNext(r) && UniqueWpIds(r) && LinksValid(r);
    PutTagNames(db, t);
  }

  lemma PutTagNames(db: Db, t: Tag)
    requires UniqueNames(db) && !HasTagNamed(db, t.name)
    ensures UniqueNames(db.(tags := db.tags[db.nextId := t], nextId := db.nextId + 1))
  {
    var r := db.(tags := db.tags[db.nextId := t], nextId := db.nextId + 1);
    forall i, j | i in r.tags && j in r.tags && r.tags[i].name == r.tags[j].name
      ensures i == j
    {
    }
  }

  /** The key a post save writes under: the instance's own, or the next free one for a new row. */
  function SaveKey(db: Db, pk: Option<Id>): Id {
    pk.GetOr(db.nextId)
  }

  /**
   * `post.save()` for an instance `p` that is new (`pk == None`) or already
   * stored under `pk`: the row written is `p` after the save rules, and the
   * post-save receiver runs, recording a dispatch when the saved post is published.
   */
  function SavePostRow(db: Db, pk: Option<Id>, p: Post, now: Time, slugify: Slugify): (r: Db)
    requires pk.Some? ==> pk.value in db.posts
    ensures r.posts == db.posts[SaveKey(db, pk) := SavedPost(p, now, slugify)]
    ensures r.nextId == if pk.None? then db.nextId + 1 else db.nextId
    ensures r.notified == db.notified + if p.status == Published then [SaveKey(db, pk)] else []
    ensures r == db.(posts := r.posts, nextId := r.nextId, notified := r.notified)
  {
    var key := SaveKey(db, pk);
    var saved := SavedPost(p, now, slugify);
    db.(posts := db.posts[key := saved],
        nextId := if pk.None? then db.nextId + 1 else db.nextId,
        notified := db.notified + if saved.status == Published then [key] else [])
  }

  /** The instance may be written without breaking integrity: its links exist and its WordPress id is its own. */
  predicate PostFits(db: Db, pk: Option<Id>, p: Post) {
    p.categories <= db.categories.Keys && p.tags <= db.tags.Keys
    && (p.wpPostId.Some? ==> forall k :: k in db.posts && Some(k) != pk ==> db.posts[k].wpPostId != p.wpPostId)
  }

  lemma SavePostRowValid(db: Db, pk: Option<Id>, p: Post, now: Time, slugify: Slugify)
    requires pk.Some? ==> pk.value in db.posts
    requires ValidDb(db) && PostFits(db, pk, p)
    ensures ValidDb(SavePostRow(db, pk, p, now, slugify))
    ensures pk.None? ==> Grows(db, SavePostRow(db, pk, p, now, slugify))
    ensures AllSaved(db, slugify) ==> AllSaved(SavePostRow(db, pk, p, now, slugify), slugify)
  {
    var r := SavePostRow(db, pk, p, now, slugify);
    var saved := SavedPost(p, now, slugify);
    assert PostRowFits(db, SaveKey(db, pk), saved, r.nextId);
    PutPostValid(db, SaveKey(db, pk), saved, r.nextId, r.notified);
    SavePostRowGrows(db, pk, p, now, slugify);
    SavePostRowSaved(db, pk, p, now, slugify);
  }

  lemma SavePostRowGrows(db: Db, pk: Option<Id>, p: Post, now: Time, slugify: Slugify)
    requires pk.Some? ==> pk.value in db.posts
    requires KeysBelowNext(db)
    ensures pk.None? ==> Grows(db, SavePostRow(db, pk, p, now, slugify))
  {
  }

  lemma SavePostRowSaved(db: Db, pk: Option<Id>, p: Post, now: Time, slugify: Slugify)
    requires pk.Some? ==> pk.value in db.posts
    ensures AllSaved(db, slugify) ==> AllSaved(SavePostRow(db, pk, p, now, slugify), slugify)
  {
    SaveIdempotent(p, NewPage("", "", "", 0), Category("", "", ""), Tag("", ""), now, now, slugify);
  }

  /**
   * What the database records of a post save is what the receiver decides: a
   * dispatch for the saved post exactly when the receiver calls the dispatcher,
   * whatever the dispatcher then does.
   */
  lemma SavePostNotifiesAsReceiver(db: Db, pk: Option<Id>, p: Post, now: Time, slugify: Slugify,
                                   outcome: Signals.DispatchOutcome)
    requires pk.Some? ==> pk.value in db.posts
    ensures SavePostRow(db, pk, p, now, slugify).notified
      == db.notified + if Signals.OnPostSaved(SavedPost(p, now, slugify), pk.None?, outcome).dispatched
                       then [SaveKey(db, pk)] else []
  {
  }

  /** `post.categories.add(...)`: a many-to-many insert; no save, so the receiver does not run. */
  function AddPostCategories(db: Db, postId: Id, ids: set<Id>): (r: Db)
    requires postId in db.posts
    ensures r == db.(posts := db.posts[postId := db.posts[postId].(categories := db.posts[postId].categories + ids)])
    ensures postId in r.posts && r.posts[postId].categories == db.posts[postId].categories + ids
    ensures Grows(db, r)
  {
    var p := db.posts[postId];
    db.(posts := db.posts[postId := p.(categories := p.categories + ids)])
  }

  /** `post.tags.add(...)`. */
  function AddPostTags(db: Db, postId: Id, ids: set<Id>): (r: Db)
    requires postId in db.posts
    ensures r == db.(posts := db.posts[postId := db.posts[postId].(tags := db.posts[postId].tags + ids)])
    ensures postId in r.posts && r.posts[postId].tags == db.posts[postId].tags + ids
    ensures Grows(db, r)
  {
    var p := db.posts[postId];
    db.(posts := db.posts[postId := p.(tags := p.tags + ids)])
  }

  /** Linking a post to existing categories and tags keeps integrity. */
  lemma AddPostLinksValid(db: Db, postId: Id, cats: set<Id>, tags: set<Id>)
    requires ValidDb(db) && postId in db.posts
    ensures cats <= db.categories.Keys ==> ValidDb(AddPostCategories(db, postId, cats))
    ensures tags <= db.tags.Keys ==> ValidDb(AddPostTags(db, postId, tags))
  {
    var p := db.posts[postId];
    if cats <= db.categories.Keys {
      var q := p.(categories := p.categories + cats);
      assert PostRowFits(db, postId, q, db.nextId);
      PutPostValid(db, postId, q, db.nextId, db.notified);
      assert AddPostCategories(db, postId, cats) == db.(posts := db.posts[postId := q], nextId := db.nextId, notified := db.notified);
    }
    if tags <= db.tags.Keys {
      var q := p.(tags := p.tags + tags);
      assert PostRowFits(db, postId, q, db.nextId);
      PutPostValid(db, postId, q, db.nextId, db.notified);
      assert AddPostTags(db, postId, tags) == db.(posts := db.posts[postId := q], nextId := db.nextId, notified := db.notified);
    }
  }

  /** `page.save()` for a new (`pk == None`) or stored instance. */
  function SavePageRow(db: Db, pk: Option<Id>, p: Page, slugify: Slugify): (r: Db)
    requires pk.Some? ==> pk.value in db.pages
    ensures r.pages == db.pages[pk.GetOr(db.nextId) := SavedPage(p, slugify)]
    ensures r == db.(pages := r.pages, nextId := if pk.None? then db.nextId + 1 else db.nextId)
  {
    db.(pages := db.pages[pk.GetOr(db.nextId) := SavedPage(p, slugify)],
        nextId := if pk.None? then db.nextId + 1 else db.nextId)
  }

  predicate PageFits(db: Db, pk: Option<Id>, p: Page) {
    (p.category.Some? ==> p.category.value in db.pageCategories)
    && (p.wpPageId.Some? ==> forall k :: k in db.pages && Some(k) != pk ==> db.pages[k].wpPageId != p.wpPageId)
  }

  lemma SavePageRowValid(db: Db, pk: Option<Id>, p: Page, slugify: Slugify)
    requires pk.Some? ==> pk.value in db.pages
    requires ValidDb(db) && PageFits(db, pk, p)
    ensures ValidDb(SavePageRow(db, pk, p, slugify))
    ensures pk.None? ==> Grows(db, SavePageRow(db, pk, p, slugify))
    ensures AllSaved(db, slugify) ==> AllSaved(SavePageRow(db, pk, p, slugify), slugify)
  {
    var r := SavePageRow(db, pk, p, slugify);
    assert PageRowFits(db, pk.GetOr(db.nextId), SavedPage(p, slugify), r.nextId);
    PutPageValid(db, pk.GetOr(db.nextId), SavedPage(p, slugify), r.nextId);
    SavePageRowGrows(db, pk, p, slugify);
    SavePageRowSaved(db, pk, p, slugify);
  }

  lemma SavePageRowGrows(db: Db, pk: Option<Id>, p: Page, slugify: Slugify)
    requires pk.Some? ==> pk.value in db.pages
    requires KeysBelowNext(db)
    ensures pk.None? ==> Grows(db, SavePageRow(db, pk, p, slugify))
  {
  }

  lemma SavePageRowSaved(db: Db, pk: Option<Id>, p: Page, slugify: Slugify)
    requires pk.Some? ==> pk.value in db.pages
    ensures AllSaved(db, slugify) ==> AllSaved(SavePageRow(db, pk, p, slugify), slugify)
  {
    SaveIdempotent(NewPost("", "", "", 0), p, Category("", "", ""), Tag("", ""), 0, 0, slugify);
  }

  /** `Comment.objects.create(...)`: comments have no save rule of their own. */
  function CreateComment(db: Db, c: Comment): (r: Db)
    ensures r == db.(comments := db.comments[db.nextId := c], nextId := db.nextId + 1)
  {
    db.(comments := db.comments[db.nextId := c], nextId := db.nextId + 1)
  }

  /** A comment on an existing post, with a WordPress id not yet stored, keeps integrity. */
  lemma CreateCommentValid(db: Db, c: Comment)
    requires ValidDb(db) && c.post in db.posts && (c.wpCommentId.Some? ==> !HasCommentWp(db, c.wpCommentId.value))
    ensures ValidDb(CreateComment(db, c)) && Grows(db, CreateComment(db, c))
  {
    CommentKeysAndLinks(db, c);
    CommentWpIdsUnique(db, c);
  }

  lemma CommentKeysAndLinks(db: Db, c: Comment)
    requires KeysBelowNext(db) && UniqueNames(db) && LinksValid(db) && c.post in db.posts
    ensures KeysBelowNext(CreateComment(db, c)) && UniqueNames(CreateComment(db, c))
    ensures LinksValid(CreateComment(db, c)) && Grows(db, CreateComment(db, c))
  {
  }

  lemma CommentWpIdsUnique(db: Db, c: Comment)
    requires KeysBelowNext(db) && UniqueWpIds(db) && (c.wpCommentId.Some? ==> !HasCommentWp(db, c.wpCommentId.value))
    ensures UniqueWpIds(CreateComment(db, c))
  {
  }

  /** Deleting a post deletes every comment on it (`on_delete=CASCADE`). */
  function DeletePost(db: Db, postId: Id): (r: Db)
    ensures r.posts == db.posts - {postId}
    ensures r.comments == map k | k in db.comments && db.comments[k].post != postId :: db.comments[k]
    ensures r == db.(posts := r.posts, comments := r.comments)
  {
    db.(posts := db.posts - {postId},
        comments := map k | k in db.comments && db.comments[k].post != postId :: db.comments[k])
  }

  /**
   * After the delete no comment refers to the post, every comment on another
   * post is still there unchanged, and integrity is kept.
   */
  lemma DeletePostCascades(db: Db, postId: Id)
    requires ValidDb(db)
    ensures var r := DeletePost(db, postId);
      ValidDb(r)
      && (forall k :: k in r.comments ==> r.comments[k].post != postId)
      && (forall k :: k in db.comments && db.comments[k].post != postId ==> k in r.comments && r.comments[k] == db.comments[k])
  {
    DeletePostKeys(db, postId);
    DeletePostLinks(db, postId);
  }

  lemma DeletePostKeys(db: Db, postId: Id)
    requires KeysBelowNext(db) && UniqueNames(db) && UniqueWpIds(db)
    ensures KeysBelowNext(DeletePost(db, postId)) && UniqueNames(DeletePost(db, postId)) && UniqueWpIds(DeletePost(db, postId))
  {
  }

  lemma DeletePostLinks(db: Db, postId: Id)
    requires LinksValid(db)
    ensures LinksValid(DeletePost(db, postId))
  {
  }

  /** Deleting a page heading leaves its pages uncategorised (`on_delete=SET_NULL`). */
  function DeletePageCategory(db: Db, catId: Id): (r: Db)
    ensures r.pageCategories == db.pageCategories - {catId}
    ensures r == db.(pageCategories := r.pageCategories, pages := r.pages)
    ensures r.pages.Keys == db.pages.Keys
    ensures forall k :: k in r.pages ==>
      r.pages[k] == if db.pages[k].category == Some(catId) then db.pages[k].(category := None) else db.pages[k]
  {
    db.(pageCategories := db.pageCategories - {catId},
        pages := map k | k in db.pages ::
          if db.pages[k].category == Some(catId) then db.pages[k].(category := None) else db.pages[k])
  }

  lemma DeletePageCategoryValid(db: Db, catId: Id)
    requires ValidDb(db)
    ensures ValidDb(DeletePageCategory(db, catId))
    ensures forall k :: k in DeletePageCategory(db, catId).pages ==> DeletePageCategory(db, catId).pages[k].category != Some(catId)
  {
    var r := DeletePageCategory(db, catId);
    DeletePageCategoryLinks(db, catId);
    assert UniqueWpIds(r) by {
      forall i, j |
        i in r.pages && j in r.pages && r.pages[i].wpPageId.Some? && r.pages[i].wpPageId == r.pages[j].wpPageId
        ensures i == j
      {
        assert r.pages[i].wpPageId == db.pages[i].wpPageId && r.pages[j].wpPageId == db.pages[j].wpPageId;
      }
    }
  }

  lemma DeletePageCategoryLinks(db: Db, catId: Id)
    requires LinksValid(db)
    ensures LinksValid(DeletePageCategory(db, catId))
  {
  }

  // ----- Query order -----

  /** The rows of a table whose keys are below `n`, each with its key, smallest key first. */
  function Rows<R(!new)>(m: map<Id, R>, n: nat): (r: seq<(Id, R)>)
    ensures forall row :: row in r <==> row.0 in m && row.0 < n && m[row.0] == row.1
    ensures forall i, j :: 0 <= i < j < |r| ==> r[i].0 < r[j].0
  {
    if n == 0 then []
    else
      var front := Rows(m, n - 1);
      assert forall i :: 0 <= i < |front| ==> front[i] in front;
      front + if n - 1 in m then [(n - 1, m[n - 1])] else []
  }

  /** Rows of a table never repeat. */
  lemma RowsNoDup<R(!new)>(m: map<Id, R>, n: nat)
    ensures NoDup(Rows(m, n))
  {
  }

  /** `Post.objects.all()`: every post, in the model's default ordering. */
  function PostsInOrder(db: Db): (r: seq<(Id, Post)>)
    requires KeysBelowNext(db)
    ensures multiset(r) == multiset(Rows(db.posts, db.nextId))
    ensures Sorted(r, ByRecord(PostLe))
  {
    OrderingsTotal();
    SortBy(Rows(db.posts, db.nextId), ByRecord(PostLe))
  }

  /** The query returns every stored post once over, each with its own key. */
  lemma PostsInOrderRows(db: Db)
    requires KeysBelowNext(db)
    ensures forall row :: row in PostsInOrder(db) <==> row.0 in db.posts && db.posts[row.0] == row.1
  {
    SameElements(PostsInOrder(db), Rows(db.posts, db.nextId));
  }
}
