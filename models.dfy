/**
 * The blog's records and the rules their `save` methods apply before a row is
 * written: an empty slug is derived from the name or title, and a post's
 * publication date is filled in once, the first time it is saved as published.
 * Also the default orderings of the record types.
 */
module Models {
  import opened Wrappers
  import opened Text
  import opened Ordering

  /** Primary key of a row. */
  type Id = nat

  /** A point in time; a larger value is later. */
  type Time = int

  /** Django's `slugify`, left uninterpreted. */
  type Slugify = string -> string

  datatype Status = Draft | Published | Private

  datatype Category = Category(name: string, slug: string, description: string)

  datatype Tag = Tag(name: string, slug: string)

  datatype Post = Post(
    title: string,
    slug: string,
    content: string,
    excerpt: string,
    wpPostId: Option<int>,
    status: Status,
    createdDate: Time,
    publishedDate: Option<Time>,
    categories: set<Id>,
    tags: set<Id>,
    metaDescription: string,
    featuredImage: string)

  datatype Page = Page(
    title: string,
    slug: string,
    content: string,
    wpPageId: Option<int>,
    isPublished: bool,
    createdDate: Time,
    metaDescription: string,
    showInToc: bool,
    tocOrder: int,
    category: Option<Id>)

  /** A table-of-contents heading that pages are grouped under. */
  datatype PageCategory = PageCategory(name: string, slug: string, description: string, order: int)

  datatype Comment = Comment(
    post: Id,
    authorName: string,
    authorEmail: string,
    authorUrl: string,
    content: string,
    createdDate: Time,
    isApproved: bool,
    wpCommentId: Option<int>)

  // ----- Field defaults -----

  /** A post built with only title, slug, content and creation time given; every other field takes its default. */
  function NewPost(title: string, slug: string, content: string, created: Time): Post {
    Post(title, slug, content, "", None, Draft, created, None, {}, {}, "", "")
  }

  /** A page built with only title, slug, content and creation time given. */
  function NewPage(title: string, slug: string, content: string, created: Time): Page {
    Page(title, slug, content, None, true, created, "", true, 0, None)
  }

  /** A comment built with only post, author, content and date given. */
  function NewComment(post: Id, authorName: string, content: string, created: Time): Comment {
    Comment(post, authorName, "", "", content, created, true, None)
  }

  /**
   * What the defaults mean once saved: a post starts as an unpublished draft,
   * a page is published and listed in the table of contents at position 0 with
   * no heading, and a comment is approved.
   */
  lemma DefaultsSaved(title: string, slug: string, content: string, created: Time, now: Time,
                      post: Id, author: string, slugify: Slugify)
    ensures SavedPost(NewPost(title, slug, content, created), now, slugify).status == Draft
    ensures SavedPost(NewPost(title, slug, content, created), now, slugify).publishedDate == None
    ensures var pg := SavedPage(NewPage(title, slug, content, created), slugify);
      pg.isPublished && pg.showInToc && pg.tocOrder == 0 && pg.category == None
    ensures NewComment(post, author, content, created).isApproved
  {
  }

  // ----- Save rules -----

  /** The slug a record is stored with: the given one, or `slugify(source)` when it is empty. */
  function SlugOr(slug: string, source: string, slugify: Slugify): (r: string)
    ensures slug != "" ==> r == slug
    ensures slug == "" ==> r == slugify(source)
  {
    if slug == "" then slugify(source) else slug
  }

  /** `Category.save`: only the slug may change, and only when it was empty. */
  function SavedCategory(c: Category, slugify: Slugify): (r: Category)
    ensures r == c.(slug := r.slug)
    ensures c.slug != "" ==> r == c
    ensures c.slug == "" ==> r.slug == slugify(c.name)
  {
    c.(slug := SlugOr(c.slug, c.name, slugify))
  }

  /** `Tag.save`: only the slug may change, and only when it was empty. */
  function SavedTag(t: Tag, slugify: Slugify): (r: Tag)
    ensures r == t.(slug := r.slug)
    ensures t.slug != "" ==> r == t
    ensures t.slug == "" ==> r.slug == slugify(t.name)
  {
    t.(slug := SlugOr(t.slug, t.name, slugify))
  }

  /**
   * `Post.save` at time `now`: an empty slug becomes `slugify(title)`, and a
   * published post without a publication date gets `now`. A date once set is
   * kept, and a draft or private save never sets one.
   */
  function SavedPost(p: Post, now: Time, slugify: Slugify): (r: Post)
    ensures r == p.(slug := r.slug, publishedDate := r.publishedDate)
    ensures p.slug != "" ==> r.slug == p.slug
    ensures p.slug == "" ==> r.slug == slugify(p.title)
    ensures p.publishedDate.Some? ==> r.publishedDate == p.publishedDate
    ensures p.status != Published ==> r.publishedDate == p.publishedDate
    ensures p.status == Published && p.publishedDate == None ==> r.publishedDate == Some(now)
  {
    var slugged := p.(slug := SlugOr(p.slug, p.title, slugify));
    if p.status == Published && p.publishedDate == None then slugged.(publishedDate := Some(now))
    else slugged
  }

  /** `Page.save`: only the slug may change, and only when it was empty. */
  function SavedPage(p: Page, slugify: Slugify): (r: Page)
    ensures r == p.(slug := r.slug)
    ensures p.slug != "" ==> r == p
    ensures p.slug == "" ==> r.slug == slugify(p.title)
  {
    p.(slug := SlugOr(p.slug, p.title, slugify))
  }

  /** A post that `save` leaves as it is, whatever the time. */
  predicate PostIsSaved(p: Post, slugify: Slugify) {
    (p.slug != "" || slugify(p.title) == "") && (p.status == Published ==> p.publishedDate.Some?)
  }

  predicate PageIsSaved(p: Page, slugify: Slugify) {
    p.slug != "" || slugify(p.title) == ""
  }

  /** Saving twice is saving once: the second save finds nothing left to fill in. */
  lemma SaveIdempotent(p: Post, pg: Page, c: Category, t: Tag, now: Time, later: Time, slugify: Slugify)
    ensures SavedPost(SavedPost(p, now, slugify), later, slugify) == SavedPost(p, now, slugify)
    ensures PostIsSaved(SavedPost(p, now, slugify), slugify)
    ensures SavedPage(SavedPage(pg, slugify), slugify) == SavedPage(pg, slugify)
    ensures PageIsSaved(SavedPage(pg, slugify), slugify)
    ensures SavedCategory(SavedCategory(c, slugify), slugify) == SavedCategory(c, slugify)
    ensures SavedTag(SavedTag(t, slugify), slugify) == SavedTag(t, slugify)
  {
  }

  /** A record already in saved form is written back as it is, apart from the fields the caller changed. */
  lemma SavedFormIsFixed(p: Post, pg: Page, content: string, now: Time, slugify: Slugify)
    requires PostIsSaved(p, slugify) && PageIsSaved(pg, slugify)
    ensures SavedPost(p.(content := content), now, slugify) == p.(content := content)
    ensures SavedPage(pg.(content := content), slugify) == pg.(content := content)
  {
  }

  // ----- A post's publication date over a history of saves -----

  /** One edit-and-save of a post: its status is set, then it is saved at `now`. */
  datatype StatusSave = StatusSave(status: Status, now: Time)

  function ApplySaves(p: Post, saves: seq<StatusSave>, slugify: Slugify): Post
    decreases |saves|
  {
    if saves == [] then p
    else ApplySaves(SavedPost(p.(status := saves[0].status), saves[0].now, slugify), saves[1..], slugify)
  }

  /** The time of the first save made in published status, if any. */
  function FirstPublishTime(saves: seq<StatusSave>): (r: Option<Time>)
    ensures r.Some? <==> exists i :: 0 <= i < |saves| && saves[i].status == Published
    decreases |saves|
  {
    if saves == [] then None
    else if saves[0].status == Published then Some(saves[0].now)
    else
      var r := FirstPublishTime(saves[1..]);
      assert forall i :: 0 < i < |saves| ==> saves[i] == saves[1..][i - 1];
      r
  }

  /**
   * Set once: after any history of saves, the publication date is the one the
   * post already had, or else the time of the first save in published status;
   * later saves never overwrite it.
   */
  lemma {:induction false} PublishedDateSetOnce(p: Post, saves: seq<StatusSave>, slugify: Slugify)
    ensures ApplySaves(p, saves, slugify).publishedDate
      == if p.publishedDate.Some? then p.publishedDate else FirstPublishTime(saves)
    decreases |saves|
  {
    if saves != [] {
      PublishedDateSetOnce(SavedPost(p.(status := saves[0].status), saves[0].now, slugify), saves[1..], slugify);
    }
  }

  // ----- Default orderings -----

  /** SQL ordering of a nullable date: NULL sorts before every date (SQLite). */
  predicate DateBefore(x: Option<Time>, y: Option<Time>) {
    (x.None? && y.Some?) || (x.Some? && y.Some? && x.value < y.value)
  }

  /** Post's `Meta.ordering`: `published_date` descending (undated last), then `created_date` descending. */
  predicate PostLe(a: Post, b: Post) {
    DateBefore(b.publishedDate, a.publishedDate)
    || (a.publishedDate == b.publishedDate && a.createdDate >= b.createdDate)
  }

  /** Comment's `Meta.ordering`: oldest first. */
  predicate CommentLe(a: Comment, b: Comment) {
    a.createdDate <= b.createdDate
  }

  /** PageCategory's ordering: `order`, then `name`. */
  predicate PageCategoryLe(a: PageCategory, b: PageCategory) {
    a.order < b.order || (a.order == b.order && StrLe(a.name, b.name))
  }

  /** The order pages take inside one table-of-contents group: `toc_order`, then `title`. */
  predicate TocLe(a: Page, b: Page) {
    a.tocOrder < b.tocOrder || (a.tocOrder == b.tocOrder && StrLe(a.title, b.title))
  }

  /** A key that sorts a row by its record, keeping its id alongside. */
  function ByRecord<R>(le: (R, R) -> bool): ((Id, R), (Id, R)) -> bool {
    (a: (Id, R), b: (Id, R)) => le(a.1, b.1)
  }

  /** Every ordering above compares any two records. */
  lemma OrderingsTotal()
    ensures Total(PostLe) && Total(CommentLe) && Total(PageCategoryLe) && Total(TocLe)
    ensures Total(ByRecord(PostLe)) && Total(ByRecord(PageCategoryLe)) && Total(ByRecord(TocLe))
  {
    forall a: Post, b: Post ensures PostLe(a, b) || PostLe(b, a) {
    }
    forall a: PageCategory, b: PageCategory ensures PageCategoryLe(a, b) || PageCategoryLe(b, a) {
      StrLeTotal(a.name, b.name);
    }
    forall a: Page, b: Page ensures TocLe(a, b) || TocLe(b, a) {
      StrLeTotal(a.title, b.title);
    }
    forall a: (Id, Post), b: (Id, Post) ensures ByRecord(PostLe)(a, b) || ByRecord(PostLe)(b, a) {
      assert PostLe(a.1, b.1) || PostLe(b.1, a.1);
    }
    forall a: (Id, PageCategory), b: (Id, PageCategory)
      ensures ByRecord(PageCategoryLe)(a, b) || ByRecord(PageCategoryLe)(b, a)
    {
      StrLeTotal(a.1.name, b.1.name);
    }
    forall a: (Id, Page), b: (Id, Page) ensures ByRecord(TocLe)(a, b) || ByRecord(TocLe)(b, a) {
      StrLeTotal(a.1.title, b.1.title);
    }
  }

  /** The page-category ordering ties two categories only when they share both sort keys, `order` and `name`. */
  lemma PageCategoryLeAntisymmetric(a: PageCategory, b: PageCategory)
    requires PageCategoryLe(a, b) && PageCategoryLe(b, a)
    ensures a.order == b.order && a.name == b.name
  {
    if a.order == b.order { StrLeAntisymmetric(a.name, b.name); }
  }
}
