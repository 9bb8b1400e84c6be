/**
 * The live database the management commands work on: one mutable map per
 * table. Each method is one ORM call, and its contract ties the new state to
 * the matching operation on `Database.Db`.
 */
module Store {
  import opened Wrappers
  import opened Models
  import opened Database

  class Store {
    var categories: map<Id, Category>
    var tags: map<Id, Tag>
    var posts: map<Id, Post>
    var pages: map<Id, Page>
    var comments: map<Id, Comment>
    var pageCategories: map<Id, PageCategory>
    var nextId: Id
    var notified: seq<Id>
    /** The `slugify` the save rules use. */
    const slugify: Slugify

    /** The whole database as a value. */
    function Snapshot(): Db
      reads this
    {
      Db(categories, tags, posts, pages, comments, pageCategories, nextId, notified)
    }

    predicate Valid()
      reads this
    {
      ValidDb(Snapshot())
    }

    /** An empty database. */
    constructor (slugify: Slugify)
      ensures Snapshot() == Db(map[], map[], map[], map[], map[], map[], 0, [])
      ensures this.slugify == slugify
      ensures Valid()
    {
      categories := map[];
      tags := map[];
      posts := map[];
      pages := map[];
      comments := map[];
      pageCategories := map[];
      nextId := 0;
      notified := [];
      this.slugify := slugify;
    }

    /** `Category.objects.get(name=name)`, with `DoesNotExist` as `None`. */
    method FindCategory(name: string) returns (r: Option<Id>)
      ensures r.Some? ==> r.value in categories && categories[r.value].name == name
      ensures r.None? <==> !HasCategoryNamed(Snapshot(), name)
    {
      if k :| k in categories && categories[k].name == name {
        r := Some(k);
      } else {
        r := None;
      }
    }

    /** `Tag.objects.get(name=name)`. */
    method FindTag(name: string) returns (r: Option<Id>)
      ensures r.Some? ==> r.value in tags && tags[r.value].name == name
      ensures r.None? <==> !HasTagNamed(Snapshot(), name)
    {
      if k :| k in tags && tags[k].name == name {
        r := Some(k);
      } else {
        r := None;
      }
    }

    /** `Post.objects.get(wp_post_id=wpId)`. */
    method FindPostByWpId(wpId: int) returns (r: Option<Id>)
      ensures r.Some? ==> r.value in posts && posts[r.value].wpPostId == Some(wpId)
      ensures r.None? <==> !HasPostWp(Snapshot(), wpId)
    {
      if k :| k in posts && posts[k].wpPostId == Some(wpId) {
        r := Some(k);
      } else {
        r := None;
      }
    }

    /** `Page.objects.get(wp_page_id=wpId)`. */
    method FindPageByWpId(wpId: int) returns (r: Option<Id>)
      ensures r.Some? ==> r.value in pages && pages[r.value].wpPageId == Some(wpId)
      ensures r.None? <==> !HasPageWp(Snapshot(), wpId)
    {
      if k :| k in pages && pages[k].wpPageId == Some(wpId) {
        r := Some(k);
      } else {
        r := None;
      }
    }

    /** `Comment.objects.get(wp_comment_id=wpId)`. */
    method FindCommentByWpId(wpId: int) returns (r: Option<Id>)
      ensures r.Some? ==> r.value in comments && comments[r.value].wpCommentId == Some(wpId)
      ensures r.None? <==> !HasCommentWp(Snapshot(), wpId)
    {
      if k :| k in comments && comments[k].wpCommentId == Some(wpId) {
        r := Some(k);
      } else {
        r := None;
      }
    }

    /** `Page.objects.filter(slug=slug)`: the keys of every page with that slug. */
    method PagesBySlug(slug: string) returns (ks: set<Id>)
      ensures ks == PagesWithSlug(Snapshot(), slug)
    {
      ks := set k | k in pages && pages[k].slug == slug;
    }

    /** `Category.objects.get_or_create(name=name, defaults={slug, description})`. */
    method GetOrCreateCategory(name: string, slug: string, description: string) returns (id: Id, created: bool)
      modifies this
      ensures Snapshot() == Database.GetOrCreateCategory(old(Snapshot()), name, slug, description, slugify)
      ensures created <==> !HasCategoryNamed(old(Snapshot()), name)
      ensures id in categories && categories[id].name == name
    {
      var found := FindCategory(name);
      if found.Some? {
        id, created := found.value, false;
      } else {
        id, created := nextId, true;
        categories := categories[nextId := SavedCategory(Category(name, slug, description), slugify)];
        nextId := nextId + 1;
      }
    }

    /** `Tag.objects.get_or_create(name=name, defaults={slug})`. */
    method GetOrCreateTag(name: string, slug: string) returns (id: Id, created: bool)
      modifies this
      ensures Snapshot() == Database.GetOrCreateTag(old(Snapshot()), name, slug, slugify)
      ensures created <==> !HasTagNamed(old(Snapshot()), name)
      ensures id in tags && tags[id].name == name
    {
      var found := FindTag(name);
      if found.Some? {
        id, created := found.value, false;
      } else {
        id, created := nextId, true;
        tags := tags[nextId := SavedTag(Tag(name, slug), slugify)];
        nextId := nextId + 1;
      }
    }

    /** `post.save()` on a new instance: insert it, then run the post-save receiver. */
    method CreatePost(p: Post, now: Time) returns (id: Id)
      modifies this
      ensures Snapshot() == SavePostRow(old(Snapshot()), None, p, now, slugify)
      ensures id == old(nextId) && id in posts
    {
      id := nextId;
      var saved := SavedPost(p, now, slugify);
      posts := posts[id := saved];
      nextId := nextId + 1;
      if saved.status == Published {
        notified := notified + [id];
      }
    }

    /** `post.save()` on the instance stored under `id`. */
    method SavePost(id: Id, p: Post, now: Time)
      requires id in posts
      modifies this
      ensures Snapshot() == SavePostRow(old(Snapshot()), Some(id), p, now, slugify)
    {
      var saved := SavedPost(p, now, slugify);
      posts := posts[id := saved];
      if saved.status == Published {
        notified := notified + [id];
      }
    }

    /** `post.categories.add(category)`. */
    method AddPostCategory(postId: Id, catId: Id)
      requires postId in posts
      modifies this
      ensures Snapshot() == AddPostCategories(old(Snapshot()), postId, {catId})
    {
      posts := posts[postId := posts[postId].(categories := posts[postId].categories + {catId})];
    }

    /** `post.tags.add(tag)`. */
    method AddPostTag(postId: Id, tagId: Id)
      requires postId in posts
      modifies this
      ensures Snapshot() == AddPostTags(old(Snapshot()), postId, {tagId})
    {
      posts := posts[postId := posts[postId].(tags := posts[postId].tags + {tagId})];
    }

    /** `page.save()` on a new instance. */
    method CreatePage(p: Page) returns (id: Id)
      modifies this
      ensures Snapshot() == SavePageRow(old(Snapshot()), None, p, slugify)
      ensures id == old(nextId) && id in pages
    {
      id := nextId;
      pages := pages[id := SavedPage(p, slugify)];
      nextId := nextId + 1;
    }

    /** `page.save()` on the instance stored under `id`. */
    method SavePage(id: Id, p: Page)
      requires id in pages
      modifies this
      ensures Snapshot() == SavePageRow(old(Snapshot()), Some(id), p, slugify)
    {
      pages := pages[id := SavedPage(p, slugify)];
    }

    /** `Comment.objects.create(...)`. */
    method CreateComment(c: Comment) returns (id: Id)
      modifies this
      ensures Snapshot() == Database.CreateComment(old(Snapshot()), c)
      ensures id == old(nextId)
    {
      id := nextId;
      comments := comments[id := c];
      nextId := nextId + 1;
    }

    /** `post.delete()`: the post and, by cascade, its comments. */
    method DeletePost(postId: Id)
      modifies this
      ensures Snapshot() == Database.DeletePost(old(Snapshot()), postId)
    {
      posts := posts - {postId};
      comments := map k | k in comments && comments[k].post != postId :: comments[k];
    }
  }
}
