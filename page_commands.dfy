/**
 * The two page commands `create_homepage` and `create_services_page`. Each
 * makes sure a page exists under a fixed slug: `get_or_create` looks the slug
 * up and inserts the command's defaults when it is missing; a page that was
 * already there gets its content replaced and is saved again.
 */
module PageCommands {
  import opened Wrappers
  import opened Models
  import opened Database
  import opened Store

  const HomepageSlug: string := "homepage"
  const HomepageTitle: string := "Well Scripted Life"
  const ServicesSlug: string := "services"
  const ServicesTitle: string := "Services & Consulting"
  const ServicesMeta: string :=
    "Professional consulting services in technology, education, and life management from Greg Dyche."

  /** The lookup inside `get_or_create` found more than one page with the slug. */
  datatype UpsertError = MultipleObjectsReturned(slug: string)

  /**
   * The homepage `get_or_create` builds: the command's defaults, the lookup
   * slug, and the model's own defaults for the other fields.
   */
  function HomepageDefaults(content: string, now: Time): Page {
    Page(HomepageTitle, HomepageSlug, content, None, true, now, "", false, 0, None)
  }

  /** The services page `get_or_create` builds. */
  function ServicesDefaults(content: string, now: Time): Page {
    Page(ServicesTitle, ServicesSlug, content, None, true, now, ServicesMeta, true, 1, None)
  }

  /** A set of at most one element that holds `k` holds nothing else. */
  lemma OnlyMember(ks: set<Id>, k: Id)
    requires |ks| <= 1 && k in ks
    ensures ks == {k}
  {
    assert |ks - {k}| == |ks| - 1;
  }

  /** The lookup inside `get_or_create`: the one page with the slug, none, or an error when several share it. */
  ghost function Lookup(db: Db, slug: string): (r: Result<Option<Id>, UpsertError>)
    ensures r.Failure? <==> |PagesWithSlug(db, slug)| > 1
    ensures r == Success(None) <==> PagesWithSlug(db, slug) == {}
    ensures r.Success? && r.value.Some? ==> PagesWithSlug(db, slug) == {r.value.value}
  {
    var ks := PagesWithSlug(db, slug);
    if |ks| > 1 then
      Failure(MultipleObjectsReturned(slug))
    else if ks == {} then
      Success(None)
    else
      var k :| k in ks;
      OnlyMember(ks, k);
      Success(Some(k))
  }

  /**
   * What the command does after the lookup: without a page it inserts the
   * defaults under the lookup slug; with one it replaces that page's content
   * and saves it. The result is the new database, the page's key and whether
   * it was created.
   */
  function Apply(db: Db, found: Option<Id>, slug: string, defaults: Page, content: string, slugify: Slugify): (Db, Id, bool)
    requires found.Some? ==> found.value in db.pages
  {
    match found
    case None => (SavePageRow(db, None, defaults.(slug := slug), slugify), db.nextId, true)
    case Some(k) => (SavePageRow(db, found, db.pages[k].(content := content), slugify), k, false)
  }

  /** One run of either command on a database, or the lookup's error. */
  ghost function Upsert(db: Db, slug: string, defaults: Page, content: string, slugify: Slugify)
    : Result<(Db, Id, bool), UpsertError>
  {
    match Lookup(db, slug)
    case Failure(e) => Failure(e)
    case Success(found) => Success(Apply(db, found, slug, defaults, content, slugify))
  }

  /** `get_or_create(slug=slug, defaults=...)` followed, for a page found, by `page.content = content; page.save()`. */
  method UpsertPage(store: Store, slug: string, defaults: Page, content: string)
    returns (r: Result<(Id, bool), UpsertError>)
    modifies store
    ensures Upsert(old(store.Snapshot()), slug, defaults, content, store.slugify).Failure? ==>
      r == Failure(MultipleObjectsReturned(slug)) && store.Snapshot() == old(store.Snapshot())
    ensures Upsert(old(store.Snapshot()), slug, defaults, content, store.slugify).Success? ==>
      var u := Upsert(old(store.Snapshot()), slug, defaults, content, store.slugify).value;
      r == Success((u.1, u.2)) && store.Snapshot() == u.0
  {
    var ks := store.PagesBySlug(slug);
    if |ks| > 1 {
      return Failure(MultipleObjectsReturned(slug));
    }
    if ks == {} {
      var id := store.CreatePage(defaults.(slug := slug));
      return Success((id, true));
    }
    var k :| k in ks;
    OnlyMember(ks, k);
    var page := store.pages[k];
    page := page.(content := content);
    store.SavePage(k, page);
    return Success((k, false));
  }

  /** `create_homepage`'s `handle`. */
  method CreateHomepage(store: Store, content: string, now: Time) returns (r: Result<(Id, bool), UpsertError>)
    modifies store
    ensures Upsert(old(store.Snapshot()), HomepageSlug, HomepageDefaults(content, now), content, store.slugify).Success? ==>
      var u := Upsert(old(store.Snapshot()), HomepageSlug, HomepageDefaults(content, now), content, store.slugify).value;
      r == Success((u.1, u.2)) && store.Snapshot() == u.0
    ensures Upsert(old(store.Snapshot()), HomepageSlug, HomepageDefaults(content, now), content, store.slugify).Failure? ==>
      r.Failure? && store.Snapshot() == old(store.Snapshot())
  {
    r := UpsertPage(store, HomepageSlug, HomepageDefaults(content, now), content);
  }

  /** `create_services_page`'s `handle`. */
  method CreateServicesPage(store: Store, content: string, now: Time) returns (r: Result<(Id, bool), UpsertError>)
    modifies store
    ensures Upsert(old(store.Snapshot()), ServicesSlug, ServicesDefaults(content, now), content, store.slugify).Success? ==>
      var u := Upsert(old(store.Snapshot()), ServicesSlug, ServicesDefaults(content, now), content, store.slugify).value;
      r == Success((u.1, u.2)) && store.Snapshot() == u.0
    ensures Upsert(old(store.Snapshot()), ServicesSlug, ServicesDefaults(content, now), content, store.slugify).Failure? ==>
      r.Failure? && store.Snapshot() == old(store.Snapshot())
  {
    r := UpsertPage(store, ServicesSlug, ServicesDefaults(content, now), content);
  }

  // ----- Properties -----

  /** Saving one page row leaves every other row and every other table alone. */
  lemma SavePageRowTouches(db: Db, pk: Option<Id>, p: Page, slugify: Slugify)
    requires pk.Some? ==> pk.value in db.pages
    ensures var r := SavePageRow(db, pk, p, slugify);
      (forall k :: k in db.pages && k != pk.GetOr(db.nextId) ==> k in r.pages && r.pages[k] == db.pages[k])
      && r.pages.Keys == db.pages.Keys + {pk.GetOr(db.nextId)}
  {
  }

  /** Writing a key adds a row exactly when the key was free. */
  lemma PutSize(m: map<Id, Page>, k: Id, v: Page)
    ensures |m[k := v]| == if k in m then |m| else |m| + 1
  {
  }

  /** Saving a stored page that already has a slug changes nothing. */
  lemma ResaveUnchanged(db: Db, k: Id, slugify: Slugify)
    requires k in db.pages && db.pages[k].slug != ""
    ensures SavePageRow(db, Some(k), db.pages[k], slugify) == db
  {
    assert db.pages[k := db.pages[k]] == db.pages;
  }

  /**
   * After a run, exactly one page carries the slug. A missing page is created
   * from the defaults under the next key; a page that was there keeps every
   * field except its content.
   */
  lemma UpsertPageThere(db: Db, slug: string, defaults: Page, content: string, slugify: Slugify)
    requires slug != ""
    requires Upsert(db, slug, defaults, content, slugify).Success?
    ensures var (r, id, created) := Upsert(db, slug, defaults, content, slugify).value;
      id in r.pages && r.pages[id].slug == slug && PagesWithSlug(r, slug) == {id}
    ensures var (r, id, created) := Upsert(db, slug, defaults, content, slugify).value;
      (created <==> PagesWithSlug(db, slug) == {})
      && (created ==> id == db.nextId && r.pages[id] == defaults.(slug := slug))
      && (!created ==> id in db.pages && r.pages[id] == db.pages[id].(content := content))
  {
    var found := Lookup(db, slug).value;
    var (r, id, created) := Apply(db, found, slug, defaults, content, slugify);
    assert PagesWithSlug(r, slug) == {id};
  }

  /** No other page changes, no page disappears, and no other table changes. */
  lemma UpsertTouchesOnePage(db: Db, slug: string, defaults: Page, content: string, slugify: Slugify)
    requires Upsert(db, slug, defaults, content, slugify).Success?
    ensures var (r, id, created) := Upsert(db, slug, defaults, content, slugify).value;
      (forall k :: k in db.pages && k != id ==> k in r.pages && r.pages[k] == db.pages[k])
      && r.pages.Keys == db.pages.Keys + {id}
      && r == db.(pages := r.pages, nextId := if created then db.nextId + 1 else db.nextId)
  {
    var found := Lookup(db, slug).value;
    match found
    case None =>
      SavePageRowTouches(db, None, defaults.(slug := slug), slugify);
    case Some(k) =>
      SavePageRowTouches(db, found, db.pages[k].(content := content), slugify);
  }

  /** When keys stay below `nextId`, a run adds one page if it created one and none otherwise. */
  lemma UpsertPageCount(db: Db, slug: string, defaults: Page, content: string, slugify: Slugify)
    requires KeysBelowNext(db)
    requires Upsert(db, slug, defaults, content, slugify).Success?
    ensures var (r, id, created) := Upsert(db, slug, defaults, content, slugify).value;
      |r.pages| == if created then |db.pages| + 1 else |db.pages|
  {
    var found := Lookup(db, slug).value;
    match found
    case None =>
      assert db.nextId !in db.pages;
      PutSize(db.pages, db.nextId, SavedPage(defaults.(slug := slug), slugify));
    case Some(k) =>
      PutSize(db.pages, k, SavedPage(db.pages[k].(content := content), slugify));
  }

  /** A run keeps the database consistent when the defaults name no heading and no WordPress page. */
  lemma UpsertValid(db: Db, slug: string, defaults: Page, content: string, slugify: Slugify)
    requires ValidDb(db) && defaults.category.None? && defaults.wpPageId.None?
    requires Upsert(db, slug, defaults, content, slugify).Success?
    ensures ValidDb(Upsert(db, slug, defaults, content, slugify).value.0)
    ensures AllSaved(db, slugify) ==> AllSaved(Upsert(db, slug, defaults, content, slugify).value.0, slugify)
  {
    var found := Lookup(db, slug).value;
    match found
    case None =>
      SavePageRowValid(db, None, defaults.(slug := slug), slugify);
    case Some(k) =>
      assert PageFits(db, found, db.pages[k].(content := content));
      SavePageRowValid(db, found, db.pages[k].(content := content), slugify);
  }

  /**
   * A second run with the same content leaves the database as the first run
   * left it, whatever defaults (a later clock) it carries: it finds the page
   * and writes back the content it already has.
   */
  lemma UpsertIdempotent(db: Db, slug: string, defaults: Page, later: Page, content: string, slugify: Slugify)
    requires slug != "" && defaults.content == content
    requires Upsert(db, slug, defaults, content, slugify).Success?
    ensures var (r, id, created) := Upsert(db, slug, defaults, content, slugify).value;
      Upsert(r, slug, later, content, slugify) == Success((r, id, false))
  {
    var (r, id, created) := Apply(db, Lookup(db, slug).value, slug, defaults, content, slugify);
    UpsertPageThere(db, slug, defaults, content, slugify);
    assert Lookup(r, slug) == Success(Some(id));
    assert r.pages[id].(content := content) == r.pages[id];
    ResaveUnchanged(r, id, slugify);
  }

  /** `create_homepage`: the homepage exists with the homepage text; a new one carries the command's defaults, an old one only gets the new text. */
  lemma HomepageHandled(db: Db, content: string, now: Time, slugify: Slugify)
    requires Upsert(db, HomepageSlug, HomepageDefaults(content, now), content, slugify).Success?
    ensures var (r, id, created) := Upsert(db, HomepageSlug, HomepageDefaults(content, now), content, slugify).value;
      id in r.pages && r.pages[id].slug == HomepageSlug && r.pages[id].content == content
      && PagesWithSlug(r, HomepageSlug) == {id}
    ensures var (r, id, created) := Upsert(db, HomepageSlug, HomepageDefaults(content, now), content, slugify).value;
      created ==> (r.pages[id].title == HomepageTitle && r.pages[id].isPublished
                   && !r.pages[id].showInToc && r.pages[id].tocOrder == 0 && r.pages[id].createdDate == now)
  {
    UpsertPageThere(db, HomepageSlug, HomepageDefaults(content, now), content, slugify);
  }

  /** `create_services_page`: the services page exists with the services text and, when new, the command's defaults. */
  lemma ServicesHandled(db: Db, content: string, now: Time, slugify: Slugify)
    requires Upsert(db, ServicesSlug, ServicesDefaults(content, now), content, slugify).Success?
    ensures var (r, id, created) := Upsert(db, ServicesSlug, ServicesDefaults(content, now), content, slugify).value;
      id in r.pages && r.pages[id].slug == ServicesSlug && r.pages[id].content == content
      && PagesWithSlug(r, ServicesSlug) == {id}
    ensures var (r, id, created) := Upsert(db, ServicesSlug, ServicesDefaults(content, now), content, slugify).value;
      created ==> (r.pages[id].title == ServicesTitle && r.pages[id].isPublished
                   && r.pages[id].showInToc && r.pages[id].tocOrder == 1 && r.pages[id].metaDescription == ServicesMeta)
  {
    UpsertPageThere(db, ServicesSlug, ServicesDefaults(content, now), content, slugify);
  }

  /** Running either command twice leaves the pages as running it once, even at a later time. */
  lemma HandleTwice(db: Db, content: string, now: Time, later: Time, slugify: Slugify)
    requires Upsert(db, HomepageSlug, HomepageDefaults(content, now), content, slugify).Success?
    requires Upsert(db, ServicesSlug, ServicesDefaults(content, now), content, slugify).Success?
    ensures var r := Upsert(db, HomepageSlug, HomepageDefaults(content, now), content, slugify).value.0;
      Upsert(r, HomepageSlug, HomepageDefaults(content, later), content, slugify).Success?
      && Upsert(r, HomepageSlug, HomepageDefaults(content, later), content, slugify).value.0 == r
    ensures var r := Upsert(db, ServicesSlug, ServicesDefaults(content, now), content, slugify).value.0;
      Upsert(r, ServicesSlug, ServicesDefaults(content, later), content, slugify).Success?
      && Upsert(r, ServicesSlug, ServicesDefaults(content, later), content, slugify).value.0 == r
  {
    UpsertIdempotent(db, HomepageSlug, HomepageDefaults(content, now), HomepageDefaults(content, later), content, slugify);
    UpsertIdempotent(db, ServicesSlug, ServicesDefaults(content, now), ServicesDefaults(content, later), content, slugify);
  }
}
