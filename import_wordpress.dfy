/**
 * The `import_wordpress` management command: reads a WordPress eXtended RSS
 * (WXR 1.2) export and upserts its categories and tags by name, then its posts,
 * pages and comments by their WordPress ids. The XML is given here already
 * parsed, one record per element the command reads.
 */
module ImportWordpress {
  import opened Wrappers
  import opened Models
  import opened Database
  import opened Store

  // ----- The export, as parsed records -----

  /** A `<wp:category>`: `cat_name`, `category_nicename` and, when the element exists, `category_description`. */
  datatype WxrCategory = WxrCategory(name: string, nicename: string, description: Option<string>)

  /** A `<wp:tag>`: `tag_name` and `tag_slug`. */
  datatype WxrTag = WxrTag(name: string, slug: string)

  /** A `<wp:comment>`; `None` is an element with no text. */
  datatype WxrComment = WxrComment(
    commentId: int,
    author: Option<string>,
    email: Option<string>,
    url: Option<string>,
    date: Time,
    content: Option<string>,
    approved: Option<string>)

  /**
   * What `find` gives for an element the command tests for presence: no
   * element, an element without text (its `.text` is `None`, as for
   * `<excerpt:encoded><![CDATA[]]></excerpt:encoded>`), or an element with text.
   */
  datatype XmlText = Absent | NoText | Text(value: string)

  /**
   * An `<item>`. `title` is `None` when the element has no text.
   * `categoryNames` and `tagNames` are the texts of its `<category>` elements
   * of domain `category` and `post_tag`.
   */
  datatype WxrItem = WxrItem(
    title: Option<string>,
    content: XmlText,
    postType: string,
    status: string,
    postId: int,
    pubDate: Time,
    postName: XmlText,
    excerpt: XmlText,
    categoryNames: seq<string>,
    tagNames: seq<string>,
    comments: seq<WxrComment>)

  datatype WxrDocument = WxrDocument(categories: seq<WxrCategory>, tags: seq<WxrTag>, items: seq<WxrItem>)

  // ----- Reading one item -----

  /** Python's `text or default`: no text, or empty text, gives the default. */
  function OrDefault(text: Option<string>, default: string): (r: string)
    ensures text.Some? && text.value != "" ==> r == text.value
    ensures text.None? || text.value == "" ==> r == default
  {
    if text.Some? && text.value != "" then text.value else default
  }

  /** An element's text, empty when the element is absent or has no text. */
  function TextOrEmpty(t: XmlText): (r: string)
    ensures t.Text? ==> r == t.value
    ensures !t.Text? ==> r == ""
  {
    if t.Text? then t.value else ""
  }

  datatype ItemFields = ItemFields(title: string, content: string, slug: string, excerpt: string)

  /**
   * The values read from an item before it is dispatched: a missing title is
   * `Untitled`, missing content or excerpt is empty, and the slug is the
   * item's `post_name` when it has the element, otherwise `slugify` of the
   * title. Content and excerpt elements without text read as empty here,
   * which the written command does not do (see `NewRowAsWritten`). A
   * `post_name` element without text gives an empty slug, which the save
   * then fills from the title, as the written command's `None` is.
   */
  function ReadItem(item: WxrItem, slugify: Slugify): (f: ItemFields)
    ensures f.title != ""
    ensures item.title.Some? && item.title.value != "" ==> f.title == item.title.value
    ensures item.title.None? || item.title.value == "" ==> f.title == "Untitled"
    ensures item.content.Text? ==> f.content == item.content.value
    ensures !item.content.Text? ==> f.content == ""
    ensures item.excerpt.Text? ==> f.excerpt == item.excerpt.value
    ensures !item.excerpt.Text? ==> f.excerpt == ""
    ensures item.postName.Text? ==> f.slug == item.postName.value
    ensures item.postName.NoText? ==> f.slug == ""
    ensures item.postName.Absent? ==> f.slug == slugify(f.title)
  {
    var title := OrDefault(item.title, "Untitled");
    ItemFields(
      title,
      TextOrEmpty(item.content),
      if item.postName.Absent? then slugify(title) else TextOrEmpty(item.postName),
      TextOrEmpty(item.excerpt))
  }

  /** Why the database refuses a new row: a NOT NULL text column given `None`. */
  datatype ImportError = NullText(field: string)

  /** `elem.text if elem is not None else ''`: `None` for an element without text. */
  function TextAsWritten(t: XmlText): (r: Option<string>)
    ensures r.None? <==> t.NoText?
    ensures t.Text? ==> r == Some(t.value)
    ensures t.Absent? ==> r == Some("")
  {
    match t
    case Absent => Some("")
    case NoText => None
    case Text(v) => Some(v)
  }

  /**
   * Creating the row for a new item as the command is written: content or
   * excerpt elements without text are read as `None`, and inserting `None`
   * into the NOT NULL `content` column (and, for a post, `excerpt`) fails,
   * which aborts the import. Otherwise the row gets what `ReadItem` reads.
   */
  function NewRowAsWritten(item: WxrItem, slugify: Slugify): (r: Result<ItemFields, ImportError>)
    ensures r.Failure? <==> item.content.NoText? || (item.postType == "post" && item.excerpt.NoText?)
    ensures r.Failure? && item.content.NoText? ==> r.error == NullText("content")
    ensures r.Success? ==> r.value == ReadItem(item, slugify)
  {
    if TextAsWritten(item.content).None? then Failure(NullText("content"))
    else if item.postType == "post" && TextAsWritten(item.excerpt).None? then Failure(NullText("excerpt"))
    else Success(ReadItem(item, slugify))
  }

  /**
   * A post whose excerpt element is empty, as WordPress exports a post
   * without excerpt: the written command's insert fails, while the reading
   * the rest of this model uses stores an empty excerpt.
   */
  lemma EmptyExcerptRefused(item: WxrItem, slugify: Slugify)
    requires item.postType == "post" && item.content.Text? && item.excerpt == NoText
    ensures NewRowAsWritten(item, slugify) == Failure(NullText("excerpt"))
    ensures ReadItem(item, slugify).excerpt == "" && ReadItem(item, slugify).content == item.content.value
  {
  }

  /** Wherever the written insert succeeds, the intended reading gives the same row. */
  lemma ReadItemAgrees(item: WxrItem, slugify: Slugify)
    requires NewRowAsWritten(item, slugify).Success?
    ensures ReadItem(item, slugify).content == TextAsWritten(item.content).value
    ensures item.postType == "post" ==> ReadItem(item, slugify).excerpt == TextAsWritten(item.excerpt).value
  {
  }

  /** The item types the importer passes over. */
  predicate Skipped(postType: string) {
    postType in ["attachment", "nav_menu_item", "revision"]
  }

  /** A new post for an item: WordPress `publish` becomes published with the item's date, anything else a draft. */
  function ImportedPost(item: WxrItem, f: ItemFields): (p: Post)
    ensures item.status == "publish" ==> p.status == Published && p.publishedDate == Some(item.pubDate)
    ensures item.status != "publish" ==> p.status == Draft && p.publishedDate == None
    ensures p.wpPostId == Some(item.postId) && p.createdDate == item.pubDate
    ensures p.title == f.title && p.slug == f.slug && p.content == f.content && p.excerpt == f.excerpt
    ensures p.categories == {} && p.tags == {}
  {
    var status := if item.status == "publish" then Published else Draft;
    NewPost(f.title, f.slug, f.content, item.pubDate).(
      excerpt := f.excerpt,
      wpPostId := Some(item.postId),
      status := status,
      publishedDate := if status == Published then Some(item.pubDate) else None)
  }

  /** A new page for an item: published exactly when the WordPress status is `publish`. */
  function ImportedPage(item: WxrItem, f: ItemFields): (p: Page)
    ensures p.isPublished <==> item.status == "publish"
    ensures p.wpPageId == Some(item.postId) && p.createdDate == item.pubDate
    ensures p.title == f.title && p.slug == f.slug && p.content == f.content
    ensures p.category == None
  {
    NewPage(f.title, f.slug, f.content, item.pubDate).(
      wpPageId := Some(item.postId),
      isPublished := item.status == "publish")
  }

  /** A new comment on `postId`: a missing author is `Anonymous`, and it is approved exactly when the flag is `1`. */
  function ImportedComment(postId: Id, c: WxrComment): (r: Comment)
    ensures r.post == postId && r.wpCommentId == Some(c.commentId) && r.createdDate == c.date
    ensures r.authorName == OrDefault(c.author, "Anonymous") && r.authorName != ""
    ensures r.isApproved <==> c.approved == Some("1")
    ensures r.authorEmail == OrDefault(c.email, "") && r.authorUrl == OrDefault(c.url, "")
    ensures r.content == OrDefault(c.content, "")
  {
    NewComment(postId, OrDefault(c.author, "Anonymous"), OrDefault(c.content, ""), c.date).(
      authorEmail := OrDefault(c.email, ""),
      authorUrl := OrDefault(c.url, ""),
      isApproved := c.approved == Some("1"),
      wpCommentId := Some(c.commentId))
  }

  // ----- What each phase does to the database -----

  function ImportCategory(db: Db, c: WxrCategory, slugify: Slugify): Db {
    GetOrCreateCategory(db, c.name, c.nicename, c.description.GetOr(""), slugify)
  }

  /** `import_categories`: every category of the export, in order. */
  function ImportCategories(db: Db, cats: seq<WxrCategory>, slugify: Slugify): (r: Db)
    ensures r == db.(categories := r.categories, nextId := r.nextId)
    ensures ValidDb(db) ==> ValidDb(r) && Grows(db, r) && forall c :: c in cats ==> HasCategoryNamed(r, c.name)
    decreases |cats|
  {
    if cats == [] then db
    else
      var prev := ImportCategories(db, cats[..|cats| - 1], slugify);
      var r := ImportCategory(prev, cats[|cats| - 1], slugify);
      ImportCategoryValid(prev, cats[|cats| - 1], slugify);
      GrowsKeepsLookups(prev, r);
      GrowsTransitive(db, prev, r);
      assert forall c :: c in cats ==> c in cats[..|cats| - 1] || c == cats[|cats| - 1];
      r
  }

  function ImportTag(db: Db, t: WxrTag, slugify: Slugify): Db {
    GetOrCreateTag(db, t.name, t.slug, slugify)
  }

  /** `import_tags`: every tag of the export, in order. */
  function ImportTags(db: Db, tags: seq<WxrTag>, slugify: Slugify): (r: Db)
    ensures r == db.(tags := r.tags, nextId := r.nextId)
    ensures ValidDb(db) ==> ValidDb(r) && Grows(db, r) && forall t :: t in tags ==> HasTagNamed(r, t.name)
    decreases |tags|
  {
    if tags == [] then db
    else
      var prev := ImportTags(db, tags[..|tags| - 1], slugify);
      var r := ImportTag(prev, tags[|tags| - 1], slugify);
      ImportTagValid(prev, tags[|tags| - 1], slugify);
      GrowsKeepsLookups(prev, r);
      GrowsTransitive(db, prev, r);
      assert forall t :: t in tags ==> t in tags[..|tags| - 1] || t == tags[|tags| - 1];
      r
  }

  lemma ImportCategoryValid(db: Db, c: WxrCategory, slugify: Slugify)
    ensures ValidDb(db) ==> ValidDb(ImportCategory(db, c, slugify)) && Grows(db, ImportCategory(db, c, slugify))
  {
    if ValidDb(db) {
      GetOrCreateCategoryValid(db, c.name, c.nicename, c.description.GetOr(""), slugify);
    }
  }

  lemma ImportTagValid(db: Db, t: WxrTag, slugify: Slugify)
    ensures ValidDb(db) ==> ValidDb(ImportTag(db, t, slugify)) && Grows(db, ImportTag(db, t, slugify))
  {
    if ValidDb(db) {
      GetOrCreateTagValid(db, t.name, t.slug, slugify);
    }
  }

  /** The existing categories whose name is one of `names`. */
  function CategoriesNamedIn(db: Db, names: seq<string>): set<Id> {
    set k | k in db.categories && db.categories[k].name in names
  }

  function TagsNamedIn(db: Db, names: seq<string>): set<Id> {
    set k | k in db.tags && db.tags[k].name in names
  }

  /** Looking up one more name finds the rows of the names before it and those of the new one. */
  lemma NamedSnoc(a: Db, db: Db, names: seq<string>)
    requires names != [] && a.categories == db.categories && a.tags == db.tags
    ensures CategoriesNamedIn(db, names)
      == CategoriesNamedIn(db, names[..|names| - 1]) + CategoriesNamed(a, names[|names| - 1])
    ensures TagsNamedIn(db, names) == TagsNamedIn(db, names[..|names| - 1]) + TagsNamed(a, names[|names| - 1])
  {
    assert forall n :: n in names <==> n in names[..|names| - 1] || n == names[|names| - 1];
  }

  /**
   * The category loop of `import_post`: each name is looked up, and the
   * category added when it exists; an unknown name is passed over. Together
   * the post gains exactly the existing categories named.
   */
  function LinkCategories(db: Db, postId: Id, names: seq<string>): (r: Db)
    requires postId in db.posts
    ensures r == db.(posts := db.posts[postId := db.posts[postId].(
                categories := db.posts[postId].categories + CategoriesNamedIn(db, names))])
    decreases |names|
  {
    if names == [] then
      assert CategoriesNamedIn(db, names) == {};
      AddNothing(db, postId);
      db
    else
      var prev := LinkCategories(db, postId, names[..|names| - 1]);
      NamedSnoc(prev, db, names);
      var p := db.posts[postId];
      var q := p.(categories := p.categories + CategoriesNamedIn(db, names[..|names| - 1]));
      assert p.categories + CategoriesNamedIn(db, names[..|names| - 1]) + CategoriesNamed(prev, names[|names| - 1]) == p.categories + CategoriesNamedIn(db, names);
      Overwrite(db.posts, postId, q, q.(categories := q.categories + CategoriesNamed(prev, names[|names| - 1])));
      AddPostCategories(prev, postId, CategoriesNamed(prev, names[|names| - 1]))
  }

  /** The tag loop of `import_post`. */
  function LinkTags(db: Db, postId: Id, names: seq<string>): (r: Db)
    requires postId in db.posts
    ensures r == db.(posts := db.posts[postId := db.posts[postId].(
                tags := db.posts[postId].tags + TagsNamedIn(db, names))])
    decreases |names|
  {
    if names == [] then
      assert TagsNamedIn(db, names) == {};
      AddNothing(db, postId);
      db
    else
      var prev := LinkTags(db, postId, names[..|names| - 1]);
      NamedSnoc(prev, db, names);
      var p := db.posts[postId];
      var q := p.(tags := p.tags + TagsNamedIn(db, names[..|names| - 1]));
      assert p.tags + TagsNamedIn(db, names[..|names| - 1]) + TagsNamed(prev, names[|names| - 1]) == p.tags + TagsNamedIn(db, names);
      Overwrite(db.posts, postId, q, q.(tags := q.tags + TagsNamed(prev, names[|names| - 1])));
      AddPostTags(prev, postId, TagsNamed(prev, names[|names| - 1]))
  }

  /** One comment of `import_comments`: created unless its WordPress id is already stored. */
  function ImportComment(db: Db, postId: Id, c: WxrComment): (r: Db)
    ensures HasCommentWp(db, c.commentId) ==> r == db
    ensures !HasCommentWp(db, c.commentId) ==> r == CreateComment(db, ImportedComment(postId, c))
  {
    if HasCommentWp(db, c.commentId) then db else CreateComment(db, ImportedComment(postId, c))
  }

  lemma ImportCommentValid(db: Db, postId: Id, c: WxrComment)
    ensures ValidDb(db) && postId in db.posts ==>
      ValidDb(ImportComment(db, postId, c)) && Grows(db, ImportComment(db, postId, c))
  {
    if ValidDb(db) && postId in db.posts && !HasCommentWp(db, c.commentId) {
      CreateCommentValid(db, ImportedComment(postId, c));
    }
  }

  /** `import_comments`: the comments of one item, all on `postId`. */
  function ImportComments(db: Db, postId: Id, cs: seq<WxrComment>): (r: Db)
    ensures r == db.(comments := r.comments, nextId := r.nextId)
    ensures ValidDb(db) && postId in db.posts ==>
      ValidDb(r) && Grows(db, r)
      && (forall k :: k in r.comments && k !in db.comments ==> r.comments[k].post == postId)
      && (forall c :: c in cs ==> HasCommentWp(r, c.commentId))
    decreases |cs|
  {
    if cs == [] then db
    else
      var prev := ImportComments(db, postId, cs[..|cs| - 1]);
      var c := cs[|cs| - 1];
      var r := ImportComment(prev, postId, c);
      ImportCommentValid(prev, postId, c);
      assert !HasCommentWp(prev, c.commentId) ==> r.comments[prev.nextId].wpCommentId == Some(c.commentId);
      GrowsKeepsLookups(prev, r);
      GrowsTransitive(db, prev, r);
      assert forall x :: x in cs ==> x in cs[..|cs| - 1] || x == c;
      r
  }

  /**
   * `import_post`: a post whose WordPress id is stored already is left alone,
   * with no new categories, tags or comments. Otherwise the post is created
   * (and saved, which runs the publish receiver), linked to the categories and
   * tags that exist under the names it lists, and given its comments.
   */
  function ImportPost(db: Db, item: WxrItem, f: ItemFields, now: Time, slugify: Slugify): (r: Db)
    ensures HasPostWp(db, item.postId) ==> r == db
  {
    if HasPostWp(db, item.postId) then db
    else
      var id := db.nextId;
      var created := SavePostRow(db, None, ImportedPost(item, f), now, slugify);
      var linked := LinkTags(LinkCategories(created, id, item.categoryNames), id, item.tagNames);
      ImportComments(linked, id, item.comments)
  }

  /** `import_page`: a page whose WordPress id is stored already is left alone; otherwise it is created. */
  function ImportPage(db: Db, item: WxrItem, f: ItemFields, slugify: Slugify): (r: Db)
    ensures HasPageWp(db, item.postId) ==> r == db
    ensures !HasPageWp(db, item.postId) ==> r == SavePageRow(db, None, ImportedPage(item, f), slugify)
  {
    if HasPageWp(db, item.postId) then db else SavePageRow(db, None, ImportedPage(item, f), slugify)
  }

  /** One pass of the `import_items` loop. */
  function ImportItem(db: Db, item: WxrItem, now: Time, slugify: Slugify): (r: Db)
    ensures item.postType != "post" && item.postType != "page" ==> r == db
    ensures item.postType == "post" && HasPostWp(db, item.postId) ==> r == db
    ensures item.postType == "page" && HasPageWp(db, item.postId) ==> r == db
  {
    var f := ReadItem(item, slugify);
    if Skipped(item.postType) then db
    else if item.postType == "post" then ImportPost(db, item, f, now, slugify)
    else if item.postType == "page" then ImportPage(db, item, f, slugify)
    else db
  }

  /** `import_items`: every item, in order. */
  function ImportItems(db: Db, items: seq<WxrItem>, now: Time, slugify: Slugify): Db
    decreases |items|
  {
    if items == [] then db
    else ImportItem(ImportItems(db, items[..|items| - 1], now, slugify), items[|items| - 1], now, slugify)
  }

  /** `handle`: categories, then tags, then items. */
  function Import(db: Db, doc: WxrDocument, now: Time, slugify: Slugify): Db {
    ImportItems(ImportTags(ImportCategories(db, doc.categories, slugify), doc.tags, slugify), doc.items, now, slugify)
  }

  // ----- Properties -----

  /** Linking a stored post to the categories and tags it names changes that one post's links only. */
  lemma LinkedShape(db: Db, id: Id, catNames: seq<string>, tagNames: seq<string>)
    requires id in db.posts
    ensures LinkTags(LinkCategories(db, id, catNames), id, tagNames)
      == db.(posts := db.posts[id := db.posts[id].(
           categories := db.posts[id].categories + CategoriesNamedIn(db, catNames),
           tags := db.posts[id].tags + TagsNamedIn(db, tagNames))])
  {
    var p := db.posts[id];
    var ts := TagsNamedIn(db, tagNames);
    var p1 := p.(categories := p.categories + CategoriesNamedIn(db, catNames));
    var cats := db.(posts := db.posts[id := p1]);
    assert LinkCategories(db, id, catNames) == cats;
    NamedInSame(cats, db, catNames, tagNames);
    var p2 := p1.(tags := p1.tags + ts);
    assert LinkTags(cats, id, tagNames) == cats.(posts := cats.posts[id := p2]);
    Overwrite(db.posts, id, p1, p2);
  }

  /** Linking keeps integrity, since only existing rows are linked. */
  lemma LinkedRows(db: Db, id: Id, catNames: seq<string>, tagNames: seq<string>)
    requires ValidDb(db) && id in db.posts
    ensures var linked := LinkTags(LinkCategories(db, id, catNames), id, tagNames);
      ValidDb(linked) && Grows(db, linked)
  {
    var cats := LinkCategories(db, id, catNames);
    assert cats == AddPostCategories(db, id, CategoriesNamedIn(db, catNames));
    AddPostLinksValid(db, id, CategoriesNamedIn(db, catNames), {});
    var linked := LinkTags(cats, id, tagNames);
    assert linked == AddPostTags(cats, id, TagsNamedIn(cats, tagNames));
    AddPostLinksValid(cats, id, {}, TagsNamedIn(cats, tagNames));
    GrowsTransitive(db, cats, linked);
  }

  /** Both link loops on a post that has no links yet: it ends up linked to exactly the rows named. */
  lemma LinkedFresh(db: Db, id: Id, q: Post, catNames: seq<string>, tagNames: seq<string>)
    requires id in db.posts && db.posts[id] == q && q.categories == {} && q.tags == {}
    ensures LinkTags(LinkCategories(db, id, catNames), id, tagNames)
      == db.(posts := db.posts[id := q.(categories := CategoriesNamedIn(db, catNames), tags := TagsNamedIn(db, tagNames))])
  {
    LinkedShape(db, id, catNames, tagNames);
    assert q.categories + CategoriesNamedIn(db, catNames) == CategoriesNamedIn(db, catNames);
    assert q.tags + TagsNamedIn(db, tagNames) == TagsNamedIn(db, tagNames);
  }

  lemma NamedInSame(a: Db, b: Db, catNames: seq<string>, tagNames: seq<string>)
    requires a.categories == b.categories && a.tags == b.tags
    ensures CategoriesNamedIn(a, catNames) == CategoriesNamedIn(b, catNames)
    ensures TagsNamedIn(a, tagNames) == TagsNamedIn(b, tagNames)
  {
  }

  lemma Overwrite<K, V>(m: map<K, V>, k: K, v: V, w: V)
    ensures m[k := v][k := w] == m[k := w]
  {
  }

  /** The new post's row once created and linked, before its comments are imported. */
  function CreatedAndLinked(db: Db, p: Post, now: Time, slugify: Slugify, catNames: seq<string>, tagNames: seq<string>): Db {
    LinkTags(LinkCategories(SavePostRow(db, None, p, now, slugify), db.nextId, catNames), db.nextId, tagNames)
  }

  lemma CreatedAndLinkedShape(db: Db, p: Post, now: Time, slugify: Slugify, catNames: seq<string>, tagNames: seq<string>)
    requires p.categories == {} && p.tags == {}
    ensures var linked := CreatedAndLinked(db, p, now, slugify, catNames, tagNames);
      linked == db.(posts := linked.posts, nextId := db.nextId + 1, notified := linked.notified)
      && linked.posts == db.posts[db.nextId := SavedPost(p, now, slugify).(
           categories := CategoriesNamedIn(db, catNames), tags := TagsNamedIn(db, tagNames))]
  {
    var id := db.nextId;
    var saved := SavedPost(p, now, slugify);
    var created := SavePostRow(db, None, p, now, slugify);
    LinkedFresh(created, id, saved, catNames, tagNames);
    NamedInSame(created, db, catNames, tagNames);
    Overwrite(db.posts, id, saved, saved.(categories := CategoriesNamedIn(db, catNames), tags := TagsNamedIn(db, tagNames)));
  }

  lemma CreatedAndLinkedValid(db: Db, p: Post, now: Time, slugify: Slugify, catNames: seq<string>, tagNames: seq<string>)
    requires ValidDb(db) && PostFits(db, None, p)
    ensures var linked := CreatedAndLinked(db, p, now, slugify, catNames, tagNames);
      ValidDb(linked) && Grows(db, linked)
  {
    var created := SavePostRow(db, None, p, now, slugify);
    SavePostRowValid(db, None, p, now, slugify);
    LinkedRows(created, db.nextId, catNames, tagNames);
    GrowsTransitive(db, created, CreatedAndLinked(db, p, now, slugify, catNames, tagNames));
  }

  /**
   * A new post item creates exactly one post, under the next key: its fields
   * come from the item, WordPress `publish` maps to published with the item's
   * date (anything else to a draft without one), and it is linked to exactly
   * the existing categories and tags it names. Categories, tags and pages are
   * untouched.
   */
  lemma ImportNewPost(db: Db, item: WxrItem, now: Time, slugify: Slugify)
    requires item.postType == "post" && !HasPostWp(db, item.postId)
    ensures var r := ImportItem(db, item, now, slugify);
      r.posts == db.posts[db.nextId := SavedPost(ImportedPost(item, ReadItem(item, slugify)), now, slugify).(
                   categories := CategoriesNamedIn(db, item.categoryNames), tags := TagsNamedIn(db, item.tagNames))]
      && r.categories == db.categories && r.tags == db.tags && r.pages == db.pages
    ensures var r := ImportItem(db, item, now, slugify);
      db.nextId in r.posts && r.posts[db.nextId].wpPostId == Some(item.postId)
      && (item.status == "publish" <==> r.posts[db.nextId].status == Published)
      && (item.status == "publish" ==> r.posts[db.nextId].publishedDate == Some(item.pubDate))
      && (item.status != "publish" ==> r.posts[db.nextId].publishedDate == None)
  {
    var p := ImportedPost(item, ReadItem(item, slugify));
    CreatedAndLinkedShape(db, p, now, slugify, item.categoryNames, item.tagNames);
    var linked := CreatedAndLinked(db, p, now, slugify, item.categoryNames, item.tagNames);
    assert ImportItem(db, item, now, slugify) == ImportComments(linked, db.nextId, item.comments);
  }

  /** What a new post item does: create and link the post, then import its comments onto it. */
  lemma ImportItemAsPost(db: Db, item: WxrItem, now: Time, slugify: Slugify)
    requires item.postType == "post" && !HasPostWp(db, item.postId)
    ensures ImportItem(db, item, now, slugify)
      == ImportComments(CreatedAndLinked(db, ImportedPost(item, ReadItem(item, slugify)), now, slugify,
                                         item.categoryNames, item.tagNames),
                        db.nextId, item.comments)
  {
  }

  lemma NewPostValid(db: Db, p: Post, now: Time, slugify: Slugify, catNames: seq<string>, tagNames: seq<string>,
                     cs: seq<WxrComment>)
    requires ValidDb(db) && PostFits(db, None, p)
    ensures var r := ImportComments(CreatedAndLinked(db, p, now, slugify, catNames, tagNames), db.nextId, cs);
      ValidDb(r) && Grows(db, r)
      && (forall c :: c in cs ==> HasCommentWp(r, c.commentId))
      && (forall k :: k in r.comments && k !in db.comments ==> r.comments[k].post == db.nextId)
  {
    var linked := CreatedAndLinked(db, p, now, slugify, catNames, tagNames);
    CreatedAndLinkedValid(db, p, now, slugify, catNames, tagNames);
    assert db.nextId in linked.posts by {
      assert linked.posts == SavePostRow(db, None, p, now, slugify).posts[db.nextId := linked.posts[db.nextId]] by {
        LinkedShape(SavePostRow(db, None, p, now, slugify), db.nextId, catNames, tagNames);
      }
    }
    GrowsTransitive(db, linked, ImportComments(linked, db.nextId, cs));
  }

  /**
   * The new post's comments are all created on it, each WordPress comment id
   * ends up stored, and integrity is kept.
   */
  lemma ImportNewPostValid(db: Db, item: WxrItem, now: Time, slugify: Slugify)
    requires ValidDb(db) && item.postType == "post" && !HasPostWp(db, item.postId)
    ensures var r := ImportItem(db, item, now, slugify);
      ValidDb(r) && Grows(db, r)
      && (forall c :: c in item.comments ==> HasCommentWp(r, c.commentId))
      && (forall k :: k in r.comments && k !in db.comments ==> r.comments[k].post == db.nextId)
  {
    var p := ImportedPost(item, ReadItem(item, slugify));
    assert PostFits(db, None, p);
    ImportItemAsPost(db, item, now, slugify);
    NewPostValid(db, p, now, slugify, item.categoryNames, item.tagNames, item.comments);
  }

  /** A new page item creates one page under the next key, published exactly when the item's status is `publish`. */
  lemma ImportNewPage(db: Db, item: WxrItem, now: Time, slugify: Slugify)
    requires item.postType == "page" && !HasPageWp(db, item.postId)
    ensures var r := ImportItem(db, item, now, slugify);
      r == db.(pages := db.pages[db.nextId := SavedPage(ImportedPage(item, ReadItem(item, slugify)), slugify)],
               nextId := db.nextId + 1)
    ensures var r := ImportItem(db, item, now, slugify);
      db.nextId in r.pages
      && (r.pages[db.nextId].isPublished <==> item.status == "publish")
      && r.pages[db.nextId].wpPageId == Some(item.postId)
  {
  }

  lemma ImportNewPageValid(db: Db, item: WxrItem, now: Time, slugify: Slugify)
    requires ValidDb(db) && item.postType == "page" && !HasPageWp(db, item.postId)
    ensures var r := ImportItem(db, item, now, slugify);
      ValidDb(r) && Grows(db, r)
  {
    var pg := ImportedPage(item, ReadItem(item, slugify));
    ImportNewPage(db, item, now, slugify);
    NewPageValid(db, pg, slugify);
    assert ImportItem(db, item, now, slugify) == SavePageRow(db, None, pg, slugify);
  }

  lemma NewPageValid(db: Db, pg: Page, slugify: Slugify)
    requires ValidDb(db) && pg.category == None && pg.wpPageId.Some? && !HasPageWp(db, pg.wpPageId.value)
    ensures ValidDb(SavePageRow(db, None, pg, slugify)) && Grows(db, SavePageRow(db, None, pg, slugify))
  {
    assert PageFits(db, None, pg);
    SavePageRowValid(db, None, pg, slugify);
  }

  /** Every item keeps integrity, adds rows only, and never touches categories or tags. */
  lemma ImportItemValid(db: Db, item: WxrItem, now: Time, slugify: Slugify)
    requires ValidDb(db)
    ensures var r := ImportItem(db, item, now, slugify);
      ValidDb(r) && Grows(db, r) && r.categories == db.categories && r.tags == db.tags
      && (item.postType == "post" ==> HasPostWp(r, item.postId))
      && (item.postType == "page" ==> HasPageWp(r, item.postId))
  {
    var r := ImportItem(db, item, now, slugify);
    if item.postType == "post" && !HasPostWp(db, item.postId) {
      ImportNewPost(db, item, now, slugify);
      ImportNewPostValid(db, item, now, slugify);
      assert r.posts[db.nextId].wpPostId == Some(item.postId);
    } else if item.postType == "page" && !HasPageWp(db, item.postId) {
      ImportNewPage(db, item, now, slugify);
      ImportNewPageValid(db, item, now, slugify);
      assert r.pages[db.nextId].wpPageId == Some(item.postId);
    } else {
      assert r == db;
    }
  }

  /** Every post and page item of `items` has its WordPress id stored in `db`. */
  predicate ItemsStored(db: Db, items: seq<WxrItem>) {
    forall item :: item in items ==>
      (item.postType == "post" ==> HasPostWp(db, item.postId))
      && (item.postType == "page" ==> HasPageWp(db, item.postId))
  }

  lemma {:induction false} ImportItemsValid(db: Db, items: seq<WxrItem>, now: Time, slugify: Slugify)
    requires ValidDb(db)
    ensures var r := ImportItems(db, items, now, slugify);
      ValidDb(r) && Grows(db, r) && r.categories == db.categories && r.tags == db.tags && ItemsStored(r, items)
    decreases |items|
  {
    if items != [] {
      var front := items[..|items| - 1];
      var last := items[|items| - 1];
      ImportItemsValid(db, front, now, slugify);
      var prev := ImportItems(db, front, now, slugify);
      ImportItemsLast(db, items, now, slugify);
      ImportItemValid(prev, last, now, slugify);
      var r := ImportItem(prev, last, now, slugify);
      GrowsTransitive(db, prev, r);
      ItemsStoredExtend(prev, r, items);
    }
  }

  /** `ImportItems` on a non-empty list is its last item imported after the rest. */
  lemma ImportItemsLast(db: Db, items: seq<WxrItem>, now: Time, slugify: Slugify)
    requires items != []
    ensures ImportItems(db, items, now, slugify)
      == ImportItem(ImportItems(db, items[..|items| - 1], now, slugify), items[|items| - 1], now, slugify)
  {
  }

  /** Items stored before the database grows stay stored, so one more stored item extends the list. */
  lemma ItemsStoredExtend(prev: Db, r: Db, items: seq<WxrItem>)
    requires items != [] && ItemsStored(prev, items[..|items| - 1]) && Grows(prev, r)
    requires items[|items| - 1].postType == "post" ==> HasPostWp(r, items[|items| - 1].postId)
    requires items[|items| - 1].postType == "page" ==> HasPageWp(r, items[|items| - 1].postId)
    ensures ItemsStored(r, items)
  {
    GrowsKeepsLookups(prev, r);
    assert items == items[..|items| - 1] + [items[|items| - 1]];
    assert forall item :: item in items ==> item in items[..|items| - 1] || item == items[|items| - 1];
  }

  /** Items of any other type than `post` and `page` (attachments, menu entries, revisions, ...) create nothing. */
  lemma {:induction false} OnlyPostsAndPagesImported(db: Db, items: seq<WxrItem>, now: Time, slugify: Slugify)
    requires forall item :: item in items ==> item.postType != "post" && item.postType != "page"
    ensures ImportItems(db, items, now, slugify) == db
    decreases |items|
  {
    if items != [] {
      OnlyPostsAndPagesImported(db, items[..|items| - 1], now, slugify);
    }
  }

  /** An item whose WordPress id is already stored changes nothing: no second post or page, no links, no comments. */
  lemma {:induction false} StoredItemsUnchanged(db: Db, items: seq<WxrItem>, now: Time, slugify: Slugify)
    requires ItemsStored(db, items)
    ensures ImportItems(db, items, now, slugify) == db
    decreases |items|
  {
    if items != [] {
      StoredItemsUnchanged(db, items[..|items| - 1], now, slugify);
    }
  }

  lemma {:induction false} KnownCategoriesUnchanged(db: Db, cats: seq<WxrCategory>, slugify: Slugify)
    requires forall c :: c in cats ==> HasCategoryNamed(db, c.name)
    ensures ImportCategories(db, cats, slugify) == db
    decreases |cats|
  {
    if cats != [] {
      KnownCategoriesUnchanged(db, cats[..|cats| - 1], slugify);
    }
  }

  lemma {:induction false} KnownTagsUnchanged(db: Db, tags: seq<WxrTag>, slugify: Slugify)
    requires forall t :: t in tags ==> HasTagNamed(db, t.name)
    ensures ImportTags(db, tags, slugify) == db
    decreases |tags|
  {
    if tags != [] {
      KnownTagsUnchanged(db, tags[..|tags| - 1], slugify);
    }
  }

  /**
   * Categories and tags are imported before any item, so every category and
   * tag the export declares exists by the time items are linked, and the items
   * phase leaves them as they are.
   */
  lemma DeclaredBeforeItems(db: Db, doc: WxrDocument, now: Time, slugify: Slugify)
    requires ValidDb(db)
    ensures var before := ImportTags(ImportCategories(db, doc.categories, slugify), doc.tags, slugify);
      (forall c :: c in doc.categories ==> HasCategoryNamed(before, c.name))
      && (forall t :: t in doc.tags ==> HasTagNamed(before, t.name))
      && Import(db, doc, now, slugify).categories == before.categories
      && Import(db, doc, now, slugify).tags == before.tags
  {
    var cats := ImportCategories(db, doc.categories, slugify);
    var before := ImportTags(cats, doc.tags, slugify);
    forall c | c in doc.categories ensures HasCategoryNamed(before, c.name) {
      assert HasCategoryNamed(cats, c.name);
    }
    ImportItemsValid(before, doc.items, now, slugify);
  }

  /** The import keeps the database's integrity. */
  lemma ImportValid(db: Db, doc: WxrDocument, now: Time, slugify: Slugify)
    requires ValidDb(db)
    ensures ValidDb(Import(db, doc, now, slugify))
  {
    ImportItemsValid(ImportTags(ImportCategories(db, doc.categories, slugify), doc.tags, slugify), doc.items, now, slugify);
  }

  /**
   * Re-import is idempotent: importing the same export a second time finds
   * every category, tag, post and page already stored and changes nothing,
   * so it sends no second round of notifications either.
   */
  lemma ImportTwiceIsImportOnce(db: Db, doc: WxrDocument, now: Time, later: Time, slugify: Slugify)
    requires ValidDb(db)
    ensures Import(Import(db, doc, now, slugify), doc, later, slugify) == Import(db, doc, now, slugify)
  {
    var once := Import(db, doc, now, slugify);
    var cats := ImportCategories(db, doc.categories, slugify);
    var before := ImportTags(cats, doc.tags, slugify);
    DeclaredBeforeItems(db, doc, now, slugify);
    ImportItemsValid(before, doc.items, now, slugify);
    forall c | c in doc.categories ensures HasCategoryNamed(once, c.name) {
      var k :| k in before.categories && before.categories[k].name == c.name;
      assert once.categories[k].name == c.name;
    }
    forall t | t in doc.tags ensures HasTagNamed(once, t.name) {
      var k :| k in before.tags && before.tags[k].name == t.name;
      assert once.tags[k].name == t.name;
    }
    KnownCategoriesUnchanged(once, doc.categories, slugify);
    KnownTagsUnchanged(once, doc.tags, slugify);
    StoredItemsUnchanged(once, doc.items, later, slugify);
  }

  // ----- The command, step by step on the live store -----

  /** `import_categories`. */
  method ImportCategoriesInto(store: Store, cats: seq<WxrCategory>)
    modifies store
    ensures store.Snapshot() == ImportCategories(old(store.Snapshot()), cats, store.slugify)
  {
    for i := 0 to |cats|
      invariant store.Snapshot() == ImportCategories(old(store.Snapshot()), cats[..i], store.slugify)
    {
      var c := cats[i];
      var _, _ := store.GetOrCreateCategory(c.name, c.nicename, c.description.GetOr(""));
      assert cats[..i + 1][..i] == cats[..i];
    }
    assert cats[..|cats|] == cats;
  }

  /** `import_tags`. */
  method ImportTagsInto(store: Store, tags: seq<WxrTag>)
    modifies store
    ensures store.Snapshot() == ImportTags(old(store.Snapshot()), tags, store.slugify)
  {
    for i := 0 to |tags|
      invariant store.Snapshot() == ImportTags(old(store.Snapshot()), tags[..i], store.slugify)
    {
      var t := tags[i];
      var _, _ := store.GetOrCreateTag(t.name, t.slug);
      assert tags[..i + 1][..i] == tags[..i];
    }
    assert tags[..|tags|] == tags;
  }

  /** `import_comments` for the post stored under `postId`. */
  method ImportCommentsInto(store: Store, postId: Id, cs: seq<WxrComment>)
    modifies store
    ensures store.Snapshot() == ImportComments(old(store.Snapshot()), postId, cs)
  {
    for i := 0 to |cs|
      invariant store.Snapshot() == ImportComments(old(store.Snapshot()), postId, cs[..i])
    {
      var c := cs[i];
      var existing := store.FindCommentByWpId(c.commentId);
      if existing.None? {
        var _ := store.CreateComment(ImportedComment(postId, c));
      }
      ImportCommentsSnoc(old(store.Snapshot()), postId, cs, i);
    }
    assert cs[..|cs|] == cs;
  }

  lemma ImportCommentsSnoc(db: Db, postId: Id, cs: seq<WxrComment>, i: nat)
    requires i < |cs|
    ensures ImportComments(db, postId, cs[..i + 1]) == ImportComment(ImportComments(db, postId, cs[..i]), postId, cs[i])
  {
    assert cs[..i + 1][..i] == cs[..i];
  }

  lemma LinkSnoc(db: Db, id: Id, names: seq<string>, i: nat)
    requires id in db.posts && i < |names|
    ensures LinkCategories(db, id, names[..i + 1])
      == AddPostCategories(LinkCategories(db, id, names[..i]), id, CategoriesNamed(LinkCategories(db, id, names[..i]), names[i]))
    ensures LinkTags(db, id, names[..i + 1])
      == AddPostTags(LinkTags(db, id, names[..i]), id, TagsNamed(LinkTags(db, id, names[..i]), names[i]))
  {
    assert names[..i + 1][..i] == names[..i];
  }

  /** Adding no links leaves the database as it is. */
  lemma AddNothing(db: Db, id: Id)
    requires id in db.posts
    ensures AddPostCategories(db, id, {}) == db && AddPostTags(db, id, {}) == db
  {
    var p := db.posts[id];
    assert p.(categories := p.categories + {}) == p && p.(tags := p.tags + {}) == p;
    assert db.posts[id := p] == db.posts;
  }

  /** The category loop of `import_post` on the post stored under `id`. */
  method LinkCategoriesInto(store: Store, id: Id, names: seq<string>)
    requires id in store.posts && UniqueNames(store.Snapshot())
    modifies store
    ensures store.Snapshot() == LinkCategories(old(store.Snapshot()), id, names)
  {
    for i := 0 to |names|
      invariant id in store.posts && store.categories == old(store.categories)
      invariant UniqueNames(store.Snapshot())
      invariant store.Snapshot() == LinkCategories(old(store.Snapshot()), id, names[..i])
    {
      ghost var prev := store.Snapshot();
      var cat := store.FindCategory(names[i]);
      if cat.Some? {
        NamedLookup(prev, names[i], cat.value);
        store.AddPostCategory(id, cat.value);
      } else {
        NamedLookup(prev, names[i], 0);
        AddNothing(prev, id);
      }
      LinkSnoc(old(store.Snapshot()), id, names, i);
    }
    assert names[..|names|] == names;
  }

  /** The tag loop of `import_post` on the post stored under `id`. */
  method LinkTagsInto(store: Store, id: Id, names: seq<string>)
    requires id in store.posts && UniqueNames(store.Snapshot())
    modifies store
    ensures store.Snapshot() == LinkTags(old(store.Snapshot()), id, names)
  {
    for i := 0 to |names|
      invariant id in store.posts && store.tags == old(store.tags)
      invariant UniqueNames(store.Snapshot())
      invariant store.Snapshot() == LinkTags(old(store.Snapshot()), id, names[..i])
    {
      ghost var prev := store.Snapshot();
      var tag := store.FindTag(names[i]);
      if tag.Some? {
        NamedLookup(prev, names[i], tag.value);
        store.AddPostTag(id, tag.value);
      } else {
        NamedLookup(prev, names[i], 0);
        AddNothing(prev, id);
      }
      LinkSnoc(old(store.Snapshot()), id, names, i);
    }
    assert names[..|names|] == names;
  }

  /** `import_post`. */
  method ImportPostInto(store: Store, item: WxrItem, f: ItemFields, now: Time)
    requires UniqueNames(store.Snapshot())
    modifies store
    ensures store.Snapshot() == ImportPost(old(store.Snapshot()), item, f, now, store.slugify)
  {
    var existing := store.FindPostByWpId(item.postId);
    if existing.None? {
      var id := store.CreatePost(ImportedPost(item, f), now);
      LinkCategoriesInto(store, id, item.categoryNames);
      LinkTagsInto(store, id, item.tagNames);
      ImportCommentsInto(store, id, item.comments);
    }
  }

  /** `import_page`. */
  method ImportPageInto(store: Store, item: WxrItem, f: ItemFields)
    modifies store
    ensures store.Snapshot() == ImportPage(old(store.Snapshot()), item, f, store.slugify)
  {
    var existing := store.FindPageByWpId(item.postId);
    if existing.None? {
      var _ := store.CreatePage(ImportedPage(item, f));
    }
  }

  /** One pass of the `import_items` loop: the item is read, then dispatched on its type. */
  method ImportItemInto(store: Store, item: WxrItem, now: Time)
    requires store.Valid()
    modifies store
    ensures store.Snapshot() == ImportItem(old(store.Snapshot()), item, now, store.slugify)
  {
    var f := ReadItem(item, store.slugify);
    if Skipped(item.postType) {
    } else if item.postType == "post" {
      ImportPostInto(store, item, f, now);
    } else if item.postType == "page" {
      ImportPageInto(store, item, f);
    }
  }

  lemma ImportItemsSnoc(db: Db, items: seq<WxrItem>, i: nat, now: Time, slugify: Slugify)
    requires i < |items|
    ensures ImportItems(db, items[..i + 1], now, slugify)
      == ImportItem(ImportItems(db, items[..i], now, slugify), items[i], now, slugify)
  {
    assert items[..i + 1][..i] == items[..i];
  }

  /** `import_items`. */
  method ImportItemsInto(store: Store, items: seq<WxrItem>, now: Time)
    requires store.Valid()
    modifies store
    ensures store.Snapshot() == ImportItems(old(store.Snapshot()), items, now, store.slugify)
  {
    for i := 0 to |items|
      invariant store.Snapshot() == ImportItems(old(store.Snapshot()), items[..i], now, store.slugify)
      invariant store.Valid()
    {
      ghost var prev := store.Snapshot();
      ImportItemInto(store, items[i], now);
      ImportItemValid(prev, items[i], now, store.slugify);
      ImportItemsSnoc(old(store.Snapshot()), items, i, now, store.slugify);
    }
    assert items[..|items|] == items;
  }

  /** `handle`: the three phases in order. */
  method Handle(store: Store, doc: WxrDocument, now: Time)
    requires store.Valid()
    modifies store
    ensures store.Snapshot() == Import(old(store.Snapshot()), doc, now, store.slugify)
    ensures store.Valid()
  {
    ImportCategoriesInto(store, doc.categories);
    ImportTagsInto(store, doc.tags);
    ImportItemsInto(store, doc.items, now);
    ImportValid(old(store.Snapshot()), doc, now, store.slugify);
  }
}
