/**
 * The table of contents every template receives (`toc_context`): one group
 * per page category that has a listed page, in the page categories' own
 * order, each holding its listed pages in table-of-contents order, and a
 * last group without a heading for the listed pages that have no category.
 */
module Toc {
  import opened Wrappers
  import opened Ordering
  import opened Models
  import opened Database

  /** A page the table of contents shows: published and marked `show_in_toc`. */
  predicate Listed(p: Page) {
    p.isPublished && p.showInToc
  }

  /** One entry of `toc_data`: its heading (a page category, or none for the uncategorized tail) and its pages. */
  datatype TocGroup = TocGroup(heading: Option<(Id, PageCategory)>, pages: seq<(Id, Page)>)

  /** The category a group stands for, as a page's `category` field names it. */
  function HeadingId(g: TocGroup): Option<Id> {
    if g.heading.Some? then Some(g.heading.value.0) else None
  }

  /** A listed page among `rows` has category `cat` (the join `page__is_published`, `page__show_in_toc`). */
  predicate HasListed(rows: seq<(Id, Page)>, cat: Option<Id>) {
    exists row :: row in rows && Listed(row.1) && row.1.category == cat
  }

  /** A stored page is listed under category `cat`. */
  ghost predicate ListedIn(db: Db, row: (Id, Page), cat: Option<Id>) {
    row.0 in db.pages && row.0 < db.nextId && db.pages[row.0] == row.1
    && Listed(row.1) && row.1.category == cat
  }

  /** The pages of one group: the listed pages with category `cat`, ordered by `toc_order`, then `title`. */
  function TocPages(db: Db, cat: Option<Id>): (r: seq<(Id, Page)>)
    ensures forall row :: row in r <==> ListedIn(db, row, cat)
  {
    assert Total(ByRecord(TocLe)) by { OrderingsTotal(); }
    var listed := Filter(Rows(db.pages, db.nextId), (row: (Id, Page)) => Listed(row.1) && row.1.category == cat);
    var r := SortBy(listed, ByRecord(TocLe));
    SameElements(r, listed);
    r
  }

  /** A group's pages are in `toc_order`, then `title` order, and none is listed twice. */
  lemma TocPagesOrdered(db: Db, cat: Option<Id>)
    ensures Sorted(TocPages(db, cat), ByRecord(TocLe))
    ensures NoDup(TocPages(db, cat))
  {
    OrderingsTotal();
    RowsNoDup(db.pages, db.nextId);
    var listed := Filter(Rows(db.pages, db.nextId), (row: (Id, Page)) => Listed(row.1) && row.1.category == cat);
    NoDupPermutation(listed, SortBy(listed, ByRecord(TocLe)));
  }

  /** The page categories with a listed page, distinct, ordered by `order`, then `name`. */
  function TocCategories(db: Db): (r: seq<(Id, PageCategory)>)
    ensures forall c :: c in r <==>
      c.0 in db.pageCategories && c.0 < db.nextId && db.pageCategories[c.0] == c.1
      && HasListed(Rows(db.pages, db.nextId), Some(c.0))
  {
    assert Total(ByRecord(PageCategoryLe)) by { OrderingsTotal(); }
    var pageRows := Rows(db.pages, db.nextId);
    var withPages := Filter(Rows(db.pageCategories, db.nextId), (c: (Id, PageCategory)) => HasListed(pageRows, Some(c.0)));
    var r := SortBy(withPages, ByRecord(PageCategoryLe));
    SameElements(r, withPages);
    r
  }

  /** The categories come in `order`, then `name` order, and none twice. */
  lemma TocCategoriesOrdered(db: Db)
    ensures Sorted(TocCategories(db), ByRecord(PageCategoryLe))
    ensures NoDup(TocCategories(db))
  {
    OrderingsTotal();
    RowsNoDup(db.pageCategories, db.nextId);
    var pageRows := Rows(db.pages, db.nextId);
    var withPages := Filter(Rows(db.pageCategories, db.nextId), (c: (Id, PageCategory)) => HasListed(pageRows, Some(c.0)));
    NoDupPermutation(withPages, SortBy(withPages, ByRecord(PageCategoryLe)));
  }

  /** The category loop: a group for each category whose listed pages exist. */
  function CategoryGroups(db: Db, cats: seq<(Id, PageCategory)>): seq<TocGroup> {
    if cats == [] then []
    else
      var pages := TocPages(db, Some(cats[0].0));
      var rest := CategoryGroups(db, cats[1..]);
      if pages != [] then [TocGroup(Some(cats[0]), pages)] + rest else rest
  }

  /** `toc_data`: the category groups, then the uncategorized group when it has pages. */
  function TocData(db: Db): seq<TocGroup> {
    WithTail(CategoryGroups(db, TocCategories(db)), TocPages(db, None))
  }

  /** `groups`, then a group without a heading for `u` when `u` is not empty. */
  function WithTail(groups: seq<TocGroup>, u: seq<(Id, Page)>): (r: seq<TocGroup>)
    ensures |r| == |groups| + if u == [] then 0 else 1
    ensures forall i :: 0 <= i < |groups| ==> r[i] == groups[i]
    ensures u != [] ==> r[|groups|] == TocGroup(None, u)
  {
    groups + if u != [] then [TocGroup(None, u)] else []
  }

  // ----- Properties -----

  /** A category has a listed page exactly when its group would have pages. */
  lemma HasListedIffPages(db: Db, cat: Option<Id>)
    ensures HasListed(Rows(db.pages, db.nextId), cat) <==> TocPages(db, cat) != []
  {
    var r := TocPages(db, cat);
    if HasListed(Rows(db.pages, db.nextId), cat) {
      var row :| row in Rows(db.pages, db.nextId) && Listed(row.1) && row.1.category == cat;
      assert row in r;
    }
    if r != [] {
      assert r[0] in r;
    }
  }

  /** Each category group is headed by one of the categories looped over. */
  lemma {:induction false} CategoryGroupsHeaded(db: Db, cats: seq<(Id, PageCategory)>)
    ensures forall g :: g in CategoryGroups(db, cats) ==> g.heading.Some? && g.heading.value in cats
  {
    if cats != [] {
      CategoryGroupsHeaded(db, cats[1..]);
    }
  }

  /** Each category group holds its category's pages, and some. */
  lemma {:induction false} CategoryGroupsPages(db: Db, cats: seq<(Id, PageCategory)>)
    ensures forall g :: g in CategoryGroups(db, cats) ==> g.pages == TocPages(db, HeadingId(g)) && g.pages != []
  {
    if cats != [] {
      CategoryGroupsPages(db, cats[1..]);
    }
  }

  /** When every category has pages, the loop keeps each of them, in order. */
  lemma {:induction false} CategoryGroupsKeepAll(db: Db, cats: seq<(Id, PageCategory)>)
    requires forall c :: c in cats ==> TocPages(db, Some(c.0)) != []
    ensures |CategoryGroups(db, cats)| == |cats|
    ensures forall i :: 0 <= i < |cats| ==> CategoryGroups(db, cats)[i].heading == Some(cats[i])
  {
    if cats != [] {
      assert cats[0] in cats;
      CategoryGroupsKeepAll(db, cats[1..]);
    }
  }

  /** The headings of the category groups are exactly `TocCategories`, one group each. */
  lemma CategoryHeadings(db: Db)
    ensures |CategoryGroups(db, TocCategories(db))| == |TocCategories(db)|
    ensures forall i :: 0 <= i < |TocCategories(db)| ==>
      CategoryGroups(db, TocCategories(db))[i].heading == Some(TocCategories(db)[i])
  {
    var cats := TocCategories(db);
    forall c | c in cats ensures TocPages(db, Some(c.0)) != [] {
      HasListedIffPages(db, Some(c.0));
    }
    CategoryGroupsKeepAll(db, cats);
  }

  /** A group has pages exactly when a stored page is listed under its category. */
  lemma PagesExist(db: Db, cat: Option<Id>)
    ensures TocPages(db, cat) != [] <==> exists row :: ListedIn(db, row, cat)
  {
    var r := TocPages(db, cat);
    if r != [] {
      assert r[0] in r;
    }
    if exists row :: ListedIn(db, row, cat) {
      var row :| ListedIn(db, row, cat);
      assert row in r;
    }
  }

  /** A group of the table of contents holds its heading's pages, and some. */
  lemma GroupPages(db: Db, g: TocGroup)
    requires g in TocData(db)
    ensures g.pages == TocPages(db, HeadingId(g)) && g.pages != []
  {
    var cats := TocCategories(db);
    WithTailMember(CategoryGroups(db, cats), TocPages(db, None), g);
    CategoryGroupsPages(db, cats);
  }

  lemma WithTailMember(groups: seq<TocGroup>, u: seq<(Id, Page)>, g: TocGroup)
    requires g in WithTail(groups, u)
    ensures g in groups || (u != [] && g == TocGroup(None, u))
  {
  }

  /** A category group of the table of contents is the category loop's group at the same place. */
  lemma CategoryGroupAt(db: Db, i: nat)
    requires i < |TocData(db)| && TocData(db)[i].heading.Some?
    ensures i < |CategoryGroups(db, TocCategories(db))|
    ensures TocData(db)[i] == CategoryGroups(db, TocCategories(db))[i]
  {
    WithTailSome(CategoryGroups(db, TocCategories(db)), TocPages(db, None), i);
  }

  lemma WithTailSome(groups: seq<TocGroup>, u: seq<(Id, Page)>, i: nat)
    requires i < |WithTail(groups, u)| && WithTail(groups, u)[i].heading.Some?
    ensures i < |groups| && WithTail(groups, u)[i] == groups[i]
  {
  }

  /** Headed groups have no unheaded group before them, and each heading sorts no later than the next (`order`, then `name`). */
  ghost predicate HeadingsInOrder(gs: seq<TocGroup>) {
    forall i :: 0 < i < |gs| && gs[i].heading.Some? ==>
      gs[i - 1].heading.Some? && PageCategoryLe(gs[i - 1].heading.value.1, gs[i].heading.value.1)
  }

  lemma WithTailInOrder(groups: seq<TocGroup>, u: seq<(Id, Page)>)
    requires HeadingsInOrder(groups)
    ensures HeadingsInOrder(WithTail(groups, u))
  {
  }

  lemma WithTailLast(groups: seq<TocGroup>, u: seq<(Id, Page)>)
    requires forall g :: g in groups ==> g.heading.Some?
    ensures forall i :: 0 <= i < |WithTail(groups, u)| && WithTail(groups, u)[i].heading.None? ==> i == |WithTail(groups, u)| - 1
    ensures (|WithTail(groups, u)| > 0 && WithTail(groups, u)[|WithTail(groups, u)| - 1].heading.None?) <==> u != []
  {
    if u == [] && groups != [] {
      assert groups[|groups| - 1] in groups;
    }
    forall i | 0 <= i < |groups| ensures groups[i].heading.Some? {
      assert groups[i] in groups;
    }
  }

  /** Every group holds exactly the listed pages of its heading, sorted by `toc_order`, then `title`, without repeats, and is never empty. */
  lemma TocGroupsWellFormed(db: Db)
    ensures forall g :: g in TocData(db) ==>
      g.pages != [] && Sorted(g.pages, ByRecord(TocLe)) && NoDup(g.pages)
      && forall row :: row in g.pages <==> ListedIn(db, row, HeadingId(g))
  {
    forall g | g in TocData(db)
      ensures g.pages == TocPages(db, HeadingId(g)) && g.pages != []
      ensures Sorted(g.pages, ByRecord(TocLe)) && NoDup(g.pages)
    {
      GroupPages(db, g);
      TocPagesOrdered(db, HeadingId(g));
    }
  }

  /** Only the last group can be the uncategorized one. */
  lemma UncategorizedOnlyLast(db: Db)
    ensures forall i :: 0 <= i < |TocData(db)| && TocData(db)[i].heading.None? ==> i == |TocData(db)| - 1
  {
    CategoryGroupsHeaded(db, TocCategories(db));
    WithTailLast(CategoryGroups(db, TocCategories(db)), TocPages(db, None));
  }

  /** The last group is the uncategorized one exactly when a listed page has no category. */
  lemma UncategorizedPresent(db: Db)
    ensures (|TocData(db)| > 0 && TocData(db)[|TocData(db)| - 1].heading.None?)
      <==> exists row :: ListedIn(db, row, None)
  {
    CategoryGroupsHeaded(db, TocCategories(db));
    WithTailLast(CategoryGroups(db, TocCategories(db)), TocPages(db, None));
    PagesExist(db, None);
  }

  /** Category groups come in page-category order: `order`, then `name`. */
  lemma HeadingsSorted(db: Db)
    ensures forall i :: 0 < i < |TocData(db)| && TocData(db)[i].heading.Some? ==>
      TocData(db)[i - 1].heading.Some?
      && PageCategoryLe(TocData(db)[i - 1].heading.value.1, TocData(db)[i].heading.value.1)
  {
    CategoryGroupsInOrder(db);
    WithTailInOrder(CategoryGroups(db, TocCategories(db)), TocPages(db, None));
  }

  lemma CategoryGroupsInOrder(db: Db)
    ensures HeadingsInOrder(CategoryGroups(db, TocCategories(db)))
  {
    CategoryHeadings(db);
    TocCategoriesOrdered(db);
    HeadedBySorted(CategoryGroups(db, TocCategories(db)), TocCategories(db));
  }

  /** Groups headed, one by one, by sorted categories are in heading order. */
  lemma HeadedBySorted(groups: seq<TocGroup>, cats: seq<(Id, PageCategory)>)
    requires |groups| == |cats| && forall i :: 0 <= i < |cats| ==> groups[i].heading == Some(cats[i])
    requires Sorted(cats, ByRecord(PageCategoryLe))
    ensures HeadingsInOrder(groups)
  {
    forall i | 0 < i < |groups|
      ensures PageCategoryLe(groups[i - 1].heading.value.1, groups[i].heading.value.1)
    {
      assert ByRecord(PageCategoryLe)(cats[i - 1], cats[i]);
    }
  }

  /** Rows of one table that never repeat have distinct keys. */
  lemma DistinctKeys<R>(rows: seq<(Id, R)>, m: map<Id, R>)
    requires NoDup(rows)
    requires forall row :: row in rows ==> row.0 in m && m[row.0] == row.1
    ensures forall i, j :: 0 <= i < j < |rows| ==> rows[i].0 != rows[j].0
  {
    forall i, j | 0 <= i < j < |rows| ensures rows[i].0 != rows[j].0 {
      assert rows[i] in rows && rows[j] in rows;
    }
  }

  /** The category headings of the table of contents are distinct. */
  lemma CategoryIdsDistinct(db: Db)
    ensures forall i, j :: 0 <= i < j < |TocCategories(db)| ==> TocCategories(db)[i].0 != TocCategories(db)[j].0
  {
    TocCategoriesOrdered(db);
    DistinctKeys(TocCategories(db), db.pageCategories);
  }

  /** No category, and not the uncategorized tail either, heads two groups. */
  lemma HeadingsDistinct(db: Db)
    ensures forall i, j :: 0 <= i < j < |TocData(db)| ==> HeadingId(TocData(db)[i]) != HeadingId(TocData(db)[j])
  {
    var cats := TocCategories(db);
    CategoryGroupIdsDistinct(db);
    CategoryGroupsHeaded(db, cats);
    WithTailDistinct(CategoryGroups(db, cats), TocPages(db, None));
  }

  /** The category loop gives each category one group at most. */
  lemma CategoryGroupIdsDistinct(db: Db)
    ensures forall i, j :: 0 <= i < j < |CategoryGroups(db, TocCategories(db))| ==>
      HeadingId(CategoryGroups(db, TocCategories(db))[i]) != HeadingId(CategoryGroups(db, TocCategories(db))[j])
  {
    CategoryHeadings(db);
    CategoryIdsDistinct(db);
  }

  /** Appending the uncategorized group keeps the headings distinct. */
  lemma WithTailDistinct(groups: seq<TocGroup>, u: seq<(Id, Page)>)
    requires forall g :: g in groups ==> g.heading.Some?
    requires forall i, j :: 0 <= i < j < |groups| ==> HeadingId(groups[i]) != HeadingId(groups[j])
    ensures forall i, j :: 0 <= i < j < |WithTail(groups, u)| ==>
      HeadingId(WithTail(groups, u)[i]) != HeadingId(WithTail(groups, u)[j])
  {
  }

  /** A category heads a group if it has a listed page. */
  lemma HeadingPresentIfListed(db: Db, c: Id)
    requires KeysBelowNext(db) && c in db.pageCategories
    requires exists row :: ListedIn(db, row, Some(c))
    ensures exists i :: 0 <= i < |TocData(db)| && HeadingId(TocData(db)[i]) == Some(c)
  {
    var cats := TocCategories(db);
    var groups := CategoryGroups(db, cats);
    assert (c, db.pageCategories[c]) in cats by {
      var row :| ListedIn(db, row, Some(c));
      assert row in Rows(db.pages, db.nextId);
    }
    var i :| 0 <= i < |cats| && cats[i] == (c, db.pageCategories[c]);
    assert 0 <= i < |TocData(db)| && HeadingId(TocData(db)[i]) == Some(c) by {
      CategoryHeadings(db);
      assert TocData(db)[i] == groups[i];
    }
  }

  /** A category heads a group only if it is stored and has a listed page. */
  lemma HeadingOnlyIfListed(db: Db, i: nat)
    requires i < |TocData(db)| && TocData(db)[i].heading.Some?
    ensures TocData(db)[i].heading.value.0 in db.pageCategories
    ensures exists row :: ListedIn(db, row, HeadingId(TocData(db)[i]))
  {
    var cats := TocCategories(db);
    var groups := CategoryGroups(db, cats);
    CategoryGroupAt(db, i);
    var g := groups[i];
    assert g in groups;
    CategoryGroupsHeaded(db, cats);
    CategoryGroupsPages(db, cats);
    PagesExist(db, HeadingId(g));
  }

  /** The headings are exactly the page categories that have a listed page. */
  lemma HeadingsPresent(db: Db, c: Id)
    requires KeysBelowNext(db)
    ensures (exists i :: 0 <= i < |TocData(db)| && HeadingId(TocData(db)[i]) == Some(c))
      <==> c in db.pageCategories && exists row :: ListedIn(db, row, Some(c))
  {
    if exists i :: 0 <= i < |TocData(db)| && HeadingId(TocData(db)[i]) == Some(c) {
      var i :| 0 <= i < |TocData(db)| && HeadingId(TocData(db)[i]) == Some(c);
      HeadingOnlyIfListed(db, i);
    }
    if c in db.pageCategories && exists row :: ListedIn(db, row, Some(c)) {
      HeadingPresentIfListed(db, c);
    }
  }

  /** In a consistent database each listed page sits in some group: its category's, or the uncategorized one. */
  lemma ListedPageGrouped(db: Db, k: Id)
    requires ValidDb(db) && k in db.pages && Listed(db.pages[k])
    ensures exists i :: 0 <= i < |TocData(db)| && (k, db.pages[k]) in TocData(db)[i].pages
  {
    var cat := db.pages[k].category;
    assert cat.Some? ==> cat.value in db.pageCategories;
    ListedRowGrouped(db, (k, db.pages[k]), cat);
  }

  /** A listed page row whose category, if any, is stored sits in some group. */
  lemma ListedRowGrouped(db: Db, row: (Id, Page), cat: Option<Id>)
    requires KeysBelowNext(db) && ListedIn(db, row, cat) && (cat.Some? ==> cat.value in db.pageCategories)
    ensures exists i :: 0 <= i < |TocData(db)| && row in TocData(db)[i].pages
  {
    if cat.Some? {
      HeadingPresentIfListed(db, cat.value);
      var i :| 0 <= i < |TocData(db)| && HeadingId(TocData(db)[i]) == cat;
      RowInHeadedGroup(db, row, cat, i);
    } else {
      UncategorizedPresent(db);
      RowInHeadedGroup(db, row, cat, |TocData(db)| - 1);
    }
  }

  /** A listed page sits in the group headed by its own category. */
  lemma RowInHeadedGroup(db: Db, row: (Id, Page), cat: Option<Id>, i: nat)
    requires i < |TocData(db)| && HeadingId(TocData(db)[i]) == cat && ListedIn(db, row, cat)
    ensures row in TocData(db)[i].pages
  {
    var toc := TocData(db);
    assert toc[i] in toc;
    GroupPages(db, toc[i]);
  }

  /** A page never sits in two groups. */
  lemma GroupedOnce(db: Db, row: (Id, Page))
    ensures forall i, j ::
      (0 <= i < |TocData(db)| && 0 <= j < |TocData(db)|
       && row in TocData(db)[i].pages && row in TocData(db)[j].pages)
      ==> i == j
  {
    var toc := TocData(db);
    HeadingsDistinct(db);
    forall i, j | 0 <= i < |toc| && 0 <= j < |toc| && row in toc[i].pages && row in toc[j].pages
      ensures i == j
    {
      assert toc[i] in toc && toc[j] in toc;
      GroupPages(db, toc[i]);
      GroupPages(db, toc[j]);
    }
  }
}
