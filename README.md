# Greg Dyche's blog: a Dafny model of its rules

This project models the rules under a Django blog: its posts, pages, categories, tags and comments, and the commands and scripts around them. It then proves properties of that model. It covers:

- the save rules of the models: slug derivation, set-once publication date, defaults, orderings, and comment cascade on delete;
- the WordPress (WXR) importer. Categories and tags are upserted by name. Items are deduplicated on their WordPress ids. Posts link only to categories and tags that already exist. Comments attach only to newly created posts;
- the upload-link fixer. Absolute `…/wp-content/uploads/YYYY/MM/…` URLs on the two former hosts become `/static/uploads/YYYY/MM/…`. A record is written back only when its content changed, and never in dry-run mode;
- the publish signal, which dispatches notifications for every save of a published post. Dispatch is an opaque callback whose failure is logged;
- the table-of-contents context: page groups per page category, plus an uncategorized tail group;
- the subscription form's validation;
- the host, origin and email-backend settings derived from the environment;
- the `create_homepage` and `create_services_page` upsert commands;
- the state machine of the inline front-end editor.

Structure of the model:

- **Database.** The database is a value `Models.Db`: one map from ids to records per table, a counter for the next id, and the list of post ids for which notifications were dispatched.
- **Store.** The class `Store.Store` holds these maps as fields. Its methods (find, `get_or_create`, save, add link, delete) are each proved equal to a pure function of module `Database`.
- **Imperative commands.** The importer, the link fixer and the page commands are methods on the store. Each is proved to leave the store in the state that a pure specification function computes. The lemmas state what the source promises about those functions.
- **Editor.** The front-end editor is a class `FrontendEditor.Editor` whose methods follow the JavaScript as written. Each method keeps the editor's invariant and is proved to move the editor's state by a pure transition function; lemmas about the transitions state the editor's behaviour. The start rule the code evidently intends (a click into the element already being edited keeps that edit) is the separate `StartIntended`, `ClickIntended`, `StepIntended` and `RunIntended`; see Findings.

Outside inputs are parameters:

- `slugify` is an uninterpreted function held by the store;
- `timezone.now()` is a `now` argument;
- the parsed XML export is a `WxrDocument` record;
- the server's reply to an editor save is a `success` flag;
- the outcome of a notification dispatch is a `DispatchOutcome`;
- the environment variables are an `Env` record.

## Model

| member | source | states |
|---|---|---|
| Models.SlugOr | blog/models.py:17-18 | a non-empty slug is kept; an empty one becomes `slugify` of the source text |
| Models.SavedCategory | blog/models.py:16-19 | a category save fills an empty slug from its name, keeps a set slug, and changes nothing else |
| Models.SavedTag | blog/models.py:31-34 | a tag save fills an empty slug from its name, keeps a set slug, and changes nothing else |
| Models.SavedPost | blog/models.py:68-73 | a post save fills an empty slug from the title; it sets `published_date` to now only when the status is published and no date is set; a set date is never overwritten; nothing else changes |
| Models.SavedPage | blog/models.py:101-104 | a page save fills an empty slug from the title and changes nothing else |
| Models.DefaultsSaved | blog/models.py:55-120 | a new post is a draft with no publication date even after a save; a new page is published; a new comment is approved |
| Models.SaveIdempotent | blog/models.py:16-104 | saving twice equals saving once, for every model, whatever the second save's time |
| Models.SavedFormIsFixed | blog/models.py:68-104 | re-saving a saved post or page after changing only its content writes exactly that content |
| Models.FirstPublishTime | blog/models.py:71-72 | a publication time exists exactly when some save in the history had status published |
| Models.PublishedDateSetOnce | blog/models.py:71-72 | after any sequence of status saves, the publication date is the time of the first save in status published (or the preset date); later saves never move it |
| Models.OrderingsTotal | blog/models.py:82-129 | the post, comment, page-category and table-of-contents orderings are total |
| Models.PageCategoryLeAntisymmetric | blog/migrations/0002_pagecategory_alter_page_options_page_show_in_toc_and_more.py:38 | two page categories that are each ordered before the other share `order` and `name` |
| Database.NamedLookup | blog/models.py:12-28 | with unique names, a lookup of a category or tag by name finds exactly the one row carrying it, or nothing |
| Database.GrowsKeepsLookups | blog/management/commands/import_wordpress.py:53-195 | whatever a lookup by name or WordPress id finds before rows are added, it still finds after |
| Database.GetOrCreateCategory | blog/management/commands/import_wordpress.py:53-56 | an existing name leaves the database unchanged; a new name adds one saved category under the next key; afterwards the name exists |
| Database.GetOrCreateCategoryValid | blog/management/commands/import_wordpress.py:53-56 | the category upsert keeps the database's integrity and only adds rows |
| Database.GetOrCreateTag | blog/management/commands/import_wordpress.py:66-69 | an existing name leaves the database unchanged; a new name adds one saved tag under the next key; afterwards the name exists |
| Database.GetOrCreateTagValid | blog/management/commands/import_wordpress.py:66-69 | the tag upsert keeps the database's integrity and only adds rows |
| Database.SavePostRow | blog/models.py:68-73 | a post save writes the saved form of the instance under its own key or the next one, and nothing else; the dispatch list grows by the post's key exactly when its status is published |
| Database.SavePostRowValid | blog/models.py:68-73 | a post save with existing links and its own WordPress id keeps integrity; saving a new post only adds rows; every row stays in saved form |
| Database.SavePostNotifiesAsReceiver | blog/signals.py:21-34 | the dispatches a save records are exactly those the receiver performs for it |
| Database.AddPostCategories | blog/management/commands/import_wordpress.py:133 | linking categories adds them to the post's set and changes nothing else |
| Database.AddPostTags | blog/management/commands/import_wordpress.py:143 | linking tags adds them to the post's set and changes nothing else |
| Database.AddPostLinksValid | blog/management/commands/import_wordpress.py:128-145 | linking a post to existing categories or tags keeps integrity |
| Database.SavePageRow | blog/models.py:101-104 | a page save writes the saved form under the instance's key or the next one and changes nothing else |
| Database.SavePageRowValid | blog/models.py:101-104 | a page save under an existing heading keeps integrity; a new page only adds rows; every row stays in saved form |
| Database.CreateComment | blog/management/commands/import_wordpress.py:184-195 | creating a comment stores it under the next key and changes nothing else |
| Database.CreateCommentValid | blog/models.py:114-123 | a comment on an existing post with a new WordPress id keeps integrity and only adds rows |
| Database.DeletePost | blog/models.py:114 | deleting a post removes it together with every comment on it, and nothing else |
| Database.DeletePostCascades | blog/models.py:114 | after the delete, no comment names the post; every other comment is kept |
| Database.DeletePageCategory | blog/migrations/0002_pagecategory_alter_page_options_page_show_in_toc_and_more.py:59-68 | deleting a page category sets its pages' category to none and keeps every page |
| Database.DeletePageCategoryValid | blog/migrations/0002_pagecategory_alter_page_options_page_show_in_toc_and_more.py:59-68 | that delete keeps integrity and leaves no page under the deleted heading |
| Database.Rows | blog/models.py:82 | the listing of a table holds each stored row exactly once, in key order |
| Database.PostsInOrder | blog/models.py:82 | `Post.objects.all()` is a permutation of the stored posts, sorted newest published first, then newest created first |
| Database.PostsInOrderRows | blog/models.py:82 | a row is in the post listing exactly when it is a stored post |
| Store.Store.FindCategory | blog/management/commands/import_wordpress.py:132 | finds a category with that name exactly when one exists |
| Store.Store.FindTag | blog/management/commands/import_wordpress.py:142 | finds a tag with that name exactly when one exists |
| Store.Store.FindPostByWpId | blog/management/commands/import_wordpress.py:113-114 | finds a post with that WordPress id exactly when one exists |
| Store.Store.FindPageByWpId | blog/management/commands/import_wordpress.py:155-156 | finds a page with that WordPress id exactly when one exists |
| Store.Store.FindCommentByWpId | blog/management/commands/import_wordpress.py:184-185 | finds a comment with that WordPress id exactly when one exists |
| Store.Store.PagesBySlug | blog/management/commands/create_homepage.py:9 | returns the keys of exactly the pages with that slug |
| Store.Store.GetOrCreateCategory | blog/management/commands/import_wordpress.py:53-56 | the store moves as `Database.GetOrCreateCategory` says; `created` holds exactly when the name was new; the returned key carries the name |
| Store.Store.GetOrCreateTag | blog/management/commands/import_wordpress.py:66-69 | the store moves as `Database.GetOrCreateTag` says; `created` holds exactly when the name was new; the returned key carries the name |
| Store.Store.CreatePost | blog/management/commands/import_wordpress.py:113-124 | creating a post is a post save under the next key |
| Store.Store.SavePost | blog/management/commands/fix_wordpress_links.py:49-50 | saving a stored post is a post save under its own key |
| Store.Store.AddPostCategory | blog/management/commands/import_wordpress.py:133 | one category is linked to the post and nothing else changes |
| Store.Store.AddPostTag | blog/management/commands/import_wordpress.py:143 | one tag is linked to the post and nothing else changes |
| Store.Store.CreatePage | blog/management/commands/import_wordpress.py:155-164 | creating a page is a page save under the next key |
| Store.Store.SavePage | blog/management/commands/fix_wordpress_links.py:66-67 | saving a stored page is a page save under its own key |
| Store.Store.CreateComment | blog/management/commands/import_wordpress.py:184-195 | creating a comment is `Database.CreateComment` |
| Store.Store.DeletePost | blog/models.py:114 | deleting through the store is `Database.DeletePost`, cascade included |
| Signals.SendNotificationsForPost | blog/signals.py:36-57 | a raised dispatch becomes one logged failure; a delivered dispatch logs its count and then one line per error |
| Signals.OnPostSaved | blog/signals.py:10-34 | dispatch happens exactly when the saved post is published, whether created or updated; nothing is logged otherwise; the first line says new or updated; the rest is the helper's log |
| Signals.ManuallySendPostNotifications | blog/signals.py:60-65 | the manual trigger always dispatches and logs what the helper logs |
| Signals.ManualMatchesAutomatic | blog/signals.py:33-65 | for a published post, the automatic and manual paths dispatch alike and log the same helper lines |
| Signals.PublishedSaves | blog/signals.py:21-22 | keeps every save of a published post, as many times as it occurs in the run, and no other save |
| Signals.DispatchOncePerPublishedSave | blog/signals.py:21-34 | over any sequence of saves, one dispatch happens per save of a published post, with no deduplication of re-saves |
| Signals.DispatchCount | blog/signals.py:21-34 | the receiver dispatches once per call that finds the post published; `DispatchOncePerPublishedSave` proves that this is the number of published saves in the run |
| ImportWordpress.OrDefault | blog/management/commands/import_wordpress.py:174-178 | a present, non-empty text is kept; a missing or empty one becomes the default |
| ImportWordpress.ReadItem | blog/management/commands/import_wordpress.py:78-98 | a missing or empty title becomes `Untitled`; content and excerpt are the element's text, and empty when the element is absent or has no text; the slug is the text of `wp:post_name`, empty when that element has no text, and `slugify(title)` when it is absent |
| ImportWordpress.TextAsWritten | blog/management/commands/import_wordpress.py:79-80 | an absent element reads as the empty string, an element without text as `None`, any other element as its text |
| ImportWordpress.NewRowAsWritten | blog/management/commands/import_wordpress.py:78-124 | as written, creating the row fails exactly when the content element, or a post's excerpt element, has no text (a NOT NULL column given `None`); otherwise the row holds what `ReadItem` reads |
| ImportWordpress.EmptyExcerptRefused | blog/management/commands/import_wordpress.py:96-124 | a post with content and an empty excerpt element is refused as written, while the intended reading stores an empty excerpt and the content |
| ImportWordpress.ReadItemAgrees | blog/management/commands/import_wordpress.py:78-98 | wherever the written insert succeeds, `ReadItem` gives the same content and excerpt |
| ImportWordpress.ImportedPost | blog/management/commands/import_wordpress.py:111-124 | status `publish` gives a published post dated at pubDate; any other status gives a draft with no date; the WordPress id and the fields are carried over |
| ImportWordpress.ImportedPage | blog/management/commands/import_wordpress.py:153-164 | the page is published exactly when the status is `publish`, and carries the WordPress id and fields |
| ImportWordpress.ImportedComment | blog/management/commands/import_wordpress.py:173-195 | a missing author becomes `Anonymous`; the comment is approved exactly when the flag is `1`; it belongs to the given post |
| ImportWordpress.ImportCategories | blog/management/commands/import_wordpress.py:45-58 | only categories are added; integrity is kept; every declared category name exists afterwards |
| ImportWordpress.ImportTags | blog/management/commands/import_wordpress.py:60-71 | only tags are added; integrity is kept; every declared tag name exists afterwards |
| ImportWordpress.ImportComment | blog/management/commands/import_wordpress.py:184-195 | a stored WordPress comment id changes nothing; otherwise the comment is created once |
| ImportWordpress.ImportComments | blog/management/commands/import_wordpress.py:169-195 | only comments are added; comments on an existing post keep integrity |
| ImportWordpress.LinkCategories | blog/management/commands/import_wordpress.py:128-135 | the post is linked to exactly the categories whose names exist; unknown names are skipped |
| ImportWordpress.LinkTags | blog/management/commands/import_wordpress.py:138-145 | the post is linked to exactly the tags whose names exist; unknown names are skipped |
| ImportWordpress.ImportPost | blog/management/commands/import_wordpress.py:109-150 | a stored WordPress post id changes nothing: no second post, links or comments |
| ImportWordpress.ImportPage | blog/management/commands/import_wordpress.py:152-167 | a stored WordPress page id changes nothing; otherwise one saved page is created |
| ImportWordpress.ImportItem | blog/management/commands/import_wordpress.py:100-107 | types other than post and page, and items already stored, change nothing |
| ImportWordpress.ImportNewPost | blog/management/commands/import_wordpress.py:111-145 | a new post item adds one post under the next key, with the mapped status and date, linked to exactly the existing named categories and tags; categories, tags and pages stay as they were |
| ImportWordpress.ImportNewPage | blog/management/commands/import_wordpress.py:152-164 | a new page item adds one page, published exactly when the status is `publish`, and nothing else |
| ImportWordpress.ImportItemValid | blog/management/commands/import_wordpress.py:100-107 | every item keeps integrity, only adds rows, and leaves its WordPress id stored |
| ImportWordpress.ImportItemsValid | blog/management/commands/import_wordpress.py:73-107 | the item loop keeps integrity, leaves categories and tags alone, and stores every post and page item |
| ImportWordpress.ImportItems | blog/management/commands/import_wordpress.py:73-107 | the item loop, in document order; `ImportItemsValid` proves it keeps integrity, leaves categories and tags alone and stores every post and page item, and `ImportItemsInto` proves the loop computes it |
| ImportWordpress.OnlyPostsAndPagesImported | blog/management/commands/import_wordpress.py:100-107 | items of any other type (attachment, menu entry, revision, ...) create nothing |
| ImportWordpress.StoredItemsUnchanged | blog/management/commands/import_wordpress.py:113-166 | items whose WordPress ids are stored change nothing |
| ImportWordpress.KnownCategoriesUnchanged | blog/management/commands/import_wordpress.py:53-56 | categories whose names exist change nothing |
| ImportWordpress.KnownTagsUnchanged | blog/management/commands/import_wordpress.py:66-69 | tags whose names exist change nothing |
| ImportWordpress.DeclaredBeforeItems | blog/management/commands/import_wordpress.py:35-41 | every declared category and tag exists before items are linked, and the item phase leaves them unchanged |
| ImportWordpress.ImportValid | blog/management/commands/import_wordpress.py:17-43 | the whole import keeps integrity |
| ImportWordpress.Import | blog/management/commands/import_wordpress.py:17-107 | categories, then tags, then items; `ImportValid` proves the result keeps integrity and `ImportTwiceIsImportOnce` proves a second import of the same export changes nothing |
| ImportWordpress.ImportTwiceIsImportOnce | blog/management/commands/import_wordpress.py:17-195 | importing the same export again changes nothing |
| ImportWordpress.ImportCategoriesInto | blog/management/commands/import_wordpress.py:45-58 | the category loop leaves the store as `ImportCategories` says |
| ImportWordpress.ImportTagsInto | blog/management/commands/import_wordpress.py:60-71 | the tag loop leaves the store as `ImportTags` says |
| ImportWordpress.ImportCommentsInto | blog/management/commands/import_wordpress.py:169-195 | the comment loop leaves the store as `ImportComments` says |
| ImportWordpress.LinkCategoriesInto | blog/management/commands/import_wordpress.py:128-135 | the category-linking loop leaves the store as `LinkCategories` says |
| ImportWordpress.LinkTagsInto | blog/management/commands/import_wordpress.py:138-145 | the tag-linking loop leaves the store as `LinkTags` says |
| ImportWordpress.ImportPostInto | blog/management/commands/import_wordpress.py:109-150 | `import_post` leaves the store as `ImportPost` says |
| ImportWordpress.ImportPageInto | blog/management/commands/import_wordpress.py:152-167 | `import_page` leaves the store as `ImportPage` says |
| ImportWordpress.ImportItemInto | blog/management/commands/import_wordpress.py:99-107 | one item leaves the store as `ImportItem` says |
| ImportWordpress.ImportItemsInto | blog/management/commands/import_wordpress.py:73-107 | the item loop leaves the store as `ImportItems` says |
| ImportWordpress.Handle | blog/management/commands/import_wordpress.py:17-43 | `handle` runs categories, tags and items in that order, and leaves a valid store |
| FixWordpressLinks.RunEnd | blog/management/commands/fix_wordpress_links.py:32-33 | the captured path runs to the first `?`, white space or quote, or to the end |
| FixWordpressLinks.MatchAt | blog/management/commands/fix_wordpress_links.py:32-33 | a match starts at `http`, runs through the upload prefix of the host and a `YYYY/MM/` path, and ends where the path ends |
| FixWordpressLinks.FindAll | blog/management/commands/fix_wordpress_links.py:79 | the matches are in order, do not overlap, are each real matches, and cover every position where a match starts |
| FixWordpressLinks.FindAllMatches | blog/management/commands/fix_wordpress_links.py:79 | every found match is a match at its start |
| FixWordpressLinks.NewUrl | blog/management/commands/fix_wordpress_links.py:82-89 | the new URL is `/static/uploads/` plus the captured path, shorter than the old URL |
| FixWordpressLinks.MatchesFor | blog/management/commands/fix_wordpress_links.py:78-79 | every match found for either pattern is well formed in the content; `MatchesForEmpty` proves none is found exactly when no upload link is present |
| FixWordpressLinks.FoundIffLink | blog/management/commands/fix_wordpress_links.py:79 | the search for one pattern finds something exactly when an upload link on that host occurs somewhere |
| FixWordpressLinks.ApplyMatches | blog/management/commands/fix_wordpress_links.py:81-99 | replacing each found URL in turn; `ApplyMatchesShrinks` proves the text never grows |
| FixWordpressLinks.ApplyMatchesShrinks | blog/management/commands/fix_wordpress_links.py:81-99 | the replacements never make the text longer, and make it strictly shorter when the first URL occurs in it |
| FixWordpressLinks.FixedContent | blog/management/commands/fix_wordpress_links.py:74-101 | the rewritten content; `FixedContentChanges`, `OneLinkRewritten`, `NoHttpUntouched` and `OneLinkFixedOnce` state what it does, and `FixContentLinks` proves the loops compute it |
| FixWordpressLinks.MatchesForEmpty | blog/management/commands/fix_wordpress_links.py:76-101 | no match is found on either host exactly when the content holds no upload link |
| FixWordpressLinks.FixContentLinks | blog/management/commands/fix_wordpress_links.py:74-101 | the nested pattern and match loops with their in-place replacements compute `FixedContent` |
| FixWordpressLinks.FixedContentChanges | blog/management/commands/fix_wordpress_links.py:76-101 | the content changes exactly when it holds an upload link on either host, and never grows |
| FixWordpressLinks.OneLinkRewritten | blog/management/commands/fix_wordpress_links.py:32-99 | content holding one upload link, on either host and scheme, and no other `http` anywhere, becomes the same text with the link's prefix replaced by `/static/uploads/`; the query string and the rest stay |
| FixWordpressLinks.NoHttpUntouched | blog/management/commands/fix_wordpress_links.py:76-101 | content without `http` is returned unchanged |
| FixWordpressLinks.OneLinkFixedOnce | blog/management/commands/fix_wordpress_links.py:32-99 | fixing the output of a one-link fix again changes nothing |
| FixWordpressLinks.FixPosts | blog/management/commands/fix_wordpress_links.py:42-53 | the post loop keeps the set of posts and changes only posts and the dispatch list |
| FixWordpressLinks.FixPages | blog/management/commands/fix_wordpress_links.py:59-70 | the page loop keeps the set of pages and changes only pages |
| FixWordpressLinks.FixLinks | blog/management/commands/fix_wordpress_links.py:26-72 | the command changes only post and page contents and the dispatch list |
| FixWordpressLinks.RedispatchedExactly | blog/management/commands/fix_wordpress_links.py:46-50 | a post is re-dispatched exactly when it is published and its rewritten content differs |
| FixWordpressLinks.FixPostsNothingToDo | blog/management/commands/fix_wordpress_links.py:46-53 | in dry-run mode, or when no content changes, the post loop changes nothing |
| FixWordpressLinks.FixPagesNothingToDo | blog/management/commands/fix_wordpress_links.py:63-70 | in dry-run mode, or when no content changes, the page loop changes nothing |
| FixWordpressLinks.FixPostsEffect | blog/management/commands/fix_wordpress_links.py:42-53 | a post gets its rewritten content when that differs, else stays; only `content` changes |
| FixWordpressLinks.FixPostsNotifies | blog/management/commands/fix_wordpress_links.py:49-50 | the post loop records one dispatch per saved published post |
| FixWordpressLinks.FixPagesEffect | blog/management/commands/fix_wordpress_links.py:59-70 | a page gets its rewritten content when that differs, else stays; only `content` changes |
| FixWordpressLinks.FixLinksEffect | blog/management/commands/fix_wordpress_links.py:26-72 | a real run rewrites every post and page whose content changes and leaves all else |
| FixWordpressLinks.FixLinksNothingToDo | blog/management/commands/fix_wordpress_links.py:48-70 | a dry run changes nothing |
| FixWordpressLinks.FixLinksValid | blog/management/commands/fix_wordpress_links.py:26-72 | the command keeps integrity and saved form |
| FixWordpressLinks.UploadLinksRedispatched | blog/management/commands/fix_wordpress_links.py:42-53 | a published post with an upload link is re-dispatched by a real run |
| FixWordpressLinks.NoUploadLinksUnchanged | blog/management/commands/fix_wordpress_links.py:46-67 | a database with no upload link anywhere is left unchanged |
| FixWordpressLinks.Handle | blog/management/commands/fix_wordpress_links.py:26-72 | the post and page loops leave the store as `FixLinks` says |
| Toc.TocPages | blog/context_processors.py:14-30 | a group's pages are exactly the published pages shown in the table of contents under that category (or under none) |
| Toc.TocPagesOrdered | blog/context_processors.py:17-30 | the pages of a group are sorted by `toc_order`, then title, without repeats |
| Toc.TocCategories | blog/context_processors.py:5-10 | the categories queried are exactly those with a listed page |
| Toc.TocCategoriesOrdered | blog/context_processors.py:5-10 | the categories come in (`order`, `name`) order, each once |
| Toc.CategoryHeadings | blog/context_processors.py:12-23 | one group per queried category, in query order |
| Toc.CategoryGroups | blog/context_processors.py:12-23 | one group per queried category that has pages, in query order; `CategoryHeadings` and `TocGroupsWellFormed` state it |
| Toc.TocData | blog/context_processors.py:3-40 | the category groups, then the uncategorized group; `TocGroupsWellFormed`, `UncategorizedOnlyLast`, `UncategorizedPresent`, `HeadingsSorted`, `HeadingsDistinct`, `HeadingsPresent`, `ListedPageGrouped` and `GroupedOnce` state what the list holds |
| Toc.TocGroupsWellFormed | blog/context_processors.py:12-36 | every group holds its category's pages, is non-empty, sorted and without repeats |
| Toc.UncategorizedOnlyLast | blog/context_processors.py:25-36 | the uncategorized group can only be last |
| Toc.UncategorizedPresent | blog/context_processors.py:25-36 | the uncategorized group is present exactly when a listed page has no category |
| Toc.HeadingsSorted | blog/context_processors.py:5-10 | category groups appear in page-category order |
| Toc.HeadingsDistinct | blog/context_processors.py:5-10 | no category group appears twice |
| Toc.HeadingsPresent | blog/context_processors.py:8-23 | a category has a group exactly when it has a listed page |
| Toc.ListedPageGrouped | blog/context_processors.py:14-30 | every listed page appears in some group |
| Toc.GroupedOnce | blog/context_processors.py:14-30 | no page appears in two groups |
| Forms.Errors | blog/forms.py:39-56 | the email error is present exactly when the email is blank; the topic error is present exactly when no blog is picked; there is no other error |
| Forms.Ticked | blog/forms.py:9-24 | a box counts as ticked when posted with a value other than empty or `false`; `FalseInAnyCase` and `OnlyDeclaredFields` state it |
| Forms.Clean | blog/forms.py:39-56 | `CleanFailsIff` proves the form is refused exactly when the email is blank or no blog is picked, `CleanKeepsData` that an accepted form keeps the posted values |
| Forms.CleanFailsIff | blog/forms.py:45-56 | the form is refused exactly when the email is blank or no blog is picked |
| Forms.CleanKeepsData | blog/forms.py:40-51 | an accepted form returns the posted values unchanged, with an email and at least one blog |
| Forms.EmailIsRequired | blog/forms.py:53-56 | a missing or blank email is always refused |
| Forms.OnlyDeclaredFields | blog/forms.py:9 | keys outside email, tech, life and spirit make no difference |
| Forms.FalseInAnyCase | blog/forms.py:16-24 | a box posted as `false`, `False` or `FALSE` is not ticked |
| Settings.StripNonEmptyClean | gregdyche/settings.py:26 | every kept entry is stripped and non-empty |
| Settings.ParseHostList | gregdyche/settings.py:26 | the `ALLOWED_HOSTS` cast; `ParseHostListClean`, `ParseHostListJoin` and `ParseHostListBlank` state what it yields |
| Settings.RailwayHostname | gregdyche/settings.py:47-50 | `RailwayHostnameWithin` and `RailwayHostnameOfUrl` state the host it derives from the URL |
| Settings.ExtendHosts | gregdyche/settings.py:29-52 | the extends and the append after the cast; `ConfigureHosts` proves the step-by-step code computes it |
| Settings.AllowedHosts | gregdyche/settings.py:26-52 | `ConfiguredHostsFirst`, `RailwayDomainsPresent`, `CustomDomainPresent` and `RailwayHostOnce` state what the list holds |
| Settings.CsrfOrigins | gregdyche/settings.py:56-65 | `OriginsShape` states the list; `ConfigureOrigins` proves the step-by-step code computes it |
| Settings.ParseHostListClean | gregdyche/settings.py:26 | the parsed host list holds only stripped, non-empty entries |
| Settings.ParseHostListJoin | gregdyche/settings.py:26 | parsing the comma-joined list of clean comma-free entries gives the list back |
| Settings.ParseHostListBlank | gregdyche/settings.py:26 | a value of only commas and white space gives no host |
| Settings.RailwayHostnameWithin | gregdyche/settings.py:47-50 | without `//` the hostname is the whole value; with it, the hostname is the text right after the first `//` |
| Settings.RailwayHostnameOfUrl | gregdyche/settings.py:47-50 | `scheme//host` and a bare host both give the host |
| Settings.EmailBackendFor | gregdyche/settings.py:193-198 | the console backend is chosen exactly when DEBUG is on or the email user is empty |
| Settings.ConfigureHosts | gregdyche/settings.py:29-52 | the step-by-step extension of the host list computes `ExtendHosts` |
| Settings.ConfigureOrigins | gregdyche/settings.py:56-65 | the step-by-step origin list computes `CsrfOrigins` |
| Settings.ConfiguredHostsFirst | gregdyche/settings.py:26-32 | the configured hosts come first, in order |
| Settings.RailwayDomainsPresent | gregdyche/settings.py:29-32 | both Railway domains are always allowed |
| Settings.CustomDomainPresent | gregdyche/settings.py:35-40 | a set custom domain and its `www.` form are allowed |
| Settings.RailwayHostOnce | gregdyche/settings.py:43-52 | the Railway host is derived exactly when DEBUG is off and the URL is set; it is then allowed, and added only if not already present |
| Settings.OriginsShape | gregdyche/settings.py:56-65 | the Railway origin is first; a custom domain adds its `https://` and `https://www.` origins; otherwise there is nothing else |
| PageCommands.Lookup | blog/management/commands/create_homepage.py:9 | the slug lookup fails exactly when several pages share the slug, finds nothing exactly when none has it, and otherwise finds the only one |
| PageCommands.UpsertPage | blog/management/commands/create_homepage.py:9-30 | the store moves as `Upsert` says; on the duplicate-slug error it is unchanged |
| PageCommands.CreateHomepage | blog/management/commands/create_homepage.py:9-36 | the homepage command is the upsert of `homepage` with its defaults |
| PageCommands.CreateServicesPage | blog/management/commands/create_services_page.py:9-33 | the services command is the upsert of `services` with its defaults |
| PageCommands.UpsertPageThere | blog/management/commands/create_homepage.py:9-30 | afterwards exactly one page has the slug, with the given content; it was created exactly when none existed; a created page is the defaults; an existing page only gets new content |
| PageCommands.UpsertTouchesOnePage | blog/management/commands/create_homepage.py:9-30 | no other page is created or modified, and no other table changes |
| PageCommands.UpsertPageCount | blog/management/commands/create_homepage.py:9-30 | the page count grows by one exactly when the page was created |
| PageCommands.UpsertValid | blog/management/commands/create_homepage.py:9-30 | the upsert keeps integrity and saved form |
| PageCommands.UpsertIdempotent | blog/management/commands/create_homepage.py:9-30 | a second run finds the page, creates nothing and changes nothing |
| PageCommands.HomepageHandled | blog/management/commands/create_homepage.py:9-30 | a page `homepage` exists with the content; a new one is titled `Well Scripted Life`, is published, is not in the table of contents, and has order 0 |
| PageCommands.ServicesHandled | blog/management/commands/create_services_page.py:9-28 | a page `services` exists with the content; a new one is titled `Services & Consulting`, is published, is in the table of contents with order 1, and carries the meta description |
| PageCommands.HandleTwice | blog/management/commands/create_homepage.py:9-30 | running either command twice gives the same database as running it once |
| FrontendEditor.Initial | blog/static/blog/js/frontend-editor.js:7-13 | the editor starts outside edit mode with the toolbar shown and the invariant holding |
| FrontendEditor.Editor.constructor | blog/static/blog/js/frontend-editor.js:7-13 | the new editor is in the initial state |
| FrontendEditor.Editor.ToggleEditMode | blog/static/blog/js/frontend-editor.js:117-152 | the editor moves by `Toggle` |
| FrontendEditor.Editor.StartEditing | blog/static/blog/js/frontend-editor.js:154-177 | with the editor valid, it moves by `Start` as written: ending another element's edit, then recording the clicked element's current HTML as the original even when it is already being edited; it stays valid in edit mode |
| FrontendEditor.Editor.OnEditableClick | blog/static/blog/js/frontend-editor.js:107-113 | the editor moves by `Click`, the written start in edit mode and nothing otherwise, and stays valid |
| FrontendEditor.Editor.StopEditing | blog/static/blog/js/frontend-editor.js:179-187 | from a state that is valid apart from the mode flag (as inside `toggleEditMode`), the editor moves by `Stop` and is valid |
| FrontendEditor.Editor.HideToolbar | blog/static/blog/js/frontend-editor.js:251-260 | the editor moves by `Hide` |
| FrontendEditor.Editor.ShowToolbar | blog/static/blog/js/frontend-editor.js:262-265 | the editor moves by `Show` |
| FrontendEditor.Editor.SaveChanges | blog/static/blog/js/frontend-editor.js:267-324 | the editor moves by `Save`, given the server's answer |
| FrontendEditor.Editor.CancelEdit | blog/static/blog/js/frontend-editor.js:326-334 | the editor moves by `Cancel` |
| FrontendEditor.Editor.OnKeyDown | blog/static/blog/js/frontend-editor.js:89-100 | the editor moves by `KeyDown`: Ctrl/Cmd+S saves and Ctrl/Cmd+Escape cancels, only in edit mode |
| FrontendEditor.Stop | blog/static/blog/js/frontend-editor.js:179-187 | ending the edit; `ToggleFlips` and `CancelRestores` state its effect |
| FrontendEditor.Toggle | blog/static/blog/js/frontend-editor.js:117-152 | `ToggleFlips` proves the mode flips, leaving it ends the active edit and entering it changes nothing else |
| FrontendEditor.Start | blog/static/blog/js/frontend-editor.js:154-177 | `ClickStarts` and `ReclickLosesOriginal` state what the written `startEditing` records |
| FrontendEditor.Click | blog/static/blog/js/frontend-editor.js:107-113 | `ClickStarts` proves a click outside edit mode changes nothing and in edit mode starts the edit |
| FrontendEditor.Type | blog/static/blog/js/frontend-editor.js:160-164 | typing changes the element being edited only; `EditKeepsOriginal` states it |
| FrontendEditor.Hide | blog/static/blog/js/frontend-editor.js:251-260 | `ToolbarSwaps` proves hiding does nothing while editing and otherwise swaps the toolbar for the minimized button |
| FrontendEditor.Show | blog/static/blog/js/frontend-editor.js:262-265 | `ToolbarSwaps` proves showing reverses hiding |
| FrontendEditor.Save | blog/static/blog/js/frontend-editor.js:267-324 | `SaveNeedsElement` and `SaveOutcome` state what a save sends and keeps |
| FrontendEditor.Cancel | blog/static/blog/js/frontend-editor.js:326-334 | `CancelRestores` proves cancel restores the original HTML, ends the edit and flips the mode |
| FrontendEditor.KeyDown | blog/static/blog/js/frontend-editor.js:89-100 | Ctrl/Cmd+S saves and Ctrl/Cmd+Escape cancels, only in edit mode; `HandlersKeepInv` proves it keeps the invariant |
| FrontendEditor.Step | blog/static/blog/js/frontend-editor.js:67-334 | one user event dispatched to its handler; `HandlersKeepInv` and `Run` prove every event keeps the invariant |
| FrontendEditor.Run | blog/static/blog/js/frontend-editor.js:7-334 | every sequence of user events, handled as written, keeps the invariant: an element is edited only in edit mode, with its original recorded, and exactly one of toolbar and minimized button is shown |
| FrontendEditor.HandlersKeepInv | blog/static/blog/js/frontend-editor.js:89-334 | every handler, as written, keeps the invariant |
| FrontendEditor.RunIntended | blog/static/blog/js/frontend-editor.js:7-334 | every sequence of user events keeps the invariant under the intended click handler too |
| FrontendEditor.IntendedHandlersKeepInv | blog/static/blog/js/frontend-editor.js:89-334 | every handler keeps the invariant when clicks use the intended start |
| FrontendEditor.ToggleFlips | blog/static/blog/js/frontend-editor.js:117-152 | the mode flips; leaving it ends the active edit; entering it changes nothing else |
| FrontendEditor.ClickStarts | blog/static/blog/js/frontend-editor.js:107-161 | outside edit mode a click changes nothing; in edit mode it makes the clicked element the one being edited and records its current HTML as the original, whether or not it was already being edited; the page HTML, requests and toolbar stay |
| FrontendEditor.IntendedClickKeepsEdit | blog/static/blog/js/frontend-editor.js:107-161 | with the intended start, a click into the element being edited changes nothing, and any other click does what the written handler does |
| FrontendEditor.ToolbarSwaps | blog/static/blog/js/frontend-editor.js:251-265 | hide does nothing while editing and otherwise swaps to the minimized button; show reverses hide |
| FrontendEditor.EndpointShape | blog/static/blog/js/frontend-editor.js:282-288 | there is an endpoint exactly for `title` and `content`, and it is the post or the page URL |
| FrontendEditor.PostPathEndpoint | blog/static/blog/js/frontend-editor.js:282-348 | on a `/post/` path, the endpoint is the post URL with the content id |
| FrontendEditor.SaveNeedsElement | blog/static/blog/js/frontend-editor.js:268-271 | saving with no element being edited sends nothing and changes nothing |
| FrontendEditor.SaveOutcome | blog/static/blog/js/frontend-editor.js:273-323 | a save sends one request; success makes the new HTML the original; failure restores the original |
| FrontendEditor.CancelRestores | blog/static/blog/js/frontend-editor.js:326-334 | cancel restores the original HTML, ends the edit and flips the mode |
| FrontendEditor.EditKeepsOriginal | blog/static/blog/js/frontend-editor.js:154-334 | as written, typing during an edit keeps the edit and its recorded original, sends nothing and changes no other element |
| FrontendEditor.IntendedEditKeepsOriginal | blog/static/blog/js/frontend-editor.js:154-334 | with the intended start, typing and clicks on the element being edited keep the edit and its original, send nothing and change no other element |
| FrontendEditor.CancelDiscardsEdit | blog/static/blog/js/frontend-editor.js:154-334 | as written, clicking an element, typing, then cancelling gives back the page as it was and leaves edit mode |
| FrontendEditor.IntendedCancelDiscardsEdit | blog/static/blog/js/frontend-editor.js:154-334 | with the intended start, any mix of typing and clicks on the element, cancelled, gives back the page as it was and leaves edit mode |
| FrontendEditor.CancelAfterSaveKeeps | blog/static/blog/js/frontend-editor.js:302-334 | cancel after a successful save keeps the saved HTML |
| FrontendEditor.ReclickLosesOriginal | blog/static/blog/js/frontend-editor.js:154-161 | as written, a click into the element being edited records the typed text as the original, so cancel keeps the edit |
| FrontendEditor.ReclickKeepsOriginal | blog/static/blog/js/frontend-editor.js:154-334 | with the intended start, that cancel gives back the page as it was |

## Left out

- Page slug uniqueness (`unique=True` on `slug`) is not enforced by the model. The page commands' `get_or_create(slug=...)` lookup is therefore modelled with its `MultipleObjectsReturned` outcome as an error result. Slug collisions between new posts or pages (an integrity error in the database) are not modelled either. Category and tag name uniqueness is kept as an invariant of valid databases.
- `modified_date` (`auto_now`) is not stored, so "only `content` changes" is stated over the fields that are modelled.
- A whole command run uses one `now` value, not one clock reading per save.
- The XML parse, `dateutil` date parsing, `slugify` and `timezone.now` are library code. They become pre-parsed records, opaque times, an uninterpreted function and a parameter. The `int(post_id)` failure that aborts an import is not modelled.
- `download_file`: HTTP and file-system work.
- FixWordpressLinks.OneLinkFixedOnce: idempotence of the link fix is proved only for content with one upload link and no other `http`. In general the fix is not idempotent, because a rewritten path can itself contain a second absolute upload URL that the next run rewrites.
- FixWordpressLinks.FixLinks: posts are visited in their default ordering, but pages in key order rather than by (category order, `toc_order`, title). Each page is rewritten on its own, so the final database is the same.
- The subscriber fan-out behind `send_post_notifications` and the email rendering and sending are not part of this model. A dispatch is a recorded post id, and its outcome (delivered with counts and errors, or raised) is a parameter.
- The console output and log messages of every command are left out, except the log lines of the signal receiver, which are its only effect.
- Forms: email-format validation is left out. A checkbox follows Django's `CheckboxInput` reading of a posted string: ticked when posted with a value other than empty or `false` in any letter case.
- Settings: `decouple` casting and `dj_database_url` are library code.
- Settings.ConfigureHosts takes the already parsed `ALLOWED_HOSTS` list as its input.
- Toc: the relative order of two page categories with equal `order` and `name` depends on the database, so the sort is proved up to such ties.
- The HTML bodies of `create_homepage` and `create_services_page` are a parameter `content`. Their console output is left out.
- The front-end editor's DOM work is left out: toolbar construction, `fetch`, toasts, `setTimeout`, `execCommand` formatting, toolbar positioning, status text and button labels.
- The non-staff path of `init` is left out; the editor is modelled as created for a staff user.
- ImportWordpress.ReadItem: the import runs the intended reading, where a content or excerpt element without text gives an empty string. The written command aborts there (see Findings and `NewRowAsWritten`); the partly imported database such an aborted run leaves behind is not modelled. An empty `pubDate` or comment date, which aborts the written command too, cannot be expressed, since dates arrive as parsed times.
- FixWordpressLinks.OneLinkRewritten: proved only for content in which the link's own `http` is the only `http`; content with other URLs besides the link is covered by `FixLinks`'s contract but not by this lemma.
- WordPress ids are assumed unique per table (`UniqueWpIds` in `Database.ValidDb`). The schema does not enforce this. With two rows of the same `wp_post_id`, `wp_page_id` or `wp_comment_id`, `get_or_create` raises `MultipleObjectsReturned`, which the importer does not model.
- Category and tag slugs are assumed not to collide. Two different names that `slugify` maps to the same slug make the second insert fail on the unique slug column with an `IntegrityError`; that abort is not modelled.
- NULL dates sort before every date, as on SQLite. Under PostgreSQL, which the database URL setting allows, NULL sorts last ascending and first descending, so the post ordering can differ for undated drafts there.
- FrontendEditor.Step: the event model is wider than the page allows. It accepts mode-button and cancel-button clicks in every state, although `toggleEditMode` hides the mode button in edit mode and the save and cancel buttons outside it (frontend-editor.js:125-139). The invariant is proved over these extra runs as well.
- FrontendEditor.Editor.SaveChanges: the save is atomic. The await between sending and the reply, during which other events could interleave, is not modelled.

## Findings

| source | as written | input that shows it | evidently intended | confidence | as-written member | corrected member |
|---|---|---|---|---|---|---|
| blog/static/blog/js/frontend-editor.js:154-161 | `startEditing` records the element's current HTML as `originalContent` even when the click lands in the element already being edited | in edit mode, click element e, type text, click inside e again, press Cancel: e keeps the typed text | Cancel restores the HTML the element had before editing began | not executed | FrontendEditor.ReclickLosesOriginal | FrontendEditor.ReclickKeepsOriginal |
| blog/management/commands/import_wordpress.py:78-124 | a `content:encoded` or `excerpt:encoded` element without text is read as `None`, which is then inserted into a NOT NULL column, so the insert fails and the import stops | a new post whose excerpt is `<excerpt:encoded><![CDATA[]]></excerpt:encoded>`, as WordPress exports a post with no excerpt | such an element reads as the empty string, as an absent one does | not executed | ImportWordpress.EmptyExcerptRefused | ImportWordpress.ReadItem |
