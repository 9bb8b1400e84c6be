/**
 * The inline editor staff users get on post and page views
 * (`FrontendEditor`). Its state is the edit-mode flag, the element being
 * edited with the HTML it had when editing began, and which of the toolbar
 * and its minimized button is shown. The page's elements are reduced to their
 * HTML, the page's path and content id are fixed inputs, and a save's request
 * is recorded instead of sent; the server's reply is a parameter.
 *
 * `EditorState` and the functions over it say what each handler does; the class
 * `Editor` holds the same fields and its methods are proved to follow them.
 * `Start`, `Click`, `Step` and `Run` are the program as written; the
 * `...Intended` ones keep an edit going when its own element is clicked
 * again, which the written `startEditing` does not (it takes the edited HTML
 * as the new original).
 */
module FrontendEditor {
  import opened Wrappers
  import Text

  /** An element marked `data-editable`. */
  type ElementId = nat

  /** The page the editor runs on: its URL path, the body's `data-content-id`, and each element's `data-editable` value. */
  datatype PageInfo = PageInfo(path: string, bodyContentId: Option<string>, editable: ElementId -> string)

  /** A save request: the endpoint and the JSON body `{field: content}`. */
  datatype Request = Request(endpoint: string, field: string, content: string)

  datatype EditorState = EditorState(
    isEditing: bool,
    currentElement: Option<ElementId>,
    originalContent: Option<string>,
    toolbarShown: bool,
    minimizedShown: bool,
    html: map<ElementId, string>,
    sent: seq<Request>)

  /**
   * What every handler keeps: an element is being edited exactly when its
   * original HTML is held, only in edit mode, and it is one of the page's
   * elements; exactly one of the toolbar and the minimized button is shown.
   */
  predicate Inv(s: EditorState) {
    (s.currentElement.None? <==> s.originalContent.None?)
    && (!s.isEditing ==> s.currentElement.None?)
    && (s.currentElement.Some? ==> s.currentElement.value in s.html)
    && s.toolbarShown != s.minimizedShown
  }

  // ----- Pure parts -----

  /** `isPost`: the path contains `/post/`. */
  predicate IsPost(path: string) {
    Text.Contains(path, "/post/")
  }

  /** The pattern `/(post|page)/([^/]+)/` matches at `i`. */
  predicate SegmentAt(path: string, i: nat) {
    i + 6 <= |path|
    && (path[i..i + 6] == "/post/" || path[i..i + 6] == "/page/")
    && i + 6 < |path| && path[i + 6] != '/' && '/' in path[i + 7..]
  }

  /** The path names a post or a page. */
  predicate NamesContent(path: string) {
    exists i :: 0 <= i < |path| && SegmentAt(path, i)
  }

  /** `getContentId`: the body's content id on a post or page path; an empty id counts as none. */
  function ContentId(page: PageInfo): Option<string> {
    if NamesContent(page.path) && page.bodyContentId.Some? && page.bodyContentId.value != "" then
      page.bodyContentId
    else
      None
  }

  /** A content id as a template literal prints it. */
  function IdText(id: Option<string>): string {
    match id
    case Some(v) => v
    case None => "null"
  }

  /** The endpoint a save posts to: only titles and contents have one, on the post or the page URL. */
  function Endpoint(kind: string, page: PageInfo): Option<string> {
    if kind == "title" || kind == "content" then
      Some((if IsPost(page.path) then "/blog/edit/post/" else "/blog/edit/page/") + IdText(ContentId(page)) + "/")
    else
      None
  }

  // ----- Transitions -----

  /** The state right after `init` on a staff page: not editing, the toolbar shown. */
  function Initial(html: map<ElementId, string>): (s: EditorState)
    ensures Inv(s)
  {
    EditorState(false, None, None, true, false, html, [])
  }

  /** `stopEditing`. */
  function Stop(s: EditorState): EditorState {
    if s.currentElement.None? then s else s.(currentElement := None, originalContent := None)
  }

  /** `toggleEditMode`: flip the mode; leaving it ends the current edit. */
  function Toggle(s: EditorState): EditorState {
    var t := s.(isEditing := !s.isEditing);
    if !t.isEditing && t.currentElement.Some? then Stop(t) else t
  }

  /**
   * `startEditing`: any other element's edit is stopped, and the element's
   * current HTML becomes the original, even when the element is the one
   * already being edited.
   */
  function Start(s: EditorState, e: ElementId): EditorState
    requires e in s.html
  {
    var t := if s.currentElement.Some? && s.currentElement.value != e then Stop(s) else s;
    t.(currentElement := Some(e), originalContent := Some(s.html[e]))
  }

  /** The click handler of an editable element: it starts editing only in edit mode. */
  function Click(s: EditorState, e: ElementId): EditorState
    requires e in s.html
  {
    if s.isEditing then Start(s, e) else s
  }

  /** `startEditing` as intended: a click inside the element being edited leaves the edit as it is. */
  function StartIntended(s: EditorState, e: ElementId): EditorState
    requires e in s.html
  {
    if s.currentElement == Some(e) then s else Start(s, e)
  }

  /** The click handler with the intended `startEditing`. */
  function ClickIntended(s: EditorState, e: ElementId): EditorState
    requires e in s.html
  {
    if s.isEditing then StartIntended(s, e) else s
  }

  /** The user types into the element being edited, which is the only content-editable one. */
  function Type(s: EditorState, text: string): EditorState {
    if s.currentElement.Some? then s.(html := s.html[s.currentElement.value := text]) else s
  }

  /** `hideToolbar`: refused while in edit mode. */
  function Hide(s: EditorState): EditorState {
    if s.isEditing then s else s.(toolbarShown := false, minimizedShown := true)
  }

  /** `showToolbar`. */
  function Show(s: EditorState): EditorState {
    s.(toolbarShown := true, minimizedShown := false)
  }

  /** The error path of `saveChanges`: the element gets its original HTML back (`null` sets it empty). */
  function Revert(s: EditorState): EditorState {
    if s.currentElement.Some? then s.(html := s.html[s.currentElement.value := s.originalContent.GetOr("")]) else s
  }

  /**
   * `saveChanges` with the server's verdict `success`: nothing without an
   * element; without an endpoint the error path; otherwise the request is
   * sent, and the reply either makes the saved HTML the new original or
   * reverts the element.
   */
  function Save(s: EditorState, page: PageInfo, success: bool): EditorState
    requires s.currentElement.Some? ==> s.currentElement.value in s.html
  {
    if s.currentElement.None? then s
    else
      var e := s.currentElement.value;
      var kind := page.editable(e);
      match Endpoint(kind, page)
      case None => Revert(s)
      case Some(url) =>
        var t := s.(sent := s.sent + [Request(url, kind, s.html[e])]);
        if success then t.(originalContent := Some(s.html[e])) else Revert(t)
  }

  /** `cancelEdit`: put the original HTML back, stop editing and toggle the mode. */
  function Cancel(s: EditorState): EditorState {
    var t := if s.currentElement.Some? && s.originalContent.Some?
      then s.(html := s.html[s.currentElement.value := s.originalContent.value])
      else s;
    Toggle(Stop(t))
  }

  /** The key handler: Ctrl or Cmd with `s` saves and with `Escape` cancels, both only in edit mode. */
  function KeyDown(s: EditorState, page: PageInfo, ctrlOrMeta: bool, key: string, success: bool): EditorState
    requires s.currentElement.Some? ==> s.currentElement.value in s.html
  {
    if ctrlOrMeta && key == "s" && s.isEditing then Save(s, page, success)
    else if ctrlOrMeta && key == "Escape" && s.isEditing then Cancel(s)
    else s
  }

  // ----- The editor object -----

  class Editor {
    var isEditing: bool
    var currentElement: Option<ElementId>
    var originalContent: Option<string>
    var toolbarShown: bool
    var minimizedShown: bool
    /** The HTML of each editable element, as the page holds it. */
    var html: map<ElementId, string>
    /** The save requests sent so far. */
    var sent: seq<Request>
    const page: PageInfo

    function Snapshot(): EditorState
      reads this
    {
      EditorState(isEditing, currentElement, originalContent, toolbarShown, minimizedShown, html, sent)
    }

    predicate Valid()
      reads this
    {
      Inv(Snapshot())
    }

    constructor (page: PageInfo, html: map<ElementId, string>)
      ensures Snapshot() == Initial(html) && this.page == page
      ensures Valid()
    {
      isEditing := false;
      currentElement := None;
      originalContent := None;
      toolbarShown := true;
      minimizedShown := false;
      this.html := html;
      sent := [];
      this.page := page;
    }

    /** The invariant, except that an edit may be open outside edit mode. */
    predicate ValidUpToMode()
      reads this
    {
      Inv(Snapshot().(isEditing := true))
    }

    /**
     * Also called part-way through `toggleEditMode`, after the mode has
     * flipped, so it only demands `ValidUpToMode()`; it leaves `Valid()`.
     */
    method StopEditing()
      requires ValidUpToMode()
      modifies this
      ensures Snapshot() == Stop(old(Snapshot()))
      ensures Valid()
    {
      if currentElement.None? {
        return;
      }
      currentElement := None;
      originalContent := None;
    }

    method ToggleEditMode()
      requires Valid()
      modifies this
      ensures Snapshot() == Toggle(old(Snapshot()))
      ensures Valid()
    {
      isEditing := !isEditing;
      if !isEditing && currentElement.Some? {
        StopEditing();
      }
    }

    /** Only the click handler calls it, and only in edit mode, where it keeps `Valid()`. */
    method StartEditing(e: ElementId)
      requires Valid() && e in html
      modifies this
      ensures Snapshot() == Start(old(Snapshot()), e)
      ensures isEditing ==> Valid()
    {
      if currentElement.Some? && currentElement.value != e {
        StopEditing();
      }
      currentElement := Some(e);
      originalContent := Some(html[e]);
    }

    method OnEditableClick(e: ElementId)
      requires Valid() && e in html
      modifies this
      ensures Snapshot() == Click(old(Snapshot()), e)
      ensures Valid()
    {
      if isEditing {
        StartEditing(e);
      }
    }

    /** The browser's edit of the content-editable element. */
    method TypeText(text: string)
      requires Valid()
      modifies this
      ensures Snapshot() == Type(old(Snapshot()), text)
      ensures Valid()
    {
      if currentElement.Some? {
        html := html[currentElement.value := text];
      }
    }

    method HideToolbar()
      requires Valid()
      modifies this
      ensures Snapshot() == Hide(old(Snapshot()))
      ensures Valid()
    {
      if isEditing {
        return;
      }
      toolbarShown := false;
      minimizedShown := true;
    }

    method ShowToolbar()
      requires Valid()
      modifies this
      ensures Snapshot() == Show(old(Snapshot()))
      ensures Valid()
    {
      toolbarShown := true;
      minimizedShown := false;
    }

    method SaveChanges(success: bool)
      requires Valid()
      modifies this
      ensures Snapshot() == Save(old(Snapshot()), page, success)
      ensures Valid()
    {
      if currentElement.None? {
        return;
      }
      var e := currentElement.value;
      var kind := page.editable(e);
      var newContent := html[e];
      var endpoint := Endpoint(kind, page);
      if endpoint.Some? {
        sent := sent + [Request(endpoint.value, kind, newContent)];
        if success {
          originalContent := Some(newContent);
          return;
        }
      }
      html := html[e := originalContent.GetOr("")];
    }

    method CancelEdit()
      requires Valid()
      modifies this
      ensures Snapshot() == Cancel(old(Snapshot()))
      ensures Valid()
    {
      if currentElement.Some? && originalContent.Some? {
        html := html[currentElement.value := originalContent.value];
      }
      StopEditing();
      ToggleEditMode();
    }

    method OnKeyDown(ctrlOrMeta: bool, key: string, success: bool)
      requires Valid()
      modifies this
      ensures Snapshot() == KeyDown(old(Snapshot()), page, ctrlOrMeta, key, success)
      ensures Valid()
    {
      if ctrlOrMeta && key == "s" && isEditing {
        SaveChanges(success);
      } else if ctrlOrMeta && key == "Escape" && isEditing {
        CancelEdit();
      }
    }
  }

  // ----- Sessions -----

  /** What a user can do on the page, each event running one handler. */
  datatype Event =
    | ModeButton
    | ElementClicked(e: ElementId)
    | Typed(text: string)
    | MinimizeButton
    | ShowButton
    | SaveButton(success: bool)
    | CancelButton
    | KeyPressed(ctrlOrMeta: bool, key: string, success: bool)

  /** One event; a click on something that is not an editable element has no listener. */
  function Step(s: EditorState, page: PageInfo, ev: Event): EditorState
    requires Inv(s)
  {
    match ev
    case ModeButton => Toggle(s)
    case ElementClicked(e) => if e in s.html then Click(s, e) else s
    case Typed(text) => Type(s, text)
    case MinimizeButton => Hide(s)
    case ShowButton => Show(s)
    case SaveButton(success) => Save(s, page, success)
    case CancelButton => Cancel(s)
    case KeyPressed(ctrlOrMeta, key, success) => KeyDown(s, page, ctrlOrMeta, key, success)
  }

  /** A run of events from `s`; the invariant holds after each of them. */
  function Run(s: EditorState, page: PageInfo, events: seq<Event>): (r: EditorState)
    requires Inv(s)
    ensures Inv(r)
    decreases |events|
  {
    if events == [] then s
    else
      HandlersKeepInv(s, page, events[0]);
      Run(Step(s, page, events[0]), page, events[1..])
  }

  /** One event, with the intended click handler. */
  function StepIntended(s: EditorState, page: PageInfo, ev: Event): EditorState
    requires Inv(s)
  {
    match ev
    case ElementClicked(e) => if e in s.html then ClickIntended(s, e) else s
    case _ => Step(s, page, ev)
  }

  /** A run of events with the intended click handler; the invariant holds here too. */
  function RunIntended(s: EditorState, page: PageInfo, events: seq<Event>): (r: EditorState)
    requires Inv(s)
    ensures Inv(r)
    decreases |events|
  {
    if events == [] then s
    else
      IntendedHandlersKeepInv(s, page, events[0]);
      RunIntended(StepIntended(s, page, events[0]), page, events[1..])
  }

  /** Events that only type into the element being edited. */
  predicate TypingOnly(events: seq<Event>) {
    forall i :: 0 <= i < |events| ==> events[i].Typed?
  }

  /** Events that only work inside element `e`: typing and clicks on `e`. */
  predicate EditsOf(events: seq<Event>, e: ElementId) {
    forall i :: 0 <= i < |events| ==> events[i].Typed? || events[i] == ElementClicked(e)
  }

  // ----- Properties -----

  /** Every handler keeps the invariant. */
  lemma HandlersKeepInv(s: EditorState, page: PageInfo, ev: Event)
    requires Inv(s)
    ensures Inv(Step(s, page, ev))
  {
  }

  /** Every handler keeps the invariant with the intended click handler too. */
  lemma IntendedHandlersKeepInv(s: EditorState, page: PageInfo, ev: Event)
    requires Inv(s)
    ensures Inv(StepIntended(s, page, ev))
  {
  }

  /** `toggleEditMode` flips the mode, and leaving edit mode ends the edit; the page and the toolbar stay as they are. */
  lemma ToggleFlips(s: EditorState)
    requires Inv(s)
    ensures Toggle(s).isEditing == !s.isEditing
    ensures !Toggle(s).isEditing ==> Toggle(s).currentElement.None? && Toggle(s).originalContent.None?
    ensures Toggle(s).isEditing ==> Toggle(s) == s.(isEditing := true)
    ensures Toggle(s).html == s.html && Toggle(s).sent == s.sent
    ensures Toggle(s).toolbarShown == s.toolbarShown && Toggle(s).minimizedShown == s.minimizedShown
  {
  }

  /**
   * A click starts an edit only in edit mode. In edit mode the clicked
   * element becomes the one being edited, with its HTML of the moment as the
   * original, whether or not it was being edited already.
   */
  lemma ClickStarts(s: EditorState, e: ElementId)
    requires Inv(s) && e in s.html
    ensures !s.isEditing ==> Click(s, e) == s
    ensures s.isEditing ==> Click(s, e).currentElement == Some(e) && Click(s, e).isEditing
    ensures s.isEditing ==> Click(s, e).originalContent == Some(s.html[e])
    ensures Click(s, e).html == s.html && Click(s, e).sent == s.sent
    ensures Click(s, e).toolbarShown == s.toolbarShown && Click(s, e).minimizedShown == s.minimizedShown
  {
  }

  /** The intended click handler differs only on a click inside the element being edited, which it ignores. */
  lemma IntendedClickKeepsEdit(s: EditorState, e: ElementId)
    requires Inv(s) && e in s.html
    ensures s.currentElement == Some(e) ==> ClickIntended(s, e) == s
    ensures s.currentElement != Some(e) ==> ClickIntended(s, e) == Click(s, e)
  {
  }

  /** The toolbar cannot be hidden in edit mode; otherwise hiding swaps it for the minimized button and showing swaps them back. */
  lemma ToolbarSwaps(s: EditorState)
    requires Inv(s)
    ensures s.isEditing ==> Hide(s) == s
    ensures !s.isEditing ==> !Hide(s).toolbarShown && Hide(s).minimizedShown
    ensures Show(s).toolbarShown && !Show(s).minimizedShown
    ensures s.toolbarShown ==> Show(Hide(s)) == s
  {
  }

  /** The endpoint exists only for titles and contents, and it is the post URL exactly on a post's path. */
  lemma EndpointShape(kind: string, page: PageInfo)
    ensures Endpoint(kind, page).Some? <==> kind == "title" || kind == "content"
    ensures Endpoint(kind, page).Some? ==>
      ("/blog/edit/post/" <= Endpoint(kind, page).value <==> IsPost(page.path))
      && ("/blog/edit/page/" <= Endpoint(kind, page).value <==> !IsPost(page.path))
  {
    if Endpoint(kind, page).Some? {
      var url := Endpoint(kind, page).value;
      assert url[12] == (if IsPost(page.path) then 'o' else 'a');
    }
  }

  /** On the path of a post, the body's content id is the id the save uses, and the endpoint is the post's. */
  lemma PostPathEndpoint(a: string, slug: string, b: string, id: string, editable: ElementId -> string)
    requires slug != [] && '/' !in slug && id != ""
    ensures var page := PageInfo(a + "/post/" + slug + "/" + b, Some(id), editable);
      ContentId(page) == Some(id)
      && Endpoint("content", page) == Some("/blog/edit/post/" + id + "/")
      && Endpoint("title", page) == Some("/blog/edit/post/" + id + "/")
  {
    var path := a + "/post/" + slug + "/" + b;
    var i := |a|;
    assert path[i..] == "/post/" + slug + "/" + b;
    assert path[i..i + 6] == "/post/";
    assert path[i + 6] == slug[0];
    assert path[i + 7 + |slug| - 1] == '/';
    assert SegmentAt(path, i);
    assert "/post/" <= path[i..];
  }

  /** `saveChanges` without an element being edited does nothing and sends nothing. */
  lemma SaveNeedsElement(s: EditorState, page: PageInfo, success: bool)
    requires Inv(s) && s.currentElement.None?
    ensures Save(s, page, success) == s
  {
  }

  /**
   * A save sends one request, for the element's field and HTML, exactly when
   * the element has an endpoint. Success makes the sent HTML the original;
   * failure, and an element without endpoint, put the original back.
   */
  lemma SaveOutcome(s: EditorState, page: PageInfo, success: bool)
    requires Inv(s) && s.currentElement.Some?
    ensures var e := s.currentElement.value; var r := Save(s, page, success);
      var url := Endpoint(page.editable(e), page);
      (url.Some? ==> r.sent == s.sent + [Request(url.value, page.editable(e), s.html[e])])
      && (url.None? ==> r.sent == s.sent)
      && (url.Some? && success ==> r.originalContent == Some(s.html[e]) && r.html == s.html)
      && (url.None? || !success ==> r.html == s.html[e := s.originalContent.value] && r.originalContent == s.originalContent)
      && r.currentElement == s.currentElement && r.isEditing == s.isEditing
  {
  }

  /** `cancelEdit` puts the original HTML back, ends the edit and toggles the mode. */
  lemma CancelRestores(s: EditorState)
    requires Inv(s)
    ensures Cancel(s).isEditing == !s.isEditing
    ensures Cancel(s).currentElement.None? && Cancel(s).originalContent.None?
    ensures s.currentElement.Some? ==> Cancel(s).html == s.html[s.currentElement.value := s.originalContent.value]
    ensures s.currentElement.None? ==> Cancel(s).html == s.html
  {
  }

  /** During an edit of `e`, typing keeps the edit and its original, and touches no other element. */
  lemma {:induction false} EditKeepsOriginal(s: EditorState, page: PageInfo, events: seq<Event>, e: ElementId)
    requires Inv(s) && s.isEditing && s.currentElement == Some(e) && TypingOnly(events)
    ensures var r := Run(s, page, events);
      r.isEditing && r.currentElement == Some(e) && r.originalContent == s.originalContent
      && r.html == s.html[e := r.html[e]] && r.sent == s.sent
    decreases |events|
  {
    if events != [] {
      var t := Step(s, page, events[0]);
      assert t.isEditing && t.currentElement == Some(e) && t.originalContent == s.originalContent;
      assert t.html == s.html[e := t.html[e]];
      assert TypingOnly(events[1..]) by {
        forall i | 0 <= i < |events[1..]|
          ensures events[1..][i].Typed?
        {
          assert events[1..][i] == events[i + 1];
        }
      }
      EditKeepsOriginal(t, page, events[1..], e);
    }
  }

  /**
   * With the intended click handler, typing and clicks on `e` keep the edit
   * of `e` and its original, and touch no other element.
   */
  lemma {:induction false} IntendedEditKeepsOriginal(s: EditorState, page: PageInfo, events: seq<Event>, e: ElementId)
    requires Inv(s) && s.isEditing && s.currentElement == Some(e) && EditsOf(events, e)
    ensures var r := RunIntended(s, page, events);
      r.isEditing && r.currentElement == Some(e) && r.originalContent == s.originalContent
      && r.html == s.html[e := r.html[e]] && r.sent == s.sent
    decreases |events|
  {
    if events != [] {
      var t := StepIntended(s, page, events[0]);
      assert t.isEditing && t.currentElement == Some(e) && t.originalContent == s.originalContent;
      assert t.html == s.html[e := t.html[e]];
      assert EditsOf(events[1..], e) by {
        forall i | 0 <= i < |events[1..]|
          ensures events[1..][i].Typed? || events[1..][i] == ElementClicked(e)
        {
          assert events[1..][i] == events[i + 1];
        }
      }
      IntendedEditKeepsOriginal(t, page, events[1..], e);
    }
  }

  /**
   * Clicking an element in edit mode, typing into it for any number of
   * steps and cancelling gives back the page exactly as it was before the click.
   */
  lemma CancelDiscardsEdit(s: EditorState, page: PageInfo, e: ElementId, events: seq<Event>)
    requires Inv(s) && s.isEditing && s.currentElement.None? && e in s.html && TypingOnly(events)
    ensures Cancel(Run(Click(s, e), page, events)).html == s.html
    ensures !Cancel(Run(Click(s, e), page, events)).isEditing
  {
    var t := Click(s, e);
    EditKeepsOriginal(t, page, events, e);
    var r := Run(t, page, events);
    CancelRestores(r);
    assert s.html[e := s.html[e]] == s.html;
  }

  /** With the intended click handler, the same holds when the edit also clicks inside the element. */
  lemma IntendedCancelDiscardsEdit(s: EditorState, page: PageInfo, e: ElementId, events: seq<Event>)
    requires Inv(s) && s.isEditing && s.currentElement.None? && e in s.html && EditsOf(events, e)
    ensures Cancel(RunIntended(ClickIntended(s, e), page, events)).html == s.html
    ensures !Cancel(RunIntended(ClickIntended(s, e), page, events)).isEditing
  {
    var t := ClickIntended(s, e);
    IntendedEditKeepsOriginal(t, page, events, e);
    var r := RunIntended(t, page, events);
    CancelRestores(r);
    assert s.html[e := s.html[e]] == s.html;
  }

  /** After a successful save, cancelling keeps the saved HTML. */
  lemma CancelAfterSaveKeeps(s: EditorState, page: PageInfo)
    requires Inv(s) && s.currentElement.Some?
    requires Endpoint(page.editable(s.currentElement.value), page).Some?
    ensures Cancel(Save(s, page, true)).html == s.html
  {
    var e := s.currentElement.value;
    SaveOutcome(s, page, true);
    assert s.html[e := s.html[e]] == s.html;
  }

  /**
   * As written, a click inside the element being edited (to place the cursor,
   * say) takes its edited HTML as the original, so a later cancel keeps the
   * edit instead of discarding it.
   */
  lemma ReclickLosesOriginal(s: EditorState, page: PageInfo, e: ElementId, text: string)
    requires Inv(s) && s.isEditing && s.currentElement.None? && e in s.html && text != s.html[e]
    ensures var r := Cancel(Run(s, page, [ElementClicked(e), Typed(text), ElementClicked(e)]));
      e in r.html && r.html[e] == text && r.html != s.html
  {
    var events := [ElementClicked(e), Typed(text), ElementClicked(e)];
    var t := Click(s, e);
    var u := Type(t, text);
    var v := Click(u, e);
    assert Run(s, page, events) == Run(t, page, events[1..]);
    assert Run(t, page, events[1..]) == Run(u, page, events[2..]) by {
      assert events[1..][1..] == events[2..];
    }
    assert Run(u, page, events[2..]) == v by {
      assert events[2..][1..] == [];
    }
    assert v.html[e] == text && v.originalContent == Some(text);
  }

  /** With the intended `startEditing`, the same clicks and typing are discarded by cancel. */
  lemma ReclickKeepsOriginal(s: EditorState, page: PageInfo, e: ElementId, text: string)
    requires Inv(s) && s.isEditing && s.currentElement.None? && e in s.html
    ensures Cancel(RunIntended(s, page, [ElementClicked(e), Typed(text), ElementClicked(e)])).html == s.html
  {
    var events := [ElementClicked(e), Typed(text), ElementClicked(e)];
    assert EditsOf(events[1..], e);
    IntendedCancelDiscardsEdit(s, page, e, events[1..]);
    assert RunIntended(s, page, events) == RunIntended(ClickIntended(s, e), page, events[1..]);
  }
}
