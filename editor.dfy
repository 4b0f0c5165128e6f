/** The `CodeEditor` component's state and the handlers that replace it.
    Each React state variable the core reads is a field; each handler is a
    method whose postcondition gives the whole new state in terms of the old
    one. Browser dialogs become boolean arguments, the clock becomes a
    number argument, and the textarea's caret an optional argument. */
module Editor {
  import opened JsStrings
  import opened Wrappers
  import opened Words
  import opened Autocomplete
  import opened Geometry
  import opened Dispatch
  import opened Tabs

  /** What `handleSaveFile` hands to the browser's download. */
  datatype Download = Download(fileName: string, content: string)

  /** The active tab after accepting `value` with the caret at `cursor`: the
      same document, now unsaved, whose text keeps what preceded the word,
      holds `value` just before the new caret and keeps what followed the
      old caret just after it. */
  function Accepted(t: Tab, cursor: nat, value: string): (r: Tab)
    ensures r.id == t.id && r.name == t.name && r.path == t.path && !r.saved
    ensures cursor <= |t.content| ==>
      var s, c := WordStart(t.content, cursor), AppliedCaret(t.content, cursor, value);
      s <= c <= |r.content| &&
      r.content[..s] == t.content[..s] && r.content[s..c] == value && r.content[c..] == t.content[cursor..]
    ensures cursor > |t.content| ==> r.content == t.content + value
  {
    if cursor <= |t.content| then
      AppliedShape(t.content, cursor, value);
      t.(content := Applied(t.content, cursor, value), saved := false)
    else
      t.(content := Applied(t.content, cursor, value), saved := false)
  }

  /** The text work of `applySuggestion`: scan left from the caret for the
      word's start, splice the value in with two `substring` calls, and put
      the caret after the value. */
  method AcceptAt(text: string, cursor: nat, value: string) returns (newContent: string, caret: nat)
    ensures newContent == Applied(text, cursor, value)
    ensures caret == AppliedCaret(text, cursor, value)
  {
    var start := ScanWordStart(text, cursor);
    newContent := Substring(text, 0, start) + value + Substring(text, cursor, |text|);
    caret := start + |value|;
  }

  class CodeEditor {
    /** `LUAU_SUGGESTIONS`, fixed when the editor is created. */
    const catalog: seq<Suggestion>
    var tabs: seq<Tab>
    var activeTabId: string
    /** `showSuggestions`, `filteredSuggestions` and `selectedSuggestionIndex`. */
    var popup: Popup
    var currentWord: string
    var cursorPosition: nat
    /** `suggestionPosition.top`. */
    var anchorTop: nat
    var isExecuting: bool
    var isInjecting: bool
    var executionError: Option<string>
    var executionResponse: Option<string>

    function State(): Session
      reads this`tabs, this`activeTabId
    {
      Session(tabs, activeTabId)
    }

    ghost predicate Valid()
      reads this`tabs, this`activeTabId, this`popup
    {
      WellFormed(State()) && popup.Valid()
    }

    /** `activeTab`. */
    function ActiveTab(): (t: Tab)
      reads this`tabs, this`activeTabId
      requires |tabs| > 0
      ensures t in tabs
      ensures activeTabId in Ids(tabs) ==> t.id == activeTabId
    {
      Active(State())
    }

    constructor ()
      ensures Valid()
      ensures catalog == Catalog
      ensures tabs == [DefaultTab] && activeTabId == InitialId
      ensures popup == Hidden && currentWord == "" && cursorPosition == 0 && anchorTop == 0
      ensures !isExecuting && !isInjecting && executionError == None && executionResponse == None
    {
      catalog := Catalog;
      tabs := [DefaultTab];
      activeTabId := InitialId;
      popup := Hidden;
      currentWord := "";
      cursorPosition := 0;
      anchorTop := 0;
      isExecuting := false;
      isInjecting := false;
      executionError := None;
      executionResponse := None;
    }

    /** `createNewTab`, at clock reading `now`. */
    method CreateNewTab(now: nat)
      requires Valid() && TabId(now) !in Ids(tabs)
      modifies this`tabs, this`activeTabId
      ensures Valid()
      ensures tabs == old(tabs) + [NewTab(now, |old(tabs)|)]
      ensures activeTabId == TabId(now) && ActiveTab() == NewTab(now, |old(tabs)|)
    {
      var tab := NewTab(now, |tabs|);
      AppendActive(State(), tab);
      tabs := tabs + [tab];
      activeTabId := tab.id;
    }

    /** A click on a tab of the tab bar. */
    method SelectTab(id: string)
      requires Valid() && id in Ids(tabs)
      modifies this`activeTabId
      ensures Valid()
      ensures activeTabId == id && ActiveTab().id == id
    {
      activeTabId := id;
    }

    /** `closeTab(id)`; `confirmed` is the answer to the discard question,
        asked only when the tab is unsaved. */
    method CloseTab(id: string, confirmed: bool)
      requires Valid()
      modifies this`tabs, this`activeTabId
      ensures Valid()
      ensures State() == Close(old(State()), id, confirmed)
    {
      var tab := Find(tabs, id);
      if tab.Some? && !tab.value.saved && !confirmed {
        return;
      }
      if |tabs| == 1 {
        tabs := [DefaultTab];
        activeTabId := InitialId;
        return;
      }
      var newTabs := Without(tabs, id);
      WithoutShape(tabs, id);
      var wasActive := id == activeTabId;
      tabs := newTabs;
      if wasActive {
        activeTabId := newTabs[|newTabs| - 1].id;
      }
    }

    /** `handleDeleteTab`: asks first, then closes the active tab (which may
        ask again about unsaved changes). */
    method DeleteActiveTab(confirmDelete: bool, confirmDiscard: bool)
      requires Valid()
      modifies this`tabs, this`activeTabId
      ensures Valid()
      ensures State() == if confirmDelete then Close(old(State()), old(activeTabId), confirmDiscard) else old(State())
    {
      if !confirmDelete {
        return;
      }
      CloseTab(activeTabId, confirmDiscard);
    }

    /** `handleFileSelect` for a picked file called `fileName`; `read` is its
        text, or `None` when reading it failed (an alert, and no change). */
    method OpenFile(fileName: string, read: Option<string>, now: nat)
      requires Valid() && TabId(now) !in Ids(tabs)
      modifies this`tabs, this`activeTabId
      ensures Valid()
      ensures read.None? ==> State() == old(State())
      ensures read.Some? ==>
        tabs == old(tabs) + [OpenedTab(now, fileName, read.value)] &&
        activeTabId == TabId(now) && ActiveTab() == OpenedTab(now, fileName, read.value)
    {
      if read.None? {
        return;
      }
      var tab := OpenedTab(now, fileName, read.value);
      AppendActive(State(), tab);
      tabs := tabs + [tab];
      activeTabId := tab.id;
    }

    /** `handleSaveFile`: offers the active tab's content under its download
        name and marks the active tab saved. */
    method SaveFile() returns (download: Download)
      requires Valid()
      modifies this`tabs
      ensures Valid()
      ensures download == Download(DownloadName(old(ActiveTab())), old(ActiveTab()).content)
      ensures OnlyTabReplaced(old(tabs), tabs, activeTabId, MarkSaved(old(ActiveTab())))
      ensures ActiveTab() == MarkSaved(old(ActiveTab()))
    {
      var active := ActiveTab();
      download := Download(DownloadName(active), active.content);
      EditActive(State(), MarkSaved);
      tabs := MapWhere(tabs, activeTabId, MarkSaved);
    }

    /** `updateTabContent(content)`: the active tab takes the new content and
        becomes unsaved; then, when the textarea reports its caret, the word
        at the caret decides the pop-up. */
    method UpdateTabContent(content: string, caret: Option<nat>)
      requires Valid()
      modifies this`tabs, this`cursorPosition, this`currentWord, this`popup, this`anchorTop
      ensures Valid()
      ensures OnlyTabReplaced(old(tabs), tabs, activeTabId, old(ActiveTab()).(content := content, saved := false))
      ensures ActiveTab() == old(ActiveTab()).(content := content, saved := false)
      ensures caret.None? ==>
        cursorPosition == old(cursorPosition) && currentWord == old(currentWord) &&
        popup == old(popup) && anchorTop == old(anchorTop)
      ensures caret.Some? ==>
        cursorPosition == caret.value && currentWord == CurrentWord(content, caret.value) &&
        popup == PopupFor(catalog, currentWord) &&
        anchorTop == if popup.Visible? then AnchorTop(content, caret.value) else old(anchorTop)
    {
      ReplaceActiveContent(content);
      if caret.Some? {
        RefreshSuggestions(content, caret.value);
      }
    }

    /** The tab half of `updateTabContent`: the active tab takes `content`
        and becomes unsaved; every other tab is kept. */
    method ReplaceActiveContent(content: string)
      requires Valid()
      modifies this`tabs
      ensures Valid()
      ensures OnlyTabReplaced(old(tabs), tabs, activeTabId, old(ActiveTab()).(content := content, saved := false))
      ensures ActiveTab() == old(ActiveTab()).(content := content, saved := false)
    {
      EditActive(State(), WithContent(content));
      tabs := MapWhere(tabs, activeTabId, WithContent(content));
    }

    /** The autocomplete half of `updateTabContent`, for caret `pos`. */
    method RefreshSuggestions(content: string, pos: nat)
      modifies this`cursorPosition, this`currentWord, this`popup, this`anchorTop
      ensures cursorPosition == pos && currentWord == CurrentWord(content, pos)
      ensures popup == PopupFor(catalog, currentWord) && popup.Valid()
      ensures anchorTop == if popup.Visible? then AnchorTop(content, pos) else old(anchorTop)
    {
      cursorPosition := pos;
      var word := GetCurrentWord(content, pos);
      currentWord := word;
      popup := PopupFor(catalog, word);
      if popup.Visible? {
        anchorTop := AnchorTop(content, pos);
      }
    }

    /** `applySuggestion(s)`: the part of the word left of the stored caret
        is replaced by `s.value`, the active tab becomes unsaved, the pop-up
        closes, and the returned caret is placed right after the value. */
    method ApplySuggestion(s: Suggestion) returns (caret: nat)
      requires Valid()
      modifies this`tabs, this`popup
      ensures Valid()
      ensures OnlyTabReplaced(old(tabs), tabs, activeTabId, Accepted(old(ActiveTab()), cursorPosition, s.value))
      ensures ActiveTab() == Accepted(old(ActiveTab()), cursorPosition, s.value)
      ensures popup == Hidden
      ensures caret == AppliedCaret(old(ActiveTab()).content, cursorPosition, s.value)
    {
      var newContent;
      newContent, caret := AcceptAt(ActiveTab().content, cursorPosition, s.value);
      ReplaceActiveContent(newContent);
      popup := Hidden;
    }

    /** `handleKeyDown(key)`: ignored while the pop-up is hidden; otherwise
        the arrows move the highlight within the list, Tab and Enter accept
        the highlighted candidate, Escape hides the pop-up. `handled` tells
        whether the key's default action was suppressed; `caret` is where an
        acceptance put the caret. */
    method HandleKeyDown(key: Key) returns (handled: bool, caret: Option<nat>)
      requires Valid()
      modifies this`tabs, this`popup
      ensures Valid()
      ensures old(popup).Hidden? ==> !handled && caret == None && popup == old(popup) && tabs == old(tabs)
      ensures old(popup).Visible? ==>
        var items, i := old(popup).items, old(popup).selected;
        match key
        case ArrowDown =>
          handled && caret == None && tabs == old(tabs) && popup == Visible(items, SelectNext(i, |items|))
        case ArrowUp =>
          handled && caret == None && tabs == old(tabs) && popup == Visible(items, SelectPrevious(i))
        case TabKey =>
          handled && popup == Hidden &&
          OnlyTabReplaced(old(tabs), tabs, activeTabId, Accepted(old(ActiveTab()), cursorPosition, items[i].value)) &&
          caret == Some(AppliedCaret(old(ActiveTab()).content, cursorPosition, items[i].value))
        case Enter =>
          handled && popup == Hidden &&
          OnlyTabReplaced(old(tabs), tabs, activeTabId, Accepted(old(ActiveTab()), cursorPosition, items[i].value)) &&
          caret == Some(AppliedCaret(old(ActiveTab()).content, cursorPosition, items[i].value))
        case Escape =>
          handled && caret == None && tabs == old(tabs) && popup == Hidden
        case OtherKey =>
          !handled && caret == None && tabs == old(tabs) && popup == old(popup)
    {
      handled, caret := false, None;
      if popup.Hidden? {
        return;
      }
      var items, i := popup.items, popup.selected;
      match key
      case ArrowDown =>
        handled := true;
        popup := Visible(items, SelectNext(i, |items|));
      case ArrowUp =>
        handled := true;
        popup := Visible(items, SelectPrevious(i));
      case TabKey =>
        handled := true;
        var c := ApplySuggestion(items[i]);
        caret := Some(c);
      case Enter =>
        handled := true;
        var c := ApplySuggestion(items[i]);
        caret := Some(c);
      case Escape =>
        handled := true;
        popup := Hidden;
      case OtherKey =>
    }

    /** A click in the textarea hides the pop-up. */
    method DismissOnClick()
      modifies this`popup
      ensures popup == Hidden
    {
      popup := Hidden;
    }

    /** `handleExecute`: a blank script is refused with a message before the
        busy flag is touched and nothing is sent; otherwise the flag is set,
        the messages are cleared, the script is sent unless the `fetch` call
        throws (`thrown`, a value thrown inside the inner `try` around
        `fetch`), and the flag is cleared again. */
    method Execute(thrown: Option<Thrown>) returns (sent: Option<string>)
      requires Valid()
      modifies this`isExecuting, this`executionError, this`executionResponse
      ensures IsBlank(old(ActiveTab().content)) ==>
        sent == None && executionError == Some(EmptyCodeMessage) &&
        isExecuting == old(isExecuting) && executionResponse == old(executionResponse)
      ensures !IsBlank(old(ActiveTab().content)) ==> !isExecuting && executionResponse == None
      ensures !IsBlank(old(ActiveTab().content)) && thrown.None? ==>
        sent == Some(old(ActiveTab().content)) && executionError == None
      ensures !IsBlank(old(ActiveTab().content)) && thrown.Some? ==>
        sent == None && executionError == Some(FailureMessage(ExecutePrefix, Rethrown(thrown.value)))
    {
      var code := ActiveTab().content;
      if TrimsToEmpty(code) {
        executionError := Some(EmptyCodeMessage);
        return None;
      }
      isExecuting := true;
      executionError := None;
      executionResponse := None;
      if thrown.Some? {
        sent := None;
        executionError := Some(FailureMessage(ExecutePrefix, Rethrown(thrown.value)));
      } else {
        sent := Some(code);
      }
      isExecuting := false;
    }

    /** `inject`: no guard; sends the fixed payload unless the send throws,
        and always clears its own busy flag. */
    method Inject(thrown: Option<Thrown>) returns (sent: Option<string>)
      modifies this`isInjecting, this`executionError, this`executionResponse
      ensures !isInjecting && executionResponse == None
      ensures thrown.None? ==> sent == Some(InjectPayload) && executionError == None
      ensures thrown.Some? ==> sent == None && executionError == Some(FailureMessage(InjectPrefix, Rethrown(thrown.value)))
    {
      isInjecting := true;
      executionError := None;
      executionResponse := None;
      if thrown.Some? {
        sent := None;
        executionError := Some(FailureMessage(InjectPrefix, Rethrown(thrown.value)));
      } else {
        sent := Some(InjectPayload);
      }
      isInjecting := false;
    }
  }
}
