/** The editor's documents as values: a tab record, the tabs the handlers
    create, and the list operations (`find`, `filter`, `map`) the handlers
    apply to the tab list, together with the download name of a save. */
module Tabs {
  import opened JsStrings
  import opened Wrappers
  import opened Seqs

  /** One open document. `saved` is false once the content has been edited
      since it was created, loaded or saved; `path` is the name of the file
      it was loaded from. */
  datatype Tab = Tab(id: string, name: string, content: string, saved: bool, path: Option<string>)

  /** The id of the first tab, and of the tab that replaces the last one
      closed. */
  const InitialId: string := "tab-1"

  /** The tab the editor starts with, and resets to. */
  const DefaultTab: Tab := Tab(InitialId, "New Script", "", true, None)

  /** `tab-${Date.now()}`, with the clock reading `now` as a parameter. */
  function TabId(now: nat): string {
    "tab-" + NatToString(now)
  }

  /** Different clock readings give different ids. */
  lemma TabIdInjective(m: nat, n: nat)
    requires m != n
    ensures TabId(m) != TabId(n)
  {
    NatToStringInjective(m, n);
    assert TabId(m)[4..] == NatToString(m);
    assert TabId(n)[4..] == NatToString(n);
  }

  /** The tab `createNewTab` appends when `count` tabs are open: an empty,
      saved, unloaded document whose id reads back as the clock reading and
      whose name reads back as the position it takes in the list. */
  function NewTab(now: nat, count: nat): (t: Tab)
    ensures t.content == "" && t.saved && t.path == None
    ensures ReadsBack(t.id, "tab-", now)
    ensures ReadsBack(t.name, "Script ", count + 1)
  {
    PrefixedReadsBack("tab-", now);
    PrefixedReadsBack("Script ", count + 1);
    Tab(TabId(now), "Script " + NatToString(count + 1), "", true, None)
  }

  /** The tab `handleFileSelect` appends for a file read successfully: the
      file's text verbatim, saved, remembering the file's name, with an id
      that reads back as the clock reading. Saving it at once offers it
      under the file's own name. */
  function OpenedTab(now: nat, fileName: string, text: string): (t: Tab)
    ensures t.content == text && t.saved && t.name == fileName && t.path == Some(fileName)
    ensures ReadsBack(t.id, "tab-", now)
    ensures fileName != "" ==> DownloadName(t) == fileName
  {
    PrefixedReadsBack("tab-", now);
    Tab(TabId(now), fileName, text, true, Some(fileName))
  }

  /** The ids of `tabs`, in order. */
  function Ids(tabs: seq<Tab>): (r: seq<string>)
    ensures |r| == |tabs|
    ensures forall i :: 0 <= i < |tabs| ==> r[i] == tabs[i].id
  {
    if tabs == [] then [] else [tabs[0].id] + Ids(tabs[1..])
  }

  /** No two tabs share an id. */
  predicate UniqueIds(tabs: seq<Tab>) {
    forall i, j :: 0 <= i < j < |tabs| ==> tabs[i].id != tabs[j].id
  }

  /** With unique ids, an id determines its position. */
  lemma SameIdSameIndex(tabs: seq<Tab>, i: nat, j: nat)
    requires UniqueIds(tabs) && i < |tabs| && j < |tabs| && tabs[i].id == tabs[j].id
    ensures i == j
  {
  }

  /** `tabs.find(t => t.id === id)`: the first tab with that id, if any. */
  function Find(tabs: seq<Tab>, id: string): (r: Option<Tab>)
    ensures r.Some? <==> id in Ids(tabs)
    ensures r.Some? ==> r.value in tabs && r.value.id == id
  {
    if tabs == [] then None
    else if tabs[0].id == id then Some(tabs[0])
    else Find(tabs[1..], id)
  }

  /** With unique ids, the tab found is the one tab holding that id. */
  lemma FindUnique(tabs: seq<Tab>, id: string, i: nat)
    requires UniqueIds(tabs) && i < |tabs| && tabs[i].id == id
    ensures Find(tabs, id) == Some(tabs[i])
  {
    assert id in Ids(tabs);
  }

  /** `tabs.filter(t => t.id !== id)`. */
  function Without(tabs: seq<Tab>, id: string): (r: seq<Tab>)
    ensures forall t :: t in r <==> t in tabs && t.id != id
    ensures forall x :: x in Ids(r) <==> x in Ids(tabs) && x != id
  {
    if tabs == [] then []
    else
      var rest := Without(tabs[1..], id);
      var r := if tabs[0].id == id then rest else [tabs[0]] + rest;
      assert forall x :: x in Ids(r) <==> exists t :: t in r && t.id == x;
      assert forall x :: x in Ids(tabs) <==> exists t :: t in tabs && t.id == x;
      r
  }

  /** Closing keeps the order of the remaining tabs, keeps their uniqueness,
      and removes exactly one tab when the id is present (none otherwise). */
  lemma {:induction false} WithoutShape(tabs: seq<Tab>, id: string)
    requires UniqueIds(tabs)
    ensures IsSubsequence(Without(tabs, id), tabs)
    ensures UniqueIds(Without(tabs, id))
    ensures |Without(tabs, id)| == if id in Ids(tabs) then |tabs| - 1 else |tabs|
  {
    if tabs != [] {
      var rest := Without(tabs[1..], id);
      WithoutShape(tabs[1..], id);
      assert Ids(tabs) == [tabs[0].id] + Ids(tabs[1..]);
      if tabs[0].id == id {
        SubsequenceOfTail(rest, tabs);
        assert id !in Ids(tabs[1..]);
      } else {
        assert ([tabs[0]] + rest)[1..] == rest;
        assert tabs[0].id !in Ids(rest);
        forall i, j | 0 <= i < j < |[tabs[0]] + rest|
          ensures ([tabs[0]] + rest)[i].id != ([tabs[0]] + rest)[j].id
        {
          if i == 0 {
            assert rest[j - 1].id in Ids(rest);
          }
        }
      }
    }
  }

  /** `tabs.map(t => t.id === id ? edit(t) : t)`. */
  function MapWhere(tabs: seq<Tab>, id: string, edit: Tab -> Tab): (r: seq<Tab>)
    ensures |r| == |tabs|
    ensures forall i :: 0 <= i < |tabs| ==> r[i] == if tabs[i].id == id then edit(tabs[i]) else tabs[i]
  {
    if tabs == [] then [] else [if tabs[0].id == id then edit(tabs[0]) else tabs[0]] + MapWhere(tabs[1..], id, edit)
  }

  /** `{ ...tab, content, saved: false }`. */
  function WithContent(content: string): Tab -> Tab {
    (t: Tab) => t.(content := content, saved := false)
  }

  /** `{ ...tab, saved: true }`. */
  function MarkSaved(t: Tab): Tab {
    t.(saved := true)
  }

  /** `after` is `before` with every tab whose id is `id` replaced by `t`,
      and nothing else changed. */
  predicate OnlyTabReplaced(before: seq<Tab>, after: seq<Tab>, id: string, t: Tab) {
    |after| == |before| &&
    forall i :: 0 <= i < |before| ==> after[i] == if before[i].id == id then t else before[i]
  }

  /** With unique ids, mapping an id-preserving edit over the tab with `id`
      replaces that one tab by its edited form and keeps ids and uniqueness. */
  lemma MapWhereOne(tabs: seq<Tab>, id: string, edit: Tab -> Tab, i: nat)
    requires UniqueIds(tabs) && i < |tabs| && tabs[i].id == id && edit(tabs[i]).id == id
    ensures OnlyTabReplaced(tabs, MapWhere(tabs, id, edit), id, edit(tabs[i]))
    ensures Ids(MapWhere(tabs, id, edit)) == Ids(tabs)
    ensures UniqueIds(MapWhere(tabs, id, edit))
  {
    var r := MapWhere(tabs, id, edit);
    forall j | 0 <= j < |tabs| && tabs[j].id == id
      ensures r[j] == edit(tabs[i])
    {
      SameIdSameIndex(tabs, i, j);
    }
    assert forall j :: 0 <= j < |tabs| ==> r[j].id == tabs[j].id;
    assert Ids(r) == Ids(tabs);
  }

  /** The name offered for download: `path || (name ends in ".lua" ? name :
      name + ".lua")`. An empty `path` is falsy and falls through. */
  function DownloadName(t: Tab): (n: string)
    ensures t.path.Some? && t.path.value != "" ==> n == t.path.value
    ensures t.path.None? || t.path.value == "" ==>
      EndsWith(n, ".lua") && (n == t.name <==> EndsWith(t.name, ".lua")) &&
      (n != t.name ==> n == t.name + ".lua")
  {
    if t.path.Some? && t.path.value != "" then t.path.value
    else if EndsWith(t.name, ".lua") then t.name
    else
      var n := t.name + ".lua";
      assert n[|n| - 4..] == ".lua";
      n
  }

  /** Loading a file and saving it straight away offers the same bytes under
      the same file name (for a file with a non-empty name). */
  lemma OpenThenSave(now: nat, fileName: string, text: string)
    requires fileName != ""
    ensures DownloadName(MarkSaved(OpenedTab(now, fileName, text))) == fileName
    ensures MarkSaved(OpenedTab(now, fileName, text)).content == text
  {
  }

  /** The tab list and the active id, the two pieces of state the tab
      handlers replace together. */
  datatype Session = Session(tabs: seq<Tab>, activeId: string)

  /** The editor's invariant: at least one tab, distinct ids, and an active
      id that names one of the tabs. */
  predicate WellFormed(s: Session) {
    |s.tabs| > 0 && UniqueIds(s.tabs) && s.activeId in Ids(s.tabs)
  }

  /** Appending a tab with a fresh id and making it active keeps a session
      well formed, and the appended tab is then the active one. */
  lemma AppendActive(s: Session, t: Tab)
    requires WellFormed(s) && t.id !in Ids(s.tabs)
    ensures var r := Session(s.tabs + [t], t.id);
      Ids(r.tabs) == Ids(s.tabs) + [t.id] && WellFormed(r) && Active(r) == t
  {
    var tabs := s.tabs + [t];
    assert Ids(tabs) == Ids(s.tabs) + [t.id];
    FindUnique(tabs, t.id, |s.tabs|);
  }

  /** The tab the active id names, falling back to the first tab
      (`tabs.find(t => t.id === activeTabId) || tabs[0]`). On a well-formed
      session the fallback is never taken. */
  function Active(s: Session): (t: Tab)
    requires |s.tabs| > 0
    ensures t in s.tabs
    ensures s.activeId in Ids(s.tabs) ==> t.id == s.activeId
    ensures s.activeId !in Ids(s.tabs) ==> t == s.tabs[0]
  {
    Find(s.tabs, s.activeId).GetOr(s.tabs[0])
  }

  /** Editing the active tab through `map` (the handlers' `tabs.map(tab =>
      tab.id === activeTabId ? edit(tab) : tab)`) replaces the active tab by
      its edited form, changes no other tab, and keeps the session
      well-formed and the same tab active. */
  lemma EditActive(s: Session, edit: Tab -> Tab)
    requires WellFormed(s) && edit(Active(s)).id == s.activeId
    ensures var r := Session(MapWhere(s.tabs, s.activeId, edit), s.activeId);
      WellFormed(r) && OnlyTabReplaced(s.tabs, r.tabs, s.activeId, edit(Active(s))) &&
      Active(r) == edit(Active(s))
  {
    var i :| 0 <= i < |s.tabs| && s.tabs[i].id == s.activeId;
    FindUnique(s.tabs, s.activeId, i);
    MapWhereOne(s.tabs, s.activeId, edit, i);
    var r := MapWhere(s.tabs, s.activeId, edit);
    FindUnique(r, s.activeId, i);
  }

  /** The tab `closeTab(id)` is asked to close is unsaved and the user
      declined to discard it. */
  predicate CloseDeclined(s: Session, id: string, confirmed: bool) {
    var target := Find(s.tabs, id);
    target.Some? && !target.value.saved && !confirmed
  }

  /** `closeTab(id)` with the user's answer to the discard question: declined
      leaves everything; closing the only tab resets to the default tab;
      otherwise the tab is filtered out and, if it was active, the last
      remaining tab becomes active. */
  function Close(s: Session, id: string, confirmed: bool): (r: Session)
    requires WellFormed(s)
    ensures WellFormed(r)
    ensures CloseDeclined(s, id, confirmed) ==> r == s
  {
    if CloseDeclined(s, id, confirmed) then s
    else if |s.tabs| == 1 then Session([DefaultTab], InitialId)
    else
      var rest := Without(s.tabs, id);
      WithoutShape(s.tabs, id);
      Session(rest, if id == s.activeId then rest[|rest| - 1].id else s.activeId)
  }

  /** Closing one of several tabs removes exactly that tab, keeps the others
      in their order, and moves the activation to the last remaining tab only
      when the closed tab was the active one. */
  lemma CloseRemovesTarget(s: Session, id: string, confirmed: bool)
    requires WellFormed(s) && !CloseDeclined(s, id, confirmed) && |s.tabs| > 1
    ensures var r := Close(s, id, confirmed);
      IsSubsequence(r.tabs, s.tabs) &&
      (forall t :: t in r.tabs <==> t in s.tabs && t.id != id) &&
      |r.tabs| == (if id in Ids(s.tabs) then |s.tabs| - 1 else |s.tabs|) &&
      r.activeId == (if id == s.activeId then r.tabs[|r.tabs| - 1].id else s.activeId)
  {
    WithoutShape(s.tabs, id);
  }

  /** Closing the only tab, unless declined, leaves the single fresh default
      tab, active, whatever the closed tab held. */
  lemma CloseLastResets(s: Session, id: string, confirmed: bool)
    requires WellFormed(s) && !CloseDeclined(s, id, confirmed) && |s.tabs| == 1
    ensures Close(s, id, confirmed).tabs == [DefaultTab]
    ensures Active(Close(s, id, confirmed)) == DefaultTab
  {
  }

  /** No unsaved content is dropped without the user's consent: closing an
      open tab without confirmation keeps every unsaved tab. */
  lemma CloseKeepsUnsaved(s: Session, id: string, t: Tab)
    requires WellFormed(s) && id in Ids(s.tabs) && t in s.tabs && !t.saved
    ensures t in Close(s, id, false).tabs
  {
    if !CloseDeclined(s, id, false) && |s.tabs| > 1 {
      UnsavedIsNotTarget(s.tabs, id, t);
      WithoutShape(s.tabs, id);
    }
  }

  /** When the tab with `id` is saved, an unsaved tab has another id. */
  lemma UnsavedIsNotTarget(tabs: seq<Tab>, id: string, t: Tab)
    requires UniqueIds(tabs) && t in tabs && !t.saved
    requires Find(tabs, id).Some? && Find(tabs, id).value.saved
    ensures t.id != id
  {
    var u := Find(tabs, id).value;
    var i :| 0 <= i < |tabs| && tabs[i] == t;
    var k :| 0 <= k < |tabs| && tabs[k] == u;
    if i != k {
      assert tabs[i].id != tabs[k].id by {
        if i < k { } else { }
      }
    }
  }
}
