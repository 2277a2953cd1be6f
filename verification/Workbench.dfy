/**
 The workbench's transitions: opening, pinning and closing editor tabs, switching between project scopes,
 and what any run of them keeps.
 */
module Workbench {
  import opened Lists
  import opened Options
  import opened Runs
  import opened WorkbenchState

  datatype Action =
    | OpenEditor(resource: EditorResource, asPinned: bool)
    | ActivateEditor(activateId: string)
    | PinEditor(pinId: string)
    | UnpinEditor(unpinId: string)
    | CloseEditor(closeId: string)
    | SetPaneVisible(pane: PaneId, visible: bool)
    | ResizePane(resizedPane: PaneId, size: real)
    | SetScope(requested: QueryScope)
    | SetFocus(region: FocusRegion)
    | ToggleFailureGroup(groupId: string)
    | ClearBulkSelection
    | SetInboxPreferences(scopeKey: string, preferences: InboxPreferences)
    | SetInspectorAutoOpenSuppressed(suppressed: bool)
    | UpdateActiveFullTraceSelection(spanId: Option<string>)
    | SetAppearance(newAppearance: Appearance)
    | ResetLayout

  // ---------------------------------------------------------------------- tabs

  function HasId(id: string): Tab -> bool {
    (tab: Tab) => tab.id == id
  }

  function LacksId(id: string): Tab -> bool {
    (tab: Tab) => tab.id != id
  }

  function IsPreview(): Tab -> bool {
    (tab: Tab) => !tab.pinned
  }

  function IsPinnedOr(id: string): Tab -> bool {
    (tab: Tab) => tab.id == id || tab.pinned
  }

  function IsInbox(): Tab -> bool {
    (tab: Tab) => tab.resource == FailureInbox
  }

  function Restorable(activity: ActivityId, project: string): Tab -> bool {
    (tab: Tab) => Activity(Kind(tab.resource)) == activity && VisibleFor(tab.resource, project)
  }

  /** The tab a project may come back to. */
  function Shows(id: Option<string>, project: string): Tab -> bool {
    (tab: Tab) => Some(tab.id) == id && VisibleFor(tab.resource, project)
  }

  function TabAt(editors: seq<Tab>, id: Option<string>): Option<Tab> {
    if id.None? then None
    else match FirstIndex(editors, HasId(id.value)) case None => None case Some(i) => Some(editors[i])
  }

  function LastId(editors: seq<Tab>): Option<string> {
    if editors == [] then None else Some(editors[|editors| - 1].id)
  }

  /** Opening an open resource only refreshes its tab; a preview otherwise takes the first preview's place. */
  function Opened(editors: seq<Tab>, resource: EditorResource, pinned: bool): seq<Tab> {
    match FirstIndex(editors, HasId(StableKey(resource)))
    case Some(i) => editors[i := editors[i].(pinned := editors[i].pinned || pinned, resource := resource)]
    case None =>
      if pinned then editors + [NewTab(resource, true)]
      else
        match FirstIndex(editors, IsPreview())
        case Some(i) => editors[i := NewTab(resource, false)]
        case None => editors + [NewTab(resource, false)]
  }

  function Open(s: State, resource: EditorResource, pinned: bool): State {
    s.(editors := Opened(s.editors, resource, pinned), activeActivity := Activity(Kind(resource)),
       activeEditor := Some(StableKey(resource)), focus := Editor)
  }

  function Activate(s: State, id: string): State {
    match FirstIndex(s.editors, HasId(id))
    case None => s
    case Some(i) => s.(activeActivity := Activity(Kind(s.editors[i].resource)), activeEditor := Some(id), focus := Editor)
  }

  function Pin(s: State, id: string): State {
    match FirstIndex(s.editors, HasId(id))
    case None => s
    case Some(i) => s.(editors := s.editors[i := s.editors[i].(pinned := true)])
  }

  /** Unpinning drops every other preview, even when the tab to unpin is not open. */
  function Unpin(s: State, id: string): State {
    var kept := Filter(s.editors, IsPinnedOr(id));
    match FirstIndex(kept, HasId(id))
    case None => s.(editors := kept)
    case Some(i) =>
      s.(editors := kept[i := kept[i].(pinned := false)],
         activeActivity := Activity(Kind(kept[i].resource)), activeEditor := Some(id))
  }

  function Close(s: State, id: string): State {
    var kept := Filter(s.editors, LacksId(id));
    s.(editors := kept, activeEditor := if s.activeEditor == Some(id) then LastId(kept) else s.activeEditor,
       focus := EditorTabs)
  }

  function UpdateSelection(s: State, spanId: Option<string>): State {
    if s.activeEditor.None? then s
    else
      match FirstIndex(s.editors, HasId(s.activeEditor.value))
      case None => s
      case Some(i) =>
        if s.editors[i].resource.FullTrace?
        then s.(editors := s.editors[i := s.editors[i].(resource := s.editors[i].resource.(selectedSpanId := spanId))])
        else s
  }

  // --------------------------------------------------------------------- panes

  function PaneFocus(pane: PaneId): FocusRegion {
    match pane
    case PrimarySidebar => SidebarRegion
    case Inspector => InspectorRegion
    case BottomPanel => BottomRegion
  }

  function WithVisible(panes: PaneLayout, pane: PaneId, visible: bool): PaneLayout {
    match pane
    case PrimarySidebar => panes.(sidebarVisible := visible)
    case Inspector => panes.(inspectorVisible := visible)
    case BottomPanel => panes.(bottomVisible := visible)
  }

  function SetVisible(s: State, pane: PaneId, visible: bool): State {
    s.(panes := WithVisible(s.panes, pane, visible),
       focus := if !visible && PaneFocus(pane) == s.focus then Editor else s.focus)
  }

  function Clamp(x: real, low: real, high: real): real {
    if x < low then low else if high < x then high else x
  }

  function Resized(panes: PaneLayout, pane: PaneId, size: real): PaneLayout {
    match pane
    case PrimarySidebar => panes.(sidebarWidth := Clamp(size, 220.0, 480.0))
    case Inspector => panes.(inspectorWidth := Clamp(size, 280.0, 640.0))
    case BottomPanel => panes.(bottomHeight := Clamp(size, 140.0, 520.0))
  }

  // -------------------------------------------------------------------- scopes

  /** A state with the failure inbox among its tabs, and the inbox's identifier. */
  function WithInbox(s: State): (State, string) {
    match FirstIndex(s.editors, IsInbox())
    case Some(i) => (s, s.editors[i].id)
    case None => (s.(editors := s.editors + [NewTab(FailureInbox, false)]), StableKey(FailureInbox))
  }

  /** Leaving a project saves its context. */
  function Leave(s: State): State {
    if s.scope.project.AllProjects? then s
    else s.(projectContexts := s.projectContexts[s.scope.project.id := ContextOf(s)])
  }

  function ContextOf(s: State): ProjectContext {
    ProjectContext(
      s.scope.environment, s.scope.build, s.scope.session, s.scope.timeRange, s.activeActivity, s.activeEditor, s.panes)
  }

  /** A tab of another project gives way to the failure inbox. */
  function KeepGlobalTab(s: State): State {
    var active := TabAt(s.editors, s.activeEditor);
    if active.Some? && ProjectOf(active.value.resource).None? then s
    else
      var (opened_, id) := WithInbox(s);
      opened_.(activeEditor := Some(id), activeActivity := Failures)
  }

  function RestoreEditor(s: State, context: ProjectContext, project: string): State {
    if FirstIndex(s.editors, Shows(context.activeEditor, project)).Some? then s.(activeEditor := context.activeEditor)
    else
      match FirstIndex(s.editors, Restorable(context.activeActivity, project))
      case Some(i) => WithActivityOfActive(s.(activeEditor := Some(s.editors[i].id)))
      case None =>
        var (opened_, id) := WithInbox(s);
        WithActivityOfActive(opened_.(activeEditor := Some(id)))
  }

  function WithActivityOfActive(s: State): State {
    var active := TabAt(s.editors, s.activeEditor);
    s.(activeActivity := if active.Some? then Activity(Kind(active.value.resource)) else Failures)
  }

  /** Coming back to a project brings its context back; what else the request names is ignored. */
  function Return(s: State, project: string, context: ProjectContext): State {
    var scope := QueryScope(
      Project(project), context.environment, context.build, context.session, context.timeRange);
    RestoreEditor(s.(scope := scope, activeActivity := context.activeActivity, panes := context.panes), context, project)
  }

  function SwitchScope(s: State, requested: QueryScope): State {
    if s.scope.project == requested.project then s.(scope := requested)
    else
      var left := Leave(s);
      match requested.project
      case AllProjects => KeepGlobalTab(left.(scope := DEFAULT_SCOPE))
      case Project(project) =>
        if project in left.projectContexts then Return(left, project, left.projectContexts[project])
        else KeepGlobalTab(left.(scope := DEFAULT_SCOPE.(project := requested.project)))
  }

  // --------------------------------------------------------------------- steps

  function Apply(s: State, action: Action): State {
    match action
    case OpenEditor(resource, pinned) => Open(s, resource, pinned)
    case ActivateEditor(id) => Activate(s, id)
    case PinEditor(id) => Pin(s, id)
    case UnpinEditor(id) => Unpin(s, id)
    case CloseEditor(id) => Close(s, id)
    case SetPaneVisible(pane, visible) => SetVisible(s, pane, visible)
    case ResizePane(pane, size) => s.(panes := Resized(s.panes, pane, size))
    case SetScope(requested) => SwitchScope(s, requested).(selectedGroups := {})
    case SetFocus(region) => s.(focus := region)
    case ToggleFailureGroup(group) =>
      s.(selectedGroups := if group in s.selectedGroups then s.selectedGroups - {group} else s.selectedGroups + {group})
    case ClearBulkSelection => s.(selectedGroups := {})
    case SetInboxPreferences(key, preferences) => s.(inboxPreferences := s.inboxPreferences[key := preferences])
    case SetInspectorAutoOpenSuppressed(suppressed) => s.(inspectorAutoOpenSuppressed := suppressed)
    case UpdateActiveFullTraceSelection(spanId) => UpdateSelection(s, spanId)
    case SetAppearance(appearance) => s.(appearance := appearance)
    case ResetLayout => s.(panes := DEFAULT_PANES)
  }

  // ---------------------------------------------------------------- invariants

  /** Tabs in order: their identifiers differ, and of two previews the later is the failure inbox. */
  predicate TabsAgree(earlier: Tab, later: Tab) {
    earlier.id != later.id && (earlier.pinned || later.pinned || later.resource == FailureInbox)
  }

  function Agree(): (Tab, Tab) -> bool {
    (a: Tab, b: Tab) => TabsAgree(a, b)
  }

  predicate Keyed(editors: seq<Tab>) {
    forall i :: 0 <= i < |editors| ==> editors[i].id == StableKey(editors[i].resource)
  }

  ghost predicate WellTabbed(editors: seq<Tab>) {
    Keyed(editors) && Pairwise(editors, Agree())
  }

  predicate IsOpen(editors: seq<Tab>, id: string) {
    exists i :: 0 <= i < |editors| && editors[i].id == id
  }

  /** The active editor, if there is one, is an open tab. */
  predicate ActiveIsOpen(s: State) {
    s.activeEditor.Some? ==> IsOpen(s.editors, s.activeEditor.value)
  }

  /** The previews are none, one, or one and then the failure inbox. */
  ghost predicate FewPreviews(editors: seq<Tab>) {
    var previews := Filter(editors, IsPreview());
    || previews == []
    || |previews| == 1
    || (|previews| == 2 && previews[0].resource != FailureInbox && previews[1].resource == FailureInbox)
  }

  lemma PairAgrees(editors: seq<Tab>, i: nat, j: nat)
    requires Pairwise(editors, Agree())
    ensures i < j < |editors| ==> TabsAgree(editors[i], editors[j])
  {
  }

  /** The previews of a run are none, one, or one followed by the failure inbox. */
  lemma WellTabbedHasFewPreviews(editors: seq<Tab>)
    requires WellTabbed(editors)
    ensures FewPreviews(editors)
  {
    var previews := Filter(editors, IsPreview());
    FilterKeepsPairs(editors, IsPreview(), Agree());
    forall i | 0 <= i < |previews| ensures !previews[i].pinned && previews[i].id == StableKey(previews[i].resource) {
      InFilter(editors, IsPreview(), previews[i]);
    }
    forall j | 1 <= j < |previews|
      ensures previews[j].resource == FailureInbox && previews[j].id == StableKey(FailureInbox)
    {
      PairAgrees(previews, 0, j);
    }
    PairAgrees(previews, 0, 1);
    PairAgrees(previews, 1, 2);
  }

  /** Changing one tab's pin or what it shows, but not its key. */
  lemma RefreshedIsWellTabbed(editors: seq<Tab>, i: nat, tab: Tab)
    requires WellTabbed(editors) && i < |editors|
    requires tab.id == editors[i].id == StableKey(tab.resource)
    requires tab.pinned || !editors[i].pinned || (forall j :: 0 <= j < |editors| && j != i ==> editors[j].pinned)
    ensures WellTabbed(editors[i := tab])
    ensures forall id :: IsOpen(editors[i := tab], id) <==> IsOpen(editors, id)
  {
    var after := editors[i := tab];
    InboxKeyIsUnique(tab.resource);
    InboxKeyIsUnique(editors[i].resource);
    forall j, k | 0 <= j < k < |after| ensures TabsAgree(after[j], after[k]) {
      PairAgrees(editors, j, k);
    }
    forall id ensures IsOpen(after, id) <==> IsOpen(editors, id) {
      assert forall j :: 0 <= j < |after| ==> after[j].id == editors[j].id;
    }
  }

  lemma AppendedIsWellTabbed(editors: seq<Tab>, tab: Tab)
    requires WellTabbed(editors) && !IsOpen(editors, tab.id) && tab.id == StableKey(tab.resource)
    requires tab.pinned || tab.resource == FailureInbox || forall j :: 0 <= j < |editors| ==> editors[j].pinned
    ensures WellTabbed(editors + [tab])
    ensures forall id :: IsOpen(editors + [tab], id) <==> IsOpen(editors, id) || id == tab.id
  {
    var after := editors + [tab];
    forall j, k | 0 <= j < k < |after| ensures TabsAgree(after[j], after[k]) {
      PairAgrees(editors, j, k);
    }
    forall id ensures IsOpen(after, id) <==> IsOpen(editors, id) || id == tab.id {
      assert forall j :: 0 <= j < |editors| ==> after[j].id == editors[j].id;
      assert after[|editors|].id == tab.id;
    }
  }

  lemma FirstPreviewReplaced(editors: seq<Tab>, i: nat, tab: Tab)
    requires WellTabbed(editors) && !IsOpen(editors, tab.id) && tab.id == StableKey(tab.resource)
    requires FirstIndex(editors, IsPreview()) == Some(i)
    ensures WellTabbed(editors[i := tab])
    ensures IsOpen(editors[i := tab], tab.id)
  {
    var after := editors[i := tab];
    assert forall j :: 0 <= j < i ==> !IsPreview()(editors[j]);
    forall j, k | 0 <= j < k < |after| ensures TabsAgree(after[j], after[k]) {
      PairAgrees(editors, j, k);
    }
    assert after[i].id == tab.id;
  }

  lemma OpenedIsWellTabbed(editors: seq<Tab>, resource: EditorResource, pinned: bool)
    requires WellTabbed(editors)
    ensures WellTabbed(Opened(editors, resource, pinned))
    ensures IsOpen(Opened(editors, resource, pinned), StableKey(resource))
  {
    var found := FirstIndex(editors, HasId(StableKey(resource)));
    var preview := FirstIndex(editors, IsPreview());
    FoundIsOpen(editors, StableKey(resource));
    if found.Some? {
      var tab := editors[found.value];
      RefreshedIsWellTabbed(editors, found.value, tab.(pinned := tab.pinned || pinned, resource := resource));
    } else if !pinned && preview.Some? {
      FirstPreviewReplaced(editors, preview.value, NewTab(resource, false));
    } else {
      assert preview.None? ==> forall j :: 0 <= j < |editors| ==> !IsPreview()(editors[j]);
      AppendedIsWellTabbed(editors, NewTab(resource, pinned));
    }
  }

  lemma FoundIsOpen(editors: seq<Tab>, id: string)
    ensures FirstIndex(editors, HasId(id)).Some? <==> IsOpen(editors, id)
  {
  }

  lemma InboxIsOpen(editors: seq<Tab>)
    requires WellTabbed(editors)
    ensures FirstIndex(editors, IsInbox()).Some? <==> IsOpen(editors, StableKey(FailureInbox))
  {
    forall i | 0 <= i < |editors| ensures IsInbox()(editors[i]) <==> editors[i].id == StableKey(FailureInbox) {
      InboxKeyIsUnique(editors[i].resource);
    }
    assert FirstIndex(editors, IsInbox()).Some? ==> IsInbox()(editors[FirstIndex(editors, IsInbox()).value]);
  }

  lemma WithInboxKeepsTabs(s: State)
    requires WellTabbed(s.editors)
    ensures var (opened_, id) := WithInbox(s);
      && WellTabbed(opened_.editors) && id == StableKey(FailureInbox) && IsOpen(opened_.editors, id)
      && opened_ == s.(editors := opened_.editors)
  {
    var found := FirstIndex(s.editors, IsInbox());
    InboxIsOpen(s.editors);
    if found.None? {
      AppendedIsWellTabbed(s.editors, NewTab(FailureInbox, false));
    } else {
      assert IsInbox()(s.editors[found.value]);
    }
  }

  lemma FilterIsWellTabbed(editors: seq<Tab>, keep: Tab -> bool)
    requires WellTabbed(editors)
    ensures WellTabbed(Filter(editors, keep))
    ensures forall id :: IsOpen(Filter(editors, keep), id) <==> exists tab :: tab in editors && tab.id == id && keep(tab)
  {
    FilterKeepsPairs(editors, keep, Agree());
    var kept := Filter(editors, keep);
    forall i | 0 <= i < |kept| ensures kept[i].id == StableKey(kept[i].resource) {
      InFilter(editors, keep, kept[i]);
    }
    forall id ensures IsOpen(kept, id) <==> exists tab :: tab in editors && tab.id == id && keep(tab) {
      if IsOpen(kept, id) {
        var i :| 0 <= i < |kept| && kept[i].id == id;
        InFilter(editors, keep, kept[i]);
      }
      forall tab | tab in editors && tab.id == id && keep(tab) ensures IsOpen(kept, id) {
        InFilter(editors, keep, tab);
      }
    }
  }

  lemma PinKeepsTabs(s: State, id: string)
    requires WellTabbed(s.editors)
    ensures WellTabbed(Pin(s, id).editors)
    ensures ActiveIsOpen(s) ==> ActiveIsOpen(Pin(s, id))
  {
    var found := FirstIndex(s.editors, HasId(id));
    if found.Some? {
      RefreshedIsWellTabbed(s.editors, found.value, s.editors[found.value].(pinned := true));
    }
  }

  lemma UpdateSelectionKeepsTabs(s: State, spanId: Option<string>)
    requires WellTabbed(s.editors)
    ensures WellTabbed(UpdateSelection(s, spanId).editors)
    ensures ActiveIsOpen(s) ==> ActiveIsOpen(UpdateSelection(s, spanId))
  {
    if s.activeEditor.Some? {
      var found := FirstIndex(s.editors, HasId(s.activeEditor.value));
      if found.Some? && s.editors[found.value].resource.FullTrace? {
        var tab := s.editors[found.value];
        RefreshedIsWellTabbed(
          s.editors, found.value, tab.(resource := tab.resource.(selectedSpanId := spanId)));
      }
    }
  }

  lemma CloseKeepsTabs(s: State, id: string)
    requires WellTabbed(s.editors)
    ensures WellTabbed(Close(s, id).editors)
    ensures ActiveIsOpen(s) ==> ActiveIsOpen(Close(s, id))
    ensures !IsOpen(Close(s, id).editors, id)
  {
    FilterIsWellTabbed(s.editors, LacksId(id));
    var kept := Filter(s.editors, LacksId(id));
    if kept != [] { assert kept[|kept| - 1].id == LastId(kept).value; }
  }

  lemma UnpinKeepsTabs(s: State, id: string)
    requires WellTabbed(s.editors)
    ensures WellTabbed(Unpin(s, id).editors)
    ensures IsOpen(s.editors, id) ==> ActiveIsOpen(Unpin(s, id))
    ensures !IsOpen(s.editors, id) && ActiveIsOpen(s) ==>
      (ActiveIsOpen(Unpin(s, id)) <==> ActiveTab(s).None? || ActiveTab(s).value.pinned)
  {
    var kept := Filter(s.editors, IsPinnedOr(id));
    FilterIsWellTabbed(s.editors, IsPinnedOr(id));
    var found := FirstIndex(kept, HasId(id));
    FoundIsOpen(kept, id);
    if found.Some? {
      forall j | 0 <= j < |kept| && j != found.value ensures kept[j].pinned {
        InFilter(s.editors, IsPinnedOr(id), kept[j]);
        PairAgrees(kept, j, found.value);
        PairAgrees(kept, found.value, j);
      }
      RefreshedIsWellTabbed(kept, found.value, kept[found.value].(pinned := false));
      assert kept[found.value].id == id;
    }
    IdsOfTabs(s.editors, id);
    if s.activeEditor.Some? {
      IdsOfTabs(s.editors, s.activeEditor.value);
    }
  }

  /** An open identifier belongs to exactly one tab. */
  lemma IdsOfTabs(editors: seq<Tab>, id: string)
    requires WellTabbed(editors)
    ensures IsOpen(editors, id) <==> TabAt(editors, Some(id)).Some?
    ensures forall tab :: tab in editors && tab.id == id ==> TabAt(editors, Some(id)) == Some(tab)
    ensures TabAt(editors, Some(id)).Some? ==>
      TabAt(editors, Some(id)).value in editors && TabAt(editors, Some(id)).value.id == id
  {
  }

  // -------------------------------------------------------------------- landing

  function ActiveTab(s: State): Option<Tab> {
    TabAt(s.editors, s.activeEditor)
  }

  predicate VisibleIn(resource: EditorResource, scope: ProjectScope) {
    match scope
    case AllProjects => ProjectOf(resource).None?
    case Project(project) => VisibleFor(resource, project)
  }

  /** The active tab is open, and global or owned by the scope's project. */
  predicate Landed(s: State) {
    ActiveTab(s).Some? && VisibleIn(ActiveTab(s).value.resource, s.scope.project)
  }

  lemma InboxLands(s: State)
    requires WellTabbed(s.editors)
    ensures var (opened_, id) := WithInbox(s);
      && WellTabbed(opened_.editors) && opened_ == s.(editors := opened_.editors)
      && TabAt(opened_.editors, Some(id)).Some? && TabAt(opened_.editors, Some(id)).value.resource == FailureInbox
  {
    WithInboxKeepsTabs(s);
    var (opened_, id) := WithInbox(s);
    IdsOfTabs(opened_.editors, id);
    InboxKeyIsUnique(TabAt(opened_.editors, Some(id)).value.resource);
  }

  lemma KeepGlobalTabLands(s: State)
    requires WellTabbed(s.editors)
    ensures var r := KeepGlobalTab(s);
      && WellTabbed(r.editors) && Landed(r)
      && r.scope == s.scope && r.projectContexts == s.projectContexts && r.panes == s.panes
  {
    InboxLands(s);
  }

  lemma RestoreEditorLands(s: State, context: ProjectContext, project: string)
    requires WellTabbed(s.editors) && s.scope.project == Project(project)
    ensures var r := RestoreEditor(s, context, project);
      && WellTabbed(r.editors) && Landed(r)
      && r.scope == s.scope && r.projectContexts == s.projectContexts && r.panes == s.panes
  {
    hide WorkbenchState.StableKey, WellTabbed, WithInbox;
    InboxLands(s);
    var saved := FirstIndex(s.editors, Shows(context.activeEditor, project));
    if saved.Some? {
      var tab := s.editors[saved.value];
      assert Shows(context.activeEditor, project)(tab);
      IdsOfTabs(s.editors, tab.id);
      assert tab in s.editors;
    }
    var found := FirstIndex(s.editors, Restorable(context.activeActivity, project));
    if found.Some? {
      var tab := s.editors[found.value];
      assert Restorable(context.activeActivity, project)(tab);
      IdsOfTabs(s.editors, tab.id);
      assert tab in s.editors;
    }
  }

  /** After a scope change that changes the project, the active tab is open and belongs to the new scope. */
  lemma ChangingProjectLands(s: State, requested: QueryScope)
    requires WellTabbed(s.editors) && s.scope.project != requested.project
    ensures var r := SwitchScope(s, requested);
      && WellTabbed(r.editors) && Landed(r) && r.scope.project == requested.project
  {
    hide RestoreEditor, KeepGlobalTab, WellTabbed, Landed;
    var left := Leave(s);
    match requested.project
    case AllProjects => KeepGlobalTabLands(left.(scope := DEFAULT_SCOPE));
    case Project(project) =>
      if project in left.projectContexts {
        var context := left.projectContexts[project];
        var scope := QueryScope(
          Project(project), context.environment, context.build, context.session, context.timeRange);
        RestoreEditorLands(
          left.(scope := scope, activeActivity := context.activeActivity, panes := context.panes), context, project);
      } else {
        KeepGlobalTabLands(left.(scope := DEFAULT_SCOPE.(project := requested.project)));
      }
  }

  lemma LandedIsOpen(s: State)
    requires WellTabbed(s.editors) && Landed(s)
    ensures ActiveIsOpen(s)
  {
  }

  // ------------------------------------------------------------------------ runs

  /** An unpinning that drops the active preview because the tab it names is not open. */
  predicate DropsActivePreview(s: State, action: Action) {
    && action.UnpinEditor? && !IsOpen(s.editors, action.unpinId)
    && ActiveTab(s).Some? && !ActiveTab(s).value.pinned
  }

  /** Every step keeps the tabs in order, and only an unpinning of a closed tab can leave the active one dangling. */
  lemma StepKeepsTabs(s: State, action: Action)
    requires WellTabbed(s.editors)
    ensures WellTabbed(Apply(s, action).editors)
    ensures ActiveIsOpen(s) ==> (ActiveIsOpen(Apply(s, action)) <==> !DropsActivePreview(s, action))
  {
    hide WellTabbed, Open, Activate, Pin, Unpin, Close, UpdateSelection, SwitchScope;
    match action
    case OpenEditor(resource, pinned) => OpenKeepsTabs(s, resource, pinned);
    case ActivateEditor(id) => ActivateKeepsTabs(s, id);
    case PinEditor(id) => PinKeepsTabs(s, id);
    case UnpinEditor(id) =>
      UnpinKeepsTabs(s, id);
    case CloseEditor(id) => CloseKeepsTabs(s, id);
    case UpdateActiveFullTraceSelection(spanId) => UpdateSelectionKeepsTabs(s, spanId);
    case SetScope(requested) => SetScopeKeepsTabs(s, requested);
    case _ =>
  }

  lemma OpenKeepsTabs(s: State, resource: EditorResource, pinned: bool)
    requires WellTabbed(s.editors)
    ensures WellTabbed(Open(s, resource, pinned).editors) && ActiveIsOpen(Open(s, resource, pinned))
  {
    OpenedIsWellTabbed(s.editors, resource, pinned);
  }

  lemma ActivateKeepsTabs(s: State, id: string)
    requires WellTabbed(s.editors)
    ensures WellTabbed(Activate(s, id).editors)
    ensures ActiveIsOpen(s) ==> ActiveIsOpen(Activate(s, id))
  {
  }

  lemma SetScopeKeepsTabs(s: State, requested: QueryScope)
    requires WellTabbed(s.editors)
    ensures WellTabbed(SwitchScope(s, requested).editors)
    ensures ActiveIsOpen(s) ==> ActiveIsOpen(SwitchScope(s, requested))
  {
    if s.scope.project != requested.project {
      ChangingProjectLands(s, requested);
      LandedIsOpen(SwitchScope(s, requested));
    }
  }

  function Run(start: State, actions: seq<Action>): State {
    After((s: State, a: Action) => Apply(s, a), start, actions)
  }

  lemma RunOneMore(start: State, actions: seq<Action>)
    requires actions != []
    ensures Run(start, actions) == Apply(Run(start, actions[..|actions| - 1]), actions[|actions| - 1])
  {
  }

  ghost predicate IsInitial(s: State) {
    s == DEFAULT_STATE || exists resource :: s == WithInitialEditor(resource)
  }

  lemma InitialIsWellTabbed(s: State)
    requires IsInitial(s)
    ensures WellTabbed(s.editors) && ActiveIsOpen(s)
  {
    assert s.editors[0].id == s.activeEditor.value;
  }

  /** In every run the identifiers are distinct and equal to their keys, and previews never pile up. */
  lemma {:induction false} EveryRunKeepsTabs(start: State, actions: seq<Action>)
    requires IsInitial(start)
    ensures WellTabbed(Run(start, actions).editors) && FewPreviews(Run(start, actions).editors)
  {
    hide Apply, WellTabbed;
    if actions == [] {
      InitialIsWellTabbed(start);
    } else {
      EveryRunKeepsTabs(start, actions[..|actions| - 1]);
      StepKeepsTabs(Run(start, actions[..|actions| - 1]), actions[|actions| - 1]);
      RunOneMore(start, actions);
    }
    WellTabbedHasFewPreviews(Run(start, actions).editors);
  }

  /** If every `UnpinEditor` names a tab that is open at the time, the active editor always is one. */
  lemma {:induction false} EveryRunKeepsActiveOpen(start: State, actions: seq<Action>)
    requires IsInitial(start)
    requires forall i :: 0 <= i < |actions| && actions[i].UnpinEditor? ==>
      IsOpen(Run(start, actions[..i]).editors, actions[i].unpinId)
    ensures ActiveIsOpen(Run(start, actions))
  {
    hide Apply, WellTabbed, IsOpen, FewPreviews;
    if actions == [] {
      InitialIsWellTabbed(start);
    } else {
      var before := actions[..|actions| - 1];
      forall i | 0 <= i < |before| && before[i].UnpinEditor?
        ensures IsOpen(Run(start, before[..i]).editors, before[i].unpinId)
      {
        assert before[..i] == actions[..i] && before[i] == actions[i];
      }
      EveryRunKeepsActiveOpen(start, before);
      EveryRunKeepsTabs(start, before);
      StepKeepsTabs(Run(start, before), actions[|actions| - 1]);
      RunOneMore(start, actions);
    }
  }

  /** The provision is needed: unpinning a tab that is not open drops the default state's only tab. */
  lemma UnpinningAClosedTabDangles(id: string)
    requires id != StableKey(FailureInbox)
    ensures Apply(DEFAULT_STATE, UnpinEditor(id)).editors == []
    ensures !ActiveIsOpen(Apply(DEFAULT_STATE, UnpinEditor(id)))
  {
  }

  // -------------------------------------------------------------------- contexts

  /** The action leaves `project` for another scope. */
  predicate Leaves(s: State, action: Action, project: string) {
    s.scope.project == Project(project) && action.SetScope? && action.requested.project != Project(project)
  }

  function SavedContext(s: State, project: string): Option<ProjectContext> {
    if project in s.projectContexts then Some(s.projectContexts[project]) else None
  }

  lemma SwitchingKeepsContexts(s: State, requested: QueryScope)
    ensures s.scope.project != requested.project ==>
      SwitchScope(s, requested).projectContexts == Leave(s).projectContexts
    ensures s.scope.project == requested.project ==> SwitchScope(s, requested).projectContexts == s.projectContexts
  {
  }

  /** A project's saved context changes only when that project is left, and then becomes what is left. */
  lemma ContextChangesOnlyOnLeaving(s: State, action: Action, project: string)
    ensures SavedContext(Apply(s, action), project)
      == if Leaves(s, action, project) then Some(ContextOf(s)) else SavedContext(s, project)
  {
    hide SwitchScope, Open, Activate, Pin, Unpin, Close, UpdateSelection;
    match action
    case SetScope(requested) => SwitchingKeepsContexts(s, requested);
    case _ => OthersKeepContexts(s, action);
  }

  lemma OthersKeepContexts(s: State, action: Action)
    requires !action.SetScope?
    ensures Apply(s, action).projectContexts == s.projectContexts
  {
  }

  /** Through a run in which the project is not entered, what was saved for it stays. */
  lemma {:induction false} ContextSurvivesAbsence(start: State, actions: seq<Action>, project: string)
    requires forall i :: 0 <= i < |actions| ==> Run(start, actions[..i]).scope.project != Project(project)
    ensures SavedContext(Run(start, actions), project) == SavedContext(start, project)
  {
    hide Apply, SavedContext;
    if actions != [] {
      var before, last := actions[..|actions| - 1], |actions| - 1;
      forall i | 0 <= i < |before| ensures Run(start, before[..i]).scope.project != Project(project) {
        assert before[..i] == actions[..i];
      }
      ContextSurvivesAbsence(start, before, project);
      assert actions[..last] == before;
      ContextChangesOnlyOnLeaving(Run(start, before), actions[last], project);
      RunOneMore(start, actions);
    }
  }

  lemma ReturnRestores(s: State, requested: QueryScope, context: ProjectContext)
    requires WellTabbed(s.editors) && s.scope.project != requested.project && requested.project.Project?
    requires SavedContext(s, requested.project.id) == Some(context)
    ensures var r := SwitchScope(s, requested);
      && r.scope == QueryScope(
        requested.project, context.environment, context.build, context.session, context.timeRange)
      && r.panes == context.panes
  {
  }

  /**
   Leaving a project and coming back, whatever is done meanwhile in other scopes and whatever else the
   request to come back names, restores its environment, build, session, time range and panes as left.
   */
  lemma ReturningRestoresTheProject(
      s: State, leaving: QueryScope, meanwhile: seq<Action>, returning: QueryScope)
    requires WellTabbed(s.editors) && s.scope.project.Project?
    requires leaving.project != s.scope.project && returning.project == s.scope.project
    requires forall i :: 0 <= i <= |meanwhile| ==>
      Run(Apply(s, SetScope(leaving)), meanwhile[..i]).scope.project != s.scope.project
    ensures var back := Apply(Run(Apply(s, SetScope(leaving)), meanwhile), SetScope(returning));
      back.scope == s.scope && back.panes == s.panes && Landed(back)
  {
    hide Run, WellTabbed, SwitchScope, Landed;
    var away := Apply(s, SetScope(leaving));
    var before := Run(away, meanwhile);
    assert meanwhile[..|meanwhile|] == meanwhile;
    ContextChangesOnlyOnLeaving(s, SetScope(leaving), s.scope.project.id);
    ContextSurvivesAbsence(away, meanwhile, s.scope.project.id);
    StepKeepsTabs(s, SetScope(leaving));
    RunKeepsTabs(away, meanwhile);
    ReturnRestores(before, returning, ContextOf(s));
    ChangingProjectLands(before, returning);
    LandedIgnoresSelection(SwitchScope(before, returning));
  }

  lemma LandedIgnoresSelection(s: State)
    ensures Landed(s.(selectedGroups := {})) == Landed(s)
  {
  }

  lemma {:induction false} RunKeepsTabs(start: State, actions: seq<Action>)
    requires WellTabbed(start.editors)
    ensures WellTabbed(Run(start, actions).editors)
  {
    hide Apply, WellTabbed;
    if actions != [] {
      RunKeepsTabs(start, actions[..|actions| - 1]);
      StepKeepsTabs(Run(start, actions[..|actions| - 1]), actions[|actions| - 1]);
      RunOneMore(start, actions);
    }
  }

  /** A scope without a saved context starts otherwise empty and takes over the panes. */
  lemma FirstVisitKeepsPanes(s: State, requested: QueryScope)
    requires WellTabbed(s.editors) && s.scope.project != requested.project
    requires requested.project.Project? ==> SavedContext(s, requested.project.id).None?
    ensures var r := SwitchScope(s, requested);
      r.scope == DEFAULT_SCOPE.(project := requested.project) && r.panes == s.panes
  {
  }

  /**
   Entering a project for the first time in a run, whatever other scopes were visited before and whatever
   else the request names, starts from an empty scope, keeps the panes and lands on a visible tab.
   */
  lemma FirstVisitInARun(start: State, actions: seq<Action>, requested: QueryScope)
    requires IsInitial(start) && requested.project.Project?
    requires forall i :: 0 <= i <= |actions| ==> Run(start, actions[..i]).scope.project != requested.project
    ensures var before := Run(start, actions);
      var entered := Apply(before, SetScope(requested));
      && entered.scope == DEFAULT_SCOPE.(project := requested.project)
      && entered.panes == before.panes && Landed(entered)
  {
    hide Run, WellTabbed, SwitchScope, Landed, FewPreviews;
    var before := Run(start, actions);
    assert actions[..|actions|] == actions;
    EveryRunKeepsTabs(start, actions);
    ContextSurvivesAbsence(start, actions, requested.project.id);
    assert SavedContext(start, requested.project.id).None?;
    FirstVisitKeepsPanes(before, requested);
    ChangingProjectLands(before, requested);
    LandedIgnoresSelection(SwitchScope(before, requested));
  }

  // ----------------------------------------------------------------------- panes

  predicate InBounds(panes: PaneLayout) {
    && 220.0 <= panes.sidebarWidth <= 480.0
    && 280.0 <= panes.inspectorWidth <= 640.0
    && 140.0 <= panes.bottomHeight <= 520.0
  }

  predicate AllInBounds(s: State) {
    InBounds(s.panes) && forall project :: project in s.projectContexts ==> InBounds(s.projectContexts[project].panes)
  }

  lemma SwitchingKeepsBounds(s: State, requested: QueryScope)
    requires WellTabbed(s.editors) && AllInBounds(s)
    ensures AllInBounds(SwitchScope(s, requested))
  {
    hide RestoreEditor, KeepGlobalTab, WellTabbed;
    SwitchingKeepsContexts(s, requested);
    var left := Leave(s);
    assert AllInBounds(left);
    if s.scope.project != requested.project {
      if requested.project.Project? && requested.project.id in left.projectContexts {
        var context := left.projectContexts[requested.project.id];
        assert SavedContext(s, requested.project.id) == Some(context);
        ReturnRestores(s, requested, context);
      } else {
        FirstVisitKeepsPanes(s, requested);
      }
    }
  }

  lemma StepKeepsBounds(s: State, action: Action)
    requires WellTabbed(s.editors) && AllInBounds(s)
    ensures AllInBounds(Apply(s, action))
  {
    hide SwitchScope, WellTabbed, Opened, FirstIndex, Filter;
    match action
    case SetScope(requested) => SwitchingKeepsBounds(s, requested);
    case _ => OthersKeepContexts(s, action);
  }

  /** However panes are resized, reset and restored with their projects, their sizes stay within bounds. */
  lemma {:induction false} EveryRunKeepsPanesInBounds(start: State, actions: seq<Action>)
    requires IsInitial(start)
    ensures InBounds(Run(start, actions).panes)
    ensures AllInBounds(Run(start, actions))
  {
    hide Apply, WellTabbed, FewPreviews;
    if actions != [] {
      var before := actions[..|actions| - 1];
      EveryRunKeepsPanesInBounds(start, before);
      EveryRunKeepsTabs(start, before);
      StepKeepsBounds(Run(start, before), actions[|actions| - 1]);
      RunOneMore(start, actions);
    }
  }

  // --------------------------------------------------------------------- opening

  /** An opened resource is shown in the active tab, which is pinned if it was or is to be. */
  lemma OpenShowsTheResource(s: State, resource: EditorResource, pinned: bool)
    requires WellTabbed(s.editors)
    ensures var r := Open(s, resource, pinned);
      var before := TabAt(s.editors, Some(StableKey(resource)));
      && ActiveTab(r) == Some(Tab(StableKey(resource), resource, pinned || (before.Some? && before.value.pinned)))
      && r.activeActivity == Activity(Kind(resource)) && r.focus == Editor
  {
    hide WorkbenchState.StableKey;
    var key := StableKey(resource);
    var after := Opened(s.editors, resource, pinned);
    OpenedIsWellTabbed(s.editors, resource, pinned);
    IdsOfTabs(after, key);
    var at := OpenedAt(s.editors, resource, pinned);
    assert after[at] in after;
  }

  /** Where the opened resource's tab ends up. */
  function OpenedAt(editors: seq<Tab>, resource: EditorResource, pinned: bool): (at: nat)
    ensures at < |Opened(editors, resource, pinned)| && at <= |editors|
    ensures Opened(editors, resource, pinned)[at].id == StableKey(resource)
    ensures Opened(editors, resource, pinned)[at].resource == resource
  {
    match FirstIndex(editors, HasId(StableKey(resource)))
    case Some(i) => i
    case None =>
      if pinned then |editors|
      else match FirstIndex(editors, IsPreview()) case Some(i) => i case None => |editors|
  }

  /** Opening touches one place: every tab elsewhere stays as it is, and at most a preview gives way. */
  lemma OpenKeepsOtherTabs(s: State, resource: EditorResource, pinned: bool, i: nat)
    requires WellTabbed(s.editors) && i < |s.editors|
    ensures var after := Open(s, resource, pinned).editors;
      && |s.editors| <= |after| <= |s.editors| + 1
      && (i != OpenedAt(s.editors, resource, pinned) ==> after[i] == s.editors[i])
      && (s.editors[i].pinned ==> after[i].id == s.editors[i].id && after[i].pinned)
  {
  }

  /** Opening the same resource again changes nothing. */
  lemma OpenIsIdempotent(s: State, resource: EditorResource, pinned: bool)
    requires WellTabbed(s.editors)
    ensures Open(Open(s, resource, pinned), resource, pinned) == Open(s, resource, pinned)
  {
    hide WorkbenchState.StableKey;
    var once := Open(s, resource, pinned);
    OpenShowsTheResource(s, resource, pinned);
    var found := FirstIndex(once.editors, HasId(StableKey(resource)));
    FoundIsOpen(once.editors, StableKey(resource));
    var tab := once.editors[found.value];
    assert once.editors[found.value := tab] == once.editors;
  }

  // -------------------------------------------------------------------- activity

  /** The active activity is the one the active tab's resource belongs to. */
  predicate ActivityMatches(s: State) {
    ActiveTab(s).Some? ==> s.activeActivity == Activity(Kind(ActiveTab(s).value.resource))
  }

  /** The activity of every resource with that key. */
  ghost predicate FitsKey(activity: ActivityId, key: string) {
    forall r :: StableKey(r) == key ==> activity == Activity(Kind(r))
  }

  /** The activity fits the active identifier, whether or not its tab is open. */
  ghost predicate ActivityFits(s: State) {
    s.activeEditor.Some? ==> FitsKey(s.activeActivity, s.activeEditor.value)
  }

  ghost predicate ContextsFit(s: State) {
    forall project :: project in s.projectContexts && s.projectContexts[project].activeEditor.Some? ==>
      FitsKey(s.projectContexts[project].activeActivity, s.projectContexts[project].activeEditor.value)
  }

  /** Closing the active editor makes the last tab active but leaves the activity alone. */
  predicate LeavesActivityBehind(s: State, action: Action) {
    && action.CloseEditor? && s.activeEditor == Some(action.closeId)
    && var kept := Filter(s.editors, LacksId(action.closeId));
       kept != [] && s.activeActivity != Activity(Kind(kept[|kept| - 1].resource))
  }

  lemma FitsItsKey(activity: ActivityId, r: EditorResource)
    ensures FitsKey(activity, StableKey(r)) <==> activity == Activity(Kind(r))
  {
    hide WorkbenchState.StableKey, Activity, Kind;
    forall other | StableKey(other) == StableKey(r) ensures Activity(Kind(other)) == Activity(Kind(r)) {
      KeyTellsActivity(other, r);
    }
  }

  lemma TabFits(editors: seq<Tab>, i: nat, activity: ActivityId)
    requires Keyed(editors) && i < |editors|
    ensures FitsKey(activity, editors[i].id) <==> activity == Activity(Kind(editors[i].resource))
  {
    FitsItsKey(activity, editors[i].resource);
  }

  lemma FitsMeansMatches(s: State)
    requires WellTabbed(s.editors)
    ensures ActiveTab(s).Some? ==> (ActivityFits(s) <==> ActivityMatches(s))
    ensures ActivityFits(s) ==> ActivityMatches(s)
  {
    hide WorkbenchState.StableKey, FitsKey;
    if ActiveTab(s).Some? {
      var found := FirstIndex(s.editors, HasId(s.activeEditor.value));
      assert HasId(s.activeEditor.value)(s.editors[found.value]);
      TabFits(s.editors, found.value, s.activeActivity);
    }
  }

  lemma UnpinKeepsActivity(s: State, id: string)
    requires WellTabbed(s.editors) && ActivityFits(s)
    ensures ActivityFits(Unpin(s, id))
  {
    hide FitsKey;
    var kept := Filter(s.editors, IsPinnedOr(id));
    FilterIsWellTabbed(s.editors, IsPinnedOr(id));
    var found := FirstIndex(kept, HasId(id));
    if found.Some? {
      assert HasId(id)(kept[found.value]);
      TabFits(kept, found.value, Activity(Kind(kept[found.value].resource)));
    }
  }

  lemma ActivateKeepsActivity(s: State, id: string)
    requires WellTabbed(s.editors) && ActivityFits(s)
    ensures ActivityFits(Activate(s, id))
  {
    hide FitsKey;
    var found := FirstIndex(s.editors, HasId(id));
    if found.Some? {
      assert HasId(id)(s.editors[found.value]);
      TabFits(s.editors, found.value, Activity(Kind(s.editors[found.value].resource)));
    }
  }

  lemma CloseKeepsActivity(s: State, id: string)
    requires WellTabbed(s.editors) && ActivityFits(s)
    ensures ActivityFits(Close(s, id)) <==> !LeavesActivityBehind(s, CloseEditor(id))
    ensures ActivityMatches(Close(s, id)) <==> !LeavesActivityBehind(s, CloseEditor(id))
  {
    hide FitsKey, ActivityMatches;
    var kept := Filter(s.editors, LacksId(id));
    FilterIsWellTabbed(s.editors, LacksId(id));
    if kept != [] {
      TabFits(kept, |kept| - 1, s.activeActivity);
      assert kept[|kept| - 1] in kept;
      IdsOfTabs(kept, kept[|kept| - 1].id);
    }
    FitsMeansMatches(Close(s, id));
  }

  lemma KeepGlobalTabKeepsActivity(s: State)
    requires WellTabbed(s.editors) && ActivityFits(s)
    ensures ActivityFits(KeepGlobalTab(s))
  {
    hide FitsKey;
    WithInboxKeepsTabs(s);
    FitsItsKey(Failures, FailureInbox);
  }

  lemma RestoredActivityFits(s: State, context: ProjectContext, project: string)
    requires WellTabbed(s.editors) && s.scope.project == Project(project) && s.activeActivity == context.activeActivity
    requires context.activeEditor.Some? ==> FitsKey(context.activeActivity, context.activeEditor.value)
    ensures ActivityFits(RestoreEditor(s, context, project))
  {
    hide WellTabbed, WithInbox, WorkbenchState.StableKey, FitsKey;
    RestoreEditorLands(s, context, project);
    FitsMeansMatches(RestoreEditor(s, context, project));
  }

  lemma SwitchingKeepsActivity(s: State, requested: QueryScope)
    requires WellTabbed(s.editors) && ActivityFits(s) && ContextsFit(s)
    ensures ActivityFits(SwitchScope(s, requested)) && ContextsFit(SwitchScope(s, requested))
  {
    hide RestoreEditor, KeepGlobalTab, WellTabbed, FitsKey;
    SwitchingKeepsContexts(s, requested);
    var left := Leave(s);
    assert ContextsFit(left);
    if s.scope.project != requested.project {
      match requested.project
      case AllProjects => KeepGlobalTabKeepsActivity(left.(scope := DEFAULT_SCOPE));
      case Project(project) =>
        if project in left.projectContexts {
          var context := left.projectContexts[project];
          var scope := QueryScope(
            Project(project), context.environment, context.build, context.session, context.timeRange);
          RestoredActivityFits(
            left.(scope := scope, activeActivity := context.activeActivity, panes := context.panes), context, project);
        } else {
          KeepGlobalTabKeepsActivity(left.(scope := DEFAULT_SCOPE.(project := requested.project)));
        }
    }
  }

  lemma StepKeepsFit(s: State, action: Action)
    requires WellTabbed(s.editors) && ActivityFits(s) && ContextsFit(s)
    ensures ContextsFit(Apply(s, action))
    ensures ActivityFits(Apply(s, action)) <==> !LeavesActivityBehind(s, action)
  {
    hide WellTabbed, SwitchScope, Activate, Unpin, Close, Opened, UpdateSelection, Pin, FitsKey;
    match action
    case OpenEditor(resource, _) =>
      FitsItsKey(Activity(Kind(resource)), resource);
      OthersKeepContexts(s, action);
    case ActivateEditor(id) =>
      ActivateKeepsActivity(s, id);
      OthersKeepContexts(s, action);
    case PinEditor(id) =>
      ActiveUntouched(s, action);
      OthersKeepContexts(s, action);
    case UpdateActiveFullTraceSelection(_) =>
      ActiveUntouched(s, action);
      OthersKeepContexts(s, action);
    case UnpinEditor(id) =>
      UnpinKeepsActivity(s, id);
      OthersKeepContexts(s, action);
    case CloseEditor(id) =>
      CloseKeepsActivity(s, id);
      OthersKeepContexts(s, action);
    case SetScope(requested) => SwitchingKeepsActivity(s, requested);
    case _ => OthersKeepContexts(s, action);
  }

  lemma ActiveUntouched(s: State, action: Action)
    requires action.PinEditor? || action.UpdateActiveFullTraceSelection?
    ensures Apply(s, action).activeEditor == s.activeEditor && Apply(s, action).activeActivity == s.activeActivity
  {
  }

  /** The activity follows the active tab through every step but closing it onto a tab of another activity. */
  lemma StepKeepsActivity(s: State, action: Action)
    requires WellTabbed(s.editors) && ActivityFits(s) && ContextsFit(s)
    ensures ActivityMatches(Apply(s, action)) <==> !LeavesActivityBehind(s, action)
  {
    hide WellTabbed, Apply, Close, ActivityMatches, ActivityFits;
    StepKeepsFit(s, action);
    StepKeepsTabs(s, action);
    FitsMeansMatches(Apply(s, action));
    if action.CloseEditor? {
      CloseIsApplied(s, action.closeId);
      CloseKeepsActivity(s, action.closeId);
    } else {
      NothingElseLeavesActivityBehind(s, action);
    }
  }

  lemma CloseIsApplied(s: State, id: string)
    ensures Apply(s, CloseEditor(id)) == Close(s, id)
  {
  }

  lemma NothingElseLeavesActivityBehind(s: State, action: Action)
    requires !action.CloseEditor?
    ensures !LeavesActivityBehind(s, action)
  {
  }

  /** Over runs without such a step the activity is always the active tab's. */
  lemma {:induction false} EveryRunKeepsActivity(start: State, actions: seq<Action>)
    requires IsInitial(start)
    requires forall i :: 0 <= i < |actions| ==> !LeavesActivityBehind(Run(start, actions[..i]), actions[i])
    ensures ActivityMatches(Run(start, actions))
    ensures ActivityFits(Run(start, actions)) && ContextsFit(Run(start, actions))
  {
    hide Apply, WellTabbed, FewPreviews, LeavesActivityBehind, ActivityMatches, ActivityFits, ContextsFit;
    if actions == [] {
      InitialActivityFits(start);
    } else {
      var before, last := actions[..|actions| - 1], |actions| - 1;
      forall i | 0 <= i < |before| ensures !LeavesActivityBehind(Run(start, before[..i]), before[i]) {
        assert before[..i] == actions[..i] && before[i] == actions[i];
      }
      EveryRunKeepsActivity(start, before);
      EveryRunKeepsTabs(start, before);
      assert actions[..last] == before;
      StepKeepsFit(Run(start, before), actions[last]);
      RunOneMore(start, actions);
    }
    EveryRunKeepsTabs(start, actions);
    FitsMeansMatches(Run(start, actions));
  }

  lemma InitialActivityFits(s: State)
    requires IsInitial(s)
    ensures ActivityFits(s) && ContextsFit(s)
  {
    hide FitsKey;
    FitsItsKey(s.activeActivity, s.editors[0].resource);
  }

  /** The provision is needed: closing the settings opened over the failure inbox leaves the settings activity. */
  lemma ClosingLeavesTheActivityBehind()
    ensures var s := Apply(Apply(DEFAULT_STATE, OpenEditor(SettingsPage, true)), CloseEditor("settings"));
      s.activeEditor == Some("failure-inbox") && s.activeActivity == Settings && !ActivityMatches(s)
  {
  }
}
