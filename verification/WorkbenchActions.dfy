/** What a user of the workbench sees of each action, and how long a pinned tab stays. */
module WorkbenchActions {
  import opened Lists
  import opened Options
  import opened Workbench
  import opened WorkbenchState

  // ---------------------------------------------------------------------- tabs

  /** Activating shows the open tab with that identifier and touches nothing else; a closed one changes nothing. */
  lemma ActivatingShowsTheTab(s: State, id: string)
    requires WellTabbed(s.editors)
    ensures var r := Apply(s, ActivateEditor(id));
      if !IsOpen(s.editors, id) then r == s
      else
        && r == s.(activeEditor := Some(id), activeActivity := r.activeActivity, focus := Editor)
        && ActiveTab(r).Some? && ActiveTab(r).value in s.editors && ActiveTab(r).value.id == id
        && ActivityMatches(r)
  {
    IdsOfTabs(s.editors, id);
  }

  /** The same tab but for its pin. */
  predicate SameButPinned(after: Tab, before: Tab) {
    after.id == before.id && after.resource == before.resource && after.pinned
  }

  /** Pinning pins the open tab with that identifier where it stands and touches nothing else. */
  lemma PinningKeepsTheTab(s: State, id: string, i: nat)
    requires WellTabbed(s.editors) && i < |s.editors|
    ensures var r := Apply(s, PinEditor(id));
      && |r.editors| == |s.editors| && r == s.(editors := r.editors)
      && if s.editors[i].id == id then SameButPinned(r.editors[i], s.editors[i]) else r.editors[i] == s.editors[i]
  {
    match FirstIndex(s.editors, HasId(id))
    case None =>
    case Some(at) =>
      PairAgrees(s.editors, at, i);
      PairAgrees(s.editors, i, at);
  }

  lemma PinningAClosedTabDoesNothing(s: State, id: string)
    requires !IsOpen(s.editors, id)
    ensures Apply(s, PinEditor(id)) == s
  {
  }

  /** Closing takes out the tab with that identifier and no other; if it was active, the last one left is next. */
  lemma ClosingRemovesTheTab(s: State, id: string)
    requires WellTabbed(s.editors)
    ensures var r := Apply(s, CloseEditor(id));
      && (forall tab :: tab in r.editors <==> tab in s.editors && tab.id != id)
      && WellTabbed(r.editors)
      && (s.activeEditor != Some(id) ==> r.activeEditor == s.activeEditor)
      && (s.activeEditor == Some(id) && r.editors == [] ==> r.activeEditor == None)
      && (s.activeEditor == Some(id) && r.editors != [] ==>
            r.activeEditor == Some(r.editors[|r.editors| - 1].id))
      && r == s.(editors := r.editors, activeEditor := r.activeEditor, focus := EditorTabs)
  {
    hide Lists.Filter, WellTabbed;
    forall tab ensures tab in Apply(s, CloseEditor(id)).editors <==> tab in s.editors && tab.id != id {
      InFilter(s.editors, LacksId(id), tab);
    }
    FilterIsWellTabbed(s.editors, LacksId(id));
  }

  lemma UnpinningIsAChangeOfOneTab(s: State, id: string)
    requires IsOpen(s.editors, id)
    ensures var kept := Filter(s.editors, IsPinnedOr(id));
      var at := FirstIndex(kept, HasId(id));
      && at.Some? && kept[at.value].id == id && kept[at.value] in s.editors
      && Apply(s, UnpinEditor(id)).editors == kept[at.value := kept[at.value].(pinned := false)]
      && Apply(s, UnpinEditor(id)).activeEditor == Some(id)
      && Apply(s, UnpinEditor(id)).activeActivity == Activity(Kind(kept[at.value].resource))
      && FirstIndex(kept[at.value := kept[at.value].(pinned := false)], HasId(id)) == at
  {
    var kept := Filter(s.editors, IsPinnedOr(id));
    var open :| 0 <= open < |s.editors| && s.editors[open].id == id;
    InFilter(s.editors, IsPinnedOr(id), s.editors[open]);
    var at := FirstIndex(kept, HasId(id)).value;
    InFilter(s.editors, IsPinnedOr(id), kept[at]);
    SameFirst(kept, at, kept[at].(pinned := false), id);
  }

  lemma SameFirst(editors: seq<Tab>, at: nat, tab: Tab, id: string)
    requires FirstIndex(editors, HasId(id)) == Some(at) && tab.id == id
    ensures FirstIndex(editors[at := tab], HasId(id)) == Some(at)
  {
    var found := FirstIndex(editors[at := tab], HasId(id));
    assert editors[at := tab][at] == tab;
  }

  /** Changing one tab leaves the membership of all others. */
  lemma OthersStay(editors: seq<Tab>, at: nat, after: Tab, tab: Tab)
    requires at < |editors| && after.id == editors[at].id && tab.id != after.id
    ensures tab in editors[at := after] <==> tab in editors
  {
    if tab in editors {
      var j :| 0 <= j < |editors| && editors[j] == tab;
      assert editors[at := after][j] == tab;
    }
  }

  /** Unpinning an open tab makes it the one preview, and the active one; pinned tabs all stay. */
  lemma UnpinningMakesThePreview(s: State, id: string)
    requires IsOpen(s.editors, id)
    ensures var r := Apply(s, UnpinEditor(id));
      && (forall tab: Tab :: tab.id != id ==> (tab in r.editors <==> tab in s.editors && tab.pinned))
      && r.activeEditor == Some(id) && ActiveTab(r).Some? && !ActiveTab(r).value.pinned
      && (exists tab :: tab in s.editors && tab.id == id && ActiveTab(r).value == tab.(pinned := false))
      && ActivityMatches(r)
  {
    hide Apply, Activity, Lists.Filter, Lists.FirstIndex;
    var kept := Filter(s.editors, IsPinnedOr(id));
    UnpinningIsAChangeOfOneTab(s, id);
    var at := FirstIndex(kept, HasId(id)).value;
    var after := kept[at].(pinned := false);
    forall tab: Tab | tab.id != id ensures tab in kept[at := after] <==> tab in s.editors && tab.pinned {
      InFilter(s.editors, IsPinnedOr(id), tab);
      OthersStay(kept, at, after, tab);
    }
  }

  // ------------------------------------------------------------ how long pins last

  predicate StaysPinned(editors: seq<Tab>, id: string) {
    exists i :: 0 <= i < |editors| && editors[i].id == id && editors[i].pinned
  }

  lemma PinnedThroughOpen(s: State, resource: EditorResource, pinned: bool, id: string)
    requires WellTabbed(s.editors) && StaysPinned(s.editors, id)
    ensures StaysPinned(Apply(s, OpenEditor(resource, pinned)).editors, id)
  {
    var i :| 0 <= i < |s.editors| && s.editors[i].id == id && s.editors[i].pinned;
    OpenKeepsOtherTabs(s, resource, pinned, i);
    var after := Apply(s, OpenEditor(resource, pinned)).editors;
    assert after[i].id == id && after[i].pinned;
  }

  lemma PinnedThroughFilter(editors: seq<Tab>, keep: Tab -> bool, id: string)
    requires StaysPinned(editors, id) && forall tab: Tab :: tab.id == id && tab.pinned ==> keep(tab)
    ensures StaysPinned(Filter(editors, keep), id)
  {
    var i :| 0 <= i < |editors| && editors[i].id == id && editors[i].pinned;
    InFilter(editors, keep, editors[i]);
    assert editors[i] in Filter(editors, keep);
  }

  lemma InboxIsOneMore(s: State)
    ensures s.editors <= WithInbox(s).0.editors && |WithInbox(s).0.editors| <= |s.editors| + 1
    ensures WithInbox(s).0 == s.(editors := WithInbox(s).0.editors)
  {
  }

  lemma RestoringIsOneMore(s: State, context: ProjectContext, project: string)
    ensures s.editors <= RestoreEditor(s, context, project).editors
    ensures |RestoreEditor(s, context, project).editors| <= |s.editors| + 1
    ensures RestoreEditor(s, context, project).scope == s.scope
  {
    hide WithInbox;
    InboxIsOneMore(s);
  }

  /** A change of scope clears the bulk selection and takes away none of the tabs that were open. */
  lemma SwitchingKeepsOpenTabs(s: State, requested: QueryScope)
    ensures var r := Apply(s, SetScope(requested));
      && s.editors <= r.editors && |r.editors| <= |s.editors| + 1
      && r.selectedGroups == {} && r.scope.project == requested.project
  {
    hide WithInbox, RestoreEditor;
    if s.scope.project != requested.project {
      var left := Leave(s);
      InboxIsOneMore(left.(scope := DEFAULT_SCOPE.(project := requested.project)));
      if requested.project.Project? && requested.project.id in left.projectContexts {
        var project := requested.project.id;
        var context := left.projectContexts[project];
        var scope := QueryScope(
          Project(project), context.environment, context.build, context.session, context.timeRange);
        RestoringIsOneMore(
          left.(scope := scope, activeActivity := context.activeActivity, panes := context.panes), context, project);
      }
    }
  }

  lemma PinnedThroughUnpin(s: State, other: string, id: string)
    requires StaysPinned(s.editors, id) && other != id
    ensures StaysPinned(Apply(s, UnpinEditor(other)).editors, id)
  {
    PinnedThroughFilter(s.editors, IsPinnedOr(other), id);
    var kept, after := Filter(s.editors, IsPinnedOr(other)), Apply(s, UnpinEditor(other)).editors;
    var j :| 0 <= j < |kept| && kept[j].id == id && kept[j].pinned;
    assert after[j] == kept[j];
  }

  lemma PinnedThroughSelection(s: State, span: Option<string>, id: string)
    requires StaysPinned(s.editors, id)
    ensures StaysPinned(Apply(s, UpdateActiveFullTraceSelection(span)).editors, id)
  {
    var i :| 0 <= i < |s.editors| && s.editors[i].id == id && s.editors[i].pinned;
    var after := Apply(s, UpdateActiveFullTraceSelection(span)).editors;
    assert after[i].id == id && after[i].pinned;
  }

  lemma PinnedThroughPin(s: State, other: string, id: string)
    requires WellTabbed(s.editors) && StaysPinned(s.editors, id)
    ensures StaysPinned(Apply(s, PinEditor(other)).editors, id)
  {
    var i :| 0 <= i < |s.editors| && s.editors[i].id == id && s.editors[i].pinned;
    PinningKeepsTheTab(s, other, i);
    var after := Apply(s, PinEditor(other)).editors;
    assert after[i].id == id && after[i].pinned;
  }

  lemma OtherActionsKeepTabs(s: State, action: Action)
    requires !(action.OpenEditor? || action.PinEditor? || action.UnpinEditor? || action.CloseEditor?)
    requires !(action.SetScope? || action.UpdateActiveFullTraceSelection?)
    ensures Apply(s, action).editors == s.editors
  {
  }

  lemma PinnedThroughStep(s: State, action: Action, id: string)
    requires WellTabbed(s.editors) && StaysPinned(s.editors, id)
    requires action != CloseEditor(id) && action != UnpinEditor(id)
    ensures StaysPinned(Apply(s, action).editors, id)
  {
    hide WellTabbed;
    match action
    case OpenEditor(resource, pinned) => PinnedThroughOpen(s, resource, pinned, id);
    case PinEditor(other) => PinnedThroughPin(s, other, id);
    case CloseEditor(other) => PinnedThroughFilter(s.editors, LacksId(other), id);
    case UnpinEditor(other) => PinnedThroughUnpin(s, other, id);
    case UpdateActiveFullTraceSelection(span) => PinnedThroughSelection(s, span, id);
    case SetScope(requested) =>
      hide Apply;
      SwitchingKeepsOpenTabs(s, requested);
      var i :| 0 <= i < |s.editors| && s.editors[i].id == id && s.editors[i].pinned;
      assert Apply(s, action).editors[i] == s.editors[i];
    case _ => OtherActionsKeepTabs(s, action);
  }

  /** Only closing or unpinning it takes a pinned tab away, whatever else is opened, closed and switched to. */
  lemma {:induction false} PinnedTabsStay(s: State, actions: seq<Action>, id: string)
    requires WellTabbed(s.editors) && StaysPinned(s.editors, id)
    requires CloseEditor(id) !in actions && UnpinEditor(id) !in actions
    ensures StaysPinned(Run(s, actions).editors, id)
    decreases |actions|
  {
    if actions != [] {
      var front, last := actions[..|actions| - 1], actions[|actions| - 1];
      assert actions == front + [last];
      PinnedTabsStay(s, front, id);
      RunKeepsTabs(s, front);
      RunOneMore(s, actions);
      PinnedThroughStep(Run(s, front), last, id);
    }
  }

  // --------------------------------------------------------------------- panes

  function SizeOf(panes: PaneLayout, pane: PaneId): real {
    match pane
    case PrimarySidebar => panes.sidebarWidth
    case Inspector => panes.inspectorWidth
    case BottomPanel => panes.bottomHeight
  }

  function IsVisible(panes: PaneLayout, pane: PaneId): bool {
    match pane
    case PrimarySidebar => panes.sidebarVisible
    case Inspector => panes.inspectorVisible
    case BottomPanel => panes.bottomVisible
  }

  predicate Allowed(pane: PaneId, size: real) {
    match pane
    case PrimarySidebar => 220.0 <= size <= 480.0
    case Inspector => 280.0 <= size <= 640.0
    case BottomPanel => 140.0 <= size <= 520.0
  }

  function Distance(a: real, b: real): real {
    if a < b then b - a else a - b
  }

  /** A pane takes the allowed size nearest to the one asked for; the other panes keep theirs. */
  lemma ResizingTakesTheNearestSize(s: State, pane: PaneId, size: real)
    ensures var r := Apply(s, ResizePane(pane, size));
      var taken := SizeOf(r.panes, pane);
      && Allowed(pane, taken)
      && (forall other :: Allowed(pane, other) ==> Distance(taken, size) <= Distance(other, size))
      && (forall other :: other != pane ==> SizeOf(r.panes, other) == SizeOf(s.panes, other))
      && (forall other :: IsVisible(r.panes, other) == IsVisible(s.panes, other))
      && r == s.(panes := r.panes)
  {
  }

  predicate FocusIsIn(focus: FocusRegion, pane: PaneId) {
    match pane
    case PrimarySidebar => focus == SidebarRegion
    case Inspector => focus == InspectorRegion
    case BottomPanel => focus == BottomRegion
  }

  /** Showing and hiding changes one pane; a hidden pane loses the focus to the editor, and nothing else moves it. */
  lemma HiddenPanesLoseTheFocus(s: State, pane: PaneId, visible: bool)
    ensures var r := Apply(s, SetPaneVisible(pane, visible));
      && IsVisible(r.panes, pane) == visible
      && (forall other :: other != pane ==> IsVisible(r.panes, other) == IsVisible(s.panes, other))
      && (forall other :: SizeOf(r.panes, other) == SizeOf(s.panes, other))
      && r.focus == (if FocusIsIn(s.focus, pane) && !visible then Editor else s.focus)
      && r == s.(panes := r.panes, focus := r.focus)
  {
  }

  // --------------------------------------------------------------- other actions

  /** Marking a group twice leaves the selection as it was; marking it once changes it alone. */
  lemma TogglingTwiceChangesNothing(s: State, group: string)
    ensures var r := Apply(s, ToggleFailureGroup(group));
      && (group in r.selectedGroups <==> group !in s.selectedGroups)
      && r.selectedGroups - {group} == s.selectedGroups - {group}
      && Apply(r, ToggleFailureGroup(group)) == s
  {
    var twice := Apply(Apply(s, ToggleFailureGroup(group)), ToggleFailureGroup(group));
    assert twice.selectedGroups == s.selectedGroups;
  }

  /** Selecting a span shows it in the active trace, under the same identifier, and nowhere else. */
  lemma SelectionIsShown(s: State, span: Option<string>)
    requires WellTabbed(s.editors)
    ensures var r := Apply(s, UpdateActiveFullTraceSelection(span));
      if ActiveTab(s).Some? && ActiveTab(s).value.resource.FullTrace? then
        && ActiveTab(r).Some? && ActiveTab(r).value.resource == ActiveTab(s).value.resource.(selectedSpanId := span)
        && (forall tab: Tab :: tab.id != ActiveTab(s).value.id ==> (tab in r.editors <==> tab in s.editors))
        && r == s.(editors := r.editors)
      else r == s
  {
    if ActiveTab(s).Some? && ActiveTab(s).value.resource.FullTrace? {
      var id := s.activeEditor.value;
      var at := FirstIndex(s.editors, HasId(id)).value;
      var after := Apply(s, UpdateActiveFullTraceSelection(span)).editors;
      assert after == s.editors[at := after[at]] && after[at].id == id;
      assert FirstIndex(after, HasId(id)) == Some(at);
      forall tab: Tab | tab.id != id ensures tab in after <==> tab in s.editors {
        if tab in s.editors {
          var j :| 0 <= j < |s.editors| && s.editors[j] == tab;
          assert after[j] == tab;
        }
      }
    }
  }

  // --------------------------------------------------------------------- scopes

  /** Going to a scope without a saved context keeps a tab that belongs to no project, and else shows the inbox. */
  lemma NewScopesKeepGlobalTabs(s: State, requested: QueryScope)
    requires WellTabbed(s.editors) && s.scope.project != requested.project
    requires requested.project.Project? ==> SavedContext(s, requested.project.id).None?
    ensures var r := Apply(s, SetScope(requested));
      if ActiveTab(s).Some? && ProjectOf(ActiveTab(s).value.resource).None? then
        r.editors == s.editors && r.activeEditor == s.activeEditor && r.activeActivity == s.activeActivity
      else
        ActiveTab(r).Some? && ActiveTab(r).value.resource == FailureInbox && r.activeActivity == Failures
  {
    if !(ActiveTab(s).Some? && ProjectOf(ActiveTab(s).value.resource).None?) {
      InboxIsFound(Leave(s).(scope := DEFAULT_SCOPE.(project := requested.project)));
    }
  }

  lemma InboxIsFound(s: State)
    requires WellTabbed(s.editors)
    ensures var (found, id) := WithInbox(s);
      TabAt(found.editors, Some(id)).Some? && TabAt(found.editors, Some(id)).value.resource == FailureInbox
  {
    hide WorkbenchState.StableKey;
    var (found, id) := WithInbox(s);
    WithInboxKeepsTabs(s);
    var inbox := FirstIndex(found.editors, IsInbox());
    IdsOfTabs(found.editors, id);
    FoundIsOpen(found.editors, id);
    InboxKeyIsUnique(TabAt(found.editors, Some(id)).value.resource);
  }

  /** Coming back to a project shows the tab it was left with, if that is still open and the project's to show. */
  lemma ReturningShowsTheTabAsLeft(s: State, requested: QueryScope, context: ProjectContext, i: nat)
    requires requested.project.Project? && s.scope.project != requested.project
    requires SavedContext(s, requested.project.id) == Some(context)
    requires i < |s.editors| && context.activeEditor == Some(s.editors[i].id)
    requires ProjectOf(s.editors[i].resource) in {None, Some(requested.project.id)}
    ensures var r := Apply(s, SetScope(requested));
      && r.editors == s.editors && r.activeEditor == context.activeEditor
      && r.activeActivity == context.activeActivity
  {
    assert Shows(context.activeEditor, requested.project.id)(s.editors[i]);
  }

  /**
   With that tab gone it shows the first open tab of the same activity that belongs to the project or to
   none, and the failure inbox when there is no such tab.
   */
  lemma ReturningFallsBack(s: State, requested: QueryScope, context: ProjectContext)
    requires WellTabbed(s.editors) && requested.project.Project? && s.scope.project != requested.project
    requires SavedContext(s, requested.project.id) == Some(context)
    requires forall tab :: tab in s.editors ==> context.activeEditor != Some(tab.id)
    ensures var r := Apply(s, SetScope(requested));
      && ActiveTab(r).Some? && ActivityMatches(r)
      && if exists i :: 0 <= i < |s.editors| && MayShow(s.editors[i], context.activeActivity, requested.project.id) then
           exists i ::
             && 0 <= i < |s.editors| && MayShow(s.editors[i], context.activeActivity, requested.project.id)
             && (forall j :: 0 <= j < i ==> !MayShow(s.editors[j], context.activeActivity, requested.project.id))
             && r.editors == s.editors && r.activeEditor == Some(s.editors[i].id)
         else ActiveTab(r).value.resource == FailureInbox
  {
    hide Apply, RestoreEditor, Activity, ActivityMatches, WellTabbed, ActiveTab;
    var project, back := requested.project.id, BackIn(s, requested, context);
    ReturningRestores(s, requested, context);
    assert FirstIndex(s.editors, Shows(context.activeEditor, project)).None?;
    RestoringFallsBack(back, context, project);
    SelectionOfGroupsIsApart(RestoreEditor(back, context, project));
  }

  /** The project's own scope and panes are back, its tab is not yet chosen. */
  function BackIn(s: State, requested: QueryScope, context: ProjectContext): State {
    Leave(s).(
      scope := QueryScope(requested.project, context.environment, context.build, context.session, context.timeRange),
      activeActivity := context.activeActivity, panes := context.panes)
  }

  lemma ReturningRestores(s: State, requested: QueryScope, context: ProjectContext)
    requires requested.project.Project? && s.scope.project != requested.project
    requires SavedContext(s, requested.project.id) == Some(context)
    ensures BackIn(s, requested, context).editors == s.editors
    ensures Apply(s, SetScope(requested))
      == RestoreEditor(BackIn(s, requested, context), context, requested.project.id).(selectedGroups := {})
  {
    hide RestoreEditor;
  }

  lemma SelectionOfGroupsIsApart(s: State)
    ensures ActiveTab(s.(selectedGroups := {})) == ActiveTab(s)
    ensures ActivityMatches(s.(selectedGroups := {})) == ActivityMatches(s)
  {
    hide Activity;
  }

  lemma RestoringFallsBack(s: State, context: ProjectContext, project: string)
    requires WellTabbed(s.editors) && FirstIndex(s.editors, Shows(context.activeEditor, project)).None?
    ensures var r := RestoreEditor(s, context, project);
      && ActiveTab(r).Some? && ActivityMatches(r)
      && if exists i :: 0 <= i < |s.editors| && MayShow(s.editors[i], context.activeActivity, project) then
           exists i ::
             && 0 <= i < |s.editors| && MayShow(s.editors[i], context.activeActivity, project)
             && (forall j :: 0 <= j < i ==> !MayShow(s.editors[j], context.activeActivity, project))
             && r.editors == s.editors && r.activeEditor == Some(s.editors[i].id)
         else ActiveTab(r).value.resource == FailureInbox
  {
    hide Activity, WithInbox, WellTabbed;
    var fits := Restorable(context.activeActivity, project);
    assert forall tab :: fits(tab) == MayShow(tab, context.activeActivity, project);
    match FirstIndex(s.editors, Restorable(context.activeActivity, project))
    case Some(i) =>
      IdsOfTabs(s.editors, s.editors[i].id);
      assert MayShow(s.editors[i], context.activeActivity, project);
    case None =>
      InboxIsFound(s);
      InboxIsOneMore(s);
  }

  predicate MayShow(tab: Tab, activity: ActivityId, project: string) {
    Activity(Kind(tab.resource)) == activity && ProjectOf(tab.resource) in {None, Some(project)}
  }

  // --------------------------------------------------------------- settings

  /** Every setting reads back as it was last set, and setting it touches nothing else. */
  lemma SettingsReadBack(s: State, region: FocusRegion, suppressed: bool, appearance: Appearance)
    ensures Apply(s, SetFocus(region)).(focus := s.focus) == s && Apply(s, SetFocus(region)).focus == region
    ensures var r := Apply(s, SetInspectorAutoOpenSuppressed(suppressed));
      r.(inspectorAutoOpenSuppressed := s.inspectorAutoOpenSuppressed) == s && r.inspectorAutoOpenSuppressed == suppressed
    ensures var r := Apply(s, SetAppearance(appearance));
      r.(appearance := s.appearance) == s && r.appearance == appearance
    ensures Apply(s, ClearBulkSelection).(selectedGroups := s.selectedGroups) == s
    ensures Apply(s, ClearBulkSelection).selectedGroups == {}
  {
  }

  lemma PreferencesReadBack(s: State, key: string, preferences: InboxPreferences)
    ensures var r := Apply(s, SetInboxPreferences(key, preferences));
      && r.(inboxPreferences := s.inboxPreferences) == s
      && r.inboxPreferences.Keys == s.inboxPreferences.Keys + {key} && r.inboxPreferences[key] == preferences
      && forall other :: other in s.inboxPreferences && other != key ==>
            r.inboxPreferences[other] == s.inboxPreferences[other]
  {
  }

  lemma ResettingHidesThePanes(s: State, pane: PaneId)
    ensures var r := Apply(s, ResetLayout);
      !IsVisible(r.panes, pane) && Allowed(pane, SizeOf(r.panes, pane)) && r == s.(panes := r.panes)
  {
  }
}
