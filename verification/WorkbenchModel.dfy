/** The workbench model, which applies actions to its state in place. */
module WorkbenchModel {
  import opened Lists
  import opened Options
  import opened WorkbenchState
  import W = Workbench

  class WorkbenchModel {
    var state: State

    constructor ()
      ensures state == DEFAULT_STATE
    {
      state := DEFAULT_STATE;
    }

    constructor WithInitialEditor(resource: EditorResource)
      ensures state == WorkbenchState.WithInitialEditor(resource)
    {
      state := WorkbenchState.WithInitialEditor(resource);
    }

    method Apply(action: W.Action)
      modifies this
      ensures state == W.Apply(old(state), action)
    {
      match action
      case OpenEditor(resource, pinned) => OpenEditor(resource, pinned);
      case ActivateEditor(id) => ActivateEditor(id);
      case PinEditor(id) => PinEditor(id);
      case UnpinEditor(id) => UnpinEditor(id);
      case CloseEditor(id) => CloseEditor(id);
      case SetPaneVisible(pane, visible) =>
        state := state.(panes := W.WithVisible(state.panes, pane, visible));
        if !visible && W.PaneFocus(pane) == state.focus {
          state := state.(focus := Editor);
        }
      case ResizePane(pane, size) => state := state.(panes := W.Resized(state.panes, pane, size));
      case SetScope(requested) =>
        SwitchScope(requested);
        state := state.(selectedGroups := {});
      case SetFocus(region) => state := state.(focus := region);
      case ToggleFailureGroup(group) =>
        if group in state.selectedGroups {
          state := state.(selectedGroups := state.selectedGroups - {group});
        } else {
          state := state.(selectedGroups := state.selectedGroups + {group});
        }
      case ClearBulkSelection => state := state.(selectedGroups := {});
      case SetInboxPreferences(key, preferences) =>
        state := state.(inboxPreferences := state.inboxPreferences[key := preferences]);
      case SetInspectorAutoOpenSuppressed(suppressed) => state := state.(inspectorAutoOpenSuppressed := suppressed);
      case UpdateActiveFullTraceSelection(spanId) => UpdateActiveFullTraceSelection(spanId);
      case SetAppearance(appearance) => state := state.(appearance := appearance);
      case ResetLayout => state := state.(panes := DEFAULT_PANES);
    }

    /** Refreshes the resource's tab, or puts it in the preview's place or at the end. */
    method OpenTab(resource: EditorResource, pinned: bool)
      modifies this
      ensures state == old(state).(editors := W.Opened(old(state).editors, resource, pinned))
    {
      hide WorkbenchState.StableKey;
      var existing := Find(state.editors, W.HasId(StableKey(resource)));
      if existing.Some? {
        var tab := state.editors[existing.value];
        tab := tab.(pinned := tab.pinned || pinned);
        tab := tab.(resource := resource);
        state := state.(editors := state.editors[existing.value := tab]);
      } else if !pinned {
        var preview := Find(state.editors, W.IsPreview());
        if preview.Some? {
          state := state.(editors := state.editors[preview.value := NewTab(resource, false)]);
        } else {
          state := state.(editors := state.editors + [NewTab(resource, false)]);
        }
      } else {
        state := state.(editors := state.editors + [NewTab(resource, pinned)]);
      }
    }

    method OpenEditor(resource: EditorResource, pinned: bool)
      modifies this
      ensures state == W.Open(old(state), resource, pinned)
    {
      hide WorkbenchState.StableKey;
      OpenTab(resource, pinned);
      state := state.(activeActivity := Activity(Kind(resource)));
      state := state.(activeEditor := Some(StableKey(resource)));
      state := state.(focus := Editor);
    }

    method ActivateEditor(id: string)
      modifies this
      ensures state == W.Activate(old(state), id)
    {
      var found := Find(state.editors, W.HasId(id));
      if found.Some? {
        state := state.(activeActivity := Activity(Kind(state.editors[found.value].resource)));
        state := state.(activeEditor := Some(id));
        state := state.(focus := Editor);
      }
    }

    method PinEditor(id: string)
      modifies this
      ensures state == W.Pin(old(state), id)
    {
      var found := Find(state.editors, W.HasId(id));
      if found.Some? {
        state := state.(editors := state.editors[found.value := state.editors[found.value].(pinned := true)]);
      }
    }

    method UnpinEditor(id: string)
      modifies this
      ensures state == W.Unpin(old(state), id)
    {
      var kept := Retain(state.editors, W.IsPinnedOr(id));
      state := state.(editors := kept);
      var found := Find(state.editors, W.HasId(id));
      if found.Some? {
        state := state.(activeActivity := Activity(Kind(state.editors[found.value].resource)));
        state := state.(editors := state.editors[found.value := state.editors[found.value].(pinned := false)]);
        state := state.(activeEditor := Some(id));
      }
    }

    method CloseEditor(id: string)
      modifies this
      ensures state == W.Close(old(state), id)
    {
      var wasActive := state.activeEditor == Some(id);
      var kept := Retain(state.editors, W.LacksId(id));
      state := state.(editors := kept);
      if wasActive {
        state := state.(activeEditor := W.LastId(state.editors));
      }
      state := state.(focus := EditorTabs);
    }

    method UpdateActiveFullTraceSelection(spanId: Option<string>)
      modifies this
      ensures state == W.UpdateSelection(old(state), spanId)
    {
      if state.activeEditor.Some? {
        var found := Find(state.editors, W.HasId(state.activeEditor.value));
        if found.Some? && state.editors[found.value].resource.FullTrace? {
          var tab := state.editors[found.value];
          state := state.(
            editors := state.editors[found.value := tab.(resource := tab.resource.(selectedSpanId := spanId))]);
        }
      }
    }

    method EnsureFailureInboxEditor() returns (id: string)
      modifies this
      ensures (state, id) == W.WithInbox(old(state))
    {
      var found := Find(state.editors, W.IsInbox());
      if found.Some? {
        return state.editors[found.value].id;
      }
      var tab := NewTab(FailureInbox, false);
      state := state.(editors := state.editors + [tab]);
      id := tab.id;
    }

    method TabWithId(id: Option<string>) returns (tab: Option<Tab>)
      ensures tab == W.TabAt(state.editors, id)
    {
      if id.None? { return None; }
      var found := Find(state.editors, W.HasId(id.value));
      tab := if found.Some? then Some(state.editors[found.value]) else None;
    }

    /** The inbox takes over unless the active tab is global. */
    method KeepGlobalTab()
      modifies this
      ensures state == W.KeepGlobalTab(old(state))
    {
      var active := TabWithId(state.activeEditor);
      if active.None? || ProjectOf(active.value.resource).Some? {
        var id := EnsureFailureInboxEditor();
        state := state.(activeEditor := Some(id));
        state := state.(activeActivity := Failures);
      }
    }

    method RestoreEditor(context: ProjectContext, project: string)
      modifies this
      ensures state == W.RestoreEditor(old(state), context, project)
    {
      var saved := Find(state.editors, W.Shows(context.activeEditor, project));
      if saved.Some? {
        state := state.(activeEditor := context.activeEditor);
      } else {
        var restored := Find(state.editors, W.Restorable(context.activeActivity, project));
        if restored.Some? {
          state := state.(activeEditor := Some(state.editors[restored.value].id));
        } else {
          var id := EnsureFailureInboxEditor();
          state := state.(activeEditor := Some(id));
        }
        var active := TabWithId(state.activeEditor);
        state := state.(activeActivity := if active.Some? then Activity(Kind(active.value.resource)) else Failures);
      }
    }

    method SwitchScope(requested: QueryScope)
      modifies this
      ensures state == W.SwitchScope(old(state), requested)
    {
      if state.scope.project == requested.project {
        state := state.(scope := requested);
        return;
      }
      if state.scope.project.Project? {
        state := state.(projectContexts := state.projectContexts[state.scope.project.id := W.ContextOf(state)]);
      }
      match requested.project
      case Project(project) =>
        if project in state.projectContexts {
          var context := state.projectContexts[project];
          state := state.(scope := QueryScope(
            requested.project, context.environment, context.build, context.session, context.timeRange));
          state := state.(activeActivity := context.activeActivity);
          state := state.(panes := context.panes);
          RestoreEditor(context, project);
        } else {
          state := state.(scope := DEFAULT_SCOPE.(project := requested.project));
          KeepGlobalTab();
        }
      case AllProjects =>
        state := state.(scope := DEFAULT_SCOPE);
        KeepGlobalTab();
    }
  }
}
