/** The workbench's entities: editor resources and tabs, scopes, panes and the whole state. */
module WorkbenchState {
  import opened Numerals
  import opened Options

  datatype ActivityId = Failures | Runs | Compare | Evals | Sources | Settings

  datatype EditorKind =
    | WelcomeEditor | FailureInboxEditor | FailureInvestigationEditor | FullTraceEditor | RunsEditor
    | SourcesEditor | EvalReviewEditor | CompareEditor | SettingsEditor

  datatype FullTraceOrigin =
    | FromRuns
    | FromInvestigation(
        originProjectId: string, originGroupId: string, findingId: Option<string>, occurrenceOffset: nat,
        spanId: Option<string>)

  datatype EditorResource =
    | WelcomePage
    | FailureInbox
    | FailureInvestigation(projectId: string, groupId: string)
    | FullTrace(
        projectId: string, logicalTraceId: string, revision: nat, origin: FullTraceOrigin,
        selectedSpanId: Option<string>)
    | RunsPage
    | SourcesPage
    | EvaluatorStudio
    | HumanReviewQueue
    | Calibration
    | EvalQueue
    | EvalReview(projectId: string, candidateId: string)
    | CompareSetup
    | Comparison(projectId: string, comparisonId: string)
    | SettingsPage

  function Activity(kind: EditorKind): ActivityId {
    match kind
    case WelcomeEditor | SourcesEditor => Sources
    case FailureInboxEditor | FailureInvestigationEditor => Failures
    case FullTraceEditor | RunsEditor => Runs
    case EvalReviewEditor => Evals
    case CompareEditor => Compare
    case SettingsEditor => Settings
  }

  function Kind(r: EditorResource): EditorKind {
    match r
    case WelcomePage => WelcomeEditor
    case FailureInbox => FailureInboxEditor
    case FailureInvestigation(_, _) => FailureInvestigationEditor
    case FullTrace(_, _, _, _, _) => FullTraceEditor
    case RunsPage => RunsEditor
    case SourcesPage => SourcesEditor
    case EvaluatorStudio | HumanReviewQueue | Calibration | EvalQueue | EvalReview(_, _) => EvalReviewEditor
    case CompareSetup | Comparison(_, _) => CompareEditor
    case SettingsPage => SettingsEditor
  }

  predicate IsActivityDestination(r: EditorResource) {
    !r.FailureInvestigation? && !r.FullTrace? && !r.EvalReview? && !r.Comparison?
  }

  /** The project a resource belongs to; global resources belong to none. */
  function ProjectOf(r: EditorResource): (project: Option<string>)
    ensures project.None? <==> IsActivityDestination(r)
  {
    match r
    case FailureInvestigation(projectId, _) => Some(projectId)
    case FullTrace(projectId, _, _, _, _) => Some(projectId)
    case EvalReview(projectId, _) => Some(projectId)
    case Comparison(projectId, _) => Some(projectId)
    case _ => None
  }

  predicate VisibleFor(r: EditorResource, project: string) {
    ProjectOf(r).None? || ProjectOf(r).value == project
  }

  /** A resource's identity as a tab. */
  function StableKey(r: EditorResource): string {
    match r
    case WelcomePage => "welcome"
    case FailureInbox => "failure-inbox"
    case FailureInvestigation(projectId, groupId) => "failure-investigation:" + projectId + ":" + groupId
    case FullTrace(projectId, traceId, revision, _, _) =>
      "full-trace:" + projectId + ":" + traceId + ":" + ToDecimal(revision)
    case RunsPage => "runs"
    case SourcesPage => "sources"
    case EvaluatorStudio => "evaluator-studio"
    case HumanReviewQueue => "human-review-queue"
    case Calibration => "calibration"
    case EvalQueue => "eval-queue"
    case EvalReview(projectId, candidateId) => "eval-review:" + projectId + ":" + candidateId
    case CompareSetup => "compare-setup"
    case Comparison(projectId, comparisonId) => "compare:" + projectId + ":" + comparisonId
    case SettingsPage => "settings"
  }

  datatype Tab = Tab(id: string, resource: EditorResource, pinned: bool)

  function NewTab(resource: EditorResource, pinned: bool): Tab {
    Tab(StableKey(resource), resource, pinned)
  }

  datatype PaneId = PrimarySidebar | Inspector | BottomPanel

  datatype FocusRegion =
    | ActivityRail | SidebarRegion | EditorTabs | Editor | InspectorRegion | BottomRegion | StatusBar

  datatype PaneLayout = PaneLayout(
    sidebarVisible: bool, inspectorVisible: bool, bottomVisible: bool,
    sidebarWidth: real, inspectorWidth: real, bottomHeight: real)

  const DEFAULT_PANES := PaneLayout(false, false, false, 280.0, 360.0, 220.0)

  datatype ProjectScope = AllProjects | Project(id: string)

  datatype QueryScope = QueryScope(
    project: ProjectScope, environment: Option<string>, build: Option<string>, session: Option<string>,
    timeRange: Option<string>)

  const DEFAULT_SCOPE := QueryScope(AllProjects, None, None, None, None)

  datatype ProjectContext = ProjectContext(
    environment: Option<string>, build: Option<string>, session: Option<string>, timeRange: Option<string>,
    activeActivity: ActivityId, activeEditor: Option<string>, panes: PaneLayout)

  datatype InboxSort = Priority | MostRecent | MostFrequent | MostUnresolved
  datatype InboxView = InboxView(
    severity: Option<string>, recovery: Option<string>, detectorId: Option<string>, serviceName: Option<string>,
    search: Option<string>, sort: InboxSort)
  datatype SavedView = SavedView(id: string, name: string, view: InboxView)
  datatype InboxPreferences = InboxPreferences(current: InboxView, saved: seq<SavedView>, activeSavedViewId: Option<string>)

  datatype TextScale = NormalText | LargeText | ExtraLargeText | DoubleText
  datatype Appearance = Appearance(textScale: TextScale, reducedMotion: bool)

  datatype State = State(
    activeActivity: ActivityId,
    editors: seq<Tab>,
    activeEditor: Option<string>,
    panes: PaneLayout,
    scope: QueryScope,
    selectedGroups: set<string>,
    projectContexts: map<string, ProjectContext>,
    inboxPreferences: map<string, InboxPreferences>,
    inspectorAutoOpenSuppressed: bool,
    appearance: Appearance,
    focus: FocusRegion)

  /** `WorkbenchModel::with_initial_editor`. */
  function WithInitialEditor(resource: EditorResource): State {
    var tab := NewTab(resource, !IsActivityDestination(resource));
    State(
      Activity(Kind(resource)), [tab], Some(tab.id), DEFAULT_PANES, DEFAULT_SCOPE, {}, map[], map[], false,
      Appearance(NormalText, false), Editor)
  }

  /** The default state opens the failure inbox. */
  const DEFAULT_STATE := State(
    Failures, [NewTab(FailureInbox, false)], Some("failure-inbox"), DEFAULT_PANES, DEFAULT_SCOPE, {}, map[], map[],
    false, Appearance(NormalText, false), Editor)

  // ---------------------------------------------------------------------- keys

  /** What two resources with the same key have in common: all but how the tab was reached and what it shows. */
  function Identity(r: EditorResource): EditorResource {
    if r.FullTrace? then r.(origin := FromRuns, selectedSpanId := None) else r
  }

  function CharAt(key: string, i: nat): char {
    if i < |key| then key[i] else ' '
  }

  /** The kind of resource a key is for, told by the characters in which keys first differ. */
  function Constructor(key: string): nat {
    match CharAt(key, 0)
    case 'w' => 0
    case 'f' => if CharAt(key, 1) == 'u' then 3 else if CharAt(key, 10) == 'b' then 1 else 2
    case 'r' => 4
    case 's' => if CharAt(key, 1) == 'o' then 5 else 13
    case 'e' => if CharAt(key, 4) == 'u' then 6 else if CharAt(key, 5) == 'q' then 9 else 10
    case 'h' => 7
    case 'c' => if CharAt(key, 1) == 'a' then 8 else if CharAt(key, 7) == '-' then 11 else 12
    case _ => 14
  }

  function Number(r: EditorResource): nat {
    match r
    case WelcomePage => 0
    case FailureInbox => 1
    case FailureInvestigation(_, _) => 2
    case FullTrace(_, _, _, _, _) => 3
    case RunsPage => 4
    case SourcesPage => 5
    case EvaluatorStudio => 6
    case HumanReviewQueue => 7
    case Calibration => 8
    case EvalQueue => 9
    case EvalReview(_, _) => 10
    case CompareSetup => 11
    case Comparison(_, _) => 12
    case SettingsPage => 13
  }

  lemma KeyTellsConstructor(r: EditorResource)
    ensures Constructor(StableKey(r)) == Number(r)
  {
  }

  /** Only the failure inbox has the failure inbox's key. */
  lemma InboxKeyIsUnique(r: EditorResource)
    ensures StableKey(r) == StableKey(FailureInbox) <==> r == FailureInbox
  {
    KeyTellsConstructor(r);
    KeyTellsConstructor(FailureInbox);
  }

  /** Resources with the same key belong to the same activity. */
  lemma KeyTellsActivity(a: EditorResource, b: EditorResource)
    requires StableKey(a) == StableKey(b)
    ensures Activity(Kind(a)) == Activity(Kind(b))
  {
    KeyTellsConstructor(a);
    KeyTellsConstructor(b);
  }

  /** Neither identifier, with a colon after it, begins the other; or they are the same. */
  predicate Apart(p: string, q: string) {
    p == q || (!(p + ":" <= q) && !(q + ":" <= p))
  }

  lemma ShorterBegins(p: string, x: string, q: string, y: string)
    requires p + ":" + x == q + ":" + y && |p| < |q|
    ensures p + ":" <= q
  {
    var text := p + ":" + x;
    assert text[|p|] == ':' && text[|p|] == (q + ":" + y)[|p|] == q[|p|];
    assert text[..|p|] == p && (q + ":" + y)[..|p|] == q[..|p|];
    assert q[..|p| + 1] == q[..|p|] + [q[|p|]];
  }

  lemma SameLengthSplits(p: string, x: string, q: string, y: string)
    requires p + ":" + x == q + ":" + y && |p| == |q|
    ensures p == q && x == y
  {
    assert (p + ":" + x)[..|p|] == p && (q + ":" + y)[..|q|] == q;
    assert (p + ":" + x)[|p| + 1..] == x && (q + ":" + y)[|q| + 1..] == y;
  }

  lemma ApartSplits(p: string, x: string, q: string, y: string)
    requires p + ":" + x == q + ":" + y && Apart(p, q)
    ensures p == q && x == y
  {
    if |p| < |q| { ShorterBegins(p, x, q, y); }
    if |q| < |p| { ShorterBegins(q, y, p, x); }
    SameLengthSplits(p, x, q, y);
  }

  lemma LastColon(a: string, b: string)
    requires ':' !in b
    ensures (a + ":" + b)[|a|] == ':' && forall i :: |a| < i < |a + ":" + b| ==> (a + ":" + b)[i] != ':'
  {
  }

  lemma LastColonSplits(a: string, b: string, c: string, d: string)
    requires a + ":" + b == c + ":" + d && ':' !in b && ':' !in d
    ensures a == c && b == d
  {
    LastColon(a, b);
    LastColon(c, d);
    SameLengthSplits(a, b, c, d);
  }

  lemma PairsAreIdentified(start: string, a: string, b: string, c: string, d: string)
    requires start + a + ":" + b == start + c + ":" + d && Apart(a, c)
    ensures a == c && b == d
  {
    assert start + a + ":" + b == start + (a + ":" + b);
    assert start + c + ":" + d == start + (c + ":" + d);
    assert (start + a + ":" + b)[|start|..] == a + ":" + b;
    assert (start + c + ":" + d)[|start|..] == c + ":" + d;
    ApartSplits(a, b, c, d);
  }

  lemma TracesAreIdentified(a: EditorResource, b: EditorResource)
    requires a.FullTrace? && b.FullTrace? && StableKey(a) == StableKey(b) && Apart(a.projectId, b.projectId)
    ensures Identity(a) == Identity(b)
  {
    hide Apart, Numerals.ToDecimal;
    var start := "full-trace:";
    var restA, restB := a.logicalTraceId + ":" + ToDecimal(a.revision), b.logicalTraceId + ":" + ToDecimal(b.revision);
    assert StableKey(a) == start + a.projectId + ":" + restA;
    assert StableKey(b) == start + b.projectId + ":" + restB;
    PairsAreIdentified(start, a.projectId, restA, b.projectId, restB);
    LastColonSplits(a.logicalTraceId, ToDecimal(a.revision), b.logicalTraceId, ToDecimal(b.revision));
    ValueOfDecimal(a.revision);
    ValueOfDecimal(b.revision);
  }

  /** A key identifies its resource among the global ones and those of projects that are apart. */
  lemma ApartResourcesAreIdentified(a: EditorResource, b: EditorResource)
    requires ProjectOf(a).Some? && ProjectOf(b).Some? ==> Apart(ProjectOf(a).value, ProjectOf(b).value)
    ensures StableKey(a) == StableKey(b) <==> Identity(a) == Identity(b)
  {
    hide Apart;
    if StableKey(a) == StableKey(b) {
      KeyTellsConstructor(a);
      KeyTellsConstructor(b);
      match a
      case FullTrace(_, _, _, _, _) => TracesAreIdentified(a, b);
      case FailureInvestigation(_, _) =>
        PairsAreIdentified("failure-investigation:", a.projectId, a.groupId, b.projectId, b.groupId);
      case EvalReview(_, _) => PairsAreIdentified("eval-review:", a.projectId, a.candidateId, b.projectId, b.candidateId);
      case Comparison(_, _) => PairsAreIdentified("compare:", a.projectId, a.comparisonId, b.projectId, b.comparisonId);
      case _ =>
    }
  }

  /** Keys tell apart all resources of the one project from all resources of the other. */
  ghost predicate KeysIdentify(p: string, q: string) {
    forall a, b :: ProjectOf(a) == Some(p) && ProjectOf(b) == Some(q) ==>
      (StableKey(a) == StableKey(b) <==> Identity(a) == Identity(b))
  }

  /** Where one identifier and a colon begin the other, two different investigations share one key and so one tab. */
  lemma PrefixedProjectsCollide(p: string, z: string, group: string)
    ensures var q := p + ":" + z;
      var a, b := FailureInvestigation(p, z + ":" + group), FailureInvestigation(q, group);
      StableKey(a) == StableKey(b) && Identity(a) != Identity(b)
  {
    var q := p + ":" + z;
    assert "failure-investigation:" + p + ":" + (z + ":" + group) == "failure-investigation:" + q + ":" + group;
    assert |p| < |q|;
  }

  /** Keys identify the resources of two projects exactly when neither identifier and a colon begin the other. */
  lemma KeysIdentifyResourcesIff(p: string, q: string)
    ensures KeysIdentify(p, q) <==> Apart(p, q)
  {
    if Apart(p, q) {
      forall a, b | ProjectOf(a) == Some(p) && ProjectOf(b) == Some(q)
        ensures StableKey(a) == StableKey(b) <==> Identity(a) == Identity(b)
      {
        ApartResourcesAreIdentified(a, b);
      }
    } else {
      NotApartCollide(p, q);
    }
  }

  lemma NotApartCollide(p: string, q: string)
    requires !Apart(p, q)
    ensures !KeysIdentify(p, q)
  {
    hide StableKey;
    if p + ":" <= q {
      var z := q[|p| + 1..];
      assert q == p + ":" + z;
      PrefixedProjectsCollide(p, z, "");
      assert ProjectOf(FailureInvestigation(p, z + ":" + "")) == Some(p);
      assert ProjectOf(FailureInvestigation(q, "")) == Some(q);
    } else {
      var z := p[|q| + 1..];
      assert p == q + ":" + z;
      PrefixedProjectsCollide(q, z, "");
      assert ProjectOf(FailureInvestigation(q, z + ":" + "")) == Some(q);
      assert ProjectOf(FailureInvestigation(p, "")) == Some(p);
    }
  }

  /** In particular where project identifiers hold no colon. */
  lemma KeysIdentifyResources(a: EditorResource, b: EditorResource)
    requires ProjectOf(a).Some? ==> ':' !in ProjectOf(a).value
    requires ProjectOf(b).Some? ==> ':' !in ProjectOf(b).value
    ensures StableKey(a) == StableKey(b) <==> Identity(a) == Identity(b)
  {
    if ProjectOf(a).Some? && ProjectOf(b).Some? {
      ColonFreeAreApart(ProjectOf(a).value, ProjectOf(b).value);
    }
    ApartResourcesAreIdentified(a, b);
  }

  lemma ColonFreeAreApart(p: string, q: string)
    requires ':' !in p && ':' !in q
    ensures Apart(p, q)
  {
    BeginningHoldsTheColon(p, q);
    BeginningHoldsTheColon(q, p);
  }

  lemma BeginningHoldsTheColon(p: string, q: string)
    ensures p + ":" <= q ==> ':' in q
  {
    if p + ":" <= q { assert q[|p|] == ':'; }
  }
}
