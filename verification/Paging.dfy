/** Listing projects page by page: the limit's bounds, the order of the rows and the cursor to the next page. */
module Paging {
  import opened Cursor
  import opened MachineWords
  import opened Options
  import opened Sorting
  import opened Strings

  datatype Project = Project(displayName: string, projectId: string)
  datatype Policy = Policy(defaultPageSize: nat, maximumPageSize: nat)
  datatype PageInput = PageInput(limit: Option<nat>, cursor: Option<string>)

  datatype Response =
    | LimitRefused(maximum: nat)
    | CursorRefused(error: CursorError)
    | Page(rows: seq<Project>, nextCursor: Option<string>)

  /** Everything a request is answered from, besides itself and the time. */
  datatype Server = Server(
    codec: Codec, wire: Wire, policy: Policy, fingerprint: Option<nat> -> string,
    projects: seq<Project>, commitSequence: nat)

  const TOOL: string := "list_projects"
  const TOOL_MAXIMUM: nat := 200

  // ---------------------------------------------------------------------- order

  /** By display name, then by identifier. */
  predicate InOrder(a: Project, b: Project) {
    if a.displayName == b.displayName then Leq(a.projectId, b.projectId) else Leq(a.displayName, b.displayName)
  }

  function ComesBefore(): (Project, Project) -> bool {
    (a: Project, b: Project) => !InOrder(b, a)
  }

  lemma InOrderIsTotal(a: Project, b: Project)
    ensures InOrder(a, b) || InOrder(b, a)
  {
    LeqTotal(a.displayName, b.displayName);
    LeqTotal(a.projectId, b.projectId);
  }

  lemma InOrderIsTransitive(a: Project, b: Project, c: Project)
    requires InOrder(a, b) && InOrder(b, c)
    ensures InOrder(a, c)
  {
    if a.displayName == b.displayName == c.displayName {
      LeqTransitive(a.projectId, b.projectId, c.projectId);
    } else {
      LeqTotal(b.displayName, b.displayName);
      LeqTransitive(a.displayName, b.displayName, c.displayName);
      if a.displayName == c.displayName { LeqAntisymmetric(a.displayName, b.displayName); }
    }
  }

  lemma ProjectOrderIsStrict()
    ensures StrictOrder(ComesBefore())
  {
    forall a, b ensures ComesBefore()(a, b) ==> !ComesBefore()(b, a) {
      InOrderIsTotal(a, b);
    }
    forall a, b, c | !ComesBefore()(b, a) && !ComesBefore()(c, b) ensures !ComesBefore()(c, a) {
      InOrderIsTransitive(a, b, c);
    }
  }

  function Listing(server: Server): (listing: seq<Project>)
    ensures |listing| == |server.projects|
  {
    ProjectOrderIsStrict();
    SortSorts(server.projects, ComesBefore());
    Sort(server.projects, ComesBefore())
  }

  /** The listing has every project as often as the workspace has it, in order. */
  lemma ListingIsSorted(server: Server)
    ensures multiset(Listing(server)) == multiset(server.projects)
    ensures forall i, j :: 0 <= i < j < |Listing(server)| ==> InOrder(Listing(server)[i], Listing(server)[j])
  {
    ProjectOrderIsStrict();
    SortSorts(server.projects, ComesBefore());
    forall i, j | 0 <= i < j < |Listing(server)| ensures InOrder(Listing(server)[i], Listing(server)[j]) {
      assert !ComesBefore()(Listing(server)[j], Listing(server)[i]);
    }
  }

  // -------------------------------------------------------------------- requests

  function MaximumLimit(policy: Policy): nat {
    if TOOL_MAXIMUM < policy.maximumPageSize then TOOL_MAXIMUM else policy.maximumPageSize
  }

  /** The requested limit or the default; neither may be 0 or above the maximum. */
  function Limit(policy: Policy, requested: Option<nat>): Option<nat> {
    var limit := if requested.Some? then requested.value else policy.defaultPageSize;
    if limit == 0 || MaximumLimit(policy) < limit then None else Some(limit)
  }

  function BindingOf(server: Server, limit: Option<nat>): Binding {
    Binding(TOOL, None, server.fingerprint(limit))
  }

  function Offset(server: Server, binding: Binding, cursor: Option<string>, now: nat): Decoded {
    if cursor.None? then Ok(Position(0, server.commitSequence))
    else Decode(server.codec, server.wire, cursor.value, binding, server.commitSequence, now)
  }

  function NextCursor(server: Server, binding: Binding, offset: nat, limit: nat, total: nat, now: nat): Option<string> {
    var next := SaturatingAdd(offset, limit);
    if total <= next then None
    else Some(Encode(server.codec, server.wire, binding, next, server.commitSequence, now))
  }

  /** `skip(offset).take(limit)`. */
  function Rows(listing: seq<Project>, offset: nat, limit: nat): seq<Project> {
    if |listing| <= offset then []
    else if |listing| < offset + limit then listing[offset..]
    else listing[offset..offset + limit]
  }

  /** `list_projects`. */
  function ListProjects(server: Server, input: PageInput, now: nat): Response {
    match Limit(server.policy, input.limit)
    case None => LimitRefused(MaximumLimit(server.policy))
    case Some(limit) =>
      var binding := BindingOf(server, input.limit);
      match Offset(server, binding, input.cursor, now)
      case Err(error) => CursorRefused(error)
      case Ok(position) =>
        Page(
          Rows(Listing(server), position.offset, limit),
          NextCursor(server, binding, position.offset, limit, |server.projects|, now))
  }

  /** The page size a request gets: the one it asks for or the default, from 1 to what tool and policy allow. */
  predicate Grants(policy: Policy, requested: Option<nat>, size: nat) {
    && size == (match requested case Some(limit) => limit case None => policy.defaultPageSize)
    && 1 <= size <= TOOL_MAXIMUM && size <= policy.maximumPageSize
  }

  lemma LimitIff(policy: Policy, requested: Option<nat>, size: nat)
    ensures Limit(policy, requested) == Some(size) <==> Grants(policy, requested, size)
  {
  }

  /** A limit is refused exactly when no page size is granted. */
  lemma LimitAcceptedIff(server: Server, input: PageInput, now: nat)
    ensures ListProjects(server, input, now).LimitRefused? <==> forall size :: !Grants(server.policy, input.limit, size)
  {
    match Limit(server.policy, input.limit)
    case Some(size) => LimitIff(server.policy, input.limit, size);
    case None =>
      forall size ensures !Grants(server.policy, input.limit, size) { LimitIff(server.policy, input.limit, size); }
  }

  /**
   Whatever the cursor, a page holds no more than the tool and the policy allow, holds no project more
   often than the workspace does, and holds them in order.
   */
  lemma PagesAreBounded(server: Server, input: PageInput, now: nat)
    requires ListProjects(server, input, now).Page?
    ensures var rows := ListProjects(server, input, now).rows;
      && |rows| <= TOOL_MAXIMUM && |rows| <= server.policy.maximumPageSize
      && multiset(rows) <= multiset(server.projects)
      && forall i, j :: 0 <= i < j < |rows| ==> InOrder(rows[i], rows[j])
  {
    hide Listing, NextCursor, InOrder;
    ListingIsSorted(server);
    var limit := Limit(server.policy, input.limit).value;
    var offset := Offset(server, BindingOf(server, input.limit), input.cursor, now).position.offset;
    RowsArePart(Listing(server), offset, limit);
  }

  lemma RowsArePart(listing: seq<Project>, offset: nat, limit: nat)
    ensures var rows := Rows(listing, offset, limit);
      && |rows| <= limit && multiset(rows) <= multiset(listing)
      && forall i :: 0 <= i < |rows| ==> offset + i < |listing| && rows[i] == listing[offset + i]
  {
    var rows := Rows(listing, offset, limit);
    if offset < |listing| {
      assert listing == listing[..offset] + (rows + listing[offset + |rows|..]);
    }
  }

  // ------------------------------------------------------------------------ walks

  /** The request for the page after a response, if it points to one. */
  function FollowUp(response: Response): Option<string> {
    if response.Page? then response.nextCursor else None
  }

  /**
   The responses a client gets that starts from a cursor, or from page one, and follows each `next_cursor`;
   the i-th request is made at `clock(i)`, and at most `requests` are made.
   */
  function Walk(
      server: Server, limit: Option<nat>, cursor: Option<string>, clock: nat -> nat, start: nat, requests: nat)
    : seq<Response>
    decreases requests
  {
    if requests == 0 then []
    else
      var response := ListProjects(server, PageInput(limit, cursor), clock(start));
      if FollowUp(response).None? then [response]
      else [response] + Walk(server, limit, FollowUp(response), clock, start + 1, requests - 1)
  }

  /** Every cursor is used before it expires, and the numbers are 64-bit. */
  ghost predicate InTime(server: Server, clock: nat -> nat) {
    && server.wire.RoundTrips()
    && |server.projects| < WORD && server.commitSequence < WORD
    && forall i: nat :: clock(i) < WORD && clock(i + 1) <= SaturatingAdd(clock(i), server.codec.ttlSeconds)
  }

  function PagesFrom(offset: nat, limit: nat, total: nat): nat
    requires 0 < limit
    decreases if offset < total then total - offset else 0
  {
    if total <= offset + limit then 1 else 1 + PagesFrom(offset + limit, limit, total)
  }

  lemma OneMoreLimit(x: nat, limit: nat)
    requires 0 < limit
    ensures (x + limit) / limit == x / limit + 1
  {
    var q, r := x / limit, x % limit;
    assert x == q * limit + r;
    QuotientIs(x + limit, limit, q + 1, r);
  }

  lemma QuotientIs(x: nat, limit: nat, q: nat, r: nat)
    requires r < limit && x == q * limit + r
    ensures x / limit == q
  {
    var found, left := x / limit, x % limit;
    assert x == found * limit + left;
    assert (q - found) * limit == left - r;
    if 1 <= q - found { MultipleIsLarge(q - found, limit); }
    if 1 <= found - q { MultipleIsLarge(found - q, limit); }
  }

  lemma MultipleIsLarge(k: nat, limit: nat)
    requires 1 <= k
    ensures limit <= k * limit
  {
  }

  /** One page when there is nothing to list, and otherwise the total over the limit, rounded up. */
  lemma {:induction false} PagesAreCeiling(offset: nat, limit: nat, total: nat)
    requires 0 < limit && offset <= total
    ensures PagesFrom(offset, limit, total) == if total == offset then 1 else (total - offset + limit - 1) / limit
    decreases total - offset
  {
    if offset < total {
      OneMoreLimit(total - offset - 1, limit);
    }
    if offset + limit < total {
      PagesAreCeiling(offset + limit, limit, total);
    } else if offset < total {
      QuotientIs(total - offset - 1, limit, 0, total - offset - 1);
    }
  }

  function RowsOf(responses: seq<Response>): seq<Project> {
    if responses == [] then []
    else (if responses[0].Page? then responses[0].rows else []) + RowsOf(responses[1..])
  }

  /** The cursor issued for an offset at some request. */
  predicate PointsTo(
      server: Server, limit: Option<nat>, cursor: Option<string>, clock: nat -> nat, start: nat, offset: nat)
  {
    if cursor.None? then offset == 0
    else
      && 0 < start
      && cursor.value == Encode(
        server.codec, server.wire, BindingOf(server, limit), offset, server.commitSequence, clock(start - 1))
  }

  lemma CursorFindsOffset(
      server: Server, limit: Option<nat>, cursor: Option<string>, clock: nat -> nat, start: nat, offset: nat)
    requires InTime(server, clock) && PointsTo(server, limit, cursor, clock, start, offset) && offset < WORD
    ensures Offset(server, BindingOf(server, limit), cursor, clock(start)) == Ok(Position(offset, server.commitSequence))
  {
    if cursor.Some? {
      assert clock(start - 1 + 1) == clock(start);
      DecodeOfEncode(
        server.codec, server.wire, BindingOf(server, limit), offset, server.commitSequence, clock(start - 1),
        BindingOf(server, limit), server.commitSequence, clock(start));
    }
  }

  lemma {:induction false} WalkFromOffset(
      server: Server, limit: Option<nat>, size: nat, cursor: Option<string>, clock: nat -> nat, start: nat,
      offset: nat, requests: nat)
    requires InTime(server, clock) && Grants(server.policy, limit, size)
    requires offset <= |server.projects| && PointsTo(server, limit, cursor, clock, start, offset)
    requires PagesFrom(offset, size, |server.projects|) <= requests
    ensures var walk := Walk(server, limit, cursor, clock, start, requests);
      && |walk| == PagesFrom(offset, size, |server.projects|)
      && (forall i :: 0 <= i < |walk| ==> walk[i].Page?)
      && RowsOf(walk) == Listing(server)[offset..]
      && FollowUp(walk[|walk| - 1]).None?
    decreases |server.projects| - offset
  {
    hide InTime, Listing, PointsTo, ListProjects, RowsOf, Walk, Limit;
    var total := |server.projects|;
    var response := ListProjects(server, PageInput(limit, cursor), clock(start));
    PageAt(server, limit, size, cursor, clock, start, offset);
    if total <= offset + size {
      WalkStops(server, limit, cursor, clock, start, requests);
    } else {
      WalkFromOffset(server, limit, size, response.nextCursor, clock, start + 1, offset + size, requests - 1);
      WalkGoesOn(server, limit, cursor, clock, start, requests);
      assert Listing(server)[offset..] == response.rows + Listing(server)[offset + size..];
    }
  }

  lemma WalkStops(
      server: Server, limit: Option<nat>, cursor: Option<string>, clock: nat -> nat, start: nat, requests: nat)
    requires 0 < requests
    ensures var response := ListProjects(server, PageInput(limit, cursor), clock(start));
      response.Page? && response.nextCursor.None? ==>
        var walk := Walk(server, limit, cursor, clock, start, requests);
        walk == [response] && RowsOf(walk) == response.rows
  {
  }

  lemma WalkGoesOn(
      server: Server, limit: Option<nat>, cursor: Option<string>, clock: nat -> nat, start: nat, requests: nat)
    requires 0 < requests
    ensures var response := ListProjects(server, PageInput(limit, cursor), clock(start));
      response.Page? && response.nextCursor.Some? ==>
        var walk := Walk(server, limit, cursor, clock, start, requests);
        var rest := Walk(server, limit, response.nextCursor, clock, start + 1, requests - 1);
        walk == [response] + rest && RowsOf(walk) == response.rows + RowsOf(rest)
  {
  }

  /** One page of a walk: its rows, and whether and where it points on. */
  lemma PageAt(
      server: Server, limit: Option<nat>, size: nat, cursor: Option<string>, clock: nat -> nat, start: nat,
      offset: nat)
    requires InTime(server, clock) && Grants(server.policy, limit, size)
    requires offset <= |server.projects| && PointsTo(server, limit, cursor, clock, start, offset)
    ensures var response := ListProjects(server, PageInput(limit, cursor), clock(start));
      var end := if |server.projects| < offset + size then |server.projects| else offset + size;
      && response.Page? && response.rows == Listing(server)[offset..end]
      && (response.nextCursor.None? <==> |server.projects| <= offset + size)
      && (response.nextCursor.Some? ==>
        PointsTo(server, limit, response.nextCursor, clock, start + 1, offset + size))
  {
    hide Listing, BindingOf, Limit, Cursor.Encode, Cursor.Decode;
    LimitIff(server.policy, limit, size);
    CursorFindsOffset(server, limit, cursor, clock, start, offset);
  }

  /**
   Following `next_cursor` from page one lists every project exactly once, in order, in as many pages as
   the total fills (one when there is none), and then stops.
   */
  lemma WalkListsEverythingOnce(
      server: Server, limit: Option<nat>, size: nat, clock: nat -> nat, requests: nat)
    requires InTime(server, clock) && Grants(server.policy, limit, size)
    requires var total := |server.projects|;
      (if total == 0 then 1 else (total + size - 1) / size) <= requests
    ensures var total := |server.projects|;
      var walk := Walk(server, limit, None, clock, 0, requests);
      && |walk| == (if total == 0 then 1 else (total + size - 1) / size)
      && (forall i :: 0 <= i < |walk| ==> walk[i].Page?)
      && FollowUp(walk[|walk| - 1]).None?
      && multiset(RowsOf(walk)) == multiset(server.projects)
      && forall i, j :: 0 <= i < j < |RowsOf(walk)| ==> InOrder(RowsOf(walk)[i], RowsOf(walk)[j])
  {
    hide Listing, InTime, Walk, RowsOf;
    PagesAreCeiling(0, size, |server.projects|);
    WalkFromOffset(server, limit, size, None, clock, 0, 0, requests);
    ListingIsSorted(server);
    assert Listing(server)[0..] == Listing(server);
  }

  /** A cursor used in time is refused exactly when a commit came between. */
  lemma ChangedCommitStopsTheWalk(
      server: Server, limit: Option<nat>, size: nat, cursor: Option<string>, clock: nat -> nat, start: nat,
      offset: nat, commitSequence: nat)
    requires InTime(server, clock) && Grants(server.policy, limit, size) && offset < WORD
    requires cursor.Some? && PointsTo(server, limit, cursor, clock, start, offset)
    ensures var response := ListProjects(
        server.(commitSequence := commitSequence), PageInput(limit, cursor), clock(start));
      response == CursorRefused(Expired) <==> commitSequence != server.commitSequence
  {
    LimitIff(server.policy, limit, size);
    assert clock(start - 1 + 1) == clock(start);
    DecodeOfEncode(
      server.codec, server.wire, BindingOf(server, limit), offset, server.commitSequence, clock(start - 1),
      BindingOf(server, limit), commitSequence, clock(start));
  }
}
