/** The passes over the session files: binding, analysis, and the walk with its fallback. */
module SessionPass {
  import opened Common
  import opened Counters
  import opened Events
  import opened Manifest
  import opened Lineage
  import opened SessionLog
  import opened Walk

  /** The allowlisted session files that exist, by session id. */
  type Files = map<string, seq<Event>>

  const ABSENT: Analysis := Analysis(None, [], [], [], ZERO, None, ZERO, false, [AbsentSession])

  function EventsOf(files: Files, id: string): seq<Event> {
    if id in files then files[id] else []
  }

  lemma OneMoreId(sessions: seq<Session>, i: nat)
    requires i < |sessions|
    ensures SessionIds(sessions[..i + 1]) == SessionIds(sessions[..i]) + [sessions[i].id]
  {
  }

  // ---------- the binding prepass ----------

  /** What a session's log says of itself; an absent log says nothing. */
  function BindingFor(files: Files, id: string): Binding {
    BindingOf(EventsOf(files, id))
  }

  function BindingsOf(sessions: seq<Session>, files: Files): map<string, Binding> {
    map id | id in SessionIds(sessions) :: BindingFor(files, id)
  }

  /** The log's session_meta events agree with each other, and any parent they name is the manifest's. */
  ghost predicate BindingAgrees(s: Session, files: Files) {
    s.id in files ==>
      && MetaConsistent(files[s.id], s.id)
      && (BindingFor(files, s.id).parentThreadId.Some? ==> BindingFor(files, s.id).parentThreadId == s.parentId)
  }

  ghost predicate BindingsAgree(sessions: seq<Session>, files: Files) {
    forall i :: 0 <= i < |sessions| ==> BindingAgrees(sessions[i], files)
  }

  method ReadBinding(s: Session, files: Files) returns (r: Result<Binding>)
    ensures r.Ok? <==> BindingAgrees(s, files)
    ensures r.Ok? ==> r.value == BindingFor(files, s.id)
    ensures r.Fail? ==> r.failure == IdentityMismatch(MetaBinding) || r.failure == IdentityMismatch(ParentBinding)
  {
    if s.id !in files {
      return Ok(Binding(None, None));
    }
    var binding := ReadSessionMetaBinding(files[s.id], s.id);
    if binding.Fail? {
      return binding;
    }
    if binding.value.parentThreadId.Some? {
      if s.parentId.None? {
        return Fail(IdentityMismatch(ParentBinding));
      }
      if binding.value.parentThreadId != s.parentId {
        return Fail(IdentityMismatch(ParentBinding));
      }
    }
    return binding;
  }

  method ReadBindings(sessions: seq<Session>, files: Files) returns (r: Result<map<string, Binding>>)
    ensures r.Ok? <==> BindingsAgree(sessions, files)
    ensures r.Ok? ==> r.value == BindingsOf(sessions, files)
    ensures r.Fail? ==> r.failure == IdentityMismatch(MetaBinding) || r.failure == IdentityMismatch(ParentBinding)
  {
    hide BindingAgrees, BindingFor;
    var bindings: map<string, Binding> := map[];
    for i := 0 to |sessions|
      invariant bindings == BindingsOf(sessions[..i], files)
      invariant forall j :: 0 <= j < i ==> BindingAgrees(sessions[j], files)
    {
      var binding := ReadBinding(sessions[i], files);
      if binding.Fail? {
        return Fail(binding.failure);
      }
      OneMoreId(sessions, i);
      bindings := bindings[sessions[i].id := binding.value];
    }
    assert sessions[..|sessions|] == sessions;
    return Ok(bindings);
  }

  // ---------- the analysis pass ----------

  function MetaIdOf(bindings: map<string, Binding>, id: string): Option<string> {
    if id in bindings then bindings[id].metaId else None
  }

  function SessionAnalysis(files: Files, w: Window, id: string): Analysis {
    if id in files then AnalysisOf(files[id], w, BindingFor(files, id).metaId) else ABSENT
  }

  function AnalysesOf(sessions: seq<Session>, files: Files, w: Window): map<string, Analysis> {
    map id | id in SessionIds(sessions) :: SessionAnalysis(files, w, id)
  }

  /** Parents run the trial's host model; a helper may expect a model of its own. */
  function ExpectedModel(s: Session, hostModel: string): Option<string> {
    if s.role.ParentRole? then Some(hostModel) else s.expectedModel
  }

  /** A present log is acceptable to the analysis, with its proven ancestors as the ids it may share. */
  ghost predicate LogAgrees(s: Session, sessions: seq<Session>, files: Files, w: Window, hostModel: string) {
    s.id in files ==>
      Acceptable(files[s.id], w, s.id, BindingFor(files, s.id).metaId,
                 ProvenAncestors(Index(sessions), BindingsOf(sessions, files), s.id), ExpectedModel(s, hostModel))
  }

  ghost predicate LogsAgree(sessions: seq<Session>, files: Files, w: Window, hostModel: string) {
    forall i :: 0 <= i < |sessions| ==> LogAgrees(sessions[i], sessions, files, w, hostModel)
  }

  lemma {:induction false} ListedParents(sessions: seq<Session>)
    requires Forest(sessions)
    ensures forall id :: id in Index(sessions) && Index(sessions)[id].parentId.Some? ==>
              Index(sessions)[id].parentId.value in Index(sessions)
  {
    IndexIsExact(sessions);
    var byId := Index(sessions);
    forall id | id in byId && byId[id].parentId.Some? ensures byId[id].parentId.value in byId {
      var i :| 0 <= i < |sessions| && sessions[i] == byId[id];
    }
  }

  lemma {:induction false} SessionIsIndexed(sessions: seq<Session>, s: Session)
    requires Forest(sessions) && s in sessions
    ensures s.id in Index(sessions) && Index(sessions)[s.id] == s && ChainEnds(Index(sessions), s.id)
    ensures s.id in SessionIds(sessions)
    ensures forall id :: id in Index(sessions) ==> Index(sessions)[id].id == id
  {
    IndexIsExact(sessions);
    var i :| 0 <= i < |sessions| && sessions[i] == s;
    assert ChainEnds(Index(sessions), sessions[i].id);
    assert SessionIds(sessions)[i] == s.id;
  }

  method AnalyzeSession(s: Session, ghost sessions: seq<Session>, files: Files, w: Window, byId: map<string, Session>,
                        bindings: map<string, Binding>, hostModel: string) returns (r: Result<Analysis>)
    requires Forest(sessions) && s in sessions && byId == Index(sessions) && bindings == BindingsOf(sessions, files)
    ensures r.Ok? <==> LogAgrees(s, sessions, files, w, hostModel)
    ensures r.Ok? ==> r.value == SessionAnalysis(files, w, s.id)
    ensures r.Fail? ==> LogFailure(r.failure)
  {
    hide Forest, Acceptable, AnalysisOf, Index, ProvenAncestor, ChainEnds;
    if s.id !in files {
      return Ok(ABSENT);
    }
    SessionIsIndexed(sessions, s);
    ListedParents(sessions);
    var shared := CollectProvenAncestorSessionIds(s, byId, bindings);
    forall x | ProvenAncestor(byId, bindings, s.id, x) ensures x in byId {
      ProvenAncestorIsListed(byId, bindings, s.id, x);
    }
    assert shared.value == ProvenAncestors(byId, bindings, s.id);
    r := AnalyzeSessionEvents(files[s.id], w, s.id, MetaIdOf(bindings, s.id), shared.value,
      ExpectedModel(s, hostModel));
  }

  /** Each record names its own thread or none, and its own session, none, or a fully proven ancestor. */
  ghost predicate RecordsAreOwn(events: seq<Event>, id: string, byId: map<string, Session>,
                                bindings: map<string, Binding>) {
    forall i :: 0 <= i < |events| && events[i].body.TokenUsage? ==>
      && (events[i].body.record.threadId.None? || events[i].body.record.threadId.value == id)
      && (events[i].body.record.sessionId.None? || events[i].body.record.sessionId.value == id ||
          ProvenAncestor(byId, bindings, id, events[i].body.record.sessionId.value))
  }

  ghost predicate AllRecordsAreOwn(sessions: seq<Session>, files: Files) {
    forall i :: 0 <= i < |sessions| && sessions[i].id in files ==>
      RecordsAreOwn(files[sessions[i].id], sessions[i].id, Index(sessions), BindingsOf(sessions, files))
  }

  /** What acceptance of a log says of its usage records. */
  lemma {:induction false} AcceptedRecordsAreOwn(sessions: seq<Session>, files: Files, w: Window, hostModel: string,
                                                 s: Session)
    requires Forest(sessions) && s in sessions && s.id in files
    requires LogAgrees(s, sessions, files, w, hostModel)
    ensures RecordsAreOwn(files[s.id], s.id, Index(sessions), BindingsOf(sessions, files))
  {
    var events, byId, bindings := files[s.id], Index(sessions), BindingsOf(sessions, files);
    var metaId, shared := BindingFor(files, s.id).metaId, ProvenAncestors(byId, bindings, s.id);
    assert RecordsAcceptable(events, s.id, metaId, shared) && (metaId.Some? ==> metaId.value == s.id);
    hide LogAgrees, Forest, Index, ProvenAncestor, ChainEnds;
    SessionIsIndexed(sessions, s);
    ListedParents(sessions);
    forall x ensures x in shared <==> ProvenAncestor(byId, bindings, s.id, x) {
      if ProvenAncestor(byId, bindings, s.id, x) {
        ProvenAncestorIsListed(byId, bindings, s.id, x);
      }
    }
    forall i | 0 <= i < |events| && events[i].body.TokenUsage?
      ensures events[i].body.record.threadId.None? || events[i].body.record.threadId.value == s.id
      ensures || events[i].body.record.sessionId.None? || events[i].body.record.sessionId.value == s.id
              || ProvenAncestor(byId, bindings, s.id, events[i].body.record.sessionId.value)
    {
      AcceptedIdentity(byId, bindings, s.id, metaId, shared, events[i].body.record);
    }
  }

  lemma {:induction false} NothingAnalyzed(files: Files, w: Window)
    ensures AnalysesOf([], files, w) == map[]
  {
  }

  lemma {:induction false} OneMoreAnalysis(sessions: seq<Session>, files: Files, w: Window, i: nat)
    requires i < |sessions|
    ensures AnalysesOf(sessions[..i + 1], files, w) ==
              AnalysesOf(sessions[..i], files, w)[sessions[i].id := SessionAnalysis(files, w, sessions[i].id)]
  {
    hide SessionAnalysis;
    OneMoreId(sessions, i);
  }

  lemma {:induction false} AllAreOwn(sessions: seq<Session>, files: Files, w: Window, hostModel: string)
    requires Forest(sessions) && LogsAgree(sessions, files, w, hostModel)
    ensures AllRecordsAreOwn(sessions, files)
  {
    hide Forest, LogAgrees, Index, RecordsAreOwn, BindingsOf;
    forall i | 0 <= i < |sessions| && sessions[i].id in files
      ensures RecordsAreOwn(files[sessions[i].id], sessions[i].id, Index(sessions), BindingsOf(sessions, files))
    {
      AcceptedRecordsAreOwn(sessions, files, w, hostModel, sessions[i]);
    }
  }

  method AnalyzeSessions(sessions: seq<Session>, files: Files, w: Window, bindings: map<string, Binding>,
                         hostModel: string)
    returns (r: Result<map<string, Analysis>>)
    requires Forest(sessions) && bindings == BindingsOf(sessions, files)
    ensures r.Ok? <==> LogsAgree(sessions, files, w, hostModel)
    ensures r.Ok? ==> r.value == AnalysesOf(sessions, files, w)
    ensures r.Ok? ==> AllRecordsAreOwn(sessions, files)
    ensures r.Fail? ==> LogFailure(r.failure)
  {
    hide Forest, LogAgrees, SessionAnalysis, AnalysesOf, Index, AllRecordsAreOwn;
    NothingAnalyzed(files, w);
    var byId := Index(sessions);
    var analyses: map<string, Analysis> := map[];
    for i := 0 to |sessions|
      invariant analyses == AnalysesOf(sessions[..i], files, w)
      invariant forall j :: 0 <= j < i ==> LogAgrees(sessions[j], sessions, files, w, hostModel)
    {
      var analysis := AnalyzeSession(sessions[i], sessions, files, w, byId, bindings, hostModel);
      if analysis.Fail? {
        return Fail(analysis.failure);
      }
      OneMoreAnalysis(sessions, files, w, i);
      analyses := analyses[sessions[i].id := analysis.value];
    }
    assert sessions[..|sessions|] == sessions;
    AllAreOwn(sessions, files, w, hostModel);
    return Ok(analyses);
  }

  // ---------- the walk and its fallback ----------

  /** What the linked-children walk returned, and the walk order once the fallback has run. */
  datatype SessionWalk = SessionWalk(linked: Walk, walkOrder: seq<string>)

  ghost predicate LinksFit(byId: map<string, Session>, present: set<string>, id: string, links: seq<ChildLink>) {
    forall k :: 0 <= k < |links| ==> LinkOk(byId, present, id, links[k])
  }

  /** Every started child that the manifest lists is linked as the manifest says and has a file. */
  ghost predicate LinksAgree(sessions: seq<Session>, files: Files) {
    forall i :: 0 <= i < |sessions| ==>
      LinksFit(Index(sessions), files.Keys, sessions[i].id, ChildLinks(EventsOf(files, sessions[i].id)))
  }

  ghost predicate LinksListed(byId: map<string, Session>, links: seq<ChildLink>) {
    forall k :: 0 <= k < |links| ==> links[k].threadId in byId
  }

  /** Every started child is in the manifest. */
  ghost predicate ChildrenListed(sessions: seq<Session>, files: Files) {
    forall i :: 0 <= i < |sessions| ==> LinksListed(Index(sessions), ChildLinks(EventsOf(files, sessions[i].id)))
  }

  function RootIds(sessions: seq<Session>): seq<string> {
    if sessions == [] then []
    else
      var last := sessions[|sessions| - 1];
      RootIds(sessions[..|sessions| - 1]) + (if last.role.ParentRole? then [last.id] else [])
  }

  lemma {:induction false} RootIdsAreRoots(sessions: seq<Session>)
    ensures forall id :: id in RootIds(sessions) <==>
              exists i :: 0 <= i < |sessions| && sessions[i].role.ParentRole? && sessions[i].id == id
    decreases |sessions|
  {
    if sessions != [] {
      var front, last := sessions[..|sessions| - 1], sessions[|sessions| - 1];
      assert sessions == front + [last];
      RootIdsAreRoots(front);
      forall id
        ensures id in RootIds(sessions) <==>
                exists i :: 0 <= i < |sessions| && sessions[i].role.ParentRole? && sessions[i].id == id
      {
        if id in RootIds(front) {
          var i :| 0 <= i < |front| && front[i].role.ParentRole? && front[i].id == id;
          assert sessions[i] == front[i];
        } else if last.role.ParentRole? && last.id == id {
          assert sessions[|front|].id == id;
        } else {
          assert forall i :: 0 <= i < |front| ==> sessions[i] == front[i];
        }
      }
    }
  }

  lemma {:induction false} SeedsAreTheRoots(sessions: seq<Session>)
    requires Forest(sessions)
    ensures forall i :: 0 <= i < |RootIds(sessions)| ==>
              RootIds(sessions)[i] in Index(sessions) && Index(sessions)[RootIds(sessions)[i]].parentId.None?
    ensures forall id :: id in Index(sessions) && Index(sessions)[id].parentId.None? ==> id in RootIds(sessions)
  {
    IndexIsExact(sessions);
    RootIdsAreRoots(sessions);
    forall i | 0 <= i < |RootIds(sessions)|
      ensures RootIds(sessions)[i] in Index(sessions) && Index(sessions)[RootIds(sessions)[i]].parentId.None?
    {
      assert RootIds(sessions)[i] in RootIds(sessions);
    }
    forall id | id in Index(sessions) && Index(sessions)[id].parentId.None? ensures id in RootIds(sessions) {
      var i :| 0 <= i < |sessions| && sessions[i] == Index(sessions)[id];
    }
  }

  /** Helpers the walk did not reach, in manifest order. */
  function Unvisited(sessions: seq<Session>, ordered: seq<string>): seq<string> {
    if sessions == [] then []
    else
      var last := sessions[|sessions| - 1];
      var before := Unvisited(sessions[..|sessions| - 1], ordered);
      if last.id !in ordered + before && last.role.HelperRole? then before + [last.id] else before
  }

  method AppendUnvisited(sessions: seq<Session>, ordered: seq<string>) returns (walkOrder: seq<string>)
    ensures walkOrder == ordered + Unvisited(sessions, ordered)
  {
    walkOrder := ordered;
    for i := 0 to |sessions|
      invariant walkOrder == ordered + Unvisited(sessions[..i], ordered)
    {
      assert sessions[..i + 1][..i] == sessions[..i];
      if sessions[i].id !in walkOrder && sessions[i].role.HelperRole? {
        walkOrder := walkOrder + [sessions[i].id];
      }
    }
    assert sessions[..|sessions|] == sessions;
  }

  /** After a walk of the forest the fallback finds nothing to append. */
  lemma {:induction false} NothingUnvisited(sessions: seq<Session>, ordered: seq<string>)
    requires forall i :: 0 <= i < |sessions| ==> sessions[i].id in ordered
    ensures Unvisited(sessions, ordered) == []
    decreases |sessions|
  {
    if sessions != [] {
      NothingUnvisited(sessions[..|sessions| - 1], ordered);
      assert sessions[|sessions| - 1].id in ordered;
    }
  }

  function LinkTable(analyses: map<string, Analysis>): map<string, seq<ChildLink>> {
    map id | id in analyses :: analyses[id].childLinks
  }

  lemma LinksOfSession(files: Files, w: Window, id: string)
    ensures SessionAnalysis(files, w, id).childLinks == ChildLinks(EventsOf(files, id))
  {
    hide Counted, ObservedModels, CompactedAt, SumUsage, LastThread, PreWindowThread, PrimaryComplete, NotesOf;
  }

  lemma {:induction false} TableHoldsLinks(sessions: seq<Session>, files: Files, w: Window)
    requires Forest(sessions)
    ensures LinkTable(AnalysesOf(sessions, files, w)).Keys == Index(sessions).Keys
    ensures forall id :: id in Index(sessions) ==>
              LinkTable(AnalysesOf(sessions, files, w))[id] == ChildLinks(EventsOf(files, id))
  {
    IndexIsExact(sessions);
    hide SessionAnalysis, Forest, Index, EventsOf, ChildLinks, SessionIds;
    forall id ensures SessionAnalysis(files, w, id).childLinks == ChildLinks(EventsOf(files, id)) {
      LinksOfSession(files, w, id);
    }
  }

  /** The links each session's log shows. */
  function StartedLinks(sessions: seq<Session>, files: Files): map<string, seq<ChildLink>> {
    map id | id in Index(sessions) :: ChildLinks(EventsOf(files, id))
  }

  /** Every session once, breadth first from the roots. */
  ghost predicate InWalkOrder(sessions: seq<Session>, files: Files, ordered: seq<string>) {
    && VisitsAll(sessions, ordered)
    && BreadthFirst(sessions, StartedLinks(sessions, files), Index(sessions), RootIds(sessions), ordered)
  }

  lemma SameTables(a: map<string, seq<ChildLink>>, b: map<string, seq<ChildLink>>)
    requires a.Keys == b.Keys && forall id :: id in a ==> a[id] == b[id]
    ensures a == b
  {
  }

  lemma {:induction false} StartedLinksAre(sessions: seq<Session>, files: Files)
    ensures StartedLinks(sessions, files).Keys == Index(sessions).Keys
    ensures forall id :: id in Index(sessions) ==> StartedLinks(sessions, files)[id] == ChildLinks(EventsOf(files, id))
  {
    hide Index, ChildLinks, EventsOf;
  }

  lemma {:induction false} TableIsStarted(sessions: seq<Session>, files: Files, w: Window)
    requires Forest(sessions)
    ensures LinkTable(AnalysesOf(sessions, files, w)) == StartedLinks(sessions, files)
  {
    hide *;
    TableHoldsLinks(sessions, files, w);
    StartedLinksAre(sessions, files);
    SameTables(LinkTable(AnalysesOf(sessions, files, w)), StartedLinks(sessions, files));
  }

  lemma {:induction false} LinksOkExactly(sessions: seq<Session>, files: Files, w: Window)
    requires Forest(sessions)
    ensures LinksAgree(sessions, files) <==>
              forall id :: id in Index(sessions) ==>
                LinksOk(Index(sessions), files.Keys, id, LinkTable(AnalysesOf(sessions, files, w)))
  {
    hide LinkOk, ChildLinks, LinkTable, AnalysesOf;
    var byId, links := Index(sessions), LinkTable(AnalysesOf(sessions, files, w));
    IndexIsExact(sessions);
    TableHoldsLinks(sessions, files, w);
    hide Forest, Index;
    forall id | id in byId
      ensures LinksOk(byId, files.Keys, id, links) <==> LinksFit(byId, files.Keys, id, ChildLinks(EventsOf(files, id)))
    {
    }
    if LinksAgree(sessions, files) {
      forall id | id in byId ensures LinksOk(byId, files.Keys, id, links) {
        var i :| 0 <= i < |sessions| && sessions[i] == byId[id];
      }
    }
  }

  lemma {:induction false} NoneUnlistedOf(byId: map<string, Session>, id: string, links: seq<ChildLink>)
    ensures UnlistedOf(byId, id, links) == [] <==> LinksListed(byId, links)
    decreases |links|
  {
    if links != [] {
      var front, last := links[..|links| - 1], links[|links| - 1];
      assert links == front + [last];
      NoneUnlistedOf(byId, id, front);
      assert forall k :: 0 <= k < |front| ==> front[k] == links[k];
      assert |UnlistedOf(byId, id, links)| == |UnlistedOf(byId, id, front)| + (if last.threadId in byId then 0 else 1);
    }
  }

  lemma {:induction false} NoneUnlistedAlong(byId: map<string, Session>, links: map<string, seq<ChildLink>>,
                                             ordered: seq<string>)
    ensures UnlistedAlong(byId, links, ordered) == [] <==>
              forall i :: 0 <= i < |ordered| ==> LinksListed(byId, LinksOf(links, ordered[i]))
    decreases |ordered|
  {
    hide LinksListed, LinksOf, UnlistedOf;
    if ordered != [] {
      var front, last := ordered[..|ordered| - 1], ordered[|ordered| - 1];
      NoneUnlistedAlong(byId, links, front);
      NoneUnlistedOf(byId, last, LinksOf(links, last));
      assert forall i :: 0 <= i < |front| ==> front[i] == ordered[i];
      assert |UnlistedAlong(byId, links, ordered)| ==
             |UnlistedAlong(byId, links, front)| + |UnlistedOf(byId, last, LinksOf(links, last))|;
    }
  }

  lemma {:induction false} UnlistedExactly(sessions: seq<Session>, files: Files, w: Window, ordered: seq<string>)
    requires Forest(sessions) && VisitsAll(sessions, ordered)
    ensures UnlistedAlong(Index(sessions), LinkTable(AnalysesOf(sessions, files, w)), ordered) == [] <==>
              ChildrenListed(sessions, files)
  {
    hide LinksListed, ChildLinks, LinkTable, AnalysesOf, UnlistedAlong;
    var byId, links := Index(sessions), LinkTable(AnalysesOf(sessions, files, w));
    NoneUnlistedAlong(byId, links, ordered);
    IndexIsExact(sessions);
    TableHoldsLinks(sessions, files, w);
    hide Forest, Index;
    forall i | 0 <= i < |ordered| ensures ordered[i] in byId &&
      LinksOf(links, ordered[i]) == ChildLinks(EventsOf(files, ordered[i])) {
      assert ordered[i] in ToSet(ordered);
    }
    forall i | 0 <= i < |sessions| ensures sessions[i].id in ordered {
      assert SessionIds(sessions)[i] in ToSet(ordered);
    }
    if ChildrenListed(sessions, files) {
      forall i | 0 <= i < |ordered| ensures LinksListed(byId, LinksOf(links, ordered[i])) {
        var k :| 0 <= k < |sessions| && sessions[k] == byId[ordered[i]];
      }
    }
  }

  /** The walk from the roots, then the fallback, which never has anything to do. */
  method WalkSessions(sessions: seq<Session>, analyses: map<string, Analysis>, files: Files, ghost w: Window)
    returns (r: Result<SessionWalk>)
    requires Forest(sessions) && analyses == AnalysesOf(sessions, files, w)
    ensures r.Ok? <==> LinksAgree(sessions, files)
    ensures r.Ok? ==> InWalkOrder(sessions, files, r.value.walkOrder) && r.value.walkOrder == r.value.linked.ordered
    ensures r.Ok? ==> (r.value.linked.unlisted == [] <==> ChildrenListed(sessions, files))
    ensures r.Fail? ==> LinkFailure(r.failure)
  {
    hide LinksOk, LinksAgree, ChildrenListed, ParentsFirst, Index, Forest, LinkTable, AnalysesOf, UnlistedAlong,
      StartedLinks, BreadthFirst;
    SeedsAreTheRoots(sessions);
    TableIsStarted(sessions, files, w);
    LinksOkExactly(sessions, files, w);
    var walk := ResolveLinkedChildren(RootIds(sessions), sessions, LinkTable(analyses), files.Keys);
    if walk.Fail? {
      return Fail(walk.failure);
    }
    var ordered := walk.value.ordered;
    UnlistedExactly(sessions, files, w, ordered);
    var walkOrder := AppendUnvisited(sessions, ordered);
    forall i | 0 <= i < |sessions| ensures sessions[i].id in ordered {
      assert SessionIds(sessions)[i] in ToSet(ordered);
    }
    NothingUnvisited(sessions, ordered);
    assert walkOrder == ordered;
    return Ok(SessionWalk(walk.value, walkOrder));
  }


  // ---------- what links say, event by event ----------

  /** The event starts a child under that thread id. */
  predicate Starts(event: Event, threadId: string) {
    event.body.ChildStarted? && event.body.link.threadId == threadId
  }

  lemma {:induction false} ChildLinksAre(events: seq<Event>, link: ChildLink)
    ensures link in ChildLinks(events) <==> exists k :: 0 <= k < |events| && events[k].body == ChildStarted(link)
    decreases |events|
  {
    if events != [] {
      var front, last := events[..|events| - 1], events[|events| - 1];
      ChildLinksAre(front, link);
      assert events == front + [last] && events[|front|] == last;
      assert forall k :: 0 <= k < |front| ==> events[k] == front[k];
    }
  }

  /** A session's log starts another session's thread as the manifest says. */
  ghost predicate StartsAsListed(log: seq<Event>, parent: Session, child: Session, files: Files) {
    forall k :: 0 <= k < |log| && Starts(log[k], child.id) ==>
      && child.parentId == Some(parent.id) && child.id in files
      && (child.agentPath == None || child.agentPath == Some(log[k].body.link.agentPath))
  }

  lemma {:induction false} FitsChild(sessions: seq<Session>, files: Files, i: nat, j: nat)
    requires Forest(sessions) && i < |sessions| && j < |sessions|
    requires LinksFit(Index(sessions), files.Keys, sessions[i].id, ChildLinks(EventsOf(files, sessions[i].id)))
    ensures StartsAsListed(EventsOf(files, sessions[i].id), sessions[i], sessions[j], files)
  {
    var log, child := EventsOf(files, sessions[i].id), sessions[j];
    SessionIsIndexed(sessions, child);
    hide Forest, Index, ChildLinks;
    forall k | 0 <= k < |log| && Starts(log[k], child.id)
      ensures child.parentId == Some(sessions[i].id) && child.id in files
      ensures child.agentPath == None || child.agentPath == Some(log[k].body.link.agentPath)
    {
      ChildLinksAre(log, log[k].body.link);
      assert LinkOk(Index(sessions), files.Keys, sessions[i].id, log[k].body.link);
    }
  }

  lemma {:induction false} ChildrenFit(sessions: seq<Session>, files: Files, i: nat)
    requires Forest(sessions) && i < |sessions|
    requires forall j :: 0 <= j < |sessions| ==>
               StartsAsListed(EventsOf(files, sessions[i].id), sessions[i], sessions[j], files)
    ensures LinksFit(Index(sessions), files.Keys, sessions[i].id, ChildLinks(EventsOf(files, sessions[i].id)))
  {
    var log := EventsOf(files, sessions[i].id);
    var links := ChildLinks(log);
    IndexIsExact(sessions);
    hide Forest, Index, ChildLinks;
    forall n | 0 <= n < |links| ensures LinkOk(Index(sessions), files.Keys, sessions[i].id, links[n]) {
      ChildLinksAre(log, links[n]);
      assert links[n] in links;
      var k :| 0 <= k < |log| && log[k].body == ChildStarted(links[n]);
      if links[n].threadId in Index(sessions) {
        var j :| 0 <= j < |sessions| && sessions[j] == Index(sessions)[links[n].threadId];
        assert Starts(log[k], sessions[j].id);
      }
    }
  }

  /**
   * The walk is not refused exactly when every child that a log starts and the manifest lists has that log's session
   * as its parent, a file, and the agent path written for it, if one was.
   */
  lemma LinksAsListed(sessions: seq<Session>, files: Files)
    requires Forest(sessions)
    ensures LinksAgree(sessions, files) <==>
              forall i, j :: 0 <= i < |sessions| && 0 <= j < |sessions| ==>
                StartsAsListed(EventsOf(files, sessions[i].id), sessions[i], sessions[j], files)
  {
    hide Forest, LinksFit, StartsAsListed;
    if LinksAgree(sessions, files) {
      forall i, j | 0 <= i < |sessions| && 0 <= j < |sessions|
        ensures StartsAsListed(EventsOf(files, sessions[i].id), sessions[i], sessions[j], files)
      {
        FitsChild(sessions, files, i, j);
      }
    }
    if forall i, j :: 0 <= i < |sessions| && 0 <= j < |sessions| ==>
         StartsAsListed(EventsOf(files, sessions[i].id), sessions[i], sessions[j], files) {
      forall i | 0 <= i < |sessions|
        ensures LinksFit(Index(sessions), files.Keys, sessions[i].id, ChildLinks(EventsOf(files, sessions[i].id)))
      {
        ChildrenFit(sessions, files, i);
      }
    }
  }

  /** No child counts as unlisted exactly when every thread a log starts is a session of the manifest. */
  lemma ChildrenAsListed(sessions: seq<Session>, files: Files)
    requires Forest(sessions)
    ensures ChildrenListed(sessions, files) <==>
              forall i :: 0 <= i < |sessions| ==> StartsListed(EventsOf(files, sessions[i].id), sessions)
  {
    IndexIsExact(sessions);
    hide Forest, Index, ChildLinks;
    forall i | 0 <= i < |sessions|
      ensures LinksListed(Index(sessions), ChildLinks(EventsOf(files, sessions[i].id))) <==>
                StartsListed(EventsOf(files, sessions[i].id), sessions)
    {
      ListedExactly(EventsOf(files, sessions[i].id), sessions);
    }
  }

  ghost predicate StartsListed(log: seq<Event>, sessions: seq<Session>) {
    forall k :: 0 <= k < |log| && log[k].body.ChildStarted? ==> log[k].body.link.threadId in SessionIds(sessions)
  }

  lemma {:induction false} ListedExactly(log: seq<Event>, sessions: seq<Session>)
    requires Index(sessions).Keys == ToSet(SessionIds(sessions))
    ensures LinksListed(Index(sessions), ChildLinks(log)) <==> StartsListed(log, sessions)
  {
    hide Index, ChildLinks;
    var links := ChildLinks(log);
    if LinksListed(Index(sessions), links) {
      forall k | 0 <= k < |log| && log[k].body.ChildStarted? ensures log[k].body.link.threadId in SessionIds(sessions) {
        ChildLinksAre(log, log[k].body.link);
        var n :| 0 <= n < |links| && links[n] == log[k].body.link;
      }
    }
    if StartsListed(log, sessions) {
      forall n | 0 <= n < |links| ensures links[n].threadId in Index(sessions) {
        ChildLinksAre(log, links[n]);
        assert links[n] in links;
      }
    }
  }
}
