/** The worklist walk over the session forest. */
module Walk {
  import opened Common
  import opened Events
  import opened Manifest

  /** The visit order, and the started children that no manifest session answers to. */
  datatype Walk = Walk(ordered: seq<string>, unlisted: seq<(string, string)>)

  /** A started-child link agrees with the manifest, or names a thread the manifest does not list. */
  predicate LinkOk(byId: map<string, Session>, present: set<string>, id: string, link: ChildLink) {
    link.threadId in byId ==>
      var child := byId[link.threadId];
      && (child.agentPath.None? || child.agentPath.value == link.agentPath)
      && child.parentId == Some(id)
      && child.id in present
  }

  ghost predicate LinksOk(byId: map<string, Session>, present: set<string>, id: string,
                          links: map<string, seq<ChildLink>>) {
    id in links ==> forall i :: 0 <= i < |links[id]| ==> LinkOk(byId, present, id, links[id][i])
  }

  function UnlistedOf(byId: map<string, Session>, id: string, links: seq<ChildLink>): seq<(string, string)> {
    if links == [] then []
    else
      var last := links[|links| - 1];
      UnlistedOf(byId, id, links[..|links| - 1]) + (if last.threadId in byId then [] else [(id, last.threadId)])
  }

  function LinksOf(links: map<string, seq<ChildLink>>, id: string): seq<ChildLink> {
    if id in links then links[id] else []
  }

  function UnlistedAlong(byId: map<string, Session>, links: map<string, seq<ChildLink>>,
                         ordered: seq<string>): seq<(string, string)> {
    if ordered == [] then []
    else
      var last := ordered[|ordered| - 1];
      UnlistedAlong(byId, links, ordered[..|ordered| - 1]) + UnlistedOf(byId, last, LinksOf(links, last))
  }

  ghost predicate ParentsFirst(byId: map<string, Session>, ordered: seq<string>) {
    forall i :: 0 <= i < |ordered| ==>
      ordered[i] in byId && (byId[ordered[i]].parentId.Some? ==> byId[ordered[i]].parentId.value in ordered[..i])
  }

  /** Each session once, parents before children. */
  ghost predicate VisitsAll(sessions: seq<Session>, ordered: seq<string>) {
    && Distinct(ordered)
    && ToSet(ordered) == ToSet(SessionIds(sessions))
    && ParentsFirst(Index(sessions), ordered)
  }

  // ---------- the order of the walk ----------

  /** Each id once, where it first stands. */
  function Once(ids: seq<string>): seq<string> {
    if ids == [] then []
    else
      var before, last := Once(ids[..|ids| - 1]), ids[|ids| - 1];
      if last in before then before else before + [last]
  }

  /** The threads of the links that the manifest lists. */
  function ListedThreads(byId: map<string, Session>, links: seq<ChildLink>): seq<string> {
    if links == [] then []
    else
      var last := links[|links| - 1];
      ListedThreads(byId, links[..|links| - 1]) + (if last.threadId in byId then [last.threadId] else [])
  }

  /** The sessions the manifest puts below an id. */
  function ManifestChildren(sessions: seq<Session>, id: string): seq<string> {
    if sessions == [] then []
    else
      var last := sessions[|sessions| - 1];
      ManifestChildren(sessions[..|sessions| - 1], id) + (if last.parentId == Some(id) then [last.id] else [])
  }

  function ChildrenOf(sessions: seq<Session>, links: seq<ChildLink>, byId: map<string, Session>,
                      id: string): seq<string> {
    ListedThreads(byId, links) + ManifestChildren(sessions, id)
  }

  function ChildrenAlong(sessions: seq<Session>, links: map<string, seq<ChildLink>>, byId: map<string, Session>,
                         ordered: seq<string>): seq<string> {
    if ordered == [] then []
    else
      var last := ordered[|ordered| - 1];
      ChildrenAlong(sessions, links, byId, ordered[..|ordered| - 1]) +
        ChildrenOf(sessions, LinksOf(links, last), byId, last)
  }

  /** Breadth first: the seeds, then the children of each visited session in turn, first those its log started. */
  ghost predicate BreadthFirst(sessions: seq<Session>, links: map<string, seq<ChildLink>>, byId: map<string, Session>,
                               seeds: seq<string>, ordered: seq<string>) {
    ordered == Once(seeds + ChildrenAlong(sessions, links, byId, ordered))
  }

  lemma {:induction false} OnceIn(ids: seq<string>, x: string)
    ensures x in Once(ids) <==> x in ids
    decreases |ids|
  {
    if ids != [] {
      assert ids == ids[..|ids| - 1] + [ids[|ids| - 1]];
      OnceIn(ids[..|ids| - 1], x);
    }
  }

  lemma {:induction false} OnceMore(ids: seq<string>, x: string)
    ensures Once(ids + [x]) == if x in ids then Once(ids) else Once(ids) + [x]
  {
    assert (ids + [x])[..|ids|] == ids;
    OnceIn(ids, x);
  }

  lemma {:induction false} OnceOfDistinct(ids: seq<string>)
    requires Distinct(ids)
    ensures Once(ids) == ids
    decreases |ids|
  {
    if ids != [] {
      var front, last := ids[..|ids| - 1], ids[|ids| - 1];
      assert ids == front + [last];
      OnceOfDistinct(front);
      OnceIn(front, last);
      assert forall i :: 0 <= i < |front| ==> ids[i] != ids[|front|];
    }
  }

  /** The same id behind both keeps two lists equal up to repetition, and may be left out where it already stands. */
  lemma {:induction false} Pushed(a: seq<string>, b: seq<string>, x: string)
    requires Once(a) == Once(b)
    ensures Once(a + [x]) == Once(b + [x])
    ensures x in b ==> Once(a + [x]) == Once(b)
  {
    OnceMore(a, x);
    OnceMore(b, x);
    OnceIn(a, x);
    OnceIn(b, x);
  }

  lemma {:induction false} PushedAll(a: seq<string>, b: seq<string>, more: seq<string>)
    requires Once(a) == Once(b)
    ensures Once(a + more) == Once(b + more)
    decreases |more|
  {
    if more == [] {
      assert a + more == a && b + more == b;
    } else {
      var front, last := more[..|more| - 1], more[|more| - 1];
      PushedAll(a, b, front);
      Pushed(a + front, b + front, last);
      assert a + more == a + front + [last] && b + more == b + front + [last];
    }
  }

  lemma {:induction false} SkippedOnce(ordered: seq<string>, id: string, rest: seq<string>)
    requires id in ordered
    ensures Once(ordered + ([id] + rest)) == Once(ordered + rest)
  {
    Pushed(ordered, ordered, id);
    PushedAll(ordered + [id], ordered, rest);
    assert ordered + ([id] + rest) == ordered + [id] + rest;
  }

  // ---------- what the walk has left to do ----------

  ghost predicate QueueFollowsParents(byId: map<string, Session>, queue: seq<string>, seen: set<string>) {
    forall i :: 0 <= i < |queue| ==>
      queue[i] in byId && (byId[queue[i]].parentId.Some? ==> byId[queue[i]].parentId.value in seen)
  }

  /** The children of every visited session are visited or waiting. */
  ghost predicate ChildrenPending(byId: map<string, Session>, queue: seq<string>, seen: set<string>) {
    forall id :: id in byId && byId[id].parentId.Some? && byId[id].parentId.value in seen ==> id in seen || id in queue
  }

  ghost predicate RootsPending(byId: map<string, Session>, queue: seq<string>, seen: set<string>) {
    forall id :: id in byId && byId[id].parentId.None? ==> id in seen || id in queue
  }

  lemma {:induction false} Reached(byId: map<string, Session>, seen: set<string>, id: string, steps: nat)
    requires id in byId && Climb(byId, id, steps).None?
    requires forall x :: x in byId && byId[x].parentId.Some? ==> byId[x].parentId.value in byId
    requires ChildrenPending(byId, [], seen) && RootsPending(byId, [], seen)
    ensures id in seen
    decreases steps
  {
    if byId[id].parentId.Some? {
      var parent := byId[id].parentId.value;
      assert Climb(byId, id, 1) == Some(parent);
      ClimbComposes(byId, id, 1, steps - 1);
      Reached(byId, seen, parent, steps - 1);
    }
  }

  lemma {:induction false} EverySessionReached(sessions: seq<Session>, seen: set<string>)
    requires Forest(sessions)
    requires ChildrenPending(Index(sessions), [], seen) && RootsPending(Index(sessions), [], seen)
    ensures Index(sessions).Keys <= seen
  {
    var byId := Index(sessions);
    IndexIsExact(sessions);
    forall x | x in byId && byId[x].parentId.Some? ensures byId[x].parentId.value in byId {
      var i :| 0 <= i < |sessions| && sessions[i] == byId[x];
    }
    forall id | id in byId ensures id in seen {
      var i :| 0 <= i < |sessions| && sessions[i] == byId[id];
      assert ChainEnds(byId, sessions[i].id);
      var steps: nat :| Climb(byId, id, steps).None?;
      Reached(byId, seen, id, steps);
    }
  }

  // ---------- the loop ----------

  /** A link can conflict with the manifest; a cycle among links is never what stops the walk. */
  predicate LinkFailure(failure: Failure) {
    failure.IdentityMismatch? && (failure.cause.ChildAgentPath? || failure.cause.ChildParent? ||
      failure.cause.MissingChildFile?)
  }

  ghost predicate NewAreChildren(byId: map<string, Session>, id: string, queue: seq<string>, queue': seq<string>) {
    && queue <= queue'
    && (forall i :: |queue| <= i < |queue'| ==> queue'[i] in byId && byId[queue'[i]].parentId == Some(id))
  }

  lemma {:induction false} PushedBehind(done: seq<string>, a: seq<string>, b: seq<string>, x: string)
    requires Once(done + a) == Once(done + b)
    ensures Once(done + (a + [x])) == Once(done + (b + [x]))
    ensures x in done ==> Once(done + (a + [x])) == Once(done + b)
  {
    hide Once;
    Pushed(done + a, done + b, x);
    assert done + (a + [x]) == done + a + [x] && done + (b + [x]) == done + b + [x];
  }

  method FollowLinks(id: string, links: seq<ChildLink>, byId: map<string, Session>, present: set<string>,
                     seen: set<string>, queue: seq<string>, ghost done: seq<string>)
    returns (r: Result<(seq<string>, seq<(string, string)>)>)
    requires forall x :: x in byId ==> byId[x].id == x
    requires seen == ToSet(done)
    ensures r.Ok? <==> forall i :: 0 <= i < |links| ==> LinkOk(byId, present, id, links[i])
    ensures r.Ok? ==> NewAreChildren(byId, id, queue, r.value.0) && r.value.1 == UnlistedOf(byId, id, links)
    ensures r.Ok? ==> Once(done + (queue + ListedThreads(byId, links))) == Once(done + r.value.0)
    ensures r.Fail? ==> LinkFailure(r.failure)
  {
    hide Once;
    var queue' := queue;
    assert queue + ListedThreads(byId, links[..0]) == queue;
    var unlisted: seq<(string, string)> := [];
    for i := 0 to |links|
      invariant NewAreChildren(byId, id, queue, queue')
      invariant unlisted == UnlistedOf(byId, id, links[..i])
      invariant Once(done + (queue + ListedThreads(byId, links[..i]))) == Once(done + queue')
      invariant forall j :: 0 <= j < i ==> LinkOk(byId, present, id, links[j])
    {
      var link := links[i];
      assert links[..i + 1][..i] == links[..i];
      ghost var listed := ListedThreads(byId, links[..i]);
      assert listed + [] == listed;
      if link.threadId !in byId {
        unlisted := unlisted + [(id, link.threadId)];
        continue;
      }
      var matched := byId[link.threadId];
      PushedBehind(done, queue + listed, queue', link.threadId);
      assert queue + (listed + [link.threadId]) == queue + listed + [link.threadId];
      if matched.agentPath.Some? && matched.agentPath.value != link.agentPath {
        return Fail(IdentityMismatch(ChildAgentPath));
      }
      if matched.parentId != Some(id) {
        return Fail(IdentityMismatch(ChildParent));
      }
      if matched.id !in present {
        return Fail(IdentityMismatch(MissingChildFile));
      }
      if matched.id !in seen {
        queue' := queue' + [matched.id];
      }
    }
    assert links[..|links|] == links;
    return Ok((queue', unlisted));
  }

  method PushChildren(id: string, sessions: seq<Session>, ghost byId: map<string, Session>, seen: set<string>,
                      queue: seq<string>, ghost done: seq<string>)
    returns (queue': seq<string>)
    requires seen == ToSet(done)
    requires forall i :: 0 <= i < |sessions| ==> sessions[i].id in byId && byId[sessions[i].id] == sessions[i]
    ensures NewAreChildren(byId, id, queue, queue')
    ensures forall i :: 0 <= i < |sessions| && sessions[i].parentId == Some(id) ==>
              sessions[i].id in seen || sessions[i].id in queue'
    ensures Once(done + (queue + ManifestChildren(sessions, id))) == Once(done + queue')
  {
    hide Once;
    queue' := queue;
    assert queue + ManifestChildren(sessions[..0], id) == queue;
    for i := 0 to |sessions|
      invariant NewAreChildren(byId, id, queue, queue')
      invariant forall j :: 0 <= j < i && sessions[j].parentId == Some(id) ==>
                  sessions[j].id in seen || sessions[j].id in queue'
      invariant Once(done + (queue + ManifestChildren(sessions[..i], id))) == Once(done + queue')
    {
      assert sessions[..i + 1][..i] == sessions[..i];
      ghost var children := ManifestChildren(sessions[..i], id);
      assert children + [] == children;
      PushedBehind(done, queue + children, queue', sessions[i].id);
      assert queue + (children + [sessions[i].id]) == queue + children + [sessions[i].id];
      if sessions[i].parentId == Some(id) && sessions[i].id !in seen {
        queue' := queue' + [sessions[i].id];
      }
    }
    assert sessions[..|sessions|] == sessions;
  }

  ghost predicate Visited(byId: map<string, Session>, seen: set<string>, ordered: seq<string>) {
    && seen == ToSet(ordered) && seen <= byId.Keys
    && Distinct(ordered)
    && ParentsFirst(byId, ordered)
  }

  ghost predicate Pending(byId: map<string, Session>, queue: seq<string>, seen: set<string>) {
    && QueueFollowsParents(byId, queue, seen)
    && ChildrenPending(byId, queue, seen)
    && RootsPending(byId, queue, seen)
  }

  lemma SkipSeen(byId: map<string, Session>, queue: seq<string>, seen: set<string>)
    requires Pending(byId, queue, seen) && queue != [] && queue[0] in seen
    ensures Pending(byId, queue[1..], seen)
  {
    var rest := queue[1..];
    assert queue == [queue[0]] + rest;
    forall i | 0 <= i < |rest|
      ensures rest[i] in byId && (byId[rest[i]].parentId.Some? ==> byId[rest[i]].parentId.value in seen)
    {
      assert rest[i] == queue[i + 1];
    }
  }

  lemma VisitNext(byId: map<string, Session>, id: string, rest: seq<string>, seen: set<string>, queue': seq<string>)
    requires Pending(byId, [id] + rest, seen)
    requires NewAreChildren(byId, id, rest, queue')
    requires forall x :: x in byId && byId[x].parentId == Some(id) ==> x in seen + {id} || x in queue'
    ensures Pending(byId, queue', seen + {id})
  {
    var queue := [id] + rest;
    forall i | 0 <= i < |queue'|
      ensures queue'[i] in byId && (byId[queue'[i]].parentId.Some? ==> byId[queue'[i]].parentId.value in seen + {id})
    {
      if i < |rest| {
        assert queue'[i] == rest[i] == queue[i + 1];
      }
    }
    forall x | x in queue && x != id ensures x in queue' {
      var i :| 0 <= i < |rest| && rest[i] == x;
      assert queue'[i] == x;
    }
  }

  lemma VisitedNext(byId: map<string, Session>, id: string, seen: set<string>, ordered: seq<string>)
    requires Visited(byId, seen, ordered)
    requires id in byId && id !in seen && (byId[id].parentId.Some? ==> byId[id].parentId.value in seen)
    ensures Visited(byId, seen + {id}, ordered + [id])
  {
    var ordered' := ordered + [id];
    forall i | 0 <= i < |ordered'|
      ensures ordered'[i] in byId && (byId[ordered'[i]].parentId.Some? ==>
                byId[ordered'[i]].parentId.value in ordered'[..i])
    {
      if i < |ordered| {
        assert ordered'[i] == ordered[i] && ordered'[..i] == ordered[..i];
      } else {
        assert ordered'[..i] == ordered;
      }
    }
  }

  lemma {:induction false} BothPushed(done: seq<string>, rest: seq<string>, started: seq<string>, queue: seq<string>,
                                      children: seq<string>)
    requires Once(done + (rest + started)) == Once(done + queue)
    ensures Once(done + (rest + (started + children))) == Once(done + (queue + children))
  {
    hide Once;
    PushedAll(done + (rest + started), done + queue, children);
    assert done + (rest + (started + children)) == done + (rest + started) + children;
    assert done + (queue + children) == done + queue + children;
  }

  /** The order so far: what the seeds and the visited sessions have put in line is what was visited and what waits. */
  ghost predicate InLine(sessions: seq<Session>, links: map<string, seq<ChildLink>>, byId: map<string, Session>,
                         seeds: seq<string>, ordered: seq<string>, queue: seq<string>) {
    Once(seeds + ChildrenAlong(sessions, links, byId, ordered)) == Once(ordered + queue)
  }

  lemma {:induction false} LineMoves(sessions: seq<Session>, links: map<string, seq<ChildLink>>,
                                     byId: map<string, Session>, seeds: seq<string>, ordered: seq<string>, id: string,
                                     rest: seq<string>, queue: seq<string>)
    requires InLine(sessions, links, byId, seeds, ordered, [id] + rest)
    requires Once(ordered + [id] + (rest + ChildrenOf(sessions, LinksOf(links, id), byId, id))) ==
             Once(ordered + [id] + queue)
    ensures InLine(sessions, links, byId, seeds, ordered + [id], queue)
  {
    hide Once, ChildrenOf;
    var before, children := ChildrenAlong(sessions, links, byId, ordered),
      ChildrenOf(sessions, LinksOf(links, id), byId, id);
    assert (ordered + [id])[..|ordered|] == ordered;
    PushedAll(seeds + before, ordered + ([id] + rest), children);
    assert seeds + (before + children) == seeds + before + children;
    assert ordered + ([id] + rest) + children == ordered + [id] + (rest + children);
  }

  lemma {:induction false} LineSkips(sessions: seq<Session>, links: map<string, seq<ChildLink>>,
                                     byId: map<string, Session>, seeds: seq<string>, ordered: seq<string>, id: string,
                                     rest: seq<string>)
    requires InLine(sessions, links, byId, seeds, ordered, [id] + rest) && id in ordered
    ensures InLine(sessions, links, byId, seeds, ordered, rest)
  {
    hide Once;
    SkippedOnce(ordered, id, rest);
  }

  lemma {:induction false} LineBegins(sessions: seq<Session>, links: map<string, seq<ChildLink>>,
                                      byId: map<string, Session>, seeds: seq<string>)
    ensures InLine(sessions, links, byId, seeds, [], seeds)
  {
    assert seeds + [] == seeds && [] + seeds == seeds;
  }

  lemma {:induction false} LineEnds(sessions: seq<Session>, links: map<string, seq<ChildLink>>,
                                    byId: map<string, Session>, seeds: seq<string>, ordered: seq<string>)
    requires InLine(sessions, links, byId, seeds, ordered, []) && Distinct(ordered)
    ensures BreadthFirst(sessions, links, byId, seeds, ordered)
  {
    assert ordered + [] == ordered;
    OnceOfDistinct(ordered);
  }

  /** The body of the loop for an id not seen before. */
  method Visit(id: string, sessions: seq<Session>, byId: map<string, Session>, links: map<string, seq<ChildLink>>,
               present: set<string>, seen: set<string>, rest: seq<string>, ghost ordered: seq<string>)
    returns (r: Result<(seq<string>, seq<(string, string)>)>)
    requires forall x :: x in byId ==> byId[x].id == x && byId[x] in sessions
    requires forall i :: 0 <= i < |sessions| ==> sessions[i].id in byId && byId[sessions[i].id] == sessions[i]
    requires Pending(byId, [id] + rest, seen) && seen == ToSet(ordered)
    ensures r.Ok? <==> LinksOk(byId, present, id, links)
    ensures r.Ok? ==> Once(ordered + [id] + (rest + ChildrenOf(sessions, LinksOf(links, id), byId, id))) ==
                      Once(ordered + [id] + r.value.0)
    ensures r.Ok? ==> Pending(byId, r.value.0, seen + {id}) && r.value.1 == UnlistedOf(byId, id, LinksOf(links, id))
    ensures r.Fail? ==> LinkFailure(r.failure)
  {
    assert seen + {id} == ToSet(ordered + [id]);
    var followed := FollowLinks(id, LinksOf(links, id), byId, present, seen + {id}, rest, ordered + [id]);
    if followed.Fail? {
      return Fail(followed.failure);
    }
    var queue' := PushChildren(id, sessions, byId, seen + {id}, followed.value.0, ordered + [id]);
    BothPushed(ordered + [id], rest, ListedThreads(byId, LinksOf(links, id)), followed.value.0,
      ManifestChildren(sessions, id));
    assert NewAreChildren(byId, id, rest, queue') by {
      forall i | |rest| <= i < |queue'| ensures queue'[i] in byId && byId[queue'[i]].parentId == Some(id) {
        if i < |followed.value.0| {
          assert queue'[i] == followed.value.0[i];
        }
      }
    }
    forall x | x in byId && byId[x].parentId == Some(id) ensures x in seen + {id} || x in queue' {
      var i :| 0 <= i < |sessions| && sessions[i] == byId[x];
    }
    VisitNext(byId, id, rest, seen, queue');
    return Ok((queue', followed.value.1));
  }

  lemma {:induction false} UnlistedOneMore(byId: map<string, Session>, links: map<string, seq<ChildLink>>,
                                           ordered: seq<string>, id: string)
    ensures UnlistedAlong(byId, links, ordered + [id]) ==
            UnlistedAlong(byId, links, ordered) + UnlistedOf(byId, id, LinksOf(links, id))
  {
    assert (ordered + [id])[..|ordered + [id]| - 1] == ordered;
  }

  lemma {:induction false} NothingVisited(byId: map<string, Session>, links: map<string, seq<ChildLink>>)
    ensures Visited(byId, {}, []) && UnlistedAlong(byId, links, []) == []
  {
    assert ToSet<string>([]) == {};
  }

  lemma HeadIsNext(byId: map<string, Session>, queue: seq<string>, seen: set<string>)
    requires queue != [] && Pending(byId, queue, seen)
    ensures queue[0] in byId && (byId[queue[0]].parentId.Some? ==> byId[queue[0]].parentId.value in seen)
  {
  }

  /** The loop: terminates because a visit shrinks the unvisited set and a skip shrinks the queue. */
  method DrainQueue(seeds: seq<string>, sessions: seq<Session>, byId: map<string, Session>,
                    links: map<string, seq<ChildLink>>, present: set<string>) returns (r: Result<Walk>)
    requires forall x :: x in byId ==> byId[x].id == x && byId[x] in sessions
    requires forall i :: 0 <= i < |sessions| ==> sessions[i].id in byId && byId[sessions[i].id] == sessions[i]
    requires Pending(byId, seeds, {})
    ensures r.Ok? ==>
              Visited(byId, ToSet(r.value.ordered), r.value.ordered) && Pending(byId, [], ToSet(r.value.ordered))
    ensures r.Ok? ==> r.value.unlisted == UnlistedAlong(byId, links, r.value.ordered)
    ensures r.Ok? ==> BreadthFirst(sessions, links, byId, seeds, r.value.ordered)
    ensures r.Ok? ==> forall id :: id in r.value.ordered ==> LinksOk(byId, present, id, links)
    ensures r.Fail? ==> LinkFailure(r.failure)
    ensures r.Fail? ==> exists id :: id in byId && !LinksOk(byId, present, id, links)
  {
    hide UnlistedAlong, UnlistedOf, LinksOk, ParentsFirst, QueueFollowsParents, ChildrenPending, RootsPending, Once,
      InLine, ChildrenOf, BreadthFirst;
    var seen: set<string> := {};
    var visiting: set<string> := {};
    var queue := seeds;
    NothingVisited(byId, links);
    LineBegins(sessions, links, byId, seeds);
    var ordered: seq<string> := [];
    var unlisted: seq<(string, string)> := [];
    while queue != []
      invariant visiting == {}
      invariant Visited(byId, seen, ordered)
      invariant Pending(byId, queue, seen)
      invariant unlisted == UnlistedAlong(byId, links, ordered)
      invariant InLine(sessions, links, byId, seeds, ordered, queue)
      invariant forall id :: id in seen ==> LinksOk(byId, present, id, links)
      decreases byId.Keys - seen, |queue|
    {
      var id := queue[0];
      var rest := queue[1..];
      assert queue == [id] + rest;
      if id in seen {
        SkipSeen(byId, queue, seen);
        LineSkips(sessions, links, byId, seeds, ordered, id, rest);
        queue := rest;
        continue;
      }
      if id in visiting {
        return Fail(IdentityMismatch(LinkedCycle));
      }
      visiting := visiting + {id};
      HeadIsNext(byId, queue, seen);
      VisitedNext(byId, id, seen, ordered);
      UnlistedOneMore(byId, links, ordered, id);
      var visit := Visit(id, sessions, byId, links, present, seen, rest, ordered);
      if visit.Fail? {
        return Fail(visit.failure);
      }
      LineMoves(sessions, links, byId, seeds, ordered, id, rest, visit.value.0);
      seen := seen + {id};
      ordered := ordered + [id];
      queue := visit.value.0;
      unlisted := unlisted + visit.value.1;
      visiting := visiting - {id};
    }
    LineEnds(sessions, links, byId, seeds, ordered);
    return Ok(Walk(ordered, unlisted));
  }

  method ResolveLinkedChildren(seeds: seq<string>, sessions: seq<Session>, links: map<string, seq<ChildLink>>,
                               present: set<string>)
    returns (r: Result<Walk>)
    requires Forest(sessions)
    requires forall i :: 0 <= i < |seeds| ==> seeds[i] in Index(sessions) && Index(sessions)[seeds[i]].parentId.None?
    requires forall id :: id in Index(sessions) && Index(sessions)[id].parentId.None? ==> id in seeds
    ensures r.Ok? <==> forall id :: id in Index(sessions) ==> LinksOk(Index(sessions), present, id, links)
    ensures r.Ok? ==> VisitsAll(sessions, r.value.ordered)
    ensures r.Ok? ==> r.value.unlisted == UnlistedAlong(Index(sessions), links, r.value.ordered)
    ensures r.Ok? ==> BreadthFirst(sessions, links, Index(sessions), seeds, r.value.ordered)
    ensures r.Fail? ==> LinkFailure(r.failure)
  {
    hide BreadthFirst;
    IndexIsExact(sessions);
    r := DrainQueue(seeds, sessions, Index(sessions), links, present);
    if r.Ok? {
      EverySessionReached(sessions, ToSet(r.value.ordered));
    }
  }
}
