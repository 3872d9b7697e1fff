/**
 Runs over many span objects and the reporter's queue of copies: how often a span is reported,
 and why taking copies out of the queue reports nothing.
 */
module SpanLifetimes {
  import opened Options
  import opened SpanContexts
  import opened SpanFinishing

  /** A call of reportSpan for an object: `direct` if not made by finishing, `kept` if the reporter
      queued a copy. */
  datatype Report = Report(span: nat, content: Content, direct: bool, kept: bool)

  /** Objects keep their numbers; destroyed ones are None.  The rest records what has happened: the
      spans started, and the spans copied while they were pending; the objects made with a pending
      content, those that gained one by a swap for one that was not, and those that lost one so;
      the copies swept from the queue.  `handles` counts the program's own pointers to the tracer,
      which traced spans and their copies own as well. */
  datatype State = State(
    objects: seq<Option<Content>>,
    queue: seq<Content>,
    reports: seq<Report>,
    started: seq<bool>,
    copied: seq<nat>,
    born: seq<bool>,
    gained: seq<nat>,
    lost: seq<nat>,
    swept: nat,
    handles: nat)

  const INITIAL := State([], [], [], [], [], [], [], [], 0, 1)

  /** `accepted`: the reporter's queue has room. */
  datatype Event =
    | Start(ctx: SpanContext, traced: bool, startTime: int)
    | Finish(span: nat, time: int, logs: seq<string>, accepted: bool)
    | Destroy(span: nat, time: int, accepted: bool)
    | Copy(span: nat)
    | Swap(span: nat, other: nat)
    | Change(span: nat, ctx: SpanContext)
    | ReportDirectly(span: nat, accepted: bool)
    | Sweep
    | AddHandle
    | DropHandle

  predicate Alive(s: State, o: nat) {
    o < |s.objects| && s.objects[o].Some?
  }

  /** Something outside the reporter owns the tracer. */
  predicate Held(s: State) {
    s.handles > 0 || exists o :: 0 <= o < |s.objects| && TracedAt(s, o)
  }

  predicate TracedAt(s: State, o: int) {
    0 <= o < |s.objects| && s.objects[o].Some? && s.objects[o].value.traced
  }

  /** Destroying the copy at the front of the queue would report it. */
  predicate FrontReports(s: State) {
    s.queue != [] && s.queue[0].Pending()
  }

  /** The copy at the front of the queue is the last owner of the tracer: destroying it would destroy
      the tracer, which closes the reporter. */
  predicate FrontIsLastOwner(s: State) {
    s.queue != [] && s.queue[0].traced && !Held(s) && forall k | 1 <= k < |s.queue| :: !s.queue[k].traced
  }

  /** The worker destroys copies inside the reporter's own lock, which both report and close take:
      in either case it would wait for itself, and `Sweep` is not possible.  Spans are started with
      the tracer, and reported directly to it, by those who hold it. */
  predicate Enabled(s: State, e: Event) {
    match e
    case Start(_, traced, _) => traced ==> Held(s)
    case ReportDirectly(o, _) => Alive(s, o) && Held(s)
    case Swap(a, b) => Alive(s, a) && Alive(s, b)
    case Sweep => s.queue != [] && !FrontReports(s) && !FrontIsLastOwner(s)
    case AddHandle => s.handles > 0
    case DropHandle => s.handles > 0
    case _ => Alive(s, e.span)
  }

  predicate PendingAt(s: State, o: nat) {
    Alive(s, o) && s.objects[o].value.Pending()
  }

  /** A swap of two objects of which only one is pending: the other one gains. */
  function Gaining(s: State, a: nat, b: nat): seq<nat> {
    if PendingAt(s, a) == PendingAt(s, b) then [] else if PendingAt(s, b) then [a] else [b]
  }

  function Losing(s: State, a: nat, b: nat): seq<nat> {
    if PendingAt(s, a) == PendingAt(s, b) then [] else if PendingAt(s, b) then [b] else [a]
  }

  function Store(s: State, o: nat, c: Option<Content>): State
    requires o < |s.objects|
  {
    s.(objects := s.objects[o := c])
  }

  /** reportSpan: the reporter keeps a copy of a sampled span. */
  function AddReport(s: State, o: nat, c: Content, direct: bool, accepted: bool): State {
    var kept := c.ctx.IsSampled() && accepted;
    s.(reports := s.reports + [Report(o, c, direct, kept)], queue := if kept then s.queue + [c] else s.queue)
  }

  function FinishObject(s: State, o: nat, time: int, logs: seq<string>, accepted: bool): State
    requires Alive(s, o)
  {
    var c := s.objects[o].value;
    var done := Finished(c, time, logs);
    var after := Store(s, o, Some(done));
    if c.Pending() then AddReport(after, o, done, false, accepted) else after
  }

  function Apply(s: State, e: Event): State
    requires Enabled(s, e)
  {
    match e
    case Start(ctx, traced, startTime) =>
      s.(objects := s.objects + [Some(Content(|s.started|, traced, ctx, startTime, 0, []))],
         started := s.started + [traced], born := s.born + [traced])
    case Finish(o, time, logs, accepted) => FinishObject(s, o, time, logs, accepted)
    case Destroy(o, time, accepted) => Store(FinishObject(s, o, time, [], accepted), o, None)
    case Copy(o) =>
      s.(objects := s.objects + [s.objects[o]],
         copied := if s.objects[o].value.Pending() then s.copied + [s.objects[o].value.id] else s.copied,
         born := s.born + [s.objects[o].value.Pending()])
    case Swap(a, b) =>
      Store(Store(s, a, s.objects[b]), b, s.objects[a])
        .(gained := s.gained + Gaining(s, a, b), lost := s.lost + Losing(s, a, b))
    case Change(o, ctx) => Store(s, o, Some(s.objects[o].value.(ctx := ctx)))
    case ReportDirectly(o, accepted) => AddReport(s, o, s.objects[o].value, true, accepted)
    case Sweep => s.(queue := s.queue[1..], swept := s.swept + 1)
    case AddHandle => s.(handles := s.handles + 1)
    case DropHandle => s.(handles := s.handles - 1)
  }

  ghost predicate Runs(s: State, events: seq<Event>, t: State)
    decreases |events|
  {
    if events == [] then s == t
    else
      var n := |events| - 1;
      exists mid :: Runs(s, events[..n], mid) && Enabled(mid, events[n]) && t == Apply(mid, events[n])
  }

  // ---- Every span is reported once for each pending instance ----

  function Weight(id: nat, o: Option<Content>): nat {
    if o.Some? && o.value.Pending() && o.value.id == id then 1 else 0
  }

  function PendingObjects(id: nat, objects: seq<Option<Content>>): nat {
    if objects == [] then 0
    else
      var n := |objects| - 1;
      PendingObjects(id, objects[..n]) + Weight(id, objects[n])
  }

  /** Reports of a span made by finishing. */
  function ReportsOf(id: nat, reports: seq<Report>): nat {
    if reports == [] then 0
    else
      var n := |reports| - 1;
      ReportsOf(id, reports[..n]) + if !reports[n].direct && reports[n].content.id == id then 1 else 0
  }

  function Occurrences(id: nat, copied: seq<nat>): nat {
    if copied == [] then 0
    else
      var n := |copied| - 1;
      Occurrences(id, copied[..n]) + if copied[n] == id then 1 else 0
  }

  function StartedOnce(id: nat, started: seq<bool>): nat {
    if id < |started| && started[id] then 1 else 0
  }

  ghost predicate Accounted(s: State, id: nat) {
    ReportsOf(id, s.reports) + PendingObjects(id, s.objects) == StartedOnce(id, s.started) + Occurrences(id, s.copied)
  }

  lemma {:induction false} StoreWeight(id: nat, objects: seq<Option<Content>>, o: nat, c: Option<Content>)
    requires o < |objects|
    ensures PendingObjects(id, objects[o := c]) + Weight(id, objects[o]) == PendingObjects(id, objects) + Weight(id, c)
  {
    var n := |objects| - 1;
    var after := objects[o := c];
    if o < n {
      StoreWeight(id, objects[..n], o, c);
      assert after[..n] == objects[..n][o := c];
    } else {
      assert after[..n] == objects[..n];
    }
  }

  lemma PushWeight(id: nat, objects: seq<Option<Content>>, c: Option<Content>)
    ensures PendingObjects(id, objects + [c]) == PendingObjects(id, objects) + Weight(id, c)
  {
    assert (objects + [c])[..|objects|] == objects;
  }

  lemma PushReport(id: nat, reports: seq<Report>, r: Report)
    ensures ReportsOf(id, reports + [r]) == ReportsOf(id, reports) + if !r.direct && r.content.id == id then 1 else 0
  {
    assert (reports + [r])[..|reports|] == reports;
  }

  lemma PushOccurrence(id: nat, copied: seq<nat>, c: nat)
    ensures Occurrences(id, copied + [c]) == Occurrences(id, copied) + if c == id then 1 else 0
  {
    assert (copied + [c])[..|copied|] == copied;
  }

  lemma FinishKeepsAccount(s: State, o: nat, time: int, logs: seq<string>, accepted: bool, id: nat)
    requires Alive(s, o) && Accounted(s, id)
    ensures Accounted(FinishObject(s, o, time, logs, accepted), id)
  {
    var done := Finished(s.objects[o].value, time, logs);
    StoreWeight(id, s.objects, o, Some(done));
    PushReport(id, s.reports, Report(o, done, false, done.ctx.IsSampled() && accepted));
  }

  lemma SwapKeepsAccount(s: State, a: nat, b: nat, id: nat)
    requires Alive(s, a) && Alive(s, b) && Accounted(s, id)
    ensures Accounted(Apply(s, Swap(a, b)), id)
  {
    StoreWeight(id, s.objects, a, s.objects[b]);
    StoreWeight(id, s.objects[a := s.objects[b]], b, s.objects[a]);
  }

  lemma DestroyKeepsAccount(s: State, o: nat, time: int, accepted: bool, id: nat)
    requires Alive(s, o) && Accounted(s, id)
    ensures Accounted(Apply(s, Destroy(o, time, accepted)), id)
  {
    FinishKeepsAccount(s, o, time, [], accepted, id);
    StoreWeight(id, FinishObject(s, o, time, [], accepted).objects, o, None);
  }

  lemma CopyKeepsAccount(s: State, o: nat, id: nat)
    requires Alive(s, o) && Accounted(s, id)
    ensures Accounted(Apply(s, Copy(o)), id)
  {
    PushWeight(id, s.objects, s.objects[o]);
    PushOccurrence(id, s.copied, s.objects[o].value.id);
  }

  lemma PushStarted(id: nat, started: seq<bool>, traced: bool)
    ensures StartedOnce(id, started + [traced])
         == StartedOnce(id, started) + if traced && id == |started| then 1 else 0
  {
  }

  lemma StartKeepsAccount(s: State, ctx: SpanContext, traced: bool, startTime: int, id: nat)
    requires Enabled(s, Start(ctx, traced, startTime)) && Accounted(s, id)
    ensures Accounted(Apply(s, Start(ctx, traced, startTime)), id)
  {
    var content := Content(|s.started|, traced, ctx, startTime, 0, []);
    var t := Apply(s, Start(ctx, traced, startTime));
    assert t.objects == s.objects + [Some(content)] && t.started == s.started + [traced];
    assert t.reports == s.reports && t.copied == s.copied;
    PushWeight(id, s.objects, Some(content));
    PushStarted(id, s.started, traced);
  }

  lemma StepKeepsAccount(s: State, e: Event, id: nat)
    requires Enabled(s, e) && Accounted(s, id)
    ensures Accounted(Apply(s, e), id)
  {
    match e
    case Start(ctx, traced, startTime) => StartKeepsAccount(s, ctx, traced, startTime, id);
    case Finish(o, time, logs, accepted) => FinishKeepsAccount(s, o, time, logs, accepted, id);
    case Destroy(o, time, accepted) => DestroyKeepsAccount(s, o, time, accepted, id);
    case Copy(o) => CopyKeepsAccount(s, o, id);
    case Swap(a, b) => SwapKeepsAccount(s, a, b, id);
    case Change(o, ctx) => StoreWeight(id, s.objects, o, Some(s.objects[o].value.(ctx := ctx)));
    case ReportDirectly(o, accepted) => PushReport(id, s.reports, Apply(s, e).reports[|s.reports|]);
    case _ =>
  }

  /** Conservation: in every run, the reports of a span and its pending instances add up to one
      for its start and one for every copy made while it was pending. */
  lemma {:induction false} ReportsAreConserved(events: seq<Event>, s: State, id: nat)
    requires Runs(INITIAL, events, s)
    ensures Accounted(s, id)
    decreases |events|
  {
    if events != [] {
      var n := |events| - 1;
      var mid :| Runs(INITIAL, events[..n], mid) && Enabled(mid, events[n]) && s == Apply(mid, events[n]);
      ReportsAreConserved(events[..n], mid, id);
      StepKeepsAccount(mid, events[n], id);
    }
  }

  /** A span never copied before it is finished is reported at most once, and exactly once when
      no object holds it unfinished any more. */
  lemma ReportedExactlyOnce(events: seq<Event>, s: State, id: nat)
    requires Runs(INITIAL, events, s) && id < |s.started| && s.started[id]
    requires forall k | 0 <= k < |s.copied| :: s.copied[k] != id
    ensures ReportsOf(id, s.reports) <= 1
    ensures ReportsOf(id, s.reports) == 1 <==>
              forall o | 0 <= o < |s.objects| ::
                s.objects[o].Some? && s.objects[o].value.id == id ==> !s.objects[o].value.Pending()
  {
    ReportsAreConserved(events, s, id);
    NoOccurrence(id, s.copied);
    NonePending(id, s.objects);
  }

  lemma {:induction false} NoOccurrence(id: nat, copied: seq<nat>)
    requires forall k | 0 <= k < |copied| :: copied[k] != id
    ensures Occurrences(id, copied) == 0
  {
    if copied != [] {
      NoOccurrence(id, copied[..|copied| - 1]);
    }
  }

  lemma {:induction false} NonePending(id: nat, objects: seq<Option<Content>>)
    ensures PendingObjects(id, objects) == 0 <==> forall o | 0 <= o < |objects| :: Weight(id, objects[o]) == 0
  {
    if objects != [] {
      NonePending(id, objects[..|objects| - 1]);
    }
  }

  // ---- Every pending content an object gets is one report ----

  function ReportsBy(o: nat, reports: seq<Report>): nat {
    if reports == [] then 0
    else
      var n := |reports| - 1;
      ReportsBy(o, reports[..n]) + if !reports[n].direct && reports[n].span == o then 1 else 0
  }

  /** What an object has reported and may still report. */
  function Budget(s: State, o: nat): nat {
    ReportsBy(o, s.reports) + if PendingAt(s, o) then 1 else 0
  }

  function BornPending(s: State, o: nat): nat {
    if o < |s.born| && s.born[o] then 1 else 0
  }

  ghost predicate ObjectAccounted(s: State, o: nat) {
    && |s.born| == |s.objects|
    && Budget(s, o) + Occurrences(o, s.lost) == BornPending(s, o) + Occurrences(o, s.gained)
    && (o >= |s.objects| ==> Occurrences(o, s.gained) == 0)
  }

  lemma PushReportBy(o: nat, reports: seq<Report>, r: Report)
    ensures ReportsBy(o, reports + [r]) == ReportsBy(o, reports) + if !r.direct && r.span == o then 1 else 0
  {
    assert (reports + [r])[..|reports|] == reports;
  }

  predicate Swaps(e: Event, o: nat) {
    e.Swap? && (e.span == o || e.other == o)
  }

  lemma FinishKeepsBudget(s: State, p: nat, time: int, logs: seq<string>, accepted: bool, o: nat)
    requires Alive(s, p)
    ensures Budget(FinishObject(s, p, time, logs, accepted), o) == Budget(s, o)
    ensures !PendingAt(s, o) ==> !PendingAt(FinishObject(s, p, time, logs, accepted), o)
    ensures !PendingAt(FinishObject(s, p, time, logs, accepted), p)
  {
    var done := Finished(s.objects[p].value, time, logs);
    PushReportBy(o, s.reports, Report(p, done, false, done.ctx.IsSampled() && accepted));
  }

  lemma DestroyKeepsBudget(s: State, p: nat, time: int, accepted: bool, o: nat)
    requires Alive(s, p)
    ensures Budget(Apply(s, Destroy(p, time, accepted)), o) == Budget(s, o)
    ensures !PendingAt(s, o) ==> !PendingAt(Apply(s, Destroy(p, time, accepted)), o)
  {
    FinishKeepsBudget(s, p, time, [], accepted, o);
  }

  lemma DirectReportKeepsBudget(s: State, p: nat, accepted: bool, o: nat)
    requires Enabled(s, ReportDirectly(p, accepted))
    ensures Budget(Apply(s, ReportDirectly(p, accepted)), o) == Budget(s, o)
  {
    PushReportBy(o, s.reports, Apply(s, ReportDirectly(p, accepted)).reports[|s.reports|]);
  }

  /** Only a swap and its making change what an object has reported and may still report, and one
      that is not pending stays so. */
  lemma StepKeepsBudget(s: State, e: Event, o: nat)
    requires Enabled(s, e) && !Swaps(e, o) && o < |s.objects|
    ensures o < |Apply(s, e).objects| && Budget(Apply(s, e), o) == Budget(s, o)
    ensures !PendingAt(s, o) ==> !PendingAt(Apply(s, e), o)
  {
    match e
    case Finish(p, time, logs, accepted) => FinishKeepsBudget(s, p, time, logs, accepted, o);
    case Destroy(p, time, accepted) => DestroyKeepsBudget(s, p, time, accepted, o);
    case ReportDirectly(p, accepted) => DirectReportKeepsBudget(s, p, accepted, o);
    case _ =>
  }

  /** A swap moves the pending content, and the budget with it. */
  lemma SwapMovesBudget(s: State, a: nat, b: nat, o: nat)
    requires Alive(s, a) && Alive(s, b)
    ensures var t := Apply(s, Swap(a, b));
            && Budget(t, o) + Occurrences(o, t.lost) - Occurrences(o, t.gained)
               == Budget(s, o) + Occurrences(o, s.lost) - Occurrences(o, s.gained)
            && (o != a && o != b ==> Occurrences(o, t.gained) == Occurrences(o, s.gained))
  {
    assert s.gained + [] == s.gained && s.lost + [] == s.lost;
    PushOccurrence(o, s.gained, a);
    PushOccurrence(o, s.gained, b);
    PushOccurrence(o, s.lost, a);
    PushOccurrence(o, s.lost, b);
  }

  lemma NewcomerAccounted(s: State, e: Event, o: nat)
    requires Enabled(s, e) && ObjectAccounted(s, o) && o >= |s.objects| && !e.Swap?
    ensures ObjectAccounted(Apply(s, e), o)
  {
    match e
    case Finish(p, time, logs, accepted) => FinishKeepsBudget(s, p, time, logs, accepted, o);
    case Destroy(p, time, accepted) => DestroyKeepsBudget(s, p, time, accepted, o);
    case ReportDirectly(p, accepted) => DirectReportKeepsBudget(s, p, accepted, o);
    case _ =>
  }

  lemma SwapKeepsObjectAccount(s: State, a: nat, b: nat, o: nat)
    requires Alive(s, a) && Alive(s, b) && ObjectAccounted(s, o)
    ensures ObjectAccounted(Apply(s, Swap(a, b)), o)
  {
    SwapMovesBudget(s, a, b, o);
  }

  /** What is recorded of an object changes only by swaps. */
  lemma RecordsStay(s: State, e: Event, o: nat)
    requires Enabled(s, e) && !e.Swap? && |s.born| == |s.objects| && o < |s.objects|
    ensures var t := Apply(s, e);
            && |t.born| == |t.objects| && o < |t.objects| && t.born[o] == s.born[o]
            && t.gained == s.gained && t.lost == s.lost
  {
  }

  lemma StepKeepsObjectAccount(s: State, e: Event, o: nat)
    requires Enabled(s, e) && ObjectAccounted(s, o)
    ensures ObjectAccounted(Apply(s, e), o)
  {
    if e.Swap? {
      SwapKeepsObjectAccount(s, e.span, e.other, o);
    } else if o < |s.objects| {
      StepKeepsBudget(s, e, o);
      RecordsStay(s, e, o);
    } else {
      NewcomerAccounted(s, e, o);
    }
  }

  /** Conservation for objects: in every run, what an object has reported and may still report is
      one if it was made with a pending content, and one more for each pending content gained by
      a swap, less those lost so. */
  lemma {:induction false} ObjectReportsAreConserved(events: seq<Event>, s: State, o: nat)
    requires Runs(INITIAL, events, s)
    ensures ObjectAccounted(s, o)
    decreases |events|
  {
    if events != [] {
      var n := |events| - 1;
      var mid :| Runs(INITIAL, events[..n], mid) && Enabled(mid, events[n]) && s == Apply(mid, events[n]);
      ObjectReportsAreConserved(events[..n], mid, o);
      StepKeepsObjectAccount(mid, events[n], o);
    }
  }

  /** An object has reported at most once exactly as long as the pending contents it was made with
      or gained exceed by at most one those it lost or still has. */
  lemma ReportsAtMostOnceExactly(events: seq<Event>, s: State, o: nat)
    requires Runs(INITIAL, events, s)
    ensures Budget(s, o) <= 1 <==> BornPending(s, o) + Occurrences(o, s.gained) <= 1 + Occurrences(o, s.lost)
    ensures ReportsBy(o, s.reports) <= 1 <==>
              BornPending(s, o) + Occurrences(o, s.gained)
              <= 1 + Occurrences(o, s.lost) + if PendingAt(s, o) then 1 else 0
  {
    ObjectReportsAreConserved(events, s, o);
  }

  lemma {:induction false} NoSwapNoGain(events: seq<Event>, s: State, o: nat)
    requires Runs(INITIAL, events, s)
    requires forall k | 0 <= k < |events| :: !Swaps(events[k], o)
    ensures Occurrences(o, s.gained) == 0
    decreases |events|
  {
    if events != [] {
      var n := |events| - 1;
      var mid :| Runs(INITIAL, events[..n], mid) && Enabled(mid, events[n]) && s == Apply(mid, events[n]);
      NoSwapNoGain(events[..n], mid, o);
      assert !Swaps(events[n], o);
      if events[n].Swap? {
        SwapMovesBudget(mid, events[n].span, events[n].other, o);
      }
    }
  }

  /** However often it is finished and destroyed, an object that is never swapped or assigned to
      causes at most one report. */
  lemma ObjectReportsOnce(events: seq<Event>, s: State, o: nat)
    requires Runs(INITIAL, events, s)
    requires forall k | 0 <= k < |events| :: !Swaps(events[k], o)
    ensures ReportsBy(o, s.reports) <= 1 && Budget(s, o) <= 1
  {
    ObjectReportsAreConserved(events, s, o);
    NoSwapNoGain(events, s, o);
  }

  /** An object that has finished, or that was copied from one that had, never reports again
      unless it is swapped. */
  lemma {:induction false} FinishedStaysSilent(s: State, events: seq<Event>, t: State, o: nat)
    requires Runs(s, events, t) && o < |s.objects| && !PendingAt(s, o)
    requires forall k | 0 <= k < |events| :: !Swaps(events[k], o)
    ensures o < |t.objects| && !PendingAt(t, o) && ReportsBy(o, t.reports) == ReportsBy(o, s.reports)
    decreases |events|
  {
    if events != [] {
      var n := |events| - 1;
      var mid :| Runs(s, events[..n], mid) && Enabled(mid, events[n]) && t == Apply(mid, events[n]);
      FinishedStaysSilent(s, events[..n], mid, o);
      StepKeepsBudget(mid, events[n], o);
    }
  }

  /** An object that is done, and then takes over the content of a pending one by a swap, reports
      once more. */
  lemma {:induction false} SwapBringsAnotherReport(s: State, a: nat, b: nat, time: int, logs: seq<string>,
                                                   accepted: bool)
    requires Alive(s, a) && !PendingAt(s, a) && PendingAt(s, b)
    ensures var swapped := Apply(s, Swap(a, b));
            && Enabled(swapped, Finish(a, time, logs, accepted))
            && ReportsBy(a, Apply(swapped, Finish(a, time, logs, accepted)).reports) == ReportsBy(a, s.reports) + 1
  {
    var swapped := Apply(s, Swap(a, b));
    FinishKeepsBudget(swapped, a, time, logs, accepted, a);
  }

  ghost predicate Reachable(s: State) {
    exists events :: Runs(INITIAL, events, s)
  }

  lemma NextIsReachable(s: State, e: Event)
    requires Reachable(s) && Enabled(s, e)
    ensures Reachable(Apply(s, e))
  {
    var events :| Runs(INITIAL, events, s);
    assert (events + [e])[..|events|] == events;
    assert Runs(INITIAL, events + [e], Apply(s, e));
  }

  lemma InitialIsReachable()
    ensures Reachable(INITIAL)
  {
    assert Runs(INITIAL, [], INITIAL);
  }

  /** Two spans started, the first finished, the two swapped, the first object finished again: it
      has reported twice. */
  lemma SwappedObjectReportsTwice(ctx: SpanContext) returns (s: State)
    ensures Reachable(s) && ReportsBy(0, s.reports) == 2
  {
    InitialIsReachable();
    NextIsReachable(INITIAL, Start(ctx, true, 0));
    s := Apply(INITIAL, Start(ctx, true, 0));
    FinishKeepsBudget(s, 0, 5, [], true, 0);
    NextIsReachable(s, Finish(0, 5, [], true));
    s := Apply(s, Finish(0, 5, [], true));
    assert ReportsBy(0, s.reports) == 1;
    NextIsReachable(s, Start(ctx, true, 0));
    s := Apply(s, Start(ctx, true, 0));
    SwapBringsAnotherReport(s, 0, 1, 7, [], true);
    NextIsReachable(s, Swap(0, 1));
    s := Apply(s, Swap(0, 1));
    NextIsReachable(s, Finish(0, 7, [], true));
    s := Apply(s, Finish(0, 7, [], true));
  }

  // ---- The reporter's copies ----

  /** The copies the reporter took, oldest first. */
  function Kept(reports: seq<Report>): seq<Content> {
    if reports == [] then []
    else
      var n := |reports| - 1;
      Kept(reports[..n]) + if reports[n].kept then [reports[n].content] else []
  }

  /** Durations are never negative, what finishing reported is finished, and the queue holds the
      copies taken and not yet swept. */
  ghost predicate Sound(s: State) {
    && (forall o | 0 <= o < |s.objects| :: s.objects[o].Some? ==> s.objects[o].value.duration >= 0)
    && (forall r | 0 <= r < |s.reports| :: SoundReport(s.reports[r]))
    && s.swept <= |Kept(s.reports)|
    && s.queue == Kept(s.reports)[s.swept..]
  }

  ghost predicate SoundReport(r: Report) {
    (!r.direct ==> r.content.duration > 0) && (r.kept ==> r.content.ctx.IsSampled())
  }

  lemma AddReportKeepsSound(s: State, o: nat, c: Content, direct: bool, accepted: bool)
    requires Sound(s) && (direct || c.duration > 0)
    ensures Sound(AddReport(s, o, c, direct, accepted))
  {
    var after := AddReport(s, o, c, direct, accepted);
    assert after.reports[..|s.reports|] == s.reports;
  }

  lemma FinishKeepsSound(s: State, o: nat, time: int, logs: seq<string>, accepted: bool)
    requires Sound(s) && Alive(s, o)
    ensures Sound(FinishObject(s, o, time, logs, accepted))
  {
    var done := Finished(s.objects[o].value, time, logs);
    AddReportKeepsSound(Store(s, o, Some(done)), o, done, false, accepted);
  }

  lemma StepKeepsSound(s: State, e: Event)
    requires Sound(s) && Enabled(s, e)
    ensures Sound(Apply(s, e))
  {
    match e
    case Finish(o, time, logs, accepted) => FinishKeepsSound(s, o, time, logs, accepted);
    case Destroy(o, time, accepted) => FinishKeepsSound(s, o, time, [], accepted);
    case ReportDirectly(o, accepted) => AddReportKeepsSound(s, o, s.objects[o].value, true, accepted);
    case _ =>
  }

  lemma {:induction false} RunKeepsSound(events: seq<Event>, s: State)
    requires Runs(INITIAL, events, s)
    ensures Sound(s)
    decreases |events|
  {
    if events != [] {
      var n := |events| - 1;
      var mid :| Runs(INITIAL, events[..n], mid) && Enabled(mid, events[n]) && s == Apply(mid, events[n]);
      RunKeepsSound(events[..n], mid);
      StepKeepsSound(mid, events[n]);
    }
  }

  /** The report whose copy is at the front of the queue: kept, with as many copies taken before it
      as have been swept. */
  ghost predicate AtFront(s: State, r: nat) {
    r < |s.reports| && s.reports[r].kept && |Kept(s.reports[..r])| == s.swept
  }

  lemma {:induction false} KeptAt(reports: seq<Report>, r: nat)
    requires r < |reports| && reports[r].kept
    ensures var k := |Kept(reports[..r])|; k < |Kept(reports)| && Kept(reports)[k] == reports[r].content
  {
    var n := |reports| - 1;
    if r < n {
      KeptAt(reports[..n], r);
      assert reports[..n][..r] == reports[..r];
    }
  }

  lemma {:induction false} KeptFrom(reports: seq<Report>, k: nat) returns (r: nat)
    requires k < |Kept(reports)|
    ensures r < |reports| && reports[r].kept && |Kept(reports[..r])| == k
  {
    var n := |reports| - 1;
    if k < |Kept(reports[..n])| {
      r := KeptFrom(reports[..n], k);
      assert reports[..n][..r] == reports[..r];
    } else {
      r := n;
    }
  }

  /** Destroying the front of the queue re-enters report exactly when it comes from a direct report of
      a sampled span that was not finished. */
  lemma FrontReportsExactly(events: seq<Event>, s: State)
    requires Runs(INITIAL, events, s)
    ensures FrontReports(s) <==>
              exists r: nat :: AtFront(s, r) && s.reports[r].direct && s.reports[r].content.ctx.IsSampled()
                               && s.reports[r].content.Pending()
  {
    RunKeepsSound(events, s);
    if s.queue != [] {
      var r := KeptFrom(s.reports, s.swept);
      KeptAt(s.reports, r);
      assert SoundReport(s.reports[r]);
      assert AtFront(s, r) && s.queue[0] == s.reports[r].content;
    }
    forall r: nat | AtFront(s, r) ensures s.queue != [] && s.queue[0] == s.reports[r].content {
      KeptAt(s.reports, r);
    }
  }

  /** The worker is stuck exactly when the copy at the front of the queue comes from a direct report
      of a sampled span that was not finished, or is the last owner of the tracer. */
  lemma SweepBlockedExactly(events: seq<Event>, s: State)
    requires Runs(INITIAL, events, s)
    ensures s.queue != [] && !Enabled(s, Sweep) <==>
              || FrontIsLastOwner(s)
              || exists r: nat :: AtFront(s, r) && s.reports[r].direct && s.reports[r].content.ctx.IsSampled()
                                  && s.reports[r].content.Pending()
  {
    FrontReportsExactly(events, s);
  }

  /** As long as nobody calls reportSpan with an unfinished span, destroying the front of the queue
      reports nothing; if the program also holds the tracer, the worker can always take it. */
  lemma SweepNeverReports(events: seq<Event>, s: State)
    requires Runs(INITIAL, events, s) && s.queue != []
    requires forall r | 0 <= r < |s.reports| && s.reports[r].direct :: !s.reports[r].content.Pending()
    ensures !FrontReports(s) && (Enabled(s, Sweep) <==> !FrontIsLastOwner(s))
    ensures s.handles > 0 ==> Enabled(s, Sweep)
  {
    FrontReportsExactly(events, s);
  }

  /** Nobody who does not hold the tracer can come to hold it, or have a copy queued. */
  lemma StepStaysLastOwner(s: State, e: Event)
    requires Enabled(s, e) && FrontIsLastOwner(s)
    ensures !Held(Apply(s, e)) && Apply(s, e).queue == s.queue && Apply(s, e).swept == s.swept
  {
    var t := Apply(s, e);
    if e.Finish? || e.Destroy? || e.Copy? || e.Change? || e.Swap? {
      assert !TracedAt(s, e.span) && (e.Swap? ==> !TracedAt(s, e.other));
    }
    forall o | 0 <= o < |t.objects| ensures !TracedAt(t, o) {
      assert !TracedAt(s, o);
    }
  }

  lemma StepStaysReporting(s: State, e: Event)
    requires Enabled(s, e) && FrontReports(s)
    ensures s.queue <= Apply(s, e).queue && Apply(s, e).swept == s.swept
  {
  }

  /** Once stuck, the worker stays so, and no copy is ever taken from the queue again. */
  lemma {:induction false} StuckForGood(s: State, events: seq<Event>, t: State)
    requires Runs(s, events, t) && s.queue != [] && !Enabled(s, Sweep)
    ensures s.queue <= t.queue && t.swept == s.swept && !Enabled(t, Sweep)
    decreases |events|
  {
    if events != [] {
      var n := |events| - 1;
      var mid :| Runs(s, events[..n], mid) && Enabled(mid, events[n]) && t == Apply(mid, events[n]);
      StuckForGood(s, events[..n], mid);
      if FrontReports(mid) {
        StepStaysReporting(mid, events[n]);
      } else {
        StepStaysLastOwner(mid, events[n]);
      }
    }
  }

  /** A sampled span reported directly before it is finished gets the worker stuck. */
  lemma DirectReportBlocksWorker(ctx: SpanContext) returns (s: State)
    requires ctx.IsSampled()
    ensures Reachable(s) && s.handles > 0 && s.queue != [] && !Enabled(s, Sweep)
  {
    InitialIsReachable();
    NextIsReachable(INITIAL, Start(ctx, true, 0));
    s := Apply(INITIAL, Start(ctx, true, 0));
    NextIsReachable(s, ReportDirectly(0, true));
    s := Apply(s, ReportDirectly(0, true));
  }

  /** So does dropping the tracer, unclosed, and a finished span while a copy of that is queued. */
  lemma DroppedTracerBlocksWorker(ctx: SpanContext) returns (s: State)
    requires ctx.IsSampled()
    ensures Reachable(s) && |s.reports| == 1 && !s.reports[0].direct
    ensures s.queue != [] && !FrontReports(s) && !Enabled(s, Sweep)
  {
    InitialIsReachable();
    NextIsReachable(INITIAL, Start(ctx, true, 0));
    s := Apply(INITIAL, Start(ctx, true, 0));
    NextIsReachable(s, Destroy(0, 5, true));
    s := Apply(s, Destroy(0, 5, true));
    NextIsReachable(s, DropHandle);
    s := Apply(s, DropHandle);
  }
}
