/**
The request serializer of tee/typescript/src/base/server.ts: every action and every state read
is appended as one link of a promise chain, and a link's callback runs when the promise of the
link before it is fulfilled.

Handlers are arbitrary asynchronous programs. A handler runs in turns: a turn ends by returning,
by throwing, or by awaiting something, and each turn consumes one observation of the
environment (a clock reading, the reply it was waiting for). Between turns anything else that is
enabled may happen. That only one handler is ever active is not built into the model; it is
proved from the way the links are chained.
*/
module Serializer {
  import opened Prelude

  /** How one turn of a handler ends, and the cells it leaves behind. */
  datatype Turn<S, K, R> =
    | Return(cells: S, result: R)
    | Await(cells: S, resumeAt: K)
    | Throw(cells: S)

  /** The registered handlers: how a request starts, and how it goes on after an await. */
  datatype Program<!S, !Q, !E, !K, !R> = Program(start: (S, Q, E) -> Turn<S, K, R>, resume: (S, K, E) -> Turn<S, K, R>)

  datatype Phase<K, R> = Waiting | Running(at: K) | Fulfilled(result: R) | Rejected

  datatype Link<Q, K, R> = Link(request: Q, phase: Phase<K, R>)

  datatype State<S, Q, K, R> = State(cells: S, links: seq<Link<Q, K, R>>)

  /**
  What can happen next. Start and Continue run one turn of the callback of a link. Cascade is the
  promise rule that a link behind a rejected one is rejected without running its callback.
  */
  datatype Event<Q, E> =
    | Arrive(request: Q)
    | Start(index: nat, seen: E)
    | Continue(index: nat, seen: E)
    | Cascade(index: nat)

  /** The promise that link i was chained on is fulfilled; the chain begins at a resolved promise. */
  predicate PredecessorFulfilled<Q, K, R>(links: seq<Link<Q, K, R>>, i: nat)
    requires i < |links|
  {
    i == 0 || links[i - 1].phase.Fulfilled?
  }

  predicate Enabled<Q, E, K, R>(links: seq<Link<Q, K, R>>, ev: Event<Q, E>) {
    match ev
    case Arrive(_) => true
    case Start(i, _) => i < |links| && links[i].phase.Waiting? && PredecessorFulfilled(links, i)
    case Continue(i, _) => i < |links| && links[i].phase.Running?
    case Cascade(i) => 0 < i < |links| && links[i].phase.Waiting? && links[i - 1].phase.Rejected?
  }

  function PhaseAfter<S, K, R>(turn: Turn<S, K, R>): Phase<K, R> {
    match turn
    case Return(_, r) => Fulfilled(r)
    case Await(_, k) => Running(k)
    case Throw(_) => Rejected
  }

  /** The turn that an enabled Start or Continue runs. */
  function TurnOf<S, Q, E, K, R>(p: Program<S, Q, E, K, R>, s: State<S, Q, K, R>, ev: Event<Q, E>): Turn<S, K, R>
    requires Enabled(s.links, ev) && (ev.Start? || ev.Continue?)
  {
    if ev.Start? then p.start(s.cells, s.links[ev.index].request, ev.seen)
    else p.resume(s.cells, s.links[ev.index].phase.at, ev.seen)
  }

  function Next<S, Q, E, K, R>(p: Program<S, Q, E, K, R>, s: State<S, Q, K, R>, ev: Event<Q, E>): State<S, Q, K, R>
    requires Enabled(s.links, ev)
  {
    match ev
    case Arrive(q) => s.(links := s.links + [Link(q, Waiting)])
    case Cascade(i) => s.(links := s.links[i := s.links[i].(phase := Rejected)])
    case _ =>
      var turn := TurnOf(p, s, ev);
      State(turn.cells, s.links[ev.index := s.links[ev.index].(phase := PhaseAfter(turn))])
  }

  ghost predicate ValidRun<S, Q, E, K, R>(p: Program<S, Q, E, K, R>, s0: S, run: seq<Event<Q, E>>)
    decreases |run|, 0
  {
    run == [] ||
    (var before := run[..|run| - 1];
     ValidRun(p, s0, before) && Enabled(After(p, s0, before).links, run[|run| - 1]))
  }

  /** The state a run ends in, starting from an empty chain. */
  ghost function After<S, Q, E, K, R>(p: Program<S, Q, E, K, R>, s0: S, run: seq<Event<Q, E>>): State<S, Q, K, R>
    requires ValidRun(p, s0, run)
    decreases |run|, 1
  {
    if run == [] then State(s0, [])
    else Next(p, After(p, s0, run[..|run| - 1]), run[|run| - 1])
  }

  function ReplyOf<Q, K, R>(link: Link<Q, K, R>): Option<R> {
    if link.phase.Fulfilled? then Some(link.phase.result) else None
  }

  // ------------------------------------------------------------------------------------------
  // The one-at-a-time specification. It knows nothing of links, phases or interleaving.

  /** One request with everything the environment told it, turn by turn. */
  datatype Job<Q, E> = Job(request: Q, inputs: seq<E>)

  /** The jobs of a run in the order of arrival; a pure reading of the trace. */
  ghost function Jobs<Q, E>(run: seq<Event<Q, E>>): seq<Job<Q, E>> {
    if run == [] then []
    else
      var js := Jobs(run[..|run| - 1]);
      match run[|run| - 1]
      case Arrive(q) => js + [Job(q, [])]
      case Cascade(_) => js
      case Start(i, e) => if i < |js| then js[i := Job(js[i].request, js[i].inputs + [e])] else js
      case Continue(i, e) => if i < |js| then js[i := Job(js[i].request, js[i].inputs + [e])] else js
  }

  /** Runs one handler, alone, as far as its inputs take it. */
  ghost function Alone<S, Q, E, K, R>(p: Program<S, Q, E, K, R>, s: S, job: Job<Q, E>): Turn<S, K, R>
    requires job.inputs != []
    decreases |job.inputs|
  {
    var n := |job.inputs|;
    if n == 1 then p.start(s, job.request, job.inputs[0])
    else
      match Alone(p, s, job.(inputs := job.inputs[..n - 1]))
      case Await(c, k) => p.resume(c, k, job.inputs[n - 1])
      case done => done
  }

  /** The last input either continues an awaiting handler or is not consumed. */
  lemma AloneUnfolds<S, Q, E, K, R>(p: Program<S, Q, E, K, R>, s: S, job: Job<Q, E>)
    requires |job.inputs| > 1
    ensures var n := |job.inputs|;
            var before := Alone(p, s, job.(inputs := job.inputs[..n - 1]));
            Alone(p, s, job) == if before.Await? then p.resume(before.cells, before.resumeAt, job.inputs[n - 1]) else before
  {
  }

  ghost function Nothing<R>(n: nat): (outcomes: seq<Option<R>>)
    ensures |outcomes| == n && forall i :: 0 <= i < n ==> outcomes[i] == None
  {
    seq(n, _ => None)
  }

  /**
  Runs the jobs strictly one after the other, the next one only after the one before returned.
  The final cells, and what each job answered, if it did.
  */
  ghost function OneAtATime<S, Q, E, K, R>(p: Program<S, Q, E, K, R>, s: S, jobs: seq<Job<Q, E>>): (S, seq<Option<R>>)
    decreases |jobs|
  {
    if jobs == [] || jobs[0].inputs == [] then (s, Nothing<R>(|jobs|))
    else
      match Alone(p, s, jobs[0])
      case Return(c, r) =>
        var (final, outcomes) := OneAtATime(p, c, jobs[1..]);
        (final, [Some(r)] + outcomes)
      case Await(c, _) => (c, Nothing<R>(|jobs|))
      case Throw(c) => (c, Nothing<R>(|jobs|))
  }

  // ------------------------------------------------------------------------------------------
  // The invariant that ties the chain to the specification.

  /** Links that have not run: all still waiting, or (behind a rejected link) possibly rejected. */
  ghost predicate Untouched<Q, E, K, R>(links: seq<Link<Q, K, R>>, jobs: seq<Job<Q, E>>, dead: bool) {
    && |links| == |jobs|
    && forall i :: 0 <= i < |links| ==>
      && links[i].request == jobs[i].request
      && jobs[i].inputs == []
      && (links[i].phase.Waiting? || (dead && links[i].phase.Rejected?))
  }

  /** From cells s, running the chain of links has led to cells `now`, just as running the jobs would. */
  ghost predicate Agrees<S, Q, E, K, R>(p: Program<S, Q, E, K, R>, s: S, now: S, links: seq<Link<Q, K, R>>, jobs: seq<Job<Q, E>>)
    decreases |links|
  {
    && |links| == |jobs|
    && if links == [] then now == s
       else
         && links[0].request == jobs[0].request
         && match links[0].phase
            case Waiting => jobs[0].inputs == [] && now == s && Untouched(links[1..], jobs[1..], false)
            case Running(k) =>
              && jobs[0].inputs != [] && Alone(p, s, jobs[0]) == Await(now, k)
              && Untouched(links[1..], jobs[1..], false)
            case Rejected =>
              && jobs[0].inputs != [] && Alone(p, s, jobs[0]) == Throw(now)
              && Untouched(links[1..], jobs[1..], true)
            case Fulfilled(r) =>
              && jobs[0].inputs != []
              && var turn := Alone(p, s, jobs[0]);
                 turn.Return? && turn.result == r && Agrees(p, turn.cells, now, links[1..], jobs[1..])
  }

  /** What an event appends to the jobs it concerns; the last clause of Jobs. */
  ghost function Noted<Q, E>(js: seq<Job<Q, E>>, ev: Event<Q, E>): seq<Job<Q, E>>
    requires (ev.Start? || ev.Continue?) ==> ev.index < |js|
  {
    match ev
    case Arrive(q) => js + [Job(q, [])]
    case Cascade(_) => js
    case Start(i, e) => js[i := Job(js[i].request, js[i].inputs + [e])]
    case Continue(i, e) => js[i := Job(js[i].request, js[i].inputs + [e])]
  }

  /** One more input extends a handler that is awaiting by one turn. */
  lemma AloneExtends<S, Q, E, K, R>(p: Program<S, Q, E, K, R>, s: S, job: Job<Q, E>, e: E)
    ensures job.inputs == [] ==> Alone(p, s, Job(job.request, job.inputs + [e])) == p.start(s, job.request, e)
    ensures job.inputs != [] && Alone(p, s, job).Await? ==>
      var a := Alone(p, s, job);
      Alone(p, s, Job(job.request, job.inputs + [e])) == p.resume(a.cells, a.resumeAt, e)
  {
    var more := Job(job.request, job.inputs + [e]);
    assert more.(inputs := more.inputs[..|more.inputs| - 1]) == job;
  }

  /** The event as the chain behind the first link sees it. */
  ghost function Behind<Q, E>(ev: Event<Q, E>): Event<Q, E>
    requires ev.Arrive? || ev.index > 0
  {
    if ev.Arrive? then ev else ev.(index := ev.index - 1)
  }

  /** Behind a fulfilled first link, an event of the chain is an event of the rest. */
  lemma BehindFulfilled<S, Q, E, K, R>(p: Program<S, Q, E, K, R>, st: State<S, Q, K, R>, jobs: seq<Job<Q, E>>, ev: Event<Q, E>)
    requires st.links != [] && st.links[0].phase.Fulfilled? && |jobs| == |st.links|
    requires Enabled(st.links, ev)
    ensures ev.Arrive? || ev.index > 0
    ensures var tail := State(st.cells, st.links[1..]);
            var next := Next(p, st, ev);
            && Enabled(tail.links, Behind(ev))
            && next.cells == Next(p, tail, Behind(ev)).cells
            && next.links[0] == st.links[0] && next.links[1..] == Next(p, tail, Behind(ev)).links
            && Noted(jobs, ev)[0] == jobs[0] && Noted(jobs, ev)[1..] == Noted(jobs[1..], Behind(ev))
  {
  }

  /** Every enabled event keeps the agreement. */
  lemma {:induction false} AgreesStep<S, Q, E, K, R>(
    p: Program<S, Q, E, K, R>, s: S, st: State<S, Q, K, R>, jobs: seq<Job<Q, E>>, ev: Event<Q, E>)
    requires Agrees(p, s, st.cells, st.links, jobs)
    requires Enabled(st.links, ev)
    ensures Agrees(p, s, Next(p, st, ev).cells, Next(p, st, ev).links, Noted(jobs, ev))
    decreases |st.links|
  {
    var next := Next(p, st, ev);
    var noted := Noted(jobs, ev);
    if st.links == [] {
      assert next.links[1..] == [] && noted[1..] == [];
    } else if st.links[0].phase.Fulfilled? {
      var tail := State(st.cells, st.links[1..]);
      BehindFulfilled(p, st, jobs, ev);
      AgreesStep(p, Alone(p, s, jobs[0]).cells, tail, jobs[1..], Behind(ev));
    } else if ev.Start? || ev.Continue? {
      FrontTurn(p, s, st, jobs, ev);
    } else {
      FrontStays(p, s, st, jobs, ev);
    }
  }

  /** A chain nobody has touched agrees with any cells. */
  lemma UntouchedAgrees<S, Q, E, K, R>(p: Program<S, Q, E, K, R>, s: S, links: seq<Link<Q, K, R>>, jobs: seq<Job<Q, E>>)
    requires Untouched(links, jobs, false)
    ensures Agrees(p, s, s, links, jobs)
  {
    if links != [] {
      assert forall i :: 0 < i < |links| ==> links[i] == links[1..][i - 1] && jobs[i] == jobs[1..][i - 1];
      assert Untouched(links[1..], jobs[1..], false);
    }
  }

  /** The case where the first unfinished link is the first of the chain: it runs a turn ... */
  lemma FrontTurn<S, Q, E, K, R>(
    p: Program<S, Q, E, K, R>, s: S, st: State<S, Q, K, R>, jobs: seq<Job<Q, E>>, ev: Event<Q, E>)
    requires st.links != [] && !st.links[0].phase.Fulfilled?
    requires Agrees(p, s, st.cells, st.links, jobs)
    requires Enabled(st.links, ev) && (ev.Start? || ev.Continue?)
    ensures Agrees(p, s, Next(p, st, ev).cells, Next(p, st, ev).links, Noted(jobs, ev))
  {
    var next, noted := Next(p, st, ev), Noted(jobs, ev);
    assert forall i :: 0 < i < |st.links| ==> st.links[i] == st.links[1..][i - 1];
    assert ev.index == 0;
    AloneExtends(p, s, jobs[0], ev.seen);
    assert next.links[1..] == st.links[1..] && noted[1..] == jobs[1..];
    UntouchedAgrees(p, next.cells, st.links[1..], jobs[1..]);
  }

  /** ... or something happens behind it. */
  lemma FrontStays<S, Q, E, K, R>(
    p: Program<S, Q, E, K, R>, s: S, st: State<S, Q, K, R>, jobs: seq<Job<Q, E>>, ev: Event<Q, E>)
    requires st.links != [] && !st.links[0].phase.Fulfilled?
    requires Agrees(p, s, st.cells, st.links, jobs)
    requires Enabled(st.links, ev) && (ev.Arrive? || ev.Cascade?)
    ensures Agrees(p, s, Next(p, st, ev).cells, Next(p, st, ev).links, Noted(jobs, ev))
  {
    var next, noted := Next(p, st, ev), Noted(jobs, ev);
    if ev.Arrive? {
      assert next.links[1..] == st.links[1..] + [Link(ev.request, Waiting)];
      assert noted[1..] == jobs[1..] + [Job(ev.request, [])];
    } else {
      var i := ev.index;
      assert st.links[i] == st.links[1..][i - 1];
      assert i > 1 ==> st.links[i - 1] == st.links[1..][i - 2];
      assert next.links[1..] == st.links[1..][i - 1 := Link(st.links[i].request, Rejected)];
    }
  }

  lemma {:induction false} RunAgrees<S, Q, E, K, R>(p: Program<S, Q, E, K, R>, s0: S, run: seq<Event<Q, E>>)
    requires ValidRun(p, s0, run)
    ensures Agrees(p, s0, After(p, s0, run).cells, After(p, s0, run).links, Jobs(run))
    decreases |run|
  {
    if run != [] {
      var before, ev := run[..|run| - 1], run[|run| - 1];
      RunAgrees(p, s0, before);
      AgreesLength(p, s0, After(p, s0, before), Jobs(before));
      AgreesStep(p, s0, After(p, s0, before), Jobs(before), ev);
      assert Jobs(run) == Noted(Jobs(before), ev);
    }
  }

  lemma AgreesLength<S, Q, E, K, R>(p: Program<S, Q, E, K, R>, s: S, st: State<S, Q, K, R>, jobs: seq<Job<Q, E>>)
    requires Agrees(p, s, st.cells, st.links, jobs)
    ensures |st.links| == |jobs|
  {
  }

  lemma {:induction false} AgreesMeansSpecified<S, Q, E, K, R>(
    p: Program<S, Q, E, K, R>, s: S, now: S, links: seq<Link<Q, K, R>>, jobs: seq<Job<Q, E>>)
    requires Agrees(p, s, now, links, jobs)
    ensures OneAtATime(p, s, jobs).0 == now
    ensures |OneAtATime(p, s, jobs).1| == |links| == |jobs|
    ensures forall i :: 0 <= i < |links| ==>
      links[i].request == jobs[i].request && ReplyOf(links[i]) == OneAtATime(p, s, jobs).1[i]
    decreases |links|
  {
    if links != [] && links[0].phase.Fulfilled? {
      var c := Alone(p, s, jobs[0]).cells;
      AgreesMeansSpecified(p, c, now, links[1..], jobs[1..]);
      assert forall i :: 0 < i < |links| ==> links[i] == links[1..][i - 1] && jobs[i] == jobs[1..][i - 1];
    } else if links != [] {
      assert forall i :: 0 < i < |links| ==> links[i] == links[1..][i - 1] && jobs[i] == jobs[1..][i - 1];
    }
  }

  /**
  Linearizability. However arrivals, turns and awaited replies interleave, the cells are what
  running the requests one at a time in order of arrival would leave, and each request is answered
  exactly when that would answer it, with that answer.
  */
  lemma Linearizable<S, Q, E, K, R>(p: Program<S, Q, E, K, R>, s0: S, run: seq<Event<Q, E>>)
    requires ValidRun(p, s0, run)
    ensures var st := After(p, s0, run);
            var (cells, outcomes) := OneAtATime(p, s0, Jobs(run));
            && st.cells == cells
            && |st.links| == |outcomes| == |Jobs(run)|
            && forall i :: 0 <= i < |st.links| ==>
                 st.links[i].request == Jobs(run)[i].request && ReplyOf(st.links[i]) == outcomes[i]
  {
    RunAgrees(p, s0, run);
    AgreesMeansSpecified(p, s0, After(p, s0, run).cells, After(p, s0, run).links, Jobs(run));
  }

  // ------------------------------------------------------------------------------------------
  // What one answer depends on.

  /** The cells after every job has run alone, as far as it got, in order. */
  ghost function CellsAfter<S, Q, E, K, R>(p: Program<S, Q, E, K, R>, s: S, jobs: seq<Job<Q, E>>): S {
    if jobs == [] then s
    else
      var c := CellsAfter(p, s, jobs[..|jobs| - 1]);
      var job := jobs[|jobs| - 1];
      if job.inputs == [] then c else Alone(p, c, job).cells
  }

  lemma {:induction false} CellsAfterFront<S, Q, E, K, R>(p: Program<S, Q, E, K, R>, s: S, jobs: seq<Job<Q, E>>)
    requires jobs != []
    ensures CellsAfter(p, s, jobs) ==
            CellsAfter(p, if jobs[0].inputs == [] then s else Alone(p, s, jobs[0]).cells, jobs[1..])
    decreases |jobs|
  {
    var n := |jobs|;
    if n > 1 {
      CellsAfterFront(p, s, jobs[..n - 1]);
      assert jobs[..n - 1][1..] == jobs[1..][..n - 2];
    }
  }

  lemma {:induction false} UntouchedCells<S, Q, E, K, R>(
    p: Program<S, Q, E, K, R>, s: S, links: seq<Link<Q, K, R>>, jobs: seq<Job<Q, E>>, dead: bool)
    requires Untouched(links, jobs, dead)
    ensures CellsAfter(p, s, jobs) == s
    decreases |jobs|
  {
    if jobs != [] {
      UntouchedCells(p, s, links[..|links| - 1], jobs[..|jobs| - 1], dead);
    }
  }

  lemma {:induction false} AgreesExplainsPhase<S, Q, E, K, R>(
    p: Program<S, Q, E, K, R>, s: S, now: S, links: seq<Link<Q, K, R>>, jobs: seq<Job<Q, E>>, i: nat)
    requires Agrees(p, s, now, links, jobs)
    requires i < |links|
    ensures i < |jobs| && jobs[i].request == links[i].request
    ensures if jobs[i].inputs == [] then links[i].phase.Waiting? || links[i].phase.Rejected?
            else links[i].phase == PhaseAfter(Alone(p, CellsAfter(p, s, jobs[..i]), jobs[i]))
    decreases |links|
  {
    if i > 0 {
      assert links[i] == links[1..][i - 1] && jobs[i] == jobs[1..][i - 1];
      if links[0].phase.Fulfilled? {
        AgreesExplainsPhase(p, Alone(p, s, jobs[0]).cells, now, links[1..], jobs[1..], i - 1);
        CellsAfterFront(p, s, jobs[..i]);
        assert jobs[..i][1..] == jobs[1..][..i - 1];
      }
    }
  }

  lemma {:induction false} AgreesExplainsCells<S, Q, E, K, R>(
    p: Program<S, Q, E, K, R>, s: S, now: S, links: seq<Link<Q, K, R>>, jobs: seq<Job<Q, E>>)
    requires Agrees(p, s, now, links, jobs)
    ensures now == CellsAfter(p, s, jobs)
    decreases |links|
  {
    if links != [] {
      CellsAfterFront(p, s, jobs);
      if links[0].phase.Fulfilled? {
        AgreesExplainsCells(p, Alone(p, s, jobs[0]).cells, now, links[1..], jobs[1..]);
      } else {
        UntouchedCells(p, now, links[1..], jobs[1..], links[0].phase.Rejected?);
      }
    }
  }

  /**
  Every request that has begun stands where its handler, run alone in the cells that all earlier
  requests leave, would stand: it is suspended there, or answered with that answer, or rejected.
  */
  lemma PhaseExplained<S, Q, E, K, R>(p: Program<S, Q, E, K, R>, s0: S, run: seq<Event<Q, E>>, i: nat)
    requires ValidRun(p, s0, run)
    requires i < |After(p, s0, run).links|
    ensures i < |Jobs(run)| && Jobs(run)[i].request == After(p, s0, run).links[i].request
    ensures var phase := After(p, s0, run).links[i].phase;
            if Jobs(run)[i].inputs == [] then phase.Waiting? || phase.Rejected?
            else phase == PhaseAfter(Alone(p, CellsAfter(p, s0, Jobs(run)[..i]), Jobs(run)[i]))
  {
    RunAgrees(p, s0, run);
    var st := After(p, s0, run);
    AgreesExplainsPhase(p, s0, st.cells, st.links, Jobs(run), i);
  }

  /** The cells of a reachable state are those the requests so far leave. */
  lemma CellsExplained<S, Q, E, K, R>(p: Program<S, Q, E, K, R>, s0: S, run: seq<Event<Q, E>>)
    requires ValidRun(p, s0, run)
    ensures After(p, s0, run).cells == CellsAfter(p, s0, Jobs(run))
  {
    RunAgrees(p, s0, run);
    AgreesExplainsCells(p, s0, After(p, s0, run).cells, After(p, s0, run).links, Jobs(run));
  }

  // ------------------------------------------------------------------------------------------
  // Mutual exclusion, isolation while suspended, and what a throwing handler does.

  /** The first d links are fulfilled, link d is the only one that may be active, none behind it has run. */
  ghost predicate Shape<Q, K, R>(links: seq<Link<Q, K, R>>, d: nat) {
    && d <= |links|
    && (forall i :: 0 <= i < d ==> links[i].phase.Fulfilled?)
    && (d < |links| ==> !links[d].phase.Fulfilled?)
    && (forall i :: d < i < |links| ==>
          links[i].phase.Waiting? || (links[i].phase.Rejected? && links[d].phase.Rejected?))
  }

  lemma {:induction false} AgreesHasShape<S, Q, E, K, R>(
    p: Program<S, Q, E, K, R>, s: S, now: S, links: seq<Link<Q, K, R>>, jobs: seq<Job<Q, E>>) returns (d: nat)
    requires Agrees(p, s, now, links, jobs)
    ensures Shape(links, d)
    decreases |links|
  {
    if links == [] {
      d := 0;
    } else if links[0].phase.Fulfilled? {
      var d' := AgreesHasShape(p, Alone(p, s, jobs[0]).cells, now, links[1..], jobs[1..]);
      d := d' + 1;
      assert forall i :: 0 < i < |links| ==> links[i] == links[1..][i - 1];
    } else {
      d := 0;
      assert forall i :: 0 < i < |links| ==> links[i] == links[1..][i - 1];
    }
  }

  /** At most one handler is active, and it runs after all earlier ones returned and before any later one started. */
  lemma MutualExclusion<S, Q, E, K, R>(p: Program<S, Q, E, K, R>, s0: S, run: seq<Event<Q, E>>, i: nat)
    requires ValidRun(p, s0, run)
    requires i < |After(p, s0, run).links| && After(p, s0, run).links[i].phase.Running?
    ensures forall j :: 0 <= j < i ==> After(p, s0, run).links[j].phase.Fulfilled?
    ensures forall j :: i < j < |After(p, s0, run).links| ==> After(p, s0, run).links[j].phase.Waiting?
  {
    RunAgrees(p, s0, run);
    var st := After(p, s0, run);
    var d := AgreesHasShape(p, s0, st.cells, st.links, Jobs(run));
  }

  /** While a handler is suspended nobody else touches the cells: only arrivals, and its own next turn, can happen. */
  lemma IsolatedWhileSuspended<S, Q, E, K, R>(p: Program<S, Q, E, K, R>, s0: S, run: seq<Event<Q, E>>, i: nat, ev: Event<Q, E>)
    requires ValidRun(p, s0, run)
    requires i < |After(p, s0, run).links| && After(p, s0, run).links[i].phase.Running?
    requires Enabled(After(p, s0, run).links, ev)
    ensures ev.Arrive? || (ev.Continue? && ev.index == i)
    ensures ev.Arrive? ==> Next(p, After(p, s0, run), ev).cells == After(p, s0, run).cells
  {
    MutualExclusion(p, s0, run, i);
  }

  /** A rejected link rejects or blocks all links behind it, now and after anything that may follow. */
  lemma {:induction false} ThrowPoisonsChain<S, Q, E, K, R>(
    p: Program<S, Q, E, K, R>, s0: S, run: seq<Event<Q, E>>, more: seq<Event<Q, E>>, d: nat)
    requires ValidRun(p, s0, run + more) && ValidRun(p, s0, run)
    requires d < |After(p, s0, run).links| && After(p, s0, run).links[d].phase.Rejected?
    ensures After(p, s0, run + more).cells == After(p, s0, run).cells
    ensures d < |After(p, s0, run + more).links| && After(p, s0, run + more).links[d].phase.Rejected?
    ensures forall j :: d <= j < |After(p, s0, run + more).links| ==> ReplyOf(After(p, s0, run + more).links[j]) == None
    decreases |more|
  {
    if more == [] {
      assert run + more == run;
      RunAgrees(p, s0, run);
      var st := After(p, s0, run);
      var f := AgreesHasShape(p, s0, st.cells, st.links, Jobs(run));
    } else {
      var less := more[..|more| - 1];
      assert (run + more)[..|run + more| - 1] == run + less;
      ThrowPoisonsChain(p, s0, run, less, d);
      RunAgrees(p, s0, run + less);
      var st := After(p, s0, run + less);
      var f := AgreesHasShape(p, s0, st.cells, st.links, Jobs(run + less));
    }
  }

  /** Some waiting link can start now. */
  ghost predicate CanStart<Q, K, R>(links: seq<Link<Q, K, R>>) {
    exists i :: 0 <= i < |links| && links[i].phase.Waiting? && PredecessorFulfilled(links, i)
  }

  lemma CanStartMeansEnabled<Q, E, K, R>(links: seq<Link<Q, K, R>>, e: E)
    ensures CanStart(links) <==> exists i: nat {:trigger Event<Q, E>.Start(i, e)} :: Enabled(links, Event<Q, E>.Start(i, e))
  {
    if CanStart(links) {
      var i :| 0 <= i < |links| && links[i].phase.Waiting? && PredecessorFulfilled(links, i);
      assert Enabled(links, Event<Q, E>.Start(i, e));
    }
  }

  /**
  Exactly when the chain can go on: in a reachable state with some request unanswered, the next
  request can start if and only if no handler has thrown and none is suspended.
  */
  lemma ProgressUnlessHeldUp<S, Q, E, K, R>(p: Program<S, Q, E, K, R>, s0: S, run: seq<Event<Q, E>>)
    requires ValidRun(p, s0, run)
    requires exists i :: 0 <= i < |After(p, s0, run).links| && !After(p, s0, run).links[i].phase.Fulfilled?
    ensures CanStart(After(p, s0, run).links) <==>
            forall i :: 0 <= i < |After(p, s0, run).links| ==>
              !After(p, s0, run).links[i].phase.Rejected? && !After(p, s0, run).links[i].phase.Running?
  {
    RunAgrees(p, s0, run);
    var st := After(p, s0, run);
    var d := AgreesHasShape(p, s0, st.cells, st.links, Jobs(run));
    ShapeCanStart(st.links, d);
  }

  lemma ShapeCanStart<Q, K, R>(links: seq<Link<Q, K, R>>, d: nat)
    requires Shape(links, d) && d < |links|
    ensures CanStart(links) <==> links[d].phase.Waiting?
  {
    if links[d].phase.Waiting? {
      assert PredecessorFulfilled(links, d);
    }
  }

  // ------------------------------------------------------------------------------------------
  // The server object.

  /** The server: the cells its handlers share and the promise chain that `handlerQueue` ends. */
  class ActionServer<S, Q, E, K, R> {
    const program: Program<S, Q, E, K, R>
    var cells: S
    var chain: seq<Link<Q, K, R>>

    ghost function Abs(): State<S, Q, K, R>
      reads this
    {
      State(cells, chain)
    }

    constructor (program: Program<S, Q, E, K, R>, cells: S)
      ensures this.program == program && Abs() == State(cells, [])
    {
      this.program := program;
      this.cells := cells;
      chain := [];
    }

    /** `handlerQueue = handlerQueue.then(...)`: the ticket is the position in the chain. */
    method Enqueue(q: Q) returns (ticket: nat)
      modifies this
      ensures ticket == |old(chain)|
      ensures Abs() == Next(program, old(Abs()), Event<Q, E>.Arrive(q))
    {
      ticket := |chain|;
      chain := chain + [Link(q, Waiting)];
    }

    /** Runs the callback of a link up to its first await. */
    method StartLink(i: nat, e: E)
      requires Enabled(chain, Event<Q, E>.Start(i, e))
      modifies this
      ensures Abs() == Next(program, old(Abs()), Event<Q, E>.Start(i, e))
    {
      Settle(i, program.start(cells, chain[i].request, e));
    }

    /** The awaited reply of a suspended handler came in. */
    method ContinueLink(i: nat, e: E)
      requires Enabled(chain, Event<Q, E>.Continue(i, e))
      modifies this
      ensures Abs() == Next(program, old(Abs()), Event<Q, E>.Continue(i, e))
    {
      Settle(i, program.resume(cells, chain[i].phase.at, e));
    }

    method Settle(i: nat, turn: Turn<S, K, R>)
      requires i < |chain|
      modifies this
      ensures cells == turn.cells
      ensures chain == old(chain)[i := Link(old(chain)[i].request, PhaseAfter(turn))]
    {
      cells := turn.cells;
      chain := chain[i := Link(chain[i].request, PhaseAfter(turn))];
    }

    /** A promise chained on a rejected one is rejected; its callback does not run. */
    method RejectLink(i: nat)
      requires Enabled(chain, Event<Q, E>.Cascade(i))
      modifies this
      ensures Abs() == Next(program, old(Abs()), Event<Q, E>.Cascade(i))
    {
      chain := chain[i := Link(chain[i].request, Rejected)];
    }
  }
}
