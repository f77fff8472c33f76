/** The order of reparses: one strand runs them in the order they were asked for (src/lsp/server.hpp), so the document
    asked for last is committed last, if its text can be indexed at all. */
module Strand {
  import opened Options
  import opened Queries
  import opened Protocol

  // ------------------------------------------------------------------
  // First in, first out
  // ------------------------------------------------------------------

  /** The document whose reparse a step asks for: one that is opened, or changed by a single newer text. */
  function Asks(s: ServerState, a: Action): seq<string> {
    match a
    case DidOpen(uri, _, _) => [uri]
    case DidChange(uri, version, changes) =>
      if uri in s.documents && s.documents[uri].version < version && |changes| == 1 then [uri] else []
    case _ => []
  }

  /** The document whose reparse a step starts: that of the job which then runs and did not before. */
  function Starts(tcl: Tcl, s: ServerState, a: Action): seq<string> {
    var t := Step(tcl, s, a);
    if s.running.None? && t.running.Some? then [t.running.value.uri] else []
  }

  function Asked(tcl: Tcl, s: ServerState, actions: seq<Action>): seq<string> {
    if actions == [] then []
    else
      var n := |actions| - 1;
      Asked(tcl, s, actions[..n]) + Asks(Protocol.Run(tcl, s, actions[..n]), actions[n])
  }

  function Started(tcl: Tcl, s: ServerState, actions: seq<Action>): seq<string> {
    if actions == [] then []
    else
      var n := |actions| - 1;
      Started(tcl, s, actions[..n]) + Starts(tcl, Protocol.Run(tcl, s, actions[..n]), actions[n])
  }

  lemma StepIsFifo(tcl: Tcl, s: ServerState, a: Action)
    ensures Starts(tcl, s, a) + Step(tcl, s, a).queue == s.queue + Asks(s, a)
  {
    hide BuiltFrom, Parsed, AfterQuery;
    if a.StartJob? && s.queue != [] {
      assert s.queue == [s.queue[0]] + s.queue[1..];
    }
  }

  /** Over every run: the reparses started, then those still queued, are those queued at the beginning, then those
      asked for, in the same order and each once. */
  lemma {:induction false} StrandIsFifo(tcl: Tcl, s: ServerState, actions: seq<Action>)
    ensures Started(tcl, s, actions) + Protocol.Run(tcl, s, actions).queue == s.queue + Asked(tcl, s, actions)
  {
    hide Step, Starts, Asks;
    if actions != [] {
      var n := |actions| - 1;
      var t := Protocol.Run(tcl, s, actions[..n]);
      StrandIsFifo(tcl, s, actions[..n]);
      StepIsFifo(tcl, t, actions[n]);
      Chain(Started(tcl, s, actions[..n]), Starts(tcl, t, actions[n]), Step(tcl, t, actions[n]).queue, t.queue,
            Asks(t, actions[n]), s.queue, Asked(tcl, s, actions[..n]));
    }
  }

  lemma Chain(started: seq<string>, starts: seq<string>, after: seq<string>, before: seq<string>, asks: seq<string>,
              queue: seq<string>, asked: seq<string>)
    requires starts + after == before + asks && started + before == queue + asked
    ensures started + starts + after == queue + (asked + asks)
  {
    assert started + starts + after == started + (starts + after);
    assert started + (before + asks) == started + before + asks;
    assert queue + asked + asks == queue + (asked + asks);
  }

  // ------------------------------------------------------------------
  // The last commit
  // ------------------------------------------------------------------

  /** A document and the text it is going to be parsed from. */
  datatype Upcoming = Upcoming(uri: string, text: string)

  /** The jobs the worker has before it, in order, when no more messages come. */
  function Jobs(s: ServerState): seq<Upcoming>
    requires Known(s)
  {
    (if s.running.Some? then [Upcoming(s.running.value.uri, s.running.value.text)] else [])
    + seq(|s.queue|, i requires 0 <= i < |s.queue| =>
            assert s.queue[i] in s.queue; Upcoming(s.queue[i], s.documents[s.queue[i]].text))
  }

  /** The last of some jobs whose text can be built. */
  function LastBuildable(tcl: Tcl, jobs: seq<Upcoming>): Option<Upcoming> {
    if jobs == [] then None
    else
      var job := jobs[|jobs| - 1];
      if Buildable(tcl, job.uri, job.text) then Some(job) else LastBuildable(tcl, jobs[..|jobs| - 1])
  }

  lemma {:induction false} LastBuildableAfter(tcl: Tcl, job: Upcoming, jobs: seq<Upcoming>)
    ensures LastBuildable(tcl, [job] + jobs) ==
            if LastBuildable(tcl, jobs).Some? then LastBuildable(tcl, jobs)
            else if Buildable(tcl, job.uri, job.text) then Some(job) else None
  {
    hide Buildable;
    if jobs == [] {
      assert [job] + jobs == [job] && [job][..0] == [];
    } else {
      var n := |jobs| - 1;
      assert ([job] + jobs)[..n + 1] == [job] + jobs[..n];
      LastBuildableAfter(tcl, job, jobs[..n]);
    }
  }

  lemma StartedIsNext(tcl: Tcl, s: ServerState)
    requires Known(s) && s.running.None? && s.queue != []
    ensures var t := Step(tcl, s, StartJob);
            Known(t) && Jobs(t) == Jobs(s) && t.last == s.last && t.index == s.index
  {
    hide BuiltFrom, Parsed, AfterQuery;
    var t := Step(tcl, s, StartJob);
    assert s.queue == [s.queue[0]] + t.queue;
    assert s.queue[0] in s.queue;
    assert forall u :: u in t.queue ==> u in s.queue;
  }

  lemma FinishedIsFirst(tcl: Tcl, s: ServerState)
    requires Known(s) && s.running.Some?
    ensures var t := Step(tcl, s, FinishJob);
            var job := Jobs(s)[0];
            && Known(t) && Jobs(s) == [job] + Jobs(t)
            && (if Buildable(tcl, job.uri, job.text) then
                  t.last == Some(job.uri) && Some(t.index) == BuiltFrom(Parsed(tcl, job.uri, job.text))
                else t.last == s.last && t.index == s.index)
  {
    hide BuiltFrom, Parsed, AfterQuery;
  }

  /** Left alone, the worker ends with the last of its jobs whose text can be built: that document was committed last
      and the shared index is the one built from its text. If there is none, all stays as it was. */
  lemma {:induction false} LastJobIsLast(tcl: Tcl, s: ServerState)
    requires Known(s)
    ensures var t := Worked(tcl, s, Work(s));
            match LastBuildable(tcl, Jobs(s))
            case None => t.last == s.last && t.index == s.index
            case Some(job) => t.last == Some(job.uri) && Some(t.index) == BuiltFrom(Parsed(tcl, job.uri, job.text))
    decreases Work(s)
  {
    hide Step, Jobs, BuiltFrom, Parsed, Buildable;
    if Quiet(s) {
      NoJobs(s);
    } else {
      var next := Step(tcl, s, WorkerAction(s));
      WorkedAfterStep(tcl, s);
      if s.running.None? {
        StartedIsNext(tcl, s);
        LastJobIsLast(tcl, next);
      } else {
        FinishedIsFirst(tcl, s);
        LastJobIsLast(tcl, next);
        LastBuildableAfter(tcl, Jobs(s)[0], Jobs(next));
      }
    }
  }

  lemma NoJobs(s: ServerState)
    requires Known(s) && Quiet(s)
    ensures Jobs(s) == []
  {
  }

  /** So after two documents are opened in a quiet server and the worker has drained, requests are answered from the
      second one, if its text can be indexed. */
  lemma OpenedLastIsServed(tcl: Tcl, s: ServerState, first: Action, second: Action)
    requires Known(s) && Quiet(s) && first.DidOpen? && second.DidOpen?
    requires second.uri !in s.documents && second.uri != first.uri
    requires Buildable(tcl, second.uri, second.text)
    ensures var t := Step(tcl, Step(tcl, s, first), second);
            var u := Worked(tcl, t, Work(t));
            && u.last == Some(second.uri)
            && Some(u.index) == BuiltFrom(Parsed(tcl, second.uri, second.text))
  {
    hide BuiltFrom, Parsed, Buildable, Worked, Work, LastBuildable;
    var t := Step(tcl, Step(tcl, s, first), second);
    assert t.queue == [first.uri, second.uri];
    assert Known(t);
    var jobs := Jobs(t);
    assert jobs[|jobs| - 1] == Upcoming(second.uri, second.text);
    LastOne(tcl, jobs);
    LastJobIsLast(tcl, t);
  }

  lemma LastOne(tcl: Tcl, jobs: seq<Upcoming>)
    requires jobs != [] && Buildable(tcl, jobs[|jobs| - 1].uri, jobs[|jobs| - 1].text)
    ensures LastBuildable(tcl, jobs) == Some(jobs[|jobs| - 1])
  {
  }
}
