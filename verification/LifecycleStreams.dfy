/** What log streams deliver, whatever the other actors do. */
module LifecycleStreams {
  import opened Results
  import opened Deployments
  import opened Lifecycle
  import opened LifecycleSafety

  /** What every reachable state says of a stream. */
  lemma StreamSound(actions: seq<Action>, s: nat)
    requires s in Run(Init, actions).streams
    ensures var st := Run(Init, actions); var stream := st.streams[s];
            && StreamTrue(st.rows, st.written, stream) && s < st.nextStream
            && (stream.id in st.rows ==> stream.id in st.written && LogComplete(st, stream.id))
  {
    InitInv();
    RunKeepsInv(Init, actions);
  }

  /** While the output of a row is within the cap, what a stream has sent is a prefix of the
      output. A stream that told its row's terminal status has sent the complete output exactly
      when that is within the cap. */
  lemma StreamExact(actions: seq<Action>, s: nat)
    requires s in Run(Init, actions).streams
    ensures var st := Run(Init, actions); var stream := st.streams[s];
            stream.id in st.rows ==>
              && stream.id in st.written
              && (|st.written[stream.id]| <= MAX_LOG ==> stream.out <= st.written[stream.id])
              && (stream.end.Told? ==>
                    && stream.end.status == st.rows[stream.id].status && Terminal(stream.end.status)
                    && (stream.out == st.written[stream.id] <==> |st.written[stream.id]| <= MAX_LOG))
  {
    StreamSound(actions, s);
  }

  /** No step takes back what was sent, and a stream that ended sends nothing more. */
  lemma StreamGrows(st: State, a: Action, s: nat)
    requires s in st.streams && s < st.nextStream && !a.Restart?
    ensures s in Step(st, a).streams
    ensures st.streams[s].out <= Step(st, a).streams[s].out
    ensures !st.streams[s].end.Live? ==> Step(st, a).streams[s] == st.streams[s]
  {
    if IsTaskAction(a) && Step(st, a) != st {
      TaskStepStreams(st, a.task, a);
    }
  }

  lemma TaskStepStreams(st: State, t: nat, a: Action)
    requires t in st.tasks && IsTaskAction(a)
    requires HasRow(st.tasks[t].phase) ==> st.tasks[t].phase.id in st.rows && st.tasks[t].phase.id in st.written
    ensures TaskStep(st, t, st.tasks[t], a).streams == st.streams
    ensures TaskStep(st, t, st.tasks[t], a).nextStream == st.nextStream
  {
  }

  lemma StreamIds(st: State, a: Action)
    ensures Step(st, a).nextStream >= st.nextStream
    ensures a.Restart? ==> Step(st, a).streams == map[]
    ensures forall s | s in Step(st, a).streams && s !in st.streams :: s >= st.nextStream
  {
    if IsTaskAction(a) && Step(st, a) != st {
      TaskStepStreams(st, a.task, a);
    }
  }

  lemma {:induction false} ClosedStaysClosed(st: State, actions: seq<Action>, s: nat)
    requires s !in st.streams && s < st.nextStream
    ensures s !in Run(st, actions).streams
    decreases |actions|
  {
    if actions != [] {
      StreamIds(st, actions[0]);
      ClosedStaysClosed(Step(st, actions[0]), actions[1..], s);
    }
  }

  /** One step for a stream that has sent as much as a full log. */
  lemma FullStreamStep(st: State, a: Action, s: nat)
    requires Inv(st) && s in st.streams && st.streams[s].sent == MAX_LOG && !a.Restart?
    ensures s in Step(st, a).streams
    ensures Step(st, a).streams[s].sent == MAX_LOG && Step(st, a).streams[s].out == st.streams[s].out
  {
    assert StreamTrue(st.rows, st.written, st.streams[s]);
    StreamGrows(st, a, s);
    if st.streams[s].id in st.rows {
      assert LogComplete(st, st.streams[s].id);
    }
    if IsTaskAction(a) && Step(st, a) != st {
      TaskStepStreams(st, a.task, a);
    }
  }

  /** Why it stops there: from the moment a stream has sent as much as a full log, however much
      is logged from then on, it is sent nothing more. */
  lemma {:induction false} FullStreamStalls(st: State, actions: seq<Action>, s: nat)
    requires Inv(st) && s in st.streams && st.streams[s].sent == MAX_LOG && s in Run(st, actions).streams
    ensures Run(st, actions).streams[s].out == st.streams[s].out
    decreases |actions|
  {
    if actions != [] {
      var next := Step(st, actions[0]);
      StepKeepsInv(st, actions[0]);
      StreamIds(st, actions[0]);
      if actions[0].Restart? {
        ClosedStaysClosed(next, actions[1..], s);
      } else {
        FullStreamStep(st, actions[0], s);
        FullStreamStalls(next, actions[1..], s);
      }
    }
  }
}
