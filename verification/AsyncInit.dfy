/** Asynchronous initialisation of a shard file: the first call starts a worker, calls that come
    before it is done wait, and later calls are answered at once. */
module AsyncInit {

  /** The task that stands for a call. */
  type Task = nat

  datatype InitState = NotInitialized | Initializing | Initialized

  /** What the worker reports: success, or an error. */
  datatype Outcome = Success | Failure(error: string)

  datatype Reply = Reply(task: Task, outcome: Outcome)

  function Answered(rs: seq<Reply>): (ts: seq<Task>)
    ensures |ts| == |rs|
  {
    seq(|rs|, i requires 0 <= i < |rs| => rs[i].task)
  }

  /** The calls made are the calls waiting and the calls answered. */
  ghost predicate Conserved(made: seq<Task>, waiting: seq<Task>, replies: seq<Reply>) {
    multiset(made) == multiset(waiting) + multiset(Answered(replies))
  }

  lemma ConservedCounts(made: seq<Task>, waiting: seq<Task>, replies: seq<Reply>)
    requires Conserved(made, waiting, replies)
    ensures |made| == |waiting| + |replies|
  {
    assert |multiset(made)| == |made|;
    assert |multiset(waiting) + multiset(Answered(replies))| == |waiting| + |replies|;
  }

  /** Each call that was made is answered once at most, and not while it waits. */
  lemma NoSecondReply(made: seq<Task>, waiting: seq<Task>, replies: seq<Reply>, i: nat, j: nat)
    requires Conserved(made, waiting, replies) && i < j < |replies|
    requires forall a, b | 0 <= a < b < |made| :: made[a] != made[b]
    ensures replies[i].task != replies[j].task && replies[i].task !in waiting
  {
    var ts := Answered(replies);
    OnceAtMost(made, ts[i]);
    Twice(ts, i, j);
    assert multiset(made)[ts[i]] == multiset(waiting)[ts[i]] + multiset(ts)[ts[i]];
    assert ts[i] in multiset(ts);
  }

  lemma {:induction false} OnceAtMost(s: seq<Task>, x: Task)
    requires forall a, b | 0 <= a < b < |s| :: s[a] != s[b]
    ensures multiset(s)[x] <= 1
  {
    if s != [] {
      OnceAtMost(s[1..], x);
      assert s == [s[0]] + s[1..];
      if s[0] == x {
        assert x !in s[1..];
      }
    }
  }

  lemma Twice(s: seq<Task>, i: nat, j: nat)
    requires i < j < |s|
    ensures s[i] == s[j] ==> multiset(s)[s[i]] >= 2
  {
    assert s == s[..j] + s[j..];
    assert s[i] in multiset(s[..j]) by { assert s[..j][i] == s[i]; }
    assert s[j] in multiset(s[j..]) by { assert s[j..][0] == s[j]; }
  }

  /** A report says what further calls the callbacks of the waiting calls make. */
  datatype Event =
    | Call(task: Task)
    | WorkerReady(outcome: Outcome, again: seq<seq<Task>>)

  /** The further calls that the callbacks of the first `n` waiting calls make. */
  function Further(again: seq<seq<Task>>, n: nat): seq<Task> {
    if n == 0 then [] else Further(again, n - 1) + (if n <= |again| then again[n - 1] else [])
  }

  function RepliesTo(tasks: seq<Task>, outcome: Outcome): (rs: seq<Reply>)
    ensures |rs| == |tasks|
  {
    seq(|tasks|, i requires 0 <= i < |tasks| => Reply(tasks[i], outcome))
  }

  /** The replies to the first `n` waiting calls, each followed by those to its further calls. */
  function Drained(results: seq<Task>, again: seq<seq<Task>>, n: nat, outcome: Outcome): seq<Reply>
    requires n <= |results|
  {
    if n == 0 then [] else
      Drained(results, again, n - 1, outcome) + [Reply(results[n - 1], outcome)]
      + RepliesTo(if n <= |again| then again[n - 1] else [], outcome)
  }

  lemma DrainedNone(results: seq<Task>, again: seq<seq<Task>>, outcome: Outcome)
    ensures Further(again, 0) == [] && Drained(results, again, 0, outcome) == []
  {
  }

  lemma DrainedOne(results: seq<Task>, again: seq<seq<Task>>, n: nat, outcome: Outcome)
    requires n < |results|
    ensures var more := if n < |again| then again[n] else [];
            && Further(again, n + 1) == Further(again, n) + more
            && Drained(results, again, n + 1, outcome)
            == Drained(results, again, n, outcome) + [Reply(results[n], outcome)] + RepliesTo(more, outcome)
  {
  }

  /** The further calls of each callback follow those of the callbacks before it. */
  lemma {:induction false} FurtherPlaces(again: seq<seq<Task>>, n: nat, i: nat, j: nat)
    requires i < n && i < |again| && j < |again[i]|
    ensures var at := |Further(again, i)| + j; at < |Further(again, n)| && Further(again, n)[at] == again[i][j]
    decreases n
  {
    FurtherMore(again, n - 1);
    hide Further;
    if i < n - 1 {
      FurtherPlaces(again, n - 1, i, j);
    }
  }

  /** And there are no others. */
  lemma FurtherMore(again: seq<seq<Task>>, n: nat)
    ensures Further(again, 0) == []
    ensures Further(again, n + 1) == Further(again, n) + (if n < |again| then again[n] else [])
  {
  }

  /** Waiting call `i` is answered in its turn, behind the calls before it and what their callbacks
      called for. */
  lemma {:induction false} ReplyPlace(results: seq<Task>, again: seq<seq<Task>>, n: nat, outcome: Outcome, i: nat)
    requires i < n <= |results|
    ensures var (rs, at) := (Drained(results, again, n, outcome), i + |Further(again, i)|);
            at < |rs| && rs[at] == Reply(results[i], outcome)
    decreases n
  {
    hide Drained, Further, RepliesTo;
    DrainedSize(results, again, n - 1, outcome);
    DrainedOne(results, again, n - 1, outcome);
    if i < n - 1 {
      ReplyPlace(results, again, n - 1, outcome, i);
    }
  }

  /** Right behind it come the replies to what its own callback called for. */
  lemma {:induction false} CallbackPlace(results: seq<Task>, again: seq<seq<Task>>, n: nat, outcome: Outcome, i: nat, j: nat)
    requires i < n <= |results| && i < |again| && j < |again[i]|
    ensures var (rs, at) := (Drained(results, again, n, outcome), i + |Further(again, i)| + 1 + j);
            at < |rs| && rs[at] == Reply(again[i][j], outcome)
    decreases n
  {
    RepliedTo(again[i], outcome, j);
    hide Drained, Further, RepliesTo;
    DrainedSize(results, again, n - 1, outcome);
    DrainedOne(results, again, n - 1, outcome);
    if i < n - 1 {
      CallbackPlace(results, again, n - 1, outcome, i, j);
    }
  }

  lemma RepliedTo(tasks: seq<Task>, outcome: Outcome, j: nat)
    requires j < |tasks|
    ensures RepliesTo(tasks, outcome)[j] == Reply(tasks[j], outcome)
  {
  }

  lemma {:induction false} DrainedSize(results: seq<Task>, again: seq<seq<Task>>, n: nat, outcome: Outcome)
    requires n <= |results|
    ensures |Drained(results, again, n, outcome)| == n + |Further(again, n)|
  {
    if n > 0 {
      DrainedSize(results, again, n - 1, outcome);
    }
  }

  /** What an observer needs to follow a run. */
  datatype Summary = Summary(state: InitState, waiting: nat, made: seq<Task>)

  function Next(s: Summary, e: Event): Summary {
    match e
    case Call(task) =>
      (match s.state
       case NotInitialized => Summary(Initializing, s.waiting + 1, s.made + [task])
       case Initializing => Summary(Initializing, s.waiting + 1, s.made + [task])
       case Initialized => Summary(Initialized, s.waiting, s.made + [task]))
    case WorkerReady(_, again) =>
      if s.state == Initializing then Summary(Initialized, 0, s.made + Further(again, s.waiting)) else s
  }

  function Followed(s: Summary, events: seq<Event>): Summary {
    if events == [] then s else Next(Followed(s, events[..|events| - 1]), events[|events| - 1])
  }

  class ShardFile {
    var initState: InitState
    var initResults: seq<Task>
    var initError: Outcome
    /** For reference: calls made, workers started, answers given, and how far the list of
        waiting calls has been answered. */
    ghost var made: seq<Task>
    ghost var workers: nat
    ghost var replies: seq<Reply>
    ghost var drained: nat

    ghost predicate Valid()
      reads this
    {
      && drained <= |initResults| && Conserved(made, initResults[drained..], replies)
      && workers == (if initState == NotInitialized then 0 else 1)
      && (initState == NotInitialized ==> made == [])
      && (initState != Initialized ==> drained == 0 && replies == [])
      && (forall i | 0 <= i < |replies| :: replies[i].outcome == initError)
    }

    constructor ()
      ensures Valid() && made == [] && initState == NotInitialized && initResults == [] && drained == 0
    {
      initState, initResults, initError, made, workers, replies, drained := NotInitialized, [], Success, [], 0, [], 0;
    }

    /** A call: waits for the worker, which the first call starts, or is answered at once. */
    method InitAsync(task: Task)
      requires Valid()
      modifies this
      ensures Valid() && made == old(made) + [task]
      ensures initState == (if old(initState) == NotInitialized then Initializing else old(initState))
      ensures initError == old(initError) && drained == old(drained)
      ensures if old(initState) == Initialized
              then initResults == old(initResults) && replies == old(replies) + [Reply(task, initError)]
              else initResults == old(initResults) + [task] && replies == old(replies)
    {
      OneMore(made, initResults, drained, replies, task, initError);
      made := made + [task];
      match initState {
        case NotInitialized =>
          initResults := initResults + [task];
          initState := Initializing;
          workers := workers + 1;
        case Initializing =>
          initResults := initResults + [task];
        case Initialized =>
          replies := replies + [Reply(task, initError)];
      }
    }

    /** The calls that the callback of an answered call makes: they are answered at once. */
    method Callback(calls: seq<Task>)
      requires Valid() && initState == Initialized
      modifies this
      ensures Valid() && initState == Initialized
      ensures initError == old(initError) && initResults == old(initResults) && drained == old(drained)
      ensures made == old(made) + calls && replies == old(replies) + RepliesTo(calls, initError)
    {
      hide Conserved;
      for n := 0 to |calls|
        invariant Valid() && initState == Initialized && initError == old(initError)
        invariant initResults == old(initResults) && drained == old(drained)
        invariant made == old(made) + calls[..n] && replies == old(replies) + RepliesTo(calls, initError)[..n]
      {
        InitAsync(calls[n]);
      }
    }

    /** The next waiting call is answered, and its callback makes further calls. */
    method AnswerNext(more: seq<Task>)
      requires Valid() && initState == Initialized && drained < |initResults|
      modifies this
      ensures Valid() && initState == Initialized && initError == old(initError)
      ensures initResults == old(initResults) && drained == old(drained) + 1 && made == old(made) + more
      ensures replies == old(replies) + [Reply(initResults[old(drained)], initError)] + RepliesTo(more, initError)
    {
      hide Conserved, RepliesTo;
      OneLess(made, initResults, drained, replies, initError);
      replies := replies + [Reply(initResults[drained], initError)];
      drained := drained + 1;
      Callback(more);
    }

    /** The worker is done: every waiting call is answered, in the order of the list. The callback
        of call number `i` makes the calls `again[i]` before it returns. */
    method InitAsyncReady(outcome: Outcome, again: seq<seq<Task>>)
      requires Valid() && initState == Initializing
      modifies this
      ensures Valid() && initState == Initialized && initResults == [] && drained == 0 && initError == outcome
      ensures |replies| == |made| && made == old(made) + Further(again, |old(initResults)|)
      ensures replies == Drained(old(initResults), again, |old(initResults)|, outcome)
    {
      hide Conserved, Further, Drained, RepliesTo;
      DrainedNone(initResults, again, outcome);
      initState := Initialized;
      initError := outcome;
      for i := 0 to |initResults|
        invariant Valid() && initState == Initialized && initError == outcome
        invariant initResults == old(initResults) && drained == i
        invariant made == old(made) + Further(again, i) && replies == Drained(old(initResults), again, i, outcome)
      {
        DrainedOne(initResults, again, i, outcome);
        AnswerNext(if i < |again| then again[i] else []);
      }
      assert initResults[drained..] == [] == [][0..];
      ConservedCounts(made, [], replies);
      initResults := [];
      drained := 0;
    }

    /** Any interleaving of calls with the report of the worker, which comes once. */
    method Run(events: seq<Event>)
      requires Valid() && drained == 0 && (initState == Initialized ==> initResults == [])
      modifies this
      ensures Valid() && drained == 0 && workers <= 1
      ensures initState == Initialized ==> initResults == []
      ensures |made| == |initResults| + |replies|
      ensures Summary(initState, |initResults|, made) == Followed(old(Summary(initState, |initResults|, made)), events)
    {
      hide Conserved;
      for i := 0 to |events|
        invariant Valid() && drained == 0 && (initState == Initialized ==> initResults == [])
        invariant Summary(initState, |initResults|, made) == Followed(old(Summary(initState, |initResults|, made)), events[..i])
      {
        assert events[..i + 1][..i] == events[..i];
        match events[i] {
          case Call(task) => InitAsync(task);
          case WorkerReady(outcome, again) =>
            if initState == Initializing {
              InitAsyncReady(outcome, again);
            }
        }
      }
      assert events[..|events|] == events;
      assert initResults[0..] == initResults;
      ConservedCounts(made, initResults, replies);
    }
  }

  /** A new call waits or is answered. */
  lemma OneMore(made: seq<Task>, results: seq<Task>, drained: nat, replies: seq<Reply>, task: Task, outcome: Outcome)
    requires drained <= |results| && Conserved(made, results[drained..], replies)
    ensures Conserved(made + [task], (results + [task])[drained..], replies)
    ensures Conserved(made + [task], results[drained..], replies + [Reply(task, outcome)])
  {
    assert (results + [task])[drained..] == results[drained..] + [task];
    assert Answered(replies + [Reply(task, outcome)]) == Answered(replies) + [task];
  }

  /** A waiting call is answered. */
  lemma OneLess(made: seq<Task>, results: seq<Task>, i: nat, replies: seq<Reply>, outcome: Outcome)
    requires i < |results| && Conserved(made, results[i..], replies)
    ensures Conserved(made, results[i + 1..], replies + [Reply(results[i], outcome)])
  {
    assert results[i..] == [results[i]] + results[i + 1..];
    assert Answered(replies + [Reply(results[i], outcome)]) == Answered(replies) + [results[i]];
  }
}
