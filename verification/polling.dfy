/** The remote assistant call (`get_assistant_response`) and its polling loop (`wait_on_run`).
    The remote service is not modelled: what it answers to one request is an oracle value. */
module Polling {
  import opened Wrappers

  /** The statuses a remote run reports. */
  datatype RunStatus =
    | Queued | InProgress | RequiresAction | Cancelling | Cancelled
    | Failed | Completed | Incomplete | Expired

  /** The statuses `wait_on_run` keeps polling on: "queued" and "in_progress". Every other
      status, including "requires_action" and "cancelling", ends the loop. */
  predicate StillRunning(s: RunStatus) {
    s == Queued || s == InProgress
  }

  datatype Run = Run(id: string, threadId: string, status: RunStatus)

  /** One retrieval of the run: its status, or None when the retrieval raised. */
  type Reply = Option<RunStatus>

  /** How polling ends: with the run of the last retrieval after `polls` retrievals; with an
      exception raised by retrieval number `polls`; or not within the replies given (the
      source would go on polling). */
  datatype PollOutcome = Settled(run: Run, polls: nat) | Raised(polls: nat) | Unsettled

  /** Retrievals `lo` up to `hi` all answered with a status that keeps the loop going. */
  predicate AllRunning(replies: seq<Reply>, lo: nat, hi: nat)
    requires lo <= hi <= |replies|
  {
    forall j :: lo <= j < hi ==> replies[j].Some? && StillRunning(replies[j].value)
  }

  /** The outcome of polling from retrieval number `from` on. */
  function Polled(runId: string, threadId: string, replies: seq<Reply>, from: nat): PollOutcome
    requires from <= |replies|
    decreases |replies| - from
  {
    if from == |replies| then Unsettled
    else match replies[from]
      case None => Raised(from + 1)
      case Some(s) =>
        if StillRunning(s) then Polled(runId, threadId, replies, from + 1)
        else Settled(Run(runId, threadId, s), from + 1)
  }

  /** Polling stops at the first reply that is an exception or a status other than queued and
      in_progress, and returns that run; it goes on exactly as long as the run is still running. */
  lemma {:induction false} PolledStopsAtFirstNonRunning(runId: string, threadId: string, replies: seq<Reply>, from: nat)
    requires from <= |replies|
    ensures var o := Polled(runId, threadId, replies, from);
      && (o.Settled? ==>
            && from < o.polls <= |replies|
            && AllRunning(replies, from, o.polls - 1)
            && replies[o.polls - 1] == Some(o.run.status)
            && !StillRunning(o.run.status)
            && o.run.id == runId && o.run.threadId == threadId)
      && (o.Raised? ==>
            && from < o.polls <= |replies|
            && AllRunning(replies, from, o.polls - 1)
            && replies[o.polls - 1] == None)
      && (o.Unsettled? <==> AllRunning(replies, from, |replies|))
    decreases |replies| - from
  {
    if from < |replies| && replies[from].Some? && StillRunning(replies[from].value) {
      PolledStopsAtFirstNonRunning(runId, threadId, replies, from + 1);
    }
  }

  /** `wait_on_run`: the status starts as "queued", so the run is retrieved at least once;
      retrieval repeats while the status is queued or in_progress, and the last run is
      returned. An exception from retrieval propagates to the caller. */
  method WaitOnRun(runId: string, threadId: string, replies: seq<Reply>) returns (outcome: PollOutcome)
    ensures outcome == Polled(runId, threadId, replies, 0)
    ensures outcome.Settled? ==> !StillRunning(outcome.run.status) && outcome.polls >= 1
  {
    var status := Queued;
    var polls := 0;
    while StillRunning(status)
      invariant polls <= |replies|
      invariant StillRunning(status) ==>
        Polled(runId, threadId, replies, 0) == Polled(runId, threadId, replies, polls)
      invariant !StillRunning(status) ==>
        0 < polls && Polled(runId, threadId, replies, 0) == Settled(Run(runId, threadId, status), polls)
      decreases |replies| - polls, StillRunning(status)
    {
      if polls == |replies| {
        return Unsettled;
      }
      match replies[polls]
      case None =>
        return Raised(polls + 1);
      case Some(s) =>
        status := s;
        polls := polls + 1;
    }
    return Settled(Run(runId, threadId, status), polls);
  }

  // ------------------------------------------------------------ the remote call

  datatype Role = User | Assistant

  /** A message listed on a thread, reduced to its role and the text of its first content part. */
  datatype Message = Message(role: Role, text: string)

  /** What is sent for one invocation: the prompt and the assistant that is to answer it. */
  datatype Request = Request(content: string, assistantId: string)

  datatype RunHandle = RunHandle(threadId: string, runId: string)

  /** What the remote service does with one request: the thread and run it creates (None when
      creating the thread, the message or the run raises), its answers to the successive
      retrievals of the run, and the thread's message list (None when listing raises). */
  datatype Remote = Remote(started: Option<RunHandle>, replies: seq<Reply>, listing: Option<seq<Message>>)

  /** What `get_assistant_response` gives back: the listed messages or None (an exception was
      caught and reported), or nothing at all because polling has not ended. */
  datatype Response = Returned(messages: Option<seq<Message>>) | Blocked

  /** The response to a request that the service handles as `remote` says. */
  function AssistantResponse(remote: Remote): (r: Response)
    ensures r == Blocked <==>
      remote.started.Some? && AllRunning(remote.replies, 0, |remote.replies|)
    ensures r.Returned? && r.messages.Some? ==>
      && remote.started.Some?
      && r.messages == remote.listing
      && exists k :: 0 <= k < |remote.replies| && AllRunning(remote.replies, 0, k)
                     && remote.replies[k].Some? && !StillRunning(remote.replies[k].value)
    ensures remote.started.None? ==> r == Returned(None)
    ensures remote.started.Some?
            && (exists k :: 0 <= k < |remote.replies| && AllRunning(remote.replies, 0, k) && remote.replies[k].None?)
            ==> r == Returned(None)
    ensures remote.started.Some?
            && (exists k :: 0 <= k < |remote.replies| && AllRunning(remote.replies, 0, k)
                            && remote.replies[k].Some? && !StillRunning(remote.replies[k].value))
            ==> r == Returned(remote.listing)
  {
    match remote.started
    case None => Returned(None)
    case Some(h) =>
      PolledStopsAtFirstNonRunning(h.runId, h.threadId, remote.replies, 0);
      match Polled(h.runId, h.threadId, remote.replies, 0)
      case Unsettled => Blocked
      case Raised(_) => Returned(None)
      case Settled(run, n) =>
        assert remote.replies[n - 1] == Some(run.status);
        assert forall k :: 0 <= k < |remote.replies| && AllRunning(remote.replies, 0, k) ==> k <= n - 1;
        Returned(remote.listing)
  }

  /** `get_assistant_response`: create a thread, post the prompt, start a run, wait on it, and
      list the thread's messages whatever status the run ended in; any exception on the way
      turns into None. */
  method GetAssistantResponse(request: Request, service: Request -> Remote) returns (r: Response)
    ensures r == AssistantResponse(service(request))
  {
    var remote := service(request);
    if remote.started.None? {
      return Returned(None);
    }
    var handle := remote.started.value;
    var run := WaitOnRun(handle.runId, handle.threadId, remote.replies);
    match run
    case Unsettled =>
      r := Blocked;
    case Raised(_) =>
      r := Returned(None);
    case Settled(_, _) =>
      r := Returned(remote.listing);
  }
}
