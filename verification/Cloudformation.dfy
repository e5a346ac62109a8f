/** Deploying a stack: one change set, polled until it is decided, then executed, then the stack polled. */
module Cloudformation {
  import opened Common

  datatype DeploymentStatus = NoChangesToPerform | Completed | Failed | InProgress

  datatype ChangeSetStatus =
    | ChangeSetCreateInProgress | ChangeSetCreatePending | ChangeSetDeleteInProgress | ChangeSetDeletePending
    | ChangeSetCreateComplete | ChangeSetDeleteComplete | ChangeSetFailed | ChangeSetDeleteFailed
    | ChangeSetUnrecognised(name: string)

  datatype StackStatus =
    | CreateInProgress | DeleteInProgress | ImportInProgress | UpdateCompleteCleanupInProgress | UpdateInProgress
    | ReviewInProgress
    | ImportRollbackInProgress | UpdateRollbackInProgress | RollbackInProgress | CreateFailed | DeleteComplete
    | DeleteFailed | ImportRollbackComplete | ImportRollbackFailed | RollbackComplete | RollbackFailed
    | UpdateFailed | UpdateRollbackComplete | UpdateRollbackCompleteCleanupInProgress | UpdateRollbackFailed
    | CreateComplete | ImportComplete | UpdateComplete
    | Unrecognised(name: string)

  datatype Error = Fault(message: string) | NotFound(stackName: string)

  datatype Stack = Stack(status: Option<StackStatus>)

  /** A reply about stacks; a reply without the list counts as the empty one. */
  datatype StackReply = Stacks(stacks: seq<Stack>) | StackFault(message: string)

  datatype ChangeSetReply =
    | ChangeSet(status: Option<ChangeSetStatus>, reason: Option<string>)
    | ChangeSetFault(message: string)

  /** `Pending` is a promise still waiting, because the replies so far decide nothing. */
  datatype Result<+T> = Returned(value: T) | Threw(error: Error) | Pending

  datatype ChangeSetType = Create | Update

  datatype Parameter = Parameter(key: string, value: string)

  /** The calls that have been answered. */
  datatype Call =
    | DescribeStack
    | CreateChangeSet(changeSetType: ChangeSetType, name: string, parameters: seq<Parameter>)
    | DescribeChangeSet(name: string)
    | ExecuteChangeSet(name: string)
    | NotifyChangeSet(status: DeploymentStatus, name: string)
    | NotifyStack(status: DeploymentStatus)

  // ------------------------------------------------------------------- one reply

  const DOES_NOT_EXIST := "does not exist"

  predicate At(text: string, i: nat, word: string) {
    i + |word| <= |text| && text[i..i + |word|] == word
  }

  predicate OneLine(text: string) {
    '\n' !in text && '\r' !in text && '\U{2028}' !in text && '\U{2029}' !in text
  }

  /** The fault names the stack and, later on the same line, says that it does not exist. */
  predicate SaysMissing(message: string, stackName: string) {
    exists i, j ::
      && 0 <= i <= j <= |message| && At(message, i, stackName) && i + |stackName| <= j
      && At(message, j, DOES_NOT_EXIST) && OneLine(message[i + |stackName|..j])
  }

  function Description(stackName: string, reply: StackReply): Result<Option<Stack>> {
    match reply
    case Stacks(stacks) => Returned(if stacks == [] then None else Some(stacks[0]))
    case StackFault(message) =>
      if SaysMissing(message, stackName) then Returned(None) else Threw(Fault(message))
  }

  /** What a status decides: nothing while it is in progress, or is one that the poller does not know. */
  function StackClass(status: StackStatus): DeploymentStatus {
    match status
    case CreateInProgress | DeleteInProgress | ImportInProgress | UpdateCompleteCleanupInProgress
      | UpdateInProgress | ReviewInProgress => InProgress
    case CreateComplete | ImportComplete | UpdateComplete => Completed
    case Unrecognised(_) => InProgress
    case _ => Failed
  }

  predicate IsProgress(stackName: string, reply: StackReply) {
    var d := Description(stackName, reply);
    && d.Returned? && d.value.Some? && d.value.value.status.Some?
    && StackClass(d.value.value.status.value) == InProgress
    && !d.value.value.status.value.Unrecognised?
  }

  const NO_UPDATES := "No updates are to be performed."
  const NO_CHANGES :=
    "The submitted information didn't contain changes. Submit different information to create a change set."

  function ChangeSetClass(status: ChangeSetStatus, reason: Option<string>): DeploymentStatus {
    match status
    case ChangeSetCreateInProgress | ChangeSetCreatePending | ChangeSetDeleteInProgress
      | ChangeSetDeletePending | ChangeSetUnrecognised(_) => InProgress
    case ChangeSetCreateComplete | ChangeSetDeleteComplete => Completed
    case ChangeSetFailed =>
      if reason == Some(NO_UPDATES) || reason == Some(NO_CHANGES) then NoChangesToPerform else Failed
    case ChangeSetDeleteFailed => Failed
  }

  predicate IsChangeSetProgress(reply: ChangeSetReply) {
    && reply.ChangeSet? && reply.status.Some?
    && ChangeSetClass(reply.status.value, reply.reason) == InProgress
    && !reply.status.value.ChangeSetUnrecognised?
  }

  /** What one poll decides; None keeps polling. */
  function StackVerdict(stackName: string, reply: StackReply): (v: Option<Result<DeploymentStatus>>)
    ensures v.Some? ==> v.value != Returned(InProgress) && v.value != Pending
  {
    match Description(stackName, reply)
    case Threw(e) => Some(Threw(e))
    case Pending => None
    case Returned(None) => Some(Threw(NotFound(stackName)))
    case Returned(Some(stack)) =>
      if stack.status.None? || StackClass(stack.status.value) == InProgress then None
      else Some(Returned(StackClass(stack.status.value)))
  }

  function ChangeSetVerdict(reply: ChangeSetReply): (v: Option<Result<DeploymentStatus>>)
    ensures v.Some? ==> v.value != Returned(InProgress) && v.value != Pending
  {
    match reply
    case ChangeSetFault(message) => Some(Threw(Fault(message)))
    case ChangeSet(status, reason) =>
      if status.None? || ChangeSetClass(status.value, reason) == InProgress then None
      else Some(Returned(ChangeSetClass(status.value, reason)))
  }

  // ------------------------------------------------------------------- many replies

  /** The first poll of the stack that decides; the number of replies when none does. */
  function FirstStack(stackName: string, replies: seq<StackReply>): (k: nat)
    ensures k <= |replies|
    ensures forall j :: 0 <= j < k ==> StackVerdict(stackName, replies[j]).None?
    ensures k < |replies| ==> StackVerdict(stackName, replies[k]).Some?
  {
    if replies == [] || StackVerdict(stackName, replies[0]).Some? then 0
    else 1 + FirstStack(stackName, replies[1..])
  }

  function FirstChangeSet(replies: seq<ChangeSetReply>): (k: nat)
    ensures k <= |replies|
    ensures forall j :: 0 <= j < k ==> ChangeSetVerdict(replies[j]).None?
    ensures k < |replies| ==> ChangeSetVerdict(replies[k]).Some?
  {
    if replies == [] || ChangeSetVerdict(replies[0]).Some? then 0
    else 1 + FirstChangeSet(replies[1..])
  }

  ghost function StackResult(stackName: string, replies: seq<StackReply>): Result<DeploymentStatus> {
    var k := FirstStack(stackName, replies);
    if k == |replies| then Pending else StackVerdict(stackName, replies[k]).value
  }

  ghost function ChangeSetResult(replies: seq<ChangeSetReply>): Result<DeploymentStatus> {
    var k := FirstChangeSet(replies);
    if k == |replies| then Pending else ChangeSetVerdict(replies[k]).value
  }

  function Least(a: nat, b: nat): nat { if a <= b then a else b }

  /** The replies that are used up: those before the first that decides, and that one. */
  ghost function UsedStack(stackName: string, replies: seq<StackReply>): (n: nat)
    ensures n <= |replies|
  {
    Least(FirstStack(stackName, replies) + 1, |replies|)
  }

  ghost function UsedChangeSet(replies: seq<ChangeSetReply>): (n: nat)
    ensures n <= |replies|
  {
    Least(FirstChangeSet(replies) + 1, |replies|)
  }

  ghost function StackCalls(stackName: string, replies: seq<StackReply>, n: nat, notify: bool): seq<Call>
    requires n <= |replies|
  {
    if n == 0 then []
    else
      StackCalls(stackName, replies, n - 1, notify) + [DescribeStack]
      + if notify && IsProgress(stackName, replies[n - 1]) then [NotifyStack(InProgress)] else []
  }

  ghost function ChangeSetCalls(name: string, replies: seq<ChangeSetReply>, n: nat, notify: bool): seq<Call>
    requires n <= |replies|
  {
    if n == 0 then []
    else
      ChangeSetCalls(name, replies, n - 1, notify) + [DescribeChangeSet(name)]
      + if notify && IsChangeSetProgress(replies[n - 1]) then [NotifyChangeSet(InProgress, name)] else []
  }

  lemma StackCallsNext(before: seq<Call>, stackName: string, replies: seq<StackReply>, k: nat, notify: bool)
    requires k < |replies|
    ensures before + StackCalls(stackName, replies, k + 1, notify)
         == before + StackCalls(stackName, replies, k, notify) + [DescribeStack]
            + if notify && IsProgress(stackName, replies[k]) then [NotifyStack(InProgress)] else []
  {
  }

  // ------------------------------------------------------------------- one deployment

  /** The replies still to come, and whether the two commands that are not polled fail. */
  datatype Service = Service(
    stackReplies: seq<StackReply>,
    changeSetReplies: seq<ChangeSetReply>,
    createFault: Option<string>,
    executeFault: Option<string>)

  datatype Deployment = Deployment(calls: seq<Call>, result: Result<DeploymentStatus>)

  ghost function ParametersOf(parameters: Record<string>, n: nat): seq<Parameter>
    requires n <= |parameters.keys| && parameters.Valid()
  {
    if n == 0 then []
    else ParametersOf(parameters, n - 1)
         + [Parameter(parameters.keys[n - 1], parameters.values[parameters.keys[n - 1]])]
  }

  ghost function Executing(
      replies: seq<StackReply>, fault: Option<string>, stackName: string, name: string, notify: bool): Deployment
  {
    if fault.Some? then Deployment([ExecuteChangeSet(name)], Threw(Fault(fault.value)))
    else
      Deployment(
        [ExecuteChangeSet(name)] + StackCalls(stackName, replies, UsedStack(stackName, replies), notify),
        StackResult(stackName, replies))
  }

  /** From the creation of the change set on; `s` holds the replies still to come. */
  ghost function AfterCreation(s: Service, stackName: string, name: string, notify: bool): Deployment {
    var polls := ChangeSetCalls(name, s.changeSetReplies, UsedChangeSet(s.changeSetReplies), false);
    var polled := ChangeSetResult(s.changeSetReplies);
    if polled != Returned(Completed) then Deployment(polls, polled)
    else
      var executed := Executing(s.stackReplies, s.executeFault, stackName, name, notify);
      Deployment(polls + executed.calls, executed.result)
  }

  ghost function Deployed(
      s: Service, stackName: string, name: string, parameters: Record<string>, notify: bool): Deployment
    requires parameters.Valid()
  {
    if s.stackReplies == [] then Deployment([], Pending)
    else
      match Description(stackName, s.stackReplies[0])
      case Pending => Deployment([DescribeStack], Pending)
      case Threw(e) => Deployment([DescribeStack], Threw(e))
      case Returned(stack) =>
        var created :=
          [DescribeStack,
           CreateChangeSet(if stack.None? then Create else Update, name, ParametersOf(parameters, |parameters.keys|))];
        if s.createFault.Some? then Deployment(created, Threw(Fault(s.createFault.value)))
        else
          var rest := AfterCreation(s.(stackReplies := s.stackReplies[1..]), stackName, name, notify);
          Deployment(created + rest.calls, rest.result)
  }

  class CloudformationClient {
    var stackReplies: seq<StackReply>
    var changeSetReplies: seq<ChangeSetReply>
    const createFault: Option<string>
    const executeFault: Option<string>
    var calls: seq<Call>

    constructor (s: Service)
      ensures Replies() == s && calls == []
    {
      stackReplies := s.stackReplies;
      changeSetReplies := s.changeSetReplies;
      createFault := s.createFault;
      executeFault := s.executeFault;
      calls := [];
    }

    function Replies(): Service
      reads this
    {
      Service(stackReplies, changeSetReplies, createFault, executeFault)
    }

    method GetStackDescription(stackName: string) returns (r: Result<Option<Stack>>)
      modifies this
      ensures changeSetReplies == old(changeSetReplies)
      ensures if old(stackReplies) == [] then r == Pending && stackReplies == [] && calls == old(calls)
              else && r == Description(stackName, old(stackReplies)[0])
                   && stackReplies == old(stackReplies)[1..]
                   && calls == old(calls) + [DescribeStack]
    {
      if stackReplies == [] { return Pending; }
      r := Description(stackName, stackReplies[0]);
      stackReplies := stackReplies[1..];
      calls := calls + [DescribeStack];
    }

    method MonitorChangeSet(name: string, notify: bool) returns (r: Result<DeploymentStatus>)
      modifies this
      ensures stackReplies == old(stackReplies)
      ensures r == ChangeSetResult(old(changeSetReplies)) && r != Returned(InProgress)
      ensures calls == old(calls) + ChangeSetCalls(
                name, old(changeSetReplies), UsedChangeSet(old(changeSetReplies)), notify)
      ensures changeSetReplies == old(changeSetReplies)[UsedChangeSet(old(changeSetReplies))..]
    {
      ghost var all, before := changeSetReplies, calls;
      ghost var k := 0;
      while changeSetReplies != []
        invariant k <= |all| && changeSetReplies == all[k..] && stackReplies == old(stackReplies)
        invariant forall j :: 0 <= j < k ==> ChangeSetVerdict(all[j]).None?
        invariant calls == before + ChangeSetCalls(name, all, k, notify)
        decreases |changeSetReplies|
      {
        var reply := changeSetReplies[0];
        changeSetReplies := changeSetReplies[1..];
        calls := calls + [DescribeChangeSet(name)];
        if notify && IsChangeSetProgress(reply) {
          calls := calls + [NotifyChangeSet(InProgress, name)];
        }
        var verdict := ChangeSetVerdict(reply);
        if verdict.Some? {
          return verdict.value;
        }
        k := k + 1;
      }
      r := Pending;
    }

    method MonitorStack(stackName: string, notify: bool) returns (r: Result<DeploymentStatus>)
      modifies this
      ensures changeSetReplies == old(changeSetReplies)
      ensures r == StackResult(stackName, old(stackReplies)) && r != Returned(InProgress)
      ensures calls == old(calls) + StackCalls(
                stackName, old(stackReplies), UsedStack(stackName, old(stackReplies)), notify)
      ensures stackReplies == old(stackReplies)[UsedStack(stackName, old(stackReplies))..]
    {
      ghost var all, before := stackReplies, calls;
      ghost var k := 0;
      while stackReplies != []
        invariant k <= |all| && stackReplies == all[k..] && changeSetReplies == old(changeSetReplies)
        invariant forall j :: 0 <= j < k ==> StackVerdict(stackName, all[j]).None?
        invariant calls == before + StackCalls(stackName, all, k, notify)
        decreases |stackReplies|
      {
        StackCallsNext(before, stackName, all, k, notify);
        var reply := stackReplies[0];
        var description := GetStackDescription(stackName);
        if notify && IsProgress(stackName, reply) {
          calls := calls + [NotifyStack(InProgress)];
        }
        var verdict := StackVerdict(stackName, reply);
        if verdict.Some? {
          return verdict.value;
        }
        k := k + 1;
      }
      r := Pending;
    }

    method ListParameters(parameters: Record<string>) returns (list: seq<Parameter>)
      requires parameters.Valid()
      ensures list == ParametersOf(parameters, |parameters.keys|)
    {
      list := [];
      for i := 0 to |parameters.keys|
        invariant list == ParametersOf(parameters, i)
      {
        list := list + [Parameter(parameters.keys[i], parameters.values[parameters.keys[i]])];
      }
    }

    method Execute(stackName: string, name: string, notify: bool) returns (r: Result<DeploymentStatus>)
      modifies this
      ensures var d := Executing(old(stackReplies), executeFault, stackName, name, notify);
              r == d.result && calls == old(calls) + d.calls
      ensures r != Returned(InProgress)
    {
      ghost var before := calls;
      calls := calls + [ExecuteChangeSet(name)];
      if executeFault.Some? { return Threw(Fault(executeFault.value)); }
      ghost var polls := StackCalls(stackName, stackReplies, UsedStack(stackName, stackReplies), notify);
      assert before + [ExecuteChangeSet(name)] + polls == before + ([ExecuteChangeSet(name)] + polls);
      r := MonitorStack(stackName, notify);
    }

    method FollowChangeSet(stackName: string, name: string, notify: bool) returns (r: Result<DeploymentStatus>)
      modifies this
      ensures var d := AfterCreation(old(Replies()), stackName, name, notify);
              r == d.result && calls == old(calls) + d.calls
      ensures r != Returned(InProgress)
    {
      ghost var before := calls;
      ghost var polls := ChangeSetCalls(name, changeSetReplies, UsedChangeSet(changeSetReplies), false);
      ghost var executed := Executing(stackReplies, executeFault, stackName, name, notify).calls;
      assert before + polls + executed == before + (polls + executed);
      r := MonitorChangeSet(name, false);
      if r == Returned(Completed) {
        r := Execute(stackName, name, notify);
      }
    }

    method DeployStack(stackName: string, name: string, parameters: Record<string>, notify: bool)
        returns (r: Result<DeploymentStatus>)
      requires parameters.Valid()
      modifies this
      ensures var d := Deployed(old(Replies()), stackName, name, parameters, notify);
              r == d.result && calls == old(calls) + d.calls
      ensures r != Returned(InProgress)
    {
      ghost var before := calls;
      var list := ListParameters(parameters);
      var stack := GetStackDescription(stackName);
      if !stack.Returned? {
        return if stack.Threw? then Threw(stack.error) else Pending;
      }
      var changeSetType := if stack.value.None? then Create else Update;
      calls := calls + [CreateChangeSet(changeSetType, name, list)];
      ghost var created := [DescribeStack, CreateChangeSet(changeSetType, name, list)];
      assert calls == before + created;
      if createFault.Some? { return Threw(Fault(createFault.value)); }
      ghost var rest := AfterCreation(Replies(), stackName, name, notify).calls;
      assert before + created + rest == before + (created + rest);
      r := FollowChangeSet(stackName, name, notify);
    }
  }

  // ------------------------------------------------------------------- over every run

  /** How often the status callback is called for the stack. */
  ghost function Callbacks(calls: seq<Call>): nat {
    if calls == [] then 0
    else Callbacks(calls[..|calls| - 1]) + if calls[|calls| - 1].NotifyStack? then 1 else 0
  }

  lemma {:induction false} CallbacksConcat(a: seq<Call>, b: seq<Call>)
    ensures Callbacks(a + b) == Callbacks(a) + Callbacks(b)
    decreases |b|
  {
    if b == [] {
      assert a + b == a;
    } else {
      CallbacksConcat(a, b[..|b| - 1]);
      assert (a + b)[..|a + b| - 1] == a + b[..|b| - 1];
    }
  }

  lemma {:induction false} NoCallbacks(calls: seq<Call>)
    requires forall k :: 0 <= k < |calls| ==> !calls[k].NotifyStack?
    ensures Callbacks(calls) == 0
  {
    if calls != [] {
      NoCallbacks(calls[..|calls| - 1]);
    }
  }

  /** How many of these polls see a stack in progress. */
  ghost function ProgressPolls(stackName: string, replies: seq<StackReply>): nat {
    if replies == [] then 0
    else ProgressPolls(stackName, replies[..|replies| - 1])
         + if IsProgress(stackName, replies[|replies| - 1]) then 1 else 0
  }

  ghost predicate OnlyPolls(calls: seq<Call>) {
    forall k :: 0 <= k < |calls| ==> calls[k].DescribeStack? || calls[k] == NotifyStack(InProgress)
  }

  lemma {:induction false} StackCallsAre(stackName: string, replies: seq<StackReply>, n: nat, notify: bool)
    requires n <= |replies|
    ensures OnlyPolls(StackCalls(stackName, replies, n, notify))
  {
    if n > 0 {
      StackCallsAre(stackName, replies, n - 1, notify);
    }
  }

  lemma {:induction false} ChangeSetCallsAre(name: string, replies: seq<ChangeSetReply>, n: nat)
    requires n <= |replies|
    ensures var calls := ChangeSetCalls(name, replies, n, false);
            |calls| == n && forall k :: 0 <= k < n ==> calls[k] == DescribeChangeSet(name)
  {
    if n > 0 {
      ChangeSetCallsAre(name, replies, n - 1);
    }
  }

  /** The shape of every deployment that executes its change set: the execution comes once, after the stack was
      described, the change set was created for that description, and a poll of it, the first to decide, said
      that it is complete; nothing but polls of the stack, and the callback, comes after. */
  lemma ExecutesOnlyAfterComplete(
      s: Service, stackName: string, name: string, parameters: Record<string>, notify: bool, i: nat)
    requires parameters.Valid()
    requires var calls := Deployed(s, stackName, name, parameters, notify).calls;
             i < |calls| && calls[i].ExecuteChangeSet?
    ensures var calls := Deployed(s, stackName, name, parameters, notify).calls;
            && s.stackReplies != []
            && (calls[1].CreateChangeSet? && calls[1].name == name)
            && calls[1].changeSetType
                == (if Description(stackName, s.stackReplies[0]) == Returned(None) then Create else Update)
            && 2 < i && calls[i] == ExecuteChangeSet(name)
            && i - 3 < |s.changeSetReplies|
            && (forall k :: 2 <= k < i ==> calls[k] == DescribeChangeSet(name))
            && (forall k :: 0 <= k < i - 3 ==> ChangeSetVerdict(s.changeSetReplies[k]).None?)
            && ChangeSetVerdict(s.changeSetReplies[i - 3]) == Some(Returned(Completed))
            && (forall k :: i < k < |calls| ==> calls[k].DescribeStack? || calls[k] == NotifyStack(InProgress))
  {
    var calls := Deployed(s, stackName, name, parameters, notify).calls;
    var rest := AfterCreation(s.(stackReplies := s.stackReplies[1..]), stackName, name, notify);
    assert |calls| > 2 && calls[2..] == rest.calls && calls[0] == DescribeStack && calls[1].CreateChangeSet?;
    assert rest.calls[i - 2] == calls[i];
    AfterCreationExecutes(s.(stackReplies := s.stackReplies[1..]), stackName, name, notify, i - 2);
    forall k | 2 <= k < |calls| ensures calls[k] == rest.calls[k - 2] {}
  }

  lemma AfterCreationExecutes(s: Service, stackName: string, name: string, notify: bool, i: nat)
    requires var calls := AfterCreation(s, stackName, name, notify).calls; i < |calls| && calls[i].ExecuteChangeSet?
    ensures var calls := AfterCreation(s, stackName, name, notify).calls;
            && 0 < i <= |s.changeSetReplies| && calls[i] == ExecuteChangeSet(name)
            && (forall k :: 0 <= k < i ==> calls[k] == DescribeChangeSet(name))
            && (forall k :: 0 <= k < i - 1 ==> ChangeSetVerdict(s.changeSetReplies[k]).None?)
            && ChangeSetVerdict(s.changeSetReplies[i - 1]) == Some(Returned(Completed))
            && (forall k :: i < k < |calls| ==> calls[k].DescribeStack? || calls[k] == NotifyStack(InProgress))
  {
    var n := UsedChangeSet(s.changeSetReplies);
    var polls := ChangeSetCalls(name, s.changeSetReplies, n, false);
    ChangeSetCallsAre(name, s.changeSetReplies, n);
    StackCallsAre(stackName, s.stackReplies, UsedStack(stackName, s.stackReplies), notify);
    var calls := AfterCreation(s, stackName, name, notify).calls;
    assert forall k :: 0 <= k < n ==> calls[k] == polls[k];
    assert i >= n && ChangeSetResult(s.changeSetReplies) == Returned(Completed);
    var executed := Executing(s.stackReplies, s.executeFault, stackName, name, notify).calls;
    forall k | n < k < |calls| ensures calls[k].DescribeStack? || calls[k] == NotifyStack(InProgress) {
      var watched := StackCalls(stackName, s.stackReplies, UsedStack(stackName, s.stackReplies), notify);
      assert calls[k] == executed[k - n] == watched[k - n - 1];
    }
  }

  // ------------------------------------------------------------------- the answer and the callback

  /** A stack status that ends the polling, read off the status itself. */
  predicate Succeeded(status: StackStatus) {
    status.CreateComplete? || status.ImportComplete? || status.UpdateComplete?
  }

  /** The deployment completes exactly when everything before the polls of the stack went well, the change set
      was found complete, and the first poll of the stack that decides finds one of the three complete
      states. */
  lemma CompletesExactlyWhen(
      s: Service, stackName: string, name: string, parameters: Record<string>, notify: bool)
    requires parameters.Valid()
    ensures Deployed(s, stackName, name, parameters, notify).result == Returned(Completed) <==>
      && s.stackReplies != [] && Description(stackName, s.stackReplies[0]).Returned?
      && s.createFault.None? && s.executeFault.None?
      && (exists k :: CompleteChangeSetAt(s.changeSetReplies, k))
      && exists k :: CompleteStackAt(stackName, s.stackReplies[1..], k)
  {
    if s.stackReplies != [] {
      ChangeSetCompletesAt(s.changeSetReplies);
      StackCompletesAt(stackName, s.stackReplies[1..]);
    }
  }

  /** There is nothing to perform exactly when the first decisive poll of the change set finds it failed for one
      of the two reasons that say so; every other failure of it is a failure. */
  lemma NothingToPerformExactlyWhen(
      s: Service, stackName: string, name: string, parameters: Record<string>, notify: bool)
    requires parameters.Valid()
    ensures Deployed(s, stackName, name, parameters, notify).result == Returned(NoChangesToPerform) <==>
      && s.stackReplies != [] && Description(stackName, s.stackReplies[0]).Returned? && s.createFault.None?
      && exists k :: UnchangedAt(s.changeSetReplies, k)
  {
    if s.stackReplies != [] {
      ChangeSetUnchangedAt(s.changeSetReplies);
    }
  }

  /** The deployment fails exactly when, its change set created, the first decisive poll of that finds it failed
      for any other reason, or finds it complete, it is executed, and the first decisive poll of the stack finds
      a broken state. */
  lemma FailsExactlyWhen(s: Service, stackName: string, name: string, parameters: Record<string>, notify: bool)
    requires parameters.Valid()
    ensures Deployed(s, stackName, name, parameters, notify).result == Returned(Failed) <==>
      && s.stackReplies != [] && Description(stackName, s.stackReplies[0]).Returned? && s.createFault.None?
      && ((exists k :: FailedChangeSetAt(s.changeSetReplies, k))
          || (&& (exists k :: CompleteChangeSetAt(s.changeSetReplies, k)) && s.executeFault.None?
              && exists k :: FailedStackAt(stackName, s.stackReplies[1..], k)))
  {
    if s.stackReplies != [] {
      ChangeSetFailsAt(s.changeSetReplies);
      ChangeSetCompletesAt(s.changeSetReplies);
      StackFailsAt(stackName, s.stackReplies[1..]);
    }
  }

  /** It throws exactly the first fault on its way: describing the stack, creating the change set, polling it up to
      the first decisive reply, executing it once complete, polling the stack; and there also when the stack is
      gone. */
  lemma ThrowsExactlyWhen(
      s: Service, stackName: string, name: string, parameters: Record<string>, notify: bool, e: Error)
    requires parameters.Valid()
    ensures Deployed(s, stackName, name, parameters, notify).result == Threw(e) <==>
      && s.stackReplies != []
      && if Description(stackName, s.stackReplies[0]).Threw? then FaultOf(s.stackReplies[0]) == Some(e)
         else if s.createFault.Some? then e == Fault(s.createFault.value)
         else
           || (exists k :: ChangeSetFaultAt(s.changeSetReplies, k, e))
           || (&& (exists k :: CompleteChangeSetAt(s.changeSetReplies, k))
               && if s.executeFault.Some? then e == Fault(s.executeFault.value)
                  else exists k :: StackThrowsAt(stackName, s.stackReplies[1..], k, e))
  {
    if s.stackReplies != [] {
      ChangeSetThrowsAt(s.changeSetReplies, e);
      ChangeSetCompletesAt(s.changeSetReplies);
      StackThrowsAtFirst(stackName, s.stackReplies[1..], e);
    }
  }

  /** A stack status that ends the polling in failure. */
  predicate Broken(status: StackStatus) {
    match status
    case ImportRollbackInProgress | UpdateRollbackInProgress | RollbackInProgress | CreateFailed | DeleteComplete
      | DeleteFailed | ImportRollbackComplete | ImportRollbackFailed | RollbackComplete | RollbackFailed
      | UpdateFailed | UpdateRollbackComplete | UpdateRollbackCompleteCleanupInProgress | UpdateRollbackFailed => true
    case _ => false
  }

  ghost predicate FailedChangeSetAt(replies: seq<ChangeSetReply>, k: nat) {
    && k < |replies| && replies[k].ChangeSet?
    && (replies[k].status == Some(ChangeSetDeleteFailed)
        || (&& replies[k].status == Some(ChangeSetFailed)
            && replies[k].reason != Some(NO_UPDATES) && replies[k].reason != Some(NO_CHANGES)))
    && forall j :: 0 <= j < k ==> ChangeSetVerdict(replies[j]).None?
  }

  ghost predicate FailedStackAt(stackName: string, replies: seq<StackReply>, k: nat) {
    && k < |replies| && replies[k].Stacks? && replies[k].stacks != []
    && replies[k].stacks[0].status.Some? && Broken(replies[k].stacks[0].status.value)
    && forall j :: 0 <= j < k ==> StackVerdict(stackName, replies[j]).None?
  }

  function FaultOf(reply: StackReply): Option<Error> {
    if reply.StackFault? then Some(Fault(reply.message)) else None
  }

  ghost predicate ChangeSetFaultAt(replies: seq<ChangeSetReply>, k: nat, e: Error) {
    && k < |replies| && replies[k].ChangeSetFault? && e == Fault(replies[k].message)
    && forall j :: 0 <= j < k ==> ChangeSetVerdict(replies[j]).None?
  }

  ghost predicate StackThrowsAt(stackName: string, replies: seq<StackReply>, k: nat, e: Error) {
    && k < |replies|
    && (if Description(stackName, replies[k]) == Returned(None) then e == NotFound(stackName)
        else FaultOf(replies[k]) == Some(e))
    && forall j :: 0 <= j < k ==> StackVerdict(stackName, replies[j]).None?
  }

  lemma ChangeSetFailsAt(replies: seq<ChangeSetReply>)
    ensures ChangeSetResult(replies) == Returned(Failed) <==> exists k :: FailedChangeSetAt(replies, k)
  {
    if ChangeSetResult(replies) == Returned(Failed) {
      assert FailedChangeSetAt(replies, FirstChangeSet(replies));
    }
  }

  lemma StackFailsAt(stackName: string, replies: seq<StackReply>)
    ensures StackResult(stackName, replies) == Returned(Failed) <==> exists k :: FailedStackAt(stackName, replies, k)
  {
    if StackResult(stackName, replies) == Returned(Failed) {
      assert FailedStackAt(stackName, replies, FirstStack(stackName, replies));
    }
  }

  lemma ChangeSetThrowsAt(replies: seq<ChangeSetReply>, e: Error)
    ensures ChangeSetResult(replies) == Threw(e) <==> exists k :: ChangeSetFaultAt(replies, k, e)
  {
    if ChangeSetResult(replies) == Threw(e) {
      assert ChangeSetFaultAt(replies, FirstChangeSet(replies), e);
    }
  }

  lemma StackThrowsAtFirst(stackName: string, replies: seq<StackReply>, e: Error)
    ensures StackResult(stackName, replies) == Threw(e) <==> exists k :: StackThrowsAt(stackName, replies, k, e)
  {
    if StackResult(stackName, replies) == Threw(e) {
      assert StackThrowsAt(stackName, replies, FirstStack(stackName, replies), e);
    }
  }

  ghost predicate UnchangedAt(replies: seq<ChangeSetReply>, k: nat) {
    && k < |replies| && replies[k].ChangeSet? && replies[k].status == Some(ChangeSetFailed)
    && (replies[k].reason == Some(NO_UPDATES) || replies[k].reason == Some(NO_CHANGES))
    && forall j :: 0 <= j < k ==> ChangeSetVerdict(replies[j]).None?
  }

  lemma ChangeSetUnchangedAt(replies: seq<ChangeSetReply>)
    ensures ChangeSetResult(replies) == Returned(NoChangesToPerform) <==> exists k :: UnchangedAt(replies, k)
  {
    if ChangeSetResult(replies) == Returned(NoChangesToPerform) {
      assert UnchangedAt(replies, FirstChangeSet(replies));
    }
  }

  ghost predicate CompleteChangeSetAt(replies: seq<ChangeSetReply>, k: nat) {
    && k < |replies| && replies[k].ChangeSet? && replies[k].status.Some?
    && (replies[k].status.value.ChangeSetCreateComplete? || replies[k].status.value.ChangeSetDeleteComplete?)
    && forall j :: 0 <= j < k ==> ChangeSetVerdict(replies[j]).None?
  }

  ghost predicate CompleteStackAt(stackName: string, replies: seq<StackReply>, k: nat) {
    && k < |replies| && replies[k].Stacks? && replies[k].stacks != []
    && replies[k].stacks[0].status.Some? && Succeeded(replies[k].stacks[0].status.value)
    && forall j :: 0 <= j < k ==> StackVerdict(stackName, replies[j]).None?
  }

  lemma ChangeSetCompletesAt(replies: seq<ChangeSetReply>)
    ensures ChangeSetResult(replies) == Returned(Completed) <==> exists k :: CompleteChangeSetAt(replies, k)
  {
    if ChangeSetResult(replies) == Returned(Completed) {
      assert CompleteChangeSetAt(replies, FirstChangeSet(replies));
    }
  }

  lemma StackCompletesAt(stackName: string, replies: seq<StackReply>)
    ensures StackResult(stackName, replies) == Returned(Completed)
       <==> exists k :: CompleteStackAt(stackName, replies, k)
  {
    if StackResult(stackName, replies) == Returned(Completed) {
      assert CompleteStackAt(stackName, replies, FirstStack(stackName, replies));
    }
  }

  lemma {:induction false} StackCallsNotify(stackName: string, replies: seq<StackReply>, n: nat)
    requires n <= |replies|
    ensures Callbacks(StackCalls(stackName, replies, n, true)) == ProgressPolls(stackName, replies[..n])
  {
    if n > 0 {
      StackCallsNotify(stackName, replies, n - 1);
      OneMorePoll(StackCalls(stackName, replies, n - 1, true), IsProgress(stackName, replies[n - 1]));
      assert replies[..n][..n - 1] == replies[..n - 1];
    }
  }

  lemma OneMorePoll(before: seq<Call>, progress: bool)
    ensures Callbacks(before + [DescribeStack] + if progress then [NotifyStack(InProgress)] else [])
         == Callbacks(before) + if progress then 1 else 0
  {
    var last := [DescribeStack] + if progress then [NotifyStack(InProgress)] else [];
    CallbacksConcat(before, last);
    CallbacksOfFew(last);
    assert before + last == before + [DescribeStack] + if progress then [NotifyStack(InProgress)] else [];
  }

  lemma CallbacksOfFew(calls: seq<Call>)
    requires 1 <= |calls| <= 2
    ensures Callbacks(calls) == (if calls[0].NotifyStack? then 1 else 0)
            + (if |calls| == 2 && calls[1].NotifyStack? then 1 else 0)
  {
  }

  lemma ProgressDecidesNothing(stackName: string, replies: seq<StackReply>)
    ensures ProgressPolls(stackName, replies[..UsedStack(stackName, replies)])
         == ProgressPolls(stackName, replies[..FirstStack(stackName, replies)])
  {
    var k := FirstStack(stackName, replies);
    if k < |replies| {
      assert replies[..k + 1][..k] == replies[..k];
      assert !IsProgress(stackName, replies[k]);
    }
  }

  /** Every poll of an executed change set's stack that is in progress, before the first poll that decides,
      calls the callback once; nothing else does. */
  lemma CallbackCountsProgressPolls(
      s: Service, stackName: string, name: string, parameters: Record<string>)
    requires parameters.Valid() && s.stackReplies != []
    ensures var d := Deployed(s, stackName, name, parameters, true);
            var polled := s.stackReplies[1..];
            Callbacks(d.calls)
              == if (exists i :: 0 <= i < |d.calls| && d.calls[i].ExecuteChangeSet?) && s.executeFault.None?
                 then ProgressPolls(stackName, polled[..FirstStack(stackName, polled)]) else 0
  {
    var d := Deployed(s, stackName, name, parameters, true);
    var s' := s.(stackReplies := s.stackReplies[1..]);
    if Description(stackName, s.stackReplies[0]).Returned? && s.createFault.None? {
      var rest := AfterCreation(s', stackName, name, true);
      AfterCreationNotifies(s', stackName, name);
      CallbacksOfFew(d.calls[..2]);
      CallbacksConcat(d.calls[..2], rest.calls);
      assert d.calls == d.calls[..2] + rest.calls;
      SameExecution(d.calls, rest.calls);
    } else {
      assert forall k :: 0 <= k < |d.calls| ==> !d.calls[k].NotifyStack? && !d.calls[k].ExecuteChangeSet?;
      NoCallbacks(d.calls);
    }
  }

  ghost predicate Executes(calls: seq<Call>) {
    exists i :: 0 <= i < |calls| && calls[i].ExecuteChangeSet?
  }

  lemma SameExecution(calls: seq<Call>, rest: seq<Call>)
    requires |calls| == |rest| + 2 && calls[2..] == rest
    requires !calls[0].ExecuteChangeSet? && !calls[1].ExecuteChangeSet?
    ensures Executes(calls) <==> Executes(rest)
  {
  }

  lemma AfterCreationNotifies(s: Service, stackName: string, name: string)
    ensures var calls := AfterCreation(s, stackName, name, true).calls;
            Callbacks(calls)
              == if Executes(calls) && s.executeFault.None?
                 then ProgressPolls(stackName, s.stackReplies[..FirstStack(stackName, s.stackReplies)]) else 0
  {
    var n := UsedChangeSet(s.changeSetReplies);
    var polls := ChangeSetCalls(name, s.changeSetReplies, n, false);
    ChangeSetCallsAre(name, s.changeSetReplies, n);
    NoCallbacks(polls);
    var calls := AfterCreation(s, stackName, name, true).calls;
    if ChangeSetResult(s.changeSetReplies) == Returned(Completed) {
      var first := [ExecuteChangeSet(name)];
      var m := UsedStack(stackName, s.stackReplies);
      var watched := StackCalls(stackName, s.stackReplies, m, true);
      StackCallsNotify(stackName, s.stackReplies, m);
      ProgressDecidesNothing(stackName, s.stackReplies);
      NoCallbacks(first);
      CallbacksConcat(first, watched);
      CallbacksConcat(polls, Executing(s.stackReplies, s.executeFault, stackName, name, true).calls);
      assert calls[n] == ExecuteChangeSet(name);
    }
  }
}
