/** Every call of a deployment, read off the replies alone. */
module CloudformationCalls {
  import opened Common
  import opened Cloudformation

  // ------------------------------------------------------------------- what a reply says

  /** The message names the stack and, later on the same line, says that it does not exist. */
  ghost predicate SaysGoneBy(message: string, stackName: string, before: string, between: string, after: string) {
    && message == before + stackName + between + "does not exist" + after
    && forall c :: c in between ==> c != '\n' && c != '\r' && c != '\U{2028}' && c != '\U{2029}'
  }

  ghost predicate SaysGone(message: string, stackName: string) {
    exists before, between, after :: SaysGoneBy(message, stackName, before, between, after)
  }

  lemma PartsOf(message: string, i: nat, word: string, j: nat, last: string)
    requires At(message, i, word) && i + |word| <= j && At(message, j, last)
    ensures message == message[..i] + word + message[i + |word|..j] + last + message[j + |last|..]
  {
    assert message == message[..i] + message[i..i + |word|] + message[i + |word|..j] + message[j..j + |last|]
                      + message[j + |last|..];
  }

  lemma PartsAt(before: string, word: string, between: string, last: string, after: string)
    ensures var message, i, j := before + word + between + last + after, |before|, |before| + |word| + |between|;
            At(message, i, word) && At(message, j, last) && message[i + |word|..j] == between
  {
    var message, i, j := before + word + between + last + after, |before|, |before| + |word| + |between|;
    assert message[i..i + |word|] == word;
    assert message[j..j + |last|] == last;
  }

  lemma SaysGoneExactly(message: string, stackName: string)
    ensures SaysMissing(message, stackName) <==> SaysGone(message, stackName)
  {
    if i, j :| 0 <= i <= j <= |message| && At(message, i, stackName) && i + |stackName| <= j
               && At(message, j, DOES_NOT_EXIST) && OneLine(message[i + |stackName|..j]) {
      PartsOf(message, i, stackName, j, DOES_NOT_EXIST);
      assert SaysGoneBy(message, stackName, message[..i], message[i + |stackName|..j], message[j + |DOES_NOT_EXIST|..]);
    }
    if before, between, after :| SaysGoneBy(message, stackName, before, between, after) {
      PartsAt(before, stackName, between, DOES_NOT_EXIST, after);
      assert At(message, |before|, stackName) && At(message, |before| + |stackName| + |between|, DOES_NOT_EXIST);
    }
  }

  /** There is no stack: an empty list, or a fault that says so. */
  ghost predicate IsGone(stackName: string, reply: StackReply) {
    match reply
    case Stacks(stacks) => stacks == []
    case StackFault(message) => SaysGone(message, stackName)
  }

  ghost predicate IsFault(stackName: string, reply: StackReply) {
    reply.StackFault? && !SaysGone(reply.message, stackName)
  }

  /** The status of the first stack listed. */
  ghost predicate HasStatus(reply: StackReply, status: Option<StackStatus>) {
    reply.Stacks? && reply.stacks != [] && reply.stacks[0].status == status
  }

  lemma DescribesExactly(stackName: string, reply: StackReply)
    ensures Description(stackName, reply) == Returned(None) <==> IsGone(stackName, reply)
    ensures Description(stackName, reply).Threw? <==> IsFault(stackName, reply)
    ensures IsFault(stackName, reply) ==> Description(stackName, reply) == Threw(Fault(reply.message))
    ensures reply.Stacks? && reply.stacks != [] ==> Description(stackName, reply) == Returned(Some(reply.stacks[0]))
  {
    if reply.StackFault? {
      SaysGoneExactly(reply.message, stackName);
    }
  }

  /** The six states that are reported as progress. */
  ghost predicate IsProgressing(reply: StackReply) {
    || HasStatus(reply, Some(CreateInProgress)) || HasStatus(reply, Some(DeleteInProgress))
    || HasStatus(reply, Some(ImportInProgress)) || HasStatus(reply, Some(UpdateCompleteCleanupInProgress))
    || HasStatus(reply, Some(UpdateInProgress)) || HasStatus(reply, Some(ReviewInProgress))
  }

  /** The replies after which the stack is polled again: those, no status, and one that the poller does not know. */
  ghost predicate IsUndecided(reply: StackReply) {
    || IsProgressing(reply) || HasStatus(reply, None)
    || exists status: string :: HasStatus(reply, Some(Unrecognised(status)))
  }

  lemma UndecidedExactly(stackName: string, reply: StackReply)
    ensures StackVerdict(stackName, reply).None? <==> IsUndecided(reply)
    ensures IsProgress(stackName, reply) <==> IsProgressing(reply)
  {
    if reply.Stacks? && reply.stacks != [] && reply.stacks[0].status.Some?
       && reply.stacks[0].status.value.Unrecognised? {
      assert HasStatus(reply, Some(Unrecognised(reply.stacks[0].status.value.name)));
    }
  }

  ghost predicate IsUndecidedChangeSet(reply: ChangeSetReply) {
    && reply.ChangeSet?
    && match reply.status
       case None => true
       case Some(ChangeSetCreateInProgress) => true
       case Some(ChangeSetCreatePending) => true
       case Some(ChangeSetDeleteInProgress) => true
       case Some(ChangeSetDeletePending) => true
       case Some(ChangeSetUnrecognised(_)) => true
       case _ => false
  }

  ghost predicate IsComplete(reply: ChangeSetReply) {
    && reply.ChangeSet?
    && (reply.status == Some(ChangeSetCreateComplete) || reply.status == Some(ChangeSetDeleteComplete))
  }

  lemma UndecidedChangeSetExactly(reply: ChangeSetReply)
    ensures ChangeSetVerdict(reply).None? <==> IsUndecidedChangeSet(reply)
    ensures ChangeSetVerdict(reply) == Some(Returned(Completed)) <==> IsComplete(reply)
  {
  }

  // ------------------------------------------------------------------- how many are used

  /** All the replies while they decide nothing, and the first that does. */
  ghost predicate UsesStack(replies: seq<StackReply>, n: nat) {
    && n <= |replies| && (forall j :: 0 <= j < n - 1 ==> IsUndecided(replies[j]))
    && (n < |replies| ==> n > 0 && !IsUndecided(replies[n - 1]))
  }

  ghost predicate UsesChangeSet(replies: seq<ChangeSetReply>, n: nat) {
    && n <= |replies| && (forall j :: 0 <= j < n - 1 ==> IsUndecidedChangeSet(replies[j]))
    && (n < |replies| ==> n > 0 && !IsUndecidedChangeSet(replies[n - 1]))
  }

  lemma StackUsed(stackName: string, replies: seq<StackReply>)
    ensures UsesStack(replies, UsedStack(stackName, replies))
  {
    var n := UsedStack(stackName, replies);
    forall j | 0 <= j < n - 1 ensures IsUndecided(replies[j]) {
      UndecidedExactly(stackName, replies[j]);
    }
    if n < |replies| {
      UndecidedExactly(stackName, replies[n - 1]);
    }
  }

  lemma ChangeSetUsed(replies: seq<ChangeSetReply>)
    ensures UsesChangeSet(replies, UsedChangeSet(replies))
  {
    var n := UsedChangeSet(replies);
    forall j | 0 <= j < n - 1 ensures IsUndecidedChangeSet(replies[j]) {
      UndecidedChangeSetExactly(replies[j]);
    }
    if n < |replies| {
      UndecidedChangeSetExactly(replies[n - 1]);
    }
  }

  // ------------------------------------------------------------------- the calls

  /** One call for each reply, and the callback right after each that shows progress. */
  ghost predicate IsPolls(calls: seq<Call>, replies: seq<StackReply>, notify: bool)
    decreases |replies|
  {
    if replies == [] then calls == []
    else
      var last, told := replies[|replies| - 1], notify && IsProgressing(replies[|replies| - 1]);
      var n := |calls| - if told then 2 else 1;
      && n >= 0 && calls[n] == DescribeStack && (told ==> calls[n + 1] == NotifyStack(InProgress))
      && IsPolls(calls[..n], replies[..|replies| - 1], notify)
  }

  lemma {:induction false} StackCallsArePolls(stackName: string, replies: seq<StackReply>, n: nat, notify: bool)
    requires n <= |replies|
    ensures IsPolls(StackCalls(stackName, replies, n, notify), replies[..n], notify)
  {
    if n > 0 {
      StackCallsArePolls(stackName, replies, n - 1, notify);
      UndecidedExactly(stackName, replies[n - 1]);
      var before, calls := StackCalls(stackName, replies, n - 1, notify), StackCalls(stackName, replies, n, notify);
      assert calls[..|before|] == before && replies[..n][..n - 1] == replies[..n - 1];
    }
  }

  ghost predicate IsChangeSetProgressing(reply: ChangeSetReply) {
    && reply.ChangeSet?
    && (reply.status == Some(ChangeSetCreateInProgress) || reply.status == Some(ChangeSetCreatePending)
        || reply.status == Some(ChangeSetDeleteInProgress) || reply.status == Some(ChangeSetDeletePending))
  }

  ghost predicate IsChangeSetPolls(calls: seq<Call>, name: string, replies: seq<ChangeSetReply>, notify: bool)
    decreases |replies|
  {
    if replies == [] then calls == []
    else
      var told := notify && IsChangeSetProgressing(replies[|replies| - 1]);
      var n := |calls| - if told then 2 else 1;
      && n >= 0 && calls[n] == DescribeChangeSet(name)
      && (told ==> calls[n + 1] == NotifyChangeSet(InProgress, name))
      && IsChangeSetPolls(calls[..n], name, replies[..|replies| - 1], notify)
  }

  /** The poller of the change set tells its callback, if it is given one, in the same way. */
  lemma {:induction false} ChangeSetCallsArePolls(name: string, replies: seq<ChangeSetReply>, n: nat, notify: bool)
    requires n <= |replies|
    ensures IsChangeSetPolls(ChangeSetCalls(name, replies, n, notify), name, replies[..n], notify)
  {
    if n > 0 {
      ChangeSetCallsArePolls(name, replies, n - 1, notify);
      var before := ChangeSetCalls(name, replies, n - 1, notify);
      assert ChangeSetCalls(name, replies, n, notify)[..|before|] == before;
      assert replies[..n][..n - 1] == replies[..n - 1];
    }
  }

  lemma {:induction false} ParametersAre(parameters: Record<string>, n: nat)
    requires parameters.Valid() && n <= |parameters.keys|
    ensures var list := ParametersOf(parameters, n);
            && |list| == n
            && forall i :: 0 <= i < n ==>
                 list[i].key == parameters.keys[i] && list[i].value == parameters.values[parameters.keys[i]]
  {
    if n > 0 {
      ParametersAre(parameters, n - 1);
    }
  }

  /** Each parameter once, in order, with its own name and value; type CREATE when there was no stack. */
  ghost predicate Creates(call: Call, gone: bool, name: string, parameters: Record<string>)
    requires parameters.Valid()
  {
    && call.CreateChangeSet? && call.name == name && (call.changeSetType == if gone then Create else Update)
    && |call.parameters| == |parameters.keys|
    && forall i :: 0 <= i < |parameters.keys| ==>
         && call.parameters[i].key == parameters.keys[i]
         && call.parameters[i].value == parameters.values[parameters.keys[i]]
  }

  /** The execution, and then the polls of the stack unless it fails. */
  ghost predicate IsExecution(s: Service, name: string, notify: bool, calls: seq<Call>) {
    && calls != [] && calls[0] == ExecuteChangeSet(name)
    && if s.executeFault.Some? then |calls| == 1
       else exists m: nat :: UsesStack(s.stackReplies, m) && IsPolls(calls[1..], s.stackReplies[..m], notify)
  }

  /** The polls of the change set, and the execution if the last of them finds it complete. */
  ghost predicate IsFollowUp(s: Service, name: string, notify: bool, calls: seq<Call>, n: nat) {
    && n <= |calls| && UsesChangeSet(s.changeSetReplies, n)
    && (forall k :: 0 <= k < n ==> calls[k] == DescribeChangeSet(name))
    && if n > 0 && IsComplete(s.changeSetReplies[n - 1]) then IsExecution(s, name, notify, calls[n..])
       else |calls| == n
  }

  lemma ExecutesAndPolls(s: Service, stackName: string, name: string, notify: bool)
    ensures IsExecution(s, name, notify, Executing(s.stackReplies, s.executeFault, stackName, name, notify).calls)
  {
    var n := UsedStack(stackName, s.stackReplies);
    var calls := Executing(s.stackReplies, s.executeFault, stackName, name, notify).calls;
    StackUsed(stackName, s.stackReplies);
    StackCallsArePolls(stackName, s.stackReplies, n, notify);
    assert s.executeFault.None? ==> calls[1..] == StackCalls(stackName, s.stackReplies, n, notify);
  }

  lemma ChangeSetIsFollowed(s: Service, stackName: string, name: string, notify: bool)
    ensures IsFollowUp(
              s, name, notify, AfterCreation(s, stackName, name, notify).calls, UsedChangeSet(s.changeSetReplies))
  {
    var replies, n := s.changeSetReplies, UsedChangeSet(s.changeSetReplies);
    var polls, calls := ChangeSetCalls(name, replies, n, false), AfterCreation(s, stackName, name, notify).calls;
    ChangeSetUsed(replies);
    ChangeSetCallsAre(name, replies, n);
    if n > 0 {
      UndecidedChangeSetExactly(replies[n - 1]);
    }
    if ChangeSetResult(replies) == Returned(Completed) {
      ExecutesAndPolls(s, stackName, name, notify);
      assert calls[n..] == Executing(s.stackReplies, s.executeFault, stackName, name, notify).calls;
    } else {
      assert calls == polls;
    }
  }

  /** All that a deployment does. */
  ghost predicate IsDeployment(s: Service, stackName: string, name: string, parameters: Record<string>, notify: bool,
      calls: seq<Call>)
    requires parameters.Valid()
  {
    if s.stackReplies == [] then calls == []
    else
      && calls != [] && calls[0] == DescribeStack
      && if IsFault(stackName, s.stackReplies[0]) then |calls| == 1
         else
           && |calls| > 1 && Creates(calls[1], IsGone(stackName, s.stackReplies[0]), name, parameters)
           && if s.createFault.Some? then |calls| == 2
              else exists n: nat :: IsFollowUp(s.(stackReplies := s.stackReplies[1..]), name, notify, calls[2..], n)
  }

  /** The calls of every deployment: it describes the stack, creates a change set that carries each parameter under its
      own name, polls it until a reply decides, and, if that finds it complete, executes it and polls the stack until a
      reply decides, telling the callback of each poll in progress. */
  lemma DeploymentCalls(s: Service, stackName: string, name: string, parameters: Record<string>, notify: bool)
    requires parameters.Valid()
    ensures IsDeployment(s, stackName, name, parameters, notify,
                         Deployed(s, stackName, name, parameters, notify).calls)
  {
    if s.stackReplies != [] {
      DescribesExactly(stackName, s.stackReplies[0]);
      ParametersAre(parameters, |parameters.keys|);
      if !IsFault(stackName, s.stackReplies[0]) && s.createFault.None? {
        var s' := s.(stackReplies := s.stackReplies[1..]);
        ChangeSetIsFollowed(s', stackName, name, notify);
        assert Deployed(s, stackName, name, parameters, notify).calls[2..]
            == AfterCreation(s', stackName, name, notify).calls;
      }
    }
  }

  /** Whatever the replies, a change set that is created carries each parameter under its own name. */
  lemma ChangeSetsCarryTheParameters(s: Service, stackName: string, name: string, parameters: Record<string>,
      notify: bool, c: Call)
    requires parameters.Valid() && c in Deployed(s, stackName, name, parameters, notify).calls && c.CreateChangeSet?
    ensures |c.parameters| == |parameters.keys|
    ensures forall i :: 0 <= i < |parameters.keys| ==>
              && c.parameters[i].key == parameters.keys[i]
              && c.parameters[i].value == parameters.values[parameters.keys[i]]
  {
    var calls := Deployed(s, stackName, name, parameters, notify).calls;
    var k :| 0 <= k < |calls| && calls[k] == c;
    ParametersAre(parameters, |parameters.keys|);
    if k > 1 {
      var s' := s.(stackReplies := s.stackReplies[1..]);
      assert calls[k] == AfterCreation(s', stackName, name, notify).calls[k - 2];
      NoneIsCreatedLater(s', stackName, name, notify, k - 2);
    }
  }

  lemma NoneIsCreatedLater(s: Service, stackName: string, name: string, notify: bool, k: nat)
    requires k < |AfterCreation(s, stackName, name, notify).calls|
    ensures !AfterCreation(s, stackName, name, notify).calls[k].CreateChangeSet?
  {
    var n, m := UsedChangeSet(s.changeSetReplies), UsedStack(stackName, s.stackReplies);
    var calls := AfterCreation(s, stackName, name, notify).calls;
    ChangeSetCallsAre(name, s.changeSetReplies, n);
    StackCallsAre(stackName, s.stackReplies, m, notify);
    assert k > n ==> calls[k] == StackCalls(stackName, s.stackReplies, m, notify)[k - n - 1];
  }
}
