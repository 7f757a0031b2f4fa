/**
 The parts of ApplicationSet and Application that a progressive rollout reads and
 writes.  Times are readings of one clock.
 */
module Appset {
  import opened Options

  datatype MatchExpression = MatchExpression(key: string, operator: string, values: seq<string>)

  /** An integer or a percentage such as "25%" (intstr.IntOrString). */
  datatype MaxUpdate = IntValue(n: int) | StringValue(text: string)

  datatype RolloutStep = RolloutStep(matchExpressions: seq<MatchExpression>, maxUpdate: Option<MaxUpdate>)

  datatype Strategy = Strategy(kind: string, rollingSync: Option<seq<RolloutStep>>)

  predicate IsRollingSync(strategy: Option<Strategy>)
  {
    strategy.Some? && strategy.value.kind == "RollingSync" && strategy.value.rollingSync.Some?
  }

  /** The steps in force: none unless a rolling sync is configured. */
  function Steps(strategy: Option<Strategy>): (r: seq<RolloutStep>)
  {
    if IsRollingSync(strategy) then strategy.value.rollingSync.value else []
  }

  datatype Phase = Running | Terminating | Failed | Errored | Succeeded

  datatype OperationState = OperationState(startedAt: int, phase: Phase)

  datatype Condition = InvalidSpecError | UnknownError | OtherCondition

  datatype Automated = Automated(enabled: Option<bool>, prune: bool)

  datatype SyncPolicy = SyncPolicy(automated: Option<Automated>, retryLimit: Option<int>, syncOptions: seq<string>)

  /** Empty and absent parts of a spec are one value, as the comparison treats them. */
  datatype Spec = Spec(content: string, syncPolicy: Option<SyncPolicy>)

  datatype SyncRequest = SyncRequest(prune: bool, retryLimit: int, syncOptions: seq<string>)

  datatype App = App(
    name: string,
    labels: map<string, string>,
    spec: Spec,
    revisions: seq<string>,
    health: string,
    sync: string,
    reconciledAt: Option<int>,
    operationState: Option<OperationState>,
    conditions: seq<Condition>,
    operation: Option<SyncRequest>)

  datatype RolloutStatus = Waiting | Pending | Progressing | Healthy

  datatype Message =
    | NoStatusFound
    | RevisionAndSpecChanged
    | RevisionChanged
    | SpecChanged
    | SyncedHealthy
    | SyncedProgressing
    | PendingSucceeded
    | PendingCompleted
    | PendingProgressing
    | CannotSync
    | BecameHealthy
    | MovedToPending

  datatype AppStatus = AppStatus(
    application: string,
    targetRevisions: seq<string>,
    lastTransitionTime: Option<int>,
    message: Message,
    status: RolloutStatus,
    step: int)

  ghost predicate UniqueApps(apps: seq<App>)
  {
    forall i, j :: 0 <= i < j < |apps| ==> apps[i].name != apps[j].name
  }

  ghost predicate UniqueStatuses(ss: seq<AppStatus>)
  {
    forall i, j :: 0 <= i < j < |ss| ==> ss[i].application != ss[j].application
  }

  ghost function AppNames(apps: seq<App>): set<string>
  {
    set a | a in apps :: a.name
  }

  /** Position of the first entry for name, or -1 (FindApplicationStatusIndex). */
  function FindStatus(ss: seq<AppStatus>, name: string): (i: int)
    ensures -1 <= i < |ss|
    ensures i == -1 ==> forall k :: 0 <= k < |ss| ==> ss[k].application != name
    ensures i >= 0 ==> ss[i].application == name && forall k :: 0 <= k < i ==> ss[k].application != name
  {
    FindFrom(ss, name, 0)
  }

  function FindFrom(ss: seq<AppStatus>, name: string, from: nat): (i: int)
    requires from <= |ss|
    ensures i == -1 || from <= i < |ss|
    ensures i == -1 ==> forall k :: from <= k < |ss| ==> ss[k].application != name
    ensures i >= 0 ==> ss[i].application == name && forall k :: from <= k < i ==> ss[k].application != name
    decreases |ss| - from
  {
    if from == |ss| then -1
    else if ss[from].application == name then from
    else FindFrom(ss, name, from + 1)
  }
}
