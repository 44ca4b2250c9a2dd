/** Workspace-administration commands and their wire requests: a nine-way choice, encoded and
    decoded with normalisation. */
module WorkspaceAdmin {
  import opened Wrappers

  /** A Go slice: nil and empty are different values with the same elements. */
  datatype Slice<T> = Nil | Items(items: seq<T>) {
    function Elements(): seq<T> { if Nil? then [] else items }
  }

  /** Appending elements to a nil slice: nothing appended leaves it nil. */
  function AppendToNil<T>(s: seq<T>): Slice<T> {
    if s == [] then Nil else Items(s)
  }

  /** The representative of all slices with the same elements. */
  function Canonical<T>(s: Slice<T>): Slice<T> {
    if s.Elements() == [] then Nil else s
  }

  type Text = Option<string>

  // ----- Commands

  datatype Command = Command(
    requestId: string, workspaceId: string, idempotencyKey: string, approvalRevision: nat, manifestDigest: string,
    updateDefaults: Option<DefaultsUpdate>, createWorkflow: Option<WorkflowCreate>,
    updateWorkflow: Option<WorkflowUpdate>, reorderWorkflows: Option<WorkflowReorder>,
    createStep: Option<StepCreate>, updateStep: Option<StepUpdate>, reorderSteps: Option<StepReorder>,
    registerRepo: Option<RepositoryRegister>, updateRepo: Option<RepositoryUpdate>)

  datatype DefaultsUpdate = DefaultsUpdate(
    expectedResourceVersion: string, name: Text, description: Text, defaultExecutorId: Text,
    defaultEnvironmentId: Text, defaultAgentProfileId: Text, defaultConfigAgentProfile: Text)

  datatype WorkflowCreate = WorkflowCreate(
    expectedWorkspaceResourceVersion: string, name: string, description: string, prompt: string)

  datatype WorkflowUpdate = WorkflowUpdate(
    workflowId: string, expectedResourceVersion: string, name: Text, description: Text, prompt: Text,
        agentProfileId: Text)

  datatype WorkflowReorder = WorkflowReorder(
    expectedWorkspaceResourceVersion: string, workflowIds: Slice<string>, workflowResourceVersions: Slice<string>)

  datatype StepCreate = StepCreate(
    workflowId: string, expectedWorkflowResourceVersion: string, configuration: StepConfiguration)

  datatype StepUpdate = StepUpdate(
    workflowId: string, stepId: string, expectedWorkflowResourceVersion: string,
    expectedStepResourceVersion: string, configuration: StepConfiguration)

  datatype StepReorder = StepReorder(
    workflowId: string, expectedWorkflowResourceVersion: string, stepIds: Slice<string>,
        stepResourceVersions: Slice<string>)

  datatype StepConfiguration = StepConfiguration(
    id: string, workflowId: string, name: string, position: int, stageType: string, color: string, prompt: string,
    allowManualMove: bool, isStartStep: bool, showInCommandPanel: bool, autoArchiveAfterHours: int,
    agentProfileId: string, profileSessionStartPolicy: string, profileSessionEndPolicy: string, wipLimit: int,
    pullFromStepId: string, autoAdvanceRequiresSignal: bool, cancelTriggersTurnComplete: bool,
        completeTaskOnEnter: bool,
    onEnterActionTypes: Slice<string>, onTurnStartActions: Slice<Action>, onTurnCompleteActions: Slice<Action>)

  datatype Action = Action(kind: string, targetStepId: string)

  datatype RepositoryRegister = RepositoryRegister(
    expectedWorkspaceResourceVersion: string, name: string, sourceType: string, localPath: string, provider: string,
    providerRepoId: string, providerHost: string, providerScope: string, providerOwner: string, providerName: string,
    remoteUrl: string, defaultBranch: string, worktreeBranchPrefix: string, worktreeBranchTemplate: string,
    pullBeforeWorktree: Option<bool>)

  datatype RepositoryUpdate = RepositoryUpdate(
    repositoryId: string, expectedResourceVersion: string, name: Text, defaultBranch: Text,
    worktreeBranchPrefix: Text, worktreeBranchTemplate: Text, pullBeforeWorktree: Option<bool>)

  // ----- Wire requests: every message and every list element may be nil

  datatype Request = Request(
    requestId: string, workspaceId: string, idempotencyKey: string, approvalRevision: nat, manifestDigest: string,
    operation: Operation)

  datatype Operation =
    | Unset
    | WorkspaceDefaults(defaults: Option<DefaultsMessage>)
    | WorkflowCreation(workflowCreate: Option<WorkflowCreateMessage>)
    | WorkflowUpdating(workflowUpdate: Option<WorkflowUpdateMessage>)
    | WorkflowReordering(workflowReorder: Option<WorkflowReorderMessage>)
    | StepCreation(stepCreate: Option<StepCreateMessage>)
    | StepUpdating(stepUpdate: Option<StepUpdateMessage>)
    | StepReordering(stepReorder: Option<StepReorderMessage>)
    | RepositoryRegistration(repositoryRegister: Option<RepositoryRegisterMessage>)
    | RepositoryUpdating(repositoryUpdate: Option<RepositoryUpdateMessage>)

  datatype DefaultsMessage = DefaultsMessage(
    expectedResourceVersion: string, name: Text, description: Text, defaultExecutorId: Text,
    defaultEnvironmentId: Text, defaultAgentProfileId: Text, defaultConfigAgentProfileId: Text)

  datatype WorkflowConfig = WorkflowConfig(name: string, description: string, prompt: string)

  datatype WorkflowCreateMessage = WorkflowCreateMessage(
    expectedWorkspaceResourceVersion: string, configuration: Option<WorkflowConfig>)

  datatype WorkflowUpdateMessage = WorkflowUpdateMessage(
    workflowId: string, expectedResourceVersion: string, name: Text, description: Text, prompt: Text,
        agentProfileId: Text)

  datatype WorkflowReorderMessage = WorkflowReorderMessage(
    expectedWorkspaceResourceVersion: string, workflowIds: Slice<string>, workflowResourceVersions: Slice<string>)

  datatype StepCreateMessage = StepCreateMessage(
    workflowId: string, expectedWorkflowResourceVersion: string, configuration: Option<StepConfigurationMessage>)

  datatype StepUpdateMessage = StepUpdateMessage(
    workflowId: string, stepId: string, expectedWorkflowResourceVersion: string,
    expectedStepResourceVersion: string, configuration: Option<StepConfigurationMessage>)

  datatype StepReorderMessage = StepReorderMessage(
    workflowId: string, expectedWorkflowResourceVersion: string, stepIds: Slice<string>,
        stepResourceVersions: Slice<string>)

  datatype StepConfigurationMessage = StepConfigurationMessage(
    id: string, workflowId: string, name: string, position: int, stageType: string, color: string, prompt: string,
    allowManualMove: bool, isStartStep: bool, showInCommandPanel: bool, autoArchiveAfterHours: int,
    agentProfileId: string, profileSessionStartPolicy: string, profileSessionEndPolicy: string, wipLimit: int,
    pullFromStepId: string, autoAdvanceRequiresSignal: bool, cancelTriggersTurnComplete: bool,
        completeTaskOnEnter: bool,
    onEnterActionTypes: Slice<string>, onTurnStartActions: Slice<Option<ActionMessage>>,
    onTurnCompleteActions: Slice<Option<ActionMessage>>)

  datatype ActionMessage = ActionMessage(kind: string, targetStepId: string)

  datatype RepositoryRegisterMessage = RepositoryRegisterMessage(
    expectedWorkspaceResourceVersion: string, name: string, sourceType: string, localPath: string, provider: string,
    providerRepositoryId: string, providerHost: string, providerScope: string, providerOwner: string,
        providerName: string,
    remoteUrl: string, defaultBranch: string, worktreeBranchPrefix: string, worktreeBranchTemplate: string,
    pullBeforeWorktree: Option<bool>)

  datatype RepositoryUpdateMessage = RepositoryUpdateMessage(
    repositoryId: string, expectedResourceVersion: string, name: Text, defaultBranch: Text,
    worktreeBranchPrefix: Text, worktreeBranchTemplate: Text, pullBeforeWorktree: Option<bool>)

  // ----- Counting operations

  function Present(c: Command): seq<bool> {
    [c.updateDefaults.Some?, c.createWorkflow.Some?, c.updateWorkflow.Some?, c.reorderWorkflows.Some?,
        c.createStep.Some?,
     c.updateStep.Some?, c.reorderSteps.Some?, c.registerRepo.Some?, c.updateRepo.Some?]
  }

  ghost function Set(flags: seq<bool>): set<int> {
    set i | 0 <= i < |flags| && flags[i]
  }

  /** One more flag. */
  lemma SetNext(flags: seq<bool>, i: nat)
    requires i < |flags|
    ensures |Set(flags[..i + 1])| == |Set(flags[..i])| + if flags[i] then 1 else 0
  {
    var next := Set(flags[..i + 1]);
    if flags[i] {
      assert next == Set(flags[..i]) + {i};
    } else {
      assert next == Set(flags[..i]);
    }
  }

  method CountTrue(flags: seq<bool>) returns (count: nat)
    ensures count == |Set(flags)|
  {
    count := 0;
    for i := 0 to |flags|
      invariant count == |Set(flags[..i])|
    {
      SetNext(flags, i);
      if flags[i] {
        count := count + 1;
      }
    }
    assert flags[..|flags|] == flags;
  }

  /** What a caller can check before the call. */
  ghost predicate ExactlyOne(flags: seq<bool>) {
    exists i :: 0 <= i < |flags| && flags[i] && forall j :: 0 <= j < |flags| && flags[j] ==> j == i
  }

  lemma SoleIsSingleton(flags: seq<bool>, i: nat)
    requires i < |flags| && flags[i]
    ensures Set(flags) == {i} <==> forall j :: 0 <= j < |flags| && flags[j] ==> j == i
  {
    assert i in Set(flags);
    if Set(flags) == {i} {
      assert forall j :: 0 <= j < |flags| && flags[j] ==> j in Set(flags);
    }
  }

  lemma SingletonIs(s: set<int>, i: int)
    requires |s| == 1 && i in s
    ensures s == {i}
  {
    assert |s - {i}| == 0;
    assert s == {i} + (s - {i});
  }

  lemma CountIsOneIff(flags: seq<bool>)
    ensures |Set(flags)| == 1 <==> ExactlyOne(flags)
  {
    if ExactlyOne(flags) {
      var i :| 0 <= i < |flags| && flags[i] && forall j :: 0 <= j < |flags| && flags[j] ==> j == i;
      SoleIsSingleton(flags, i);
    }
    if |Set(flags)| == 1 {
      var i :| i in Set(flags);
      SingletonIs(Set(flags), i);
      SoleIsSingleton(flags, i);
    }
  }

  function Bit(b: bool): nat { if b then 1 else 0 }

  /** How many operations are set. */
  function Ones(c: Command): nat {
    WorkspaceOnes(c) + StepOnes(c) + RepositoryOnes(c)
  }

  function WorkspaceOnes(c: Command): nat {
    Bit(c.updateDefaults.Some?) + Bit(c.createWorkflow.Some?) + Bit(c.updateWorkflow.Some?)
        + Bit(c.reorderWorkflows.Some?)
  }

  function StepOnes(c: Command): nat {
    Bit(c.createStep.Some?) + Bit(c.updateStep.Some?) + Bit(c.reorderSteps.Some?)
  }

  function RepositoryOnes(c: Command): nat {
    Bit(c.registerRepo.Some?) + Bit(c.updateRepo.Some?)
  }

  lemma NineFlags(flags: seq<bool>)
    requires |flags| == 9
    ensures |Set(flags)|
         == Bit(flags[0]) + Bit(flags[1]) + Bit(flags[2]) + Bit(flags[3]) + Bit(flags[4]) + Bit(flags[5])
             + Bit(flags[6])
            + Bit(flags[7]) + Bit(flags[8])
  {
    forall i: int | 0 <= i < 9 ensures |Set(flags[..i + 1])| == |Set(flags[..i])| + Bit(flags[i]) {
      SetNext(flags, i);
    }
    assert flags[..9] == flags;
  }

  lemma OnesIsTheCount(c: Command)
    ensures Ones(c) == |Set(Present(c))|
  {
    NineFlags(Present(c));
  }

  method OperationCount(c: Command) returns (count: nat)
    ensures count == Ones(c)
  {
    count := CountTrue(Present(c));
    OnesIsTheCount(c);
  }

  lemma OnesIsOneIff(c: Command)
    ensures Ones(c) == 1 <==> ExactlyOne(Present(c))
  {
    OnesIsTheCount(c);
    CountIsOneIff(Present(c));
  }

  // ----- Field mappings

  function EncodeAction(a: Action): Option<ActionMessage> {
    Some(ActionMessage(kind := a.kind, targetStepId := a.targetStepId))
  }

  function EncodeActions(actions: seq<Action>): seq<Option<ActionMessage>> {
    seq(|actions|, i requires 0 <= i < |actions| => EncodeAction(actions[i]))
  }

  /** Nil list elements are dropped. */
  function DecodeActions(actions: seq<Option<ActionMessage>>): seq<Action> {
    if actions == [] then []
    else
      var last := actions[|actions| - 1];
      var before := DecodeActions(actions[..|actions| - 1]);
      if last.None? then before else before + [Action(kind := last.value.kind, targetStepId := last.value.targetStepId)]
  }

  function EncodeStep(v: StepConfiguration): StepConfigurationMessage {
    StepConfigurationMessage(
      id := v.id, workflowId := v.workflowId, name := v.name, position := v.position, stageType := v.stageType,
      color := v.color, prompt := v.prompt, allowManualMove := v.allowManualMove, isStartStep := v.isStartStep,
      showInCommandPanel := v.showInCommandPanel, autoArchiveAfterHours := v.autoArchiveAfterHours,
      agentProfileId := v.agentProfileId, profileSessionStartPolicy := v.profileSessionStartPolicy,
      profileSessionEndPolicy := v.profileSessionEndPolicy, wipLimit := v.wipLimit, pullFromStepId := v.pullFromStepId,
      autoAdvanceRequiresSignal := v.autoAdvanceRequiresSignal,
          cancelTriggersTurnComplete := v.cancelTriggersTurnComplete,
      completeTaskOnEnter := v.completeTaskOnEnter, onEnterActionTypes := AppendToNil(v.onEnterActionTypes.Elements()),
      onTurnStartActions := AppendToNil(EncodeActions(v.onTurnStartActions.Elements())),
      onTurnCompleteActions := AppendToNil(EncodeActions(v.onTurnCompleteActions.Elements())))
  }

  const ZERO_STEP := StepConfiguration(
    "", "", "", 0, "", "", "", false, false, false, 0, "", "", "", 0, "", false, false, false, Nil, Nil, Nil)

  function DecodeStep(m: Option<StepConfigurationMessage>): StepConfiguration {
    if m.None? then ZERO_STEP
    else
      var v := m.value;
      StepConfiguration(
        id := v.id, workflowId := v.workflowId, name := v.name, position := v.position, stageType := v.stageType,
        color := v.color, prompt := v.prompt, allowManualMove := v.allowManualMove, isStartStep := v.isStartStep,
        showInCommandPanel := v.showInCommandPanel, autoArchiveAfterHours := v.autoArchiveAfterHours,
        agentProfileId := v.agentProfileId, profileSessionStartPolicy := v.profileSessionStartPolicy,
        profileSessionEndPolicy := v.profileSessionEndPolicy, wipLimit := v.wipLimit,
            pullFromStepId := v.pullFromStepId,
        autoAdvanceRequiresSignal := v.autoAdvanceRequiresSignal,
            cancelTriggersTurnComplete := v.cancelTriggersTurnComplete,
        completeTaskOnEnter := v.completeTaskOnEnter,
            onEnterActionTypes := AppendToNil(v.onEnterActionTypes.Elements()),
        onTurnStartActions := AppendToNil(DecodeActions(v.onTurnStartActions.Elements())),
        onTurnCompleteActions := AppendToNil(DecodeActions(v.onTurnCompleteActions.Elements())))
  }

  function EncodeDefaults(v: DefaultsUpdate): DefaultsMessage {
    DefaultsMessage(
      expectedResourceVersion := v.expectedResourceVersion, name := v.name, description := v.description,
      defaultExecutorId := v.defaultExecutorId, defaultEnvironmentId := v.defaultEnvironmentId,
      defaultAgentProfileId := v.defaultAgentProfileId, defaultConfigAgentProfileId := v.defaultConfigAgentProfile)
  }

  function DecodeDefaults(m: DefaultsMessage): DefaultsUpdate {
    DefaultsUpdate(
      expectedResourceVersion := m.expectedResourceVersion, name := m.name, description := m.description,
      defaultExecutorId := m.defaultExecutorId, defaultEnvironmentId := m.defaultEnvironmentId,
      defaultAgentProfileId := m.defaultAgentProfileId, defaultConfigAgentProfile := m.defaultConfigAgentProfileId)
  }

  function EncodeWorkflowCreate(v: WorkflowCreate): WorkflowCreateMessage {
    WorkflowCreateMessage(
      expectedWorkspaceResourceVersion := v.expectedWorkspaceResourceVersion,
      configuration := Some(WorkflowConfig(name := v.name, description := v.description, prompt := v.prompt)))
  }

  function DecodeWorkflowCreate(m: WorkflowCreateMessage): WorkflowCreate {
    var bare := WorkflowCreate(m.expectedWorkspaceResourceVersion, "", "", "");
    if m.configuration.None? then bare
    else
      var config := m.configuration.value;
      bare.(name := config.name, description := config.description, prompt := config.prompt)
  }

  function EncodeWorkflowUpdate(v: WorkflowUpdate): WorkflowUpdateMessage {
    WorkflowUpdateMessage(
      workflowId := v.workflowId, expectedResourceVersion := v.expectedResourceVersion, name := v.name,
      description := v.description, prompt := v.prompt, agentProfileId := v.agentProfileId)
  }

  function DecodeWorkflowUpdate(m: WorkflowUpdateMessage): WorkflowUpdate {
    WorkflowUpdate(
      workflowId := m.workflowId, expectedResourceVersion := m.expectedResourceVersion, name := m.name,
      description := m.description, prompt := m.prompt, agentProfileId := m.agentProfileId)
  }

  /** The encoder shares the slices; the decoder copies them. */
  function EncodeWorkflowReorder(v: WorkflowReorder): WorkflowReorderMessage {
    WorkflowReorderMessage(
      expectedWorkspaceResourceVersion := v.expectedWorkspaceResourceVersion, workflowIds := v.workflowIds,
      workflowResourceVersions := v.workflowResourceVersions)
  }

  function DecodeWorkflowReorder(m: WorkflowReorderMessage): WorkflowReorder {
    WorkflowReorder(
      expectedWorkspaceResourceVersion := m.expectedWorkspaceResourceVersion,
      workflowIds := AppendToNil(m.workflowIds.Elements()),
      workflowResourceVersions := AppendToNil(m.workflowResourceVersions.Elements()))
  }

  function EncodeStepCreate(v: StepCreate, step: StepConfigurationMessage): StepCreateMessage {
    StepCreateMessage(
      workflowId := v.workflowId, expectedWorkflowResourceVersion := v.expectedWorkflowResourceVersion,
      configuration := Some(step))
  }

  function DecodeStepCreate(m: StepCreateMessage, step: StepConfiguration): StepCreate {
    StepCreate(
      workflowId := m.workflowId, expectedWorkflowResourceVersion := m.expectedWorkflowResourceVersion,
      configuration := step)
  }

  function EncodeStepUpdate(v: StepUpdate, step: StepConfigurationMessage): StepUpdateMessage {
    StepUpdateMessage(
      workflowId := v.workflowId, stepId := v.stepId,
      expectedWorkflowResourceVersion := v.expectedWorkflowResourceVersion,
      expectedStepResourceVersion := v.expectedStepResourceVersion, configuration := Some(step))
  }

  function DecodeStepUpdate(m: StepUpdateMessage, step: StepConfiguration): StepUpdate {
    StepUpdate(
      workflowId := m.workflowId, stepId := m.stepId,
      expectedWorkflowResourceVersion := m.expectedWorkflowResourceVersion,
      expectedStepResourceVersion := m.expectedStepResourceVersion, configuration := step)
  }

  function EncodeStepReorder(v: StepReorder): StepReorderMessage {
    StepReorderMessage(
      workflowId := v.workflowId, expectedWorkflowResourceVersion := v.expectedWorkflowResourceVersion,
      stepIds := v.stepIds, stepResourceVersions := v.stepResourceVersions)
  }

  function DecodeStepReorder(m: StepReorderMessage): StepReorder {
    StepReorder(
      workflowId := m.workflowId, expectedWorkflowResourceVersion := m.expectedWorkflowResourceVersion,
      stepIds := AppendToNil(m.stepIds.Elements()),
          stepResourceVersions := AppendToNil(m.stepResourceVersions.Elements()))
  }

  function EncodeRegister(v: RepositoryRegister): RepositoryRegisterMessage {
    RepositoryRegisterMessage(
      expectedWorkspaceResourceVersion := v.expectedWorkspaceResourceVersion, name := v.name,
          sourceType := v.sourceType,
      localPath := v.localPath, provider := v.provider, providerRepositoryId := v.providerRepoId,
      providerHost := v.providerHost, providerScope := v.providerScope, providerOwner := v.providerOwner,
      providerName := v.providerName, remoteUrl := v.remoteUrl, defaultBranch := v.defaultBranch,
      worktreeBranchPrefix := v.worktreeBranchPrefix, worktreeBranchTemplate := v.worktreeBranchTemplate,
      pullBeforeWorktree := v.pullBeforeWorktree)
  }

  function DecodeRegister(m: RepositoryRegisterMessage): RepositoryRegister {
    RepositoryRegister(
      expectedWorkspaceResourceVersion := m.expectedWorkspaceResourceVersion, name := m.name,
          sourceType := m.sourceType,
      localPath := m.localPath, provider := m.provider, providerRepoId := m.providerRepositoryId,
      providerHost := m.providerHost, providerScope := m.providerScope, providerOwner := m.providerOwner,
      providerName := m.providerName, remoteUrl := m.remoteUrl, defaultBranch := m.defaultBranch,
      worktreeBranchPrefix := m.worktreeBranchPrefix, worktreeBranchTemplate := m.worktreeBranchTemplate,
      pullBeforeWorktree := m.pullBeforeWorktree)
  }

  function EncodeRepositoryUpdate(v: RepositoryUpdate): RepositoryUpdateMessage {
    RepositoryUpdateMessage(
      repositoryId := v.repositoryId, expectedResourceVersion := v.expectedResourceVersion, name := v.name,
      defaultBranch := v.defaultBranch, worktreeBranchPrefix := v.worktreeBranchPrefix,
      worktreeBranchTemplate := v.worktreeBranchTemplate, pullBeforeWorktree := v.pullBeforeWorktree)
  }

  function DecodeRepositoryUpdate(m: RepositoryUpdateMessage): RepositoryUpdate {
    RepositoryUpdate(
      repositoryId := m.repositoryId, expectedResourceVersion := m.expectedResourceVersion, name := m.name,
      defaultBranch := m.defaultBranch, worktreeBranchPrefix := m.worktreeBranchPrefix,
      worktreeBranchTemplate := m.worktreeBranchTemplate, pullBeforeWorktree := m.pullBeforeWorktree)
  }

  // ----- The specification of the codec

  function OperationOf(c: Command): Operation {
    if c.updateDefaults.Some? then WorkspaceDefaults(Some(EncodeDefaults(c.updateDefaults.value)))
    else if c.createWorkflow.Some? then WorkflowCreation(Some(EncodeWorkflowCreate(c.createWorkflow.value)))
    else if c.updateWorkflow.Some? then WorkflowUpdating(Some(EncodeWorkflowUpdate(c.updateWorkflow.value)))
    else if c.reorderWorkflows.Some? then WorkflowReordering(Some(EncodeWorkflowReorder(c.reorderWorkflows.value)))
    else if c.createStep.Some? then
      StepCreation(Some(EncodeStepCreate(c.createStep.value, EncodeStep(c.createStep.value.configuration))))
    else if c.updateStep.Some? then
      StepUpdating(Some(EncodeStepUpdate(c.updateStep.value, EncodeStep(c.updateStep.value.configuration))))
    else if c.reorderSteps.Some? then StepReordering(Some(EncodeStepReorder(c.reorderSteps.value)))
    else if c.registerRepo.Some? then RepositoryRegistration(Some(EncodeRegister(c.registerRepo.value)))
    else if c.updateRepo.Some? then RepositoryUpdating(Some(EncodeRepositoryUpdate(c.updateRepo.value)))
    else Unset
  }

  /** The request of a command with exactly one operation. */
  function Encoded(c: Command): Request {
    Request(requestId := c.requestId, workspaceId := c.workspaceId, idempotencyKey := c.idempotencyKey,
            approvalRevision := c.approvalRevision, manifestDigest := c.manifestDigest, operation := OperationOf(c))
  }

  /** The chosen operation carries a message. */
  predicate Carries(o: Operation) {
    match o
    case Unset => false
    case WorkspaceDefaults(m) => m.Some?
    case WorkflowCreation(m) => m.Some?
    case WorkflowUpdating(m) => m.Some?
    case WorkflowReordering(m) => m.Some?
    case StepCreation(m) => m.Some?
    case StepUpdating(m) => m.Some?
    case StepReordering(m) => m.Some?
    case RepositoryRegistration(m) => m.Some?
    case RepositoryUpdating(m) => m.Some?
  }

  function Header(r: Request): Command {
    Command(requestId := r.requestId, workspaceId := r.workspaceId, idempotencyKey := r.idempotencyKey,
            approvalRevision := r.approvalRevision, manifestDigest := r.manifestDigest,
            updateDefaults := None, createWorkflow := None, updateWorkflow := None, reorderWorkflows := None,
            createStep := None, updateStep := None, reorderSteps := None, registerRepo := None, updateRepo := None)
  }

  /** The command a decodable request means. */
  function Decoded(r: Request): Command
    requires Carries(r.operation)
  {
    match r.operation
    case WorkspaceDefaults(m) => Header(r).(updateDefaults := Some(DecodeDefaults(m.value)))
    case WorkflowCreation(m) => Header(r).(createWorkflow := Some(DecodeWorkflowCreate(m.value)))
    case WorkflowUpdating(m) => Header(r).(updateWorkflow := Some(DecodeWorkflowUpdate(m.value)))
    case WorkflowReordering(m) => Header(r).(reorderWorkflows := Some(DecodeWorkflowReorder(m.value)))
    case StepCreation(m) => Header(r).(createStep := Some(DecodeStepCreate(m.value, DecodeStep(m.value.configuration))))
    case StepUpdating(m) => Header(r).(updateStep := Some(DecodeStepUpdate(m.value, DecodeStep(m.value.configuration))))
    case StepReordering(m) => Header(r).(reorderSteps := Some(DecodeStepReorder(m.value)))
    case RepositoryRegistration(m) => Header(r).(registerRepo := Some(DecodeRegister(m.value)))
    case RepositoryUpdating(m) => Header(r).(updateRepo := Some(DecodeRepositoryUpdate(m.value)))
  }

  // ----- The methods

  method ActionsToProto(actions: seq<Action>) returns (messages: Slice<Option<ActionMessage>>)
    ensures messages == AppendToNil(EncodeActions(actions))
  {
    messages := Nil;
    for i := 0 to |actions|
      invariant messages == AppendToNil(EncodeActions(actions[..i]))
    {
      messages := Items(messages.Elements() + [EncodeAction(actions[i])]);
      assert EncodeActions(actions[..i + 1]) == EncodeActions(actions[..i]) + [EncodeAction(actions[i])];
    }
    assert actions[..|actions|] == actions;
  }

  method StepToProto(v: StepConfiguration) returns (m: StepConfigurationMessage)
    ensures m == EncodeStep(v)
  {
    m := EncodeStep(v.(onTurnStartActions := Nil, onTurnCompleteActions := Nil));
    var starts := ActionsToProto(v.onTurnStartActions.Elements());
    var completes := ActionsToProto(v.onTurnCompleteActions.Elements());
    m := m.(onTurnStartActions := starts, onTurnCompleteActions := completes);
  }

  method ActionsFromProto(messages: seq<Option<ActionMessage>>) returns (actions: Slice<Action>)
    ensures actions == AppendToNil(DecodeActions(messages))
  {
    actions := Nil;
    for i := 0 to |messages|
      invariant actions == AppendToNil(DecodeActions(messages[..i]))
    {
      var m := messages[i];
      assert messages[..i + 1][..i] == messages[..i];
      if m.Some? {
        actions := Items(actions.Elements() + [Action(kind := m.value.kind, targetStepId := m.value.targetStepId)]);
      }
    }
    assert messages[..|messages|] == messages;
  }

  method StepFromProto(m: Option<StepConfigurationMessage>) returns (v: StepConfiguration)
    ensures v == DecodeStep(m)
  {
    if m.None? {
      return ZERO_STEP;
    }
    var starts := ActionsFromProto(m.value.onTurnStartActions.Elements());
    var completes := ActionsFromProto(m.value.onTurnCompleteActions.Elements());
    var bare := m.value.(onTurnStartActions := Nil, onTurnCompleteActions := Nil);
    v := DecodeStep(Some(bare)).(onTurnStartActions := starts, onTurnCompleteActions := completes);
  }

  /** With exactly one operation it does not matter in which order they are looked at. */
  lemma AnyOrder(c: Command)
    requires Ones(c) == 1
    ensures c.updateDefaults.Some? ==> OperationOf(c) == WorkspaceDefaults(Some(EncodeDefaults(c.updateDefaults.value)))
    ensures c.createWorkflow.Some? ==>
            OperationOf(c) == WorkflowCreation(Some(EncodeWorkflowCreate(c.createWorkflow.value)))
    ensures c.updateWorkflow.Some? ==>
            OperationOf(c) == WorkflowUpdating(Some(EncodeWorkflowUpdate(c.updateWorkflow.value)))
    ensures c.reorderWorkflows.Some? ==>
            OperationOf(c) == WorkflowReordering(Some(EncodeWorkflowReorder(c.reorderWorkflows.value)))
    ensures c.createStep.Some? ==>
            OperationOf(c) == StepCreation(Some(EncodeStepCreate(c.createStep.value,
                EncodeStep(c.createStep.value.configuration))))
    ensures c.updateStep.Some? ==>
            OperationOf(c) == StepUpdating(Some(EncodeStepUpdate(c.updateStep.value,
                EncodeStep(c.updateStep.value.configuration))))
    ensures c.reorderSteps.Some? ==> OperationOf(c) == StepReordering(Some(EncodeStepReorder(c.reorderSteps.value)))
    ensures c.registerRepo.Some? ==>
            OperationOf(c) == RepositoryRegistration(Some(EncodeRegister(c.registerRepo.value)))
    ensures c.updateRepo.Some? ==>
            OperationOf(c) == RepositoryUpdating(Some(EncodeRepositoryUpdate(c.updateRepo.value)))
  {}

  /** The chosen operation is the command's own, if it has only one. */
  ghost predicate ChosenFor(c: Command, operations: nat, chosen: Operation) {
    Ones(c) == 1 && operations > 0 ==> chosen == OperationOf(c)
  }

  method ChooseWorkspace(c: Command) returns (operations: nat, chosen: Operation)
    ensures operations == WorkspaceOnes(c) && ChosenFor(c, operations, chosen)
  {
    operations, chosen := 0, Unset;
    if c.updateDefaults.Some? {
      operations, chosen := operations + 1, WorkspaceDefaults(Some(EncodeDefaults(c.updateDefaults.value)));
    }
    if c.createWorkflow.Some? {
      operations, chosen := operations + 1, WorkflowCreation(Some(EncodeWorkflowCreate(c.createWorkflow.value)));
    }
    if c.updateWorkflow.Some? {
      operations, chosen := operations + 1, WorkflowUpdating(Some(EncodeWorkflowUpdate(c.updateWorkflow.value)));
    }
    if c.reorderWorkflows.Some? {
      operations, chosen := operations + 1, WorkflowReordering(Some(EncodeWorkflowReorder(c.reorderWorkflows.value)));
    }
    if Ones(c) == 1 {
      AnyOrder(c);
    }
  }

  method ChooseStep(c: Command, operations0: nat, chosen0: Operation) returns (operations: nat, chosen: Operation)
    requires operations0 == WorkspaceOnes(c) && ChosenFor(c, operations0, chosen0)
    ensures operations == operations0 + StepOnes(c) && ChosenFor(c, operations, chosen)
  {
    operations, chosen := operations0, chosen0;
    if c.createStep.Some? {
      var step := StepToProto(c.createStep.value.configuration);
      operations, chosen := operations + 1, StepCreation(Some(EncodeStepCreate(c.createStep.value, step)));
    }
    if c.updateStep.Some? {
      var step := StepToProto(c.updateStep.value.configuration);
      operations, chosen := operations + 1, StepUpdating(Some(EncodeStepUpdate(c.updateStep.value, step)));
    }
    if c.reorderSteps.Some? {
      operations, chosen := operations + 1, StepReordering(Some(EncodeStepReorder(c.reorderSteps.value)));
    }
    if Ones(c) == 1 {
      AnyOrder(c);
    }
  }

  /** Later operations overwrite earlier ones. */
  method Choose(c: Command) returns (operations: nat, chosen: Operation)
    ensures operations == Ones(c)
    ensures operations == 1 ==> chosen == OperationOf(c)
  {
    operations, chosen := ChooseWorkspace(c);
    operations, chosen := ChooseStep(c, operations, chosen);
    if c.registerRepo.Some? {
      operations, chosen := operations + 1, RepositoryRegistration(Some(EncodeRegister(c.registerRepo.value)));
    }
    if c.updateRepo.Some? {
      operations, chosen := operations + 1, RepositoryUpdating(Some(EncodeRepositoryUpdate(c.updateRepo.value)));
    }
    if Ones(c) == 1 {
      AnyOrder(c);
    }
  }

  method ToProto(c: Command) returns (r: Result<Request>)
    ensures r.Ok? <==> ExactlyOne(Present(c))
    ensures r.Ok? ==> r.value == Encoded(c)
  {
    var operations, chosen := Choose(c);
    OnesIsOneIff(c);
    if operations != 1 {
      return Err("workspace administration command must contain exactly one operation");
    }
    r := Ok(Request(requestId := c.requestId, workspaceId := c.workspaceId, idempotencyKey := c.idempotencyKey,
                    approvalRevision := c.approvalRevision, manifestDigest := c.manifestDigest, operation := chosen));
  }

  /** The command so far: the header, with the operation if it carries a message. */
  method Fill(r: Request) returns (command: Command)
    ensures command == if Carries(r.operation) then Decoded(r) else Header(r)
  {
    command := Header(r);
    match r.operation {
      case WorkspaceDefaults(m) =>
        if m.Some? { command := command.(updateDefaults := Some(DecodeDefaults(m.value))); }
      case WorkflowCreation(m) =>
        if m.Some? { command := command.(createWorkflow := Some(DecodeWorkflowCreate(m.value))); }
      case WorkflowUpdating(m) =>
        if m.Some? { command := command.(updateWorkflow := Some(DecodeWorkflowUpdate(m.value))); }
      case WorkflowReordering(m) =>
        if m.Some? { command := command.(reorderWorkflows := Some(DecodeWorkflowReorder(m.value))); }
      case StepCreation(m) =>
        if m.Some? {
          var step := StepFromProto(m.value.configuration);
          command := command.(createStep := Some(DecodeStepCreate(m.value, step)));
        }
      case StepUpdating(m) =>
        if m.Some? {
          var step := StepFromProto(m.value.configuration);
          command := command.(updateStep := Some(DecodeStepUpdate(m.value, step)));
        }
      case StepReordering(m) =>
        if m.Some? { command := command.(reorderSteps := Some(DecodeStepReorder(m.value))); }
      case RepositoryRegistration(m) =>
        if m.Some? { command := command.(registerRepo := Some(DecodeRegister(m.value))); }
      case RepositoryUpdating(m) =>
        if m.Some? { command := command.(updateRepo := Some(DecodeRepositoryUpdate(m.value))); }
      case Unset =>
    }
  }

  /** A nil request, an unset operation and an operation without a message are the only errors. */
  method FromProto(request: Option<Request>) returns (r: Result<Command>)
    ensures r.Ok? <==> request.Some? && Carries(request.value.operation)
    ensures r.Ok? ==> r.value == Decoded(request.value)
    ensures r == Err("workspace administration operation is invalid") <==>
            request.Some? && request.value.operation != Unset && !Carries(request.value.operation)
  {
    if request.None? {
      return Err("workspace administration request is required");
    }
    if request.value.operation == Unset {
      return Err("workspace administration operation is required");
    }
    var command := Fill(request.value);
    var count := OperationCount(command);
    FilledHasOneIff(request.value);
    if count != 1 {
      return Err("workspace administration operation is invalid");
    }
    r := Ok(command);
  }

  lemma FilledHasOneIff(r: Request)
    ensures Ones(Header(r)) == 0
    ensures Carries(r.operation) ==> Ones(Decoded(r)) == 1
  {}

  // ----- Laws

  /** The command with every empty slice made nil, and nothing else changed. */
  function NormalStep(v: StepConfiguration): StepConfiguration {
    v.(onEnterActionTypes := Canonical(v.onEnterActionTypes), onTurnStartActions := Canonical(v.onTurnStartActions),
       onTurnCompleteActions := Canonical(v.onTurnCompleteActions))
  }

  function Normal(c: Command): Command {
    match OperationOf(c)
    case WorkflowReordering(_) =>
      var v := c.reorderWorkflows.value;
      c.(reorderWorkflows := Some(v.(workflowIds := Canonical(v.workflowIds),
                                     workflowResourceVersions := Canonical(v.workflowResourceVersions))))
    case StepCreation(_) =>
      c.(createStep := Some(c.createStep.value.(configuration := NormalStep(c.createStep.value.configuration))))
    case StepUpdating(_) =>
      c.(updateStep := Some(c.updateStep.value.(configuration := NormalStep(c.updateStep.value.configuration))))
    case StepReordering(_) =>
      var v := c.reorderSteps.value;
      c.(reorderSteps := Some(v.(stepIds := Canonical(v.stepIds),
          stepResourceVersions := Canonical(v.stepResourceVersions))))
    case _ => c
  }

  lemma {:induction false} ActionsSurvive(actions: seq<Action>)
    ensures DecodeActions(EncodeActions(actions)) == actions
  {
    if actions != [] {
      var n := |actions| - 1;
      ActionsSurvive(actions[..n]);
      assert EncodeActions(actions)[..n] == EncodeActions(actions[..n]);
      assert actions == actions[..n] + [actions[n]];
    }
  }

  lemma ActionSliceSurvives(s: Slice<Action>)
    ensures AppendToNil(DecodeActions(AppendToNil(EncodeActions(s.Elements())).Elements())) == Canonical(s)
  {
    ActionsSurvive(s.Elements());
    assert AppendToNil(EncodeActions(s.Elements())).Elements() == EncodeActions(s.Elements());
  }

  lemma StepSurvives(v: StepConfiguration)
    ensures DecodeStep(Some(EncodeStep(v))) == NormalStep(v)
  {
    ActionSliceSurvives(v.onTurnStartActions);
    ActionSliceSurvives(v.onTurnCompleteActions);
  }

  /** Decoding an encoded command gives the command back, up to nil versus empty slices. */
  lemma DecodeUndoesEncode(c: Command)
    requires ExactlyOne(Present(c))
    ensures Carries(Encoded(c).operation)
    ensures Decoded(Encoded(c)) == Normal(c)
  {
    OnesIsOneIff(c);
    if c.createStep.Some? { StepSurvives(c.createStep.value.configuration); }
    if c.updateStep.Some? { StepSurvives(c.updateStep.value.configuration); }
  }

  // ----- Normalisation of requests

  function Normalised(r: Request): Request
    requires Carries(r.operation)
  {
    Encoded(Decoded(r))
  }

  predicate CanonicalSlice<T>(s: Slice<T>) {
    s.Elements() == [] ==> s.Nil?
  }

  predicate CanonicalActions(s: Slice<Option<ActionMessage>>) {
    CanonicalSlice(s) && None !in s.Elements()
  }

  predicate CanonicalStep(m: Option<StepConfigurationMessage>) {
    m.Some? && CanonicalSlice(m.value.onEnterActionTypes)
    && CanonicalActions(m.value.onTurnStartActions) && CanonicalActions(m.value.onTurnCompleteActions)
  }

  /** Requests that already say everything outright: nested messages present, no nil list element,
      no empty list that is not nil. */
  predicate CanonicalRequest(r: Request)
    requires Carries(r.operation)
  {
    match r.operation
    case WorkflowCreation(m) => m.value.configuration.Some?
    case WorkflowReordering(m) => CanonicalSlice(m.value.workflowIds)
        && CanonicalSlice(m.value.workflowResourceVersions)
    case StepCreation(m) => CanonicalStep(m.value.configuration)
    case StepUpdating(m) => CanonicalStep(m.value.configuration)
    case StepReordering(m) => CanonicalSlice(m.value.stepIds) && CanonicalSlice(m.value.stepResourceVersions)
    case _ => true
  }

  lemma {:induction false} ActionsFixedIff(messages: seq<Option<ActionMessage>>)
    ensures |DecodeActions(messages)| <= |messages|
    ensures EncodeActions(DecodeActions(messages)) == messages <==> None !in messages
  {
    if messages != [] {
      var n := |messages| - 1;
      var init, last := messages[..n], messages[n];
      ActionsFixedIff(init);
      assert messages == init + [last];
      if last.Some? {
        var d := DecodeActions(init);
        var e := EncodeActions(DecodeActions(messages));
        assert e == EncodeActions(d) + [last];
        if e == messages {
          assert |d| == n;
          assert EncodeActions(d) == e[..n];
        }
      } else {
        assert |EncodeActions(DecodeActions(messages))| < |messages|;
      }
    }
  }

  /** An action list, decoded and encoded again. */
  function Recoded(s: Slice<Option<ActionMessage>>): Slice<Option<ActionMessage>> {
    AppendToNil(EncodeActions(AppendToNil(DecodeActions(s.Elements())).Elements()))
  }

  lemma ActionSliceFixedIff(s: Slice<Option<ActionMessage>>)
    ensures Recoded(s) == s <==> CanonicalActions(s)
  {
    ActionsFixedIff(s.Elements());
    assert AppendToNil(DecodeActions(s.Elements())).Elements() == DecodeActions(s.Elements());
  }

  lemma NameSliceFixedIff(s: Slice<string>)
    ensures AppendToNil(AppendToNil(s.Elements()).Elements()) == s <==> CanonicalSlice(s)
  {}

  /** Only the lists of a step can change. */
  lemma StepRecoded(m: StepConfigurationMessage)
    ensures EncodeStep(DecodeStep(Some(m))) ==
            m.(onEnterActionTypes := AppendToNil(AppendToNil(m.onEnterActionTypes.Elements()).Elements()),
               onTurnStartActions := Recoded(m.onTurnStartActions),
               onTurnCompleteActions := Recoded(m.onTurnCompleteActions))
  {}

  lemma StepFixedIff(m: Option<StepConfigurationMessage>)
    ensures Some(EncodeStep(DecodeStep(m))) == m <==> CanonicalStep(m)
  {
    if m.Some? {
      StepRecoded(m.value);
      NameSliceFixedIff(m.value.onEnterActionTypes);
      ActionSliceFixedIff(m.value.onTurnStartActions);
      ActionSliceFixedIff(m.value.onTurnCompleteActions);
    }
  }

  lemma DecodedStepIsNormal(m: Option<StepConfigurationMessage>)
    ensures NormalStep(DecodeStep(m)) == DecodeStep(m)
  {
  }

  /** A decoded command has exactly one operation, and its slices are canonical already. */
  lemma DecodedIsNormal(r: Request)
    requires Carries(r.operation)
    ensures ExactlyOne(Present(Decoded(r)))
    ensures Normal(Decoded(r)) == Decoded(r)
  {
    FilledHasOneIff(r);
    OnesIsOneIff(Decoded(r));
    match r.operation
    case StepCreation(m) => DecodedStepIsNormal(m.value.configuration);
    case StepUpdating(m) => DecodedStepIsNormal(m.value.configuration);
    case _ =>
  }

  /** Decode-then-encode keeps a request's meaning, is idempotent, and leaves exactly the canonical
      requests alone. */
  lemma NormalisationIsIdempotent(r: Request)
    requires Carries(r.operation)
    ensures ExactlyOne(Present(Decoded(r)))
    ensures Carries(Normalised(r).operation)
    ensures Decoded(Normalised(r)) == Decoded(r)
    ensures Normalised(Normalised(r)) == Normalised(r)
    ensures Normalised(r) == r <==> CanonicalRequest(r)
    ensures CanonicalRequest(Normalised(r))
  {
    DecodedIsNormal(r);
    DecodeUndoesEncode(Decoded(r));
    FixedIffCanonical(r);
    FixedIffCanonical(Normalised(r));
  }

  lemma FixedIffCanonical(r: Request)
    requires Carries(r.operation)
    ensures Normalised(r) == r <==> CanonicalRequest(r)
  {
    match r.operation
    case StepCreation(m) => StepFixedIff(m.value.configuration);
    case StepUpdating(m) => StepFixedIff(m.value.configuration);
    case _ =>
  }

  // ----- Fields and normal forms

  /** Message `i` is present and says what action `i` says. */
  predicate SameActions(actions: seq<Action>, messages: seq<Option<ActionMessage>>) {
    && |actions| == |messages|
    && forall i | 0 <= i < |actions| ::
         && messages[i].Some?
         && messages[i].value.kind == actions[i].kind && messages[i].value.targetStepId == actions[i].targetStepId
  }

  /** The messages that are present, in order. */
  function NotNil(messages: seq<Option<ActionMessage>>): seq<Option<ActionMessage>> {
    if messages == [] then []
    else (if messages[0].Some? then [messages[0]] else []) + NotNil(messages[1..])
  }

  lemma {:induction false} NotNilNext(messages: seq<Option<ActionMessage>>, last: Option<ActionMessage>)
    ensures NotNil(messages + [last]) == NotNil(messages) + (if last.Some? then [last] else [])
  {
    if messages == [] {
      assert [last][1..] == [] && [] + [last] == [last];
    } else {
      NotNilNext(messages[1..], last);
      assert (messages + [last])[1..] == messages[1..] + [last];
    }
  }

  /** Decoding keeps exactly the messages that are present, and encoding writes them back. */
  lemma {:induction false} DecodedActionsAre(messages: seq<Option<ActionMessage>>)
    ensures SameActions(DecodeActions(messages), NotNil(messages))
    ensures EncodeActions(DecodeActions(messages)) == NotNil(messages)
  {
    if messages != [] {
      var n := |messages| - 1;
      DecodedActionsAre(messages[..n]);
      NotNilNext(messages[..n], messages[n]);
      assert messages == messages[..n] + [messages[n]];
    }
  }

  /** DefaultsUpdate: every field travels under its own name. */
  lemma DefaultsUpdateFields(v: DefaultsUpdate, w: DefaultsMessage)
    ensures var m := EncodeDefaults(v);
            && m.expectedResourceVersion == v.expectedResourceVersion && m.name == v.name
            && m.description == v.description && m.defaultExecutorId == v.defaultExecutorId
            && m.defaultEnvironmentId == v.defaultEnvironmentId
            && m.defaultAgentProfileId == v.defaultAgentProfileId
            && m.defaultConfigAgentProfileId == v.defaultConfigAgentProfile
    ensures var m, v := w, DecodeDefaults(w);
            && m.expectedResourceVersion == v.expectedResourceVersion && m.name == v.name
            && m.description == v.description && m.defaultExecutorId == v.defaultExecutorId
            && m.defaultEnvironmentId == v.defaultEnvironmentId
            && m.defaultAgentProfileId == v.defaultAgentProfileId
            && m.defaultConfigAgentProfileId == v.defaultConfigAgentProfile
  {}

  /** WorkflowUpdate: every field travels under its own name. */
  lemma WorkflowUpdateFields(v: WorkflowUpdate, w: WorkflowUpdateMessage)
    ensures var m := EncodeWorkflowUpdate(v);
            && m.workflowId == v.workflowId && m.expectedResourceVersion == v.expectedResourceVersion
            && m.name == v.name && m.description == v.description && m.prompt == v.prompt
            && m.agentProfileId == v.agentProfileId
    ensures var m, v := w, DecodeWorkflowUpdate(w);
            && m.workflowId == v.workflowId && m.expectedResourceVersion == v.expectedResourceVersion
            && m.name == v.name && m.description == v.description && m.prompt == v.prompt
            && m.agentProfileId == v.agentProfileId
  {}

  /** RepositoryRegister: every field travels under its own name. */
  lemma RepositoryRegisterFields(v: RepositoryRegister, w: RepositoryRegisterMessage)
    ensures var m := EncodeRegister(v);
            && m.expectedWorkspaceResourceVersion == v.expectedWorkspaceResourceVersion && m.name == v.name
            && m.sourceType == v.sourceType && m.localPath == v.localPath && m.provider == v.provider
            && m.providerRepositoryId == v.providerRepoId && m.providerHost == v.providerHost
            && m.providerScope == v.providerScope && m.providerOwner == v.providerOwner
            && m.providerName == v.providerName && m.remoteUrl == v.remoteUrl && m.defaultBranch == v.defaultBranch
            && m.worktreeBranchPrefix == v.worktreeBranchPrefix
            && m.worktreeBranchTemplate == v.worktreeBranchTemplate && m.pullBeforeWorktree == v.pullBeforeWorktree
    ensures var m, v := w, DecodeRegister(w);
            && m.expectedWorkspaceResourceVersion == v.expectedWorkspaceResourceVersion && m.name == v.name
            && m.sourceType == v.sourceType && m.localPath == v.localPath && m.provider == v.provider
            && m.providerRepositoryId == v.providerRepoId && m.providerHost == v.providerHost
            && m.providerScope == v.providerScope && m.providerOwner == v.providerOwner
            && m.providerName == v.providerName && m.remoteUrl == v.remoteUrl && m.defaultBranch == v.defaultBranch
            && m.worktreeBranchPrefix == v.worktreeBranchPrefix
            && m.worktreeBranchTemplate == v.worktreeBranchTemplate && m.pullBeforeWorktree == v.pullBeforeWorktree
  {}

  /** RepositoryUpdate: every field travels under its own name. */
  lemma RepositoryUpdateFields(v: RepositoryUpdate, w: RepositoryUpdateMessage)
    ensures var m := EncodeRepositoryUpdate(v);
            && m.repositoryId == v.repositoryId && m.expectedResourceVersion == v.expectedResourceVersion
            && m.name == v.name && m.defaultBranch == v.defaultBranch
            && m.worktreeBranchPrefix == v.worktreeBranchPrefix
            && m.worktreeBranchTemplate == v.worktreeBranchTemplate && m.pullBeforeWorktree == v.pullBeforeWorktree
    ensures var m, v := w, DecodeRepositoryUpdate(w);
            && m.repositoryId == v.repositoryId && m.expectedResourceVersion == v.expectedResourceVersion
            && m.name == v.name && m.defaultBranch == v.defaultBranch
            && m.worktreeBranchPrefix == v.worktreeBranchPrefix
            && m.worktreeBranchTemplate == v.worktreeBranchTemplate && m.pullBeforeWorktree == v.pullBeforeWorktree
  {}

  /** A step's plain fields travel under their own names, and so do its lists, element by element. */
  lemma StepFields(v: StepConfiguration, w: StepConfigurationMessage)
    ensures var m := EncodeStep(v);
            && m.id == v.id && m.workflowId == v.workflowId && m.name == v.name && m.position == v.position
            && m.stageType == v.stageType && m.color == v.color && m.prompt == v.prompt
            && m.allowManualMove == v.allowManualMove && m.isStartStep == v.isStartStep
            && m.showInCommandPanel == v.showInCommandPanel && m.autoArchiveAfterHours == v.autoArchiveAfterHours
            && m.agentProfileId == v.agentProfileId && m.profileSessionStartPolicy == v.profileSessionStartPolicy
            && m.profileSessionEndPolicy == v.profileSessionEndPolicy && m.wipLimit == v.wipLimit
            && m.pullFromStepId == v.pullFromStepId && m.autoAdvanceRequiresSignal == v.autoAdvanceRequiresSignal
            && m.cancelTriggersTurnComplete == v.cancelTriggersTurnComplete
            && m.completeTaskOnEnter == v.completeTaskOnEnter
            && m.onEnterActionTypes.Elements() == v.onEnterActionTypes.Elements()
            && SameActions(v.onTurnStartActions.Elements(), m.onTurnStartActions.Elements())
            && SameActions(v.onTurnCompleteActions.Elements(), m.onTurnCompleteActions.Elements())
    ensures var m, v := w, DecodeStep(Some(w));
            && m.id == v.id && m.workflowId == v.workflowId && m.name == v.name && m.position == v.position
            && m.stageType == v.stageType && m.color == v.color && m.prompt == v.prompt
            && m.allowManualMove == v.allowManualMove && m.isStartStep == v.isStartStep
            && m.showInCommandPanel == v.showInCommandPanel && m.autoArchiveAfterHours == v.autoArchiveAfterHours
            && m.agentProfileId == v.agentProfileId && m.profileSessionStartPolicy == v.profileSessionStartPolicy
            && m.profileSessionEndPolicy == v.profileSessionEndPolicy && m.wipLimit == v.wipLimit
            && m.pullFromStepId == v.pullFromStepId && m.autoAdvanceRequiresSignal == v.autoAdvanceRequiresSignal
            && m.cancelTriggersTurnComplete == v.cancelTriggersTurnComplete
            && m.completeTaskOnEnter == v.completeTaskOnEnter
            && m.onEnterActionTypes.Elements() == v.onEnterActionTypes.Elements()
            && SameActions(v.onTurnStartActions.Elements(), NotNil(m.onTurnStartActions.Elements()))
            && SameActions(v.onTurnCompleteActions.Elements(), NotNil(m.onTurnCompleteActions.Elements()))
  {
    DecodedActionsAre(w.onTurnStartActions.Elements());
    DecodedActionsAre(w.onTurnCompleteActions.Elements());
  }

  /** The remaining messages: creating and reordering. */
  lemma OtherFields(
    c: WorkflowCreate, cm: WorkflowCreateMessage, o: WorkflowReorder, om: WorkflowReorderMessage,
    s: StepReorder, sm: StepReorderMessage)
    ensures EncodeWorkflowCreate(c) ==
            WorkflowCreateMessage(
              c.expectedWorkspaceResourceVersion, Some(WorkflowConfig(c.name, c.description, c.prompt)))
    ensures DecodeWorkflowCreate(cm) ==
            if cm.configuration.None? then WorkflowCreate(cm.expectedWorkspaceResourceVersion, "", "", "")
            else
              WorkflowCreate(cm.expectedWorkspaceResourceVersion, cm.configuration.value.name,
                             cm.configuration.value.description, cm.configuration.value.prompt)
    ensures EncodeWorkflowReorder(o) ==
            WorkflowReorderMessage(o.expectedWorkspaceResourceVersion, o.workflowIds, o.workflowResourceVersions)
    ensures DecodeWorkflowReorder(om) ==
            WorkflowReorder(om.expectedWorkspaceResourceVersion, Canonical(om.workflowIds),
                            Canonical(om.workflowResourceVersions))
    ensures EncodeStepReorder(s) ==
            StepReorderMessage(s.workflowId, s.expectedWorkflowResourceVersion, s.stepIds, s.stepResourceVersions)
    ensures DecodeStepReorder(sm) ==
            StepReorder(sm.workflowId, sm.expectedWorkflowResourceVersion, Canonical(sm.stepIds),
                        Canonical(sm.stepResourceVersions))
  {}

  /** A step message with nothing left out: a missing one is the zero step, missing actions are
      dropped, and empty lists are nil. */
  function FullStep(m: Option<StepConfigurationMessage>): StepConfigurationMessage {
    if m.None? then
      StepConfigurationMessage(
        "", "", "", 0, "", "", "", false, false, false, 0, "", "", "", 0, "", false, false, false, Nil, Nil, Nil)
    else
      m.value.(onEnterActionTypes := Canonical(m.value.onEnterActionTypes),
               onTurnStartActions := AppendToNil(NotNil(m.value.onTurnStartActions.Elements())),
               onTurnCompleteActions := AppendToNil(NotNil(m.value.onTurnCompleteActions.Elements())))
  }

  lemma StepIsFull(m: Option<StepConfigurationMessage>)
    ensures EncodeStep(DecodeStep(m)) == FullStep(m)
  {
    if m.Some? {
      SomeStepIsFull(m.value);
    }
  }

  lemma RecodedActionsAre(s: Slice<Option<ActionMessage>>)
    ensures Recoded(s) == AppendToNil(NotNil(s.Elements()))
  {
    DecodedActionsAre(s.Elements());
    assert AppendToNil(DecodeActions(s.Elements())).Elements() == DecodeActions(s.Elements());
  }

  lemma RecodedNamesAre(s: Slice<string>)
    ensures AppendToNil(AppendToNil(s.Elements()).Elements()) == Canonical(s)
  {}

  lemma SomeStepIsFull(w: StepConfigurationMessage)
    ensures EncodeStep(DecodeStep(Some(w))) == FullStep(Some(w))
  {
    StepRecoded(w);
    RecodedNamesAre(w.onEnterActionTypes);
    RecodedActionsAre(w.onTurnStartActions);
    RecodedActionsAre(w.onTurnCompleteActions);
  }

  /** The normal form of a request, written on the wire. */
  function Full(o: Operation): Operation
    requires Carries(o)
  {
    match o
    case WorkflowCreation(m) =>
      if m.value.configuration.Some? then o
      else WorkflowCreation(Some(m.value.(configuration := Some(WorkflowConfig("", "", "")))))
    case WorkflowReordering(m) =>
      WorkflowReordering(Some(m.value.(workflowIds := Canonical(m.value.workflowIds),
                                       workflowResourceVersions := Canonical(m.value.workflowResourceVersions))))
    case StepCreation(m) => StepCreation(Some(m.value.(configuration := Some(FullStep(m.value.configuration)))))
    case StepUpdating(m) => StepUpdating(Some(m.value.(configuration := Some(FullStep(m.value.configuration)))))
    case StepReordering(m) =>
      StepReordering(Some(m.value.(stepIds := Canonical(m.value.stepIds),
                                   stepResourceVersions := Canonical(m.value.stepResourceVersions))))
    case _ => o
  }

  /** Decoding and encoding again writes out exactly what a request leaves unsaid. */
  lemma NormalisationIsFull(r: Request)
    requires Carries(r.operation)
    ensures Normalised(r) == r.(operation := Full(r.operation))
  {
    match r.operation
    case StepCreation(m) => StepIsFull(m.value.configuration);
    case StepUpdating(m) => StepIsFull(m.value.configuration);
    case _ =>
  }
}
