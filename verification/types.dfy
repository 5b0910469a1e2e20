/** The entities of types/index.ts, restricted to the fields the workflow logic reads or writes. */
module Types {

  /** An optional field (`field?: T` in the source, `undefined` when absent). */
  datatype Option<T> = None | Some(value: T)

  /** A `Date`, as the milliseconds since the epoch it holds. Every Date object is
      truthy, so "has a timestamp" is exactly "the field is present". */
  type Time = int

  datatype Priority = Low | Medium | High

  datatype StepStatus = NotStarted | InProgress | Completed | Blocked | Approved

  datatype ProcessStatus = Draft | Active | Archived

  /** The part of a workflow step that the builders edit before it has an identity
      (`Omit<WorkflowStep, 'id' | 'completed'>`). */
  datatype StepData = StepData(
    title: string,
    order: int,
    priority: Option<Priority>,
    estimatedTime: Option<int>)

  /** A workflow step: its builder data plus identity and progress. `status` is absent
      on the steps a task form creates and present on those a process form creates. */
  datatype Step = Step(
    id: string,
    data: StepData,
    completed: bool,
    status: Option<StepStatus>)

  /** What the task form hands to the page (`Omit<Task, 'id' | 'createdAt'>`). */
  datatype TaskDraft = TaskDraft(
    title: string,
    description: Option<string>,
    workflow: seq<Step>)

  datatype Task = Task(
    id: string,
    title: string,
    description: Option<string>,
    workflow: seq<Step>,
    createdAt: Time,
    completedAt: Option<Time>)

  /** A business process as the process form submits it and the process card shows it. */
  datatype Process = Process(
    name: string,
    description: Option<string>,
    department: string,
    owner: string,
    category: string,
    priority: Priority,
    status: ProcessStatus,
    version: string,
    stakeholders: seq<string>,
    objectives: seq<string>,
    tags: seq<string>,
    workflow: seq<Step>)
}
