/** Results and the structured error values of the migration package. */
module Errors {
  import opened Keys

  datatype Option<+T> = None | Some(value: T)

  datatype Result<+T, +E> = Success(value: T) | Failure(error: E)

  datatype Category =
    | StateCategory | CapabilityCategory | ExecutionCategory | RecorderCategory
    | TransactionCategory | PlanCategory | HistoryCategory | GraphCategory

  datatype Code =
    | InvalidState | Unsupported | OperationFailed | RecordFailed | BeginFailed | CommitFailed
    | InvalidNode | DuplicateNode | InvalidDependency | DuplicateDependency | DependencyNotFound | DependencyCycle
    | InvalidAppliedState | DuplicateApplied | InconsistentAppliedHistory
    | InvalidTarget | TargetNotFound | InvalidExecutionPlan | MixedDirections

  datatype PlanningError =
    PlanningError(category: Category, code: Code, node: Key, related: Key, members: seq<Key>)
}
