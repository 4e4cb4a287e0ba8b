/** The status of a task (src/agent/task.rs). */
module TaskStatus {
  datatype Status = Pending | Running | Done | Failed | PartialBudgetOverdraw | TooComplex

  function StatusText(status: Status): string {
    match status
    case Pending => "pending"
    case Running => "running"
    case Done => "done"
    case Failed => "failed"
    case PartialBudgetOverdraw => "partial_budget_overdraw"
    case TooComplex => "too_complex"
  }
}
