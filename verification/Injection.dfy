/** What the harness sends and how the remote classifies it. */
module Injection {
  import opened Common
  import opened History

  datatype Class = Accepted | Forwarded | Rejected | Queued | Partial | Indeterminate

  /** The result of an injection: a class with a status code, or an error. */
  datatype Result = Result(class_: Option<Class>, error: bool)

  const FAILED := Result(None, true)

  /** One planned alert. `episodeOffset` is set for named sources; an instant of 0 is the zero time. */
  datatype Alert = Alert(source: string, name: string, status: Status, labels: Labels, delay: int,
                         episodeOffset: Option<int>,
                         startsAt: int, endsAt: int)

  datatype Cleanup = Clean | Dirty | NotRequired | UnknownCleanup
}
