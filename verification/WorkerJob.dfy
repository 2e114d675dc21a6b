/** A job of the worker pool: however often it is submitted, it waits in the queue at most once,
    and a submission made while it runs makes it run once more. */
module WorkerJob {

  datatype JobState = IDLE | SUBMITTED | EXECUTING | RESUBMIT

  /** A submission: compare-and-exchange from EXECUTING, then from IDLE. */
  function Submitted(s: JobState): JobState {
    match s
    case EXECUTING => RESUBMIT
    case IDLE => SUBMITTED
    case _ => s
  }

  /** A worker thread takes the job from the queue. */
  function Started(s: JobState): JobState {
    if s == SUBMITTED then EXECUTING else s
  }

  /** The worker thread is done with it. */
  function Finished(s: JobState): JobState {
    match s
    case EXECUTING => IDLE
    case RESUBMIT => SUBMITTED
    case _ => s
  }
}
