/**
 * Runs of the manager: a sequence of requests and completion callbacks,
 * each one atomic step. What holds over whole runs: the dedup map never
 * forgets or rewrites a url, a url is handed to the download pool at most
 * once, and runs whose executors report only the tasks they were given
 * keep the tables coherent with the tasks still live.
 */
module Traces {
  import opened Tasks
  import opened Bookkeeping
  import opened Accounting

  /** One call into the manager. */
  datatype Request =
    | DownloadReq(session: Option<Session>, url: string, output: string, mtime: int, defaultFile: string)
    | ConvertMp3Req(session: Option<Session>, pcmPath: string, mp3Path: string, mtime: int)
    | ConvertPdfReq(session: Option<Session>, htmlPath: string, pdfPath: string)
    | CompleteReq(pool: Pool, task: Task, succeeded: bool)

  /** The download executor reports only downloads. */
  predicate WellFormed(req: Request)
  {
    req.CompleteReq? && req.pool == DownloadPool ==> req.task.work.DownloadTask?
  }

  predicate AllWellFormed(reqs: seq<Request>)
  {
    forall i :: 0 <= i < |reqs| ==> WellFormed(reqs[i])
  }

  /** The tables after one call. */
  function Step(t: Tables, req: Request): Tables
    requires WellFormed(req)
  {
    match req
    case DownloadReq(session, url, output, mtime, defaultFile) => Download(t, session, url, output, mtime, defaultFile).after
    case ConvertMp3Req(session, pcmPath, mp3Path, mtime) => ConvertMp3(t, session, pcmPath, mp3Path, mtime).after
    case ConvertPdfReq(session, htmlPath, pdfPath) => ConvertPdf(t, session, htmlPath, pdfPath).after
    case CompleteReq(pool, task, _) => OnTaskComplete(t, pool, task).after
  }

  /** Everything one call hands to the executors. */
  function StepSubmissions(t: Tables, req: Request): set<Submission>
    requires WellFormed(req)
  {
    match req
    case DownloadReq(session, url, output, mtime, defaultFile) =>
      var e := Download(t, session, url, output, mtime, defaultFile);
      set i | 0 <= i < |e.submitted| :: e.submitted[i]
    case ConvertMp3Req(session, pcmPath, mp3Path, mtime) =>
      var e := ConvertMp3(t, session, pcmPath, mp3Path, mtime);
      set i | 0 <= i < |e.submitted| :: e.submitted[i]
    case ConvertPdfReq(session, htmlPath, pdfPath) =>
      var e := ConvertPdf(t, session, htmlPath, pdfPath);
      set i | 0 <= i < |e.submitted| :: e.submitted[i]
    case CompleteReq(pool, task, _) =>
      var r := OnTaskComplete(t, pool, task);
      (set c | c in r.copies :: Submission(CopyPool, c))
        + (if r.pdf.Some? then {Submission(PdfPool, r.pdf.value)} else {})
  }

  /** Some submission hands a download of `u` to the download pool. */
  ghost predicate SubmitsDownloadOf(subs: set<Submission>, u: string)
  {
    exists x :: x in subs && x.pool == DownloadPool && x.task.work.DownloadTask? && x.task.work.url == u
  }

  /** The tables after a run. */
  function Run(t: Tables, reqs: seq<Request>): Tables
    requires AllWellFormed(reqs)
    decreases |reqs|
  {
    if reqs == [] then t else Run(Step(t, reqs[0]), reqs[1..])
  }

  /** How many calls of a run hand a download of `u` to the download pool. */
  ghost function DownloadsOf(t: Tables, reqs: seq<Request>, u: string): nat
    requires AllWellFormed(reqs)
    decreases |reqs|
  {
    if reqs == [] then 0
    else (if SubmitsDownloadOf(StepSubmissions(t, reqs[0]), u) then 1 else 0) + DownloadsOf(Step(t, reqs[0]), reqs[1..], u)
  }

  /** A call hands a download of `u` to the download pool only for a url not yet recorded, and then records it. */
  lemma StepDownloads(t: Tables, req: Request, u: string)
    requires WellFormed(req)
    ensures u in t.downloadTasks ==> u in Step(t, req).downloadTasks && Step(t, req).downloadTasks[u] == t.downloadTasks[u]
    ensures SubmitsDownloadOf(StepSubmissions(t, req), u) ==> u !in t.downloadTasks && u in Step(t, req).downloadTasks
  {
    if SubmitsDownloadOf(StepSubmissions(t, req), u) {
      var x :| x in StepSubmissions(t, req) && x.pool == DownloadPool && x.task.work.DownloadTask? && x.task.work.url == u;
    }
  }

  /** The output recorded for a url is never removed nor replaced. */
  lemma {:induction false} RecordedOutputIsPermanent(t: Tables, reqs: seq<Request>, u: string)
    requires AllWellFormed(reqs)
    requires u in t.downloadTasks
    ensures u in Run(t, reqs).downloadTasks && Run(t, reqs).downloadTasks[u] == t.downloadTasks[u]
    decreases |reqs|
  {
    if reqs != [] {
      StepDownloads(t, reqs[0], u);
      RecordedOutputIsPermanent(Step(t, reqs[0]), reqs[1..], u);
    }
  }

  /** Over any run a url is handed to the download pool at most once, and never once it is recorded. */
  lemma {:induction false} AtMostOneDownloadPerUrl(t: Tables, reqs: seq<Request>, u: string)
    requires AllWellFormed(reqs)
    ensures DownloadsOf(t, reqs, u) <= (if u in t.downloadTasks then 0 else 1)
    decreases |reqs|
  {
    if reqs != [] {
      var t' := Step(t, reqs[0]);
      StepDownloads(t, reqs[0], u);
      AtMostOneDownloadPerUrl(t', reqs[1..], u);
    }
  }

  /** Every run keeps the structural invariant of the tables. */
  lemma {:induction false} RunKeepsValid(t: Tables, reqs: seq<Request>)
    requires AllWellFormed(reqs) && Valid(t)
    ensures Valid(Run(t, reqs))
    decreases |reqs|
  {
    if reqs != [] {
      RunKeepsValid(Step(t, reqs[0]), reqs[1..]);
    }
  }

  // ---------------------------------------------------------------------
  // Live tasks over a run
  // ---------------------------------------------------------------------

  /** The live tasks after one call: a created download, copy or mp3 task joins, a completed one leaves. */
  function LiveAfter(t: Tables, live: set<Task>, req: Request): set<Task>
    requires WellFormed(req)
  {
    match req
    case DownloadReq(session, url, output, mtime, defaultFile) =>
      if Download(t, session, url, output, mtime, defaultFile) == Effect(t, []) then live
      else live + {RequestedTask(t, session, url, output, mtime, defaultFile)}
    case ConvertMp3Req(session, pcmPath, mp3Path, mtime) =>
      if session.None? then live else live + {Task(t.nextId, session, Mp3Task(pcmPath, mp3Path, mtime))}
    case ConvertPdfReq(_, _, _) => live
    case CompleteReq(pool, task, _) => if pool == PdfPool then live else live - {task}
  }

  /** Every completion of the run reports a task its executor was given and has not reported yet. */
  ghost predicate GenuineRun(t: Tables, live: set<Task>, reqs: seq<Request>)
    requires AllWellFormed(reqs)
    decreases |reqs|
  {
    reqs != [] ==>
      && (reqs[0].CompleteReq? ==> Genuine(t, live, reqs[0].pool, reqs[0].task))
      && GenuineRun(Step(t, reqs[0]), LiveAfter(t, live, reqs[0]), reqs[1..])
  }

  /** The live tasks after a run. */
  function LiveRun(t: Tables, live: set<Task>, reqs: seq<Request>): set<Task>
    requires AllWellFormed(reqs)
    decreases |reqs|
  {
    if reqs == [] then live else LiveRun(Step(t, reqs[0]), LiveAfter(t, live, reqs[0]), reqs[1..])
  }

  lemma StepKeepsCoherent(t: Tables, live: set<Task>, req: Request)
    requires WellFormed(req) && Coherent(t, live)
    requires req.CompleteReq? ==> Genuine(t, live, req.pool, req.task)
    ensures Coherent(Step(t, req), LiveAfter(t, live, req))
  {
    match req
    case DownloadReq(session, url, output, mtime, defaultFile) =>
      DownloadKeepsCoherent(t, live, session, url, output, mtime, defaultFile);
    case ConvertMp3Req(session, pcmPath, mp3Path, mtime) =>
      ConvertMp3KeepsCoherent(t, live, session, pcmPath, mp3Path, mtime);
    case ConvertPdfReq(session, htmlPath, pdfPath) =>
      ConvertPdfKeepsCoherent(t, live, session, htmlPath, pdfPath);
    case CompleteReq(pool, task, _) =>
      CompleteKeepsCoherent(t, live, pool, task);
  }

  /**
   * A genuine run keeps the tables coherent with the live tasks: in
   * particular every session's count is the number of its live tasks
   * whatever order the executors complete them in.
   */
  lemma {:induction false} RunKeepsCoherent(t: Tables, live: set<Task>, reqs: seq<Request>)
    requires AllWellFormed(reqs) && Coherent(t, live) && GenuineRun(t, live, reqs)
    ensures Coherent(Run(t, reqs), LiveRun(t, live, reqs))
    decreases |reqs|
  {
    if reqs != [] {
      StepKeepsCoherent(t, live, reqs[0]);
      RunKeepsCoherent(Step(t, reqs[0]), LiveAfter(t, live, reqs[0]), reqs[1..]);
    }
  }

  /** From a new manager, every genuine run ends coherent. */
  lemma FromEmptyCoherent(reqs: seq<Request>)
    requires AllWellFormed(reqs) && GenuineRun(Empty, {}, reqs)
    ensures Coherent(Run(Empty, reqs), LiveRun(Empty, {}, reqs))
  {
    EmptyIsCoherent();
    RunKeepsCoherent(Empty, {}, reqs);
  }
}
