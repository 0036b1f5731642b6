/**
 * The bookkeeping of the task manager as pure functions over its five
 * tables. Each request (download, convertMp3, convertPdf) and each
 * completion callback is one atomic transition from the tables before to
 * the tables after, together with what it hands to the executors.
 */
module Bookkeeping {
  import opened Tasks

  /** The five tables of the manager and the task-id counter. */
  datatype Tables = Tables(
    downloadTasks: map<string, string>,      // url -> output of its first request; never shrinks
    downloadingTasks: map<string, TaskId>,   // url -> id of its download while that is in flight
    copyTaskQueue: map<TaskId, set<Task>>,   // download id -> copy tasks waiting for it
    sessionTaskCount: map<Session, nat>,     // session -> download, copy and mp3 tasks not yet done
    pdfTaskQueue: map<Session, Task>,        // session -> pdf task held back
    nextId: TaskId)                          // the next id the counter hands out

  /** The tables of a freshly constructed manager. */
  const Empty: Tables := Tables(map[], map[], map[], map[], map[], 0)

  /** A request's new tables and the submissions it makes, in order. */
  datatype Effect = Effect(after: Tables, submitted: seq<Submission>)

  /** A completion's new tables, the copy tasks it releases and the pdf task it releases. */
  datatype Release = Release(after: Tables, copies: set<Task>, pdf: Option<Task>)

  /** The count of a session, an absent entry reading as zero. */
  function CountOf(counts: map<Session, nat>, s: Session): nat
  {
    if s in counts then counts[s] else 0
  }

  /** The copy tasks queued under a download id, none when the id is absent. */
  function QueuedCopies(queue: map<TaskId, set<Task>>, id: TaskId): set<Task>
  {
    if id in queue then queue[id] else {}
  }

  /** The invariant every reachable state of the tables keeps. */
  ghost predicate Valid(t: Tables)
  {
    // a url can only be in flight after its first request recorded it
    && t.downloadingTasks.Keys <= t.downloadTasks.Keys
    // every id stored in a table was handed out already
    && (forall u :: u in t.downloadingTasks ==> t.downloadingTasks[u] < t.nextId)
    && (forall k :: k in t.copyTaskQueue ==> k < t.nextId)
    && (forall k, c :: k in t.copyTaskQueue && c in t.copyTaskQueue[k] ==> c.work.CopyTask? && c.id < t.nextId)
    // a pdf task is held back only while its own session still has work
    && (forall s :: s in t.pdfTaskQueue ==>
          && CountOf(t.sessionTaskCount, s) > 0
          && t.pdfTaskQueue[s].session == Some(s)
          && t.pdfTaskQueue[s].work.PdfTask?)
  }

  /** Everything but the session counts and the id counter is as before. */
  ghost predicate SameExceptCounts(t: Tables, t': Tables)
  {
    && t'.downloadTasks == t.downloadTasks
    && t'.downloadingTasks == t.downloadingTasks
    && t'.copyTaskQueue == t.copyTaskQueue
    && t'.pdfTaskQueue == t.pdfTaskQueue
  }

  // ---------------------------------------------------------------------
  // The three helpers the manager calls. Their bodies are not part of this
  // model; each is stated as its call sites use it.
  // ---------------------------------------------------------------------

  /**
   * The increment of download and convertMp3: a session gains one task,
   * starting from one when it has no entry; no session, no change.
   */
  function IncreaseSessionTask(counts: map<Session, nat>, session: Option<Session>): (r: map<Session, nat>)
    ensures forall s :: CountOf(r, s) == CountOf(counts, s) + (if session == Some(s) then 1 else 0)
    ensures session.None? ==> r == counts
  {
    match session
    case None => counts
    case Some(s) => if s !in counts then counts[s := 1] else counts[s := counts[s] + 1]
  }

  /**
   * decreaseSessionTask: the session loses one task and the new count is
   * returned. Assumed: no session, or a session without an entry, changes
   * nothing and yields 0; an entry is kept when it reaches 0, and one that
   * is 0 already stays 0.
   */
  function DecreaseSessionTask(counts: map<Session, nat>, session: Option<Session>): (r: (map<Session, nat>, nat))
    ensures r.0.Keys == counts.Keys
    ensures forall s :: CountOf(r.0, s) ==
                        (if session == Some(s) && CountOf(counts, s) > 0 then CountOf(counts, s) - 1 else CountOf(counts, s))
    ensures r.1 == if session.Some? then CountOf(r.0, session.value) else 0
  {
    match session
    case None => (counts, 0)
    case Some(s) =>
      if s !in counts then (counts, 0)
      else
        var n := if counts[s] > 0 then counts[s] - 1 else 0;
        (counts[s := n], n)
  }

  /** dequeueCopyTasks: removes and returns the set queued under a download id. */
  function DequeueCopyTasks(queue: map<TaskId, set<Task>>, id: TaskId): (r: (map<TaskId, set<Task>>, set<Task>))
    ensures r.0 == queue - {id}
    ensures r.1 == QueuedCopies(queue, id)
  {
    if id in queue then (queue - {id}, queue[id]) else (queue, {})
  }

  /**
   * dequeuePdfTasks: removes and returns the pdf task held for a session;
   * nothing for no session or a session with none held.
   */
  function DequeuePdfTasks(queue: map<Session, Task>, session: Option<Session>): (r: (map<Session, Task>, Option<Task>))
    ensures r.1.Some? <==> session.Some? && session.value in queue
    ensures r.1.Some? ==> r == (queue - {session.value}, Some(queue[session.value]))
    ensures r.1.None? ==> r.0 == queue
  {
    match session
    case None => (queue, None)
    case Some(s) => if s in queue then (queue - {s}, Some(queue[s])) else (queue, None)
  }

  // ---------------------------------------------------------------------
  // Requests
  // ---------------------------------------------------------------------

  /**
   * The task a download request creates when its output is not the one
   * recorded for its url: a copy from the recorded output when the url was
   * requested before, otherwise a download.
   */
  function RequestedTask(t: Tables, session: Option<Session>, url: string, output: string, mtime: int, defaultFile: string): Task
  {
    Task(t.nextId, session,
      if url in t.downloadTasks then CopyTask(t.downloadTasks[url], output)
      else DownloadTask(url, output, mtime, defaultFile))
  }

  /** download(session, url, output, mtime, defaultFile) */
  function Download(t: Tables, session: Option<Session>, url: string, output: string, mtime: int, defaultFile: string): (e: Effect)
    // a request whose output is the one recorded for its url does nothing, and only such a request;
    // a repeat of a request that became a copy is not one of them
    ensures (url in t.downloadTasks && t.downloadTasks[url] == output) <==> e == Effect(t, [])
    // the output recorded for a url is the one of its first request and is never replaced
    ensures url in t.downloadTasks ==> e.after.downloadTasks == t.downloadTasks
    ensures url !in t.downloadTasks ==> e.after.downloadTasks == t.downloadTasks[url := output]
    // a download is submitted exactly for a url never requested before, and is then in flight
    ensures url !in t.downloadTasks <==>
      e.submitted == [Submission(DownloadPool, Task(t.nextId, session, DownloadTask(url, output, mtime, defaultFile)))]
    ensures url !in t.downloadTasks && url !in t.downloadingTasks ==>
      e.after.downloadingTasks == t.downloadingTasks[url := t.nextId] && e.after.copyTaskQueue == t.copyTaskQueue
    // a url requested before with another output yields a copy from the recorded output,
    // deferred under the in-flight download's id or else submitted to the copy pool
    ensures url in t.downloadTasks && t.downloadTasks[url] != output ==>
      var c := Task(t.nextId, session, CopyTask(t.downloadTasks[url], output));
      && e.after.downloadingTasks == t.downloadingTasks
      && (url in t.downloadingTasks ==>
            var k := t.downloadingTasks[url];
            e.submitted == [] && e.after.copyTaskQueue == t.copyTaskQueue[k := QueuedCopies(t.copyTaskQueue, k) + {c}])
      && (url !in t.downloadingTasks ==>
            e.submitted == [Submission(CopyPool, c)] && e.after.copyTaskQueue == t.copyTaskQueue)
    // a created task takes the next id and adds one to its session's count
    ensures e != Effect(t, []) ==>
      && e.after.nextId == t.nextId + 1
      && forall s :: CountOf(e.after.sessionTaskCount, s) == CountOf(t.sessionTaskCount, s) + (if session == Some(s) then 1 else 0)
    ensures e.after.pdfTaskQueue == t.pdfTaskQueue
    ensures Valid(t) ==> Valid(e.after)
  {
    if url in t.downloadTasks && t.downloadTasks[url] == output then Effect(t, [])
    else
      var task := RequestedTask(t, session, url, output, mtime, defaultFile);
      var counts := IncreaseSessionTask(t.sessionTaskCount, session);
      if task.work.DownloadTask? then
        var t' := t.(downloadTasks := t.downloadTasks[url := output],
                     downloadingTasks := Insert(t.downloadingTasks, url, task.id),
                     sessionTaskCount := counts, nextId := t.nextId + 1);
        Effect(t', [Submission(DownloadPool, task)])
      else if url in t.downloadingTasks then
        var k := t.downloadingTasks[url];
        var t' := t.(copyTaskQueue := t.copyTaskQueue[k := QueuedCopies(t.copyTaskQueue, k) + {task}],
                     sessionTaskCount := counts, nextId := t.nextId + 1);
        Effect(t', [])
      else
        Effect(t.(sessionTaskCount := counts, nextId := t.nextId + 1), [Submission(CopyPool, task)])
  }

  /** convertMp3(session, pcmPath, mp3Path, mtime) */
  function ConvertMp3(t: Tables, session: Option<Session>, pcmPath: string, mp3Path: string, mtime: int): (e: Effect)
    // without a session the request is dropped, and only then
    ensures session.None? <==> e == Effect(t, [])
    // otherwise the task is counted for its session and submitted at once
    ensures session.Some? ==>
      && e.submitted == [Submission(Mp3Pool, Task(t.nextId, session, Mp3Task(pcmPath, mp3Path, mtime)))]
      && SameExceptCounts(t, e.after)
      && e.after.nextId == t.nextId + 1
      && forall s :: CountOf(e.after.sessionTaskCount, s) == CountOf(t.sessionTaskCount, s) + (if session == Some(s) then 1 else 0)
    ensures Valid(t) ==> Valid(e.after)
  {
    if session.None? then Effect(t, [])
    else
      var task := Task(t.nextId, session, Mp3Task(pcmPath, mp3Path, mtime));
      var t' := t.(sessionTaskCount := IncreaseSessionTask(t.sessionTaskCount, session), nextId := t.nextId + 1);
      Effect(t', [Submission(Mp3Pool, task)])
  }

  /**
   * convertPdf(session, htmlPath, pdfPath, converter). The pdf queue is a
   * map whose insert keeps an entry already there: a second pdf request for
   * a session whose first is still held back is dropped.
   */
  function ConvertPdf(t: Tables, session: Option<Session>, htmlPath: string, pdfPath: string): (e: Effect)
    // without a session the request is dropped, and only then
    ensures session.None? <==> e == Effect(t, [])
    ensures session.Some? ==>
      var s := session.value;
      var p := Task(t.nextId, session, PdfTask(htmlPath, pdfPath));
      && e.after.nextId == t.nextId + 1
      && e.after.sessionTaskCount == t.sessionTaskCount
      && e.after.downloadTasks == t.downloadTasks
      && e.after.downloadingTasks == t.downloadingTasks
      && e.after.copyTaskQueue == t.copyTaskQueue
      // submitted at once exactly when the session has no outstanding task
      && (CountOf(t.sessionTaskCount, s) == 0 <==> e.submitted == [Submission(PdfPool, p)])
      && (CountOf(t.sessionTaskCount, s) == 0 ==> e.after.pdfTaskQueue == t.pdfTaskQueue)
      // otherwise held back (unless one is held already) and nothing is submitted
      && (CountOf(t.sessionTaskCount, s) != 0 ==>
            && e.submitted == []
            && (s !in t.pdfTaskQueue ==> e.after.pdfTaskQueue == t.pdfTaskQueue[s := p])
            && (s in t.pdfTaskQueue ==> e.after.pdfTaskQueue == t.pdfTaskQueue))
    ensures Valid(t) ==> Valid(e.after)
  {
    if session.None? then Effect(t, [])
    else
      var s := session.value;
      var task := Task(t.nextId, session, PdfTask(htmlPath, pdfPath));
      if s in t.sessionTaskCount && t.sessionTaskCount[s] != 0 then
        Effect(t.(pdfTaskQueue := Insert(t.pdfTaskQueue, s, task), nextId := t.nextId + 1), [])
      else
        Effect(t.(nextId := t.nextId + 1), [Submission(PdfPool, task)])
  }

  // ---------------------------------------------------------------------
  // Completion
  // ---------------------------------------------------------------------

  /**
   * One task of `session` is done: its count goes down and, when it is
   * zero, the pdf task held for the session is taken out of the queue.
   */
  function FinishSessionTask(t: Tables, session: Option<Session>): (r: (Tables, Option<Task>))
  {
    var dec := DecreaseSessionTask(t.sessionTaskCount, session);
    var deq := if dec.1 == 0 then DequeuePdfTasks(t.pdfTaskQueue, session) else (t.pdfTaskQueue, None);
    (t.(sessionTaskCount := dec.0, pdfTaskQueue := deq.0), deq.1)
  }

  /**
   * onTaskComplete(pool, task, succeeded). Whether the task succeeded plays
   * no part, so it is not a parameter. A task reported by the download pool
   * is a download.
   */
  function OnTaskComplete(t: Tables, pool: Pool, task: Task): (r: Release)
    requires pool == DownloadPool ==> task.work.DownloadTask?
    // a finished pdf task changes nothing and releases nothing
    ensures pool == PdfPool ==> r == Release(t, {}, None)
    ensures r.after.downloadTasks == t.downloadTasks && r.after.nextId == t.nextId
    // a finished download leaves the in-flight map and releases exactly the copies queued under its id
    ensures pool == DownloadPool ==>
      && r.after.downloadingTasks == t.downloadingTasks - {task.work.url}
      && r.copies == QueuedCopies(t.copyTaskQueue, task.id)
      && r.after.copyTaskQueue == t.copyTaskQueue - {task.id}
    ensures pool != DownloadPool ==>
      && r.copies == {}
      && r.after.downloadingTasks == t.downloadingTasks
      && r.after.copyTaskQueue == t.copyTaskQueue
    // any other finished task takes one off its session's count
    ensures pool != PdfPool ==>
      forall s :: CountOf(r.after.sessionTaskCount, s) ==
                    (if task.session == Some(s) && CountOf(t.sessionTaskCount, s) > 0
                     then CountOf(t.sessionTaskCount, s) - 1 else CountOf(t.sessionTaskCount, s))
    // the pdf task held for the session is released exactly when that count is zero
    ensures r.pdf.Some? <==>
      && pool != PdfPool
      && task.session.Some?
      && task.session.value in t.pdfTaskQueue
      && CountOf(r.after.sessionTaskCount, task.session.value) == 0
    ensures r.pdf.Some? ==>
      r.pdf == Some(t.pdfTaskQueue[task.session.value]) && r.after.pdfTaskQueue == t.pdfTaskQueue - {task.session.value}
    ensures r.pdf.None? ==> r.after.pdfTaskQueue == t.pdfTaskQueue
    ensures Valid(t) ==> Valid(r.after)
  {
    if pool == DownloadPool then
      var deq := DequeueCopyTasks(t.copyTaskQueue, task.id);
      var t' := t.(downloadingTasks := t.downloadingTasks - {task.work.url}, copyTaskQueue := deq.0);
      var fin := FinishSessionTask(t', task.session);
      Release(fin.0, deq.1, fin.1)
    else if pool == CopyPool || pool == Mp3Pool then
      var fin := FinishSessionTask(t, task.session);
      Release(fin.0, {}, fin.1)
    else
      Release(t, {}, None)
  }

  /**
   * `subs` submits the released copy tasks to the copy pool, each once and
   * in some order, followed by the released pdf task, if any.
   */
  ghost predicate SubmitsReleased(subs: seq<Submission>, copies: set<Task>, pdf: Option<Task>)
  {
    var n := |copies|;
    && |subs| == n + (if pdf.Some? then 1 else 0)
    && (forall i :: 0 <= i < n ==> subs[i].pool == CopyPool && subs[i].task in copies)
    && (forall c :: c in copies ==> Submission(CopyPool, c) in subs[..n])
    && (pdf.Some? ==> subs[n] == Submission(PdfPool, pdf.value))
  }
}
