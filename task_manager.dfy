/**
 * The task manager as the source has it: an object whose five tables are
 * fields that its methods update in place. Each method is one atomic step
 * (the source holds one mutex across the updates) and returns the
 * `addTask` calls it makes, in order. Each is proved to move the tables
 * exactly as the matching function of Bookkeeping says.
 */
module Manager {
  import opened Tasks
  import opened Bookkeeping

  class TaskManager {
    var downloadTasks: map<string, string>
    var downloadingTasks: map<string, TaskId>
    var copyTaskQueue: map<TaskId, set<Task>>
    var sessionTaskCount: map<Session, nat>
    var pdfTaskQueue: map<Session, Task>
    // stands in for the shared counter behind AsyncExecutor::genNextTaskId
    var nextId: TaskId

    /** The current tables as a value. */
    function Snapshot(): Tables
      reads this
    {
      Tables(downloadTasks, downloadingTasks, copyTaskQueue, sessionTaskCount, pdfTaskQueue, nextId)
    }

    ghost predicate Valid()
      reads this
    {
      Bookkeeping.Valid(Snapshot())
    }

    constructor ()
      ensures Valid() && Snapshot() == Empty
    {
      downloadTasks, downloadingTasks, copyTaskQueue := map[], map[], map[];
      sessionTaskCount, pdfTaskQueue, nextId := map[], map[], 0;
    }

    /** genNextTaskId: hands out the next id. */
    method GenNextTaskId() returns (id: TaskId)
      modifies this`nextId
      ensures id == old(nextId) && nextId == old(nextId) + 1
    {
      id := nextId;
      nextId := nextId + 1;
    }

    /** The count increment of download and convertMp3. */
    method IncreaseSessionTask(session: Option<Session>)
      modifies this`sessionTaskCount
      ensures sessionTaskCount == Bookkeeping.IncreaseSessionTask(old(sessionTaskCount), session)
    {
      if session.Some? {
        var s := session.value;
        if s !in sessionTaskCount {
          sessionTaskCount := sessionTaskCount[s := 1];
        } else {
          sessionTaskCount := sessionTaskCount[s := sessionTaskCount[s] + 1];
        }
      }
    }

    /** decreaseSessionTask, as assumed by Bookkeeping.DecreaseSessionTask. */
    method DecreaseSessionTask(session: Option<Session>) returns (count: nat)
      modifies this`sessionTaskCount
      ensures (sessionTaskCount, count) == Bookkeeping.DecreaseSessionTask(old(sessionTaskCount), session)
    {
      count := 0;
      if session.Some? && session.value in sessionTaskCount {
        var s := session.value;
        count := if sessionTaskCount[s] > 0 then sessionTaskCount[s] - 1 else 0;
        sessionTaskCount := sessionTaskCount[s := count];
      }
    }

    /** dequeueCopyTasks, as assumed by Bookkeeping.DequeueCopyTasks. */
    method DequeueCopyTasks(taskId: TaskId) returns (tasks: set<Task>)
      modifies this`copyTaskQueue
      ensures tasks == QueuedCopies(old(copyTaskQueue), taskId)
      ensures copyTaskQueue == old(copyTaskQueue) - {taskId}
    {
      tasks := {};
      if taskId in copyTaskQueue {
        tasks := copyTaskQueue[taskId];
        copyTaskQueue := copyTaskQueue - {taskId};
      }
    }

    /** dequeuePdfTasks, as assumed by Bookkeeping.DequeuePdfTasks. */
    method DequeuePdfTasks(session: Option<Session>) returns (task: Option<Task>)
      modifies this`pdfTaskQueue
      ensures (pdfTaskQueue, task) == Bookkeeping.DequeuePdfTasks(old(pdfTaskQueue), session)
    {
      task := None;
      if session.Some? && session.value in pdfTaskQueue {
        task := Some(pdfTaskQueue[session.value]);
        pdfTaskQueue := pdfTaskQueue - {session.value};
      }
    }

    /** download(session, url, output, mtime, defaultFile) */
    method Download(session: Option<Session>, url: string, output: string, mtime: int, defaultFile: string)
      returns (submitted: seq<Submission>)
      requires Valid()
      modifies this
      ensures Valid()
      ensures var e := Bookkeeping.Download(old(Snapshot()), session, url, output, mtime, defaultFile);
              Snapshot() == e.after && submitted == e.submitted
    {
      ghost var t := Snapshot();
      if url in downloadTasks && downloadTasks[url] == output {
        // the same url to the same output was requested before
        return [];
      }
      ghost var e := Bookkeeping.Download(t, session, url, output, mtime, defaultFile);
      var downloadFile := false;
      var taskId := GenNextTaskId();
      var task: Task;
      if url in downloadTasks {
        // requested before to another output: copy from there
        task := Task(taskId, session, CopyTask(downloadTasks[url], output));
      } else {
        task := Task(taskId, session, DownloadTask(url, output, mtime, defaultFile));
        downloadFile := true;
        downloadTasks := Insert(downloadTasks, url, output);
      }
      IncreaseSessionTask(session);
      var deferred := false;
      if downloadFile {
        downloadingTasks := Insert(downloadingTasks, url, taskId);
      } else if url in downloadingTasks {
        // the download is still running: the copy waits for it
        var key := downloadingTasks[url];
        if key !in copyTaskQueue {
          copyTaskQueue := copyTaskQueue[key := {}];
        }
        copyTaskQueue := copyTaskQueue[key := copyTaskQueue[key] + {task}];
        assert copyTaskQueue == t.copyTaskQueue[key := QueuedCopies(t.copyTaskQueue, key) + {task}];
        deferred := true;
      }
      assert task == RequestedTask(t, session, url, output, mtime, defaultFile);
      assert Snapshot() == e.after;
      if deferred {
        submitted := [];
      } else if downloadFile {
        submitted := [Submission(DownloadPool, task)];
      } else {
        submitted := [Submission(CopyPool, task)];
      }
    }

    /** convertMp3(session, pcmPath, mp3Path, mtime) */
    method ConvertMp3(session: Option<Session>, pcmPath: string, mp3Path: string, mtime: int)
      returns (submitted: seq<Submission>)
      requires Valid()
      modifies this
      ensures Valid()
      ensures var e := Bookkeeping.ConvertMp3(old(Snapshot()), session, pcmPath, mp3Path, mtime);
              Snapshot() == e.after && submitted == e.submitted
    {
      if session.None? {
        return [];
      }
      var taskId := GenNextTaskId();
      var task := Task(taskId, session, Mp3Task(pcmPath, mp3Path, mtime));
      IncreaseSessionTask(session);
      submitted := [Submission(Mp3Pool, task)];
    }

    /** convertPdf(session, htmlPath, pdfPath, converter) */
    method ConvertPdf(session: Option<Session>, htmlPath: string, pdfPath: string)
      returns (submitted: seq<Submission>)
      requires Valid()
      modifies this
      ensures Valid()
      ensures var e := Bookkeeping.ConvertPdf(old(Snapshot()), session, htmlPath, pdfPath);
              Snapshot() == e.after && submitted == e.submitted
    {
      if session.None? {
        return [];
      }
      var taskId := GenNextTaskId();
      var task := Task(taskId, session, PdfTask(htmlPath, pdfPath));
      var s := session.value;
      if s in sessionTaskCount && sessionTaskCount[s] != 0 {
        pdfTaskQueue := Insert(pdfTaskQueue, s, task);
        submitted := [];
      } else {
        submitted := [Submission(PdfPool, task)];
      }
    }

    /**
     * onTaskComplete(executor, task, succeeded). `succeeded` is accepted and
     * ignored: the new tables and the submissions do not depend on it.
     */
    method OnTaskComplete(pool: Pool, task: Task, succeeded: bool) returns (submitted: seq<Submission>)
      requires Valid()
      requires pool == DownloadPool ==> task.work.DownloadTask?
      modifies this
      ensures Valid()
      ensures var r := Bookkeeping.OnTaskComplete(old(Snapshot()), pool, task);
              Snapshot() == r.after && SubmitsReleased(submitted, r.copies, r.pdf)
    {
      ghost var r := Bookkeeping.OnTaskComplete(Snapshot(), pool, task);
      var copyTasks: set<Task> := {};
      var pdfTask: Option<Task> := None;
      if pool == DownloadPool {
        downloadingTasks := downloadingTasks - {task.work.url};
        copyTasks := DequeueCopyTasks(task.id);
        var taskCount := DecreaseSessionTask(task.session);
        if taskCount == 0 {
          pdfTask := DequeuePdfTasks(task.session);
        }
      } else if pool == CopyPool || pool == Mp3Pool {
        var taskCount := DecreaseSessionTask(task.session);
        if taskCount == 0 {
          pdfTask := DequeuePdfTasks(task.session);
        }
      }
      assert Snapshot() == r.after && copyTasks == r.copies && pdfTask == r.pdf;
      // the lock is released here; the submissions follow
      submitted := SubmitReleased(copyTasks, pdfTask);
    }

    /**
     * The submissions that close onTaskComplete: every released copy task to
     * the copy executor, once each and in some order, then the released pdf
     * task, if any, to the pdf executor.
     */
    method SubmitReleased(copyTasks: set<Task>, pdfTask: Option<Task>) returns (submitted: seq<Submission>)
      ensures SubmitsReleased(submitted, copyTasks, pdfTask)
    {
      submitted := [];
      var rest := copyTasks;
      while rest != {}
        invariant rest <= copyTasks
        invariant |submitted| + |rest| == |copyTasks|
        invariant forall i :: 0 <= i < |submitted| ==>
                    submitted[i].pool == CopyPool && submitted[i].task in copyTasks - rest
        invariant forall c :: c in copyTasks - rest ==> Submission(CopyPool, c) in submitted
        decreases |rest|
      {
        var c :| c in rest;
        submitted := submitted + [Submission(CopyPool, c)];
        rest := rest - {c};
      }
      if pdfTask.Some? {
        submitted := submitted + [Submission(PdfPool, pdfTask.value)];
      }
    }
  }
}
