/**
 * Why the three rules of the manager hold together. `live` is the set of
 * download, copy and mp3 tasks created and not yet reported complete by
 * their executor. While every executor reports only tasks it was given,
 * once each, the tables stay coherent with `live`: a session's count is
 * the number of its live tasks, the in-flight map names exactly the live
 * downloads, and every deferred copy waits under a live download's id.
 */
module Accounting {
  import opened Tasks
  import opened Bookkeeping

  /** The live tasks that belong to session `s`. */
  function SessionShare(live: set<Task>, s: Session): set<Task>
  {
    set x | x in live && x.session == Some(s)
  }

  /** Some live download of `u` carries id `id`. */
  ghost predicate InFlight(live: set<Task>, u: string, id: TaskId)
  {
    exists d :: d in live && d.id == id && d.work.DownloadTask? && d.work.url == u
  }

  /** Some url is in flight under `id`. */
  ghost predicate KeyInFlight(t: Tables, id: TaskId)
  {
    exists u :: u in t.downloadingTasks && t.downloadingTasks[u] == id
  }

  /** Live tasks are counted tasks with distinct ids already handed out. */
  ghost predicate LiveIds(t: Tables, live: set<Task>)
  {
    && (forall x :: x in live ==> !x.work.PdfTask? && x.id < t.nextId)
    && (forall x, y :: x in live && y in live && x.id == y.id ==> x == y)
  }

  /** A session's count is the number of its live tasks. */
  ghost predicate CountsMatch(t: Tables, live: set<Task>)
  {
    forall s :: CountOf(t.sessionTaskCount, s) == |SessionShare(live, s)|
  }

  /** The in-flight map names exactly the live downloads. */
  ghost predicate InFlightMatch(t: Tables, live: set<Task>)
  {
    && (forall d :: d in live && d.work.DownloadTask? ==>
          d.work.url in t.downloadingTasks && t.downloadingTasks[d.work.url] == d.id)
    && (forall u :: u in t.downloadingTasks ==> InFlight(live, u, t.downloadingTasks[u]))
  }

  /** Deferred copies are live and wait under the id of an in-flight download. */
  ghost predicate QueueMatch(t: Tables, live: set<Task>)
  {
    && (forall k :: k in t.copyTaskQueue ==> KeyInFlight(t, k))
    && (forall k, c :: k in t.copyTaskQueue && c in t.copyTaskQueue[k] ==> c in live)
  }

  ghost predicate Coherent(t: Tables, live: set<Task>)
  {
    && Valid(t)
    && LiveIds(t, live)
    && CountsMatch(t, live)
    && InFlightMatch(t, live)
    && QueueMatch(t, live)
  }

  /**
   * An executor reports a task it was given: a pdf task from the pdf
   * executor, or a live task that is not waiting in the copy queue from the
   * executor of its kind.
   */
  ghost predicate Genuine(t: Tables, live: set<Task>, pool: Pool, task: Task)
  {
    && PoolOf(task.work) == pool
    && (pool != PdfPool ==> task in live)
    && (forall k :: k in t.copyTaskQueue ==> task !in t.copyTaskQueue[k])
  }

  lemma ShareAdd(live: set<Task>, x: Task, s: Session)
    requires x !in live
    ensures |SessionShare(live + {x}, s)| == |SessionShare(live, s)| + (if x.session == Some(s) then 1 else 0)
  {
    if x.session == Some(s) {
      assert SessionShare(live + {x}, s) == SessionShare(live, s) + {x};
    } else {
      assert SessionShare(live + {x}, s) == SessionShare(live, s);
    }
  }

  lemma ShareRemove(live: set<Task>, x: Task, s: Session)
    requires x in live
    ensures |SessionShare(live - {x}, s)| == |SessionShare(live, s)| - (if x.session == Some(s) then 1 else 0)
  {
    if x.session == Some(s) {
      assert SessionShare(live, s) == SessionShare(live - {x}, s) + {x};
    } else {
      assert SessionShare(live - {x}, s) == SessionShare(live, s);
    }
  }

  // ---------------------------------------------------------------------
  // How each part of the invariant survives adding or retiring one task
  // ---------------------------------------------------------------------

  lemma LiveIdsAfterAdd(t: Tables, t': Tables, live: set<Task>, x: Task)
    requires LiveIds(t, live)
    requires !x.work.PdfTask? && x.id == t.nextId && t'.nextId == t.nextId + 1
    ensures x !in live && LiveIds(t', live + {x})
  {
  }

  lemma CountsAfterAdd(t: Tables, t': Tables, live: set<Task>, x: Task)
    requires CountsMatch(t, live) && x !in live
    requires forall s :: CountOf(t'.sessionTaskCount, s) ==
                         CountOf(t.sessionTaskCount, s) + (if x.session == Some(s) then 1 else 0)
    ensures CountsMatch(t', live + {x})
  {
    forall s ensures CountOf(t'.sessionTaskCount, s) == |SessionShare(live + {x}, s)| {
      ShareAdd(live, x, s);
    }
  }

  lemma CountsAfterRemove(t: Tables, t': Tables, live: set<Task>, x: Task)
    requires CountsMatch(t, live) && x in live
    requires forall s :: CountOf(t'.sessionTaskCount, s) ==
                         (if x.session == Some(s) && CountOf(t.sessionTaskCount, s) > 0
                          then CountOf(t.sessionTaskCount, s) - 1 else CountOf(t.sessionTaskCount, s))
    ensures x.session.Some? ==> CountOf(t.sessionTaskCount, x.session.value) > 0
    ensures CountsMatch(t', live - {x})
  {
    if x.session.Some? {
      assert x in SessionShare(live, x.session.value);
    }
    forall s ensures CountOf(t'.sessionTaskCount, s) == |SessionShare(live - {x}, s)| {
      ShareRemove(live, x, s);
    }
  }

  lemma InFlightAfterAdd(t: Tables, t': Tables, live: set<Task>, x: Task)
    requires InFlightMatch(t, live)
    requires x.work.DownloadTask? ==>
               x.work.url !in t.downloadingTasks && t'.downloadingTasks == t.downloadingTasks[x.work.url := x.id]
    requires !x.work.DownloadTask? ==> t'.downloadingTasks == t.downloadingTasks
    ensures InFlightMatch(t', live + {x})
  {
    forall u | u in t'.downloadingTasks ensures InFlight(live + {x}, u, t'.downloadingTasks[u]) {
      if u in t.downloadingTasks {
        var d :| d in live && d.id == t.downloadingTasks[u] && d.work.DownloadTask? && d.work.url == u;
        assert d in live + {x};
      } else {
        assert x in live + {x};
      }
    }
  }

  lemma InFlightAfterRemove(t: Tables, t': Tables, live: set<Task>, x: Task)
    requires InFlightMatch(t, live) && LiveIds(t, live) && x in live
    requires x.work.DownloadTask? ==> t'.downloadingTasks == t.downloadingTasks - {x.work.url}
    requires !x.work.DownloadTask? ==> t'.downloadingTasks == t.downloadingTasks
    ensures InFlightMatch(t', live - {x})
  {
    forall u | u in t'.downloadingTasks ensures InFlight(live - {x}, u, t'.downloadingTasks[u]) {
      var d :| d in live && d.id == t.downloadingTasks[u] && d.work.DownloadTask? && d.work.url == u;
      assert d in live - {x};
    }
  }

  /** The copy queue is unchanged and the in-flight map only grew. */
  lemma QueueAfterGrow(t: Tables, t': Tables, live: set<Task>, live': set<Task>)
    requires QueueMatch(t, live) && live <= live'
    requires t'.copyTaskQueue == t.copyTaskQueue
    requires forall u :: u in t.downloadingTasks ==> u in t'.downloadingTasks && t'.downloadingTasks[u] == t.downloadingTasks[u]
    ensures QueueMatch(t', live')
  {
    forall k | k in t'.copyTaskQueue ensures KeyInFlight(t', k) {
      var u :| u in t.downloadingTasks && t.downloadingTasks[u] == k;
      assert u in t'.downloadingTasks && t'.downloadingTasks[u] == k;
    }
  }

  /** A copy is deferred under the id of the in-flight download of `u`. */
  lemma QueueAfterDefer(t: Tables, t': Tables, live: set<Task>, x: Task, u: string)
    requires QueueMatch(t, live)
    requires u in t.downloadingTasks && t'.downloadingTasks == t.downloadingTasks
    requires t'.copyTaskQueue == t.copyTaskQueue[t.downloadingTasks[u] := QueuedCopies(t.copyTaskQueue, t.downloadingTasks[u]) + {x}]
    ensures QueueMatch(t', live + {x})
  {
    forall k | k in t'.copyTaskQueue ensures KeyInFlight(t', k) {
      if k in t.copyTaskQueue {
        var v :| v in t.downloadingTasks && t.downloadingTasks[v] == k;
        assert v in t'.downloadingTasks && t'.downloadingTasks[v] == k;
      } else {
        assert u in t'.downloadingTasks && t'.downloadingTasks[u] == k;
      }
    }
  }

  /** A task that is not waiting in the copy queue is retired. */
  lemma QueueAfterRetire(t: Tables, t': Tables, live: set<Task>, x: Task)
    requires QueueMatch(t, live) && InFlightMatch(t, live) && x in live
    requires forall k :: k in t.copyTaskQueue ==> x !in t.copyTaskQueue[k]
    requires x.work.DownloadTask? ==>
               t'.downloadingTasks == t.downloadingTasks - {x.work.url} && t'.copyTaskQueue == t.copyTaskQueue - {x.id}
    requires !x.work.DownloadTask? ==>
               t'.downloadingTasks == t.downloadingTasks && t'.copyTaskQueue == t.copyTaskQueue
    ensures QueueMatch(t', live - {x})
  {
    forall k | k in t'.copyTaskQueue ensures KeyInFlight(t', k) {
      var u :| u in t.downloadingTasks && t.downloadingTasks[u] == k;
      assert x.work.DownloadTask? ==> u != x.work.url;
      assert u in t'.downloadingTasks && t'.downloadingTasks[u] == k;
    }
  }

  // ---------------------------------------------------------------------
  // Every transition keeps the invariant
  // ---------------------------------------------------------------------

  /** A new manager is coherent with no live task. */
  lemma EmptyIsCoherent()
    ensures Coherent(Empty, {})
  {
    forall s ensures CountOf(Empty.sessionTaskCount, s) == |SessionShare({}, s)| {
      assert SessionShare({}, s) == {};
    }
  }

  /** A download request keeps the tables coherent; the task it creates, if any, becomes live. */
  lemma DownloadKeepsCoherent(t: Tables, live: set<Task>, session: Option<Session>, url: string, output: string,
                              mtime: int, defaultFile: string)
    requires Coherent(t, live)
    ensures var e := Download(t, session, url, output, mtime, defaultFile);
            var x := RequestedTask(t, session, url, output, mtime, defaultFile);
            Coherent(e.after, if e == Effect(t, []) then live else live + {x})
  {
    var e := Download(t, session, url, output, mtime, defaultFile);
    var x := RequestedTask(t, session, url, output, mtime, defaultFile);
    if e != Effect(t, []) {
      var t' := e.after;
      LiveIdsAfterAdd(t, t', live, x);
      CountsAfterAdd(t, t', live, x);
      InFlightAfterAdd(t, t', live, x);
      if url in t.downloadTasks && url in t.downloadingTasks {
        QueueAfterDefer(t, t', live, x, url);
      } else {
        QueueAfterGrow(t, t', live, live + {x});
      }
    }
  }

  /** A mp3 request keeps the tables coherent; the task it creates, if any, becomes live. */
  lemma ConvertMp3KeepsCoherent(t: Tables, live: set<Task>, session: Option<Session>, pcmPath: string, mp3Path: string,
                                mtime: int)
    requires Coherent(t, live)
    ensures var e := ConvertMp3(t, session, pcmPath, mp3Path, mtime);
            Coherent(e.after, if session.None? then live else live + {Task(t.nextId, session, Mp3Task(pcmPath, mp3Path, mtime))})
  {
    var e := ConvertMp3(t, session, pcmPath, mp3Path, mtime);
    if session.Some? {
      var t', x := e.after, Task(t.nextId, session, Mp3Task(pcmPath, mp3Path, mtime));
      LiveIdsAfterAdd(t, t', live, x);
      CountsAfterAdd(t, t', live, x);
      InFlightAfterAdd(t, t', live, x);
      QueueAfterGrow(t, t', live, live + {x});
    }
  }

  /** A pdf request keeps the tables coherent; pdf tasks are never live. */
  lemma ConvertPdfKeepsCoherent(t: Tables, live: set<Task>, session: Option<Session>, htmlPath: string, pdfPath: string)
    requires Coherent(t, live)
    ensures Coherent(ConvertPdf(t, session, htmlPath, pdfPath).after, live)
  {
    var t' := ConvertPdf(t, session, htmlPath, pdfPath).after;
    QueueAfterGrow(t, t', live, live);
  }

  /**
   * A genuine completion keeps the tables coherent and the reported task
   * stops being live. The count it takes one off is never zero.
   */
  lemma CompleteKeepsCoherent(t: Tables, live: set<Task>, pool: Pool, task: Task)
    requires Coherent(t, live)
    requires Genuine(t, live, pool, task)
    ensures pool != PdfPool && task.session.Some? ==> CountOf(t.sessionTaskCount, task.session.value) > 0
    ensures Coherent(OnTaskComplete(t, pool, task).after, if pool == PdfPool then live else live - {task})
  {
    if pool != PdfPool {
      var t' := OnTaskComplete(t, pool, task).after;
      CountsAfterRemove(t, t', live, task);
      InFlightAfterRemove(t, t', live, task);
      QueueAfterRetire(t, t', live, task);
    }
  }

  // ---------------------------------------------------------------------
  // What the invariant buys
  // ---------------------------------------------------------------------

  /** Dedup: while coherent, a url has at most one live download. */
  lemma OneDownloadPerUrlInFlight(t: Tables, live: set<Task>, a: Task, b: Task)
    requires Coherent(t, live)
    requires a in live && a.work.DownloadTask?
    requires b in live && b.work.DownloadTask?
    requires a.work.url == b.work.url
    ensures a == b
  {
    assert t.downloadingTasks[a.work.url] == a.id == b.id;
  }

  /**
   * The barrier at request time: a pdf request is submitted at once
   * exactly when no download, copy or mp3 task of its session is live.
   */
  lemma PdfSubmittedIffSessionDrained(t: Tables, live: set<Task>, s: Session, htmlPath: string, pdfPath: string)
    requires Coherent(t, live)
    ensures ConvertPdf(t, Some(s), htmlPath, pdfPath).submitted != [] <==> SessionShare(live, s) == {}
  {
    assert CountOf(t.sessionTaskCount, s) == |SessionShare(live, s)|;
  }

  /**
   * The barrier at completion time: the pdf task held for a session is
   * released by the completion that leaves no task of the session live,
   * and by no other.
   */
  lemma PdfReleasedIffSessionDrained(t: Tables, live: set<Task>, pool: Pool, task: Task)
    requires Coherent(t, live) && Genuine(t, live, pool, task)
    requires pool != PdfPool && task.session.Some? && task.session.value in t.pdfTaskQueue
    ensures OnTaskComplete(t, pool, task).pdf == Some(t.pdfTaskQueue[task.session.value])
            <==> SessionShare(live - {task}, task.session.value) == {}
  {
    CompleteKeepsCoherent(t, live, pool, task);
    var r := OnTaskComplete(t, pool, task);
    assert CountOf(r.after.sessionTaskCount, task.session.value) == |SessionShare(live - {task}, task.session.value)|;
  }

  /** A held pdf task is never stranded: some live task of its session is still to complete. */
  lemma HeldPdfWaitsForLiveWork(t: Tables, live: set<Task>, s: Session)
    requires Coherent(t, live) && s in t.pdfTaskQueue
    ensures SessionShare(live, s) != {}
  {
    assert |SessionShare(live, s)| == CountOf(t.sessionTaskCount, s) > 0;
  }

  /**
   * A deferred copy is never stranded: it waits under the id of a live
   * download whose completion releases it.
   */
  lemma DeferredCopyReleasedByItsDownload(t: Tables, live: set<Task>, k: TaskId, c: Task)
    requires Coherent(t, live) && k in t.copyTaskQueue && c in t.copyTaskQueue[k]
    ensures exists d :: d in live && d.id == k && Genuine(t, live, DownloadPool, d) && c in OnTaskComplete(t, DownloadPool, d).copies
  {
    var u :| u in t.downloadingTasks && t.downloadingTasks[u] == k;
    var d :| d in live && d.id == k && d.work.DownloadTask? && d.work.url == u;
    assert Genuine(t, live, DownloadPool, d);
  }
}
