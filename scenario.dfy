/**
 * One run worked through: a session asks for one url at two outputs and
 * then for its pdf. The second request becomes a copy deferred behind the
 * download and the pdf is held back; the download's completion releases
 * the copy, and the copy's completion, the last of the session, releases
 * the pdf.
 */
module Scenario {
  import opened Tasks
  import opened Bookkeeping

  const G := Session(1)
  const Url := "http://x/a.bin"
  const Fetch := Task(0, Some(G), DownloadTask(Url, "/out/a", 0, ""))
  const CopyAB := Task(1, Some(G), CopyTask("/out/a", "/out/b"))
  const PdfG := Task(2, Some(G), PdfTask("/out/g.html", "/out/g.pdf"))

  // the tables after each step
  const T1 := Tables(map[Url := "/out/a"], map[Url := 0], map[], map[G := 1], map[], 1)
  const T2 := T1.(copyTaskQueue := map[0 := {CopyAB}], sessionTaskCount := map[G := 2], nextId := 2)
  const T3 := T2.(pdfTaskQueue := map[G := PdfG], nextId := 3)
  const T4 := T3.(downloadingTasks := map[], copyTaskQueue := map[], sessionTaskCount := map[G := 1])
  const T5 := T4.(sessionTaskCount := map[G := 0], pdfTaskQueue := map[])

  /** The first request for the url is a download, submitted at once. */
  lemma FirstRequestDownloads()
    ensures Download(Empty, Some(G), Url, "/out/a", 0, "") == Effect(T1, [Submission(DownloadPool, Fetch)])
  {
  }

  /** The same url to another output is a copy that waits for the download. */
  lemma SecondOutputWaits()
    ensures Download(T1, Some(G), Url, "/out/b", 0, "") == Effect(T2, [])
  {
    assert "/out/a"[5] != "/out/b"[5];
    assert QueuedCopies(T1.copyTaskQueue, 0) + {CopyAB} == {CopyAB};
  }

  /** The same url to the same output again is a no-op. */
  lemma RepeatIsNoOp()
    ensures Download(T2, Some(G), Url, "/out/a", 0, "") == Effect(T2, [])
  {
  }

  /**
   * Only the output recorded for the url counts as a repeat: asking again
   * for the copy to "/out/b" queues a second identical copy under the
   * download's id and raises the session's count once more.
   */
  lemma RepeatedCopyIsNotDeduplicated()
    ensures Download(T2, Some(G), Url, "/out/b", 0, "")
         == Effect(T2.(copyTaskQueue := map[0 := {CopyAB, Task(2, Some(G), CopyTask("/out/a", "/out/b"))}],
                      sessionTaskCount := map[G := 3], nextId := 3), [])
  {
    assert "/out/a"[5] != "/out/b"[5];
    var again := Task(2, Some(G), CopyTask("/out/a", "/out/b"));
    assert QueuedCopies(T2.copyTaskQueue, 0) + {again} == {CopyAB, again};
  }

  /** The pdf waits: two tasks of the session are outstanding. */
  lemma PdfHeldBack()
    ensures ConvertPdf(T2, Some(G), "/out/g.html", "/out/g.pdf") == Effect(T3, [])
  {
  }

  /** The download's completion releases the copy; one task of the session remains. */
  lemma DownloadDoneReleasesCopy()
    ensures OnTaskComplete(T3, DownloadPool, Fetch) == Release(T4, {CopyAB}, None)
  {
  }

  /** The copy's completion drains the session and releases the pdf. */
  lemma CopyDoneReleasesPdf()
    ensures OnTaskComplete(T4, CopyPool, CopyAB) == Release(T5, {}, Some(PdfG))
  {
  }

  /**
   * A second report of the download's completion is not ignored: it takes
   * one more off the session's count and releases the held pdf although
   * the copy is still outstanding. Accounting.CompleteKeepsCoherent rules
   * this out only for completions of live tasks.
   */
  lemma RepeatedCompletionReleasesPdfEarly()
    ensures OnTaskComplete(T4, DownloadPool, Fetch) == Release(T5, {}, Some(PdfG))
  {
  }
}
