# WechatExporter task manager, modelled in Dafny

WechatExporter's `TaskManager` schedules the background work of an export.
It handles four kinds of task: downloads of message attachments, copies of
files already downloaded, mp3 conversions of voice messages, and pdf
renderings of a finished session. Each kind runs on its own executor. The
manager itself only keeps the books in five tables. Its methods update four
of them under one mutex. The fifth, the dedup map from url to output, is
read and written before the lock is taken. With these tables it applies
three rules:

- **Dedup.** A url is downloaded at most once. A later request for the same
  url with another output becomes a copy from the first output. A request
  whose output is the one recorded for its url does nothing.
- **Copy deferral.** A copy waits until the download of its url has
  finished.
- **Per-session barrier.** A session's pdf task is held back until all of
  that session's download, copy and mp3 tasks have completed.

The project models that bookkeeping. Each method body is one atomic step,
and each step returns the `addTask` calls it makes.

- `tasks.dfy` (module `Tasks`): sessions as value handles, the four kinds
  of work, tasks, executors (`Pool`), submissions, and `std::map::insert`
  (which keeps an entry that is already there).
- `bookkeeping.dfy` (module `Bookkeeping`): the five tables and the id
  counter as a value `Tables`. It has one pure function per method of the
  manager, each with contracts for the three rules. It also has the helper
  functions the methods call and the structural invariant `Valid`.
- `task_manager.dfy` (module `Manager`): class `TaskManager`. Its fields
  are the five tables and the id counter, and its methods update them in
  place. Each method is proved to move the fields exactly as the matching
  `Bookkeeping` function says and to keep `Valid`.
- `accounting.dfy` (module `Accounting`): why the rules hold together.
  Call a download, copy or mp3 task "live" when it has been created and its
  completion has not been reported yet. The invariant `Coherent` says:
  - each session's count equals its number of live tasks;
  - the in-flight map names exactly the live downloads;
  - every deferred copy waits under a live download's id.

  Every step keeps this invariant, as long as executors report only tasks
  they were given. The barrier, dedup and no-stranding results follow from
  it.
- `traces.dfy` (module `Traces`): whole runs of calls. The dedup map never
  forgets or rewrites a url, and a url goes to the download executor at
  most once per run. Genuine runs keep `Coherent`.
- `scenario.dfy` (module `Scenario`): one run worked through. A session
  asks for one url at two outputs, then for its pdf. Each step is checked.
  Two side lemmas show the behaviours listed below.

Some behaviours of the code are easy to miss. The model keeps each of them
as the code has it:

- **Repeated copy requests are not deduplicated.** The early return in
  `download` (TaskManager.cpp:95) compares the output only against the one
  recorded for the url's first request. A request that became a copy is
  not recorded. Repeating it creates another identical copy task and adds
  one more to its session's count (`Scenario.RepeatedCopyIsNotDeduplicated`).
- **A repeated completion notification is not ignored.** A second report
  of a task takes another one off its session's count
  (`Bookkeeping.OnTaskComplete`). For a download, this can release the
  session's held pdf while its copy is still outstanding
  (`Scenario.RepeatedCompletionReleasesPdfEarly`).
  `Accounting.CompleteKeepsCoherent` shows the count stays right while each
  live task is reported once.
- **A second pdf request while one is held is dropped.** `convertPdf` uses
  `insert` on `m_pdfTaskQueue` (TaskManager.cpp:211). The model takes that
  table to be a `std::map`, whose `insert` keeps the existing entry. So the
  first held pdf task stays, and the second is neither held nor submitted.
  The declaration of the table is not in TaskManager.cpp. If it were a
  `std::multimap`, both would be held, but `dequeuePdfTasks` returns only
  one.

## Model

| member | source | states |
|---|---|---|
| `Tasks.Insert` | WechatExporter/core/TaskManager.cpp:211 | `std::map::insert`: the key is present afterwards. An entry already there keeps its value; otherwise the key gets the new value. All other entries are unchanged. It is also used for the inserts at :115 and :136. |
| `Bookkeeping.Download` | WechatExporter/core/TaskManager.cpp:92-167 | A request whose output is the one recorded for its url changes nothing and submits nothing; every other request creates a task, including a repeat of a request that became a copy. The recorded output of a url is never replaced. A download is submitted exactly when the url was never requested, and it is then in flight under the new id. A url recorded with another output gives a copy from the recorded output. That copy is queued under the in-flight download's id with nothing submitted, or submitted to the copy pool when no download of the url is in flight. Any created task takes the next id and adds exactly one to its session's count. Valid is kept. |
| `Bookkeeping.ConvertMp3` | WechatExporter/core/TaskManager.cpp:169-194 | Without a session it is a no-op, and only then. Otherwise it submits the mp3 task at once, adds one to the session's count, takes the next id and changes no other table. Valid is kept. |
| `Bookkeeping.ConvertPdf` | WechatExporter/core/TaskManager.cpp:196-220 | Without a session it is a no-op, and only then. The pdf task is submitted at once if and only if the session's count is absent or zero. Otherwise nothing is submitted and the task is held, unless one is held already; in that case the table keeps the first (std::map insert). Counts and the other tables are unchanged. Valid is kept. |
| `Bookkeeping.OnTaskComplete` | WechatExporter/core/TaskManager.cpp:35-90 | A pdf completion changes nothing. A download completion removes its url from the in-flight map, and removes and releases exactly the copies queued under its id. Any download, copy or mp3 completion takes one off its session's count. The held pdf is released exactly when that count reaches zero. The dedup map and the id counter never change. Valid is kept. |
| `Bookkeeping.IncreaseSessionTask` | WechatExporter/core/TaskManager.cpp:121-132 | The session's count rises by exactly one, starting from one when absent. No other count changes; no session means no change. |
| `Bookkeeping.DecreaseSessionTask` | WechatExporter/core/TaskManager.cpp:53 | Assumed behaviour of the helper. The session's count falls by one and is not removed at zero. No other count changes. The result is the new count, or 0 for no session or an absent one. |
| `Bookkeeping.DequeueCopyTasks` | WechatExporter/core/TaskManager.cpp:49 | Assumed behaviour of the helper. It removes the id's entry and returns the copies that were queued under it (none if absent). |
| `Bookkeeping.DequeuePdfTasks` | WechatExporter/core/TaskManager.cpp:56 | Assumed behaviour of the helper. It returns a task exactly when the session has one held, and then removes that entry; otherwise the queue is unchanged. |
| `Manager.TaskManager.constructor` | WechatExporter/core/TaskManager.cpp:12-20 | All tables start empty and Valid holds. |
| `Manager.TaskManager.GenNextTaskId` | WechatExporter/core/TaskManager.cpp:102 | Returns the counter's value and advances it by one. |
| `Manager.TaskManager.IncreaseSessionTask` | WechatExporter/core/TaskManager.cpp:181-189 | The in-place increment leaves the count table equal to `Bookkeeping.IncreaseSessionTask` of the old one. |
| `Manager.TaskManager.DecreaseSessionTask` | WechatExporter/core/TaskManager.cpp:74 | The in-place decrement leaves the count table and the result equal to `Bookkeeping.DecreaseSessionTask`. |
| `Manager.TaskManager.DequeueCopyTasks` | WechatExporter/core/TaskManager.cpp:49 | Removes the id's entry from the copy queue field and returns the copies queued under it. |
| `Manager.TaskManager.DequeuePdfTasks` | WechatExporter/core/TaskManager.cpp:77 | Updates the pdf queue field and returns the task as `Bookkeeping.DequeuePdfTasks` says. |
| `Manager.TaskManager.Download` | WechatExporter/core/TaskManager.cpp:92-167 | Keeps Valid. The fields afterwards and the submissions returned are exactly those of `Bookkeeping.Download` on the old fields. |
| `Manager.TaskManager.ConvertMp3` | WechatExporter/core/TaskManager.cpp:169-194 | Keeps Valid. The fields afterwards and the submissions are exactly those of `Bookkeeping.ConvertMp3`. |
| `Manager.TaskManager.ConvertPdf` | WechatExporter/core/TaskManager.cpp:196-220 | Keeps Valid. The fields afterwards and the submissions are exactly those of `Bookkeeping.ConvertPdf`. |
| `Manager.TaskManager.OnTaskComplete` | WechatExporter/core/TaskManager.cpp:35-90 | Keeps Valid. The fields afterwards are those of `Bookkeeping.OnTaskComplete`, whatever `succeeded` is. It submits every released copy to the copy pool, then the released pdf, if any, to the pdf pool. |
| `Manager.TaskManager.SubmitReleased` | WechatExporter/core/TaskManager.cpp:59-67 | The loop submits each released copy task to the copy pool exactly once, in some order. The released pdf task, if any, comes last, to the pdf pool. Nothing else is submitted. |
| `Accounting.EmptyIsCoherent` | WechatExporter/core/TaskManager.cpp:12-20 | A new manager with no live task is coherent. |
| `Accounting.DownloadKeepsCoherent` | WechatExporter/core/TaskManager.cpp:92-167 | A download request keeps the tables coherent. The task it creates, if any, becomes live. |
| `Accounting.ConvertMp3KeepsCoherent` | WechatExporter/core/TaskManager.cpp:169-194 | An mp3 request keeps the tables coherent. Its task becomes live. |
| `Accounting.ConvertPdfKeepsCoherent` | WechatExporter/core/TaskManager.cpp:196-220 | A pdf request keeps the tables coherent; pdf tasks are never counted. |
| `Accounting.CompleteKeepsCoherent` | WechatExporter/core/TaskManager.cpp:35-90 | Take a completion of a task the executor was given and has not reported yet. It keeps the tables coherent, and the task stops being live. The count it decrements is never zero, so the helper's behaviour at zero never matters. |
| `Accounting.OneDownloadPerUrlInFlight` | WechatExporter/core/TaskManager.cpp:104-116 | While coherent, two live downloads of the same url are the same task. |
| `Accounting.PdfSubmittedIffSessionDrained` | WechatExporter/core/TaskManager.cpp:207-217 | A pdf request is submitted at once if and only if no download, copy or mp3 task of its session is live. |
| `Accounting.PdfReleasedIffSessionDrained` | WechatExporter/core/TaskManager.cpp:53-57 | A genuine completion of a session with a held pdf releases that pdf if and only if no other task of the session is still live. |
| `Accounting.HeldPdfWaitsForLiveWork` | WechatExporter/core/TaskManager.cpp:209-212 | A held pdf task always has a live task of its session still to complete, so it is never stranded. |
| `Accounting.DeferredCopyReleasedByItsDownload` | WechatExporter/core/TaskManager.cpp:138-151 | Every deferred copy waits under the id of a live download, and that download's completion releases it. |
| `Traces.StepDownloads` | WechatExporter/core/TaskManager.cpp:104-116 | A step hands a download of a url to the download pool only if the url was unrecorded; the url is recorded afterwards. A recorded url keeps its output. |
| `Traces.RecordedOutputIsPermanent` | WechatExporter/core/TaskManager.cpp:94-116 | Over any run, a recorded url stays recorded with the same output. |
| `Traces.AtMostOneDownloadPerUrl` | WechatExporter/core/TaskManager.cpp:94-116 | Over any run, at most one call hands a download of a url to the download pool. No call does once the url is recorded. |
| `Traces.RunKeepsValid` | WechatExporter/core/TaskManager.cpp:35-220 | Every run keeps the structural invariant. |
| `Traces.StepKeepsCoherent` | WechatExporter/core/TaskManager.cpp:35-220 | Any single call, with genuine completions, keeps the tables coherent with the live tasks. |
| `Traces.RunKeepsCoherent` | WechatExporter/core/TaskManager.cpp:35-220 | Consider a run in which executors report only tasks they were given, once each. It ends coherent: each session's count equals its number of live tasks, whatever order tasks complete in. |
| `Traces.FromEmptyCoherent` | WechatExporter/core/TaskManager.cpp:12-20 | From a new manager, every genuine run ends coherent. |
| `Scenario.FirstRequestDownloads` | WechatExporter/core/TaskManager.cpp:109-116 | The first request for a url submits a download, records the url and puts it in flight. |
| `Scenario.SecondOutputWaits` | WechatExporter/core/TaskManager.cpp:138-151 | The same url at a second output creates a copy from the first output, deferred under the download's id. |
| `Scenario.RepeatIsNoOp` | WechatExporter/core/TaskManager.cpp:94-99 | Repeating the url's first output changes nothing. |
| `Scenario.RepeatedCopyIsNotDeduplicated` | WechatExporter/core/TaskManager.cpp:94-151 | Repeating the request that became a copy is not a no-op. It queues a second identical copy under the download's id and raises the session's count to 3. |
| `Scenario.PdfHeldBack` | WechatExporter/core/TaskManager.cpp:209-212 | A pdf request while the session has two outstanding tasks is held. |
| `Scenario.DownloadDoneReleasesCopy` | WechatExporter/core/TaskManager.cpp:38-67 | The download's completion releases the deferred copy and leaves the session's count at one. |
| `Scenario.CopyDoneReleasesPdf` | WechatExporter/core/TaskManager.cpp:69-85 | The copy's completion brings the count to zero and releases the held pdf. |
| `Scenario.RepeatedCompletionReleasesPdfEarly` | WechatExporter/core/TaskManager.cpp:38-67 | A second report of the download's completion takes the count to zero and releases the held pdf while the copy is still outstanding. |

## Left out

- Concurrency is not modelled. This covers the `AsyncExecutor` worker threads, the mutex and the unlock before `addTask`. Each method is one atomic step. As a result, the model does not capture the race in `download`: its lookup and insert on `m_downloadTasks` (TaskManager.cpp:94-116) run before the mutex is taken, so two concurrent requests for one url could both create a download.
- Executors are outside the model. It records what is handed to `addTask` and takes each completion callback as a call. Running tasks, executor sizes and debug tags (TaskManager.cpp:12-19) are not modelled.
- Task bodies are outside the model. The network, disk, audio and pdf work of `DownloadTask`, `CopyTask`, `Mp3Task`, `PdfTask` and `PdfConverter` is not modelled. A task is a value holding its id, its session and its kind's payload.
- `convertPdf`'s `PdfConverter*` argument and `download`'s unused `type` argument are not carried, since the bookkeeping never reads them.
- `setUserAgent` (TaskManager.cpp:26-29) and the user agent given to each download task are not modelled. They are configuration with no bookkeeping effect.
- `onTaskStart` (TaskManager.cpp:31-33) is empty and has no counterpart.
- Sessions are value handles rather than pointers, so `reinterpret_cast` and pointer identity are not modelled.
- Tasks are values rather than heap objects, so allocation, ownership and `delete` are not modelled.
- `std::set<Task*>` iterates copy tasks in pointer order. The model allows any order.
- The bodies of `decreaseSessionTask`, `dequeueCopyTasks` and `dequeuePdfTasks` are not part of this model, since they are not in TaskManager.cpp. Each is modelled as its call sites use it, as stated in the table. The assumed behaviour at a zero count is to stay at zero; a plain `uint32_t` decrement would wrap instead. `Accounting.CompleteKeepsCoherent` shows a genuine completion never reaches that case.
- `Manager.TaskManager.OnTaskComplete` requires that a task reported by the download executor is a download. The source's `dynamic_cast` would yield null otherwise, and the code would dereference it.
- Task ids come from an unbounded counter that starts at 0. `AsyncExecutor::genNextTaskId` is a process-wide `uint32_t` counter. Neither its start value nor its wrap-around is modelled.
- Session counts are unbounded naturals. Wrap-around of the `uint32_t` counts after 2^32 outstanding tasks is not modelled.
