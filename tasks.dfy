/**
 * The values the task manager handles: sessions, the four kinds of work,
 * tasks, the four executors ("pools") and the submissions made to them.
 */
module Tasks {

  datatype Option<+T> = None | Some(value: T)

  /** Task ids come from one counter shared by every kind of task. */
  type TaskId = nat

  /**
   * A session is only ever compared and used as a map key; the source uses
   * the address of a Session object, the model a value-typed handle.
   */
  datatype Session = Session(handle: nat)

  /** What a task does; the payload of each kind is opaque to the manager. */
  datatype Work =
    | DownloadTask(url: string, output: string, mtime: int, defaultFile: string)
    | CopyTask(src: string, dest: string)
    | Mp3Task(pcmPath: string, mp3Path: string, mtime: int)
    | PdfTask(htmlPath: string, pdfPath: string)

  /** A task: its id, the session it belongs to (possibly none) and its work. */
  datatype Task = Task(id: TaskId, session: Option<Session>, work: Work)

  /** The four executors of the manager. */
  datatype Pool = DownloadPool | CopyPool | Mp3Pool | PdfPool

  /** One `addTask` call: the task handed to the executor. */
  datatype Submission = Submission(pool: Pool, task: Task)

  /** The executor that runs tasks of a given kind. */
  function PoolOf(w: Work): Pool
  {
    match w
    case DownloadTask(_, _, _, _) => DownloadPool
    case CopyTask(_, _) => CopyPool
    case Mp3Task(_, _, _) => Mp3Pool
    case PdfTask(_, _) => PdfPool
  }

  /** `std::map::insert`: an existing entry for the key is kept. */
  function Insert<K, V>(m: map<K, V>, k: K, v: V): (r: map<K, V>)
    ensures r.Keys == m.Keys + {k}
    ensures r[k] == (if k in m then m[k] else v)
    ensures forall j :: j in m ==> r[j] == m[j]
  {
    if k in m then m else m[k := v]
  }
}
