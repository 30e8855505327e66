/**
 * The UIKit variant's image downloader: a cache check, then a registry of
 * in-flight download tasks keyed by the URL's absolute string, so that
 * requests for one URL while a download runs share it. Everything runs on the
 * main actor, so each request, each task completion and each cancel is one
 * atomic step here. A URL is represented by its absolute string.
 */
module ImageDownloader {
  import opened Wrappers
  import opened Media
  import opened ImageCache

  type TaskId = nat

  /** One suspended `downloadImage(from:)` call awaiting a task's value. */
  type CallerId = nat

  /** A download task still running: the key it will clear and whether `cancel()` was called on it. */
  datatype TaskInfo = TaskInfo(key: string, cancelled: bool)

  datatype Downloader = Downloader(
    cache: Store,
    registry: map<string, TaskId>,  // `activeTasks`
    tasks: map<TaskId, TaskInfo>,   // tasks that have not finished, registered or not
    waiting: map<CallerId, TaskId>, // callers suspended on `task.value`
    nextTask: TaskId
  )

  const Initial: Downloader := Downloader(EmptyStore, map[], map[], map[], 0)

  /**
   * The invariant every reachable downloader keeps: registry entries name
   * running, uncancelled tasks for their own key; every running task that was
   * not cancelled is the registry entry for its key; waiting callers wait on
   * running tasks; task ids below `nextTask` are used up.
   */
  ghost predicate Valid(d: Downloader) {
    && (forall k | k in d.registry ::
          d.registry[k] in d.tasks && d.tasks[d.registry[k]].key == k && !d.tasks[d.registry[k]].cancelled)
    && (forall t | t in d.tasks :: t < d.nextTask)
    && (forall t | t in d.tasks && !d.tasks[t].cancelled ::
          d.tasks[t].key in d.registry && d.registry[d.tasks[t].key] == t)
    && (forall c | c in d.waiting :: d.waiting[c] in d.tasks)
  }

  lemma InitialValid()
    ensures Valid(Initial)
  {
  }

  /** How a request was answered: from the cache, by joining a running task, or by starting one. */
  datatype Reply = Served(image: Image) | Joined(task: TaskId) | Started(task: TaskId)

  datatype Step = Step(reply: Reply, state: Downloader)

  /** `downloadImage(from:)` up to the point where the caller returns or suspends. */
  function DownloadImage(d: Downloader, p: Platform, caller: CallerId, url: string): (r: Step)
    requires HashIsAbsSafe(p, url)
    ensures r.state.cache == GetImage(d.cache, p, url).store
    ensures r.reply.Served? <==> GetImage(d.cache, p, url).image.Some?
    ensures r.reply.Served? ==> Some(r.reply.image) == GetImage(d.cache, p, url).image
    ensures r.reply.Served? ==>
      && r.state.registry == d.registry && r.state.tasks == d.tasks && r.state.waiting == d.waiting
      && r.state.nextTask == d.nextTask
    ensures r.reply.Joined? <==> GetImage(d.cache, p, url).image.None? && url in d.registry
    ensures r.reply.Joined? ==>
      && r.reply.task == d.registry[url] && r.state.registry == d.registry && r.state.tasks == d.tasks
      && r.state.nextTask == d.nextTask
    ensures r.reply.Started? ==>
      && r.reply.task == d.nextTask && r.state.nextTask == d.nextTask + 1
      && r.state.registry == d.registry[url := r.reply.task]
      && r.state.tasks == d.tasks[r.reply.task := TaskInfo(url, false)]
    ensures !r.reply.Served? ==> r.state.waiting == d.waiting[caller := r.reply.task]
  {
    var look := GetImage(d.cache, p, url);
    if look.image.Some? then
      Step(Served(look.image.value), d.(cache := look.store))
    else if url in d.registry then
      var t := d.registry[url];
      Step(Joined(t), d.(cache := look.store, waiting := d.waiting[caller := t]))
    else
      var t := d.nextTask;
      Step(Started(t), Downloader(
        look.store,
        d.registry[url := t],
        d.tasks[t := TaskInfo(url, false)],
        d.waiting[caller := t],
        t + 1))
  }

  /** In a valid state a started task gets an id no running task has. */
  lemma StartedTaskIsFresh(d: Downloader, p: Platform, caller: CallerId, url: string)
    requires Valid(d) && HashIsAbsSafe(p, url)
    ensures DownloadImage(d, p, caller, url).reply.Started? ==> d.nextTask !in d.tasks
  {
  }

  lemma DownloadImageKeepsValid(d: Downloader, p: Platform, caller: CallerId, url: string)
    requires Valid(d) && HashIsAbsSafe(p, url)
    ensures Valid(DownloadImage(d, p, caller, url).state)
  {
  }

  /**
   * `cancelDownload(for:)`: cancels the registered task for the URL's key, if
   * any, and removes the key from the registry. The cancelled task keeps
   * running until it completes; callers waiting on it stay attached.
   */
  function CancelDownload(d: Downloader, url: string): (r: Downloader)
    ensures r.registry == d.registry - {url}
    ensures r.cache == d.cache && r.waiting == d.waiting && r.nextTask == d.nextTask
    ensures r.tasks.Keys == d.tasks.Keys
    ensures forall t | t in d.tasks :: r.tasks[t].key == d.tasks[t].key
    ensures forall t | t in d.tasks && (url !in d.registry || t != d.registry[url]) :: r.tasks[t] == d.tasks[t]
    ensures url in d.registry && d.registry[url] in d.tasks ==> r.tasks[d.registry[url]].cancelled
  {
    if url in d.registry && d.registry[url] in d.tasks then
      var t := d.registry[url];
      d.(registry := d.registry - {url}, tasks := d.tasks[t := d.tasks[t].(cancelled := true)])
    else
      d.(registry := d.registry - {url})
  }

  lemma CancelDownloadKeepsValid(d: Downloader, url: string)
    requires Valid(d)
    ensures Valid(CancelDownload(d, url))
  {
  }

  /** What a task's network request produced: an error, or the bytes of a response. */
  datatype Fetched = FetchFailed | Received(data: Bytes)

  /** The task's value, the value handed to each caller that was waiting on it, and the state afterwards. */
  datatype Completion = Completion(result: Option<Image>, delivered: map<CallerId, Option<Image>>, state: Downloader)

  /** The image a task yields: nil on a network error or undecodable bytes. */
  function TaskResult(p: Platform, fetched: Fetched): (r: Option<Image>)
    ensures r.Some? <==> fetched.Received? && p.decode(fetched.data).Some?
  {
    match fetched
    case FetchFailed => None
    case Received(data) => p.decode(data)
  }

  /** The callers that get a task's value, and the callers left waiting on other tasks. */
  function Deliver(d: Downloader, t: TaskId, result: Option<Image>): (r: (map<CallerId, Option<Image>>, map<CallerId, TaskId>))
    ensures r.0.Keys == set c | c in d.waiting && d.waiting[c] == t
    ensures forall c | c in r.0 :: r.0[c] == result
    ensures forall c :: c in r.1 <==> c in d.waiting && d.waiting[c] != t
    ensures forall c | c in r.1 :: r.1[c] == d.waiting[c]
  {
    (map c | c in d.waiting && d.waiting[c] == t :: result,
     map c | c in d.waiting && d.waiting[c] != t :: d.waiting[c])
  }

  /**
   * A task finishing, as written: a decoded image is cached under the task's
   * key; then the registry entry for that key is removed, whichever task it
   * names.
   */
  function FinishTask(d: Downloader, p: Platform, t: TaskId, fetched: Fetched, writeSucceeds: bool): (r: Completion)
    requires t in d.tasks && HashIsAbsSafe(p, d.tasks[t].key)
    ensures r.result == TaskResult(p, fetched)
    ensures r.result.Some? ==> r.state.cache == SetImage(d.cache, p, r.result.value, d.tasks[t].key, writeSucceeds)
    ensures r.result.None? ==> r.state.cache == d.cache
    ensures r.state.registry == d.registry - {d.tasks[t].key}
    ensures r.state.tasks == d.tasks - {t}
    ensures r.delivered.Keys == set c | c in d.waiting && d.waiting[c] == t
    ensures forall c | c in r.delivered :: r.delivered[c] == r.result
    ensures forall c :: c in r.state.waiting <==> c in d.waiting && d.waiting[c] != t
    ensures forall c | c in r.state.waiting :: r.state.waiting[c] == d.waiting[c]
    ensures r.state.nextTask == d.nextTask
  {
    var key := d.tasks[t].key;
    var result := TaskResult(p, fetched);
    var cache := if result.Some? then SetImage(d.cache, p, result.value, key, writeSucceeds) else d.cache;
    var (delivered, waiting) := Deliver(d, t, result);
    Completion(result, delivered, d.(cache := cache, registry := d.registry - {key}, tasks := d.tasks - {t}, waiting := waiting))
  }

  /** A task that was never cancelled finishes without disturbing the invariant. */
  lemma FinishLiveTaskKeepsValid(d: Downloader, p: Platform, t: TaskId, fetched: Fetched, writeSucceeds: bool)
    requires Valid(d) && t in d.tasks && !d.tasks[t].cancelled && HashIsAbsSafe(p, d.tasks[t].key)
    ensures Valid(FinishTask(d, p, t, fetched, writeSucceeds).state)
  {
    var r := FinishTask(d, p, t, fetched, writeSucceeds).state;
    forall c | c in r.waiting ensures r.waiting[c] in r.tasks {
      assert d.waiting[c] != t;
    }
  }

  /**
   * The corrected completion: the registry entry is removed only when it
   * still names this task, so a stale task cannot unregister a newer one.
   */
  function FinishTaskGuarded(d: Downloader, p: Platform, t: TaskId, fetched: Fetched, writeSucceeds: bool): (r: Completion)
    requires t in d.tasks && HashIsAbsSafe(p, d.tasks[t].key)
    ensures r.result == TaskResult(p, fetched)
    ensures r.state.cache == FinishTask(d, p, t, fetched, writeSucceeds).state.cache
    ensures var key := d.tasks[t].key;
            r.state.registry == if key in d.registry && d.registry[key] == t then d.registry - {key} else d.registry
    ensures r.state.tasks == d.tasks - {t}
    ensures r.delivered.Keys == set c | c in d.waiting && d.waiting[c] == t
    ensures forall c | c in r.delivered :: r.delivered[c] == r.result
    ensures forall c :: c in r.state.waiting <==> c in d.waiting && d.waiting[c] != t
    ensures forall c | c in r.state.waiting :: r.state.waiting[c] == d.waiting[c]
    ensures r.state.nextTask == d.nextTask
  {
    var plain := FinishTask(d, p, t, fetched, writeSucceeds);
    var key := d.tasks[t].key;
    if key in d.registry && d.registry[key] == t then plain
    else plain.(state := plain.state.(registry := d.registry))
  }

  lemma FinishTaskGuardedKeepsValid(d: Downloader, p: Platform, t: TaskId, fetched: Fetched, writeSucceeds: bool)
    requires Valid(d) && t in d.tasks && HashIsAbsSafe(p, d.tasks[t].key)
    ensures Valid(FinishTaskGuarded(d, p, t, fetched, writeSucceeds).state)
  {
    var r := FinishTaskGuarded(d, p, t, fetched, writeSucceeds).state;
    forall c | c in r.waiting ensures r.waiting[c] in r.tasks {
      assert d.waiting[c] != t;
    }
  }

  /**
   * A completion answers every caller of the finished task and no other: each caller that
   * was waiting is either handed the result or still waits on the same task, and no caller
   * appears from nowhere. The guarded completion treats callers the same way.
   */
  lemma CompletionPartitionsCallers(d: Downloader, p: Platform, t: TaskId, fetched: Fetched, writeSucceeds: bool)
    requires t in d.tasks && HashIsAbsSafe(p, d.tasks[t].key)
    ensures var r := FinishTask(d, p, t, fetched, writeSucceeds);
      && (forall c | c in d.waiting :: (c in r.delivered) != (c in r.state.waiting))
      && (forall c | c in r.state.waiting :: c in d.waiting && r.state.waiting[c] == d.waiting[c] && d.waiting[c] != t)
      && r.delivered.Keys + r.state.waiting.Keys == d.waiting.Keys
    ensures var g := FinishTaskGuarded(d, p, t, fetched, writeSucceeds);
      var r := FinishTask(d, p, t, fetched, writeSucceeds);
      g.delivered == r.delivered && g.state.waiting == r.state.waiting
  {
  }

  /** In a valid state no key has two running, uncancelled download tasks. */
  lemma OneLiveTaskPerKey(d: Downloader, t1: TaskId, t2: TaskId)
    requires Valid(d)
    requires t1 in d.tasks && t2 in d.tasks && !d.tasks[t1].cancelled && !d.tasks[t2].cancelled
    requires d.tasks[t1].key == d.tasks[t2].key
    ensures t1 == t2
  {
  }

  /**
   * Back-to-back requests for one URL that miss the cache share one task: the
   * second joins the task the first started or joined, and no task is added.
   */
  lemma SequentialRequestsShareTask(d: Downloader, p: Platform, c1: CallerId, c2: CallerId, url: string)
    requires Valid(d) && HashIsAbsSafe(p, url)
    requires !DownloadImage(d, p, c1, url).reply.Served?
    ensures var first := DownloadImage(d, p, c1, url);
            var second := DownloadImage(first.state, p, c2, url);
            second.reply == Joined(first.reply.task) && second.state.tasks == first.state.tasks
  {
  }

  /**
   * The stale-completion race, as written: request, cancel, request again,
   * then the first (cancelled) task completes. Its completion unregisters the
   * second task, which keeps running, so a third request starts another
   * download of the same URL and two live tasks exist for one key.
   */
  lemma StaleCompletionUnregistersNewerTask(d: Downloader, p: Platform, url: string, writeSucceeds: bool)
    requires Valid(d) && HashIsAbsSafe(p, url)
    requires url !in d.registry && GetImage(d.cache, p, url).image.None?
    ensures var s1 := DownloadImage(d, p, 1, url);
            var s2 := DownloadImage(CancelDownload(s1.state, url), p, 2, url);
            var done := FinishTask(s2.state, p, s1.reply.task, FetchFailed, writeSucceeds);
            var s3 := DownloadImage(done.state, p, 3, url);
            && s2.reply.Started? && s3.reply.Started?
            && !Valid(done.state)
            && s2.reply.task != s3.reply.task
            && s2.reply.task in s3.state.tasks && s3.reply.task in s3.state.tasks
            && s3.state.tasks[s2.reply.task] == TaskInfo(url, false)
            && s3.state.tasks[s3.reply.task] == TaskInfo(url, false)
  {
    var s1 := DownloadImage(d, p, 1, url);
    var c := CancelDownload(s1.state, url);
    assert c.cache == d.cache;
    var s2 := DownloadImage(c, p, 2, url);
    var done := FinishTask(s2.state, p, s1.reply.task, FetchFailed, writeSucceeds);
    assert s2.reply.task == d.nextTask + 1;
    assert done.state.tasks[s2.reply.task] == TaskInfo(url, false);
  }

  /**
   * Request, cancel, request again from a state where the URL is neither
   * registered nor cached: both requests start tasks, the second one is
   * registered for the URL, and the first keeps running under the same key.
   */
  lemma RequestCancelRequest(d: Downloader, p: Platform, url: string)
    requires Valid(d) && HashIsAbsSafe(p, url)
    requires url !in d.registry && GetImage(d.cache, p, url).image.None?
    ensures var s1 := DownloadImage(d, p, 1, url);
            var s2 := DownloadImage(CancelDownload(s1.state, url), p, 2, url);
            && Valid(s2.state) && s2.state.cache == d.cache
            && s1.reply.Started? && s2.reply.Started?
            && s1.reply.task != s2.reply.task
            && s1.reply.task in s2.state.tasks && s2.state.tasks[s1.reply.task].key == url
            && url in s2.state.registry && s2.state.registry[url] == s2.reply.task
  {
    var s1 := DownloadImage(d, p, 1, url);
    DownloadImageKeepsValid(d, p, 1, url);
    var c := CancelDownload(s1.state, url);
    CancelDownloadKeepsValid(s1.state, url);
    assert c.cache == d.cache;
    DownloadImageKeepsValid(c, p, 2, url);
  }

  /** A completing task that is no longer registered leaves the registry as it is. */
  lemma GuardedStaleFinishKeepsRegistry(d: Downloader, p: Platform, t: TaskId, fetched: Fetched, writeSucceeds: bool)
    requires t in d.tasks && HashIsAbsSafe(p, d.tasks[t].key)
    requires d.tasks[t].key in d.registry && d.registry[d.tasks[t].key] != t
    ensures FinishTaskGuarded(d, p, t, fetched, writeSucceeds).state.registry == d.registry
  {
  }

  /** With the corrected completion the same sequence ends with the third request joining the second task. */
  lemma GuardedCompletionKeepsNewerTask(d: Downloader, p: Platform, url: string, writeSucceeds: bool)
    requires Valid(d) && HashIsAbsSafe(p, url)
    requires url !in d.registry && GetImage(d.cache, p, url).image.None?
    ensures var s1 := DownloadImage(d, p, 1, url);
            var s2 := DownloadImage(CancelDownload(s1.state, url), p, 2, url);
            var done := FinishTaskGuarded(s2.state, p, s1.reply.task, FetchFailed, writeSucceeds);
            var s3 := DownloadImage(done.state, p, 3, url);
            && Valid(done.state)
            && s3.reply == Joined(s2.reply.task)
  {
    var s1 := DownloadImage(d, p, 1, url);
    var s2 := DownloadImage(CancelDownload(s1.state, url), p, 2, url);
    RequestCancelRequest(d, p, url);
    var done := FinishTaskGuarded(s2.state, p, s1.reply.task, FetchFailed, writeSucceeds);
    FinishTaskGuardedKeepsValid(s2.state, p, s1.reply.task, FetchFailed, writeSucceeds);
    GuardedStaleFinishKeepsRegistry(s2.state, p, s1.reply.task, FetchFailed, writeSucceeds);
    assert done.state.cache == d.cache;
  }
}
