/** The companion task store of one board: a key→Task map behind `/add`, `/delete`, `/latest`. */
module StickyStore {
  import opened Defaults
  import opened Records
  import opened KeyOrder
  import Storage

  type Store = map<string, Task>

  /** The body of an `/add` request: any subset of a task's fields. */
  datatype TaskParams = TaskParams(
    id: Option<string>, title: Option<string>, timestamp: Option<int>,
    status: Option<string>, owner: Option<string>, assignee: Option<string>)

  /** `Other` stands for every path except `/add`, `/delete` and `/latest`. */
  datatype Request = Add(params: TaskParams) | Delete(id: string) | Latest | Other(path: string)

  datatype Response =
    | Added(task: Task)
    | Deleted(result: Storage.DeleteResult)
    | Listed(tasks: seq<Task>)
    | NotFound

  datatype Outcome = Outcome(store: Store, response: Response)

  const NoTitle := "no title"

  function StatusCode(r: Response): int {
    if r.NotFound? then 404 else 200
  }

  /** Every record is stored under its own id. */
  predicate KeyedById(store: Store) {
    forall k :: k in store ==> store[k].id == k
  }

  /** The task `/add` builds: `now` is `Date.now()` and `nowId` its ISO string. */
  function Create(p: TaskParams, now: int, nowId: string): (r: Task)
    ensures Truthy(p.id) ==> r.id == p.id.value
    ensures !Truthy(p.id) ==> r.id == nowId
    ensures p.timestamp.Some? && p.timestamp.value != 0 ==> r.timestamp == p.timestamp.value
    ensures !(p.timestamp.Some? && p.timestamp.value != 0) ==> r.timestamp == now
    ensures Truthy(p.title) ==> r.title == p.title.value
    ensures Truthy(p.status) ==> r.status == p.status.value
    ensures Truthy(p.owner) ==> r.owner == p.owner.value
    ensures Truthy(p.assignee) ==> r.assignee == p.assignee.value
    ensures r.title != "" && r.status != "" && r.owner != "" && r.assignee != ""
  {
    Task(
      OrText(p.id, nowId),
      OrText(p.title, NoTitle),
      OrNumber(p.timestamp, now),
      OrText(p.status, StatusPending),
      OrText(p.owner, Anonymous),
      OrText(p.assignee, Anonymous))
  }

  /** `/add`: fill defaults for missing or falsy fields, store under the id, return the stored record. */
  function AddTask(store: Store, p: TaskParams, now: int, nowId: string): (r: Outcome)
    ensures r.response.Added?
    ensures Truthy(p.id) ==> r.response.task.id == p.id.value
    ensures !Truthy(p.id) ==> r.response.task.id == nowId
    ensures Truthy(p.title) ==> r.response.task.title == p.title.value
    ensures !Truthy(p.title) ==> r.response.task.title == NoTitle
    ensures p.timestamp.Some? && p.timestamp.value != 0 ==> r.response.task.timestamp == p.timestamp.value
    ensures !(p.timestamp.Some? && p.timestamp.value != 0) ==> r.response.task.timestamp == now
    ensures Truthy(p.status) ==> r.response.task.status == p.status.value
    ensures !Truthy(p.status) ==> r.response.task.status == StatusPending
    ensures Truthy(p.owner) ==> r.response.task.owner == p.owner.value
    ensures !Truthy(p.owner) ==> r.response.task.owner == Anonymous
    ensures Truthy(p.assignee) ==> r.response.task.assignee == p.assignee.value
    ensures !Truthy(p.assignee) ==> r.response.task.assignee == Anonymous
    ensures r.response.task.id in r.store && r.store[r.response.task.id] == r.response.task
    ensures r.store.Keys == store.Keys + {r.response.task.id}
    ensures forall k :: k in store && k != r.response.task.id ==> r.store[k] == store[k]
  {
    var t := Create(p, now, nowId);
    Outcome(store[t.id := t], Added(t))
  }

  /**
   * `/delete`: remove the key if present; the result says whether it was. The tasks that stay
   * are still filed under their own ids.
   */
  function DeleteTask(store: Store, id: string): (r: Outcome)
    ensures r.response == Deleted(if id in store then Storage.Ok else Storage.Failed)
    ensures r.store.Keys == store.Keys - {id}
    ensures forall k :: k in r.store ==> r.store[k] == store[k]
    ensures KeyedById(store) ==> KeyedById(r.store) && forall t :: t in r.store.Values ==> t.id != id
  {
    var d := Storage.Delete(store, id);
    Outcome(d.0, Deleted(d.1))
  }

  /** `/latest`: the values under the 100 greatest keys, greatest first; the store is unchanged. */
  function LatestTasks(store: Store): (r: Outcome)
    ensures r.store == store
    ensures r.response.Listed?
    ensures |r.response.tasks| == Storage.Min(Storage.ListLimit, |store|)
    ensures forall i :: 0 <= i < |r.response.tasks| ==> r.response.tasks[i] in store.Values
  {
    var ks := Storage.ListKeys(store, Storage.ListLimit);
    var vs := Storage.ValuesAt(store, ks);
    assert forall i :: 0 <= i < |vs| ==> vs[i] == store[ks[i]];
    Outcome(store, Listed(vs))
  }

  /** The store's `fetch`, routed by path. */
  function Handle(store: Store, req: Request, now: int, nowId: string): (r: Outcome)
    ensures StatusCode(r.response) == 404 <==> req.Other?
    ensures req.Other? ==> r.store == store && r.response == NotFound
    ensures req.Latest? ==> r.store == store && r.response.Listed?
    ensures req.Delete? ==> r.response == Deleted(if req.id in store then Storage.Ok else Storage.Failed)
    ensures req.Delete? ==> r.store == store - {req.id}
    ensures req.Add? ==> r.response.Added? && r.store == store[r.response.task.id := r.response.task]
  {
    match req
    case Add(p) => AddTask(store, p, now, nowId)
    case Delete(id) => DeleteTask(store, id)
    case Latest => LatestTasks(store)
    case Other(_) => Outcome(store, NotFound)
  }

  /** A second `/delete` of the same id answers `failed` with status 200 and changes nothing. */
  lemma DeleteIsIdempotent(store: Store, id: string, now: int, nowId: string)
    ensures var first := Handle(store, Delete(id), now, nowId);
            var second := Handle(first.store, Delete(id), now, nowId);
            && second.response == Deleted(Storage.Failed)
            && StatusCode(second.response) == 200
            && second.store == first.store
  {
  }

  /** The request that re-submits a stored task with every field present. */
  function Resubmit(t: Task): TaskParams {
    TaskParams(Some(t.id), Some(t.title), Some(t.timestamp), Some(t.status), Some(t.owner), Some(t.assignee))
  }

  /**
   * Round trip: re-adding the record `/add` returned, at any later time, returns the same
   * record and leaves the store as it was — the defaults are themselves truthy, so a completed
   * record needs no further filling (given a non-empty clock id and a non-zero clock).
   */
  lemma ReAddIsNoop(store: Store, p: TaskParams, now: int, nowId: string, later: int, laterId: string)
    requires nowId != "" && now != 0
    ensures var first := Handle(store, Add(p), now, nowId);
            var again := Handle(first.store, Add(Resubmit(first.response.task)), later, laterId);
            again == first
  {
    var first := Handle(store, Add(p), now, nowId);
    var t := first.response.task;
    assert Create(Resubmit(t), later, laterId) == t;
  }

  /** `/add` keeps every record under its own id. */
  lemma AddKeepsKeyedById(store: Store, p: TaskParams, now: int, nowId: string)
    requires KeyedById(store)
    ensures KeyedById(Handle(store, Add(p), now, nowId).store)
  {
  }

  /**
   * `/latest` on a store keyed by id: at most 100 tasks, ids strictly descending, and every task
   * left out has a smaller id than every task listed.
   */
  lemma LatestOrder(store: Store)
    requires KeyedById(store)
    ensures var tasks := Handle(store, Latest, 0, "").response.tasks;
            && |tasks| <= Storage.ListLimit
            && (forall i, j :: 0 <= i < j < |tasks| ==> Below(tasks[j].id, tasks[i].id))
            && (forall k :: k in store && (forall i :: 0 <= i < |tasks| ==> tasks[i].id != k) ==>
                  forall i :: 0 <= i < |tasks| ==> Below(k, tasks[i].id))
  {
    var ks := Storage.ListKeys(store, Storage.ListLimit);
    var tasks := Handle(store, Latest, 0, "").response.tasks;
    assert tasks == Storage.ValuesAt(store, ks);
    assert forall i :: 0 <= i < |tasks| ==> tasks[i].id == ks[i];
  }
}
