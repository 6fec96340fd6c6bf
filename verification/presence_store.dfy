/** The companion presence store of one board: a name→UserState map behind `/add`, `/delete`, `/latest`. */
module PresenceStore {
  import opened Defaults
  import opened Records
  import opened KeyOrder
  import Storage

  type Store = map<string, UserState>

  /** The body of an `/add` request: any subset of a presence entry's fields. */
  datatype UserParams = UserParams(id: Option<string>, name: Option<string>, online: Option<bool>)

  /** `Other` stands for every path except `/add`, `/delete` and `/latest`. */
  datatype Request = Add(params: UserParams) | Delete(key: string) | Latest | Other(path: string)

  datatype Response =
    | Added(user: UserState)
    | Deleted(result: Storage.DeleteResult)
    | Listed(users: seq<UserState>)
    | NotFound

  datatype Outcome = Outcome(store: Store, response: Response)

  function StatusCode(r: Response): int {
    if r.NotFound? then 404 else 200
  }

  /** Every entry is stored under its own name. */
  predicate KeyedByName(store: Store) {
    forall k :: k in store ==> store[k].name == k
  }

  /** The entry `/add` builds: `nowId` is the ISO string of `Date.now()`. */
  function Create(p: UserParams, nowId: string): (r: UserState)
    ensures Truthy(p.id) ==> r.id == p.id.value
    ensures !Truthy(p.id) ==> r.id == nowId
    ensures Truthy(p.name) ==> r.name == p.name.value
    ensures r.name != ""
    ensures r.online <==> p.online == Some(true)
  {
    UserState(OrText(p.id, nowId), OrText(p.name, Anonymous), OrFalse(p.online))
  }

  /** `/add`: fill defaults, store under the NAME (so one entry per name), return the stored entry. */
  function AddUser(store: Store, p: UserParams, nowId: string): (r: Outcome)
    ensures r.response.Added?
    ensures Truthy(p.name) ==> r.response.user.name == p.name.value
    ensures !Truthy(p.name) ==> r.response.user.name == Anonymous
    ensures r.response.user.online <==> p.online == Some(true)
    ensures Truthy(p.id) ==> r.response.user.id == p.id.value
    ensures !Truthy(p.id) ==> r.response.user.id == nowId
    ensures r.response.user.name in r.store && r.store[r.response.user.name] == r.response.user
    ensures r.store.Keys == store.Keys + {r.response.user.name}
    ensures forall k :: k in store && k != r.response.user.name ==> r.store[k] == store[k]
  {
    var u := Create(p, nowId);
    Outcome(store[u.name := u], Added(u))
  }

  /**
   * `/delete`: remove the key if present; the result says whether it was. Keyed by name, the
   * store then holds no entry for that name.
   */
  function DeleteUser(store: Store, key: string): (r: Outcome)
    ensures r.response == Deleted(if key in store then Storage.Ok else Storage.Failed)
    ensures r.store.Keys == store.Keys - {key}
    ensures forall k :: k in r.store ==> r.store[k] == store[k]
    ensures KeyedByName(store) ==> KeyedByName(r.store) && forall u :: u in r.store.Values ==> u.name != key
  {
    var d := Storage.Delete(store, key);
    Outcome(d.0, Deleted(d.1))
  }

  /** `/latest`: the entries under the 100 greatest keys, greatest first; the store is unchanged. */
  function LatestUsers(store: Store): (r: Outcome)
    ensures r.store == store
    ensures r.response.Listed?
    ensures |r.response.users| == Storage.Min(Storage.ListLimit, |store|)
    ensures forall i :: 0 <= i < |r.response.users| ==> r.response.users[i] in store.Values
  {
    var ks := Storage.ListKeys(store, Storage.ListLimit);
    var vs := Storage.ValuesAt(store, ks);
    assert forall i :: 0 <= i < |vs| ==> vs[i] == store[ks[i]];
    Outcome(store, Listed(vs))
  }

  /** The store's `fetch`, routed by path. */
  function Handle(store: Store, req: Request, nowId: string): (r: Outcome)
    ensures StatusCode(r.response) == 404 <==> req.Other?
    ensures req.Other? ==> r.store == store && r.response == NotFound
    ensures req.Latest? ==> r.store == store && r.response.Listed?
    ensures req.Delete? ==> r.response == Deleted(if req.key in store then Storage.Ok else Storage.Failed)
    ensures req.Delete? ==> r.store == store - {req.key}
    ensures req.Add? ==> r.response.Added? && r.store == store[r.response.user.name := r.response.user]
  {
    match req
    case Add(p) => AddUser(store, p, nowId)
    case Delete(key) => DeleteUser(store, key)
    case Latest => LatestUsers(store)
    case Other(_) => Outcome(store, NotFound)
  }

  /** `/add` keeps every entry under its own name, so re-adding a name replaces its entry. */
  lemma AddKeepsKeyedByName(store: Store, p: UserParams, nowId: string)
    requires KeyedByName(store)
    ensures var r := Handle(store, Add(p), nowId);
            && KeyedByName(r.store)
            && (forall k :: k in r.store && r.store[k].name == r.response.user.name ==> r.store[k] == r.response.user)
  {
  }

  /** Two `/add`s of the same name leave exactly one entry for it: the second. */
  lemma ReAddReplaces(store: Store, p: UserParams, q: UserParams, nowId: string, laterId: string)
    requires Truthy(p.name) && q.name == p.name
    ensures var first := Handle(store, Add(p), nowId);
            var second := Handle(first.store, Add(q), laterId);
            && second.store.Keys == first.store.Keys
            && second.store[p.name.value] == second.response.user
  {
  }

  /** A second `/delete` of the same key answers `failed` with status 200 and changes nothing. */
  lemma DeleteIsIdempotent(store: Store, key: string, nowId: string)
    ensures var first := Handle(store, Delete(key), nowId);
            var second := Handle(first.store, Delete(key), nowId);
            && second.response == Deleted(Storage.Failed)
            && StatusCode(second.response) == 200
            && second.store == first.store
  {
  }

  /**
   * `/latest` on a store keyed by name: at most 100 entries, names strictly descending, and every
   * entry left out has a smaller name than every entry listed.
   */
  lemma LatestOrder(store: Store)
    requires KeyedByName(store)
    ensures var users := Handle(store, Latest, "").response.users;
            && |users| <= Storage.ListLimit
            && (forall i, j :: 0 <= i < j < |users| ==> Below(users[j].name, users[i].name))
            && (forall k :: k in store && (forall i :: 0 <= i < |users| ==> users[i].name != k) ==>
                  forall i :: 0 <= i < |users| ==> Below(k, users[i].name))
  {
    var ks := Storage.ListKeys(store, Storage.ListLimit);
    var users := Handle(store, Latest, "").response.users;
    assert users == Storage.ValuesAt(store, ks);
    assert forall i :: 0 <= i < |users| ==> users[i].name == ks[i];
  }
}
