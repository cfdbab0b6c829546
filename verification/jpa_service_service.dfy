/** `JpaServiceService`: create keeps a supplied `createdAt`; update and delete are guarded by a lookup. */
module JpaServiceService {
  import opened Wrappers
  import opened Store
  import opened Services

  /** `createService`: a null `createdAt` becomes `now`; a supplied one is kept. */
  function CreateService(t: Table<Service>, s: Service, now: Timestamp): (r: Saved<Service>)
    ensures r.id !in t && r.table == t[r.id := r.row]
    ensures r.row == s.(createdAt := Some(s.createdAt.GetOr(now)))
    ensures s.createdAt.Some? ==> r.row == s
  {
    Insert(t, s.(createdAt := Some(s.createdAt.GetOr(now))))
  }

  /** `updateService`: "Услуга не найдена" for an unknown id, else the non-null details overwrite. */
  function UpdateService(t: Table<Service>, id: int, p: ServicePatch): (r: Result<Saved<Service>>)
    ensures r.Err? <==> id !in t
    ensures r.Err? ==> r.message == NotFound
    ensures r.Ok? ==> var s := r.value.row;
      && Overwrites(t[id].name, p.name, s.name)
      && (p.description.Some? ==> s.description == p.description)
      && (p.description.None? ==> s.description == t[id].description)
      && Overwrites(t[id].price, p.price, s.price)
      && Overwrites(t[id].duration, p.duration, s.duration)
      && s.createdAt == t[id].createdAt
    ensures r.Ok? ==> r.value.id == id && r.value.table == t[id := r.value.row]
  {
    Update(t, id, p)
  }

  /** `deleteService`: "Услуга не найдена" for an unknown id, else exactly that row goes. */
  function DeleteService(t: Table<Service>, id: int): (r: Result<Table<Service>>)
    ensures r.Err? <==> id !in t
    ensures r.Err? ==> r.message == NotFound
    ensures r.Ok? ==> r.value.Keys == t.Keys - {id}
    ensures r.Ok? ==> forall k | k in r.value :: r.value[k] == t[k]
  {
    Delete(t, id, NotFound)
  }

  /** An update whose details are all null leaves the table as it was. */
  lemma EmptyUpdateIsIdentity(t: Table<Service>, id: int)
    requires id in t
    ensures UpdateService(t, id, NoChange).value.table == t
  {
    PatchLaws(t[id], NoChange);
  }
}
