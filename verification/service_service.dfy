/** `ServiceService`, the JDBC twin: create always stamps `createdAt` with the current time. */
module ServiceService {
  import opened Wrappers
  import opened Store
  import opened Services
  import JpaServiceService

  /** `createService`: `createdAt` becomes `now` even when one was supplied. */
  function CreateService(t: Table<Service>, s: Service, now: Timestamp): (r: Saved<Service>)
    ensures r.id !in t && r.table == t[r.id := r.row]
    ensures r.row == s.(createdAt := Some(now))
  {
    Insert(t, s.(createdAt := Some(now)))
  }

  /** `updateService`: "Услуга не найдена" for an unknown id, else the non-null details overwrite. */
  function UpdateService(t: Table<Service>, id: int, p: ServicePatch): (r: Result<Saved<Service>>)
    ensures r.Err? <==> id !in t
    ensures r.Err? ==> r.message == NotFound
    ensures r.Ok? ==> var s := r.value.row;
      && Overwrites(t[id].name, p.name, s.name)
      && (p.description.Some? ==> s.description == p.description)
      && (p.description.None? ==> s.description == t[id].description)
      && Overwrites(t[id].price, p.price, s.price)
      && Overwrites(t[id].duration, p.duration, s.duration)
      && s.createdAt == t[id].createdAt
    ensures r.Ok? ==> r.value.id == id && r.value.table == t[id := r.value.row]
  {
    Update(t, id, p)
  }

  /** `deleteService`: "Услуга не найдена" for an unknown id, else exactly that row goes. */
  function DeleteService(t: Table<Service>, id: int): (r: Result<Table<Service>>)
    ensures r.Err? <==> id !in t
    ensures r.Err? ==> r.message == NotFound
    ensures r.Ok? ==> r.value.Keys == t.Keys - {id}
    ensures r.Ok? ==> forall k | k in r.value :: r.value[k] == t[k]
  {
    Delete(t, id, NotFound)
  }

  /** The two creates differ only where a `createdAt` was supplied. */
  lemma CreateDiffersFromJpa(t: Table<Service>, s: Service, now: Timestamp)
    ensures CreateService(t, s, now).id == JpaServiceService.CreateService(t, s, now).id
    ensures s.createdAt.None? ==> CreateService(t, s, now) == JpaServiceService.CreateService(t, s, now)
    ensures s.createdAt.Some? && s.createdAt.value != now ==>
      CreateService(t, s, now).row.createdAt != JpaServiceService.CreateService(t, s, now).row.createdAt
  {
  }
}
