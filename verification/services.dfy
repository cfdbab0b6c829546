/** The service (salon offering) entity and the partial patch both service services apply. */
module Services {
  import opened Wrappers
  import opened Store

  const NotFound: string := "Услуга не найдена"

  /** A stored service row; the price is a DECIMAL(10,2) in kopecks. */
  datatype Service = Service(
    name: string,
    description: Option<string>,
    price: Money,
    duration: int,
    createdAt: Option<Timestamp>)

  /** The details handed to `updateService`: a null field leaves the stored one alone. */
  datatype ServicePatch = ServicePatch(
    name: Option<string>,
    description: Option<string>,
    price: Option<Money>,
    duration: Option<int>)

  const NoChange: ServicePatch := ServicePatch(None, None, None, None)

  /** The field-by-field copy of `updateService`; `createdAt` is never touched. */
  function ApplyPatch(s: Service, p: ServicePatch): (r: Service)
    ensures Overwrites(s.name, p.name, r.name)
    ensures p.description.Some? ==> r.description == p.description
    ensures p.description.None? ==> r.description == s.description
    ensures Overwrites(s.price, p.price, r.price)
    ensures Overwrites(s.duration, p.duration, r.duration)
    ensures r.createdAt == s.createdAt
  {
    s.(name := p.name.GetOr(s.name),
       description := if p.description.Some? then p.description else s.description,
       price := p.price.GetOr(s.price),
       duration := p.duration.GetOr(s.duration))
  }

  /** The update with all details null writes back the row unchanged; a patch applied twice is applied once. */
  lemma PatchLaws(s: Service, p: ServicePatch)
    ensures ApplyPatch(s, NoChange) == s
    ensures ApplyPatch(ApplyPatch(s, p), p) == ApplyPatch(s, p)
  {
  }

  /** `updateService` as both services write it: not-found guard, then the patch. */
  function Update(t: Table<Service>, id: int, p: ServicePatch): (r: Result<Saved<Service>>)
    ensures r.Err? <==> id !in t
    ensures r.Err? ==> r.message == NotFound
    ensures r.Ok? ==> r.value.id == id && r.value.row == ApplyPatch(t[id], p)
    ensures r.Ok? ==> r.value.table.Keys == t.Keys && r.value.table[id] == r.value.row
    ensures r.Ok? ==> forall k | k in t && k != id :: r.value.table[k] == t[k]
  {
    if id !in t then Err(NotFound) else Ok(Put(t, id, ApplyPatch(t[id], p)))
  }
}
