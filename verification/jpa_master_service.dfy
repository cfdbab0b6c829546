/** `JpaMasterService`: create fills the null defaults; update and delete are guarded by a lookup. */
module JpaMasterService {
  import opened Wrappers
  import opened Store
  import opened Masters

  /** The three defaults of `createMaster`: `now`, a zero rating and zero years of experience. */
  function WithDefaults(m: Master, now: Timestamp): (r: Master)
    ensures r.createdAt == Some(m.createdAt.GetOr(now))
    ensures r.rating == Some(m.rating.GetOr(0))
    ensures r.experience == Some(m.experience.GetOr(0))
    ensures r.name == m.name && r.specialization == m.specialization && r.userId == m.userId
  {
    m.(createdAt := Some(m.createdAt.GetOr(now)),
       rating := Some(m.rating.GetOr(0)),
       experience := Some(m.experience.GetOr(0)))
  }

  /** `createMaster`: the defaulted master is inserted under a fresh id. */
  function CreateMaster(t: Table<Master>, m: Master, now: Timestamp): (r: Saved<Master>)
    ensures r.id !in t && r.table == t[r.id := r.row]
    ensures r.row.createdAt.Some? && r.row.rating.Some? && r.row.experience.Some?
    ensures m.createdAt.Some? ==> r.row.createdAt == m.createdAt
    ensures m.rating.Some? ==> r.row.rating == m.rating
    ensures m.experience.Some? ==> r.row.experience == m.experience
    ensures m.rating.None? ==> r.row.rating == Some(0)
    ensures m.experience.None? ==> r.row.experience == Some(0)
    ensures m.createdAt.None? ==> r.row.createdAt == Some(now)
    ensures r.row.name == m.name && r.row.specialization == m.specialization && r.row.userId == m.userId
  {
    Insert(t, WithDefaults(m, now))
  }

  /** `updateMaster`: "Мастер не найден" for an unknown id, else the non-null details overwrite. */
  function UpdateMaster(t: Table<Master>, id: int, p: MasterPatch): (r: Result<Saved<Master>>)
    ensures r.Err? <==> id !in t
    ensures r.Err? ==> r.message == NotFound
    ensures r.Ok? ==> r.value.id == id && r.value.row == ApplyPatch(t[id], p)
    ensures r.Ok? ==> r.value.table == t[id := r.value.row]
  {
    if id !in t then Err(NotFound) else Ok(Put(t, id, ApplyPatch(t[id], p)))
  }

  /** `deleteMaster`: "Мастер не найден" for an unknown id, else exactly that master goes. */
  function DeleteMaster(t: Table<Master>, id: int): (r: Result<Table<Master>>)
    ensures r.Err? <==> id !in t
    ensures r.Err? ==> r.message == NotFound
    ensures r.Ok? ==> r.value.Keys == t.Keys - {id}
    ensures r.Ok? ==> forall k | k in r.value :: r.value[k] == t[k]
  {
    Delete(t, id, NotFound)
  }

  /** The defaults are filled once: a master already carrying all three is stored as given. */
  lemma DefaultsIdempotent(m: Master, now: Timestamp, later: Timestamp)
    ensures WithDefaults(WithDefaults(m, now), later) == WithDefaults(m, now)
    ensures m.createdAt.Some? && m.rating.Some? && m.experience.Some? ==> WithDefaults(m, now) == m
  {
  }

  /** An update whose details are all null leaves the table as it was. */
  lemma EmptyUpdateIsIdentity(t: Table<Master>, id: int)
    requires id in t
    ensures UpdateMaster(t, id, NoChange).value.table == t
  {
    PatchLaws(t[id], NoChange);
  }

  /** Every master created and then updated still has a creation time, a rating and an experience. */
  lemma UpdateKeepsDefaults(t: Table<Master>, m: Master, now: Timestamp, p: MasterPatch)
    ensures var c := CreateMaster(t, m, now);
            var u := UpdateMaster(c.table, c.id, p);
            u.Ok? && u.value.row.createdAt == c.row.createdAt
            && u.value.row.rating.Some? && u.value.row.experience.Some?
  {
  }
}
