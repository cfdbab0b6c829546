/** The master (staff member) entity and the partial patch `updateMaster` applies. */
module Masters {
  import opened Wrappers
  import opened Store

  const NotFound: string := "Мастер не найден"

  /** A stored master row; the rating is a DECIMAL(3,2) in hundredths. */
  datatype Master = Master(
    name: string,
    specialization: Option<string>,
    experience: Option<int>,
    rating: Option<int>,
    userId: Option<int>,
    createdAt: Option<Timestamp>)

  /** The details handed to `updateMaster`: a null field leaves the stored one alone. */
  datatype MasterPatch = MasterPatch(
    name: Option<string>,
    specialization: Option<string>,
    experience: Option<int>,
    rating: Option<int>,
    userId: Option<int>)

  const NoChange: MasterPatch := MasterPatch(None, None, None, None, None)

  /** A nullable column overwritten only by a non-null detail. */
  function Patched<T>(stored: Option<T>, given: Option<T>): Option<T> {
    if given.Some? then given else stored
  }

  /** The field-by-field copy of `updateMaster`; `createdAt` is never touched. */
  function ApplyPatch(m: Master, p: MasterPatch): (r: Master)
    ensures Overwrites(m.name, p.name, r.name)
    ensures p.specialization.Some? ==> r.specialization == p.specialization
    ensures p.specialization.None? ==> r.specialization == m.specialization
    ensures p.experience.Some? ==> r.experience == p.experience
    ensures p.experience.None? ==> r.experience == m.experience
    ensures p.rating.Some? ==> r.rating == p.rating
    ensures p.rating.None? ==> r.rating == m.rating
    ensures p.userId.Some? ==> r.userId == p.userId
    ensures p.userId.None? ==> r.userId == m.userId
    ensures r.createdAt == m.createdAt
  {
    m.(name := p.name.GetOr(m.name),
       specialization := Patched(m.specialization, p.specialization),
       experience := Patched(m.experience, p.experience),
       rating := Patched(m.rating, p.rating),
       userId := Patched(m.userId, p.userId))
  }

  /** The update with all details null writes back the row unchanged; a patch applied twice is applied once. */
  lemma PatchLaws(m: Master, p: MasterPatch)
    ensures ApplyPatch(m, NoChange) == m
    ensures ApplyPatch(ApplyPatch(m, p), p) == ApplyPatch(m, p)
  {
  }
}
