/**
 * `ReportService`, the JDBC twin: the same daily totals. The service sets no
 * `createdAt`; the repository's INSERT stores `now` for a null one without
 * setting it on the returned object, and its UPDATE leaves it alone. The clock
 * is the `now` parameter.
 */
module ReportService {
  import opened Wrappers
  import opened Store
  import opened Appointments
  import opened Services
  import opened Reports
  import JpaReportService

  /**
   * `generateReportForDate`: the totals of the completed appointments of
   * `date`, inserted as a fresh report stamped `now`. The caller gets back the
   * object it built, with the new id set and `createdAt` still null: the
   * repository's INSERT puts `now` only into the stored row.
   */
  function GenerateReportForDate(apps: Table<Appointment>, services: Table<Service>,
                                 reports: Table<Report>, date: Date, now: Timestamp): (r: Saved<Report>)
    ensures r.id !in reports && r.table == reports[r.id := r.row.(createdAt := Some(now))]
    ensures r.row.reportDate == date && r.row.createdAt == None
    ensures r.row.totalClients == |ClientSet(apps, date)|
    ensures r.row.totalClients <= |CountedIds(apps, date)|
    ensures r.row.totalIncome == TableIncome(apps, services, date)
    ensures CountedIds(apps, date) == {} ==> r.row.totalClients == 0 && r.row.totalIncome == 0
  {
    ClientsBound(apps, services, date);
    var totals := DailyTotals(apps, services, date);
    var saved := Insert(reports, Report(date, totals.clients, totals.income, Some(now)));
    saved.(row := saved.row.(createdAt := None))
  }

  /** `updateReport`: "Отчёт не найден" for an unknown id, else the non-null details overwrite. */
  function UpdateReport(t: Table<Report>, id: int, p: ReportPatch): (r: Result<Saved<Report>>)
    ensures r.Err? <==> id !in t
    ensures r.Err? ==> r.message == Reports.NotFound
    ensures r.Ok? ==> var s := r.value.row;
      && Overwrites(t[id].reportDate, p.reportDate, s.reportDate)
      && Overwrites(t[id].totalClients, p.totalClients, s.totalClients)
      && Overwrites(t[id].totalIncome, p.totalIncome, s.totalIncome)
      && s.createdAt == t[id].createdAt
    ensures r.Ok? ==> r.value.id == id && r.value.table == t[id := r.value.row]
  {
    Reports.Update(t, id, p)
  }

  /** `deleteReport`: "Отчёт не найден" for an unknown id, else exactly that report goes. */
  function DeleteReport(t: Table<Report>, id: int): (r: Result<Table<Report>>)
    ensures r.Err? <==> id !in t
    ensures r.Err? ==> r.message == Reports.NotFound
    ensures r.Ok? ==> r.value.Keys == t.Keys - {id}
    ensures r.Ok? ==> forall k | k in r.value :: r.value[k] == t[k]
  {
    Delete(t, id, Reports.NotFound)
  }

  /**
   * Both services store the same report under the same id; only the returned
   * object differs, the JPA one carrying `createdAt == now` and the JDBC one null.
   */
  lemma AgreesWithJpa(apps: Table<Appointment>, services: Table<Service>,
                      reports: Table<Report>, date: Date, now: Timestamp)
    ensures var r := GenerateReportForDate(apps, services, reports, date, now);
            var r' := JpaReportService.GenerateReportForDate(apps, services, reports, date, now);
            r.id == r'.id && r.table == r'.table && r.row == r'.row.(createdAt := None)
  {
  }
}
