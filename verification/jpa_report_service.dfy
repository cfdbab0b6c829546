/**
 * `JpaReportService`: the daily report is computed from every stored
 * appointment and inserted as a new row; update and delete are guarded by a
 * lookup. The clock is the `now` parameter.
 */
module JpaReportService {
  import opened Wrappers
  import opened Store
  import opened Appointments
  import opened Services
  import opened Reports

  /**
   * `generateReportForDate`: the distinct clients and the per-appointment
   * income of the completed appointments of `date`, saved as a fresh report
   * stamped `now`.
   */
  function GenerateReportForDate(apps: Table<Appointment>, services: Table<Service>,
                                 reports: Table<Report>, date: Date, now: Timestamp): (r: Saved<Report>)
    ensures r.id !in reports && r.table == reports[r.id := r.row]
    ensures r.row.reportDate == date && r.row.createdAt == Some(now)
    ensures r.row.totalClients == |ClientSet(apps, date)|
    ensures r.row.totalClients <= |CountedIds(apps, date)|
    ensures r.row.totalIncome == TableIncome(apps, services, date)
    ensures CountedIds(apps, date) == {} ==> r.row.totalClients == 0 && r.row.totalIncome == 0
  {
    ClientsBound(apps, services, date);
    var totals := DailyTotals(apps, services, date);
    Insert(reports, Report(date, totals.clients, totals.income, Some(now)))
  }

  /** `updateReport`: "Отчёт не найден" for an unknown id, else the non-null details overwrite. */
  function UpdateReport(t: Table<Report>, id: int, p: ReportPatch): (r: Result<Saved<Report>>)
    ensures r.Err? <==> id !in t
    ensures r.Err? ==> r.message == Reports.NotFound
    ensures r.Ok? ==> var s := r.value.row;
      && Overwrites(t[id].reportDate, p.reportDate, s.reportDate)
      && Overwrites(t[id].totalClients, p.totalClients, s.totalClients)
      && Overwrites(t[id].totalIncome, p.totalIncome, s.totalIncome)
      && s.createdAt == t[id].createdAt
    ensures r.Ok? ==> r.value.id == id && r.value.table == t[id := r.value.row]
  {
    Reports.Update(t, id, p)
  }

  /** `deleteReport`: "Отчёт не найден" for an unknown id, else exactly that report goes. */
  function DeleteReport(t: Table<Report>, id: int): (r: Result<Table<Report>>)
    ensures r.Err? <==> id !in t
    ensures r.Err? ==> r.message == Reports.NotFound
    ensures r.Ok? ==> r.value.Keys == t.Keys - {id}
    ensures r.Ok? ==> forall k | k in r.value :: r.value[k] == t[k]
  {
    Delete(t, id, Reports.NotFound)
  }

  /** An update with every detail null leaves the reports as they were. */
  lemma EmptyUpdateIsIdentity(t: Table<Report>, id: int)
    requires id in t
    ensures UpdateReport(t, id, Reports.NoChange).value.table == t
  {
    Reports.PatchLaws(t[id], Reports.NoChange);
  }

  /** The income of a report is additive over stored appointments: a new appointment adds its own price once. */
  lemma GeneratedIncomeGrows(apps: Table<Appointment>, services: Table<Service>, reports: Table<Report>,
                             date: Date, now: Timestamp, id: int, a: Appointment)
    requires id !in apps
    ensures GenerateReportForDate(apps[id := a], services, reports, date, now).row.totalIncome
            == GenerateReportForDate(apps, services, reports, date, now).row.totalIncome
               + Contribution(a, services, date)
  {
    IncomeOfNewAppointment(apps, services, date, id, a);
  }

  /** Generating twice for the same date stores two reports for it: nothing is replaced. */
  lemma GenerateTwiceKeepsBoth(apps: Table<Appointment>, services: Table<Service>,
                               reports: Table<Report>, date: Date, now: Timestamp, later: Timestamp)
    ensures var first := GenerateReportForDate(apps, services, reports, date, now);
            var second := GenerateReportForDate(apps, services, first.table, date, later);
            && first.id != second.id
            && second.table[first.id].reportDate == date
            && second.table[second.id].reportDate == date
            && |second.table| == |reports| + 2
  {
    var first := GenerateReportForDate(apps, services, reports, date, now);
    var second := GenerateReportForDate(apps, services, first.table, date, later);
    assert first.table.Keys == reports.Keys + {first.id};
    assert second.table.Keys == first.table.Keys + {second.id};
  }

  /** The worked example's day, services of 500 and 300 roubles, and three completed appointments. */
  const ExampleDay: Date := 20240501
  const ExampleServices: Table<Service> :=
    map[1 := Service("A", None, 50000, 60, None), 2 := Service("B", None, 30000, 30, None)]
  /** Client 7 completes both services; client 8 completes the first. */
  const ExampleApps: Table<Appointment> :=
    map[1 := Appointment(7, 1, 1, ExampleDay, 600, Completed, None, None),
        2 := Appointment(7, 1, 2, ExampleDay, 660, Completed, None, None),
        3 := Appointment(8, 2, 1, ExampleDay, 600, Completed, None, None)]

  /** Two distinct clients and 1300 roubles: one price per appointment, not per client. */
  lemma WorkedExample(reports: Table<Report>, now: Timestamp)
    ensures var r := GenerateReportForDate(ExampleApps, ExampleServices, reports, ExampleDay, now).row;
            r.totalClients == 2 && r.totalIncome == 130000
  {
    ExampleIncome();
    ExampleClients();
  }

  lemma ExampleIncome()
    ensures TableIncome(ExampleApps, ExampleServices, ExampleDay) == 130000
  {
    var apps := ExampleApps;
    var two := apps - {1};
    var one := two - {2};
    assert two == map[2 := apps[2], 3 := apps[3]];
    assert one == map[3 := apps[3]];
    assert one - {3} == map[];
    IncomeSplit(apps, ExampleServices, ExampleDay, 1);
    IncomeSplit(two, ExampleServices, ExampleDay, 2);
    IncomeSplit(one, ExampleServices, ExampleDay, 3);
    assert TableIncome(map[], ExampleServices, ExampleDay) == 0;
  }

  lemma ExampleClients()
    ensures ClientSet(ExampleApps, ExampleDay) == {7, 8}
    ensures |ClientSet(ExampleApps, ExampleDay)| == 2
  {
    var apps := ExampleApps;
    forall c | c in ClientSet(apps, ExampleDay)
      ensures c == 7 || c == 8
    {
      var k :| k in apps && Counted(apps[k], ExampleDay) && apps[k].clientId == c;
    }
    assert Counted(apps[1], ExampleDay) && Counted(apps[3], ExampleDay);
    assert ClientSet(apps, ExampleDay) == {7, 8};
    assert |{7, 8}| == 2;
  }
}
