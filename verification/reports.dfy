/**
 * The report entity and the daily aggregation both report services run:
 * keep the completed appointments of the date, count their distinct clients,
 * and add up their services' prices once per appointment.
 */
module Reports {
  import opened Wrappers
  import opened Store
  import opened Appointments
  import opened Services

  const NotFound: string := "Отчёт не найден"

  /** A stored report row; the income is a DECIMAL(10,2) in kopecks. */
  datatype Report = Report(
    reportDate: Date,
    totalClients: int,
    totalIncome: Money,
    createdAt: Option<Timestamp>)

  /** The details handed to `updateReport`: a null field leaves the stored one alone. */
  datatype ReportPatch = ReportPatch(
    reportDate: Option<Date>,
    totalClients: Option<int>,
    totalIncome: Option<Money>)

  const NoChange: ReportPatch := ReportPatch(None, None, None)

  /** The stream filter of `generateReportForDate`: the date matches and the status is exactly "Выполнена". */
  predicate Counted(a: Appointment, date: Date) {
    a.date == date && a.status == Completed
  }

  function CompletedOn(rows: seq<Appointment>, date: Date): (r: seq<Appointment>)
    ensures forall a | a in r :: a in rows && Counted(a, date)
    ensures forall a | a in rows && Counted(a, date) :: a in r
    ensures forall a :: multiset(r)[a] == if Counted(a, date) then multiset(rows)[a] else 0
  {
    if rows == [] then []
    else
      var rest := CompletedOn(rows[1..], date);
      assert rows == [rows[0]] + rows[1..];
      if Counted(rows[0], date) then [rows[0]] + rest else rest
  }

  /** The client ids of a list of appointments, as `Collectors.toSet()` gathers them. */
  function ClientsOf(xs: seq<Appointment>): (r: set<int>)
    ensures forall a | a in xs :: a.clientId in r
    ensures forall c | c in r :: exists a | a in xs :: a.clientId == c
    ensures |r| <= |xs|
  {
    if xs == [] then {}
    else
      var rest := ClientsOf(xs[1..]);
      assert forall a | a in xs :: a == xs[0] || a in xs[1..];
      {xs[0].clientId} + rest
  }

  /** What one appointment's service adds to the income: its price, or nothing when the service is gone. */
  function PriceOf(services: Table<Service>, serviceId: int): Money {
    if serviceId in services then services[serviceId].price else 0
  }

  /** The income of a list of appointments, one price per appointment. */
  function Income(xs: seq<Appointment>, services: Table<Service>): Money {
    if xs == [] then 0 else PriceOf(services, xs[0].serviceId) + Income(xs[1..], services)
  }

  lemma {:induction false} IncomeAppend(xs: seq<Appointment>, ys: seq<Appointment>, services: Table<Service>)
    ensures Income(xs + ys, services) == Income(xs, services) + Income(ys, services)
  {
    if xs == [] {
      assert xs + ys == ys;
    } else {
      assert (xs + ys)[1..] == xs[1..] + ys;
      IncomeAppend(xs[1..], ys, services);
    }
  }

  /** The `for` loop of `generateReportForDate` that adds up the prices. */
  method SumIncome(completed: seq<Appointment>, services: Table<Service>) returns (total: Money)
    ensures total == Income(completed, services)
  {
    total := 0;
    var i := 0;
    while i < |completed|
      invariant 0 <= i <= |completed|
      invariant total == Income(completed[..i], services)
    {
      var serviceId := completed[i].serviceId;
      if serviceId in services {
        total := total + services[serviceId].price;
      }
      IncomeAppend(completed[..i], [completed[i]], services);
      assert completed[..i + 1] == completed[..i] + [completed[i]];
      i := i + 1;
    }
    assert completed[..i] == completed;
  }

  /** The ids of the appointments a report for `date` counts. */
  function CountedIds(apps: Table<Appointment>, date: Date): set<int> {
    set k | k in apps && Counted(apps[k], date)
  }

  /** The distinct clients of the appointments a report for `date` counts. */
  function ClientSet(apps: Table<Appointment>, date: Date): set<int> {
    set k | k in apps && Counted(apps[k], date) :: apps[k].clientId
  }

  /** The distinct clients of the appointments with the given ids. */
  function ClientsAmong(apps: Table<Appointment>, ids: set<int>): set<int>
    requires ids <= apps.Keys
  {
    set k | k in ids :: apps[k].clientId
  }

  /** What one stored appointment adds to the income of a report for `date`. */
  function Contribution(a: Appointment, services: Table<Service>, date: Date): Money {
    if Counted(a, date) then PriceOf(services, a.serviceId) else 0
  }

  datatype Totals = Totals(clients: int, income: Money)

  /** The two totals of `generateReportForDate`, over the listing `findAll()` returns. */
  function DailyTotals(apps: Table<Appointment>, services: Table<Service>, date: Date): (r: Totals)
    ensures r.clients == |ClientSet(apps, date)|
    ensures CountedIds(apps, date) == {} ==> r == Totals(0, 0)
  {
    var completed := CompletedOn(Rows(apps), date);
    ClientsOfListing(apps, date);
    NothingCounted(apps, date);
    Totals(|ClientsOf(completed)|, TableIncome(apps, services, date))
  }

  /** The income total: the prices of the completed appointments of `date` in the listing. */
  function TableIncome(apps: Table<Appointment>, services: Table<Service>, date: Date): Money {
    Income(CompletedOn(Rows(apps), date), services)
  }

  lemma ClientsOfListing(apps: Table<Appointment>, date: Date)
    ensures ClientsOf(CompletedOn(Rows(apps), date)) == ClientSet(apps, date)
  {
    var completed := CompletedOn(Rows(apps), date);
    forall c | c in ClientsOf(completed)
      ensures c in ClientSet(apps, date)
    {
      var a :| a in completed && a.clientId == c;
      assert a in Rows(apps);
      var k :| k in apps && apps[k] == a;
    }
    forall c | c in ClientSet(apps, date)
      ensures c in ClientsOf(completed)
    {
      var k :| k in apps && Counted(apps[k], date) && apps[k].clientId == c;
      assert apps[k] in Rows(apps);
      assert apps[k] in completed;
    }
  }

  /** With no counted appointment in the store, the filtered listing is empty. */
  lemma NothingCounted(apps: Table<Appointment>, date: Date)
    ensures CountedIds(apps, date) == {} ==> CompletedOn(Rows(apps), date) == []
  {
    if CountedIds(apps, date) == {} {
      forall a | a in Rows(apps)
        ensures !Counted(a, date)
      {
        var k :| k in apps && apps[k] == a;
        assert k !in CountedIds(apps, date);
      }
      NoneCounted(Rows(apps), date);
    }
  }

  lemma {:induction false} NoneCounted(rows: seq<Appointment>, date: Date)
    requires forall a | a in rows :: !Counted(a, date)
    ensures CompletedOn(rows, date) == []
  {
    if rows != [] {
      assert rows[0] in rows;
      assert forall a | a in rows[1..] :: a in rows;
      NoneCounted(rows[1..], date);
    }
  }

  /** The income is a sum over stored appointments: taking any one out removes exactly its contribution. */
  lemma {:induction false} IncomeSplit(apps: Table<Appointment>, services: Table<Service>, date: Date, k: int)
    requires k in apps
    ensures TableIncome(apps, services, date)
            == Contribution(apps[k], services, date) + TableIncome(apps - {k}, services, date)
    decreases |apps|
  {
    var m := TableIncomeStep(apps, services, date);
    if k != m {
      var rest := apps - {m};
      assert rest.Keys == apps.Keys - {m};
      assert k in rest && rest[k] == apps[k];
      IncomeSplit(rest, services, date, k);
      SwapRemovals(apps, services, date, k, m);
    }
  }

  /**
   * The step of `IncomeSplit`: when the least key `m` is listed first, taking
   * out `k` instead still lists `m` first, so the two removals add up the same.
   */
  lemma SwapRemovals(apps: Table<Appointment>, services: Table<Service>, date: Date, k: int, m: int)
    requires k in apps && m in apps && k != m
    requires forall j | j in apps :: m <= j
    requires TableIncome(apps, services, date)
             == Contribution(apps[m], services, date) + TableIncome(apps - {m}, services, date)
    requires TableIncome(apps - {m}, services, date)
             == Contribution(apps[k], services, date) + TableIncome((apps - {m}) - {k}, services, date)
    ensures TableIncome(apps, services, date)
            == Contribution(apps[k], services, date) + TableIncome(apps - {k}, services, date)
  {
    OtherStillStartsAtLeast(apps, services, date, k, m);
    RemoveCommutes(apps, k, m);
  }

  /** With `k` taken out, the listing still starts at the least key `m`. */
  lemma OtherStillStartsAtLeast(apps: Table<Appointment>, services: Table<Service>, date: Date, k: int, m: int)
    requires k in apps && m in apps && k != m
    requires forall j | j in apps :: m <= j
    ensures TableIncome(apps - {k}, services, date)
            == Contribution(apps[m], services, date) + TableIncome((apps - {k}) - {m}, services, date)
  {
    var other := apps - {k};
    LeastAfterRemove(apps, k, m);
    var m' := TableIncomeStep(other, services, date);
    assert m' == m && other[m] == apps[m];
  }

  /** Removing a key other than the least keeps the least. */
  lemma LeastAfterRemove(apps: Table<Appointment>, k: int, m: int)
    requires k in apps && m in apps && k != m
    requires forall j | j in apps :: m <= j
    ensures (apps - {k}).Keys != {} && Least((apps - {k}).Keys) == m
  {
    var other := apps - {k};
    assert other.Keys == apps.Keys - {k};
    assert m in other.Keys;
    var l := Least(other.Keys);
    assert l in apps.Keys;
  }

  /** The listing starts at the least id: that row's contribution, plus the income of the rest. */
  lemma TableIncomeStep(apps: Table<Appointment>, services: Table<Service>, date: Date) returns (m: int)
    requires apps != map[]
    ensures m in apps && (forall j | j in apps :: m <= j) && |apps - {m}| < |apps|
    ensures TableIncome(apps, services, date)
            == Contribution(apps[m], services, date) + TableIncome(apps - {m}, services, date)
  {
    RowsStep(apps);
    m := Least(apps.Keys);
    assert (apps - {m}).Keys == apps.Keys - {m};
    HeadStep(apps[m], Rows(apps - {m}), services, date);
  }

  lemma RowsStep(t: Table<Appointment>)
    requires t != map[]
    ensures t.Keys != {}
    ensures Rows(t) == [t[Least(t.Keys)]] + Rows(t - {Least(t.Keys)})
  {
    NonEmptyKeys(t);
  }

  /** One step of the listing: the head appointment adds its contribution to the rest. */
  lemma HeadStep(a: Appointment, rows: seq<Appointment>, services: Table<Service>, date: Date)
    ensures Income(CompletedOn([a] + rows, date), services)
            == Contribution(a, services, date) + Income(CompletedOn(rows, date), services)
  {
    assert ([a] + rows)[1..] == rows;
    if Counted(a, date) {
      var r := CompletedOn(rows, date);
      assert ([a] + r)[1..] == r;
    }
  }

  /** Adding one appointment under a fresh id adds exactly its contribution: once per appointment, not per client. */
  lemma IncomeOfNewAppointment(apps: Table<Appointment>, services: Table<Service>, date: Date, id: int, a: Appointment)
    requires id !in apps
    ensures TableIncome(apps[id := a], services, date)
            == TableIncome(apps, services, date) + Contribution(a, services, date)
  {
    RemoveInserted(apps, id, a);
    IncomeSplit(apps[id := a], services, date, id);
  }

  /** Never more distinct clients than counted appointments. */
  lemma {:induction false} ClientsAtMostAppointments(apps: Table<Appointment>, ids: set<int>)
    requires ids <= apps.Keys
    ensures |ClientsAmong(apps, ids)| <= |ids|
  {
    if ids != {} {
      Inhabited(ids);
      var x :| x in ids;
      ClientsAtMostAppointments(apps, ids - {x});
      var image := ClientsAmong(apps, ids);
      var smaller := ClientsAmong(apps, ids - {x});
      forall c | c in image
        ensures c in smaller + {apps[x].clientId}
      {
        var k :| k in ids && apps[k].clientId == c;
        if k != x {
          assert k in ids - {x};
        }
      }
      assert image == smaller + {apps[x].clientId};
      assert |ids - {x}| == |ids| - 1;
    } else {
      assert ClientsAmong(apps, ids) == {};
    }
  }

  lemma ClientsBound(apps: Table<Appointment>, services: Table<Service>, date: Date)
    ensures DailyTotals(apps, services, date).clients <= |CountedIds(apps, date)|
  {
    ClientsAtMostAppointments(apps, CountedIds(apps, date));
    assert ClientSet(apps, date) == ClientsAmong(apps, CountedIds(apps, date));
  }

  /** The field-by-field copy of `updateReport`; `createdAt` is never touched. */
  function ApplyPatch(r: Report, p: ReportPatch): (r': Report)
    ensures Overwrites(r.reportDate, p.reportDate, r'.reportDate)
    ensures Overwrites(r.totalClients, p.totalClients, r'.totalClients)
    ensures Overwrites(r.totalIncome, p.totalIncome, r'.totalIncome)
    ensures r'.createdAt == r.createdAt
  {
    r.(reportDate := p.reportDate.GetOr(r.reportDate),
       totalClients := p.totalClients.GetOr(r.totalClients),
       totalIncome := p.totalIncome.GetOr(r.totalIncome))
  }

  /** An all-null patch changes nothing, and a patch applied twice is applied once. */
  lemma PatchLaws(r: Report, p: ReportPatch)
    ensures ApplyPatch(r, NoChange) == r
    ensures ApplyPatch(ApplyPatch(r, p), p) == ApplyPatch(r, p)
  {
  }

  /** `updateReport`: "Отчёт не найден" for an unknown id, else the non-null details overwrite. */
  function Update(t: Table<Report>, id: int, p: ReportPatch): (r: Result<Saved<Report>>)
    ensures r.Err? <==> id !in t
    ensures r.Err? ==> r.message == NotFound
    ensures r.Ok? ==> r.value.id == id && r.value.row == ApplyPatch(t[id], p)
    ensures r.Ok? ==> r.value.table == t[id := r.value.row]
  {
    if id !in t then Err(NotFound) else Ok(Put(t, id, ApplyPatch(t[id], p)))
  }
}
