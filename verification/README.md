# Salon booking administration: a Dafny model of its service layer

The application manages users, masters (staff), services, appointments and
daily reports behind a Spring REST API. This project models the rules its
service classes apply between the controllers and the database:

- appointment booking with its slot check;
- the daily report aggregation;
- the user registry with unique usernames and emails;
- the role-to-authority mapping;
- the master and service catalogues;
- the `escapeHtml` helper of the dashboard script;
- the line classifier and table reader of the three Python scripts that turn
  the project's Markdown note into a Word document.

Each database table is a `map<int, Row>` keyed by the identity column
(`Store.Table`). An insert takes the fresh id one above the greatest key. Every
operation is a pure function that returns the saved row and the new table, or
`Err` carrying the exact message the Java code throws. A Java `null` is
`Option.None`. The clock is a `now` parameter, and the BCrypt encoder is an
`encode: string -> string` parameter. Dates, times and timestamps are integers,
because only their equality matters. Prices and incomes (`DECIMAL(10,2)`) are
integers in kopecks, and the master rating (`DECIMAL(3,2)`) is an integer in
hundredths.

The JPA services and their older JDBC twins are modelled side by side. Lemmas
state where the twins agree and where they differ.

The three Python scripts share one state machine, `Markdown.Run`. A `Script`
value selects the dialect: `WordDoc` is `create_word_doc.py`, `WordFinal` is
`create_word_final.py` and `WordExact` is `create_word_doc_exact.py`. The
python-docx calls become a sequence of `Block` values. The `re.sub` stripping
of inline markup is a pair of uninterpreted functions, `Markup.inline` and
`Markup.plain`.

The code behaves as follows where one might expect otherwise:

- The JPA `createAppointment` fills a creation or update time only when it is
  null. The JDBC `createAppointment` fills neither itself, but its repository's
  INSERT writes `now` into both columns, whatever was given.
- The JDBC `updateAppointment`, `cancelAppointment` and `completeAppointment`
  leave `updatedAt` alone, because the repository's UPDATE does not write the
  timestamp columns.
- The JPA `createAppointment` reads the clock once for `createdAt` and again
  for `updatedAt`, so the two can differ. The JDBC INSERT reads it once.
- The JDBC report INSERT writes `now` when `createdAt` is null, so a generated
  report is stored with a stamp like the JPA one. The object handed back to the
  caller still has a null `createdAt`.
- The appointment status is free text. An update can write any value.
- No positive price is enforced on a service.
- `create_word_final.py` and `create_word_doc_exact.py` stop with an
  `IndexError` on a bullet, numbered item or plain paragraph whose text is
  empty: python-docx adds no run for an empty text, and these scripts set the
  font of `p.runs[0]`. No document is saved then (`Markdown.Document`,
  `MarkdownLaws.EmptyBulletAborts`).
- All three scripts stop with a `ValueError` when a heading, run or table cell
  would get a control character other than tab, line feed or carriage
  return: lxml refuses such text. A vertical tab inside a line survives
  `rstrip` and `split('\n')`, so `create_word_doc.py` can fail too
  (`MarkdownLaws.ControlCharAborts`).
- Spring's `User` constructor refuses an empty username, so logging in as a
  stored user whose username is empty fails with `IllegalArgumentException`
  rather than `UsernameNotFoundException` (`UserDetailsService.LoadUserByUsername`).
- `create_word_final.py` computes the generic heading level from the length of
  everything its `lstrip('#').strip()` removed. The whitespace after the hashes
  counts, so `"#Title"` gets level 0 and adds nothing (`MarkdownLaws.FinalHeadingLevel`,
  `MarkdownLaws.GluedHashEmitsNothing`).

## Model

| member | source | states |
|---|---|---|
| Appointments.OfMasterOn | src/main/java/com/parik/service/JpaAppointmentService.java:69-70 | the rows of one master on one date: every row returned is such a row of the listing, and every such row is returned |
| Appointments.FindClash | src/main/java/com/parik/service/JpaAppointmentService.java:72-77 | the loop reports a clash exactly when some listed booking is not "Отменена" and has the requested time |
| Appointments.ScanFindsBooked | src/main/java/com/parik/service/JpaAppointmentService.java:69-77 | scanning the master's bookings for the day finds a blocking one exactly when the table holds a live booking of that master, date and time |
| Appointments.ApplyPatch | src/main/java/com/parik/service/JpaAppointmentService.java:96-113 | each of clientId, masterId, serviceId, date, time and status is replaced only by a non-null detail; the timestamps are kept |
| Appointments.PatchLaws | src/main/java/com/parik/service/JpaAppointmentService.java:96-113 | an all-null patch is the identity, and applying a patch twice is applying it once |
| Appointments.OtherSlotsUnaffected | src/main/java/com/parik/service/JpaAppointmentService.java:69-70 | writing a row of another master or another date leaves whether a slot is booked unchanged |
| Appointments.Blocks | src/main/java/com/parik/service/JpaAppointmentService.java:73-74 | a booking blocks a time when it is not "Отменена" and has that time |
| Appointments.Booked | src/main/java/com/parik/service/JpaAppointmentService.java:69-77 | a slot is booked when some stored row of that master and date blocks its time |
| Appointments.NoDoubleBooking | src/main/java/com/parik/service/JpaAppointmentService.java:69-77 | the invariant the slot check aims at: no live booking shares master, date and time with another booking |
| Appointments.RestatusKeepsNoDoubleBooking | src/main/java/com/parik/service/JpaAppointmentService.java:119-133 | rewriting one booking's status keeps the invariant exactly when the new status is "Отменена", the old one was not, or the slot holds no other live booking |
| JpaAppointmentService.CreateAppointment | src/main/java/com/parik/service/JpaAppointmentService.java:68-90 | fails with "Это время уже занято" exactly when the slot is booked; otherwise exactly one row is added under a fresh id, a null status becomes "Запланирована", a null createdAt and a null updatedAt become the first and the second clock reading, the other fields are as given and no stored row changes |
| JpaAppointmentService.UpdateAppointment | src/main/java/com/parik/service/JpaAppointmentService.java:92-117 | fails with "Запись не найдена" exactly for an unknown id; otherwise only the non-null details overwrite, createdAt is kept, updatedAt becomes `now`, and only that row changes |
| JpaAppointmentService.SetStatus | src/main/java/com/parik/service/JpaAppointmentService.java:119-133 | the shared body of cancel and complete: not-found error, or that row with the new status and `now`; every other row is unchanged |
| JpaAppointmentService.CancelAppointment | src/main/java/com/parik/service/JpaAppointmentService.java:119-125 | fails for an unknown id; otherwise sets "Отменена" whatever the current status, and no other row changes |
| JpaAppointmentService.CompleteAppointment | src/main/java/com/parik/service/JpaAppointmentService.java:127-133 | fails for an unknown id; otherwise sets "Выполнена" whatever the current status, and no other row changes |
| JpaAppointmentService.DeleteAppointment | src/main/java/com/parik/service/JpaAppointmentService.java:135-140 | fails with "Запись не найдена" exactly for an unknown id; otherwise exactly that key is removed and every other row is kept |
| JpaAppointmentService.SearchAppointments | src/main/java/com/parik/service/JpaAppointmentService.java:39-46 | a query `parseInt` accepts selects exactly the appointments whose client id or master id equals it; any other query returns the whole table |
| JpaAppointmentService.CreateKeepsNoDoubleBooking | src/main/java/com/parik/service/JpaAppointmentService.java:68-90 | a successful create keeps the invariant that no two live bookings share master, date and time |
| JpaAppointmentService.SecondBookingConflicts | src/main/java/com/parik/service/JpaAppointmentService.java:68-77 | after a live booking is created, a second booking of the same master, date and time fails with "Это время уже занято" |
| JpaAppointmentService.CancelFreesSlot | src/main/java/com/parik/service/JpaAppointmentService.java:73-74 | cancelling the only live booking of a slot lets the same slot be booked again |
| JpaAppointmentService.OtherMasterOrDateNeverConflicts | src/main/java/com/parik/service/JpaAppointmentService.java:69-70 | bookings of other masters or on other dates never make a create fail |
| JpaAppointmentService.CancelledNeverBlocks | src/main/java/com/parik/service/JpaAppointmentService.java:73 | when every booking of the slot is cancelled, the create succeeds |
| JpaAppointmentService.CancelKeepsNoDoubleBooking | src/main/java/com/parik/service/JpaAppointmentService.java:119-125 | cancelling keeps the no-double-booking invariant |
| JpaAppointmentService.CompleteCanDoubleBook | src/main/java/com/parik/service/JpaAppointmentService.java:127-133 | completing a cancelled booking whose slot was rebooked breaks the invariant, because complete is unguarded |
| JpaAppointmentService.CompleteKeepsNoDoubleBooking | src/main/java/com/parik/service/JpaAppointmentService.java:127-133 | completing keeps the invariant exactly when the booking was not cancelled or its slot was not rebooked |
| JpaAppointmentService.UpdateCanDoubleBook | src/main/java/com/parik/service/JpaAppointmentService.java:92-117 | moving a booking onto a live booking's time succeeds and breaks the invariant, because update runs no slot check |
| JpaAppointmentService.EmptyUpdateOnlyTouches | src/main/java/com/parik/service/JpaAppointmentService.java:92-117 | an all-null update changes nothing but updatedAt |
| JpaAppointmentService.SearchByShownId | src/main/java/com/parik/service/JpaAppointmentService.java:39-42 | searching for the printed form of a 32-bit id returns exactly the appointments of that client or master |
| AppointmentService.CreateAppointment | src/main/java/com/parik/service/AppointmentService.java:42-59 | the same slot check and status default as the JPA service; the repository's INSERT (`AppointmentRepository.java:100-102`) stamps both timestamps with `now`, whatever was given |
| AppointmentService.UpdateAppointment | src/main/java/com/parik/service/AppointmentService.java:61-85 | fails for an unknown id; otherwise only the non-null details overwrite, and both timestamps are kept |
| AppointmentService.CancelAppointment | src/main/java/com/parik/service/AppointmentService.java:87-92 | fails for an unknown id; otherwise only the status of that row changes, to "Отменена" |
| AppointmentService.CompleteAppointment | src/main/java/com/parik/service/AppointmentService.java:94-99 | fails for an unknown id; otherwise only the status of that row changes, to "Выполнена" |
| AppointmentService.DeleteAppointment | src/main/java/com/parik/service/AppointmentService.java:101-106 | fails exactly for an unknown id; otherwise removes only that id |
| AppointmentService.AgreesWithJpa | src/main/java/com/parik/service/AppointmentService.java:42-59 | the two creates accept the same bookings, pick the same id and store rows that differ at most in the timestamps, which only the JPA one takes from the request and otherwise reads from the clock once per column; with both timestamps null they store the same row when the JPA service's two readings equal the JDBC `now` |
| AppointmentService.CreateKeepsNoDoubleBooking | src/main/java/com/parik/service/AppointmentService.java:42-59 | a successful JDBC create keeps the no-double-booking invariant |
| AppointmentService.CancelKeepsNoDoubleBooking | src/main/java/com/parik/service/AppointmentService.java:87-92 | a JDBC cancel keeps the no-double-booking invariant |
| AppointmentService.CompleteKeepsNoDoubleBooking | src/main/java/com/parik/service/AppointmentService.java:94-99 | a JDBC complete keeps the invariant exactly when the booking was not cancelled or its slot was not rebooked |
| JavaInt.DigitChar | src/main/java/com/parik/service/JpaAppointmentService.java:41 | the digit character of a value below ten reads back as that value |
| JavaInt.ParseInt | src/main/java/com/parik/service/JpaAppointmentService.java:41 | `Integer.parseInt` accepts exactly an optional sign and a non-empty run of digits whose value lies in the 32-bit range, and returns that value |
| JavaInt.ShowNat | src/main/java/com/parik/service/JpaAppointmentService.java:41 | the decimal numeral of a natural number: digits only, no leading zero, and its value is the number |
| JavaInt.ParseShow | src/main/java/com/parik/service/JpaAppointmentService.java:41 | every 32-bit value survives printing and parsing back |
| JavaInt.OverflowRejected | src/main/java/com/parik/service/JpaAppointmentService.java:41-44 | "2147483648" is rejected and "-2147483648" is accepted |
| JavaInt.MalformedRejected | src/main/java/com/parik/service/JpaAppointmentService.java:41-44 | the empty string, a lone sign and a trailing letter are rejected |
| Reports.CompletedOn | src/main/java/com/parik/service/JpaReportService.java:89-91 | keeps exactly the appointments of the date whose status is "Выполнена", each as often as it occurs in the listing |
| Reports.Counted | src/main/java/com/parik/service/JpaReportService.java:89-91 | an appointment counts for a date when it is of that date and its status is "Выполнена" |
| Reports.PriceOf | src/main/java/com/parik/service/JpaReportService.java:97-103 | the price of the appointment's service, or nothing when the service is missing |
| Reports.Income | src/main/java/com/parik/service/JpaReportService.java:97-103 | the sum of the service prices of a list of appointments |
| Reports.ClientsOf | src/main/java/com/parik/service/JpaReportService.java:93-95 | the set of client ids of the list: each appointment's client is in it, each member comes from some appointment, and it is no larger than the list |
| Reports.IncomeAppend | src/main/java/com/parik/service/JpaReportService.java:97-103 | the income of two lists end to end is the sum of their incomes |
| Reports.SumIncome | src/main/java/com/parik/service/JpaReportService.java:97-103 | the loop adds each appointment's service price once and skips a missing service |
| Reports.DailyTotals | src/main/java/com/parik/service/JpaReportService.java:87-103 | the client total is the number of distinct clients among the counted appointments; with nothing counted both totals are 0 |
| Reports.ClientsOfListing | src/main/java/com/parik/service/JpaReportService.java:87-95 | the clients gathered from the filtered listing are the distinct clients of the counted stored appointments |
| Reports.NothingCounted | src/main/java/com/parik/service/JpaReportService.java:89-91 | with no counted appointment the filtered listing is empty |
| Reports.NoneCounted | src/main/java/com/parik/service/JpaReportService.java:89-91 | a list with no completed appointment of the date filters to nothing |
| Reports.IncomeSplit | src/main/java/com/parik/service/JpaReportService.java:97-103 | the income is a sum over the stored appointments: taking any one out removes exactly its contribution |
| Reports.IncomeOfNewAppointment | src/main/java/com/parik/service/JpaReportService.java:97-103 | a new appointment under a fresh id adds its own price once, if it counts, however many appointments its client has |
| Reports.ClientsAtMostAppointments | src/main/java/com/parik/service/JpaReportService.java:93-95 | a set of appointments has no more distinct clients than appointments |
| Reports.ClientsBound | src/main/java/com/parik/service/JpaReportService.java:93-95 | the client total never exceeds the number of counted appointments |
| Reports.ApplyPatch | src/main/java/com/parik/service/JpaReportService.java:126-134 | reportDate, totalClients and totalIncome are replaced only by non-null details; createdAt is kept |
| Reports.PatchLaws | src/main/java/com/parik/service/JpaReportService.java:126-134 | an all-null patch is the identity, and applying a patch twice is applying it once |
| Reports.Update | src/main/java/com/parik/service/JpaReportService.java:122-137 | fails with "Отчёт не найден" exactly for an unknown id; otherwise the patched row replaces that row only |
| JpaReportService.GenerateReportForDate | src/main/java/com/parik/service/JpaReportService.java:86-112 | a fresh report of the date stamped `now`: its client total is the number of distinct clients of the completed appointments of the date and never exceeds their number, its income is their price total, and with none of them both totals are 0 |
| JpaReportService.UpdateReport | src/main/java/com/parik/service/JpaReportService.java:122-137 | fails with "Отчёт не найден" exactly for an unknown id; otherwise only the non-null details overwrite and createdAt is kept |
| JpaReportService.DeleteReport | src/main/java/com/parik/service/JpaReportService.java:145-150 | fails exactly for an unknown id; otherwise removes only that report |
| JpaReportService.EmptyUpdateIsIdentity | src/main/java/com/parik/service/JpaReportService.java:122-137 | an update with every detail null leaves the reports as they were |
| JpaReportService.GeneratedIncomeGrows | src/main/java/com/parik/service/JpaReportService.java:97-103 | adding one appointment adds exactly its contribution to the generated income |
| JpaReportService.GenerateTwiceKeepsBoth | src/main/java/com/parik/service/JpaReportService.java:105-111 | generating twice for one date stores two reports for it; nothing is replaced |
| JpaReportService.WorkedExample | src/main/java/com/parik/service/JpaReportService.java:86-112 | two completed appointments of one client (500 and 300 roubles) and one of another (500) give 2 clients and 1300 roubles |
| JpaReportService.ExampleIncome | src/main/java/com/parik/service/JpaReportService.java:97-103 | the example's income is 130000 kopecks |
| JpaReportService.ExampleClients | src/main/java/com/parik/service/JpaReportService.java:93-95 | the example's distinct clients are exactly 7 and 8 |
| ReportService.GenerateReportForDate | src/main/java/com/parik/service/ReportService.java:46-71 | the same totals as the JPA service, saved under a fresh id; the repository's INSERT (`ReportRepository.java:64-82`) stores `now` for the null createdAt but returns the object with only the id set, so the caller sees createdAt null |
| ReportService.UpdateReport | src/main/java/com/parik/service/ReportService.java:73-88 | fails with "Отчёт не найден" exactly for an unknown id; otherwise patches only the non-null fields |
| ReportService.DeleteReport | src/main/java/com/parik/service/ReportService.java:90-95 | fails exactly for an unknown id; otherwise removes only that report |
| ReportService.AgreesWithJpa | src/main/java/com/parik/service/ReportService.java:46-71 | both services store the same report, creation time included, under the same id; the returned objects differ only in createdAt, `now` from JPA and null from JDBC |
| Users.HoldersOf | src/main/java/com/parik/service/UserService.java:77 | the ids whose row has the given username, and no others |
| Users.UsernameInUse | src/main/java/com/parik/service/UserService.java:77-79 | some stored user has the username |
| Users.EmailInUse | src/main/java/com/parik/service/UserService.java:80-82 | some stored user has the email |
| Users.UsernameHeldByOther | src/main/java/com/parik/service/UserService.java:104-110 | a user other than the one being updated has the username |
| Users.EmailHeldByOther | src/main/java/com/parik/service/UserService.java:112-118 | a user other than the one being updated has the email |
| Users.AtMostOneHolder | src/main/java/com/parik/model/User.java:20-29 | in a registry with unique usernames a username has exactly one holder |
| UserService.CreateUser | src/main/java/com/parik/service/UserService.java:76-89 | fails exactly when the username or the email is taken, with the username message first; otherwise one row is added under a fresh id, holding the encoded password, a createdAt filled with `now` when null, and the other fields as given |
| UserService.ApplyPatch | src/main/java/com/parik/service/UserService.java:109-130 | username, email, role and phone are replaced only by non-null details; the password is re-encoded only when non-null and non-empty; createdAt is kept |
| UserService.UpdateUser | src/main/java/com/parik/service/UserService.java:100-133 | fails with "Пользователь не найден" for an unknown id, then with the username message when another id holds the new username, then with the email message when another id holds the new email; otherwise the patched row replaces that row only |
| UserService.DeleteUser | src/main/java/com/parik/service/UserService.java:141-146 | fails exactly for an unknown id; otherwise removes only that user |
| UserService.CreateKeepsUnique | src/main/java/com/parik/service/UserService.java:76-89 | a successful create keeps usernames and emails unique |
| UserService.UpdateKeepsUnique | src/main/java/com/parik/service/UserService.java:100-133 | a successful update keeps usernames and emails unique |
| UserService.UpdatedDiffers | src/main/java/com/parik/service/UserService.java:104-118 | after a successful update the updated row shares neither username nor email with any other row |
| UserService.DeleteKeepsUnique | src/main/java/com/parik/service/UserService.java:141-146 | deleting keeps the registry unique |
| UserService.ResubmitOwnSucceeds | src/main/java/com/parik/service/UserService.java:104-118 | resubmitting a user's own username and email succeeds |
| UserService.EmailOnlyUpdate | src/main/java/com/parik/service/UserService.java:112-118 | an update with only an email rewrites the email and leaves every other field as it was |
| UserService.UsernameCheckedFirst | src/main/java/com/parik/service/UserService.java:77-82 | when both are taken, create reports the username |
| UserService.CreatedIsFoundByUsername | src/main/java/com/parik/service/UserService.java:76-89 | in a unique registry the created user is the one holder of its username |
| JavaString.UpperChar | src/main/java/com/parik/service/UserDetailsServiceImpl.java:56 | an upper-cased character is never lower-case, and a character that is not lower-case is kept |
| JavaString.ToUpper | src/main/java/com/parik/service/UserDetailsServiceImpl.java:56 | `toUpperCase` keeps the length and upper-cases each character in place |
| JavaString.UpperOf | src/main/java/com/parik/service/UserDetailsServiceImpl.java:56 | any string that upper-cases the input character by character is its upper-case form |
| JavaString.ToUpperIdempotent | src/main/java/com/parik/service/UserDetailsServiceImpl.java:56 | upper-casing twice is upper-casing once |
| JavaString.ReplaceAbsent | src/main/java/com/parik/service/UserDetailsServiceImpl.java:57-59 | `replace` with a pattern that does not occur returns the string unchanged |
| JavaString.ReplaceWhole | src/main/java/com/parik/service/UserDetailsServiceImpl.java:57-59 | a string equal to the pattern becomes the replacement |
| JavaString.ReplaceAll | src/main/java/com/parik/service/UserDetailsServiceImpl.java:57-59 | `String.replace`: every occurrence of the pattern, scanned left to right without overlap, becomes the replacement |
| UserDetailsService.Authority | src/main/java/com/parik/service/UserDetailsServiceImpl.java:54-59 | the authority name always starts with "ROLE_" |
| UserDetailsService.Authorities | src/main/java/com/parik/service/UserDetailsServiceImpl.java:60 | exactly one authority is granted |
| UserDetailsService.LoadUserByUsername | src/main/java/com/parik/service/UserDetailsServiceImpl.java:37-46 | fails with "Пользователь не найден: " and the name exactly when no user has it; fails with Spring's "Cannot pass null or empty values to constructor" when the found username is empty; otherwise returns a holder's stored username, hash and authority |
| UserDetailsService.LoadsTheHolder | src/main/java/com/parik/service/UserDetailsServiceImpl.java:38-45 | with unique usernames the details are exactly those of the one holder, or Spring's empty-value error when that holder's username is empty |
| UserDetailsService.OneRoleAuthority | src/main/java/com/parik/service/UserDetailsServiceImpl.java:55-60 | every loaded user has exactly one authority, starting with "ROLE_" |
| UserDetailsService.KnownRoles | src/main/java/com/parik/service/UserDetailsServiceImpl.java:56-59 | "Администратор", "Мастер" and "Клиент" map to "ROLE_ADMIN", "ROLE_MASTER" and "ROLE_CLIENT" |
| UserDetailsService.OtherRole | src/main/java/com/parik/service/UserDetailsServiceImpl.java:56-59 | a role whose upper-case form contains none of the three words maps to "ROLE_" followed by that form |
| Masters.ApplyPatch | src/main/java/com/parik/service/JpaMasterService.java:48-62 | name, specialization, experience, rating and userId are replaced only by non-null details; createdAt is kept |
| Masters.PatchLaws | src/main/java/com/parik/service/JpaMasterService.java:48-62 | an all-null patch is the identity, and applying a patch twice is applying it once |
| JpaMasterService.WithDefaults | src/main/java/com/parik/service/JpaMasterService.java:32-40 | a null createdAt becomes `now`, a null rating and a null experience become 0, and supplied values are kept |
| JpaMasterService.CreateMaster | src/main/java/com/parik/service/JpaMasterService.java:31-42 | the master is added under a fresh id with all three defaults filled and the other fields as given |
| JpaMasterService.UpdateMaster | src/main/java/com/parik/service/JpaMasterService.java:44-65 | fails with "Мастер не найден" exactly for an unknown id; otherwise the patched row replaces that row only |
| JpaMasterService.DeleteMaster | src/main/java/com/parik/service/JpaMasterService.java:67-72 | fails exactly for an unknown id; otherwise removes only that master |
| JpaMasterService.DefaultsIdempotent | src/main/java/com/parik/service/JpaMasterService.java:32-40 | filling the defaults twice is filling them once, and a master carrying all three is kept as given |
| JpaMasterService.EmptyUpdateIsIdentity | src/main/java/com/parik/service/JpaMasterService.java:44-65 | an update with all details null leaves the table as it was |
| JpaMasterService.UpdateKeepsDefaults | src/main/java/com/parik/service/JpaMasterService.java:31-65 | a created master still has a creation time, a rating and an experience after any update |
| Services.ApplyPatch | src/main/java/com/parik/service/JpaServiceService.java:48-59 | name, description, price and duration are replaced only by non-null details; createdAt is kept |
| Services.PatchLaws | src/main/java/com/parik/service/JpaServiceService.java:48-61 | an all-null patch is the identity, and applying a patch twice is applying it once |
| Services.Update | src/main/java/com/parik/service/JpaServiceService.java:44-62 | fails with "Услуга не найдена" exactly for an unknown id; otherwise the patched row replaces that row and every other row is kept |
| JpaServiceService.CreateService | src/main/java/com/parik/service/JpaServiceService.java:37-42 | added under a fresh id; a null createdAt becomes `now` and a supplied one is kept |
| JpaServiceService.UpdateService | src/main/java/com/parik/service/JpaServiceService.java:44-62 | fails with "Услуга не найдена" exactly for an unknown id; otherwise only the non-null details overwrite and createdAt is kept |
| JpaServiceService.DeleteService | src/main/java/com/parik/service/JpaServiceService.java:64-69 | fails exactly for an unknown id; otherwise removes only that service |
| JpaServiceService.EmptyUpdateIsIdentity | src/main/java/com/parik/service/JpaServiceService.java:48-61 | an update with all details null leaves the table as it was |
| ServiceService.CreateService | src/main/java/com/parik/service/ServiceService.java:25-28 | added under a fresh id with createdAt set to `now`, even when one was supplied |
| ServiceService.UpdateService | src/main/java/com/parik/service/ServiceService.java:30-48 | fails with "Услуга не найдена" exactly for an unknown id; otherwise only the non-null details overwrite |
| ServiceService.DeleteService | src/main/java/com/parik/service/ServiceService.java:50-55 | fails exactly for an unknown id; otherwise removes only that service |
| ServiceService.CreateDiffersFromJpa | src/main/java/com/parik/service/ServiceService.java:25-28 | the two creates pick the same id and store the same row unless a createdAt other than `now` was supplied, which only the JPA one keeps |
| EscapeHtml.EscapeChar | src/main/resources/static/js/app.js:584-591 | the five special characters become entities starting with '&'; every other character stands for itself |
| EscapeHtml.Escape | src/main/resources/static/js/app.js:591 | the output has no raw '<', '>', '"' or '\''; it is never shorter than the input, equally long exactly when there is no special character, and then equal to the input |
| EscapeHtml.EscapeHtml | src/main/resources/static/js/app.js:582-592 | a null or empty text gives ""; any other text is escaped |
| EscapeHtml.EscapeAppend | src/main/resources/static/js/app.js:591 | escaping distributes over concatenation, so characters are replaced in place and in order |
| EscapeHtml.UnescapeStep | src/main/resources/static/js/app.js:584-590 | decoding one escaped character gives the character back |
| EscapeHtml.UnescapeEscape | src/main/resources/static/js/app.js:582-592 | decoding the entities of an escaped text gives the original text back |
| EscapeHtml.NotIdempotent | src/main/resources/static/js/app.js:585-591 | "&" escapes to "&amp;", which escapes again to "&amp;amp;" |
| PyStr.LeadingSpace | create_word_doc.py:52 | the length of the leading whitespace run: all of it is whitespace and the next character is not |
| PyStr.TrailingSpace | create_word_doc.py:124 | where the trailing whitespace run starts: everything after is whitespace and the character before is not |
| PyStr.Strip | create_word_doc.py:52 | `str.strip()`: no whitespace at either edge, no longer than the input, no new characters |
| PyStr.LStripChar | create_word_final.py:294 | `lstrip('#')`: removes exactly the leading run of '#' |
| PyStr.Split | create_word_doc.py:59 | `split('|')`: one more piece than separators, and no piece holds the separator |
| PyStr.JoinSplit | create_word_doc.py:59 | joining the pieces with the separator gives the string back |
| PyStr.StripBlank | create_word_doc.py:148 | a line strips to nothing exactly when it is all whitespace |
| PyStr.BlankRStrip | create_word_doc.py:124 | a blank line right-strips to nothing |
| PyStr.StripTrimmed | create_word_doc.py:52 | a string with no whitespace at its edges is its own strip |
| PyStr.StripPadded | create_word_final.py:294 | leading whitespace in front of a trimmed text strips away |
| PyStr.LeadingPadding | create_word_final.py:294 | the leading whitespace run of padding followed by a trimmed text is the padding |
| PyStr.StripKeepsFirst | create_word_doc.py:153 | a string starting with a non-space character keeps it first after stripping |
| PyStr.StripHead | create_word_doc.py:153 | the first character of a line is whitespace or the first character of its strip |
| MarkdownTable.Inner | create_word_doc.py:52-56 | the stripped line with at most one '|' removed at each edge is no longer than the strip |
| MarkdownTable.ParseTableLine | create_word_doc.py:49-60 | one cell more than the bars left after the edges are removed; no cell holds a bar, and every cell is trimmed |
| MarkdownTable.CellsArePieces | create_word_final.py:149-157 | the cells are the stripped pieces between the bars, and the pieces joined by bars are the inner line |
| MarkdownTable.TwoCells | create_word_doc.py:49-60 | "\| a \| b \|" parses to the cells "a" and "b" |
| MarkdownTable.TableEnd | create_word_doc.py:72-74 | the scan stops at the first line from the start on whose strip does not begin with '|', and every line before it is a row line |
| MarkdownTable.FitRow | create_word_doc.py:95-99 | a row fitted to the header width: extra cells are dropped and missing ones stay empty |
| MarkdownTable.ScanTable | create_word_doc.py:62-102 | the header is the parsed first line, the separator is skipped, the data rows are the parsed lines up to the first non-row line, each fitted to the header width, and the returned index is that of the last row, at least start + 1 |
| MarkdownTable.DataRows | create_word_final.py:182-191 | the lines of the range, each parsed and fitted to the header width, in order |
| MarkdownTable.RowsFitHeader | create_word_doc.py:77-79 | every data row has exactly as many cells as the header |
| MarkdownTable.TableAdvances | create_word_doc.py:102 | the caller resumes at least two lines after the table's first line |
| Markdown.Hashes | create_word_doc.py:161-170 | a run of `n` '#' characters |
| Markdown.PrefixHeading | create_word_doc.py:161-170 | the '# ' … '##### ' chain yields a heading of level 1 to 5 or nothing |
| Markdown.FinalSpecial | create_word_final.py:272-291 | the fixed section headings yield headings of level 1 to 3 or nothing |
| Markdown.GenericHeading | create_word_final.py:292-297 | the generic heading adds at most one heading, of level 1 to 5 |
| Markdown.LeadingDigits | create_word_doc.py:186 | the length of the leading run of ASCII digits |
| Markdown.NumberPrefix | create_word_doc.py:186-187 | a `^\d+\.\s` match: digits, a dot and one whitespace character, removed from the front |
| Markdown.IsPlaceholder | create_word_doc.py:207 | the placeholder words: the camera sign, "[Здесь необходимо", and "СКРИНШОТ" (in `create_word_doc_exact.py:252`) or "Рисунок" (in `create_word_final.py:329`) |
| Markdown.ListOrText | create_word_doc.py:176-215 | the bullet, numbered and text branches, tried in that order; the final script also takes "− " as a bullet |
| Markdown.Dropped | create_word_final.py:232 | the title, contents and "---" lines the final script throws away |
| Markdown.TableStart | create_word_doc.py:153-155 | a table starts on a bar line without "---" whose next line has one, except in `create_word_doc_exact.py` |
| Markdown.Classify | create_word_doc.py:160-215 | a non-blank line outside code and tables adds at most one block, and every block is well formed |
| Markdown.Run | create_word_doc.py:123-217 | every block the walk emits is well formed; in particular every table row is as wide as its header |
| Markdown.Convert | create_word_doc.py:120-218 | the walk from the first line, outside any code block |
| Markdown.Fails | create_word_final.py:304-336 | a block stops the script when lxml would refuse a control character in its text, cells or code lines (any script), or when it is a bullet, numbered item or paragraph with empty text in `create_word_final.py` or `create_word_doc_exact.py` (lines 234-259), which index `p.runs[0]`; `create_word_doc.py` never indexes runs |
| Markdown.Saves | create_word_final.py:299-341 | the script reaches `doc.save` exactly when it meets no failing block: it stops at the first one |
| Markdown.SavesAll | create_word_final.py:299-341 | the recursive check passes exactly when no block of the list fails |
| Markdown.Document | create_word_final.py:299-341 | a document is saved exactly when no emitted block fails, and it holds the emitted blocks; `create_word_doc.py` saves exactly when no block carries text lxml refuses |
| MarkdownLaws.UnterminatedFence | create_word_doc.py:142-145 | a fence still open when the lines run out adds nothing |
| MarkdownLaws.Collected | create_word_doc.py:142-145 | outside the final script a code block keeps every line, right-stripped and in order |
| MarkdownLaws.FenceNotDropped | create_word_final.py:232-237 | a fence line is never one of the dropped lines |
| MarkdownLaws.CodeStep | create_word_doc.py:142-145 | inside a block a non-fence line is collected and the walk moves on |
| MarkdownLaws.CodeBlock | create_word_doc.py:127-145 | inside a block every line up to the closing fence is collected in order, and the fence emits the block |
| MarkdownLaws.FencedCode | create_word_doc.py:127-145 | a fenced region becomes one code block holding the lines between the fences |
| MarkdownLaws.BlankSkipped | create_word_doc.py:147-150 | outside code a blank line adds nothing |
| MarkdownLaws.HeadingPrefix | create_word_doc_exact.py:215-224 | '# ' to '##### ' give headings of levels 1 to 5 with the prefix removed |
| MarkdownLaws.SixHashesAreText | create_word_doc.py:161-215 | six hashes and a space are no heading; the line is text |
| MarkdownLaws.LStripHashes | create_word_final.py:294 | `lstrip('#')` removes exactly the leading hashes |
| MarkdownLaws.GenericHeadingOf | create_word_final.py:292-297 | hashes, whitespace and a trimmed text give the text as a heading, at level hashes plus whitespace minus one, capped at 5 |
| MarkdownLaws.FinalHeadingLevel | create_word_final.py:292-297 | the final script's generic heading counts the whitespace after the hashes in its level |
| MarkdownLaws.NotSpecial | create_word_final.py:272-291 | no fixed section heading matches a line whose second character is not '#' |
| MarkdownLaws.GluedHashEmitsNothing | create_word_final.py:292-297 | "#Title" adds nothing in the final script |
| MarkdownLaws.NoHash | create_word_final.py:272-292 | a line not starting with '#' is no heading in any script |
| MarkdownLaws.BulletLine | create_word_doc.py:176-182 | a line whose strip starts with "- " is a bullet in every script, without its first two characters |
| MarkdownLaws.MinusSignBullet | create_word_final.py:299-305 | a line whose strip starts with "− " is a bullet in the final script and text in the other two |
| MarkdownLaws.ClassifyNoTable | create_word_doc_exact.py:214-259 | classifying a line never yields a table |
| MarkdownLaws.ExactHasNoTables | create_word_doc_exact.py:183-261 | `create_word_doc_exact.py` never produces a table |
| MarkdownLaws.ExactBarLineIsText | create_word_doc_exact.py:245-259 | in that script a line whose strip starts with '\|' is text |
| MarkdownLaws.TableThenResume | create_word_doc.py:152-158 | a bar line without "---" followed by a line with "---" starts a table, and the walk resumes after its last row |
| MarkdownLaws.BarLine | create_word_final.py:232-265 | a line starting with '\|' is no fence, is never dropped, and keeps its bar first after stripping |
| MarkdownLaws.RStripTrimmed | create_word_doc.py:124 | a line with no trailing whitespace is its own right-strip |
| MarkdownLaws.RuleLine | create_word_doc.py:172-174 | a '---' line is one empty paragraph in two scripts and is dropped by the final script |
| MarkdownLaws.DroppedInsideCode | create_word_final.py:232-257 | inside a code block the final script drops a '---' line, and the other scripts keep it |
| MarkdownLaws.NumberedLine | create_word_doc.py:186-191 | "12. x" is a numbered item with the text "x" |
| MarkdownLaws.FinalSubsection | create_word_final.py:276-283 | in the final script a "### 1.1.", "### 2.1." or "### 2.2." line is a level-2 heading without its "### " |
| MarkdownLaws.FinalSubsubsection | create_word_final.py:278-285 | in the final script the six "#### 1.1.1." … "#### 2.2." keys give level-3 headings without their "#### " |
| MarkdownLaws.NotDeeper | create_word_final.py:276-285 | a line whose third character is a space matches none of the "###" and "####" keys |
| MarkdownLaws.FinalChapter | create_word_final.py:272-291 | in the final script each of the six chapter keys gives its fixed title at level 1, whatever follows the key |
| MarkdownLaws.EmptyBulletAborts | create_word_final.py:310-312 | a "- " line with no text is an empty bullet, which stops the final and exact scripts; `create_word_doc.py` saves it |
| MarkdownLaws.EmptyParagraphAborts | create_word_final.py:334-336 | a "**" line strips to an empty paragraph, which stops the final and exact scripts; `create_word_doc.py` saves it |
| MarkdownLaws.ScreenshotWord | create_word_doc_exact.py:252 | "СКРИНШОТ" without the other marks is a placeholder in `create_word_doc.py` and `create_word_doc_exact.py` and a paragraph in `create_word_final.py` |
| MarkdownLaws.FigureWord | create_word_final.py:329 | "Рисунок" without the other marks is a placeholder in the final script only |
| MarkdownLaws.SharedMarks | create_word_doc.py:207 | the camera sign or "[Здесь необходимо" makes a placeholder in every script |
| MarkdownLaws.ControlCharAborts | create_word_doc.py:35-39 | a code block holding a vertical tab is one code block, whose joined text (lines 130-131) `p.add_run` refuses, so no script saves the document |
| MarkdownLaws.PlaceholderSaved | create_word_final.py:329-336 | a placeholder keeps the plain text and is never empty; a text block stops a script only on text lxml refuses or as an empty paragraph of the final or exact script |

## Left out

- Controllers, repositories, configuration and the entity getters and setters are left out. They are HTTP, SQL and framework plumbing. The repositories become the map store.
- Listing order is left out. The DB-side `Sort.by` and `findAll` order depend on the database, so the model lists rows by ascending id, and a search returns a sub-table.
- BCrypt is left out. The encoder is the `encode` parameter.
- `LocalDateTime.now()` is left out. It is the `now` parameter. The JPA `createAppointment` reads the clock twice, so it takes two readings, `created` and `updated`.
- The check-then-insert race of `createAppointment` is left out. The model covers single sequential calls only.
- `Users.HoldersOf` and `UserDetailsService.LoadUserByUsername`: when a store already breaks username uniqueness, the JPA lookup throws. The model returns the holder with the least id instead.
- Null required columns are left out. The model cannot express a null where the database would reject it, such as an appointment without a date or a user without an email.
- `EscapeHtml.EscapeHtml`: only string or null arguments are modelled. The effect of `toString()` on numbers, booleans and objects is not.
- `JavaInt.ParseInt`: accepts ASCII digits only. `Integer.parseInt` also accepts other Unicode decimal digits.
- `JavaString.UpperChar`: upper-cases ASCII and the Cyrillic block U+0430–U+045F only. Other characters are kept. Java's full case mapping, including the special cases that change the length, is not modelled.
- `Markdown.XmlChar`: only the C0 control characters are treated as refused. Other strings lxml may refuse, such as U+FFFE and U+FFFF, are not modelled.
- `Markdown.NumberPrefix`: reads `\d` as an ASCII digit. Python's `\d` also matches other Unicode decimal digits.
- The `re.sub` markup stripping is left out. It is modelled as `Markup.inline` and `Markup.plain`, two uninterpreted functions, because the non-greedy regex semantics are not modelled.
- The python-docx calls are left out: fonts, styles, margins, the title page and the table of contents.
- `Markdown.Run`: a code block keeps its list of lines rather than their `'\n'.join`. The language tag after the opening fence is left out, because nothing uses it.
- Reading the Markdown file, `split('\n')` and saving the document are left out. They are file I/O.
- `createReport` and every `get*` and `search*` method other than `searchAppointments` are left out. They only pass through to the repository.
- `Markdown.Classify`: its contract states only that a line adds at most one well-formed block. The per-branch behaviour is stated by the `MarkdownLaws` lemmas.
- `Markdown.Run`: its contract states only that every block is well formed. The fence, blank, table and heading behaviour is stated by the `MarkdownLaws` lemmas. It lists the blocks the walk adds; whether the script reaches `doc.save` after an empty paragraph is `Markdown.Document`.
- `AppointmentService.CreateAppointment`: the JDBC repository hands back the request object with the given timestamps, while the model returns the stored row, stamped with `now`.
- `JpaAppointmentService.CreateAppointment`: a request body that carries an id is not modelled. JPA `save` would merge it into the row of that id. The dashboard's form never sends an id (`app.js:405-418`), and the model always inserts under a fresh id.
- `AppointmentService.CreateAppointment`: likewise, a body with an id would make the JDBC `save` run its UPDATE (`AppointmentRepository.java:79-85`). The model always inserts.
- `UserService.CreateUser`, `JpaMasterService.CreateMaster`, `JpaServiceService.CreateService`, `ServiceService.CreateService`: a body that carries an id is not modelled either. The model always inserts under a fresh id.
