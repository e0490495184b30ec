/** The slot and booking engine of backend/src/appointments/appointments.service.ts:
    the working-day slot grid, booking against it, the citizen and officer listings,
    and the status update. The appointment table is a sequence of rows in insertion
    order; instants are minutes (module Clock). */
module Appointments {
  import opened Common
  import opened Seqs
  import opened Clock
  import Users

  /** The QR image of a confirmation reference, kept as the text it encodes. */
  datatype QrCode = QrOf(text: string)

  /** A row of the appointments table (backend/src/appointments/appointment.entity.ts). */
  datatype Appointment = Appointment(
    id: nat,
    citizenId: nat,
    serviceId: string,
    departmentId: string,
    dateTime: int,
    confirmationReference: string,
    qrCode: QrCode,
    status: AppointmentStatus,
    officerNotes: Option<string>)

  const OpeningMinute := 9 * 60
  const ClosingMinute := 17 * 60
  const DefaultSlotMinutes := 30

  /** `service.duration_minutes || 30`: a zero duration falls back to 30 minutes. */
  function SlotLength(s: Service): (d: nat)
    ensures d > 0
    ensures d == s.durationMinutes || (s.durationMinutes == 0 && d == DefaultSlotMinutes)
  {
    if s.durationMinutes == 0 then DefaultSlotMinutes else s.durationMinutes
  }

  /** The working-day grid for slot length `d`: the starts 09:00 + k*d. */
  function GridStarts(d: nat): (g: seq<int>)
    requires d > 0
  {
    seq((ClosingMinute - OpeningMinute) / d, k => OpeningMinute + k * d)
  }

  /** The k-th step of length d still ends by 17:00 exactly when k is inside the grid. */
  lemma StepFits(d: nat, k: nat)
    requires d > 0
    ensures k < |GridStarts(d)| <==> OpeningMinute + k * d + d <= ClosingMinute
  {
    var q, r := 480 / d, 480 % d;
    assert 480 == q * d + r && 0 <= r < d;
    if k < q {
      assert (k + 1) * d <= q * d by { MulMonotone(k + 1, q, d); }
    } else {
      assert (q + 1) * d <= (k + 1) * d by { MulMonotone(q + 1, k + 1, d); }
    }
  }

  lemma MulMonotone(a: nat, b: nat, c: nat)
    requires a <= b
    ensures a * c <= b * c
  {
  }

  /** The grid is ascending, every slot in it ends by closing time, and no start
      09:00 + k*d whose slot still fits is missing. */
  lemma GridShape(d: nat)
    requires d > 0
    ensures forall i :: 0 <= i < |GridStarts(d)| ==>
              OpeningMinute <= GridStarts(d)[i] && GridStarts(d)[i] + d <= ClosingMinute
    ensures forall i, j :: 0 <= i < j < |GridStarts(d)| ==> GridStarts(d)[i] < GridStarts(d)[j]
    ensures forall k: nat :: OpeningMinute + k * d + d <= ClosingMinute ==>
              k < |GridStarts(d)| && GridStarts(d)[k] == OpeningMinute + k * d
  {
    var g := GridStarts(d);
    forall i | 0 <= i < |g| ensures OpeningMinute <= g[i] && g[i] + d <= ClosingMinute {
      StepFits(d, i);
    }
    forall i, j | 0 <= i < j < |g| ensures g[i] < g[j] {
      MulMonotone(i + 1, j, d);
    }
    forall k: nat | OpeningMinute + k * d + d <= ClosingMinute
      ensures k < |g| && g[k] == OpeningMinute + k * d
    {
      StepFits(d, k);
    }
  }

  /** The default 30-minute grid has 16 slots, 09:00 up to 16:30. */
  lemma ThirtyMinuteGrid()
    ensures |GridStarts(30)| == 16
    ensures GridStarts(30)[0] == 9 * 60 && GridStarts(30)[15] == 16 * 60 + 30
    ensures Hhmm(GridStarts(30)[0]) == "09:00" && Hhmm(GridStarts(30)[15]) == "16:30"
  {
  }

  /** A 45-minute service gets 10 slots, the last at 15:45; 16:15 is not a start. */
  lemma FortyFiveMinuteGrid()
    ensures |GridStarts(45)| == 10
    ensures Hhmm(GridStarts(45)[9]) == "15:45"
    ensures 16 * 60 + 15 !in GridStarts(45)
  {
    var g := GridStarts(45);
    forall i | 0 <= i < |g| ensures g[i] != 16 * 60 + 15 {
    }
  }

  predicate InDay(m: int)
  {
    0 <= m < MinutesPerDay
  }

  /** The "HH:MM" strings of a sequence of minutes of the day: one label per
      minute, in order, and different minutes never share a label. */
  function Render(starts: seq<int>): (r: seq<string>)
    requires AllInDay(starts)
    ensures |r| == |starts|
    ensures forall i :: 0 <= i < |r| ==> r[i] == Hhmm(starts[i])
    ensures forall i, j :: 0 <= i < |r| && 0 <= j < |r| && starts[i] != starts[j] ==> r[i] != r[j]
  {
    HhmmInjectiveAll();
    seq(|starts|, i requires 0 <= i < |starts| => Hhmm(starts[i]))
  }

  function GridSlots(d: nat): (r: seq<string>)
    requires d > 0
    ensures |r| == |GridStarts(d)|
  {
    GridShape(d);
    Render(GridStarts(d))
  }

  /** An appointment occupies a slot of `serviceId` on `day` only when it is Confirmed. */
  predicate Blocks(a: Appointment, serviceId: string, day: int)
  {
    a.serviceId == serviceId && DayOf(a.dateTime) == day && a.status == Confirmed
  }

  function BlocksOn(serviceId: string, day: int): Appointment -> bool
  {
    a => Blocks(a, serviceId, day)
  }

  /** The "HH:MM" starts of the blocking appointments, in table order. */
  function BookedSlots(rows: seq<Appointment>, serviceId: string, day: int): (r: seq<string>)
  {
    var booked := Filter(rows, BlocksOn(serviceId, day));
    seq(|booked|, i requires 0 <= i < |booked| => Hhmm(MinuteOfDay(booked[i].dateTime)))
  }

  /** Some blocking appointment starts at minute m of the day. */
  predicate Taken(rows: seq<Appointment>, serviceId: string, day: int, m: int)
  {
    exists a | a in rows :: Blocks(a, serviceId, day) && MinuteOfDay(a.dateTime) == m
  }

  function Free(rows: seq<Appointment>, serviceId: string, day: int): int -> bool
  {
    m => !Taken(rows, serviceId, day, m)
  }

  function Unbooked(booked: seq<string>): string -> bool
  {
    s => s !in booked
  }

  /** The reference definition of `getAvailableSlots`: NotFound for an unknown
      service, nothing at weekends, otherwise the rendered grid without the
      booked starts. */
  function AvailableSlots(catalog: map<string, Service>, rows: seq<Appointment>,
                          serviceId: string, day: int): Result<seq<string>>
  {
    if serviceId !in catalog then Err(NotFound)
    else if IsWeekend(day) then Ok([])
    else
      var booked := BookedSlots(rows, serviceId, day);
      Ok(Filter(GridSlots(SlotLength(catalog[serviceId])), Unbooked(booked)))
  }

  /** The same thing on minutes: the grid starts that no blocking appointment takes. */
  function FreeStarts(catalog: map<string, Service>, rows: seq<Appointment>,
                      serviceId: string, day: int): seq<int>
    requires serviceId in catalog
  {
    Filter(GridStarts(SlotLength(catalog[serviceId])), Free(rows, serviceId, day))
  }

  lemma BookedSlotsIff(rows: seq<Appointment>, serviceId: string, day: int, m: int)
    requires InDay(m)
    ensures Hhmm(m) in BookedSlots(rows, serviceId, day) <==> Taken(rows, serviceId, day, m)
  {
    var booked := Filter(rows, BlocksOn(serviceId, day));
    var slots := BookedSlots(rows, serviceId, day);
    if Hhmm(m) in slots {
      var i :| 0 <= i < |slots| && slots[i] == Hhmm(m);
      HhmmInjective(MinuteOfDay(booked[i].dateTime), m);
      assert booked[i] in booked;
    }
    if Taken(rows, serviceId, day, m) {
      var a :| a in rows && Blocks(a, serviceId, day) && MinuteOfDay(a.dateTime) == m;
      assert a in booked;
      var i :| 0 <= i < |booked| && booked[i] == a;
      assert slots[i] == Hhmm(m);
    }
  }

  predicate AllInDay(starts: seq<int>)
  {
    forall i :: 0 <= i < |starts| ==> 0 <= starts[i] < MinutesPerDay
  }

  lemma FilterInDay(starts: seq<int>, p: int -> bool)
    requires AllInDay(starts)
    ensures AllInDay(Filter(starts, p))
  {
    var fs := Filter(starts, p);
    forall i | 0 <= i < |fs| ensures 0 <= fs[i] < MinutesPerDay {
      assert fs[i] in starts;
    }
  }

  lemma RenderCons(x: int, t: seq<int>)
    requires 0 <= x < MinutesPerDay && AllInDay(t)
    ensures AllInDay([x] + t)
    ensures Render([x] + t) == [Hhmm(x)] + Render(t)
  {
    assert AllInDay([x] + t);
  }

  /** Rendering commutes with removing the taken starts. */
  lemma {:induction false} RenderFilter(starts: seq<int>, rows: seq<Appointment>, serviceId: string, day: int)
    requires AllInDay(starts)
    ensures AllInDay(Filter(starts, Free(rows, serviceId, day)))
    ensures Render(Filter(starts, Free(rows, serviceId, day)))
         == Filter(Render(starts), Unbooked(BookedSlots(rows, serviceId, day)))
  {
    var free := Free(rows, serviceId, day);
    var unbooked := Unbooked(BookedSlots(rows, serviceId, day));
    FilterInDay(starts, free);
    if starts != [] {
      var x, t := starts[0], starts[1..];
      assert starts == [x] + t;
      assert AllInDay(t);
      RenderFilter(t, rows, serviceId, day);
      RenderCons(x, t);
      var rs := Render(starts);
      assert rs[0] == Hhmm(x) && rs[1..] == Render(t);
      BookedSlotsIff(rows, serviceId, day, x);
      assert free(x) <==> unbooked(Hhmm(x));
      var rest := Filter(t, free);
      FilterInDay(t, free);
      if free(x) {
        RenderCons(x, rest);
      }
    }
  }

  /** What `getAvailableSlots` returns for a known service on a weekday: the grid
      starts in ascending order, minus those a Confirmed appointment of this service
      on that day starts at. */
  lemma AvailableSlotsAreFreeStarts(catalog: map<string, Service>, rows: seq<Appointment>,
                                    serviceId: string, day: int)
    requires serviceId in catalog && !IsWeekend(day)
    ensures AllInDay(FreeStarts(catalog, rows, serviceId, day))
    ensures AvailableSlots(catalog, rows, serviceId, day)
         == Ok(Render(FreeStarts(catalog, rows, serviceId, day)))
    ensures forall i, j :: 0 <= i < j < |FreeStarts(catalog, rows, serviceId, day)| ==>
              FreeStarts(catalog, rows, serviceId, day)[i] < FreeStarts(catalog, rows, serviceId, day)[j]
    ensures IsSubsequence(FreeStarts(catalog, rows, serviceId, day),
                          GridStarts(SlotLength(catalog[serviceId])))
  {
    var d := SlotLength(catalog[serviceId]);
    GridShape(d);
    RenderFilter(GridStarts(d), rows, serviceId, day);
    FilterKeepsAscending(GridStarts(d), Free(rows, serviceId, day));
    FilterIsSubsequence(GridStarts(d), Free(rows, serviceId, day));
  }

  lemma {:induction false} FilterKeepsAscending(s: seq<int>, p: int -> bool)
    requires forall i, j :: 0 <= i < j < |s| ==> s[i] < s[j]
    ensures forall i, j :: 0 <= i < j < |Filter(s, p)| ==> Filter(s, p)[i] < Filter(s, p)[j]
  {
    if s != [] {
      FilterKeepsAscending(s[1..], p);
      var rest := Filter(s[1..], p);
      forall j | 0 <= j < |rest| ensures s[0] < rest[j] {
        assert rest[j] in s[1..];
      }
    }
  }

  /** A requested minute is offered exactly when the day is a weekday, the minute is
      a grid start for the service's slot length, and no Confirmed appointment of
      this service starts at that minute of that day. */
  lemma SlotOfferedIff(catalog: map<string, Service>, rows: seq<Appointment>,
                       serviceId: string, day: int, m: int)
    requires serviceId in catalog && InDay(m)
    ensures Hhmm(m) in AvailableSlots(catalog, rows, serviceId, day).value <==>
            && !IsWeekend(day)
            && m in GridStarts(SlotLength(catalog[serviceId]))
            && !Taken(rows, serviceId, day, m)
  {
    if !IsWeekend(day) {
      var d := SlotLength(catalog[serviceId]);
      var g := GridStarts(d);
      GridShape(d);
      BookedSlotsIff(rows, serviceId, day, m);
      if Hhmm(m) in GridSlots(d) {
        var i :| 0 <= i < |g| && GridSlots(d)[i] == Hhmm(m);
        HhmmInjective(g[i], m);
      }
      if m in g {
        var i :| 0 <= i < |g| && g[i] == m;
        assert GridSlots(d)[i] == Hhmm(m);
      }
    }
  }

  /** A Saturday or a Sunday offers no slot, whatever the bookings. */
  lemma WeekendHasNoSlots(catalog: map<string, Service>, rows: seq<Appointment>,
                          serviceId: string, day: int)
    requires serviceId in catalog && IsWeekend(day)
    ensures AvailableSlots(catalog, rows, serviceId, day) == Ok([])
  {
  }

  /** An unknown service is NotFound, whatever the bookings. */
  lemma UnknownServiceNotFound(catalog: map<string, Service>, rows: seq<Appointment>,
                               serviceId: string, day: int)
    requires serviceId !in catalog
    ensures AvailableSlots(catalog, rows, serviceId, day) == Err(NotFound)
  {
  }

  /** A row that is not Confirmed never removes a slot: adding one leaves every
      day's slots as they were. */
  lemma NonConfirmedRowKeepsSlots(catalog: map<string, Service>, rows: seq<Appointment>,
                                  a: Appointment, serviceId: string, day: int)
    requires a.status != Confirmed
    ensures AvailableSlots(catalog, rows + [a], serviceId, day)
         == AvailableSlots(catalog, rows, serviceId, day)
  {
    var p := BlocksOn(serviceId, day);
    FilterAppend(rows, [a], p);
    assert Filter([a], p) == [];
    assert BookedSlots(rows + [a], serviceId, day) == BookedSlots(rows, serviceId, day);
  }

  /** The same, for every day at once. */
  lemma PendingRowKeepsAllDays(catalog: map<string, Service>, rows: seq<Appointment>,
                               a: Appointment, serviceId: string)
    requires a.status != Confirmed
    ensures forall day :: AvailableSlots(catalog, rows + [a], serviceId, day)
                          == AvailableSlots(catalog, rows, serviceId, day)
  {
    forall day ensures AvailableSlots(catalog, rows + [a], serviceId, day)
                       == AvailableSlots(catalog, rows, serviceId, day) {
      NonConfirmedRowKeepsSlots(catalog, rows, a, serviceId, day);
    }
  }

  /** A Confirmed appointment takes its own slot away. */
  lemma ConfirmedRowBlocksItsSlot(catalog: map<string, Service>, rows: seq<Appointment>, a: Appointment)
    requires a in rows && a.status == Confirmed && a.serviceId in catalog
    ensures Hhmm(MinuteOfDay(a.dateTime))
            !in AvailableSlots(catalog, rows, a.serviceId, DayOf(a.dateTime)).value
  {
    SlotOfferedIff(catalog, rows, a.serviceId, DayOf(a.dateTime), MinuteOfDay(a.dateTime));
  }

  /** `getAvailableSlots`: NotFound for an unknown service, nothing at weekends,
      otherwise the day's grid less the slots of its Confirmed bookings. */
  method GetAvailableSlots(catalog: map<string, Service>, rows: seq<Appointment>,
                           serviceId: string, date: int)
    returns (r: Result<seq<string>>)
    ensures r == AvailableSlots(catalog, rows, serviceId, DayOf(date))
  {
    if serviceId !in catalog {
      return Err(NotFound);
    }
    var d := SlotLength(catalog[serviceId]);
    var day := DayOf(date);
    if IsWeekend(day) {
      return Ok([]);
    }
    var slots := GenerateSlots(d);
    var booked := BookedSlots(rows, serviceId, day);
    r := Ok(Filter(slots, Unbooked(booked)));
  }

  /** The slot loop of `getAvailableSlots`: from 09:00 in steps of `d`, every slot
      that ends by 17:00 is emitted as "HH:MM". */
  method GenerateSlots(d: nat) returns (slots: seq<string>)
    requires d > 0
    ensures slots == GridSlots(d)
  {
    ghost var grid := GridStarts(d);
    GridShape(d);
    slots := [];
    var current := OpeningMinute;
    ghost var k: nat := 0;
    while current < ClosingMinute
      invariant current == OpeningMinute + k * d
      invariant slots == Render(grid[..if k < |grid| then k else |grid|])
      decreases ClosingMinute - current
    {
      var slotEnd := current + d;
      StepFits(d, k);
      assert slotEnd == OpeningMinute + (k + 1) * d;
      if slotEnd <= ClosingMinute {
        assert grid[..k + 1] == grid[..k] + [current];
        slots := slots + [Hhmm(current)];
      }
      current := slotEnd;
      k := k + 1;
    }
    if k < |grid| {
      StepFits(d, k);
    }
    assert grid[..|grid|] == grid;
  }

  /** `findById` (and the row `findOne({ where: { id } })` fetches). */
  function FindById(rows: seq<Appointment>, id: nat): (r: Option<Appointment>)
    ensures r.Some? ==> r.value in rows && r.value.id == id
    ensures r.None? <==> forall a :: a in rows ==> a.id != id
  {
    if rows == [] then None
    else if rows[0].id == id then Some(rows[0])
    else FindById(rows[1..], id)
  }

  function IndexOfId(rows: seq<Appointment>, id: nat): (r: Option<nat>)
    ensures r.Some? ==> r.value < |rows| && rows[r.value].id == id
    ensures r.None? <==> forall a :: a in rows ==> a.id != id
  {
    if rows == [] then None
    else if rows[0].id == id then Some(0)
    else match IndexOfId(rows[1..], id)
      case None => None
      case Some(i) => Some(i + 1)
  }

  /** The ordering key of both listings. */
  function DateTime(a: Appointment): int
  {
    a.dateTime
  }

  predicate CitizenMatch(a: Appointment, citizenId: nat, status: Option<AppointmentStatus>)
  {
    a.citizenId == citizenId && (status.Some? ==> a.status == status.value)
  }

  /** `findAppointmentsByCitizenId`: that citizen's appointments, optionally of one
      status, by ascending date-time. */
  function FindAppointmentsByCitizenId(rows: seq<Appointment>, citizenId: nat,
                                       status: Option<AppointmentStatus>): (r: seq<Appointment>)
    ensures SortedBy(r, DateTime)
    ensures forall a :: a in r <==> a in rows && a.citizenId == citizenId
                                    && (status.Some? ==> a.status == status.value)
    ensures multiset(r) == multiset(Filter(rows, a => CitizenMatch(a, citizenId, status)))
  {
    SortBy(Filter(rows, a => CitizenMatch(a, citizenId, status)), DateTime)
  }

  /** The officer gate: an existing user with role GovernmentOfficer and a
      non-empty department. */
  function OfficerDepartment(users: seq<Users.User>, officerId: nat): (r: Option<string>)
    ensures r.Some? <==> exists u :: u in users && u.id == officerId && Users.FindById(users, officerId) == Some(u)
                                     && u.role == GovernmentOfficer
                                     && u.departmentId.Some? && u.departmentId.value != ""
    ensures r.Some? ==> r == Users.FindById(users, officerId).value.departmentId
  {
    match Users.FindById(users, officerId)
    case None => None
    case Some(u) =>
      if u.role != GovernmentOfficer || u.departmentId.None? || u.departmentId.value == "" then None
      else u.departmentId
  }

  predicate OfficerMatch(a: Appointment, department: string, date: Option<int>,
                         status: Option<AppointmentStatus>)
  {
    && a.departmentId == department
    && (date.Some? ==> DayOf(a.dateTime) == DayOf(date.value))
    && (status.Some? ==> a.status == status.value)
  }

  /** `findAppointmentsByOfficer`: Unauthorized unless the user is an officer with a
      department; otherwise that department's appointments, optionally of one day and
      one status, by ascending date-time. */
  function FindAppointmentsByOfficer(users: seq<Users.User>, rows: seq<Appointment>, officerId: nat,
                                     date: Option<int>, status: Option<AppointmentStatus>)
    : (r: Result<seq<Appointment>>)
    ensures r.Err? <==> OfficerDepartment(users, officerId).None?
    ensures r.Err? ==> r.failure == Unauthorized
    ensures r.Ok? ==> SortedBy(r.value, DateTime)
    ensures r.Ok? ==> forall a :: a in r.value <==>
                        a in rows && OfficerMatch(a, OfficerDepartment(users, officerId).value, date, status)
    ensures r.Ok? ==> multiset(r.value)
                      == multiset(Filter(rows, a => OfficerMatch(a, OfficerDepartment(users, officerId).value,
                                                                 date, status)))
  {
    match OfficerDepartment(users, officerId)
    case None => Err(Unauthorized)
    case Some(dept) =>
      Ok(SortBy(Filter(rows, a => OfficerMatch(a, dept, date, status)), DateTime))
  }

  /** An Admin is turned away by the listing, whatever the controller admits. */
  lemma AdminCannotListDepartment(users: seq<Users.User>, rows: seq<Appointment>, officerId: nat,
                                  date: Option<int>, status: Option<AppointmentStatus>)
    requires Users.FindById(users, officerId).Some?
    requires Users.FindById(users, officerId).value.role == Admin
    ensures FindAppointmentsByOfficer(users, rows, officerId, date, status) == Err(Unauthorized)
  {
  }

  /** The primary key of a row. */
  function IdOf(a: Appointment): nat
  {
    a.id
  }

  /** The booking record `createAppointment` builds. */
  function NewBooking(id: nat, service: Service, citizenId: nat, serviceId: string,
                      dateTime: int, reference: string): Appointment
  {
    Appointment(id, citizenId, serviceId, service.departmentId, dateTime,
                reference, QrOf(reference), Pending, None)
  }

  /** The appointment table. Ids are handed out in increasing order. */
  class AppointmentBook {
    var rows: seq<Appointment>
    var nextId: nat

    ghost predicate Valid()
      reads this
    {
      && UniqueKeys(rows, IdOf)
      && forall a :: a in rows ==> a.id < nextId
    }

    constructor ()
      ensures Valid() && rows == []
    {
      rows := [];
      nextId := 0;
    }

    /** `createAppointment`: NotFound for an unknown service, BadRequest unless the
        requested "HH:MM" is among that day's available slots, otherwise one Pending
        row carrying the service's department. */
    method CreateAppointment(catalog: map<string, Service>, citizenId: nat, serviceId: string,
                             dateTime: int, reference: string)
      returns (r: Result<Appointment>)
      requires Valid()
      modifies this
      ensures Valid()
      ensures serviceId !in catalog ==> r == Err(NotFound)
      ensures serviceId in catalog ==>
                (r.Ok? <==> Hhmm(MinuteOfDay(dateTime))
                            in AvailableSlots(catalog, old(rows), serviceId, DayOf(dateTime)).value)
      ensures serviceId in catalog ==>
                (r.Ok? <==> && !IsWeekend(DayOf(dateTime))
                            && MinuteOfDay(dateTime) in GridStarts(SlotLength(catalog[serviceId]))
                            && !Taken(old(rows), serviceId, DayOf(dateTime), MinuteOfDay(dateTime)))
      ensures serviceId in catalog && r.Err? ==> r.failure == BadRequest
      ensures r.Err? ==> rows == old(rows) && nextId == old(nextId)
      ensures r.Ok? ==> && r.value == NewBooking(old(nextId), catalog[serviceId], citizenId,
                                                 serviceId, dateTime, reference)
                        && r.value.status == Pending
                        && r.value.departmentId == catalog[serviceId].departmentId
                        && rows == old(rows) + [r.value]
                        && forall a :: a in old(rows) ==> a.id != r.value.id
      ensures r.Ok? ==> forall day :: AvailableSlots(catalog, rows, serviceId, day)
                                      == AvailableSlots(catalog, old(rows), serviceId, day)
    {
      if serviceId !in catalog {
        return Err(NotFound);
      }
      var service := catalog[serviceId];
      var requestedSlot := Hhmm(MinuteOfDay(dateTime));
      var available := GetAvailableSlots(catalog, rows, serviceId, dateTime);
      SlotOfferedIff(catalog, rows, serviceId, DayOf(dateTime), MinuteOfDay(dateTime));
      if !(available.Ok? && requestedSlot in available.value) {
        return Err(BadRequest);
      }
      var booking := NewBooking(nextId, service, citizenId, serviceId, dateTime, reference);
      PendingRowKeepsAllDays(catalog, rows, booking, serviceId);
      AppendFreshKeepsUnique(rows, booking, IdOf, nextId);
      rows := rows + [booking];
      nextId := nextId + 1;
      r := Ok(booking);
    }

    /** `updateAppointmentStatus`: NotFound for an unknown id; otherwise any status
        is written over any status, the notes only when supplied, and nothing
        else in the table changes. */
    method UpdateAppointmentStatus(id: nat, status: AppointmentStatus, notes: Option<Option<string>>)
      returns (r: Result<Appointment>)
      requires Valid()
      modifies this
      ensures Valid() && nextId == old(nextId) && |rows| == |old(rows)|
      ensures FindById(old(rows), id).None? <==> r == Err(NotFound)
      ensures FindById(old(rows), id).Some? <==> r.Ok?
      ensures r.Err? ==> rows == old(rows)
      ensures r.Ok? ==> exists i :: && 0 <= i < |rows| && old(rows)[i].id == id
                                    && r.value == old(rows)[i].(status := status,
                                         officerNotes := if notes.Some? then notes.value
                                                         else old(rows)[i].officerNotes)
                                    && rows == old(rows)[i := r.value]
    {
      var i := IndexOfId(rows, id);
      if i.None? {
        return Err(NotFound);
      }
      var k := i.value;
      var appointment := rows[k].(status := status);
      if notes.Some? {
        appointment := appointment.(officerNotes := notes.value);
      }
      rows := rows[k := appointment];
      r := Ok(appointment);
    }
  }
}
