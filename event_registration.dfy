/** The event registration system of ezregistration/output/event_registration.py:
    a catalog of events with a monotonic id counter, users with auto-increment ids,
    each holding the ids of the events they registered for, validation of the
    registration form, case-insensitive duplicate detection, account deletion and
    per-event reports.

    A Python dict is kept as a map together with its keys in insertion order; the
    class invariant says that this order is ascending, as both counters only grow. */
module EventRegistration {
  import opened Python
  import opened Text
  import opened Lists
  import Sorting

  datatype Event = Event(id: int, name: string, description: string, date: string, time: string, location: string)

  datatype User = User(id: int, name: string, email: string, phone: string, eventIds: seq<int>)

  /** One entry of `get_detailed_report`: the keys `event_id`, `event_name`, `registrations`. */
  datatype ReportRow = ReportRow(eventId: int, eventName: string, registrations: int)

  /** A returned value, or the `ValueError` that `create_event` raises. */
  datatype Result<T> = Ok(value: T) | ValueError(message: string)

  // ---------------------------------------------------------------------------
  // `datetime.strptime` with the formats "%Y-%m-%d" and "%H:%M"

  // A matched field is read by `Text.FieldValue`; the one character other than a digit
  // a field can hold, a leading space of `%d`, counts as a leading zero.

  lemma FieldValueOfOne(f: string)
    requires |f| == 1
    ensures FieldValue(f) == DigitValue(f[0])
  {
    assert f[..0] == [];
  }

  lemma FieldValueOfTwo(f: string)
    requires |f| == 2
    ensures FieldValue(f) == 10 * DigitValue(f[0]) + DigitValue(f[1])
  {
    FieldValueOfOne(f[..1]);
  }

  lemma FieldValueOfFour(f: string)
    requires |f| == 4
    ensures FieldValue(f) == 1000 * DigitValue(f[0]) + 100 * DigitValue(f[1]) + 10 * DigitValue(f[2]) + DigitValue(f[3])
  {
    FieldValueOfTwo(f[..2]);
    assert f[..3][..2] == f[..2];
  }

  /** `%Y`: exactly four digits. */
  predicate YearField(f: string) {
    |f| == 4 && forall i :: 0 <= i < 4 ==> IsDigit(f[i])
  }

  /** `%m`: `1[0-2]|0[1-9]|[1-9]`. */
  predicate MonthField(f: string) {
    || (|f| == 1 && '1' <= f[0] <= '9')
    || (|f| == 2 && f[0] == '1' && '0' <= f[1] <= '2')
    || (|f| == 2 && f[0] == '0' && '1' <= f[1] <= '9')
  }

  /** `%d`: `3[01]|[12]\d|0[1-9]|[1-9]| [1-9]`. */
  predicate DayField(f: string) {
    || (|f| == 1 && '1' <= f[0] <= '9')
    || (|f| == 2 && f[0] == '3' && '0' <= f[1] <= '1')
    || (|f| == 2 && '1' <= f[0] <= '2' && IsDigit(f[1]))
    || (|f| == 2 && (f[0] == '0' || f[0] == ' ') && '1' <= f[1] <= '9')
  }

  /** `%H`: `2[0-3]|[0-1]\d|\d`. */
  predicate HourField(f: string) {
    || (|f| == 1 && IsDigit(f[0]))
    || (|f| == 2 && f[0] == '2' && '0' <= f[1] <= '3')
    || (|f| == 2 && '0' <= f[0] <= '1' && IsDigit(f[1]))
  }

  /** `%M`: `[0-5]\d|\d`. */
  predicate MinuteField(f: string) {
    || (|f| == 1 && IsDigit(f[0]))
    || (|f| == 2 && '0' <= f[0] <= '5' && IsDigit(f[1]))
  }

  predicate IsLeapYear(y: nat) {
    y % 4 == 0 && (y % 100 != 0 || y % 400 == 0)
  }

  function DaysInMonth(y: nat, m: nat): nat {
    if m == 2 then (if IsLeapYear(y) then 29 else 28)
    else if m == 4 || m == 6 || m == 9 || m == 11 then 30
    else 31
  }

  /** `datetime.strptime(s, "%Y-%m-%d")` succeeds: the whole string is a year, a dash,
      a month, a dash and a day in the fields' patterns, and the day exists in that
      month of a year from 1 on. */
  predicate ValidDate(s: string) {
    && |s| >= 5 && YearField(s[..4]) && s[4] == '-'
    && var rest := s[5..];
       && '-' in rest
       && var k := IndexOf(rest, '-');
          && MonthField(rest[..k]) && DayField(rest[k + 1..])
          && var year, month, day := FieldValue(s[..4]), FieldValue(rest[..k]), FieldValue(rest[k + 1..]);
             1 <= year && day <= DaysInMonth(year, month)
  }

  /** `datetime.strptime(s, "%H:%M")` succeeds: an hour, a colon and a minute. */
  predicate ValidTime(s: string) {
    && ':' in s
    && var k := IndexOf(s, ':');
       HourField(s[..k]) && MinuteField(s[k + 1..])
  }

  /** `%Y-%m-%d` split at its dashes: a date string assembled from a four-character
      year, a month without a dash and a day is accepted exactly when each field
      matches its pattern and the day exists. */
  lemma ValidDateParts(y: string, m: string, d: string)
    requires |y| == 4 && '-' !in m
    ensures ValidDate(y + "-" + m + "-" + d) <==>
      (&& YearField(y) && MonthField(m) && DayField(d)
       && 1 <= FieldValue(y) && FieldValue(d) <= DaysInMonth(FieldValue(y), FieldValue(m)))
  {
    var s := y + "-" + m + "-" + d;
    assert s[..4] == y && s[4] == '-';
    var rest := s[5..];
    assert rest == m + "-" + d;
    assert rest[|m|] == '-';
    var k := IndexOf(rest, '-');
    assert k == |m|;
    assert rest[..k] == m && rest[k + 1..] == d;
  }

  /** `%H:%M` split at its colon. */
  lemma ValidTimeParts(h: string, m: string)
    requires ':' !in h
    ensures ValidTime(h + ":" + m) <==> HourField(h) && MinuteField(m)
  {
    var s := h + ":" + m;
    assert s[|h|] == ':';
    var k := IndexOf(s, ':');
    assert k == |h|;
    assert s[..k] == h && s[k + 1..] == m;
  }

  // ---------------------------------------------------------------------------
  // Pure views of the registry's dictionaries

  /** `keys` are exactly the entries of `order`, which ascends (dict insertion order). */
  ghost predicate OrderedKeys(keys: set<int>, order: seq<int>) {
    && Increasing(order)
    && (forall i :: 0 <= i < |order| ==> order[i] in keys)
    && (forall k :: k in keys ==> k in order)
  }

  /** `list(d.values())`. */
  function Values<V>(m: map<int, V>, order: seq<int>): (r: seq<V>)
    requires forall i :: 0 <= i < |order| ==> order[i] in m
    ensures |r| == |order| && forall i :: 0 <= i < |order| ==> r[i] == m[order[i]]
  {
    seq(|order|, i requires 0 <= i < |order| => m[order[i]])
  }

  /** Python's `(e.date, e.time) < (f.date, f.time)`. */
  predicate DateTimeLess(e: Event, f: Event) {
    StrLess(e.date, f.date) || (e.date == f.date && StrLess(e.time, f.time))
  }

  /** The order of `sort(key=lambda e: (e.date, e.time))`: `e` may precede `f`. */
  predicate ByDateTime(e: Event, f: Event) {
    !DateTimeLess(f, e)
  }

  /** The order of `sort(key=lambda x: x["event_id"])`. */
  predicate ByEventId(a: ReportRow, b: ReportRow) {
    !(b.eventId < a.eventId)
  }

  lemma ByDateTimeTotalPreorder()
    ensures Sorting.TotalPreorder(ByDateTime)
  {
    forall e: Event, f: Event ensures ByDateTime(e, f) || ByDateTime(f, e) {
      if StrLess(e.date, f.date) && StrLess(f.date, e.date) {
        StrLessTransitive(e.date, f.date, e.date);
        StrLessIrreflexive(e.date);
      }
      if StrLess(e.time, f.time) && StrLess(f.time, e.time) {
        StrLessTransitive(e.time, f.time, e.time);
        StrLessIrreflexive(e.time);
      }
      if e.date == f.date {
        StrLessIrreflexive(e.date);
      }
    }
    forall e: Event, f: Event, g: Event | ByDateTime(e, f) && ByDateTime(f, g)
      ensures ByDateTime(e, g)
    {
      // negative transitivity: g before e forces g before f or f before e
      StrLessTotal(e.date, f.date);
      StrLessTotal(f.date, g.date);
      StrLessTotal(e.time, f.time);
      StrLessTotal(f.time, g.time);
      if DateTimeLess(g, e) {
        if StrLess(g.date, e.date) {
          if StrLess(e.date, f.date) { StrLessTransitive(g.date, e.date, f.date); }
          if StrLess(f.date, g.date) { StrLessTransitive(f.date, g.date, e.date); }
        } else {
          if StrLess(e.date, f.date) { }
          if StrLess(f.date, g.date) { }
          if e.date == f.date {
            if StrLess(e.time, f.time) { StrLessTransitive(g.time, e.time, f.time); }
            if StrLess(f.time, g.time) { StrLessTransitive(f.time, g.time, e.time); }
          }
        }
        assert false;
      }
    }
  }

  lemma ByEventIdTotalPreorder()
    ensures Sorting.TotalPreorder(ByEventId)
  {
  }

  /** The events of `eventIds` that exist, in that order (the `if event:` loop). */
  function EventsOf(events: map<int, Event>, eventIds: seq<int>): (r: seq<Event>)
    ensures |r| <= |eventIds|
    ensures (forall i :: 0 <= i < |eventIds| ==> eventIds[i] in events) ==>
      (|r| == |eventIds| && forall i :: 0 <= i < |eventIds| ==> r[i] == events[eventIds[i]])
  {
    if eventIds == [] then []
    else
      var id := eventIds[|eventIds| - 1];
      var init := EventsOf(events, eventIds[..|eventIds| - 1]);
      if id in events then init + [events[id]] else init
  }

  /** With every id present and stored under its own id, the events found are exactly
      the events of the ids. */
  lemma EventsOfMembers(events: map<int, Event>, eventIds: seq<int>)
    requires forall i :: 0 <= i < |eventIds| ==> eventIds[i] in events
    requires forall k :: k in events ==> events[k].id == k
    ensures forall e :: e in EventsOf(events, eventIds) <==> e.id in eventIds && e == events[e.id]
  {
    var r := EventsOf(events, eventIds);
    forall e ensures e in r <==> e.id in eventIds && e == events[e.id] {
      if e in r {
        var i :| 0 <= i < |r| && r[i] == e;
        assert e.id == eventIds[i];
      }
      if e.id in eventIds && e == events[e.id] {
        var i :| 0 <= i < |eventIds| && eventIds[i] == e.id;
        assert r[i] == e;
      }
    }
  }

  predicate EmailMatches(users: map<int, User>, id: int, email: string) {
    id in users && Lower(users[id].email) == Lower(email)
  }

  /** The position in `order` of the first user, from `start` on, whose email equals
      `email` once both are lowercased. */
  function FindFrom(users: map<int, User>, order: seq<int>, email: string, start: nat): (r: Option<nat>)
    requires start <= |order|
    ensures r.Some? ==> (start <= r.value < |order| && EmailMatches(users, order[r.value], email) &&
      forall j :: start <= j < r.value ==> !EmailMatches(users, order[j], email))
    ensures r.None? ==> forall j :: start <= j < |order| ==> !EmailMatches(users, order[j], email)
    decreases |order| - start
  {
    if start == |order| then None
    else if EmailMatches(users, order[start], email) then Some(start)
    else FindFrom(users, order, email, start + 1)
  }

  /** `find_user_by_email` on a given state: the id of the first matching user in
      insertion order. */
  function FindUser(users: map<int, User>, order: seq<int>, email: string): (r: Option<int>)
    ensures r.Some? ==> EmailMatches(users, r.value, email)
    ensures r.None? ==> forall j :: 0 <= j < |order| ==> !EmailMatches(users, order[j], email)
  {
    match FindFrom(users, order, email, 0)
    case Some(i) => Some(order[i])
    case None => None
  }

  /** Some user whose email matches case-insensitively is registered for `eventId`. */
  predicate EmailRegistered(users: map<int, User>, email: string, eventId: int) {
    exists id :: id in users && Lower(users[id].email) == Lower(email) && eventId in users[id].eventIds
  }

  /** The users of `order` registered for `eventId`, in that order. */
  function Registrants(users: map<int, User>, order: seq<int>, eventId: int): (r: seq<User>)
    ensures |r| <= |order|
    ensures forall u :: u in r ==> eventId in u.eventIds
  {
    if order == [] then []
    else
      var id := order[|order| - 1];
      var init := Registrants(users, order[..|order| - 1], eventId);
      if id in users && eventId in users[id].eventIds then init + [users[id]] else init
  }

  /** How often `eventId` occurs in the event lists of the users of `order`:
      what the counting loop of `get_registration_report` adds up. */
  function Tally(users: map<int, User>, order: seq<int>, eventId: int): nat
  {
    if order == [] then 0
    else
      var id := order[|order| - 1];
      Tally(users, order[..|order| - 1], eventId) + (if id in users then multiset(users[id].eventIds)[eventId] else 0)
  }

  /** When no user lists an event twice, the tally of an event is its number of registrants. */
  lemma {:induction false} TallyCountsRegistrants(users: map<int, User>, order: seq<int>, eventId: int)
    requires forall id :: id in users ==> NoDup(users[id].eventIds)
    ensures Tally(users, order, eventId) == |Registrants(users, order, eventId)|
    decreases |order|
  {
    if order != [] {
      var id := order[|order| - 1];
      TallyCountsRegistrants(users, order[..|order| - 1], eventId);
      if id in users {
        NoDupMultiplicity(users[id].eventIds, eventId);
      }
    }
  }

  /** Every user of `order` registered for `eventId` is listed. */
  lemma {:induction false} RegistrantsComplete(users: map<int, User>, order: seq<int>, eventId: int, id: int)
    requires id in order && id in users && eventId in users[id].eventIds
    ensures users[id] in Registrants(users, order, eventId)
    decreases |order|
  {
    var init := order[..|order| - 1];
    if id != order[|order| - 1] {
      var i :| 0 <= i < |order| && order[i] == id;
      assert init[i] == id;
      RegistrantsComplete(users, init, eventId, id);
    }
  }

  /** The holders of `eventId` in `init + [last]` are those in `init`, and `last` when
      it holds the event. */
  lemma HoldersStep(users: map<int, User>, init: seq<int>, last: int, eventId: int)
    ensures (set k | k in init + [last] && k in users && eventId in users[k].eventIds) ==
            (set k | k in init && k in users && eventId in users[k].eventIds) +
            (if last in users && eventId in users[last].eventIds then {last} else {})
  {
  }

  /** The users of a duplicate-free `order` registered for `eventId` are as many as the
      listed registrants. */
  lemma {:induction false} RegistrantsCountFrom(users: map<int, User>, order: seq<int>, eventId: int)
    requires NoDup(order)
    ensures |Registrants(users, order, eventId)| == |set k | k in order && k in users && eventId in users[k].eventIds|
    decreases |order|
  {
    if order != [] {
      var init, last := order[..|order| - 1], order[|order| - 1];
      assert order == init + [last];
      RegistrantsCountFrom(users, init, eventId);
      assert last !in init;
      HoldersStep(users, init, last, eventId);
    }
  }

  /** `get_registration_report`'s count: with the dict's keys in `order`, the registrants
      of an event are as many as the users whose `event_ids` contain it. */
  lemma RegistrantsCount(users: map<int, User>, order: seq<int>, eventId: int)
    requires OrderedKeys(users.Keys, order)
    ensures |Registrants(users, order, eventId)| == |set k | k in users && eventId in users[k].eventIds|
  {
    OrderedKeysCard(users.Keys, order);
    RegistrantsCountFrom(users, order, eventId);
    assert (set k | k in order && k in users && eventId in users[k].eventIds) ==
           (set k | k in users && eventId in users[k].eventIds);
  }

  /** Stored emails are stripped (a clause of `RegistryInvariant`) while the lookups
      lowercase the raw argument, so an email with leading or trailing whitespace
      matches no stored email: registering it creates another user, even for an event
      its unpadded form is registered for. */
  lemma PaddedEmailUnmatched(events: map<int, Event>, eventOrder: seq<int>,
                             users: map<int, User>, userOrder: seq<int>,
                             nextEventId: int, nextUserId: int, email: string)
    requires RegistryInvariant(events, eventOrder, users, userOrder, nextEventId, nextUserId)
    requires email != [] && (IsSpace(email[0]) || IsSpace(email[|email| - 1]))
    ensures FindUser(users, userOrder, email).None?
    ensures forall eventId :: !EmailRegistered(users, email, eventId)
  {
    forall id | id in users ensures Lower(users[id].email) != Lower(email) {
      var s := users[id].email;
      if s != [] && |s| == |email| {
        assert !IsSpace(s[0]) && !IsSpace(s[|s| - 1]);
        if IsSpace(email[0]) {
          assert Lower(s)[0] == LowerChar(s[0]) && Lower(email)[0] == email[0];
        } else {
          assert Lower(s)[|s| - 1] == LowerChar(s[|s| - 1]) && Lower(email)[|s| - 1] == email[|s| - 1];
        }
      }
    }
  }

  // ---------------------------------------------------------------------------
  // Registration form

  /** `validate_registration_data`: the first failing check, with its message. */
  function ValidateRegistrationData(name: string, email: string, phone: string): (r: (bool, string))
    ensures r.0 <==> (&& Strip(name) != [] && Strip(email) != [] && Strip(phone) != []
                      && '@' in email && '.' in email
                      && 10 <= |Digits(phone)| <= 15)
    ensures r.0 ==> r.1 == ""
    ensures !r.0 ==> r.1 in {"Name cannot be empty", "Email cannot be empty", "Phone cannot be empty",
                             "Invalid email format", "Phone number must be 10-15 digits"}
  {
    if name == [] || Strip(name) == [] then (false, "Name cannot be empty")
    else if email == [] || Strip(email) == [] then (false, "Email cannot be empty")
    else if phone == [] || Strip(phone) == [] then (false, "Phone cannot be empty")
    else if '@' !in email || '.' !in email then (false, "Invalid email format")
    else
      var phoneDigits := Digits(phone);
      if |phoneDigits| < 10 || |phoneDigits| > 15 then (false, "Phone number must be 10-15 digits")
      else if !IsDigitString(phoneDigits) then (false, "Phone number must contain only digits")
      else (true, "")
  }

  /** The messages come in the order of the checks: emptiness of name, email and phone
      (after stripping), then the email's '@' and '.', then the phone's digit count. */
  lemma ValidationOrder(name: string, email: string, phone: string)
    ensures Strip(name) == [] ==> ValidateRegistrationData(name, email, phone) == (false, "Name cannot be empty")
    ensures Strip(name) != [] && Strip(email) == [] ==>
      ValidateRegistrationData(name, email, phone) == (false, "Email cannot be empty")
    ensures Strip(name) != [] && Strip(email) != [] && Strip(phone) == [] ==>
      ValidateRegistrationData(name, email, phone) == (false, "Phone cannot be empty")
    ensures Strip(name) != [] && Strip(email) != [] && Strip(phone) != [] && ('@' !in email || '.' !in email) ==>
      ValidateRegistrationData(name, email, phone) == (false, "Invalid email format")
    ensures (Strip(name) != [] && Strip(email) != [] && Strip(phone) != [] && '@' in email && '.' in email &&
             !(10 <= |Digits(phone)| <= 15)) ==>
      ValidateRegistrationData(name, email, phone) == (false, "Phone number must be 10-15 digits")
  {
  }

  /** The "only digits" check comes after the digit count and looks at digits only,
      so it never fails. */
  lemma OnlyDigitsCheckUnreachable(phone: string)
    requires 10 <= |Digits(phone)|
    ensures IsDigitString(Digits(phone))
  {
  }

  // ---------------------------------------------------------------------------
  // The registry's invariant, on its field values

  ghost predicate RegistryInvariant(events: map<int, Event>, eventOrder: seq<int>,
                                    users: map<int, User>, userOrder: seq<int>,
                                    nextEventId: int, nextUserId: int)
  {
    && OrderedKeys(events.Keys, eventOrder)
    && OrderedKeys(users.Keys, userOrder)
    && (forall k :: k in events ==> events[k].id == k && k < nextEventId)
    && (forall k :: k in users ==> users[k].id == k && k < nextUserId)
    && (forall k :: k in users ==> NoDup(users[k].eventIds))
    && (forall k :: k in users ==> users[k].email == Strip(users[k].email))
    && (forall k, e :: k in users && e in users[k].eventIds ==> e in events)
  }

  /** An ascending key order lists each key once. */
  lemma OrderedKeysCard(keys: set<int>, order: seq<int>)
    requires OrderedKeys(keys, order)
    ensures NoDup(order) && Elems(order) == keys && |keys| == |order|
  {
    NoDupCard(order);
    forall k | k in keys ensures k in Elems(order) { }
    assert Elems(order) == keys;
  }

  /** Every event a user lists exists, position by position. */
  lemma UserEventsExist(events: map<int, Event>, eventOrder: seq<int>,
                        users: map<int, User>, userOrder: seq<int>,
                        nextEventId: int, nextUserId: int, id: int)
    requires RegistryInvariant(events, eventOrder, users, userOrder, nextEventId, nextUserId)
    requires id in users
    ensures forall i :: 0 <= i < |users[id].eventIds| ==> users[id].eventIds[i] in events
    ensures forall k :: k in events ==> events[k].id == k
  {
    var ids := users[id].eventIds;
    forall i | 0 <= i < |ids| ensures ids[i] in events {
      var e := ids[i];
      assert id in users && e in users[id].eventIds;
    }
  }

  /** Registering a new user under the counter keeps the invariant. */
  lemma NewUserKeepsInvariant(events: map<int, Event>, eventOrder: seq<int>,
                              users: map<int, User>, userOrder: seq<int>,
                              nextEventId: int, nextUserId: int, user: User)
    requires RegistryInvariant(events, eventOrder, users, userOrder, nextEventId, nextUserId)
    requires user.id == nextUserId && |user.eventIds| == 1 && user.eventIds[0] in events
    requires user.email == Strip(user.email)
    ensures RegistryInvariant(events, eventOrder, users[nextUserId := user], userOrder + [nextUserId],
                              nextEventId, nextUserId + 1)
  {
    var users', userOrder' := users[nextUserId := user], userOrder + [nextUserId];
    assert user.eventIds == [user.eventIds[0]];
    forall k, e | k in users' && e in users'[k].eventIds ensures e in events {
    }
    assert Increasing(userOrder');
  }

  /** Appending an event the user does not hold yet keeps the invariant. */
  lemma ExtendUserKeepsInvariant(events: map<int, Event>, eventOrder: seq<int>,
                                 users: map<int, User>, userOrder: seq<int>,
                                 nextEventId: int, nextUserId: int, id: int, eventId: int)
    requires RegistryInvariant(events, eventOrder, users, userOrder, nextEventId, nextUserId)
    requires id in users && eventId in events && eventId !in users[id].eventIds
    ensures RegistryInvariant(events, eventOrder, users[id := users[id].(eventIds := users[id].eventIds + [eventId])],
                              userOrder, nextEventId, nextUserId)
  {
    NoDupAppend(users[id].eventIds, eventId);
  }

  /** Deleting a user keeps the invariant. */
  lemma DeleteUserKeepsInvariant(events: map<int, Event>, eventOrder: seq<int>,
                                 users: map<int, User>, userOrder: seq<int>,
                                 nextEventId: int, nextUserId: int, id: int)
    requires RegistryInvariant(events, eventOrder, users, userOrder, nextEventId, nextUserId)
    requires id in users
    ensures id in userOrder
    ensures RegistryInvariant(events, eventOrder, users - {id}, RemoveFirst(userOrder, id), nextEventId, nextUserId)
  {
    RemoveKeyOrdered(users.Keys, userOrder, id);
  }

  /** Removing a key from the dict removes it from the key order. */
  lemma RemoveKeyOrdered(keys: set<int>, order: seq<int>, id: int)
    requires OrderedKeys(keys, order) && id in keys
    ensures id in order && OrderedKeys(keys - {id}, RemoveFirst(order, id))
  {
    OrderedKeysCard(keys, order);
    RemoveFirstFromNoDup(order, id);
    RemoveFirstIncreasing(order, id);
  }

  /** Python's `sort(key=lambda e: (e.date, e.time))`. */
  function SortByDateTime(s: seq<Event>): (r: seq<Event>)
    ensures Sorting.SortedBy(r, ByDateTime)
    ensures multiset(r) == multiset(s) && |r| == |s|
  {
    ByDateTimeTotalPreorder();
    Sorting.SortSorted(s, ByDateTime);
    assert |multiset(Sorting.Sort(s, ByDateTime))| == |multiset(s)|;
    Sorting.Sort(s, ByDateTime)
  }

  const SampleEvents: seq<Event> := [
    Event(1, "Event 1: AI Agentic Programming Workshop",
          "This event is for members who want to learn about AI agentic programming.",
          "2024-06-15", "10:00", "Tech Hub Auditorium"),
    Event(2, "Event 2: Leadership Development Seminar",
          "This event is for members who want to learn about leadership.",
          "2024-06-20", "14:00", "Business Center Room 101"),
    Event(3, "Event 3: Innovation Workshop",
          "This event is for members who want to learn about innovation.",
          "2024-06-25", "11:00", "Innovation Lab"),
    Event(4, "Event 4: Entrepreneurship Bootcamp",
          "This event is for members who want to learn about entrepreneurship.",
          "2024-07-01", "09:00", "Startup Garage"),
    Event(5, "Event 5: Community Building Forum",
          "This event is for members who want to learn about community building.",
          "2024-07-05", "13:00", "Community Hall"),
    Event(6, "Event 6: Metaverse Exploration Session",
          "This event is for members who want to learn about Metaverse.",
          "2024-07-10", "15:00", "Virtual Reality Lab")
  ]

  /** The registry: `EventRegistration`. */
  class Registry {
    var events: map<int, Event>
    var eventOrder: seq<int>
    var users: map<int, User>
    var userOrder: seq<int>
    var nextEventId: int
    var nextUserId: int

    /** Both dictionaries are iterated in ascending id order, every id is below its
        counter, no user lists an event twice and every listed event exists. */
    ghost predicate Valid()
      reads this
    {
      RegistryInvariant(events, eventOrder, users, userOrder, nextEventId, nextUserId)
    }

    /** `__init__`: the six sample events, no users, counters at 7 and 1. */
    constructor ()
      ensures Valid()
      ensures eventOrder == [1, 2, 3, 4, 5, 6]
      ensures forall k :: k in events <==> 1 <= k <= 6
      ensures forall k :: 1 <= k <= 6 ==> events[k] == SampleEvents[k - 1]
      ensures Values(events, eventOrder) == SampleEvents
      ensures users == map[] && userOrder == []
      ensures nextEventId == 7 && nextUserId == 1
    {
      events, eventOrder := map[], [];
      users, userOrder := map[], [];
      nextEventId, nextUserId := 7, 1;
      new;
      var i := 0;
      while i < |SampleEvents|
        invariant 0 <= i <= |SampleEvents|
        invariant |eventOrder| == i && forall k :: 0 <= k < i ==> eventOrder[k] == k + 1
        invariant forall k :: k in events <==> 1 <= k <= i
        invariant forall k :: 0 <= k < i ==> (k + 1) in events && events[k + 1] == SampleEvents[k]
        invariant forall k :: k in events ==> events[k].id == k
        invariant users == map[] && userOrder == [] && nextEventId == 7 && nextUserId == 1
      {
        var e := SampleEvents[i];
        assert e.id == i + 1;
        events := events[e.id := e];
        eventOrder := eventOrder + [e.id];
        i := i + 1;
      }
      forall k | k in events ensures k in eventOrder {
        assert eventOrder[k - 1] == k;
      }
      assert eventOrder == [1, 2, 3, 4, 5, 6];
      var all := Values(events, eventOrder);
      assert forall k :: 0 <= k < 6 ==> all[k] == SampleEvents[k];
    }

    /** `get_all_events`: every event once, sorted by (date, time), ties in id order. */
    function GetAllEvents(): (r: seq<Event>)
      requires Valid()
      reads this
      ensures |r| == |events|
      ensures Sorting.SortedBy(r, ByDateTime)
      ensures multiset(r) == multiset(Values(events, eventOrder))
      ensures forall e :: e in r <==> e.id in events && events[e.id] == e
    {
      var all := Values(events, eventOrder);
      OrderedKeysCard(events.Keys, eventOrder);
      var r := SortByDateTime(all);
      assert forall e :: e in r <==> e in multiset(all);
      r
    }

    /** `get_event_by_id`. */
    function GetEventById(eventId: int): (r: Option<Event>)
      reads this
      ensures r.Some? <==> eventId in events
      ensures r.Some? ==> r.value == events[eventId]
    {
      if eventId in events then Some(events[eventId]) else None
    }

    /** `create_event`: a bad date or time raises before any id is used; otherwise the
        event is stored under the current counter, which then moves on by one. */
    method CreateEvent(name: string, description: string, date: string, time: string, location: string)
      returns (r: Result<Event>)
      requires Valid()
      modifies this
      ensures Valid()
      ensures !ValidDate(date) ==> r == ValueError("Invalid date format. Use YYYY-MM-DD")
      ensures ValidDate(date) && !ValidTime(time) ==> r == ValueError("Invalid time format. Use HH:MM")
      ensures r.ValueError? ==> events == old(events) && eventOrder == old(eventOrder) && nextEventId == old(nextEventId)
      ensures ValidDate(date) && ValidTime(time) ==>
        && r == Ok(Event(old(nextEventId), name, description, date, time, location))
        && events == old(events)[old(nextEventId) := r.value]
        && eventOrder == old(eventOrder) + [old(nextEventId)]
        && nextEventId == old(nextEventId) + 1
      ensures users == old(users) && userOrder == old(userOrder) && nextUserId == old(nextUserId)
    {
      if !ValidDate(date) {
        return ValueError("Invalid date format. Use YYYY-MM-DD");
      }
      if !ValidTime(time) {
        return ValueError("Invalid time format. Use HH:MM");
      }
      var eventId := nextEventId;
      nextEventId := nextEventId + 1;
      var event := Event(eventId, name, description, date, time, location);
      events := events[eventId := event];
      eventOrder := eventOrder + [eventId];
      r := Ok(event);
    }

    /** `is_email_registered_for_event`. */
    method IsEmailRegisteredForEvent(email: string, eventId: int) returns (found: bool)
      requires Valid()
      ensures found == EmailRegistered(users, email, eventId)
    {
      var i := 0;
      while i < |userOrder|
        invariant 0 <= i <= |userOrder|
        invariant forall j :: 0 <= j < i ==>
          !(EmailMatches(users, userOrder[j], email) && eventId in users[userOrder[j]].eventIds)
      {
        var user := users[userOrder[i]];
        if Lower(user.email) == Lower(email) && eventId in user.eventIds {
          assert EmailMatches(users, userOrder[i], email) && eventId in users[userOrder[i]].eventIds;
          return true;
        }
        i := i + 1;
      }
      forall id | id in users ensures !(EmailMatches(users, id, email) && eventId in users[id].eventIds) {
        var j :| 0 <= j < |userOrder| && userOrder[j] == id;
      }
      return false;
    }

    /** `find_user_by_email`. */
    method FindUserByEmail(email: string) returns (r: Option<int>)
      requires Valid()
      ensures r == FindUser(users, userOrder, email)
      ensures r.Some? ==> r.value in users && Lower(users[r.value].email) == Lower(email)
      ensures r.None? <==> forall id :: id in users ==> Lower(users[id].email) != Lower(email)
    {
      var i := 0;
      while i < |userOrder|
        invariant 0 <= i <= |userOrder|
        invariant FindFrom(users, userOrder, email, 0) == FindFrom(users, userOrder, email, i)
      {
        var userId := userOrder[i];
        if Lower(users[userId].email) == Lower(email) {
          return Some(userId);
        }
        i := i + 1;
      }
      return None;
    }

    /** `register_user_for_event`. A failure returns `(False, message, -1)` and changes
        nothing; a success either appends the event to the first user whose email
        matches case-insensitively or creates a user under the next id, with the
        name, email and phone stripped. */
    method RegisterUserForEvent(eventId: int, name: string, email: string, phone: string)
      returns (ok: bool, message: string, userId: int)
      requires Valid()
      modifies this
      ensures Valid()
      ensures ok <==> (&& eventId in events
                       && ValidateRegistrationData(name, email, phone).0
                       && !EmailRegistered(old(users), email, eventId))
      ensures eventId !in events ==> message == "Event with ID " + IntToString(eventId) + " does not exist"
      ensures eventId in events && !ValidateRegistrationData(name, email, phone).0 ==>
        message == ValidateRegistrationData(name, email, phone).1
      ensures eventId in events && ValidateRegistrationData(name, email, phone).0 && EmailRegistered(old(users), email, eventId) ==>
        message == "Email " + email + " is already registered for this event"
      ensures ok ==> message == "Successfully registered for event"
      ensures !ok ==> userId == -1 && users == old(users) && userOrder == old(userOrder) && nextUserId == old(nextUserId)
      ensures ok && FindUser(old(users), old(userOrder), email).Some? ==>
        && userId == FindUser(old(users), old(userOrder), email).value
        && users == old(users)[userId := old(users)[userId].(eventIds := old(users)[userId].eventIds + [eventId])]
        && userOrder == old(userOrder) && nextUserId == old(nextUserId)
      ensures ok && FindUser(old(users), old(userOrder), email).None? ==>
        && userId == old(nextUserId)
        && users == old(users)[userId := User(userId, Strip(name), Strip(email), Strip(phone), [eventId])]
        && userOrder == old(userOrder) + [userId]
        && nextUserId == old(nextUserId) + 1
      ensures events == old(events) && eventOrder == old(eventOrder) && nextEventId == old(nextEventId)
    {
      if eventId !in events {
        return false, "Event with ID " + IntToString(eventId) + " does not exist", -1;
      }
      var (isValid, errorMessage) := ValidateRegistrationData(name, email, phone);
      if !isValid {
        return false, errorMessage, -1;
      }
      var registered := IsEmailRegisteredForEvent(email, eventId);
      if registered {
        return false, "Email " + email + " is already registered for this event", -1;
      }
      assert forall id :: EmailMatches(users, id, email) ==> eventId !in users[id].eventIds;
      userId := AddRegistration(eventId, name, email, phone);
      return true, "Successfully registered for event", userId;
    }

    /** The accepting branch of `register_user_for_event`, once the event exists, the
        form is valid and the email is not yet registered for the event. */
    method AddRegistration(eventId: int, name: string, email: string, phone: string) returns (userId: int)
      requires Valid()
      requires eventId in events
      requires forall id :: EmailMatches(users, id, email) ==> eventId !in users[id].eventIds
      modifies this
      ensures Valid()
      ensures FindUser(old(users), old(userOrder), email).Some? ==>
        && userId == FindUser(old(users), old(userOrder), email).value
        && users == old(users)[userId := old(users)[userId].(eventIds := old(users)[userId].eventIds + [eventId])]
        && userOrder == old(userOrder) && nextUserId == old(nextUserId)
      ensures FindUser(old(users), old(userOrder), email).None? ==>
        && userId == old(nextUserId)
        && users == old(users)[userId := User(userId, Strip(name), Strip(email), Strip(phone), [eventId])]
        && userOrder == old(userOrder) + [userId]
        && nextUserId == old(nextUserId) + 1
      ensures events == old(events) && eventOrder == old(eventOrder) && nextEventId == old(nextEventId)
    {
      var existing := FindUserByEmail(email);
      if existing.Some? {
        userId := existing.value;
        var user := users[userId];
        assert eventId !in user.eventIds;
        ExtendUserKeepsInvariant(events, eventOrder, users, userOrder, nextEventId, nextUserId, userId, eventId);
        if eventId !in user.eventIds {
          users := users[userId := user.(eventIds := user.eventIds + [eventId])];
        }
      } else {
        userId := nextUserId;
        var user := User(userId, Strip(name), Strip(email), Strip(phone), [eventId]);
        StripIdempotent(email);
        NewUserKeepsInvariant(events, eventOrder, users, userOrder, nextEventId, nextUserId, user);
        nextUserId := nextUserId + 1;
        users := users[userId := user];
        userOrder := userOrder + [userId];
      }
    }

    /** `get_user_registrations`: `None` for an unknown user, otherwise that user's events
        sorted by (date, time). */
    method GetUserRegistrations(userId: int) returns (r: Option<seq<Event>>)
      requires Valid()
      ensures r.None? <==> userId !in users
      ensures r.Some? ==> && r.value == SortByDateTime(EventsOf(events, users[userId].eventIds))
                          && |r.value| == |users[userId].eventIds|
                          && forall e :: e in r.value <==> e.id in users[userId].eventIds && e == events[e.id]
    {
      if userId !in users {
        return None;
      }
      var user := users[userId];
      var found: seq<Event> := [];
      var i := 0;
      while i < |user.eventIds|
        invariant 0 <= i <= |user.eventIds|
        invariant found == EventsOf(events, user.eventIds[..i])
      {
        var eventId := user.eventIds[i];
        assert user.eventIds[..i + 1][..i] == user.eventIds[..i];
        if eventId in events {
          found := found + [events[eventId]];
        }
        i := i + 1;
      }
      assert user.eventIds[..i] == user.eventIds;
      UserEventsExist(events, eventOrder, users, userOrder, nextEventId, nextUserId, userId);
      EventsOfMembers(events, user.eventIds);
      var sorted := SortByDateTime(found);
      assert forall e :: e in sorted <==> e in multiset(found);
      return Some(sorted);
    }

    /** `delete_user_account`: removes exactly that user, or reports that it does not exist. */
    method DeleteUserAccount(userId: int) returns (ok: bool, message: string)
      requires Valid()
      modifies this
      ensures Valid()
      ensures ok <==> userId in old(users)
      ensures ok ==> users == old(users) - {userId} && userOrder == RemoveFirst(old(userOrder), userId)
      ensures ok ==> message == "User account " + IntToString(userId) + " deleted successfully"
      ensures !ok ==> (users == old(users) && userOrder == old(userOrder) &&
                       message == "User with ID " + IntToString(userId) + " does not exist")
      ensures events == old(events) && eventOrder == old(eventOrder)
      ensures nextEventId == old(nextEventId) && nextUserId == old(nextUserId)
    {
      if userId !in users {
        return false, "User with ID " + IntToString(userId) + " does not exist";
      }
      DeleteUserKeepsInvariant(events, eventOrder, users, userOrder, nextEventId, nextUserId, userId);
      users := users - {userId};
      userOrder := RemoveFirst(userOrder, userId);
      return true, "User account " + IntToString(userId) + " deleted successfully";
    }

    /** `get_registration_report`: one entry per event, counting the users registered for it. */
    method GetRegistrationReport() returns (report: map<int, int>)
      requires Valid()
      ensures report.Keys == events.Keys
      ensures forall e :: e in report ==> report[e] == |Registrants(users, userOrder, e)|
      ensures forall e :: e in report ==> report[e] == |set k | k in users && e in users[k].eventIds|
    {
      report := map e | e in events :: 0;
      var i := 0;
      while i < |userOrder|
        invariant 0 <= i <= |userOrder|
        invariant report.Keys == events.Keys
        invariant forall e :: e in report ==> report[e] == Tally(users, userOrder[..i], e)
      {
        var user := users[userOrder[i]];
        assert userOrder[..i + 1][..i] == userOrder[..i];
        var j := 0;
        while j < |user.eventIds|
          invariant 0 <= j <= |user.eventIds|
          invariant report.Keys == events.Keys
          invariant forall e :: e in report ==>
            report[e] == Tally(users, userOrder[..i], e) + multiset(user.eventIds[..j])[e]
        {
          var eventId := user.eventIds[j];
          assert user.eventIds[..j + 1] == user.eventIds[..j] + [eventId];
          if eventId in report {
            report := report[eventId := report[eventId] + 1];
          }
          j := j + 1;
        }
        assert user.eventIds[..j] == user.eventIds;
        i := i + 1;
      }
      assert userOrder[..i] == userOrder;
      forall e | e in report ensures report[e] == |Registrants(users, userOrder, e)| {
        TallyCountsRegistrants(users, userOrder, e);
      }
      forall e | e in report ensures report[e] == |set k | k in users && e in users[k].eventIds| {
        RegistrantsCount(users, userOrder, e);
      }
    }

    /** `get_detailed_report`: one row per event in ascending id order, with its name
        and its number of registrants. */
    method GetDetailedReport() returns (rows: seq<ReportRow>)
      requires Valid()
      ensures |rows| == |eventOrder| == |events|
      ensures Sorting.SortedBy(rows, ByEventId)
      ensures forall i :: 0 <= i < |rows| ==>
        && rows[i].eventId == eventOrder[i]
        && rows[i].eventName == events[eventOrder[i]].name
        && rows[i].registrations == |Registrants(users, userOrder, eventOrder[i])|
      ensures forall i :: 0 <= i < |rows| ==>
        rows[i].registrations == |set k | k in users && eventOrder[i] in users[k].eventIds|
    {
      var report := GetRegistrationReport();
      var detailed: seq<ReportRow> := [];
      var i := 0;
      while i < |eventOrder|
        invariant 0 <= i <= |eventOrder|
        invariant |detailed| == i
        invariant forall k :: 0 <= k < i ==>
          detailed[k] == ReportRow(eventOrder[k], events[eventOrder[k]].name, report[eventOrder[k]])
      {
        var eventId := eventOrder[i];
        var count := report[eventId];
        if eventId in events {
          detailed := detailed + [ReportRow(eventId, events[eventId].name, count)];
        }
        i := i + 1;
      }
      assert Sorting.SortedBy(detailed, ByEventId);
      Sorting.SortOfSorted(detailed, ByEventId);
      rows := Sorting.Sort(detailed, ByEventId);
      OrderedKeysCard(events.Keys, eventOrder);
    }

    /** `get_event_registrants`: `None` for an unknown event, otherwise its registrants
        in insertion order. */
    method GetEventRegistrants(eventId: int) returns (r: Option<seq<User>>)
      requires Valid()
      ensures r.None? <==> eventId !in events
      ensures r.Some? ==> r.value == Registrants(users, userOrder, eventId)
      ensures r.Some? ==> forall id :: id in users && eventId in users[id].eventIds ==> users[id] in r.value
    {
      if eventId !in events {
        return None;
      }
      var registrants: seq<User> := [];
      var i := 0;
      while i < |userOrder|
        invariant 0 <= i <= |userOrder|
        invariant registrants == Registrants(users, userOrder[..i], eventId)
      {
        var user := users[userOrder[i]];
        assert userOrder[..i + 1][..i] == userOrder[..i];
        if eventId in user.eventIds {
          registrants := registrants + [user];
        }
        i := i + 1;
      }
      assert userOrder[..i] == userOrder;
      forall id | id in users && eventId in users[id].eventIds ensures users[id] in registrants {
        RegistrantsComplete(users, userOrder, eventId, id);
      }
      return Some(registrants);
    }
  }
}
