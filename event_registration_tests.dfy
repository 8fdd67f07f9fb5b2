/** The scenarios of ezregistration/output/test_event_registration.py, stated as
    contracts about the registry of event_registration.dfy. */
module EventRegistrationTests {
  import opened Python
  import opened Text
  import opened Lists
  import opened EventRegistration

  /** The fields of the date of the valid-event test. */
  lemma TestDateFields()
    ensures YearField("2025") && MonthField("08") && DayField("15")
    ensures FieldValue("2025") == 2025 && FieldValue("08") == 8 && FieldValue("15") == 15
  {
    FieldValueOfFour("2025");
    FieldValueOfTwo("08");
    FieldValueOfTwo("15");
  }

  /** The date "2025-08-15" and the time "12:00" of the valid-event test are accepted. */
  lemma TestDateAndTimeAccepted()
    ensures ValidDate("2025" + "-" + "08" + "-" + "15") && ValidTime("12" + ":" + "00")
  {
    ValidDateParts("2025", "08", "15");
    TestDateFields();
    ValidTimeParts("12", "00");
  }

  /** The words of the invalid-event tests are rejected as a date and as a time. */
  lemma TestWordsRejected()
    ensures !ValidDate("not-a-date") && !ValidTime("not-a-time")
  {
    assert "not-a-date"[..4] == "not-";
    assert ':' !in "not-a-time";
  }

  /** A month and a day may be written with one digit: "2024-6-5" is accepted. */
  lemma SingleDigitFieldsAccepted()
    ensures ValidDate("2024" + "-" + "6" + "-" + "5")
  {
    ValidDateParts("2024", "6", "5");
    FieldValueOfFour("2024");
    FieldValueOfOne("6");
    FieldValueOfOne("5");
  }

  lemma LeapDayFields()
    ensures YearField("2024") && YearField("2023") && MonthField("02") && DayField("29")
    ensures FieldValue("2024") == 2024 && FieldValue("2023") == 2023
    ensures FieldValue("02") == 2 && FieldValue("29") == 29
  {
    FieldValueOfFour("2024");
    FieldValueOfFour("2023");
    FieldValueOfTwo("02");
    FieldValueOfTwo("29");
  }

  /** "2024-02-29" is accepted and "2023-02-29", which matches the same pattern, is not. */
  lemma LeapDay()
    ensures ValidDate("2024" + "-" + "02" + "-" + "29")
    ensures !ValidDate("2023" + "-" + "02" + "-" + "29")
  {
    ValidDateParts("2024", "02", "29");
    ValidDateParts("2023", "02", "29");
    LeapDayFields();
  }

  /** Hour 24 is rejected: "24:00". */
  lemma HourTwentyFourRejected()
    ensures !ValidTime("24" + ":" + "00")
  {
    ValidTimeParts("24", "00");
  }

  lemma TestFormStripped()
    ensures Strip("John Doe") == "John Doe"
    ensures Strip("john.doe@example.com") == "john.doe@example.com"
    ensures Strip("1234567890") == "1234567890"
  {
    StripUnpadded("John Doe");
    StripUnpadded("john.doe@example.com");
    StripUnpadded("1234567890");
  }

  lemma TestFormShapes()
    ensures '@' in "john.doe@example.com" && '.' in "john.doe@example.com"
    ensures Digits("1234567890") == "1234567890"
  {
    DigitsOfDigitString("1234567890");
    assert "john.doe@example.com"[8] == '@' && "john.doe@example.com"[4] == '.';
  }

  /** The name, email and phone of the registration tests pass validation, and the
      email is unpadded. */
  lemma TestValidationAccepted()
    ensures ValidateRegistrationData("John Doe", "john.doe@example.com", "1234567890") == (true, "")
    ensures Strip("john.doe@example.com") == "john.doe@example.com"
  {
    TestFormStripped();
    TestFormShapes();
  }

  /** An email without '@' is refused with the format message. */
  lemma TestValidationInvalidEmail()
    ensures ValidateRegistrationData("John Doe", "john.doeexample.com", "1234567890") == (false, "Invalid email format")
  {
    StripUnpadded("John Doe");
    StripUnpadded("john.doeexample.com");
    StripUnpadded("1234567890");
    assert '@' !in "john.doeexample.com";
  }

  /** The first sample event comes strictly before each of the others. */
  lemma SampleEventsOrdered()
    ensures forall k :: 1 <= k < 6 ==> DateTimeLess(SampleEvents[0], SampleEvents[k])
  {
    assert StrLess("2024-06-15", "2024-06-20");
    assert StrLess("2024-06-15", "2024-06-25");
    assert StrLess("2024-06-15", "2024-07-01");
    assert StrLess("2024-06-15", "2024-07-05");
    assert StrLess("2024-06-15", "2024-07-10");
  }

  /** Sorting the sample events by date and time puts the first one first. */
  lemma EarliestSampleFirst(r: seq<Event>)
    requires Sorting.SortedBy(r, ByDateTime)
    requires multiset(r) == multiset(SampleEvents)
    ensures |r| == 6 && r[0] == SampleEvents[0]
  {
    assert |r| == |multiset(r)| == 6;
    assert SampleEvents[0] in multiset(r);
    var j :| 0 <= j < |r| && r[j] == SampleEvents[0];
    assert r[0] in multiset(SampleEvents);
    var k :| 0 <= k < 6 && SampleEvents[k] == r[0];
    if k != 0 {
      SampleEventsOrdered();
      assert false;
    }
  }

  /** `test_get_all_events`: six events, the earliest first. */
  method TestGetAllEvents() returns (count: int, firstName: string)
    ensures count == 6 && firstName == "Event 1: AI Agentic Programming Workshop"
  {
    var registry := new Registry();
    var events := registry.GetAllEvents();
    EarliestSampleFirst(events);
    count, firstName := |events|, events[0].name;
  }

  /** `test_get_event_by_id_valid` and `test_get_event_by_id_invalid`. */
  method TestGetEventById() returns (found: Option<Event>, missing: Option<Event>)
    ensures found.Some? && found.value.name == "Event 1: AI Agentic Programming Workshop"
    ensures missing.None?
  {
    var registry := new Registry();
    found := registry.GetEventById(1);
    missing := registry.GetEventById(999);
  }

  /** `test_create_event_valid`, `test_create_event_invalid_date` and
      `test_create_event_invalid_time`. */
  method TestCreateEvent() returns (created: Result<Event>, badDate: Result<Event>, badTime: Result<Event>)
    ensures created.Ok? && created.value.name == "Event 7: New Event" && created.value.id == 7
    ensures badDate == ValueError("Invalid date format. Use YYYY-MM-DD")
    ensures badTime == ValueError("Invalid time format. Use HH:MM")
  {
    TestDateAndTimeAccepted();
    TestWordsRejected();
    var date, time := "2025" + "-" + "08" + "-" + "15", "12" + ":" + "00";
    var registry := new Registry();
    created := registry.CreateEvent("Event 7: New Event", "A new test event", date, time, "Test Venue");
    badDate := registry.CreateEvent("Invalid Date Event", "Invalid date", "not-a-date", time, "Somewhere");
    badTime := registry.CreateEvent("Invalid Time Event", "Invalid time", date, "not-a-time", "Somewhere");
  }

  /** `test_register_user_for_event_success` and `test_register_user_for_event_duplicate`,
      for every form that passes validation with an unpadded email, such as the tests'
      ("John Doe", "john.doe@example.com", "1234567890"). */
  method TestRegisterTwice(name: string, email: string, phone: string)
    returns (first: bool, userId: int, second: bool, message: string)
    requires ValidateRegistrationData(name, email, phone).0 && Strip(email) == email
    ensures first && userId > 0
    ensures !second && message == "Email " + email + " is already registered for this event"
  {
    var registry := new Registry();
    var m;
    first, m, userId := registry.RegisterUserForEvent(1, name, email, phone);
    assert EmailMatches(registry.users, userId, email);
    var id2;
    second, message, id2 := registry.RegisterUserForEvent(1, name, email, phone);
  }

  /** `test_delete_user_account_success`. */
  method TestDeleteUserAccount(name: string, email: string, phone: string) returns (deleted: bool)
    requires ValidateRegistrationData(name, email, phone).0
    ensures deleted
  {
    var registry := new Registry();
    var ok, m, userId := registry.RegisterUserForEvent(1, name, email, phone);
    deleted, m := registry.DeleteUserAccount(userId);
  }

  /** `test_delete_user_account_failure`: "User with ID 999 does not exist". */
  method TestDeleteMissingUser() returns (deleted: bool, message: string)
    ensures !deleted && message == "User with ID " + "999" + " does not exist"
  {
    var registry := new Registry();
    deleted, message := registry.DeleteUserAccount(999);
    IntToString999();
  }

  lemma IntToString999()
    ensures IntToString(999) == "999"
  {
  }

  /** `test_get_registration_report` and `test_get_detailed_report`. */
  method TestReports(name: string, email: string, phone: string) returns (count: int, detailedCount: int)
    requires ValidateRegistrationData(name, email, phone).0
    ensures count == 1 && detailedCount == 1
  {
    var registry := new Registry();
    var ok, m, userId := registry.RegisterUserForEvent(1, name, email, phone);
    assert registry.userOrder == [1];
    assert registry.users[1].eventIds == [1];
    assert [1][..0] == [];
    assert |Registrants(registry.users, registry.userOrder, 1)| == 1;
    var report := registry.GetRegistrationReport();
    count := report[1];
    var detailed := registry.GetDetailedReport();
    detailedCount := detailed[0].registrations;
  }
}
