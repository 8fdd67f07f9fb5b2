# Three in-memory registries, modelled and verified in Dafny

This project models the three registries of the MAC demo repository and proves
what their methods promise.

- **`MACCenter`** (engineering_team/output/mac_center.py), module `MacCenter` in mac_center.dfy.
  - A member directory keyed by email, with one logged-in slot.
  - Passwords are kept as a salted digest.
  - A fixed catalog of twelve clubs, `club_1` to `club_12`.
  - Each member has an enrolled list and an interested list, changed by guarded append and remove.
  - Validators for the email and the portfolio.
  - `Member` and the centre are classes and their methods change fields in place.
  - A ghost `Directory()` gives every member's attributes as a value, so contracts can speak about the whole state.
- **`EventRegistration`** (ezregistration/output/event_registration.py), module `EventRegistration` in event_registration.dfy.
  - An event catalog with a monotonic id counter.
  - Users with auto-increment ids, each holding the ids of the events they registered for.
  - Validation of the registration form and case-insensitive duplicate detection.
  - Account deletion and per-event reports.
  - A Python dict is a `map` plus its insertion order as a `seq`. The class invariant says that order ascends.
- **The earlier `MACCenter`** (engineering_team/output/mac_center1.py), module `MacCenter1` in mac_center1.dfy.
  - A list of user dicts, found by a linear scan on their `email` entry.
  - Plaintext passwords.
  - A catalog of eleven clubs keyed by name.
  - Its guards differ from the later centre:
    - logout always succeeds;
    - delete asks for no password;
    - edit merges any key;
    - deenroll never consults the catalog.
  - A user dict may hold any Python value after an edit. The membership tests then behave as Python's do, and a method returns `Raised(TypeError)` or `Raised(AttributeError)` where Python raises.

Shared modules:

- `Python` (python_values.dfy): tagged dynamic values, with `in` on lists, strings and dicts, and iteration.
- `Text` (text.dfy): the ASCII reading of `str.lower`, `str.strip`, `re.sub(r'\D', '', s)`, `str.isdigit`, `str(int)` and string `<`.
- `Lists` (lists.dfy): `list.remove`, `not in` filters, and duplicate-freedom with its counting facts.
- `Sorting` (sorting.dfy): `list.sort(key=...)` as a stable insertion sort.

The scenarios of the three test files are stated as method contracts, in the following modules:

- `MacCenterTests` (mac_center_tests.dfy);
- `EventRegistrationTests` (event_registration_tests.dfy);
- `MacCenter1Tests` (mac_center1_tests.dfy).

## Model

| member | source | states |
|---|---|---|
| Python.HasKeyIff | engineering_team/output/mac_center.py:104 | `key in d` on a dict holds exactly when some entry carries the key |
| Python.GetFound | engineering_team/output/mac_center.py:106-110 | `d[key]` of a present key is the value of an entry carrying that key |
| Python.GetAt | engineering_team/output/mac_center.py:157-168 | in a dict display, the entry at a position whose key no earlier entry carries is what `d[key]` returns for that key |
| Python.Contains | engineering_team/output/mac_center1.py:95 | `x in c` raises (None) exactly for a value that is not a list, str or dict; on a list it is membership of `Str(x)` |
| Python.Iterate | engineering_team/output/mac_center1.py:139 | a `for` loop visits the items of a list, the one-character strings of a str and the keys of a dict; it raises on anything else |
| Python.IsKeyOf | engineering_team/output/mac_center1.py:139 | `x in clubs` raises exactly for an unhashable list or dict, and is true exactly for a str that is a key |
| Text.Lower | ezregistration/output/event_registration.py:178 | `lower()` keeps the length and lowers every character |
| Text.Strip | ezregistration/output/event_registration.py:146-150 | `strip()` neither starts nor ends with whitespace and is no longer than its input |
| Text.StripTrims | ezregistration/output/event_registration.py:223 | `strip()` is a contiguous piece of the input, and only whitespace surrounds it |
| Text.StripEmptyIffBlank | ezregistration/output/event_registration.py:146-151 | `not s.strip()` holds exactly when `s` is all whitespace |
| Text.StripUnpadded | ezregistration/output/event_registration.py:223 | a string without surrounding whitespace is its own strip |
| Text.StripIdempotent | ezregistration/output/event_registration.py:223 | stripping a stripped string changes nothing, so a stored email is its own strip |
| Text.Digits | ezregistration/output/event_registration.py:158 | `re.sub(r'\D', '', s)` holds only digits and is no longer than `s`; its content is given by DigitsAppend and DigitsOfChar |
| Text.DigitsAppend | ezregistration/output/event_registration.py:158 | the substitution works piece by piece: the digits of `a + b` are those of `a` followed by those of `b` |
| Text.DigitsOfChar | ezregistration/output/event_registration.py:158 | one character is kept exactly when it is a digit; with DigitsAppend, every digit of `s` is kept in order and nothing else |
| Text.DigitsCount | ezregistration/output/event_registration.py:158-160 | the result has one character per digit position of `s`, so the 10-15 check counts the phone's digits |
| Text.DigitsOfDigitString | ezregistration/output/event_registration.py:158 | a string of digits is unchanged by the substitution |
| Text.IntToString | ezregistration/output/event_registration.py:200 | `str(n)` is non-empty and starts with '-' exactly for a negative `n` |
| Text.NatToStringValue | ezregistration/output/event_registration.py:200 | the numeral of a natural number reads back as that number, and starts with '0' only for 0 |
| Text.IntToStringValue | ezregistration/output/event_registration.py:200 | `str(n)` of `n >= 0` is a digit string with no leading zero (unless 0) that reads back as `n`; of a negative `n` it is '-' and `str(-n)` |
| Text.IntToStringInjective | ezregistration/output/event_registration.py:279-282 | different ids give different text, so each message names exactly one id |
| Text.StrLessIrreflexive | ezregistration/output/event_registration.py:81 | no string sorts before itself |
| Text.StrLessTransitive | ezregistration/output/event_registration.py:81 | string `<` is transitive |
| Text.StrLessTotal | ezregistration/output/event_registration.py:81 | two different strings are ordered one way or the other |
| Sorting.Insert | ezregistration/output/event_registration.py:81 | inserting adds exactly that element to the multiset |
| Sorting.Sort | ezregistration/output/event_registration.py:81 | the sort is a permutation of its input |
| Sorting.InsertSorted | ezregistration/output/event_registration.py:81 | inserting into a sorted list keeps it sorted under a total preorder |
| Sorting.SortSorted | ezregistration/output/event_registration.py:81 | the sort's result is sorted under a total preorder |
| Sorting.SortOfSorted | ezregistration/output/event_registration.py:322 | an already sorted list comes back unchanged |
| Lists.NoDupAppend | engineering_team/output/mac_center.py:205-207 | appending an absent id keeps a list duplicate-free |
| Lists.IndexOf | engineering_team/output/mac_center.py:220 | the index of the first occurrence |
| Lists.RemoveFirst | engineering_team/output/mac_center.py:220 | `list.remove(x)` drops the first occurrence and keeps the rest in order |
| Lists.RemoveFirstFromNoDup | engineering_team/output/mac_center.py:218-220 | on a duplicate-free list, `remove` takes out exactly `x`, shortens the list by one and keeps it duplicate-free |
| Lists.RemoveFirstAppended | engineering_team/output/mac_center1.py:96-109 | appending an absent element and removing it gives the list back |
| Lists.RemoveFirstIncreasing | ezregistration/output/event_registration.py:281 | deleting a key keeps an ascending key order ascending |
| Lists.Without | engineering_team/output/mac_center.py:241-243 | the `not in` comprehension is no longer than its source |
| Lists.WithoutAppend | engineering_team/output/mac_center.py:241-243 | one more catalog entry adds itself to the filter's result unless excluded |
| Lists.WithoutMembers | engineering_team/output/mac_center.py:241-243 | the filter keeps exactly the non-excluded elements |
| Lists.WithoutNoDup | engineering_team/output/mac_center.py:241-243 | filtering a duplicate-free list keeps it duplicate-free |
| Lists.NoDupCard | engineering_team/output/mac_center.py:65-80 | a duplicate-free list has as many distinct elements as positions |
| Lists.WithoutPartitions | engineering_team/output/mac_center.py:235-244 | a chosen sub-list and the filter of the rest split the list, and their lengths add up |
| Lists.NoDupMultiplicity | ezregistration/output/event_registration.py:295-297 | in a duplicate-free list an element occurs once or not at all |
| MacCenter.ToDict | engineering_team/output/mac_center.py:47-52 | `to_dict` is a three-entry dict |
| MacCenter.ToDictRoundTrip | engineering_team/output/mac_center.py:47-52 | `to_dict` loses nothing: reading back its `club_id`, `name` and `description` gives the club |
| MacCenter.CatalogIdsDistinct | engineering_team/output/mac_center.py:65-78 | twelve catalog entries under distinct ids, with `club_9` and `club_12` sharing a name |
| MacCenter.ClubMapLookup | engineering_team/output/mac_center.py:79-80 | filing distinct ids stores each club under its own id |
| MacCenter.ClubDicts | engineering_team/output/mac_center.py:228-233 | the `if club:` loop yields one dict per id when every id is a catalog id |
| MacCenter.ClubDictsAppend | engineering_team/output/mac_center.py:229-232 | one more id adds its club's dict, if the club exists |
| MacCenter.OrderCoversClubs | engineering_team/output/mac_center.py:195 | the catalog has as many clubs as its insertion order |
| MacCenter.CatalogPartition | engineering_team/output/mac_center.py:223-244 | each catalog id is either chosen or in the not-chosen list, and the two lists' lengths add up to the catalog's size |
| MacCenter.SetAttribute | engineering_team/output/mac_center.py:27 | `setattr` of an allowed key changes that attribute and nothing else; the email, hash and club lists stay |
| MacCenter.ApplyUpdatesSucceedsIff | engineering_team/output/mac_center.py:22-30 | `update_profile` returns True exactly when every key is allowed |
| MacCenter.ApplyUpdatesStopsAtFirstDisallowed | engineering_team/output/mac_center.py:25-29 | at the first disallowed key it returns False, keeping the updates made before it |
| MacCenter.ApplyUpdatesKeepsAccount | engineering_team/output/mac_center.py:24 | no update changes the email, the password hash or the club lists |
| MacCenter.ApplyUpdatesSets | engineering_team/output/mac_center.py:25-27 | a reached argument sets its attribute, and an attribute no argument names keeps its value |
| MacCenter.PortfolioStaysValid | engineering_team/output/mac_center.py:178-180 | a valid portfolio stays valid when every portfolio argument is valid |
| MacCenter.PortfolioArgumentsValid | engineering_team/output/mac_center.py:178 | the guard on `kwargs['portfolio']` covers every portfolio argument |
| MacCenter.UpdateKeepsMemberValid | engineering_team/output/mac_center.py:170-180 | an edit that passed the guards keeps the member valid |
| MacCenter.Member.constructor | engineering_team/output/mac_center.py:8-20 | a new member holds its arguments, and both club lists are empty |
| MacCenter.Member.UpdateProfile | engineering_team/output/mac_center.py:22-30 | the new attributes and the result are those of `ApplyUpdates` on the old attributes |
| MacCenter.Center.constructor | engineering_team/output/mac_center.py:57-61 | no members, no session, and the twelve catalog clubs under their ids in order |
| MacCenter.Center.InitializeClubs | engineering_team/output/mac_center.py:63-80 | files every catalog club under its id, in catalog order |
| MacCenter.Center.PutClubs | engineering_team/output/mac_center.py:79-80 | the loop files each club under its id, and the insertion order is the ids' order |
| MacCenter.Center.PutClub | engineering_team/output/mac_center.py:80 | `self.clubs[id] = club`: a new id joins the order, an old one keeps its place |
| MacCenter.Center.Register | engineering_team/output/mac_center.py:91-133 | succeeds exactly when the eight strings are non-empty, the passwords match, the email has '@' and '.' and is new, and the portfolio is valid; on success one member is added, holding the digest and empty club lists; otherwise nothing changes |
| MacCenter.Center.FileMember | engineering_team/output/mac_center.py:132 | `self.members[email] = new_member` adds one entry and keeps the invariant |
| MacCenter.Center.Login | engineering_team/output/mac_center.py:135-143 | succeeds exactly for a member whose stored digest is the digest of the password; success opens that member's session, failure keeps the old one |
| MacCenter.Center.Logout | engineering_team/output/mac_center.py:145-150 | True exactly when a session was open; afterwards none is |
| MacCenter.Profile | engineering_team/output/mac_center.py:157-168 | a dict with the ten profile keys, in the source's order |
| MacCenter.ProfileKeysExact | engineering_team/output/mac_center.py:157-168 | `k in profile` holds exactly for the ten profile keys, so never for `password` |
| MacCenter.ProfileEntries | engineering_team/output/mac_center.py:157-168 | the profile's keys are exactly the ten, `password` is not one of them, and each key holds the member's attribute of that name (club lists as lists of str) |
| MacCenter.Center.ViewProfile | engineering_team/output/mac_center.py:152-168 | None exactly without a session; otherwise the ten-key profile dict of the session member, with no `password` key, whose `email` is the session's |
| MacCenter.Center.EditProfile | engineering_team/output/mac_center.py:170-180 | fails and changes nothing with no session, with an `email` or `password` key, or with an invalid portfolio; otherwise it is `update_profile` on the session member |
| MacCenter.Center.UpdateMember | engineering_team/output/mac_center.py:180 | `member.update_profile(**kwargs)` changes that member only, and keeps the invariant |
| MacCenter.Center.DeleteAccount | engineering_team/output/mac_center.py:182-191 | succeeds exactly with a session and the right password; then the member and the session go together; otherwise nothing changes |
| MacCenter.Center.CloseAccount | engineering_team/output/mac_center.py:189-190 | removes the session's member and clears the slot, keeping the invariant |
| MacCenter.Center.ListAllClubs | engineering_team/output/mac_center.py:193-195 | one dict per club, in insertion order, each reading back as its club |
| MacCenter.Center.EnrollInClub | engineering_team/output/mac_center.py:197-208 | succeeds exactly with a session, a catalog id and an id not yet enrolled; it appends the id; a failure changes nothing |
| MacCenter.Center.DeenrollFromClub | engineering_team/output/mac_center.py:210-221 | succeeds exactly with a session, a catalog id and an enrolled id; it removes that id; a failure changes nothing |
| MacCenter.Center.AddInterestInClub | engineering_team/output/mac_center.py:246-257 | the enroll contract, on the interested list |
| MacCenter.Center.RemoveInterestInClub | engineering_team/output/mac_center.py:259-270 | the deenroll contract, on the interested list |
| MacCenter.Center.CollectClubs | engineering_team/output/mac_center.py:228-233 | the loop's list is the dicts of the ids' clubs |
| MacCenter.Center.CollectOtherClubs | engineering_team/output/mac_center.py:240-244 | the loop's list is the dicts of the catalog without the excluded ids, in order |
| MacCenter.Center.ListEnrolledClubs | engineering_team/output/mac_center.py:223-233 | None exactly without a session; otherwise one dict per enrolled id, in order, each reading back as its club |
| MacCenter.Center.ListNotEnrolledClubs | engineering_team/output/mac_center.py:235-244 | None exactly without a session; otherwise the catalog in order minus the enrolled ids, and with the enrolled list it makes up the catalog |
| MacCenter.Center.ListInterestedClubs | engineering_team/output/mac_center.py:272-282 | the enrolled-list contract, on the interested list |
| MacCenter.Center.ListNotInterestedClubs | engineering_team/output/mac_center.py:284-293 | the not-enrolled contract, on the interested list |
| MacCenterTests.TestToDict | engineering_team/output/test_mac_center.py:36-45 | `to_dict` of the test club |
| MacCenterTests.TestPortfolioValid | engineering_team/output/test_mac_center.py:50-54 | the tests' portfolio passes `_validate_portfolio` |
| MacCenterTests.TestUpdateProfile | engineering_team/output/test_mac_center.py:23-28 | `name` is accepted and set, `invalid_attribute` is refused |
| MacCenterTests.Registered | engineering_team/output/test_mac_center.py:48-66 | set-up registration succeeds, with empty club lists and the password's digest |
| MacCenterTests.LoggedIn | engineering_team/output/test_mac_center.py:90 | the set-up member logs in |
| MacCenterTests.TestRegister | engineering_team/output/test_mac_center.py:68-81 | a second member with a new valid email registers |
| MacCenterTests.TestLogin | engineering_team/output/test_mac_center.py:83-87 | the right password logs in; a password with another digest does not |
| MacCenterTests.TestLogout | engineering_team/output/test_mac_center.py:89-94 | the first logout returns True, the second False |
| MacCenterTests.TestViewProfile | engineering_team/output/test_mac_center.py:96-99 | the profile is a dict whose `name` is the registered one |
| MacCenterTests.TestEditProfile | engineering_team/output/test_mac_center.py:101-104 | editing the phone number succeeds |
| MacCenterTests.TestDeleteAccount | engineering_team/output/test_mac_center.py:106-109 | deleting with the right password succeeds |
| MacCenterTests.TestListAllClubs | engineering_team/output/test_mac_center.py:111-113 | twelve clubs are listed |
| MacCenterTests.Enrolled | engineering_team/output/test_mac_center.py:115-118 | enrolling in any catalog club succeeds, leaving exactly that id enrolled |
| MacCenterTests.TestDeenroll | engineering_team/output/test_mac_center.py:120-124 | leaving the club just joined succeeds |
| MacCenterTests.TestEnrolledCounts | engineering_team/output/test_mac_center.py:126-136 | after one enrollment, one club is enrolled and eleven are not |
| MacCenterTests.Interested | engineering_team/output/test_mac_center.py:138-141 | adding an interest in any catalog club succeeds |
| MacCenterTests.TestRemoveInterest | engineering_team/output/test_mac_center.py:143-147 | removing that interest succeeds |
| MacCenterTests.TestInterestCounts | engineering_team/output/test_mac_center.py:149-159 | after one interest, one club is interesting and eleven are not |
| EventRegistration.ValidDateParts | ezregistration/output/event_registration.py:114-117 | a dashed date is accepted exactly when its year, month and day match `%Y`, `%m` and `%d`, and the day exists in that month |
| EventRegistration.ValidTimeParts | ezregistration/output/event_registration.py:120-123 | `hh:mm` is accepted exactly when both fields match `%H` and `%M` |
| EventRegistration.FieldValueOfOne | ezregistration/output/event_registration.py:115 | `int()` of a one-character field |
| EventRegistration.FieldValueOfTwo | ezregistration/output/event_registration.py:115 | `int()` of a two-character field |
| EventRegistration.FieldValueOfFour | ezregistration/output/event_registration.py:115 | `int()` of a four-character field |
| EventRegistration.Values | ezregistration/output/event_registration.py:79 | `list(d.values())` follows the insertion order |
| EventRegistration.ByDateTimeTotalPreorder | ezregistration/output/event_registration.py:81 | the `(date, time)` key orders any two events, transitively |
| EventRegistration.ByEventIdTotalPreorder | ezregistration/output/event_registration.py:322 | the `event_id` key orders any two rows, transitively |
| EventRegistration.SortByDateTime | ezregistration/output/event_registration.py:81 | the sorted list is ordered by `(date, time)` and is a permutation of its input |
| EventRegistration.EventsOf | ezregistration/output/event_registration.py:259-263 | the found events, one per id when every id exists |
| EventRegistration.EventsOfMembers | ezregistration/output/event_registration.py:259-263 | an event is found exactly when its id is listed |
| EventRegistration.FindFrom | ezregistration/output/event_registration.py:239-242 | the first position from `start` whose email matches case-insensitively, or none if no later one does |
| EventRegistration.FindUser | ezregistration/output/event_registration.py:229-242 | a found id's email matches; None only when no user's email does |
| EventRegistration.PaddedEmailUnmatched | ezregistration/output/event_registration.py:177-180 | in any registry satisfying the invariant, an email with leading or trailing whitespace matches no stored (stripped) email, so it is never found and never counts as registered |
| EventRegistration.Registrants | ezregistration/output/event_registration.py:341-344 | the listed registrants are registered for the event |
| EventRegistration.RegistrantsComplete | ezregistration/output/event_registration.py:341-344 | every user of the order registered for the event is listed |
| EventRegistration.RegistrantsCountFrom | ezregistration/output/event_registration.py:293-297 | over a duplicate-free order, the registrants are as many as the ordered users holding the event |
| EventRegistration.RegistrantsCount | ezregistration/output/event_registration.py:293-297 | with the dict's keys in order, the registrants are as many as the users whose `event_ids` contain the event |
| EventRegistration.TallyCountsRegistrants | ezregistration/output/event_registration.py:293-298 | the report's count for an event equals its number of registrants |
| EventRegistration.ValidateRegistrationData | ezregistration/output/event_registration.py:133-164 | valid exactly when name, email and phone are non-blank, the email has '@' and '.', and the phone has 10 to 15 digits; the message is empty on success and one of the five messages on failure |
| EventRegistration.ValidationOrder | ezregistration/output/event_registration.py:146-160 | the first failing check gives its own message, in the order of the checks |
| EventRegistration.OnlyDigitsCheckUnreachable | ezregistration/output/event_registration.py:161-162 | the "only digits" check never fails once the count check has passed |
| EventRegistration.OrderedKeysCard | ezregistration/output/event_registration.py:40-41 | an ascending key order lists each key exactly once |
| EventRegistration.UserEventsExist | ezregistration/output/event_registration.py:260-262 | every event id a user holds exists |
| EventRegistration.NewUserKeepsInvariant | ezregistration/output/event_registration.py:221-224 | a new user under the counter keeps the invariant, with the counter one higher |
| EventRegistration.ExtendUserKeepsInvariant | ezregistration/output/event_registration.py:215-217 | appending an event the user does not hold keeps the invariant |
| EventRegistration.DeleteUserKeepsInvariant | ezregistration/output/event_registration.py:281 | deleting a user keeps the invariant |
| EventRegistration.RemoveKeyOrdered | ezregistration/output/event_registration.py:281 | `del d[k]` removes `k` from the insertion order, which stays ascending |
| EventRegistration.Registry.constructor | ezregistration/output/event_registration.py:35-68 | events 1 to 6 in order, no users, counters 7 and 1 |
| EventRegistration.Registry.GetAllEvents | ezregistration/output/event_registration.py:72-82 | every event exactly once, sorted by `(date, time)`, a permutation of the stored events |
| EventRegistration.Registry.GetEventById | ezregistration/output/event_registration.py:84-94 | the stored event exactly when the id is a key, otherwise None |
| EventRegistration.Registry.CreateEvent | ezregistration/output/event_registration.py:96-129 | a bad date, then a bad time, raises with its message before any id is used; otherwise the event is stored under the old counter, which moves on by one |
| EventRegistration.Registry.IsEmailRegisteredForEvent | ezregistration/output/event_registration.py:166-180 | True exactly when some user whose email matches case-insensitively holds the event |
| EventRegistration.Registry.FindUserByEmail | ezregistration/output/event_registration.py:229-242 | the first case-insensitive match in insertion order; None exactly when no user matches |
| EventRegistration.Registry.RegisterUserForEvent | ezregistration/output/event_registration.py:182-225 | succeeds exactly for an existing event, valid data and an email not registered for it, with each failure's message; a failure returns -1 and changes nothing; a success extends the first matching user or creates a stripped new user under the counter |
| EventRegistration.Registry.AddRegistration | ezregistration/output/event_registration.py:211-225 | the accepting branch: extend the found user, or create one and advance the counter |
| EventRegistration.Registry.GetUserRegistrations | ezregistration/output/event_registration.py:244-266 | None exactly for an unknown user; otherwise that user's existing events sorted by `(date, time)`, each once |
| EventRegistration.Registry.DeleteUserAccount | ezregistration/output/event_registration.py:268-282 | removes exactly that user with its success message, or reports "User with ID n does not exist" and changes nothing |
| EventRegistration.Registry.GetRegistrationReport | ezregistration/output/event_registration.py:286-298 | one key per event, each the number of users whose `event_ids` contain it |
| EventRegistration.Registry.GetDetailedReport | ezregistration/output/event_registration.py:300-323 | one row per event in ascending id order, with its name and the number of users holding it |
| EventRegistration.Registry.GetEventRegistrants | ezregistration/output/event_registration.py:327-345 | None exactly for an unknown event; otherwise its registrants in insertion order, every user holding the event among them |
| EventRegistrationTests.TestDateFields | ezregistration/output/test_event_registration.py:33 | the fields of "2025-08-15" match and read as 2025, 8 and 15 |
| EventRegistrationTests.TestDateAndTimeAccepted | ezregistration/output/test_event_registration.py:29-37 | "2025-08-15" and "12:00" are accepted |
| EventRegistrationTests.TestWordsRejected | ezregistration/output/test_event_registration.py:39-57 | "not-a-date" and "not-a-time" are rejected |
| EventRegistrationTests.SingleDigitFieldsAccepted | ezregistration/output/event_registration.py:115 | `%m` and `%d` accept one digit: "2024-6-5" |
| EventRegistrationTests.LeapDayFields | ezregistration/output/event_registration.py:115 | the fields of the leap-day dates read as their numbers |
| EventRegistrationTests.LeapDay | ezregistration/output/event_registration.py:115 | February 29 is accepted in 2024 and rejected in 2023 |
| EventRegistrationTests.HourTwentyFourRejected | ezregistration/output/event_registration.py:121 | "24:00" is rejected |
| EventRegistrationTests.TestFormStripped | ezregistration/output/test_event_registration.py:60-67 | the tests' name, email and phone are their own strips |
| EventRegistrationTests.TestFormShapes | ezregistration/output/test_event_registration.py:60-67 | the test email has '@' and '.', and the phone is all digits |
| EventRegistrationTests.TestValidationAccepted | ezregistration/output/test_event_registration.py:60-67 | the test form is valid with an empty message |
| EventRegistrationTests.TestValidationInvalidEmail | ezregistration/output/test_event_registration.py:69-76 | an email without '@' gives "Invalid email format" |
| EventRegistrationTests.SampleEventsOrdered | ezregistration/output/event_registration.py:46-65 | the first sample event comes strictly before the five others |
| EventRegistrationTests.EarliestSampleFirst | ezregistration/output/test_event_registration.py:15-18 | any sorted permutation of the samples starts with event 1 |
| EventRegistrationTests.TestGetAllEvents | ezregistration/output/test_event_registration.py:15-18 | six events, the earliest named "Event 1: AI Agentic Programming Workshop" |
| EventRegistrationTests.TestGetEventById | ezregistration/output/test_event_registration.py:20-27 | id 1 is found with its name, id 999 is not |
| EventRegistrationTests.TestCreateEvent | ezregistration/output/test_event_registration.py:29-57 | the valid event becomes event 7; a bad date and a bad time raise with their messages |
| EventRegistrationTests.TestRegisterTwice | ezregistration/output/test_event_registration.py:78-102 | the first registration succeeds with a positive id; the second is refused with the duplicate message |
| EventRegistrationTests.TestDeleteUserAccount | ezregistration/output/test_event_registration.py:105-113 | the registered user can be deleted |
| EventRegistrationTests.TestDeleteMissingUser | ezregistration/output/test_event_registration.py:115-118 | deleting id 999 fails with "User with ID 999 does not exist" |
| EventRegistrationTests.IntToString999 | ezregistration/output/test_event_registration.py:118 | `str(999)` is "999" |
| EventRegistrationTests.TestReports | ezregistration/output/test_event_registration.py:121-139 | after one registration, event 1 counts one registrant in both reports |
| MacCenter1.CatalogShape | engineering_team/output/mac_center1.py:4-16 | eleven clubs under distinct names, in insertion order |
| MacCenter1.NewUser | engineering_team/output/mac_center1.py:27-38 | the new dict has the ten keys, the plaintext password, the given interests and an empty `enrolled_clubs` |
| MacCenter1.FirstMatch | engineering_team/output/mac_center1.py:57-58 | where every scan stops: no earlier user has the email, and the user found has it |
| MacCenter1.FirstMatchFound | engineering_team/output/mac_center1.py:23-25 | the scan finds a user exactly when some user has that email |
| MacCenter1.RegisterThenLogin | engineering_team/output/mac_center1.py:19-47 | a newly registered user is the first match of its email and can log in with its password |
| MacCenter1.EnrollTwice | engineering_team/output/mac_center1.py:95-99 | a second enrollment reports "Already enrolled in X." and changes nothing |
| MacCenter1.EnrollThenDeenroll | engineering_team/output/mac_center1.py:95-112 | enrolling in an absent club and then leaving it restores the list, with both messages |
| MacCenter1.ClubListKept | engineering_team/output/mac_center1.py:86-113 | on a list of distinct catalog names, enrolling in a catalog club and leaving any club never raise, and keep the list so |
| MacCenter1.FilterOut | engineering_team/output/mac_center1.py:130 | the `not in` filter of the catalog is no longer than the catalog |
| MacCenter1.FilterOutMembers | engineering_team/output/mac_center1.py:130 | the filter keeps exactly the names the entry does not contain |
| MacCenter1.FilterOutList | engineering_team/output/mac_center1.py:130 | on a list of strs the filter is the catalog without those strs |
| Python.Strs | engineering_team/output/mac_center1.py:96 | club names stored as str values, position by position |
| Python.StrsMembers | engineering_team/output/mac_center1.py:95 | a name's str is in the list exactly when the name is |
| MacCenter1.CatalogWithout | engineering_team/output/mac_center1.py:130 | the comprehension raises exactly when the entry is not a list, str or dict |
| MacCenter1.CatalogItemsMembers | engineering_team/output/mac_center1.py:139 | when it does not raise, the interested list holds exactly the catalog names that are among the items, and no item is a list or dict |
| MacCenter1.UnenrolledPartition | engineering_team/output/mac_center1.py:130 | each catalog club is either enrolled or unenrolled, and the two counts add up to eleven |
| MacCenter1.InterestPartition | engineering_team/output/mac_center1.py:139-148 | each catalog club is in exactly one of the interested and not-interested answers |
| MacCenter1.EditOrphansSession | engineering_team/output/mac_center1.py:66-69 | changing the session user's `email` entry leaves the session matching no user |
| MacCenter1.Center.constructor | engineering_team/output/mac_center1.py:2-17 | no users and no session |
| MacCenter1.Center.Locate | engineering_team/output/mac_center1.py:57-58 | the loop stops at the first user with the email |
| MacCenter1.Center.RegisterMember | engineering_team/output/mac_center1.py:19-40 | a password mismatch first, then a taken email, each with its message and no change; otherwise the new user is appended |
| MacCenter1.Center.Login | engineering_team/output/mac_center1.py:42-47 | opens the session exactly when some user has both credentials; otherwise the message and the old session |
| MacCenter1.Center.Logout | engineering_team/output/mac_center1.py:49-51 | always clears the session and always reports success |
| MacCenter1.Center.ViewProfile | engineering_team/output/mac_center1.py:53-60 | the no-login message, the first matching user, or "User not found." |
| MacCenter1.Center.EditProfile | engineering_team/output/mac_center1.py:62-70 | merges every argument into the first matching user, whatever its key, or reports no login or no user |
| MacCenter1.Center.DeleteAccount | engineering_team/output/mac_center1.py:72-81 | with no password asked, removes the first matching user and clears the session, or reports no login or no user |
| MacCenter1.Center.ViewClubs | engineering_team/output/mac_center1.py:83-84 | the eleven distinct catalog names in order |
| MacCenter1.Center.EnrollInClub | engineering_team/output/mac_center1.py:86-100 | no login, then a name outside the catalog, each with its message; then the enroll step on the user's entry |
| MacCenter1.Center.DeenrollFromClub | engineering_team/output/mac_center1.py:102-113 | no login gives its message; then the deenroll step, with no catalog check |
| MacCenter1.Center.ApplyStep | engineering_team/output/mac_center1.py:96-97 | a step that raises changes nothing; a step that returns stores the new entry and answers its message |
| MacCenter1.Center.ViewEnrolledClubs | engineering_team/output/mac_center1.py:115-122 | the session user's `enrolled_clubs` entry itself |
| MacCenter1.Center.ViewUnenrolledClubs | engineering_team/output/mac_center1.py:124-131 | the catalog in order without the enrolled entry's clubs |
| MacCenter1.Center.ViewInterestedClubs | engineering_team/output/mac_center1.py:133-140 | the interests that are catalog names, in `interests` order |
| MacCenter1.Center.ViewNotInterestedClubs | engineering_team/output/mac_center1.py:142-149 | the catalog in order without the interests |
| MacCenter1Tests.LoggedIn | engineering_team/output/test_mac_center1.py:34-37 | registering the default user and logging in give both success messages |
| MacCenter1Tests.TestRegisterRefused | engineering_team/output/test_mac_center1.py:24-32 | a mismatch and a repeated email get their messages |
| MacCenter1Tests.TestLoginUnknown | engineering_team/output/test_mac_center1.py:39-41 | nobody logs in to an empty centre |
| MacCenter1Tests.TestProfileAndLogout | engineering_team/output/test_mac_center1.py:43-57 | the profile has the user's email; after logout the profile reports no login |
| MacCenter1Tests.TestEditProfile | engineering_team/output/test_mac_center1.py:59-67 | the new name and address are in the profile |
| MacCenter1Tests.TestEditEmailOrphansSession | engineering_team/output/mac_center1.py:66-69 | after editing the email, the profile reports "User not found." |
| MacCenter1Tests.TestDeleteAccount | engineering_team/output/test_mac_center1.py:69-75 | delete succeeds and the profile then reports no login |
| MacCenter1Tests.TestClubNames | engineering_team/output/test_mac_center1.py:84-94 | "AI Club" and "Innovation Club" are catalog names and "Fashion Club" is not |
| MacCenter1Tests.TestEnrollTwice | engineering_team/output/test_mac_center1.py:81-87 | enrolling in a catalog club succeeds once, then reports it is already enrolled |
| MacCenter1Tests.TestEnrollUnknownClub | engineering_team/output/mac_center1.py:90-91 | a name outside the catalog gives "Club does not exist." |
| MacCenter1Tests.TestDeenroll | engineering_team/output/test_mac_center1.py:89-95 | leaving a club joined succeeds; any other name is "Not enrolled in X." |
| MacCenter1Tests.TestViewUnenrolledClubs | engineering_team/output/test_mac_center1.py:105-110 | with nothing enrolled all eleven clubs are unenrolled |
| MacCenter1Tests.TestUnenrolledAfterEnroll | engineering_team/output/test_mac_center1.py:97-103 | after one enrollment ten clubs are unenrolled, the enrolled one not among them |
| MacCenter1Tests.DefaultInterests | engineering_team/output/test_mac_center1.py:17 | both default interests are catalog names |
| MacCenter1Tests.TestInterestedClubs | engineering_team/output/mac_center1.py:133-140 | the default user's interested clubs are "AI Club" and "Book Club" |
| MacCenter1Tests.TestNotInterestedClubs | engineering_team/output/mac_center1.py:142-149 | for any list of interests, a catalog club is not-interesting exactly when it is not an interest |

## Left out

- SHA-256 (FIPS 180-4) behind `_hash_password` is the centre's `digest` parameter: a deterministic function the model does not look into.
  - The salt `"mac_center_salt"` is appended as in the source.
  - `MacCenterTests.TestLogin` therefore requires the wrong password to have another digest, where the source relies on SHA-256 not colliding.
- The floating-point portfolio arithmetic is not modelled: `calculate_portfolio_summary` (mac_center.py:32-37, 295-304) and `calculate_portfolio_value` (mac_center1.py:151-164).
  - Portfolio values are carried as tagged values.
  - Only `_validate_portfolio`'s type checks are modelled.
- The Gradio UI files, the crew launchers and the module-level demo code are not part of this model.
- Text is read as ASCII: `lower`, `strip`, `isspace`, `\D` and `%Y`/`%m`/`%d`/`%H`/`%M` digits are ASCII-only. Unicode case mapping, Unicode whitespace and non-ASCII decimal digits are not modelled.
- `datetime.strptime` is modelled only for the two formats used. Its field patterns, its whole-string match and its day-of-month check are modelled, from year 1 on.
- MacCenter.Center.ViewProfile: returns the profile dict as a value. The source's dict shares the member's `portfolio`, `interests` and club lists, so a caller could change them through it; that aliasing is not modelled.
- MacCenter1.Center.ViewProfile: returns the user dict as a value. The source returns the live dict, and `view_enrolled_clubs` returns the live list; changes a caller makes through them are not modelled.
- MacCenter1.Center.ViewClubs: returns the names as a sequence rather than a live `dict_keys` view. The catalog is never changed, so the two agree.
- MacCenter1.Center.RegisterMember: `email` and `password` are str arguments. A non-str argument, which Python would also compare with `==`, is not modelled. The other fields are arbitrary values.
- MacCenter1.Center.Login: `email` and `password` are str arguments; a non-str argument is not modelled.
- MacCenter1.Center.EnrollInClub: `club_name` is a str argument. An unhashable name, on which `club_name not in self.clubs` (mac_center1.py:90) raises TypeError, is not modelled.
- MacCenter1.Center.DeenrollFromClub: `club_name` is a str argument; other values are not modelled.
- MacCenter1.Center.EnrollInClub: list objects shared between users are not modelled. `user.update(kwargs)` (mac_center1.py:68) stores the caller's list objects, and `append` (:96) changes `user['enrolled_clubs']` in place. In Python, every user and caller holding the same list object sees the change; the model changes only the session user's entry.
- MacCenter1.Center.DeenrollFromClub: the same in-place `remove` (mac_center1.py:109) on a shared list is not modelled; only the session user's entry changes.
- MacCenter1.Center.EditProfile: stores argument values, not shared objects. Later in-place changes to a list passed in are not seen by the caller or by other users holding the same list.
- Python dicts with keys other than str are not modelled: a `Dict` value has str keys only. A dict with int keys passed as `interests`, `enrolled_clubs` or `portfolio` cannot be represented, and `Iterate` of a dict yields only str keys.
- MacCenter1.Center.EditProfile: the keyword arguments are a `map`. A user dict's key order is not modelled because no method depends on it.
- MacCenter.Center.EditProfile: requires distinct keyword names. Python guarantees this for `**kwargs`.
- MacCenter.Center.InitializeClubs: requires an empty catalog. It is called only from the constructor.
- MacCenter.Center.PutClubs: requires an empty catalog. It is called only from the constructor.
- EventRegistration.SortByDateTime: states that the result is sorted and a permutation. It does not state that the sort is stable (ties keep insertion order), although `Sorting.Sort` is a stable insertion sort.
- EventRegistration.Registry.GetAllEvents: the same as SortByDateTime; stability is not stated.
- EventRegistration.Registry.GetAllEvents: returns the stored events as values. The source's list holds the stored `Event` objects (event_registration.py:78), so a caller's changes to them reach the registry; that aliasing is not modelled.
- EventRegistration.Registry.GetEventById: returns the stored event as a value. The source returns the stored `Event` object itself (event_registration.py:93); that aliasing is not modelled.
- EventRegistration.Registry.GetUserRegistrations: returns copies of the events. The source returns the stored `Event` objects (event_registration.py:260-263); that aliasing is not modelled.
- EventRegistration.Registry.GetEventRegistrants: returns the users as values. The source returns the stored `User` objects (event_registration.py:341-344), whose `event_ids` is the live list, so a caller could append to it and break the registry invariant; that aliasing is not modelled.
- A whitespace-padded email (leading or trailing) creates an extra user instead of matching the stored stripped one. The model keeps this behaviour, stated by `EventRegistration.PaddedEmailUnmatched`.
  - The no-duplicate scenario `EventRegistrationTests.TestRegisterTwice` therefore requires an unpadded email.
- Parameterised test scenarios: test data is quantified where the tests use literals.
  - The MacCenter tests hold for any email with '@' and '.', any non-empty password and any valid portfolio.
  - The MacCenter1 tests hold for any email, password and interests.
  - Clubs are named by catalog index, e.g. `club_2` is index 1.
- `MacCenter1Tests` states what mac_center1.py:37 does: a new user's `enrolled_clubs` is empty. The source's tests expect registration interests to be enrolled:
  - test_mac_center1.py:84-85 expects "Already enrolled in AI Club.";
  - line 92 expects a successful de-enrollment;
  - line 102 expects "AI Club" among the enrolled;
  - line 109 expects the interests missing from the unenrolled clubs.

  Those expectations are not modelled. `TestEnrollTwice`, `TestDeenroll`, `TestUnenrolledAfterEnroll` and `TestViewUnenrolledClubs` state the source's behaviour instead.
- test_mac_center1.py:112-117 and the two portfolio-summary tests of test_mac_center.py check floating-point results and are not modelled.
- The helper `_get_club_by_id` is modelled inline as `clubId in clubs`. `_validate_email` is the predicate `ValidateEmail` and `_validate_portfolio` is `ValidatePortfolio`, both used in `Register`'s contract.
