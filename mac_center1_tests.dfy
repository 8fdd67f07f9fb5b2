/** The scenarios of engineering_team/output/test_mac_center1.py, stated as contracts
    about the centre of mac_center1.dfy for any email, password and interests (the
    tests use "john@example.com", "password123" and ["AI Club", "Book Club"]). Where a
    test expects registration interests to enroll the user in those clubs, the
    contract states what the centre does: registration leaves `enrolled_clubs` empty. */
module MacCenter1Tests {
  import opened Python
  import opened Lists
  import opened MacCenter1

  /** `setUp` followed by registering a user and logging it in. */
  method LoggedIn(email: string, password: string, interests: Value)
    returns (c: Center, registered: string, loggedIn: string)
    ensures fresh(c) && c.Valid() && c.currentUser == Some(email) && |c.users| == 1
    ensures Credentials(c.users[0], email, password) && c.users[0].Keys == UserKeys
    ensures c.users[0]["enrolled_clubs"] == List([]) && c.users[0]["interests"] == interests
    ensures registered == "User registered successfully." && loggedIn == "Logged in successfully."
  {
    c := new Center();
    registered := c.RegisterMember(Str("John Doe"), email, password, password, Str("1234567890"),
                                   Str("123 Main St"), Str("Male"), Str("Engineer"),
                                   Dict([("stocks", Int(1000))]), interests);
    assert Credentials(c.users[0], email, password);
    loggedIn := c.Login(email, password);
  }

  /** `test_register_member_password_mismatch` and
      `test_register_member_email_already_registered`. */
  method TestRegisterRefused(email: string, password: string, wrong: string, interests: Value)
    returns (mismatch: string, again: string)
    requires wrong != password
    ensures mismatch == "Passwords do not match!" && again == "Email is already registered!"
  {
    var c := new Center();
    mismatch := c.RegisterMember(Str("John Doe"), email, password, wrong, Str("1234567890"),
                                 Str("123 Main St"), Str("Male"), Str("Engineer"),
                                 Dict([("stocks", Int(1000))]), interests);
    var m, m';
    c, m, m' := LoggedIn(email, password, interests);
    again := c.RegisterMember(Str("John Doe"), email, password, password, Str("1234567890"),
                              Str("123 Main St"), Str("Male"), Str("Engineer"),
                              Dict([("stocks", Int(1000))]), interests);
  }

  /** `test_login_invalid_email_or_password`: nobody can log in to an empty centre. */
  method TestLoginUnknown(email: string, password: string) returns (message: string)
    ensures message == "Invalid email or password."
  {
    var c := new Center();
    message := c.Login(email, password);
  }

  /** `test_logout_successful`, `test_view_profile` and `test_view_profile_no_login`. */
  method TestProfileAndLogout(email: string, password: string, interests: Value)
    returns (profile: Reply<UserDict>, bye: string, after: Reply<UserDict>)
    ensures profile.Data? && Matches(profile.value, email)
    ensures bye == "Logged out successfully." && after == Said("No user is currently logged in.")
  {
    var c, m, m' := LoggedIn(email, password, interests);
    profile := c.ViewProfile();
    bye := c.Logout();
    after := c.ViewProfile();
  }

  /** `test_edit_profile`: the new name and address are in the profile. */
  method TestEditProfile(email: string, password: string, interests: Value, name: Value, address: Value)
    returns (message: string, profile: Reply<UserDict>)
    ensures message == "Profile updated successfully."
    ensures profile.Data? && "name" in profile.value && "address" in profile.value
    ensures profile.value["name"] == name && profile.value["address"] == address
  {
    var c, m, m' := LoggedIn(email, password, interests);
    message := c.EditProfile(map["name" := name, "address" := address]);
    assert Matches(c.users[0], email);
    profile := c.ViewProfile();
  }

  /** Changing the email entry through `edit_profile` leaves the session pointing at no
      user. */
  method TestEditEmailOrphansSession(email: string, password: string, interests: Value, other: string)
    returns (message: string, profile: Reply<UserDict>)
    requires other != email
    ensures message == "Profile updated successfully." && profile == Said("User not found.")
  {
    var c, m, m' := LoggedIn(email, password, interests);
    EditOrphansSession(c.users, email, map["email" := Str(other)]);
    message := c.EditProfile(map["email" := Str(other)]);
    profile := c.ViewProfile();
  }

  /** `test_delete_account`. */
  method TestDeleteAccount(email: string, password: string, interests: Value)
    returns (message: string, after: Reply<UserDict>)
    ensures message == "Account deleted successfully." && after == Said("No user is currently logged in.")
  {
    var c, m, m' := LoggedIn(email, password, interests);
    message := c.DeleteAccount();
    after := c.ViewProfile();
  }

  /** The club names of the enrollment tests: two catalog clubs and one that is not. */
  lemma TestClubNames()
    ensures ClubNames[1] == "AI Club" && ClubNames[10] == "Innovation Club" && "Fashion Club" !in ClubNames
  {
  }

  /** `test_enroll_in_club` on what the centre does, for any catalog club such as
      "AI Club" or "Innovation Club": the interests given at registration are not
      enrollments, so the first call enrolls and the second finds the club enrolled. */
  method TestEnrollTwice(email: string, password: string, interests: Value, n: nat)
    returns (first: Outcome<string>, second: Outcome<string>)
    requires n < |ClubNames|
    ensures first == Returned("Enrolled in " + ClubNames[n] + ".")
    ensures second == Returned("Already enrolled in " + ClubNames[n] + ".")
  {
    var club := ClubNames[n];
    var c, m, m' := LoggedIn(email, password, interests);
    first := c.EnrollInClub(club);
    assert Matches(c.users[0], email);
    EnrollTwice(List([]), club);
    second := c.EnrollInClub(club);
  }

  /** A name outside the catalog cannot be enrolled in. */
  method TestEnrollUnknownClub(email: string, password: string, interests: Value, club: string)
    returns (r: Outcome<string>)
    requires club !in ClubNames
    ensures r == Returned("Club does not exist.")
  {
    var c, m, m' := LoggedIn(email, password, interests);
    r := c.EnrollInClub(club);
  }

  /** `test_deenroll_from_club` on what the centre does: leaving a club the user joined
      succeeds, and leaving any other name, such as "Fashion Club", reports that it is
      not enrolled. */
  method TestDeenroll(email: string, password: string, interests: Value, n: nat, other: string)
    returns (left: Outcome<string>, unknown: Outcome<string>)
    requires n < |ClubNames| && other != ClubNames[n]
    ensures left == Returned("De-enrolled from " + ClubNames[n] + ".")
    ensures unknown == Returned("Not enrolled in " + other + ".")
  {
    var club := ClubNames[n];
    var c, m, m' := LoggedIn(email, password, interests);
    var e := c.EnrollInClub(club);
    assert Matches(c.users[0], email);
    EnrollThenDeenroll([], club);
    left := c.DeenrollFromClub(club);
    assert Matches(c.users[0], email);
    unknown := c.DeenrollFromClub(other);
  }

  /** `test_view_unenrolled_clubs` on what the centre does: with nothing enrolled all
      eleven clubs are unenrolled. */
  method TestViewUnenrolledClubs(email: string, password: string, interests: Value)
    returns (r: Outcome<Reply<seq<string>>>)
    ensures r.Returned? && r.value.Data? && |r.value.value| == 11
  {
    var c, m, m' := LoggedIn(email, password, interests);
    UnenrolledPartition(List([]));
    r := c.ViewUnenrolledClubs();
  }

  /** After one enrollment ten clubs are unenrolled, the enrolled one not among them. */
  method TestUnenrolledAfterEnroll(email: string, password: string, interests: Value, n: nat)
    returns (r: Outcome<Reply<seq<string>>>)
    requires n < |ClubNames|
    ensures r.Returned? && r.value.Data? && |r.value.value| == 10 && ClubNames[n] !in r.value.value
  {
    var club := ClubNames[n];
    var c, m, m' := LoggedIn(email, password, interests);
    EnrollThenDeenroll([], club);
    assert [] + [Str(club)] == [Str(club)];
    var e := c.EnrollInClub(club);
    assert Matches(c.users[0], email);
    UnenrolledPartition(List([Str(club)]));
    r := c.ViewUnenrolledClubs();
  }

  /** The default user's interests are both catalog names. */
  lemma DefaultInterests()
    ensures CatalogItems([Str("AI Club"), Str("Book Club")]) == Returned(["AI Club", "Book Club"])
  {
    var first, items := [Str("AI Club")], [Str("AI Club"), Str("Book Club")];
    assert ClubNames[1] == "AI Club" && ClubNames[2] == "Book Club";
    assert IsKeyOf(Str("AI Club"), Elems(ClubNames)) == Some(true);
    assert IsKeyOf(Str("Book Club"), Elems(ClubNames)) == Some(true);
    assert first[..0] == [] && CatalogItems(first[..0]) == Returned([]);
    assert CatalogItems(first) == Returned([] + ["AI Club"]);
    assert [] + ["AI Club"] == ["AI Club"];
    assert items[..1] == first;
    assert CatalogItems(items) == Returned(["AI Club"] + ["Book Club"]);
    assert ["AI Club"] + ["Book Club"] == ["AI Club", "Book Club"];
  }

  /** The interested query for the tests' interests: "AI Club" and "Book Club". */
  method TestInterestedClubs(email: string, password: string) returns (r: Outcome<Reply<seq<string>>>)
    ensures r == Returned(Data(["AI Club", "Book Club"]))
  {
    var c, m, m' := LoggedIn(email, password, List([Str("AI Club"), Str("Book Club")]));
    DefaultInterests();
    r := c.ViewInterestedClubs();
  }

  /** The not-interested query for a list of interests: the catalog clubs not listed. */
  method TestNotInterestedClubs(email: string, password: string, items: seq<Value>)
    returns (r: Outcome<Reply<seq<string>>>)
    ensures r.Returned? && r.value.Data?
    ensures forall c :: c in ClubNames ==> (c in r.value.value <==> Str(c) !in items)
  {
    var c, m, m' := LoggedIn(email, password, List(items));
    FilterOutMembers(ClubNames, List(items));
    r := c.ViewNotInterestedClubs();
  }
}
