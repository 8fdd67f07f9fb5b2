/** The scenarios of engineering_team/output/test_mac_center.py, stated as contracts
    about the centre of mac_center.dfy for any digest function, any email with '@' and
    '.', any non-empty password and any valid portfolio (the tests use
    "john@example.com", "pass123" and a portfolio of floats, shown valid below). */
module MacCenterTests {
  import opened Python
  import opened Lists
  import opened MacCenter

  /** `TestClub.test_to_dict`. */
  lemma TestToDict()
    ensures ToDict(Club("club_1", "Launch PAD", "A club for startups.")) ==
      Dict([("club_id", Str("club_1")), ("name", Str("Launch PAD")), ("description", Str("A club for startups."))])
  {
  }

  /** The portfolio of the tests passes validation. */
  lemma TestPortfolioValid()
    ensures ValidatePortfolio(Dict([("initial_deposit", Float(1000.0)), ("current_value", Float(1200.0)),
                                    ("holdings", Dict([("Stock A", Int(10))]))]))
  {
    var e := [("initial_deposit", Float(1000.0)), ("current_value", Float(1200.0)),
              ("holdings", Dict([("Stock A", Int(10))]))];
    assert e[1..][1..] == [("holdings", Dict([("Stock A", Int(10))]))];
    assert Get(e, "current_value") == Get(e[1..], "current_value") == Float(1200.0);
    assert Get(e, "holdings") == Get(e[1..], "holdings") == Get(e[1..][1..], "holdings");
  }

  /** `TestMember.test_update_profile`: an allowed key is applied, an unknown one refused. */
  method TestUpdateProfile(portfolio: Value, interests: Value) returns (first: bool, name: Value, second: bool)
    ensures first && name == Str("John Smith") && !second
  {
    var m := new Member(Str("John Doe"), "john@example.com", "hashed_pw", Str("1234567890"), Str("123 Main St"),
                        Str("Male"), Str("Engineer"), portfolio, interests);
    first := m.UpdateProfile([("name", Str("John Smith"))]);
    name := m.name;
    second := m.UpdateProfile([("invalid_attribute", Str("value"))]);
  }

  /** A map with one key has that key's value as its only value. */
  lemma SingletonValues<K, V>(m: map<K, V>, k: K)
    requires m.Keys == {k}
    ensures m.Values == {m[k]}
  {
    forall v | v in m.Values ensures v == m[k] {
      var e :| e in m && m[e] == v;
    }
  }

  /** `TestMACCenter.setUp`: a new centre with one registered member. */
  method Registered(digest: string -> string, email: string, password: string, portfolio: Value)
    returns (c: Center)
    requires '@' in email && '.' in email && password != [] && ValidatePortfolio(portfolio)
    ensures fresh(c) && c.Valid() && c.loggedInUser == None && c.digest == digest
    ensures c.members.Keys == {email} && fresh(c.members[email])
    ensures c.Directory()[email] == MemberData(Str("John Doe"), email, digest(password + Salt), Str("1234567890"),
                                               Str("123 Main St"), Str("Male"), Str("Engineer"), portfolio,
                                               List([Str("AI"), Str("Finance")]), [], [])
    ensures c.clubOrder == CatalogIds && |c.clubs| == 12 && forall i :: 0 <= i < 12 ==> CatalogIds[i] in c.clubs
  {
    c := new Center(digest);
    CatalogIdsDistinct();
    OrderCoversClubs(c.clubs, c.clubOrder);
    var ok := c.Register("John Doe", email, password, password, "1234567890", "123 Main St", "Male", "Engineer",
                         portfolio, List([Str("AI"), Str("Finance")]));
  }

  /** The set-up member, logged in. */
  method LoggedIn(digest: string -> string, email: string, password: string, portfolio: Value)
    returns (c: Center)
    requires '@' in email && '.' in email && password != [] && ValidatePortfolio(portfolio)
    ensures fresh(c) && c.Valid() && c.loggedInUser == Some(email) && c.digest == digest
    ensures c.members.Keys == {email} && fresh(c.members[email]) && c.members.Values == {c.members[email]}
    ensures c.Directory()[email].enrolledClubs == [] && c.Directory()[email].interestedClubs == []
    ensures c.Directory()[email].name == Str("John Doe") && c.members[email].password == digest(password + Salt)
    ensures c.clubOrder == CatalogIds && |c.clubs| == 12 && forall i :: 0 <= i < 12 ==> CatalogIds[i] in c.clubs
  {
    c := Registered(digest, email, password, portfolio);
    assert c.members[email].Data() == c.Directory()[email];
    var ok := c.Login(email, password);
    SingletonValues(c.members, email);
  }

  /** `test_register`: a second member with another valid email. */
  method TestRegister(digest: string -> string, email: string, other: string, password: string, portfolio: Value)
    returns (ok: bool)
    requires '@' in email && '.' in email && password != [] && ValidatePortfolio(portfolio)
    requires '@' in other && '.' in other && other != email
    ensures ok
  {
    var c := Registered(digest, email, password, portfolio);
    ok := c.Register("Jane Doe", other, password, password, "0987654321", "124 Main St", "Female", "Scientist",
                     portfolio, List([Str("AI"), Str("Startups")]));
  }

  /** `test_login`: the right password opens a session, a password with another digest
      does not. */
  method TestLogin(digest: string -> string, email: string, password: string, wrong: string, portfolio: Value)
    returns (right: bool, refused: bool)
    requires '@' in email && '.' in email && password != [] && ValidatePortfolio(portfolio)
    requires digest(wrong + Salt) != digest(password + Salt)
    ensures right && !refused
  {
    var c := Registered(digest, email, password, portfolio);
    assert c.members[email].Data() == c.Directory()[email];
    right := c.Login(email, password);
    refused := c.Login(email, wrong);
  }

  /** `test_logout`: the first logout succeeds, the second finds no session. */
  method TestLogout(digest: string -> string, email: string, password: string, portfolio: Value)
    returns (first: bool, second: bool)
    requires '@' in email && '.' in email && password != [] && ValidatePortfolio(portfolio)
    ensures first && !second
  {
    var c := LoggedIn(digest, email, password, portfolio);
    first := c.Logout();
    second := c.Logout();
  }

  /** `test_view_profile`. */
  method TestViewProfile(digest: string -> string, email: string, password: string, portfolio: Value)
    returns (profile: Option<Value>)
    requires '@' in email && '.' in email && password != [] && ValidatePortfolio(portfolio)
    ensures profile.Some? && profile.value.Dict? && HasEntry(profile.value.entries, "name", Str("John Doe"))
  {
    var c := LoggedIn(digest, email, password, portfolio);
    assert c.members[email].Data() == c.Directory()[email];
    profile := c.ViewProfile();
    ProfileEntries(c.members[email].Data());
  }

  /** `test_edit_profile`. */
  method TestEditProfile(digest: string -> string, email: string, password: string, portfolio: Value)
    returns (ok: bool)
    requires '@' in email && '.' in email && password != [] && ValidatePortfolio(portfolio)
    ensures ok
  {
    var c := LoggedIn(digest, email, password, portfolio);
    var kwargs := [("phone_number", Str("1111111111"))];
    assert kwargs[1..] == [];
    assert !HasKey(kwargs, "email") && !HasKey(kwargs, "password") && !HasKey(kwargs, "portfolio");
    ApplyUpdatesSucceedsIff(c.Directory()[email], kwargs);
    ok := c.EditProfile(kwargs);
  }

  /** `test_delete_account`. */
  method TestDeleteAccount(digest: string -> string, email: string, password: string, portfolio: Value)
    returns (ok: bool)
    requires '@' in email && '.' in email && password != [] && ValidatePortfolio(portfolio)
    ensures ok
  {
    var c := LoggedIn(digest, email, password, portfolio);
    ok := c.DeleteAccount(password);
  }

  /** `test_list_all_clubs`: twelve clubs. */
  method TestListAllClubs(digest: string -> string) returns (count: int)
    ensures count == 12
  {
    var c := new Center(digest);
    CatalogIdsDistinct();
    count := |c.ListAllClubs()|;
  }

  /** `test_enroll_in_club` for any catalog club such as "club_2": the logged-in member
      is enrolled in it. */
  method Enrolled(digest: string -> string, email: string, password: string, portfolio: Value, n: nat)
    returns (c: Center, ok: bool)
    requires '@' in email && '.' in email && password != [] && ValidatePortfolio(portfolio)
    requires n < 12
    ensures ok && fresh(c) && c.Valid() && c.loggedInUser == Some(email)
    ensures c.members.Keys == {email} && fresh(c.members[email]) && c.members.Values == {c.members[email]}
    ensures c.members[email].enrolledClubs == [CatalogIds[n]] && |c.clubs| == 12 && CatalogIds[n] in c.clubs
  {
    c := LoggedIn(digest, email, password, portfolio);
    ok := c.EnrollInClub(CatalogIds[n]);
    assert c.members[email].Data() == c.Directory()[email];
  }

  /** `test_deenroll_from_club`: leaving the club just joined succeeds. */
  method TestDeenroll(digest: string -> string, email: string, password: string, portfolio: Value, n: nat)
    returns (ok: bool)
    requires '@' in email && '.' in email && password != [] && ValidatePortfolio(portfolio)
    requires n < 12
    ensures ok
  {
    var c, e := Enrolled(digest, email, password, portfolio, n);
    assert c.members[email].Data() == c.Directory()[email];
    ok := c.DeenrollFromClub(CatalogIds[n]);
  }

  /** `test_list_enrolled_clubs` and `test_list_not_enrolled_clubs`: after one
      enrollment one club is enrolled and eleven are not. */
  method TestEnrolledCounts(digest: string -> string, email: string, password: string, portfolio: Value, n: nat)
    returns (enrolled: int, notEnrolled: int)
    requires '@' in email && '.' in email && password != [] && ValidatePortfolio(portfolio)
    requires n < 12
    ensures enrolled == 1 && notEnrolled == 11
  {
    var c, e := Enrolled(digest, email, password, portfolio, n);
    var mine := c.ListEnrolledClubs();
    enrolled := |mine.value|;
    var others := c.ListNotEnrolledClubs();
    notEnrolled := |others.value|;
  }

  /** `test_add_interest_in_club` for any catalog club such as "club_3" or "club_4". */
  method Interested(digest: string -> string, email: string, password: string, portfolio: Value, n: nat)
    returns (c: Center, ok: bool)
    requires '@' in email && '.' in email && password != [] && ValidatePortfolio(portfolio)
    requires n < 12
    ensures ok && fresh(c) && c.Valid() && c.loggedInUser == Some(email)
    ensures c.members.Keys == {email} && fresh(c.members[email]) && c.members.Values == {c.members[email]}
    ensures c.members[email].interestedClubs == [CatalogIds[n]] && |c.clubs| == 12 && CatalogIds[n] in c.clubs
  {
    c := LoggedIn(digest, email, password, portfolio);
    ok := c.AddInterestInClub(CatalogIds[n]);
    assert c.members[email].Data() == c.Directory()[email];
  }

  /** `test_remove_interest_in_club`. */
  method TestRemoveInterest(digest: string -> string, email: string, password: string, portfolio: Value, n: nat)
    returns (ok: bool)
    requires '@' in email && '.' in email && password != [] && ValidatePortfolio(portfolio)
    requires n < 12
    ensures ok
  {
    var c, e := Interested(digest, email, password, portfolio, n);
    assert c.members[email].Data() == c.Directory()[email];
    ok := c.RemoveInterestInClub(CatalogIds[n]);
  }

  /** `test_list_interested_clubs` and `test_list_not_interested_clubs`. */
  method TestInterestCounts(digest: string -> string, email: string, password: string, portfolio: Value, n: nat)
    returns (interested: int, notInterested: int)
    requires '@' in email && '.' in email && password != [] && ValidatePortfolio(portfolio)
    requires n < 12
    ensures interested == 1 && notInterested == 11
  {
    var c, e := Interested(digest, email, password, portfolio, n);
    var mine := c.ListInterestedClubs();
    interested := |mine.value|;
    var others := c.ListNotInterestedClubs();
    notInterested := |others.value|;
  }
}
