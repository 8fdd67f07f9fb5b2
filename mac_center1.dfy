/** The earlier member centre of engineering_team/output/mac_center1.py: users are
    plain dicts kept in a list and found by a linear scan on their `email` entry,
    passwords are stored as given, the session is the email passed to `login`, and
    the catalog is a fixed dict of eleven clubs keyed by name.

    `edit_profile` merges any keyword argument into the user dict, so a user's
    `email`, `enrolled_clubs` or `interests` entry may hold any Python value later on;
    the membership tests and list methods applied to those entries then behave as
    Python's do, raising where Python raises. */
module MacCenter1 {
  import opened Python
  import opened Lists

  /** A user record, keyed by field name. */
  type UserDict = map<string, Value>

  /** The exceptions the centre's methods can raise on a user entry of the wrong type. */
  datatype PyError = TypeError | AttributeError

  /** What a method returns, or the exception it raises instead. */
  datatype Outcome<T> = Returned(value: T) | Raised(error: PyError)

  /** A query's answer: the data asked for, or the message string returned in its place. */
  datatype Reply<T> = Data(value: T) | Said(message: string)

  const Catalog: seq<(string, string)> := [
    ("Launch PAD", "This club is for members who want to launch their own startup."),
    ("AI Club", "This club is for members who want to learn about AI."),
    ("Book Club", "This club is for members who want to read and discuss books."),
    ("Cybersecurity Club", "This club is for members who want to learn about cybersecurity."),
    ("Data Science Club", "This club is for members who want to learn about data science."),
    ("Finance Club", "This club is for members who want to learn about finance."),
    ("Marketing Club", "This club is for members who want to learn about marketing."),
    ("Sales Club", "This club is for members who want to learn about sales."),
    ("Entrepreneurship Club", "This club is for members who want to learn about entrepreneurship."),
    ("Leadership Club", "This club is for members who want to learn about leadership."),
    ("Innovation Club", "This club is for members who want to learn about innovation.")
  ]

  /** The catalog's keys, in insertion order. */
  const ClubNames: seq<string> := [
    "Launch PAD", "AI Club", "Book Club", "Cybersecurity Club", "Data Science Club",
    "Finance Club", "Marketing Club", "Sales Club", "Entrepreneurship Club",
    "Leadership Club", "Innovation Club"
  ]

  /** The catalog has eleven clubs under distinct names, listed by `ClubNames`. */
  lemma CatalogShape()
    ensures |Catalog| == |ClubNames| == 11
    ensures forall i :: 0 <= i < 11 ==> Catalog[i].0 == ClubNames[i]
    ensures NoDup(ClubNames)
  {
  }

  const UserKeys: set<string> := {"name", "email", "password", "phone_number", "address", "gender",
                                  "occupation", "portfolio", "interests", "enrolled_clubs"}

  /** The dict `register_member` appends: the password as given and no club yet. */
  function NewUser(name: Value, email: string, password: string, phoneNumber: Value, address: Value,
                   gender: Value, occupation: Value, portfolio: Value, interests: Value): (u: UserDict)
    ensures u.Keys == UserKeys
    ensures u["email"] == Str(email) && u["password"] == Str(password)
    ensures u["interests"] == interests && u["enrolled_clubs"] == List([])
  {
    map["name" := name, "email" := Str(email), "password" := Str(password),
        "phone_number" := phoneNumber, "address" := address, "gender" := gender,
        "occupation" := occupation, "portfolio" := portfolio, "interests" := interests,
        "enrolled_clubs" := List([])]
  }

  /** `user['email'] == email` for a str `email`: only a str entry can be equal to it. */
  predicate Matches(u: UserDict, email: string) {
    "email" in u && u["email"] == Str(email)
  }

  /** The test of `login`: both the email and the password entry equal the arguments. */
  predicate Credentials(u: UserDict, email: string, password: string) {
    Matches(u, email) && "password" in u && u["password"] == Str(password)
  }

  /** The position of the first user whose email is `email`, or `|users|` if there is none:
      where every scanning loop of the centre stops. */
  function FirstMatch(users: seq<UserDict>, email: string): (k: nat)
    ensures k <= |users|
    ensures forall i :: 0 <= i < k ==> !Matches(users[i], email)
    ensures k < |users| ==> Matches(users[k], email)
  {
    if users == [] then 0
    else if Matches(users[0], email) then 0
    else 1 + FirstMatch(users[1..], email)
  }

  /** The scan finds a user exactly when some user has that email. */
  lemma FirstMatchFound(users: seq<UserDict>, email: string)
    ensures FirstMatch(users, email) < |users| <==> exists i :: 0 <= i < |users| && Matches(users[i], email)
  {
  }

  /** Some user has exactly these credentials. */
  predicate CanLogIn(users: seq<UserDict>, email: string, password: string) {
    exists i :: 0 <= i < |users| && Credentials(users[i], email, password)
  }

  /** A newly registered user is the first match of its email and can log in with the
      password it registered with. */
  lemma RegisterThenLogin(users: seq<UserDict>, name: Value, email: string, password: string,
                          phoneNumber: Value, address: Value, gender: Value, occupation: Value,
                          portfolio: Value, interests: Value)
    requires FirstMatch(users, email) == |users|
    ensures var now := users + [NewUser(name, email, password, phoneNumber, address, gender,
                                        occupation, portfolio, interests)];
            FirstMatch(now, email) == |users| && CanLogIn(now, email, password)
  {
    var u := NewUser(name, email, password, phoneNumber, address, gender, occupation, portfolio, interests);
    var now := users + [u];
    assert Credentials(now[|users|], email, password);
  }

  /** `enroll_in_club` on the user's `enrolled_clubs` entry: `club not in entry` for a
      list, str or dict, then `append`, which only a list has. */
  function EnrollStep(enrolled: Value, club: string): Outcome<(Value, string)> {
    match Contains(enrolled, club)
    case None => Raised(TypeError)
    case Some(true) => Returned((enrolled, "Already enrolled in " + club + "."))
    case Some(false) =>
      if enrolled.List? then Returned((List(enrolled.items + [Str(club)]), "Enrolled in " + club + "."))
      else Raised(AttributeError)
  }

  /** `deenroll_from_club` on the user's `enrolled_clubs` entry: `club in entry`, then
      `remove`, which only a list has. */
  function DeenrollStep(enrolled: Value, club: string): Outcome<(Value, string)> {
    match Contains(enrolled, club)
    case None => Raised(TypeError)
    case Some(false) => Returned((enrolled, "Not enrolled in " + club + "."))
    case Some(true) =>
      if enrolled.List? then Returned((List(RemoveFirst(enrolled.items, Str(club))), "De-enrolled from " + club + "."))
      else Raised(AttributeError)
  }

  /** Whatever an enrollment returns, repeating it reports the club as already enrolled
      and changes nothing. */
  lemma EnrollTwice(enrolled: Value, club: string)
    requires EnrollStep(enrolled, club).Returned?
    ensures var after := EnrollStep(enrolled, club).value.0;
            EnrollStep(after, club) == Returned((after, "Already enrolled in " + club + "."))
  {
    var after := EnrollStep(enrolled, club).value.0;
    if enrolled.List? {
      assert Str(club) in after.items by {
        if Str(club) !in enrolled.items {
          assert after.items[|after.items| - 1] == Str(club);
        }
      }
    }
  }

  /** Enrolling in a club not yet on a list and then leaving it restores the list. */
  lemma EnrollThenDeenroll(items: seq<Value>, club: string)
    requires Str(club) !in items
    ensures EnrollStep(List(items), club) == Returned((List(items + [Str(club)]), "Enrolled in " + club + "."))
    ensures DeenrollStep(List(items + [Str(club)]), club) == Returned((List(items), "De-enrolled from " + club + "."))
  {
    RemoveFirstAppended(items, Str(club));
  }

  /** The entry a user gets from registering and the two club operations: a list of
      distinct catalog names. */
  ghost predicate ClubList(v: Value) {
    && v.List?
    && NoDup(v.items)
    && forall i :: 0 <= i < |v.items| ==> v.items[i].Str? && v.items[i].s in ClubNames
  }

  /** Enrolling in a catalog club and leaving any club never raise on such a list and
      keep it such a list. */
  lemma ClubListKept(v: Value, club: string)
    requires ClubList(v)
    ensures club in ClubNames ==> EnrollStep(v, club).Returned? && ClubList(EnrollStep(v, club).value.0)
    ensures DeenrollStep(v, club).Returned? && ClubList(DeenrollStep(v, club).value.0)
  {
    if club in ClubNames && Str(club) !in v.items {
      NoDupAppend(v.items, Str(club));
    }
    if Str(club) in v.items {
      RemoveFirstFromNoDup(v.items, Str(club));
    }
  }

  /** A list, str or dict: the values `in` can test. */
  predicate IsContainer(v: Value) {
    v.List? || v.Str? || v.Dict?
  }

  /** The names of `names` that `container` does not contain, in order. */
  function FilterOut(names: seq<string>, container: Value): (r: seq<string>)
    requires IsContainer(container)
    ensures |r| <= |names|
  {
    if names == [] then []
    else
      var last := names[|names| - 1];
      FilterOut(names[..|names| - 1], container) + (if Contains(container, last) == Some(true) then [] else [last])
  }

  /** `FilterOut` keeps exactly the names the container does not contain. */
  lemma {:induction false} FilterOutMembers(names: seq<string>, container: Value)
    requires IsContainer(container)
    ensures forall c :: c in FilterOut(names, container) <==> c in names && Contains(container, c) == Some(false)
    decreases |names|
  {
    if names != [] {
      var init := names[..|names| - 1];
      assert names == init + [names[|names| - 1]];
      FilterOutMembers(init, container);
    }
  }

  /** On a list of strs `FilterOut` is the `not in` filter of those strs. */
  lemma {:induction false} FilterOutList(names: seq<string>, strs: seq<string>)
    ensures FilterOut(names, List(Strs(strs))) == Without(names, strs)
    decreases |names|
  {
    if names != [] {
      var init, last := names[..|names| - 1], names[|names| - 1];
      FilterOutList(init, strs);
      StrsMembers(strs, last);
    }
  }

  /** `[club for club in self.clubs if club not in entry]`: the catalog without the clubs
      the entry contains; any entry but a list, str or dict raises on the first club. */
  function CatalogWithout(entry: Value): (r: Outcome<seq<string>>)
    ensures r.Raised? <==> !IsContainer(entry)
  {
    if IsContainer(entry) then Returned(FilterOut(ClubNames, entry)) else Raised(TypeError)
  }

  /** The names among `items` that are catalog keys, in order; an unhashable item raises. */
  function CatalogItems(items: seq<Value>): Outcome<seq<string>> {
    if items == [] then Returned([])
    else
      var last := items[|items| - 1];
      match CatalogItems(items[..|items| - 1])
      case Raised(e) => Raised(e)
      case Returned(r) =>
        match IsKeyOf(last, Elems(ClubNames))
        case None => Raised(TypeError)
        case Some(k) => Returned(if k then r + [last.s] else r)
  }

  /** What `CatalogItems` keeps: the catalog names that occur among the items as strs. */
  lemma {:induction false} CatalogItemsMembers(items: seq<Value>)
    requires CatalogItems(items).Returned?
    ensures forall c :: c in CatalogItems(items).value <==> c in ClubNames && Str(c) in items
    ensures forall i :: 0 <= i < |items| ==> !items[i].List? && !items[i].Dict?
    decreases |items|
  {
    if items != [] {
      var init, last := items[..|items| - 1], items[|items| - 1];
      assert items == init + [last];
      CatalogItemsMembers(init);
    }
  }

  /** `[club for club in user['interests'] if club in self.clubs]`. */
  function Interested(interests: Value): Outcome<seq<string>> {
    match Iterate(interests)
    case None => Raised(TypeError)
    case Some(items) => CatalogItems(items)
  }

  /** Every catalog club is on exactly one side of a list of distinct catalog names and
      of the unenrolled query's answer, and the two lengths add up to the eleven clubs. */
  lemma UnenrolledPartition(v: Value)
    requires ClubList(v)
    ensures CatalogWithout(v).Returned?
    ensures forall c :: c in ClubNames ==> (Str(c) in v.items) != (c in CatalogWithout(v).value)
    ensures |v.items| + |CatalogWithout(v).value| == |ClubNames|
  {
    var strs := seq(|v.items|, i requires 0 <= i < |v.items| => v.items[i].s);
    assert Strs(strs) == v.items;
    FilterOutMembers(ClubNames, v);
    FilterOutList(ClubNames, strs);
    CatalogShape();
    assert NoDup(strs) by {
      forall i, j | 0 <= i < j < |strs| ensures strs[i] != strs[j] {
        assert v.items[i] != v.items[j];
      }
    }
    forall y | y in strs ensures y in ClubNames {
      var i :| 0 <= i < |strs| && strs[i] == y;
      assert v.items[i].s == y;
    }
    WithoutPartitions(ClubNames, strs);
  }

  /** For a list of interests whose query does not raise, every catalog club is in
      exactly one of the interested and the not-interested answers. */
  lemma InterestPartition(items: seq<Value>)
    requires Interested(List(items)).Returned?
    ensures forall c :: c in ClubNames ==> (c in Interested(List(items)).value) != (c in CatalogWithout(List(items)).value)
  {
    CatalogItemsMembers(items);
    FilterOutMembers(ClubNames, List(items));
  }

  /** When the logged-in user changes its own `email` entry and no other user has the
      old email, the session no longer finds anyone. */
  lemma EditOrphansSession(users: seq<UserDict>, email: string, kwargs: map<string, Value>)
    requires FirstMatch(users, email) < |users|
    requires forall j :: 0 <= j < |users| && j != FirstMatch(users, email) ==> !Matches(users[j], email)
    requires "email" in kwargs && kwargs["email"] != Str(email)
    ensures var k := FirstMatch(users, email);
            FirstMatch(users[k := users[k] + kwargs], email) == |users|
  {
    var k := FirstMatch(users, email);
    var now := users[k := users[k] + kwargs];
    assert !Matches(now[k], email);
  }

  /** The earlier `MACCenter`. */
  class Center {
    var users: seq<UserDict>
    var currentUser: Option<string>

    /** Every user dict keeps the keys registration gave it; nothing ever deletes a key. */
    ghost predicate Valid()
      reads this
    {
      forall i :: 0 <= i < |users| ==> UserKeys <= users[i].Keys
    }

    /** `__init__`: no users and no session; the catalog is `Catalog`. */
    constructor ()
      ensures Valid() && users == [] && currentUser == None
    {
      users, currentUser := [], None;
    }

    /** The `for user in self.users` scan for the first user with this email. */
    method Locate(email: string) returns (k: nat)
      ensures k == FirstMatch(users, email)
    {
      k := 0;
      while k < |users| && !Matches(users[k], email)
        invariant k <= |users|
        invariant forall i :: 0 <= i < k ==> !Matches(users[i], email)
      {
        k := k + 1;
      }
    }

    /** `register_member`: a password mismatch is reported first, then an email some user
        already has; otherwise the new user is appended. No other check is made. */
    method RegisterMember(name: Value, email: string, password: string, confirmPassword: string,
                          phoneNumber: Value, address: Value, gender: Value, occupation: Value,
                          portfolio: Value, interests: Value) returns (message: string)
      requires Valid()
      modifies this
      ensures Valid() && currentUser == old(currentUser)
      ensures password != confirmPassword ==> message == "Passwords do not match!" && users == old(users)
      ensures password == confirmPassword && (exists i :: 0 <= i < |old(users)| && Matches(old(users)[i], email)) ==>
                message == "Email is already registered!" && users == old(users)
      ensures password == confirmPassword && (forall i :: 0 <= i < |old(users)| ==> !Matches(old(users)[i], email)) ==>
                && message == "User registered successfully."
                && users == old(users) + [NewUser(name, email, password, phoneNumber, address, gender,
                                                  occupation, portfolio, interests)]
    {
      if password != confirmPassword {
        return "Passwords do not match!";
      }
      var k := Locate(email);
      if k < |users| {
        return "Email is already registered!";
      }
      users := users + [NewUser(name, email, password, phoneNumber, address, gender, occupation, portfolio, interests)];
      message := "User registered successfully.";
    }

    /** `login`: the session becomes `email` when some user has these credentials. */
    method Login(email: string, password: string) returns (message: string)
      modifies this
      ensures users == old(users)
      ensures CanLogIn(users, email, password) ==> message == "Logged in successfully." && currentUser == Some(email)
      ensures !CanLogIn(users, email, password) ==> message == "Invalid email or password." && currentUser == old(currentUser)
    {
      var i := 0;
      while i < |users|
        invariant i <= |users|
        invariant forall j :: 0 <= j < i ==> !Credentials(users[j], email, password)
      {
        if Credentials(users[i], email, password) {
          currentUser := Some(email);
          return "Logged in successfully.";
        }
        i := i + 1;
      }
      message := "Invalid email or password.";
    }

    /** `logout`: always clears the session and always reports success. */
    method Logout() returns (message: string)
      modifies this
      ensures currentUser == None && users == old(users)
      ensures message == "Logged out successfully."
    {
      currentUser := None;
      message := "Logged out successfully.";
    }

    /** `view_profile`: the first user with the session's email. */
    method ViewProfile() returns (r: Reply<UserDict>)
      ensures currentUser == None ==> r == Said("No user is currently logged in.")
      ensures currentUser.Some? ==>
                var k := FirstMatch(users, currentUser.value);
                r == if k < |users| then Data(users[k]) else Said("User not found.")
    {
      if currentUser == None {
        return Said("No user is currently logged in.");
      }
      var k := Locate(currentUser.value);
      if k < |users| {
        return Data(users[k]);
      }
      r := Said("User not found.");
    }

    /** `edit_profile`: `user.update(kwargs)` merges every argument into the session's
        user, whatever its key. */
    method EditProfile(kwargs: map<string, Value>) returns (message: string)
      requires Valid()
      modifies this
      ensures Valid() && currentUser == old(currentUser)
      ensures currentUser == None ==> message == "No user is currently logged in." && users == old(users)
      ensures currentUser.Some? ==>
                var k := FirstMatch(old(users), currentUser.value);
                if k < |old(users)| then
                  message == "Profile updated successfully." && users == old(users)[k := old(users)[k] + kwargs]
                else
                  message == "User not found." && users == old(users)
    {
      if currentUser == None {
        return "No user is currently logged in.";
      }
      var k := Locate(currentUser.value);
      if k < |users| {
        users := users[k := users[k] + kwargs];
        return "Profile updated successfully.";
      }
      message := "User not found.";
    }

    /** `delete_account`: no password asked; the session's user is removed and the
        session cleared. */
    method DeleteAccount() returns (message: string)
      requires Valid()
      modifies this
      ensures Valid()
      ensures old(currentUser) == None ==> message == "No user is currently logged in." && users == old(users) && currentUser == None
      ensures old(currentUser).Some? ==>
                var k := FirstMatch(old(users), old(currentUser).value);
                if k < |old(users)| then
                  && message == "Account deleted successfully." && currentUser == None
                  && users == old(users)[..k] + old(users)[k + 1..]
                else
                  message == "User not found." && users == old(users) && currentUser == old(currentUser)
    {
      if currentUser == None {
        return "No user is currently logged in.";
      }
      var k := Locate(currentUser.value);
      if k < |users| {
        users, currentUser := users[..k] + users[k + 1..], None;
        return "Account deleted successfully.";
      }
      message := "User not found.";
    }

    /** `view_clubs`: the catalog's names, in order. */
    function ViewClubs(): (r: seq<string>)
      ensures |r| == 11 && NoDup(r)
      ensures forall i :: 0 <= i < |Catalog| ==> r[i] == Catalog[i].0
    {
      CatalogShape();
      ClubNames
    }

    /** `enroll_in_club`: a session and a catalog name are needed; then the step on the
        session user's entry. */
    method EnrollInClub(clubName: string) returns (r: Outcome<string>)
      requires Valid()
      modifies this
      ensures Valid() && currentUser == old(currentUser)
      ensures currentUser == None ==> r == Returned("No user is currently logged in.") && users == old(users)
      ensures currentUser.Some? && clubName !in ClubNames ==> r == Returned("Club does not exist.") && users == old(users)
      ensures currentUser.Some? && clubName in ClubNames ==>
                var k := FirstMatch(old(users), currentUser.value);
                if k == |old(users)| then r == Returned("User not found.") && users == old(users)
                else UserStepped(old(users), users, k, EnrollStep(old(users)[k]["enrolled_clubs"], clubName), r)
    {
      if currentUser == None {
        return Returned("No user is currently logged in.");
      }
      if clubName !in ClubNames {
        return Returned("Club does not exist.");
      }
      var k := Locate(currentUser.value);
      if k == |users| {
        return Returned("User not found.");
      }
      r := ApplyStep(k, EnrollStep(users[k]["enrolled_clubs"], clubName));
    }

    /** `deenroll_from_club`: a session is needed, the catalog is not consulted. */
    method DeenrollFromClub(clubName: string) returns (r: Outcome<string>)
      requires Valid()
      modifies this
      ensures Valid() && currentUser == old(currentUser)
      ensures currentUser == None ==> r == Returned("No user is currently logged in.") && users == old(users)
      ensures currentUser.Some? ==>
                var k := FirstMatch(old(users), currentUser.value);
                if k == |old(users)| then r == Returned("User not found.") && users == old(users)
                else UserStepped(old(users), users, k, DeenrollStep(old(users)[k]["enrolled_clubs"], clubName), r)
    {
      if currentUser == None {
        return Returned("No user is currently logged in.");
      }
      var k := Locate(currentUser.value);
      if k == |users| {
        return Returned("User not found.");
      }
      r := ApplyStep(k, DeenrollStep(users[k]["enrolled_clubs"], clubName));
    }

    /** The effect of a step on user `k`'s `enrolled_clubs`: a raise changes nothing,
        a return stores the new entry and reports the step's message. */
    method ApplyStep(k: nat, step: Outcome<(Value, string)>) returns (r: Outcome<string>)
      requires Valid() && k < |users|
      modifies this
      ensures Valid() && currentUser == old(currentUser)
      ensures UserStepped(old(users), users, k, step, r)
    {
      match step
      case Raised(e) =>
        r := Raised(e);
      case Returned((entry, message)) =>
        users := users[k := users[k]["enrolled_clubs" := entry]];
        r := Returned(message);
    }

    /** `view_enrolled_clubs`: the session user's entry itself. */
    method ViewEnrolledClubs() returns (r: Reply<Value>)
      requires Valid()
      ensures currentUser == None ==> r == Said("No user is currently logged in.")
      ensures currentUser.Some? ==>
                var k := FirstMatch(users, currentUser.value);
                r == if k < |users| then Data(users[k]["enrolled_clubs"]) else Said("User not found.")
    {
      if currentUser == None {
        return Said("No user is currently logged in.");
      }
      var k := Locate(currentUser.value);
      if k < |users| {
        return Data(users[k]["enrolled_clubs"]);
      }
      r := Said("User not found.");
    }

    /** `view_unenrolled_clubs`: the catalog without the session user's enrolled clubs. */
    method ViewUnenrolledClubs() returns (r: Outcome<Reply<seq<string>>>)
      requires Valid()
      ensures currentUser == None ==> r == Returned(Said("No user is currently logged in."))
      ensures currentUser.Some? ==>
                var k := FirstMatch(users, currentUser.value);
                r == if k < |users| then Answer(CatalogWithout(users[k]["enrolled_clubs"]))
                     else Returned(Said("User not found."))
    {
      if currentUser == None {
        return Returned(Said("No user is currently logged in."));
      }
      var k := Locate(currentUser.value);
      if k < |users| {
        return Answer(CatalogWithout(users[k]["enrolled_clubs"]));
      }
      r := Returned(Said("User not found."));
    }

    /** `view_interested_clubs`: the session user's interests that are catalog names. */
    method ViewInterestedClubs() returns (r: Outcome<Reply<seq<string>>>)
      requires Valid()
      ensures currentUser == None ==> r == Returned(Said("No user is currently logged in."))
      ensures currentUser.Some? ==>
                var k := FirstMatch(users, currentUser.value);
                r == if k < |users| then Answer(Interested(users[k]["interests"]))
                     else Returned(Said("User not found."))
    {
      if currentUser == None {
        return Returned(Said("No user is currently logged in."));
      }
      var k := Locate(currentUser.value);
      if k < |users| {
        return Answer(Interested(users[k]["interests"]));
      }
      r := Returned(Said("User not found."));
    }

    /** `view_not_interested_clubs`: the catalog without the session user's interests. */
    method ViewNotInterestedClubs() returns (r: Outcome<Reply<seq<string>>>)
      requires Valid()
      ensures currentUser == None ==> r == Returned(Said("No user is currently logged in."))
      ensures currentUser.Some? ==>
                var k := FirstMatch(users, currentUser.value);
                r == if k < |users| then Answer(CatalogWithout(users[k]["interests"]))
                     else Returned(Said("User not found."))
    {
      if currentUser == None {
        return Returned(Said("No user is currently logged in."));
      }
      var k := Locate(currentUser.value);
      if k < |users| {
        return Answer(CatalogWithout(users[k]["interests"]));
      }
      r := Returned(Said("User not found."));
    }
  }

  /** Users `now` are `before` after `step` on user `k`'s `enrolled_clubs`, which answered `r`. */
  ghost predicate UserStepped(before: seq<UserDict>, now: seq<UserDict>, k: nat, step: Outcome<(Value, string)>,
                              r: Outcome<string>)
    requires k < |before|
  {
    match step
    case Raised(e) => r == Raised(e) && now == before
    case Returned((entry, message)) => r == Returned(message) && now == before[k := before[k]["enrolled_clubs" := entry]]
  }

  /** A query's list, or the exception computing it raised. */
  function Answer(q: Outcome<seq<string>>): Outcome<Reply<seq<string>>> {
    match q
    case Raised(e) => Raised(e)
    case Returned(names) => Returned(Data(names))
  }
}
