/** The member centre of engineering_team/output/mac_center.py: a directory of
    members keyed by email with one logged-in slot, a fixed catalog of twelve clubs,
    and per-member lists of enrolled and interested club ids.

    Members are objects that the centre changes in place, so `Member` is a class and
    the centre's invariant is stated over the snapshot `Directory()` of all member
    objects. SHA-256 is a parameter of the centre: `digest`. */
module MacCenter {
  import opened Python
  import opened Lists

  datatype Club = Club(clubId: string, name: string, description: string)

  /** `Club.to_dict`: the dict with keys `club_id`, `name` and `description`. */
  function ToDict(c: Club): (d: Value)
    ensures d.Dict? && |d.entries| == 3
  {
    Dict([("club_id", Str(c.clubId)), ("name", Str(c.name)), ("description", Str(c.description))])
  }

  /** Reads a club back from a dict with three string entries under those keys. */
  function FromDict(d: Value): Option<Club> {
    if d.Dict? && HasKey(d.entries, "club_id") && HasKey(d.entries, "name") && HasKey(d.entries, "description") then
      var id, name, description := Get(d.entries, "club_id"), Get(d.entries, "name"), Get(d.entries, "description");
      if id.Str? && name.Str? && description.Str? then Some(Club(id.s, name.s, description.s)) else None
    else None
  }

  /** `to_dict` loses nothing: the club can be read back from its dict. */
  lemma ToDictRoundTrip(c: Club)
    ensures FromDict(ToDict(c)) == Some(c)
  {
    var e := ToDict(c).entries;
    assert e[0].0 == "club_id" && e[1..][0].0 == "name" && e[1..][1..][0].0 == "description";
    assert HasKey(e[1..][1..], "description");
    assert HasKey(e, "club_id") && HasKey(e, "name") && HasKey(e, "description");
    assert Get(e, "club_id") == Str(c.clubId);
    assert Get(e, "name") == Get(e[1..], "name") == Str(c.name);
    assert Get(e, "description") == Get(e[1..], "description") == Get(e[1..][1..], "description");
    assert Get(e[1..][1..], "description") == Str(c.description);
  }

  /** The opening every club description shares. */
  const Purpose := "This club is for members who want to "

  /** The clubs of `_initialize_clubs`, in insertion order. */
  const Catalog: seq<Club> := [
    Club("club_1", "Launch PAD", Purpose + "launch their own startup."),
    Club("club_2", "AI Club", Purpose + "learn about AI."),
    Club("club_3", "Book Club", Purpose + "read and discuss books."),
    Club("club_4", "Cybersecurity Club", Purpose + "learn about cybersecurity."),
    Club("club_5", "Data Science Club", Purpose + "learn about data science."),
    Club("club_6", "Finance Club", Purpose + "learn about finance."),
    Club("club_7", "Marketing Club", Purpose + "learn about marketing."),
    Club("club_8", "Sales Club", Purpose + "learn about sales."),
    Club("club_9", "Entrepreneurship Club", Purpose + "learn about entrepreneurship."),
    Club("club_10", "Leadership Club", Purpose + "learn about leadership."),
    Club("club_11", "Innovation Club", Purpose + "learn about innovation."),
    Club("club_12", "Entrepreneurship Club", Purpose + "learn about entrepreneurship.")
  ]

  const CatalogIds: seq<string> := ["club_1", "club_2", "club_3", "club_4", "club_5", "club_6",
                                   "club_7", "club_8", "club_9", "club_10", "club_11", "club_12"]

  /** The catalog's ids are its clubs' ids and are distinct, although two club names repeat. */
  lemma CatalogIdsDistinct()
    ensures |Catalog| == |CatalogIds| == 12
    ensures forall i :: 0 <= i < 12 ==> Catalog[i].clubId == CatalogIds[i]
    ensures NoDup(CatalogIds)
    ensures Catalog[8].name == Catalog[11].name
  {
  }

  /** The ids of a list of clubs. */
  function Ids(data: seq<Club>): (ids: seq<string>)
    ensures |ids| == |data| && forall i :: 0 <= i < |data| ==> ids[i] == data[i].clubId
  {
    seq(|data|, i requires 0 <= i < |data| => data[i].clubId)
  }

  /** The dict that storing `data` club by club into an empty dict builds. */
  function ClubMap(data: seq<Club>): map<string, Club> {
    if data == [] then map[]
    else
      var last := data[|data| - 1];
      ClubMap(data[..|data| - 1])[last.clubId := last]
  }

  /** Storing one more club extends the dict and the id list by that club. */
  lemma ClubMapStep(data: seq<Club>, i: nat)
    requires i < |data|
    ensures ClubMap(data[..i + 1]) == ClubMap(data[..i])[data[i].clubId := data[i]]
    ensures Ids(data)[..i + 1] == Ids(data)[..i] + [data[i].clubId]
  {
    assert data[..i + 1][..i] == data[..i];
  }

  /** With distinct ids every club is stored under its own id. */
  lemma {:induction false} ClubMapLookup(data: seq<Club>)
    requires NoDup(Ids(data))
    ensures forall i :: 0 <= i < |data| ==> data[i].clubId in ClubMap(data) && ClubMap(data)[data[i].clubId] == data[i]
    decreases |data|
  {
    if data != [] {
      var init := data[..|data| - 1];
      assert Ids(init) == Ids(data)[..|data| - 1];
      ClubMapLookup(init);
    }
  }

  /** The club dict of every listed id that names a club, in list order (the
      `if club:` loops of the `list_*` queries). */
  function ClubDicts(clubs: map<string, Club>, ids: seq<string>): (r: seq<Value>)
    ensures |r| <= |ids|
    ensures (forall i :: 0 <= i < |ids| ==> ids[i] in clubs) ==>
      (|r| == |ids| && forall i :: 0 <= i < |ids| ==> r[i] == ToDict(clubs[ids[i]]))
  {
    if ids == [] then []
    else
      var last := ids[|ids| - 1];
      ClubDicts(clubs, ids[..|ids| - 1]) + (if last in clubs then [ToDict(clubs[last])] else [])
  }

  lemma ClubDictsAppend(clubs: map<string, Club>, ids: seq<string>, x: string)
    ensures ClubDicts(clubs, ids + [x]) == ClubDicts(clubs, ids) + (if x in clubs then [ToDict(clubs[x])] else [])
  {
    assert (ids + [x])[..|ids|] == ids;
  }

  /** The catalog: `order` lists each id once, the dict holds exactly those ids, and
      each club is stored under its own id. */
  ghost predicate ClubsValid(clubs: map<string, Club>, order: seq<string>) {
    && NoDup(order)
    && (forall i :: 0 <= i < |order| ==> order[i] in clubs)
    && (forall id :: id in clubs ==> id in order && clubs[id].clubId == id)
  }

  /** The catalog has as many clubs as its order lists ids. */
  lemma OrderCoversClubs(clubs: map<string, Club>, order: seq<string>)
    requires ClubsValid(clubs, order)
    ensures |clubs| == |order|
  {
    NoDupCard(order);
    assert Elems(order) == clubs.Keys;
  }

  /** For a duplicate-free list of catalog ids (the enrolled or the interested list),
      that list and the catalog filtered by `not in` split the catalog: every club is
      in exactly one of them, and their dict lists add up to the whole catalog. */
  lemma CatalogPartition(clubs: map<string, Club>, order: seq<string>, chosen: seq<string>)
    requires ClubsValid(clubs, order)
    requires NoDup(chosen) && forall i :: 0 <= i < |chosen| ==> chosen[i] in clubs
    ensures forall id :: id in order ==> (id in chosen) != (id in Without(order, chosen))
    ensures |ClubDicts(clubs, chosen)| + |ClubDicts(clubs, Without(order, chosen))| == |order| == |clubs|
  {
    forall y | y in chosen ensures y in order {
      var i :| 0 <= i < |chosen| && chosen[i] == y;
    }
    WithoutPartitions(order, chosen);
    var rest := Without(order, chosen);
    forall i | 0 <= i < |rest| ensures rest[i] in clubs {
      WithoutMembers(order, chosen);
      assert rest[i] in rest;
    }
    OrderCoversClubs(clubs, order);
  }

  // ---------------------------------------------------------------------------
  // Accounts

  const Salt := "mac_center_salt"

  /** `_validate_email`: contains '@' and '.', and is not yet a member's key. */
  predicate ValidateEmail(email: string, keys: set<string>) {
    '@' in email && '.' in email && email !in keys
  }

  /** `_validate_portfolio`: a dict holding the three keys, with numeric
      `initial_deposit` and `current_value` and a dict `holdings`. */
  predicate ValidatePortfolio(p: Value) {
    && p.Dict?
    && HasKey(p.entries, "initial_deposit") && HasKey(p.entries, "current_value") && HasKey(p.entries, "holdings")
    && IsNumber(Get(p.entries, "initial_deposit"))
    && IsNumber(Get(p.entries, "current_value"))
    && Get(p.entries, "holdings").Dict?
  }

  /** The attributes of a `Member`. The editable ones hold whatever value
      `update_profile` was given. */
  datatype MemberData = MemberData(
    name: Value, email: string, password: string, phoneNumber: Value, address: Value,
    gender: Value, occupation: Value, portfolio: Value, interests: Value,
    enrolledClubs: seq<string>, interestedClubs: seq<string>)

  /** The keys of the dict `view_profile` builds, in its order: every attribute but
      `password`. */
  const ProfileKeys: seq<string> := ["name", "email", "phone_number", "address", "gender", "occupation",
                                     "portfolio", "interests", "enrolled_clubs", "interested_clubs"]

  /** The dict `view_profile` builds from a member's attributes. */
  function Profile(d: MemberData): (p: Value)
    ensures p.Dict? && |p.entries| == |ProfileKeys|
    ensures forall i :: 0 <= i < |ProfileKeys| ==> p.entries[i].0 == ProfileKeys[i]
  {
    Dict([("name", d.name), ("email", Str(d.email)), ("phone_number", d.phoneNumber), ("address", d.address),
          ("gender", d.gender), ("occupation", d.occupation), ("portfolio", d.portfolio),
          ("interests", d.interests), ("enrolled_clubs", List(Strs(d.enrolledClubs))),
          ("interested_clubs", List(Strs(d.interestedClubs)))])
  }

  /** No two profile keys are equal. */
  lemma ProfileKeysDistinct()
    ensures forall i, j :: 0 <= j < i < |ProfileKeys| ==> ProfileKeys[j] != ProfileKeys[i]
  {
    forall i, j | 0 <= j < i < |ProfileKeys| ensures ProfileKeys[j] != ProfileKeys[i] {
      if (j, i) == (6, 7) {
        assert ProfileKeys[j][0] != ProfileKeys[i][0];
      } else {
        assert |ProfileKeys[j]| != |ProfileKeys[i]|;
      }
    }
  }

  /** `password` is not a profile key: no key has its length. */
  lemma PasswordNotProfileKey()
    ensures "password" !in ProfileKeys
  {
    forall i | 0 <= i < |ProfileKeys| ensures |ProfileKeys[i]| != |"password"| { }
  }

  /** The profile's keys are exactly the ten, so `password` is not among them. */
  lemma ProfileKeysExact(d: MemberData)
    ensures forall k :: HasKey(Profile(d).entries, k) <==> k in ProfileKeys
    ensures !HasKey(Profile(d).entries, "password")
  {
    var e := Profile(d).entries;
    forall k ensures HasKey(e, k) <==> k in ProfileKeys {
      HasKeyIff(e, k);
      if k in ProfileKeys {
        var i :| 0 <= i < |ProfileKeys| && ProfileKeys[i] == k;
        assert e[i].0 == k;
      }
    }
    PasswordNotProfileKey();
    assert HasKey(e, "password") <==> "password" in ProfileKeys;
  }

  /** The profile has exactly the ten keys, not `password`, and each holds the member's
      attribute of that name. */
  lemma ProfileEntries(d: MemberData)
    ensures forall k :: HasKey(Profile(d).entries, k) <==> k in ProfileKeys
    ensures !HasKey(Profile(d).entries, "password")
    ensures HasEntry(Profile(d).entries, "name", d.name) && HasEntry(Profile(d).entries, "email", Str(d.email))
    ensures HasEntry(Profile(d).entries, "phone_number", d.phoneNumber)
    ensures HasEntry(Profile(d).entries, "address", d.address) && HasEntry(Profile(d).entries, "gender", d.gender)
    ensures HasEntry(Profile(d).entries, "occupation", d.occupation)
    ensures HasEntry(Profile(d).entries, "portfolio", d.portfolio)
    ensures HasEntry(Profile(d).entries, "interests", d.interests)
    ensures HasEntry(Profile(d).entries, "enrolled_clubs", List(Strs(d.enrolledClubs)))
    ensures HasEntry(Profile(d).entries, "interested_clubs", List(Strs(d.interestedClubs)))
  {
    var e := Profile(d).entries;
    ProfileKeysExact(d);
    ProfileKeysDistinct();
    forall i | 0 <= i < |e| ensures HasEntry(e, e[i].0, e[i].1) {
      forall j | 0 <= j < i ensures e[j].0 != e[i].0 {
        assert e[j].0 == ProfileKeys[j] && e[i].0 == ProfileKeys[i];
      }
      GetAt(e, i);
    }
    assert e[0] == ("name", d.name) && e[1] == ("email", Str(d.email));
    assert e[2] == ("phone_number", d.phoneNumber) && e[3] == ("address", d.address);
    assert e[4] == ("gender", d.gender) && e[5] == ("occupation", d.occupation);
    assert e[6] == ("portfolio", d.portfolio) && e[7] == ("interests", d.interests);
    assert e[8] == ("enrolled_clubs", List(Strs(d.enrolledClubs)));
    assert e[9] == ("interested_clubs", List(Strs(d.interestedClubs)));
  }

  /** The keys `update_profile` accepts. */
  const AllowedKeys: set<string> := {"name", "phone_number", "address", "gender", "occupation", "portfolio", "interests"}

  /** `getattr(member, key)` for an allowed key. */
  function Attribute(d: MemberData, key: string): Value
    requires key in AllowedKeys
  {
    match key
    case "name" => d.name
    case "phone_number" => d.phoneNumber
    case "address" => d.address
    case "gender" => d.gender
    case "occupation" => d.occupation
    case "portfolio" => d.portfolio
    case _ => d.interests
  }

  /** `setattr(member, key, value)` for an allowed key: that attribute and no other changes. */
  function SetAttribute(d: MemberData, key: string, v: Value): (r: MemberData)
    requires key in AllowedKeys
    ensures Attribute(r, key) == v
    ensures forall k :: k in AllowedKeys && k != key ==> Attribute(r, k) == Attribute(d, k)
    ensures r.email == d.email && r.password == d.password
    ensures r.enrolledClubs == d.enrolledClubs && r.interestedClubs == d.interestedClubs
  {
    match key
    case "name" => d.(name := v)
    case "phone_number" => d.(phoneNumber := v)
    case "address" => d.(address := v)
    case "gender" => d.(gender := v)
    case "occupation" => d.(occupation := v)
    case "portfolio" => d.(portfolio := v)
    case _ => d.(interests := v)
  }

  /** What `update_profile(**kwargs)` does to a member: the arguments in order, each
      allowed one applied, up to the first disallowed one, where it stops with `False`. */
  function ApplyUpdates(d: MemberData, kwargs: seq<(string, Value)>): (MemberData, bool)
    decreases |kwargs|
  {
    if kwargs == [] then (d, true)
    else if kwargs[0].0 in AllowedKeys then ApplyUpdates(SetAttribute(d, kwargs[0].0, kwargs[0].1), kwargs[1..])
    else (d, false)
  }

  /** `update_profile` succeeds exactly when every key is allowed. */
  lemma {:induction false} ApplyUpdatesSucceedsIff(d: MemberData, kwargs: seq<(string, Value)>)
    ensures ApplyUpdates(d, kwargs).1 <==> forall i :: 0 <= i < |kwargs| ==> kwargs[i].0 in AllowedKeys
    decreases |kwargs|
  {
    if kwargs != [] && kwargs[0].0 in AllowedKeys {
      var tail := kwargs[1..];
      ApplyUpdatesSucceedsIff(SetAttribute(d, kwargs[0].0, kwargs[0].1), tail);
      assert forall i :: 1 <= i < |kwargs| ==> kwargs[i] == tail[i - 1];
    }
  }

  /** A failing update keeps the allowed keys applied before the first disallowed one. */
  lemma {:induction false} ApplyUpdatesStopsAtFirstDisallowed(d: MemberData, kwargs: seq<(string, Value)>, i: nat)
    requires i < |kwargs| && kwargs[i].0 !in AllowedKeys
    requires forall j :: 0 <= j < i ==> kwargs[j].0 in AllowedKeys
    ensures ApplyUpdates(d, kwargs) == (ApplyUpdates(d, kwargs[..i]).0, false)
    decreases i
  {
    if i > 0 {
      var tail := kwargs[1..];
      ApplyUpdatesStopsAtFirstDisallowed(SetAttribute(d, kwargs[0].0, kwargs[0].1), tail, i - 1);
      assert kwargs[..i][1..] == tail[..i - 1];
    }
  }

  /** The email, the password hash and both club lists are never touched by an update. */
  lemma {:induction false} ApplyUpdatesKeepsAccount(d: MemberData, kwargs: seq<(string, Value)>)
    ensures var r := ApplyUpdates(d, kwargs).0;
      r.email == d.email && r.password == d.password &&
      r.enrolledClubs == d.enrolledClubs && r.interestedClubs == d.interestedClubs
    decreases |kwargs|
  {
    if kwargs != [] && kwargs[0].0 in AllowedKeys {
      ApplyUpdatesKeepsAccount(SetAttribute(d, kwargs[0].0, kwargs[0].1), kwargs[1..]);
    }
  }

  /** Python keyword arguments never repeat a key. */
  predicate KeysDistinct(kwargs: seq<(string, Value)>) {
    forall i, j :: 0 <= i < j < |kwargs| ==> kwargs[i].0 != kwargs[j].0
  }

  /** An allowed attribute ends up with its argument, when the update got that far,
      and keeps its value when no argument names it. */
  lemma {:induction false} ApplyUpdatesSets(d: MemberData, kwargs: seq<(string, Value)>, key: string)
    requires KeysDistinct(kwargs) && key in AllowedKeys
    ensures (forall i :: 0 <= i < |kwargs| ==> kwargs[i].0 != key) ==>
      Attribute(ApplyUpdates(d, kwargs).0, key) == Attribute(d, key)
    ensures forall i :: (&& 0 <= i < |kwargs| && kwargs[i].0 == key
                         && (forall j :: 0 <= j < i ==> kwargs[j].0 in AllowedKeys)) ==>
      Attribute(ApplyUpdates(d, kwargs).0, key) == kwargs[i].1
    decreases |kwargs|
  {
    if kwargs != [] && kwargs[0].0 in AllowedKeys {
      var tail := kwargs[1..];
      var d' := SetAttribute(d, kwargs[0].0, kwargs[0].1);
      assert KeysDistinct(tail);
      ApplyUpdatesSets(d', tail, key);
      forall i | 0 <= i < |kwargs| && kwargs[i].0 == key && (forall j :: 0 <= j < i ==> kwargs[j].0 in AllowedKeys)
        ensures Attribute(ApplyUpdates(d, kwargs).0, key) == kwargs[i].1
      {
        if i > 0 {
          assert tail[i - 1] == kwargs[i];
          assert forall j :: 0 <= j < i - 1 ==> tail[j] == kwargs[j + 1];
        } else {
          assert forall j :: 0 <= j < |tail| ==> tail[j] == kwargs[j + 1];
        }
      }
      if forall i :: 0 <= i < |kwargs| ==> kwargs[i].0 != key {
        assert forall j :: 0 <= j < |tail| ==> tail[j] == kwargs[j + 1];
      }
    }
  }
  /** A valid portfolio stays valid through an update all of whose `portfolio`
      arguments are valid. */
  lemma {:induction false} PortfolioStaysValid(d: MemberData, kwargs: seq<(string, Value)>)
    requires ValidatePortfolio(d.portfolio)
    requires forall i :: 0 <= i < |kwargs| && kwargs[i].0 == "portfolio" ==> ValidatePortfolio(kwargs[i].1)
    ensures ValidatePortfolio(ApplyUpdates(d, kwargs).0.portfolio)
    decreases |kwargs|
  {
    if kwargs != [] && kwargs[0].0 in AllowedKeys {
      var tail := kwargs[1..];
      assert forall i :: 0 <= i < |tail| ==> tail[i] == kwargs[i + 1];
      PortfolioStaysValid(SetAttribute(d, kwargs[0].0, kwargs[0].1), tail);
    }
  }

  /** With distinct keys, `kwargs[key]` is the value of the one argument named `key`. */
  lemma GetDistinct(kwargs: seq<(string, Value)>, key: string, i: nat)
    requires KeysDistinct(kwargs) && i < |kwargs| && kwargs[i].0 == key
    ensures HasKey(kwargs, key) && Get(kwargs, key) == kwargs[i].1
  {
    HasKeyIff(kwargs, key);
    GetFound(kwargs, key);
    var j :| 0 <= j < |kwargs| && kwargs[j] == (key, Get(kwargs, key));
    assert i == j;
  }

  /** With distinct keys, a valid `kwargs["portfolio"]` means every `portfolio`
      argument is valid. */
  lemma PortfolioArgumentsValid(kwargs: seq<(string, Value)>)
    requires KeysDistinct(kwargs)
    requires HasKey(kwargs, "portfolio") ==> ValidatePortfolio(Get(kwargs, "portfolio"))
    ensures forall i :: 0 <= i < |kwargs| && kwargs[i].0 == "portfolio" ==> ValidatePortfolio(kwargs[i].1)
  {
    forall i | 0 <= i < |kwargs| && kwargs[i].0 == "portfolio" ensures ValidatePortfolio(kwargs[i].1) {
      GetDistinct(kwargs, "portfolio", i);
    }
  }

  /** What the centre keeps true of every member: it is filed under its own email,
      its two lists are duplicate-free catalog ids, and its portfolio is valid. */
  ghost predicate MemberValid(key: string, d: MemberData, clubIds: set<string>) {
    && d.email == key
    && NoDup(d.enrolledClubs) && (forall i :: 0 <= i < |d.enrolledClubs| ==> d.enrolledClubs[i] in clubIds)
    && NoDup(d.interestedClubs) && (forall i :: 0 <= i < |d.interestedClubs| ==> d.interestedClubs[i] in clubIds)
    && ValidatePortfolio(d.portfolio)
  }

  /** An `edit_profile` update that passed the guards keeps a member valid. */
  lemma UpdateKeepsMemberValid(key: string, d: MemberData, kwargs: seq<(string, Value)>, clubIds: set<string>)
    requires MemberValid(key, d, clubIds) && KeysDistinct(kwargs)
    requires HasKey(kwargs, "portfolio") ==> ValidatePortfolio(Get(kwargs, "portfolio"))
    ensures MemberValid(key, ApplyUpdates(d, kwargs).0, clubIds)
  {
    ApplyUpdatesKeepsAccount(d, kwargs);
    PortfolioArgumentsValid(kwargs);
    PortfolioStaysValid(d, kwargs);
  }

  ghost predicate DirectoryValid(dir: map<string, MemberData>, clubIds: set<string>) {
    forall e :: e in dir ==> MemberValid(e, dir[e], clubIds)
  }

  /** Two maps with the same keys that agree except at `k`. */
  lemma MapUpdated<K, V>(now: map<K, V>, before: map<K, V>, k: K, v: V)
    requires now.Keys == before.Keys && k in now && now[k] == v
    requires forall e :: e in now && e != k ==> now[e] == before[e]
    ensures now == before[k := v]
  {
  }

  /** A map with the keys of `before` but `k` that agrees with it on them. */
  lemma MapRemoved<K, V>(now: map<K, V>, before: map<K, V>, k: K)
    requires now.Keys == before.Keys - {k}
    requires forall e :: e in now ==> now[e] == before[e]
    ensures now == before - {k}
  {
  }

  /** The attributes of the members of `m`, by email. */
  ghost function DirectoryOf(m: map<string, Member>): map<string, MemberData>
    reads m.Values
  {
    map e | e in m :: m[e].Data()
  }

  /** Dropping an email from the member map drops it from the directory. */
  lemma DirectoryOfRemove(m: map<string, Member>, e: string)
    ensures DirectoryOf(m - {e}) == DirectoryOf(m) - {e}
  {
  }

  /** Removing a member keeps the directory valid. */
  lemma DirectoryValidRemove(dir: map<string, MemberData>, e: string, clubIds: set<string>)
    requires DirectoryValid(dir, clubIds)
    ensures DirectoryValid(dir - {e}, clubIds)
  {
  }

  /** Replacing one valid member keeps the directory valid. */
  lemma DirectoryValidUpdate(dir: map<string, MemberData>, e: string, d: MemberData, clubIds: set<string>)
    requires DirectoryValid(dir, clubIds) && MemberValid(e, d, clubIds)
    ensures DirectoryValid(dir[e := d], clubIds)
  {
  }

  /** No member object is filed under two emails. */
  ghost predicate MembersDistinct(m: map<string, Member>) {
    forall e, f :: e in m && f in m && e != f ==> m[e] != m[f]
  }

  /** The centre's invariant on the values of its fields: the session slot names a
      member, no two emails share a member object, the catalog is well formed and
      every member is valid. */
  ghost predicate StateValid(m: map<string, Member>, clubs: map<string, Club>, order: seq<string>,
                             session: Option<string>)
    reads m.Values
  {
    && ClubsValid(clubs, order)
    && MembersDistinct(m)
    && (session.Some? ==> session.value in m)
    && DirectoryValid(DirectoryOf(m), clubs.Keys)
  }

  /** Removing a member and ending the session keeps the invariant. */
  lemma StateValidRemove(m: map<string, Member>, clubs: map<string, Club>, order: seq<string>,
                         session: Option<string>, e: string)
    requires StateValid(m, clubs, order, session)
    ensures StateValid(m - {e}, clubs, order, None)
    ensures DirectoryOf(m - {e}) == DirectoryOf(m) - {e}
  {
    DirectoryOfRemove(m, e);
    DirectoryValidRemove(DirectoryOf(m), e, clubs.Keys);
  }

  /** `Member`. */
  class Member {
    var name: Value
    var email: string
    var password: string
    var phoneNumber: Value
    var address: Value
    var gender: Value
    var occupation: Value
    var portfolio: Value
    var interests: Value
    var enrolledClubs: seq<string>
    var interestedClubs: seq<string>

    function Data(): MemberData
      reads this
    {
      MemberData(name, email, password, phoneNumber, address, gender, occupation, portfolio, interests,
                 enrolledClubs, interestedClubs)
    }

    /** `Member.__init__`: both club lists start empty. */
    constructor (name: Value, email: string, password: string, phoneNumber: Value, address: Value,
                 gender: Value, occupation: Value, portfolio: Value, interests: Value)
      ensures Data() == MemberData(name, email, password, phoneNumber, address, gender, occupation,
                                   portfolio, interests, [], [])
    {
      this.name, this.email, this.password := name, email, password;
      this.phoneNumber, this.address, this.gender := phoneNumber, address, gender;
      this.occupation, this.portfolio, this.interests := occupation, portfolio, interests;
      enrolledClubs, interestedClubs := [], [];
    }

    /** `update_profile(**kwargs)`. */
    method UpdateProfile(kwargs: seq<(string, Value)>) returns (ok: bool)
      modifies this
      ensures (Data(), ok) == ApplyUpdates(old(Data()), kwargs)
    {
      var i := 0;
      while i < |kwargs|
        invariant 0 <= i <= |kwargs|
        invariant ApplyUpdates(old(Data()), kwargs) == ApplyUpdates(Data(), kwargs[i..])
      {
        var (key, value) := kwargs[i];
        assert kwargs[i..][0] == (key, value) && kwargs[i..][1..] == kwargs[i + 1..];
        if key !in AllowedKeys {
          return false;
        }
        ghost var before := Data();
        if key == "name" {
          name := value;
        } else if key == "phone_number" {
          phoneNumber := value;
        } else if key == "address" {
          address := value;
        } else if key == "gender" {
          gender := value;
        } else if key == "occupation" {
          occupation := value;
        } else if key == "portfolio" {
          portfolio := value;
        } else {
          interests := value;
        }
        assert Data() == SetAttribute(before, key, value);
        i := i + 1;
      }
      assert kwargs[i..] == [];
      return true;
    }
  }

  /** `MACCenter`. */
  class Center {
    var members: map<string, Member>
    var clubs: map<string, Club>
    var clubOrder: seq<string>
    var loggedInUser: Option<string>
    /** SHA-256 as a hex digest, a deterministic function the model does not look into. */
    const digest: string -> string

    /** Every member's attributes, by email. */
    ghost function Directory(): map<string, MemberData>
      reads `members, members.Values
    {
      DirectoryOf(members)
    }

    /** The session slot names a member, no two emails share a member object, the
        catalog is well formed and every member is valid. */
    ghost predicate Valid()
      reads this, members.Values
    {
      StateValid(members, clubs, clubOrder, loggedInUser)
    }

    /** The invariant's facts about one member. */
    lemma MemberFacts(e: string)
      requires Valid() && e in members
      ensures MemberValid(e, members[e].Data(), clubs.Keys)
    {
      assert Directory()[e] == members[e].Data();
    }

    /** `_hash_password`: the digest of the password followed by the salt. */
    function HashPassword(password: string): string {
      digest(password + Salt)
    }

    /** `_verify_password`. */
    predicate VerifyPassword(hashed: string, password: string) {
      hashed == HashPassword(password)
    }

    /** `MACCenter.__init__`: no members, no session, the twelve clubs. */
    constructor (digest: string -> string)
      ensures Valid()
      ensures members == map[] && loggedInUser == None
      ensures clubOrder == CatalogIds
      ensures forall i :: 0 <= i < 12 ==> CatalogIds[i] in clubs && clubs[CatalogIds[i]] == Catalog[i]
      ensures this.digest == digest
    {
      this.digest := digest;
      members, clubs, clubOrder, loggedInUser := map[], map[], [], None;
      new;
      InitializeClubs();
    }

    /** `_initialize_clubs`, on the empty catalog of a new centre. */
    method InitializeClubs()
      requires clubs == map[] && clubOrder == []
      modifies this
      ensures ClubsValid(clubs, clubOrder)
      ensures clubOrder == CatalogIds
      ensures forall i :: 0 <= i < 12 ==> CatalogIds[i] in clubs && clubs[CatalogIds[i]] == Catalog[i]
      ensures members == old(members) && loggedInUser == old(loggedInUser)
    {
      CatalogIdsDistinct();
      assert Ids(Catalog) == CatalogIds;
      PutClubs(Catalog);
    }

    /** The loop of `_initialize_clubs`: clubs with distinct ids are stored in order,
        starting from the empty dict of a new centre. */
    method PutClubs(data: seq<Club>)
      requires clubs == map[] && clubOrder == [] && NoDup(Ids(data))
      modifies this
      ensures ClubsValid(clubs, clubOrder)
      ensures clubOrder == Ids(data)
      ensures forall i :: 0 <= i < |data| ==> data[i].clubId in clubs && clubs[data[i].clubId] == data[i]
      ensures members == old(members) && loggedInUser == old(loggedInUser)
    {
      ghost var ids := Ids(data);
      var i := 0;
      while i < |data|
        invariant 0 <= i <= |data|
        invariant ClubsValid(clubs, clubOrder)
        invariant clubOrder == ids[..i]
        invariant clubs == ClubMap(data[..i])
        invariant members == old(members) && loggedInUser == old(loggedInUser)
      {
        assert data[i].clubId !in clubs by {
          assert forall k :: 0 <= k < i ==> ids[k] != ids[i];
        }
        PutClub(data[i]);
        ClubMapStep(data, i);
        i := i + 1;
      }
      assert ids[..i] == ids;
      assert data[..i] == data;
      ClubMapLookup(data);
    }

    /** `self.clubs[club.club_id] = club`: a new id goes to the end of the insertion
        order, an existing one keeps its place and gets the new club. */
    method PutClub(club: Club)
      requires ClubsValid(clubs, clubOrder)
      modifies this
      ensures ClubsValid(clubs, clubOrder)
      ensures clubs == old(clubs)[club.clubId := club]
      ensures clubOrder == if club.clubId in old(clubs) then old(clubOrder) else old(clubOrder) + [club.clubId]
      ensures members == old(members) && loggedInUser == old(loggedInUser)
    {
      if club.clubId !in clubs {
        clubOrder := clubOrder + [club.clubId];
      }
      clubs := clubs[club.clubId := club];
    }

    /** `register`: all eight strings non-empty, matching passwords, a valid new email
        and a valid portfolio; the new member keeps the hash, not the password. */
    method Register(name: string, email: string, password: string, confirmPassword: string,
                    phoneNumber: string, address: string, gender: string, occupation: string,
                    portfolio: Value, interests: Value) returns (ok: bool)
      requires Valid()
      modifies this
      ensures Valid()
      ensures ok <==> (&& name != [] && email != [] && password != [] && confirmPassword != []
                       && phoneNumber != [] && address != [] && gender != [] && occupation != []
                       && password == confirmPassword
                       && ValidateEmail(email, old(members).Keys)
                       && ValidatePortfolio(portfolio))
      ensures ok ==> && members.Keys == old(members).Keys + {email}
                     && fresh(members[email])
                     && Directory() == old(Directory())[email := MemberData(
                          Str(name), email, HashPassword(password), Str(phoneNumber), Str(address),
                          Str(gender), Str(occupation), portfolio, interests, [], [])]
      ensures !ok ==> members == old(members) && Directory() == old(Directory())
      ensures loggedInUser == old(loggedInUser) && clubs == old(clubs) && clubOrder == old(clubOrder)
    {
      if name == [] || email == [] || password == [] || confirmPassword == [] ||
         phoneNumber == [] || address == [] || gender == [] || occupation == [] {
        return false;
      }
      if password != confirmPassword {
        return false;
      }
      if !ValidateEmail(email, members.Keys) {
        return false;
      }
      if !ValidatePortfolio(portfolio) {
        return false;
      }
      var hashed := HashPassword(password);
      ghost var dir := Directory();
      var member := new Member(Str(name), email, hashed, Str(phoneNumber), Str(address), Str(gender),
                               Str(occupation), portfolio, interests);
      assert Directory() == dir;
      FileMember(email, member);
      return true;
    }

    /** `self.members[email] = member` for a new email and a new member object. */
    method FileMember(email: string, member: Member)
      requires Valid() && email !in members && member !in members.Values
      requires MemberValid(email, member.Data(), clubs.Keys)
      modifies this
      ensures Valid()
      ensures members == old(members)[email := member]
      ensures Directory() == old(Directory())[email := member.Data()]
      ensures loggedInUser == old(loggedInUser) && clubs == old(clubs) && clubOrder == old(clubOrder)
    {
      ghost var dir := Directory();
      members := members[email := member];
      assert forall e :: e in old(members) ==> old(members)[e] != member;
      assert Directory() == dir[email := member.Data()];
      DirectoryValidUpdate(dir, email, member.Data(), clubs.Keys);
    }

    /** `login`: succeeds exactly for a member whose stored hash matches, and then
        opens that member's session. */
    method Login(email: string, password: string) returns (ok: bool)
      requires Valid()
      modifies this
      ensures Valid()
      ensures ok <==> email in members && VerifyPassword(members[email].password, password)
      ensures ok ==> loggedInUser == Some(email)
      ensures !ok ==> loggedInUser == old(loggedInUser)
      ensures members == old(members) && clubs == old(clubs) && clubOrder == old(clubOrder)
    {
      if email !in members {
        return false;
      }
      var member := members[email];
      if VerifyPassword(member.password, password) {
        loggedInUser := Some(email);
        return true;
      }
      return false;
    }

    /** `logout`: fails when nobody is logged in; the slot is empty afterwards. */
    method Logout() returns (ok: bool)
      requires Valid()
      modifies this
      ensures Valid()
      ensures ok <==> old(loggedInUser).Some?
      ensures loggedInUser == None
      ensures members == old(members) && clubs == old(clubs) && clubOrder == old(clubOrder)
    {
      if loggedInUser.None? {
        return false;
      }
      loggedInUser := None;
      return true;
    }

    /** `view_profile`: the logged-in member's profile dict, without its password hash,
        or `None`. */
    method ViewProfile() returns (profile: Option<Value>)
      requires Valid()
      ensures profile.None? <==> loggedInUser.None?
      ensures profile.Some? ==> profile.value == Profile(members[loggedInUser.value].Data())
      ensures profile.Some? ==> profile.value.Dict? && !HasKey(profile.value.entries, "password")
      ensures profile.Some? ==> HasEntry(profile.value.entries, "email", Str(loggedInUser.value))
    {
      if loggedInUser.None? {
        return None;
      }
      var member := members[loggedInUser.value];
      MemberFacts(loggedInUser.value);
      ProfileEntries(member.Data());
      return Some(Profile(member.Data()));
    }

    /** `edit_profile(**kwargs)`: no session, an `email` or `password` key, or an invalid
        portfolio fail and change nothing; otherwise it is `update_profile`, which may
        leave a prefix of the arguments applied when it fails. */
    method EditProfile(kwargs: seq<(string, Value)>) returns (ok: bool)
      requires Valid() && KeysDistinct(kwargs)
      modifies members.Values
      ensures Valid()
      ensures loggedInUser.None? ==> !ok && Directory() == old(Directory())
      ensures (HasKey(kwargs, "email") || HasKey(kwargs, "password")) ==> !ok && Directory() == old(Directory())
      ensures HasKey(kwargs, "portfolio") && !ValidatePortfolio(Get(kwargs, "portfolio")) ==>
        !ok && Directory() == old(Directory())
      ensures (&& loggedInUser.Some? && !HasKey(kwargs, "email") && !HasKey(kwargs, "password")
               && (HasKey(kwargs, "portfolio") ==> ValidatePortfolio(Get(kwargs, "portfolio")))) ==>
        var user := loggedInUser.value;
        var (updated, success) := ApplyUpdates(old(Directory())[user], kwargs);
        ok == success && Directory() == old(Directory())[user := updated]
    {
      if loggedInUser.None? {
        return false;
      }
      var user := loggedInUser.value;
      var member := members[user];
      if HasKey(kwargs, "email") || HasKey(kwargs, "password") {
        return false;
      }
      if HasKey(kwargs, "portfolio") && !ValidatePortfolio(Get(kwargs, "portfolio")) {
        return false;
      }
      ok := UpdateMember(user, kwargs);
    }

    /** The `update_profile` call of `edit_profile`, once the guards have passed. */
    method UpdateMember(user: string, kwargs: seq<(string, Value)>) returns (ok: bool)
      requires Valid() && KeysDistinct(kwargs) && user in members
      requires !HasKey(kwargs, "email") && !HasKey(kwargs, "password")
      requires HasKey(kwargs, "portfolio") ==> ValidatePortfolio(Get(kwargs, "portfolio"))
      modifies members[user]
      ensures Valid()
      ensures var (updated, success) := ApplyUpdates(old(Directory())[user], kwargs);
        ok == success && Directory() == old(Directory())[user := updated]
    {
      var member := members[user];
      ghost var dir := Directory();
      ghost var before := member.Data();
      assert before == dir[user];
      UpdateKeepsMemberValid(user, before, kwargs, clubs.Keys);
      ok := member.UpdateProfile(kwargs);
      ghost var now := Directory();
      assert forall e :: e in members && e != user ==> now[e] == dir[e];
      MapUpdated(now, dir, user, member.Data());
      DirectoryValidUpdate(dir, user, member.Data(), clubs.Keys);
    }

    /** `delete_account`: with a session and the right password the member and the
        session go together. */
    method DeleteAccount(password: string) returns (ok: bool)
      requires Valid()
      modifies this
      ensures Valid()
      ensures ok <==> old(loggedInUser).Some? && VerifyPassword(old(members)[old(loggedInUser).value].password, password)
      ensures ok ==> && members == old(members) - {old(loggedInUser).value} && loggedInUser == None
                     && Directory() == old(Directory()) - {old(loggedInUser).value}
      ensures !ok ==> members == old(members) && loggedInUser == old(loggedInUser)
      ensures clubs == old(clubs) && clubOrder == old(clubOrder)
    {
      if loggedInUser.None? {
        return false;
      }
      var member := members[loggedInUser.value];
      if !VerifyPassword(member.password, password) {
        return false;
      }
      CloseAccount();
      return true;
    }

    /** `del self.members[email]` followed by `self.logged_in_user = None`. */
    method CloseAccount()
      requires Valid() && loggedInUser.Some?
      modifies this
      ensures Valid()
      ensures members == old(members) - {old(loggedInUser).value} && loggedInUser == None
      ensures Directory() == old(Directory()) - {old(loggedInUser).value}
      ensures clubs == old(clubs) && clubOrder == old(clubOrder)
    {
      var user := loggedInUser.value;
      var rest := members - {user};
      StateValidRemove(members, clubs, clubOrder, loggedInUser, user);
      ghost var dir := DirectoryOf(rest);
      members, loggedInUser := rest, None;
      assert DirectoryOf(rest) == dir;
    }

    /** `list_all_clubs`: the dict of every club, in catalog order. */
    function ListAllClubs(): (r: seq<Value>)
      requires ClubsValid(clubs, clubOrder)
      reads this
      ensures |r| == |clubOrder| == |clubs|
      ensures forall i :: 0 <= i < |r| ==> FromDict(r[i]) == Some(clubs[clubOrder[i]])
    {
      OrderCoversClubs(clubs, clubOrder);
      forall i | 0 <= i < |clubOrder| ensures FromDict(ToDict(clubs[clubOrder[i]])) == Some(clubs[clubOrder[i]]) {
        ToDictRoundTrip(clubs[clubOrder[i]]);
      }
      ClubDicts(clubs, clubOrder)
    }

    /** `enroll_in_club`: needs a session, a catalog id and an id not yet enrolled;
        the id is appended. */
    method EnrollInClub(clubId: string) returns (ok: bool)
      requires Valid()
      modifies members.Values
      ensures Valid()
      ensures ok <==> (&& loggedInUser.Some? && clubId in clubs
                       && clubId !in old(Directory())[loggedInUser.value].enrolledClubs)
      ensures ok ==> var user := loggedInUser.value; var d := old(Directory())[user];
        Directory() == old(Directory())[user := d.(enrolledClubs := d.enrolledClubs + [clubId])]
      ensures !ok ==> Directory() == old(Directory())
    {
      if loggedInUser.None? {
        return false;
      }
      if clubId !in clubs {
        return false;
      }
      var user := loggedInUser.value;
      var member := members[user];
      ghost var dir := Directory();
      assert member.Data() == dir[user];
      if clubId in member.enrolledClubs {
        return false;
      }
      NoDupAppend(member.enrolledClubs, clubId);
      member.enrolledClubs := member.enrolledClubs + [clubId];
      ghost var now := Directory();
      assert forall e :: e in members && e != user ==> now[e] == dir[e];
      MapUpdated(now, dir, user, member.Data());
      DirectoryValidUpdate(dir, user, member.Data(), clubs.Keys);
      return true;
    }

    /** `deenroll_from_club`: needs a session, a catalog id and an enrolled id; exactly
        that id leaves the list, the rest keeps its order. */
    method DeenrollFromClub(clubId: string) returns (ok: bool)
      requires Valid()
      modifies members.Values
      ensures Valid()
      ensures ok <==> (&& loggedInUser.Some? && clubId in clubs
                       && clubId in old(Directory())[loggedInUser.value].enrolledClubs)
      ensures ok ==> var user := loggedInUser.value; var d := old(Directory())[user];
        Directory() == old(Directory())[user := d.(enrolledClubs := RemoveFirst(d.enrolledClubs, clubId))]
      ensures !ok ==> Directory() == old(Directory())
    {
      if loggedInUser.None? {
        return false;
      }
      if clubId !in clubs {
        return false;
      }
      var user := loggedInUser.value;
      var member := members[user];
      ghost var dir := Directory();
      assert member.Data() == dir[user];
      if clubId !in member.enrolledClubs {
        return false;
      }
      RemoveFirstFromNoDup(member.enrolledClubs, clubId);
      member.enrolledClubs := RemoveFirst(member.enrolledClubs, clubId);
      ghost var now := Directory();
      assert forall e :: e in members && e != user ==> now[e] == dir[e];
      MapUpdated(now, dir, user, member.Data());
      DirectoryValidUpdate(dir, user, member.Data(), clubs.Keys);
      return true;
    }

    /** `add_interest_in_club`: the contract of `enroll_in_club` on the interested list. */
    method AddInterestInClub(clubId: string) returns (ok: bool)
      requires Valid()
      modifies members.Values
      ensures Valid()
      ensures ok <==> (&& loggedInUser.Some? && clubId in clubs
                       && clubId !in old(Directory())[loggedInUser.value].interestedClubs)
      ensures ok ==> var user := loggedInUser.value; var d := old(Directory())[user];
        Directory() == old(Directory())[user := d.(interestedClubs := d.interestedClubs + [clubId])]
      ensures !ok ==> Directory() == old(Directory())
    {
      if loggedInUser.None? {
        return false;
      }
      if clubId !in clubs {
        return false;
      }
      var user := loggedInUser.value;
      var member := members[user];
      ghost var dir := Directory();
      assert member.Data() == dir[user];
      if clubId in member.interestedClubs {
        return false;
      }
      NoDupAppend(member.interestedClubs, clubId);
      member.interestedClubs := member.interestedClubs + [clubId];
      ghost var now := Directory();
      assert forall e :: e in members && e != user ==> now[e] == dir[e];
      MapUpdated(now, dir, user, member.Data());
      DirectoryValidUpdate(dir, user, member.Data(), clubs.Keys);
      return true;
    }

    /** `remove_interest_in_club`: the contract of `deenroll_from_club` on the interested list. */
    method RemoveInterestInClub(clubId: string) returns (ok: bool)
      requires Valid()
      modifies members.Values
      ensures Valid()
      ensures ok <==> (&& loggedInUser.Some? && clubId in clubs
                       && clubId in old(Directory())[loggedInUser.value].interestedClubs)
      ensures ok ==> var user := loggedInUser.value; var d := old(Directory())[user];
        Directory() == old(Directory())[user := d.(interestedClubs := RemoveFirst(d.interestedClubs, clubId))]
      ensures !ok ==> Directory() == old(Directory())
    {
      if loggedInUser.None? {
        return false;
      }
      if clubId !in clubs {
        return false;
      }
      var user := loggedInUser.value;
      var member := members[user];
      ghost var dir := Directory();
      assert member.Data() == dir[user];
      if clubId !in member.interestedClubs {
        return false;
      }
      RemoveFirstFromNoDup(member.interestedClubs, clubId);
      member.interestedClubs := RemoveFirst(member.interestedClubs, clubId);
      ghost var now := Directory();
      assert forall e :: e in members && e != user ==> now[e] == dir[e];
      MapUpdated(now, dir, user, member.Data());
      DirectoryValidUpdate(dir, user, member.Data(), clubs.Keys);
      return true;
    }

    /** The dicts of the clubs of `ids` that exist, built by the loops of the
        `list_enrolled_clubs` and `list_interested_clubs` queries. */
    method CollectClubs(ids: seq<string>) returns (r: seq<Value>)
      ensures r == ClubDicts(clubs, ids)
    {
      r := [];
      var i := 0;
      while i < |ids|
        invariant 0 <= i <= |ids|
        invariant r == ClubDicts(clubs, ids[..i])
      {
        var clubId := ids[i];
        assert ids[..i + 1] == ids[..i] + [clubId];
        ClubDictsAppend(clubs, ids[..i], clubId);
        if clubId in clubs {
          r := r + [ToDict(clubs[clubId])];
        }
        i := i + 1;
      }
      assert ids[..i] == ids;
    }

    /** The dicts of the catalog's clubs whose ids are not in `excluded`, in catalog
        order: the loops of the two `list_not_*` queries. */
    method CollectOtherClubs(excluded: seq<string>) returns (r: seq<Value>)
      requires forall i :: 0 <= i < |clubOrder| ==> clubOrder[i] in clubs
      ensures r == ClubDicts(clubs, Without(clubOrder, excluded))
    {
      r := [];
      var i := 0;
      while i < |clubOrder|
        invariant 0 <= i <= |clubOrder|
        invariant r == ClubDicts(clubs, Without(clubOrder[..i], excluded))
      {
        var clubId := clubOrder[i];
        ghost var kept := Without(clubOrder[..i], excluded);
        assert clubOrder[..i + 1] == clubOrder[..i] + [clubId];
        WithoutAppend(clubOrder[..i], clubId, excluded);
        if clubId !in excluded {
          assert Without(clubOrder[..i + 1], excluded) == kept + [clubId];
          ClubDictsAppend(clubs, kept, clubId);
          r := r + [ToDict(clubs[clubId])];
        } else {
          assert Without(clubOrder[..i + 1], excluded) == kept;
        }
        i := i + 1;
      }
      assert clubOrder[..i] == clubOrder;
    }

    /** `list_enrolled_clubs`: `None` without a session, otherwise the enrolled clubs'
        dicts in enrollment order. */
    method ListEnrolledClubs() returns (r: Option<seq<Value>>)
      requires Valid()
      ensures r.None? <==> loggedInUser.None?
      ensures r.Some? ==> var enrolled := members[loggedInUser.value].enrolledClubs;
        && |r.value| == |enrolled|
        && forall i :: 0 <= i < |enrolled| ==> enrolled[i] in clubs && FromDict(r.value[i]) == Some(clubs[enrolled[i]])
    {
      if loggedInUser.None? {
        return None;
      }
      var member := members[loggedInUser.value];
      MemberFacts(loggedInUser.value);
      var dicts := CollectClubs(member.enrolledClubs);
      forall i | 0 <= i < |member.enrolledClubs| ensures FromDict(dicts[i]) == Some(clubs[member.enrolledClubs[i]]) {
        ToDictRoundTrip(clubs[member.enrolledClubs[i]]);
      }
      return Some(dicts);
    }

    /** `list_not_enrolled_clubs`: `None` without a session, otherwise the catalog in
        order without the enrolled ids; with the enrolled list it makes up the catalog. */
    method ListNotEnrolledClubs() returns (r: Option<seq<Value>>)
      requires Valid()
      ensures r.None? <==> loggedInUser.None?
      ensures r.Some? ==> var enrolled := members[loggedInUser.value].enrolledClubs;
        && r.value == ClubDicts(clubs, Without(clubOrder, enrolled))
        && |enrolled| + |r.value| == |clubs|
    {
      if loggedInUser.None? {
        return None;
      }
      var member := members[loggedInUser.value];
      MemberFacts(loggedInUser.value);
      var dicts := CollectOtherClubs(member.enrolledClubs);
      CatalogPartition(clubs, clubOrder, member.enrolledClubs);
      return Some(dicts);
    }

    /** `list_interested_clubs`: `None` without a session, otherwise the interested
        clubs' dicts in the order they were added. */
    method ListInterestedClubs() returns (r: Option<seq<Value>>)
      requires Valid()
      ensures r.None? <==> loggedInUser.None?
      ensures r.Some? ==> var interested := members[loggedInUser.value].interestedClubs;
        && |r.value| == |interested|
        && forall i :: 0 <= i < |interested| ==> interested[i] in clubs && FromDict(r.value[i]) == Some(clubs[interested[i]])
    {
      if loggedInUser.None? {
        return None;
      }
      var member := members[loggedInUser.value];
      MemberFacts(loggedInUser.value);
      var dicts := CollectClubs(member.interestedClubs);
      forall i | 0 <= i < |member.interestedClubs| ensures FromDict(dicts[i]) == Some(clubs[member.interestedClubs[i]]) {
        ToDictRoundTrip(clubs[member.interestedClubs[i]]);
      }
      return Some(dicts);
    }

    /** `list_not_interested_clubs`: `None` without a session, otherwise the catalog in
        order without the interested ids; with the interested list it makes up the catalog. */
    method ListNotInterestedClubs() returns (r: Option<seq<Value>>)
      requires Valid()
      ensures r.None? <==> loggedInUser.None?
      ensures r.Some? ==> var interested := members[loggedInUser.value].interestedClubs;
        && r.value == ClubDicts(clubs, Without(clubOrder, interested))
        && |interested| + |r.value| == |clubs|
    {
      if loggedInUser.None? {
        return None;
      }
      var member := members[loggedInUser.value];
      MemberFacts(loggedInUser.value);
      var dicts := CollectOtherClubs(member.interestedClubs);
      CatalogPartition(clubs, clubOrder, member.interestedClubs);
      return Some(dicts);
    }
  }
}
