/** User and group tables, reported as differences to a server that mirrors them. */
module Users {
  import opened Common
  import opened KeyOrder
  import opened Replica

  type Name = Bytes

  datatype User = User(username: Name, name: string, uid: int, primaryGid: int,
                       homePhone: string, workPhone: string, location: string, enabled: bool)

  datatype Group = Group(name: Name, gid: int, members: seq<Name>)

  datatype Tables = Tables(users: map<Name, User>, groups: map<Name, Group>)

  /** A "users" message. A user or group is told by its name and the rest of its record. */
  datatype Message = Message(
    createUsers: seq<(Name, User)>, updateUsers: seq<(Name, User)>, deleteUsers: seq<Name>,
    createGroups: seq<(Name, int)>, updateGroups: seq<(Name, int)>, deleteGroups: seq<Name>,
    createGroupMembers: map<Name, seq<Name>>, deleteGroupMembers: map<Name, seq<Name>>)

  const EMPTY := Message([], [], [], [], [], [], map[], map[])

  /** What a server knows: members are a set. */
  datatype Mirror = Mirror(users: map<Name, User>, gids: map<Name, int>, members: map<Name, set<Name>>)

  function Gids(groups: map<Name, Group>): map<Name, int> { map g | g in groups :: groups[g].gid }

  ghost function MembersOf(groups: map<Name, Group>, g: Name): set<Name> {
    if g in groups then Elements(groups[g].members) else {}
  }

  ghost function AllMembers(groups: map<Name, Group>): map<Name, set<Name>> {
    map g | g in groups :: MembersOf(groups, g)
  }

  ghost function View(t: Tables): Mirror { Mirror(t.users, Gids(t.groups), AllMembers(t.groups)) }

  ghost function Listed(lists: map<Name, seq<Name>>, g: Name): set<Name> {
    if g in lists then Elements(lists[g]) else {}
  }

  /** A group's members once those who joined are added and those who left are removed. */
  ghost function MembersAfter(members: map<Name, set<Name>>, msg: Message, g: Name): set<Name> {
    (if g in members then members[g] else {}) + Listed(msg.createGroupMembers, g) - Listed(msg.deleteGroupMembers, g)
  }

  /** The server carries out a message. */
  ghost function Applied(m: Mirror, msg: Message): Mirror {
    var gids := PerformAll(m.gids, Operations(msg.createGroups, msg.updateGroups, msg.deleteGroups));
    Mirror(
      PerformAll(m.users, Operations(msg.createUsers, msg.updateUsers, msg.deleteUsers)),
      gids,
      map g | g in gids :: MembersAfter(m.members, msg, g))
  }

  ghost function AppliedAll(m: Mirror, msgs: seq<Message>): Mirror {
    if msgs == [] then m else Applied(AppliedAll(m, msgs[..|msgs| - 1]), msgs[|msgs| - 1])
  }

  // Reading the databases.

  /** `parsePasswd`: a later line for a name replaces an earlier one. */
  function ParsedUsers(lines: seq<User>): map<Name, User> {
    if lines == [] then map[]
    else
      var last := lines[|lines| - 1];
      ParsedUsers(lines[..|lines| - 1])[last.username := last]
  }

  function KnownMembers(users: map<Name, User>, members: seq<Name>): seq<Name> {
    if members == [] then []
    else if members[0] in users then [members[0]] + KnownMembers(users, members[1..])
    else KnownMembers(users, members[1..])
  }

  /** `parseGroup`: members without an account are left out, the others sorted. */
  function ParsedGroups(users: map<Name, User>, lines: seq<Group>): map<Name, Group> {
    if lines == [] then map[]
    else
      var last := lines[|lines| - 1];
      ParsedGroups(users, lines[..|lines| - 1])[last.name := last.(members := Sort(KnownMembers(users, last.members)))]
  }

  function Parsed(users: seq<User>, groups: seq<Group>): Tables {
    Tables(ParsedUsers(users), ParsedGroups(ParsedUsers(users), groups))
  }

  /** The tables are keyed by the names in the records. */
  ghost predicate WellKeyed(t: Tables) {
    && (forall u | u in t.users :: t.users[u].username == u)
    && (forall g | g in t.groups :: t.groups[g].name == g)
  }

  lemma {:induction false} ParsedWellKeyed(users: seq<User>, groups: seq<Group>)
    ensures WellKeyed(Parsed(users, groups))
  {
    UsersWellKeyed(users);
    GroupsWellKeyed(ParsedUsers(users), groups);
  }

  lemma {:induction false} UsersWellKeyed(lines: seq<User>)
    ensures forall u | u in ParsedUsers(lines) :: ParsedUsers(lines)[u].username == u
  {
    if lines != [] { UsersWellKeyed(lines[..|lines| - 1]); }
  }

  lemma {:induction false} GroupsWellKeyed(users: map<Name, User>, lines: seq<Group>)
    ensures forall g | g in ParsedGroups(users, lines) :: ParsedGroups(users, lines)[g].name == g
  {
    if lines != [] { GroupsWellKeyed(users, lines[..|lines| - 1]); }
  }

  // The databases in plain terms.

  /** Line `i` is the last one for this account. */
  predicate LastUser(lines: seq<User>, u: Name, i: nat) {
    i < |lines| && lines[i].username == u && forall k | i < k < |lines| :: lines[k].username != u
  }

  predicate LastGroup(lines: seq<Group>, g: Name, i: nat) {
    i < |lines| && lines[i].name == g && forall k | i < k < |lines| :: lines[k].name != g
  }

  predicate HasAccount(lines: seq<User>, u: Name) { exists i :: 0 <= i < |lines| && lines[i].username == u }

  /** The accounts of the user database, each with its last line. */
  ghost predicate ShowsUsers(users: map<Name, User>, lines: seq<User>) {
    && (forall u | u in users :: exists i: nat :: LastUser(lines, u, i) && users[u] == lines[i])
    && (forall i | 0 <= i < |lines| :: lines[i].username in users)
  }

  /** A line's members that have an account, as often as they occur, in the order of Go's strings. */
  ghost predicate Members(members: seq<Name>, lines: seq<User>, line: Group) {
    && (forall m :: multiset(members)[m] == if HasAccount(lines, m) then multiset(line.members)[m] else 0)
    && (forall i, j | 0 <= i < j < |members| :: members[i] == members[j] || Before(members[i], members[j]))
  }

  /** The groups of the group database, each with its last line. */
  ghost predicate ShowsGroups(groups: map<Name, Group>, users: seq<User>, lines: seq<Group>) {
    && (forall g | g in groups :: exists i: nat :: LastGroup(lines, g, i) && FromLine(groups[g], users, lines[i]))
    && (forall i | 0 <= i < |lines| :: lines[i].name in groups)
  }

  ghost predicate FromLine(group: Group, users: seq<User>, line: Group) {
    group.name == line.name && group.gid == line.gid && Members(group.members, users, line)
  }

  lemma {:induction false} ParsedUsersShown(lines: seq<User>)
    ensures ShowsUsers(ParsedUsers(lines), lines)
  {
    if lines != [] {
      var n := |lines| - 1;
      ParsedUsersShown(lines[..n]);
      assert lines == lines[..n] + [lines[n]];
      UsersOneMore(ParsedUsers(lines[..n]), lines[..n], lines[n]);
    }
  }

  lemma UsersOneMore(users: map<Name, User>, lines: seq<User>, last: User)
    requires ShowsUsers(users, lines)
    ensures ShowsUsers(users[last.username := last], lines + [last])
  {
    var more, all := users[last.username := last], lines + [last];
    forall u | u in more ensures exists i: nat :: LastUser(all, u, i) && more[u] == all[i] {
      if u == last.username {
        assert LastUser(all, u, |lines|);
      } else {
        var i: nat :| LastUser(lines, u, i) && users[u] == lines[i];
        assert LastUser(all, u, i);
      }
    }
  }

  lemma AccountsParsed(lines: seq<User>)
    ensures forall u :: u in ParsedUsers(lines) <==> HasAccount(lines, u)
  {
    ParsedUsersShown(lines);
    hide ParsedUsers;
    forall u | u in ParsedUsers(lines) ensures HasAccount(lines, u) {
      var i: nat :| LastUser(lines, u, i);
    }
  }

  lemma {:induction false} KnownMembersCount(users: map<Name, User>, members: seq<Name>)
    ensures forall m :: multiset(KnownMembers(users, members))[m] == if m in users then multiset(members)[m] else 0
  {
    if members != [] {
      KnownMembersCount(users, members[1..]);
      assert members == [members[0]] + members[1..];
    }
  }

  lemma LineParsed(users: seq<User>, line: Group)
    ensures FromLine(line.(members := Sort(KnownMembers(ParsedUsers(users), line.members))), users, line)
  {
    var known := KnownMembers(ParsedUsers(users), line.members);
    hide ParsedUsers, HasAccount, KnownMembers, Sort, Leq, Before;
    AccountsParsed(users);
    KnownMembersCount(ParsedUsers(users), line.members);
    SortedMembers(known);
  }

  lemma SortedMembers(known: seq<Name>)
    ensures
      var sorted := Sort(known);
      forall i, j | 0 <= i < j < |sorted| :: sorted[i] == sorted[j] || Before(sorted[i], sorted[j])
  {
    hide Sort, Leq, Before;
    SortIncreasing(known);
    var sorted := Sort(known);
    forall i, j | 0 <= i < j < |sorted| ensures sorted[i] == sorted[j] || Before(sorted[i], sorted[j]) {
      LeqMeans(sorted[i], sorted[j]);
    }
  }

  lemma {:induction false} ParsedGroupsShown(users: seq<User>, lines: seq<Group>)
    ensures ShowsGroups(ParsedGroups(ParsedUsers(users), lines), users, lines)
  {
    hide FromLine, ParsedUsers, KnownMembers, Sort;
    if lines != [] {
      var n := |lines| - 1;
      var last := lines[n];
      ParsedGroupsShown(users, lines[..n]);
      hide ShowsGroups;
      LineParsed(users, last);
      assert lines == lines[..n] + [last];
      GroupsOneMore(ParsedGroups(ParsedUsers(users), lines[..n]), users, lines[..n], last,
                    last.(members := Sort(KnownMembers(ParsedUsers(users), last.members))));
    }
  }

  lemma GroupsOneMore(groups: map<Name, Group>, users: seq<User>, lines: seq<Group>, last: Group, group: Group)
    requires ShowsGroups(groups, users, lines) && FromLine(group, users, last)
    ensures ShowsGroups(groups[last.name := group], users, lines + [last])
  {
    hide FromLine;
    var more, all := groups[last.name := group], lines + [last];
    forall g | g in more ensures exists i: nat :: LastGroup(all, g, i) && FromLine(more[g], users, all[i]) {
      if g == last.name {
        assert LastGroup(all, g, |lines|);
      } else {
        var i: nat :| LastGroup(lines, g, i) && FromLine(groups[g], users, lines[i]);
        assert LastGroup(all, g, i);
      }
    }
  }

  /** The mirror knows the accounts, groups and memberships of these two databases, and nothing else. */
  ghost predicate MirrorShows(m: Mirror, users: seq<User>, groups: seq<Group>) {
    && ShowsUsers(m.users, users)
    && m.members.Keys == m.gids.Keys
    && (forall g | g in m.gids :: exists i: nat :: LastGroup(groups, g, i) && MirrorLine(m, g, users, groups[i]))
    && (forall i | 0 <= i < |groups| :: groups[i].name in m.gids)
  }

  ghost predicate MirrorLine(m: Mirror, g: Name, users: seq<User>, line: Group)
    requires g in m.gids && g in m.members
  {
    && m.gids[g] == line.gid
    && forall u :: u in m.members[g] <==> u in line.members && HasAccount(users, u)
  }

  lemma ViewShows(users: seq<User>, groups: seq<Group>)
    ensures MirrorShows(View(Parsed(users, groups)), users, groups)
  {
    ParsedUsersShown(users);
    ParsedGroupsShown(users, groups);
    var t := Parsed(users, groups);
    hide ParsedUsers, ParsedGroups, ShowsUsers;
    var m := View(t);
    forall g | g in m.gids ensures exists i: nat :: LastGroup(groups, g, i) && MirrorLine(m, g, users, groups[i]) {
      var i: nat :| LastGroup(groups, g, i) && FromLine(t.groups[g], users, groups[i]);
      LineMirrored(m, g, t.groups[g], users, groups[i]);
    }
  }

  lemma LineMirrored(m: Mirror, g: Name, group: Group, users: seq<User>, line: Group)
    requires g in m.gids && g in m.members && m.gids[g] == group.gid && m.members[g] == Elements(group.members)
    requires FromLine(group, users, line)
    ensures MirrorLine(m, g, users, line)
  {
    hide HasAccount;
    forall u ensures u in m.members[g] <==> u in line.members && HasAccount(users, u) {
      assert u in group.members <==> multiset(group.members)[u] > 0;
      assert u in line.members <==> multiset(line.members)[u] > 0;
    }
  }

  // The message.

  /** The membership part tells, for each group, who joined and who left. */
  ghost predicate TellsMembers(before: map<Name, Group>, after: map<Name, Group>, g: Name,
                               joined: map<Name, seq<Name>>, left: map<Name, seq<Name>>) {
    && Listed(joined, g) == MembersOf(after, g) - MembersOf(before, g)
    && Listed(left, g) == MembersOf(before, g) - MembersOf(after, g)
  }

  ghost predicate Tells(msg: Message, before: Tables, after: Tables) {
    && Reports(msg.createUsers, msg.updateUsers, msg.deleteUsers, before.users, after.users,
               Changed(before.users, after.users))
    && Reports(msg.createGroups, msg.updateGroups, msg.deleteGroups, Gids(before.groups), Gids(after.groups),
               Changed(Gids(before.groups), Gids(after.groups)))
    && (forall g | g in after.groups ::
          TellsMembers(before.groups, after.groups, g, msg.createGroupMembers, msg.deleteGroupMembers))
    && msg.deleteUsers == Sorted(Deleted(before.users, after.users))
    && msg.deleteGroups == Sorted(Deleted(before.groups, after.groups))
  }

  /** A message in plain terms: who is new, changed and gone, and who joined and left each group. */
  lemma MessageTells(msg: Message, before: Tables, after: Tables)
    requires Tells(msg, before, after)
    ensures forall u, user :: (u, user) in msg.createUsers <==>
      u !in before.users && u in after.users && user == after.users[u]
    ensures forall u, user :: (u, user) in msg.updateUsers <==>
      u in before.users && u in after.users && user == after.users[u] && before.users[u] != user
    ensures forall u :: u in msg.deleteUsers <==> u in before.users && u !in after.users
    ensures Ascending(msg.deleteUsers)
  {
    hide Lists, ListsKeys, Sorted;
    ReportTells(msg.createUsers, msg.updateUsers, msg.deleteUsers, before.users, after.users,
                Changed(before.users, after.users));
    SortedAscending(Deleted(before.users, after.users));
  }

  lemma GroupsTell(msg: Message, before: Tables, after: Tables)
    requires Tells(msg, before, after)
    ensures forall g, gid :: (g, gid) in msg.createGroups <==>
      g !in before.groups && g in after.groups && gid == after.groups[g].gid
    ensures forall g, gid :: (g, gid) in msg.updateGroups <==>
      g in before.groups && g in after.groups && gid == after.groups[g].gid && before.groups[g].gid != gid
    ensures forall g :: g in msg.deleteGroups <==> g in before.groups && g !in after.groups
    ensures Ascending(msg.deleteGroups)
  {
    hide Lists, ListsKeys, Sorted;
    var was, now := Gids(before.groups), Gids(after.groups);
    ReportTells(msg.createGroups, msg.updateGroups, msg.deleteGroups, was, now, Changed(was, now));
    SortedAscending(Deleted(before.groups, after.groups));
  }

  lemma MembersTell(msg: Message, before: Tables, after: Tables, g: Name, u: Name)
    requires Tells(msg, before, after) && g in after.groups
    ensures g in msg.createGroupMembers && u in msg.createGroupMembers[g] <==>
      u in after.groups[g].members && !(g in before.groups && u in before.groups[g].members)
    ensures g in msg.deleteGroupMembers && u in msg.deleteGroupMembers[g] <==>
      u !in after.groups[g].members && g in before.groups && u in before.groups[g].members
  {
    hide Reports, Sorted;
    assert TellsMembers(before.groups, after.groups, g, msg.createGroupMembers, msg.deleteGroupMembers);
    assert u in Listed(msg.createGroupMembers, g) <==> g in msg.createGroupMembers && u in msg.createGroupMembers[g];
    assert u in Listed(msg.deleteGroupMembers, g) <==> g in msg.deleteGroupMembers && u in msg.deleteGroupMembers[g];
  }

  /** A message makes a mirror of the old tables the mirror of the new ones. */
  lemma MirrorFollows(msg: Message, before: Tables, after: Tables)
    requires Tells(msg, before, after)
    ensures Applied(View(before), msg) == View(after)
  {
    ReportCarries(msg.createUsers, msg.updateUsers, msg.deleteUsers, before.users, after.users);
    ReportCarries(msg.createGroups, msg.updateGroups, msg.deleteGroups, Gids(before.groups), Gids(after.groups));
    MembersFollow(msg, before.groups, after.groups);
  }

  lemma MembersFollow(msg: Message, before: map<Name, Group>, after: map<Name, Group>)
    requires forall g | g in after :: TellsMembers(before, after, g, msg.createGroupMembers, msg.deleteGroupMembers)
    ensures (map g | g in Gids(after) :: MembersAfter(AllMembers(before), msg, g)) == AllMembers(after)
  {
    forall g | g in after ensures MembersAfter(AllMembers(before), msg, g) == MembersOf(after, g) {
      assert TellsMembers(before, after, g, msg.createGroupMembers, msg.deleteGroupMembers);
      SameMembers(MembersOf(before, g), MembersOf(after, g),
                  Listed(msg.createGroupMembers, g), Listed(msg.deleteGroupMembers, g));
    }
  }

  lemma SameMembers<T>(before: set<T>, after: set<T>, joined: set<T>, left: set<T>)
    requires joined == after - before && left == before - after
    ensures before + joined - left == after
  {
  }

  /** No group is listed with nobody joining or leaving. */
  ghost predicate NoIdleEntries(lists: map<Name, seq<Name>>, after: map<Name, Group>) {
    && (lists != map[] ==> exists g :: g in lists)
    && (forall g | g in lists :: lists[g] != [] && g in after)
  }

  /** There is nothing to tell exactly when the mirror is up to date already. */
  lemma SilentIffUnchanged(msg: Message, before: Tables, after: Tables)
    requires Tells(msg, before, after)
    requires NoIdleEntries(msg.createGroupMembers, after.groups) && NoIdleEntries(msg.deleteGroupMembers, after.groups)
    ensures msg == EMPTY <==> View(before) == View(after)
  {
    if msg == EMPTY {
      MirrorFollows(msg, before, after);
      NothingApplied(View(before));
    } else if msg.createUsers != [] || msg.updateUsers != [] || msg.deleteUsers != [] {
      ReportedDiffers(msg.createUsers, msg.updateUsers, msg.deleteUsers, before.users, after.users);
    } else if msg.createGroups != [] || msg.updateGroups != [] || msg.deleteGroups != [] {
      ReportedDiffers(msg.createGroups, msg.updateGroups, msg.deleteGroups, Gids(before.groups), Gids(after.groups));
    } else {
      SomebodyMoved(msg, before, after);
    }
  }

  lemma NothingApplied(m: Mirror)
    requires m.members.Keys == m.gids.Keys
    ensures Applied(m, EMPTY) == m
  {
    assert forall g | g in m.gids :: MembersAfter(m.members, EMPTY, g) == m.members[g];
    assert Applied(m, EMPTY).members == m.members;
  }

  lemma SomebodyMoved(msg: Message, before: Tables, after: Tables)
    requires Tells(msg, before, after)
    requires NoIdleEntries(msg.createGroupMembers, after.groups) && NoIdleEntries(msg.deleteGroupMembers, after.groups)
    requires msg.createGroupMembers != map[] || msg.deleteGroupMembers != map[]
    ensures AllMembers(before.groups) != AllMembers(after.groups)
  {
    hide Reports, Sorted, AllMembers, MembersOf;
    if g :| g in msg.createGroupMembers {
      assert msg.createGroupMembers[g][0] in Listed(msg.createGroupMembers, g);
      assert TellsMembers(before.groups, after.groups, g, msg.createGroupMembers, msg.deleteGroupMembers);
      DifferentMembers(before.groups, after.groups, g, msg.createGroupMembers, msg.deleteGroupMembers);
    } else if g :| g in msg.deleteGroupMembers {
      assert msg.deleteGroupMembers[g][0] in Listed(msg.deleteGroupMembers, g);
      assert TellsMembers(before.groups, after.groups, g, msg.createGroupMembers, msg.deleteGroupMembers);
      DifferentMembers(before.groups, after.groups, g, msg.createGroupMembers, msg.deleteGroupMembers);
    }
  }

  lemma DifferentMembers(before: map<Name, Group>, after: map<Name, Group>, g: Name,
                         joined: map<Name, seq<Name>>, left: map<Name, seq<Name>>)
    requires g in after && TellsMembers(before, after, g, joined, left)
    requires Listed(joined, g) != {} || Listed(left, g) != {}
    ensures AllMembers(before) != AllMembers(after)
  {
    assert MembersOf(before, g) != MembersOf(after, g);
    assert AllMembers(after)[g] == MembersOf(after, g);
    assert g in before ==> AllMembers(before)[g] == MembersOf(before, g);
  }

  // Building it.

  /** The names in `names` and not in `other`, gathered in map order and then sorted. */
  method SortedDifference(names: set<Name>, other: set<Name>) returns (list: seq<Name>)
    ensures list == Sorted(names - other)
    ensures Elements(list) == names - other && NoDuplicates(list)
  {
    list := [];
    var todo := names;
    while exists name :: name in todo
      invariant todo <= names
      invariant NoDuplicates(list)
      invariant forall name :: name in list <==> name in names - other - todo
      decreases |todo|
    {
      var name :| name in todo;
      todo := todo - {name};
      if name !in other {
        NoDuplicatesAppend(list, name);
        list := list + [name];
      }
    }
    SortForgetsOrder(list);
    assert Elements(list) == names - other;
    list := Sort(list);
    SortedElements(names - other);
    SortedDistinct(names - other);
  }

  lemma NoDuplicatesAppend(list: seq<Name>, name: Name)
    requires NoDuplicates(list) && name !in list
    ensures NoDuplicates(list + [name])
  {
  }

  /** The lists tell what is new and what has changed among these names. */
  ghost predicate Told<V>(before: map<Name, V>, after: map<Name, V>, names: set<Name>,
                          creates: seq<(Name, V)>, updates: seq<(Name, V)>) {
    && Lists(creates, after, Created(before, after) * names)
    && Lists(updates, after, Changed(before, after) * names)
  }

  lemma ToldOneMore<V>(before: map<Name, V>, after: map<Name, V>, names: set<Name>, name: Name,
                       creates: seq<(Name, V)>, updates: seq<(Name, V)>)
    requires Told(before, after, names, creates, updates) && name in after && name !in names
    ensures name !in before ==> Told(before, after, names + {name}, creates + [(name, after[name])], updates)
    ensures name in before && before[name] != after[name] ==>
              Told(before, after, names + {name}, creates, updates + [(name, after[name])])
    ensures name in before && before[name] == after[name] ==> Told(before, after, names + {name}, creates, updates)
  {
    AddName(Created(before, after), names, name);
    AddName(Changed(before, after), names, name);
    ListsOneMore(creates, after, Created(before, after) * names, name);
    ListsOneMore(updates, after, Changed(before, after) * names, name);
  }

  lemma AddName<T>(keys: set<T>, names: set<T>, name: T)
    ensures keys * (names + {name}) == if name in keys then keys * names + {name} else keys * names
  {
  }

  lemma ToldAll<V>(before: map<Name, V>, after: map<Name, V>, names: set<Name>,
                   creates: seq<(Name, V)>, updates: seq<(Name, V)>, deletes: seq<Name>)
    requires Told(before, after, names, creates, updates) && forall name | name in after :: name in names
    requires ListsKeys(deletes, Deleted(before, after))
    ensures Reports(creates, updates, deletes, before, after, Changed(before, after))
  {
    assert Created(before, after) * names == Created(before, after);
    assert Changed(before, after) * names == Changed(before, after);
  }

  method DiffUsers(before: map<Name, User>, after: map<Name, User>)
    returns (creates: seq<(Name, User)>, updates: seq<(Name, User)>, deletes: seq<Name>)
    requires forall name | name in after :: after[name].username == name
    ensures Reports(creates, updates, deletes, before, after, Changed(before, after))
    ensures deletes == Sorted(Deleted(before, after))
  {
    creates, updates := [], [];
    var todo := after.Keys;
    ghost var names := {};
    while exists name :: name in todo
      invariant forall name | name in todo :: name in after && name !in names
      invariant forall name | name in after :: name in todo || name in names
      invariant Told(before, after, names, creates, updates)
      decreases |todo|
    {
      var name :| name in todo;
      ToldOneMore(before, after, names, name, creates, updates);
      if name !in before {
        creates := creates + [(after[name].username, after[name])];
      } else if before[name] != after[name] {
        updates := updates + [(after[name].username, after[name])];
      }
      todo, names := todo - {name}, names + {name};
    }
    deletes := SortedDifference(before.Keys, after.Keys);
    ListsElements(deletes);
    ToldAll(before, after, names, creates, updates, deletes);
  }

  lemma ListsElements(list: seq<Name>)
    requires NoDuplicates(list)
    ensures ListsKeys(list, Elements(list))
  {
  }

  lemma GidsDeleted(before: map<Name, Group>, after: map<Name, Group>)
    ensures Deleted(Gids(before), Gids(after)) == Deleted(before, after)
  {
    assert Gids(before).Keys == before.Keys && Gids(after).Keys == after.Keys;
  }

  method DiffGroups(before: map<Name, Group>, after: map<Name, Group>)
    returns (creates: seq<(Name, int)>, updates: seq<(Name, int)>, deletes: seq<Name>,
             joined: map<Name, seq<Name>>, left: map<Name, seq<Name>>)
    requires forall name | name in after :: after[name].name == name
    ensures Reports(creates, updates, deletes, Gids(before), Gids(after), Changed(Gids(before), Gids(after)))
    ensures deletes == Sorted(Deleted(before, after))
    ensures forall g | g in after :: TellsMembers(before, after, g, joined, left)
    ensures NoIdleEntries(joined, after) && NoIdleEntries(left, after)
  {
    creates, updates, joined, left := [], [], map[], map[];
    ghost var was, now := Gids(before), Gids(after);
    var todo := after.Keys;
    ghost var names := {};
    while exists name :: name in todo
      invariant forall name | name in todo :: name in after && name !in names
      invariant forall name | name in after :: name in todo || name in names
      invariant Told(was, now, names, creates, updates)
      invariant MembersTold(before, after, names, joined, left)
      decreases |todo|
    {
      var name :| name in todo;
      ToldOneMore(was, now, names, name, creates, updates);
      if name !in before {
        creates := creates + [(after[name].name, after[name].gid)];
      } else if before[name].gid != after[name].gid {
        updates := updates + [(after[name].name, after[name].gid)];
      }
      joined, left := DiffMembers(before, after, names, name, joined, left);
      todo, names := todo - {name}, names + {name};
    }
    deletes := SortedDifference(before.Keys, after.Keys);
    ListsElements(deletes);
    GidsDeleted(before, after);
    ToldAll(was, now, names, creates, updates, deletes);
  }

  /** The membership part tells about these groups, and no others. */
  ghost predicate MembersTold(before: map<Name, Group>, after: map<Name, Group>, told: set<Name>,
                              joined: map<Name, seq<Name>>, left: map<Name, seq<Name>>) {
    && (forall g | g in told :: TellsMembers(before, after, g, joined, left))
    && (forall g | g in joined :: g in told)
    && (forall g | g in left :: g in told)
    && NoIdleEntries(joined, after) && NoIdleEntries(left, after)
  }

  lemma MembersToldOneMore(before: map<Name, Group>, after: map<Name, Group>, told: set<Name>, name: Name,
                           joined: map<Name, seq<Name>>, left: map<Name, seq<Name>>,
                           joined': map<Name, seq<Name>>, left': map<Name, seq<Name>>)
    requires MembersTold(before, after, told, joined, left) && name !in told
    requires TellsMembers(before, after, name, joined', left')
    requires forall g | g != name :: Listed(joined', g) == Listed(joined, g) && Listed(left', g) == Listed(left, g)
    requires forall g | g != name :: (g in joined' <==> g in joined) && (g in left' <==> g in left)
    requires NoIdleEntries(joined', after) && NoIdleEntries(left', after)
    ensures MembersTold(before, after, told + {name}, joined', left')
  {
    forall g | g in told ensures TellsMembers(before, after, g, joined', left') {
      assert TellsMembers(before, after, g, joined, left);
    }
  }

  /** The membership part for one group. */
  method DiffMembers(before: map<Name, Group>, after: map<Name, Group>, ghost told: set<Name>, name: Name,
                     joined: map<Name, seq<Name>>, left: map<Name, seq<Name>>)
    returns (joined': map<Name, seq<Name>>, left': map<Name, seq<Name>>)
    requires name in after && name !in told && MembersTold(before, after, told, joined, left)
    ensures MembersTold(before, after, told + {name}, joined', left')
  {
    joined', left' := joined, left;
    if name !in before {
      NotedIsListed(joined, after, name, after[name].members);
      if |after[name].members| > 0 { joined' := joined[name := after[name].members]; }
    } else {
      var oldSet, newSet := ToSet(before[name].members), ToSet(after[name].members);
      var added := SortedDifference(newSet, oldSet);
      var removed := SortedDifference(oldSet, newSet);
      NotedIsListed(joined, after, name, added);
      NotedIsListed(left, after, name, removed);
      if |added| > 0 { joined' := joined[name := added]; }
      if |removed| > 0 { left' := left[name := removed]; }
    }
    MembersToldOneMore(before, after, told, name, joined, left, joined', left');
  }

  function ToSet(names: seq<Name>): (s: set<Name>)
    ensures s == Elements(names)
  {
    set m | m in names
  }

  function Noted(lists: map<Name, seq<Name>>, g: Name, names: seq<Name>): map<Name, seq<Name>> {
    if |names| > 0 then lists[g := names] else lists
  }

  lemma NotedIsListed(lists: map<Name, seq<Name>>, after: map<Name, Group>, name: Name, names: seq<Name>)
    requires name in after && name !in lists && NoIdleEntries(lists, after)
    ensures
      var noted := Noted(lists, name, names);
      && Listed(noted, name) == Elements(names)
      && (forall g | g != name :: Listed(noted, g) == Listed(lists, g) && (g in noted <==> g in lists))
      && NoIdleEntries(noted, after)
  {
    if |names| > 0 { assert name in Noted(lists, name, names); }
  }

  /** `buildUsersDiff`. */
  method BuildUsersDiff(before: Tables, after: Tables) returns (msg: Option<Message>)
    requires WellKeyed(after)
    ensures msg.None? <==> View(before) == View(after)
    ensures msg.Some? ==> Tells(msg.value, before, after)
  {
    var createUsers, updateUsers, deleteUsers := DiffUsers(before.users, after.users);
    var createGroups, updateGroups, deleteGroups, joined, left := DiffGroups(before.groups, after.groups);
    var m := Message(createUsers, updateUsers, deleteUsers, createGroups, updateGroups, deleteGroups, joined, left);
    SilentIffUnchanged(m, before, after);
    msg := if m == EMPTY then None else Some(m);
  }

  /** One tick of the monitor: the databases could not be read in full, or their lines. */
  datatype Tick = Unreadable | Read(users: seq<User>, groups: seq<Group>)

  /** The tables as last read; a tick without them changes nothing. */
  function LastTables(saved: Tables, ticks: seq<Tick>): Tables {
    if ticks == [] then saved
    else if ticks[|ticks| - 1].Read? then Parsed(ticks[|ticks| - 1].users, ticks[|ticks| - 1].groups)
    else LastTables(saved, ticks[..|ticks| - 1])
  }

  /** Tick `j` is the last one that could be read. */
  predicate LastReadable(ticks: seq<Tick>, j: int) {
    0 <= j < |ticks| && ticks[j].Read? && forall k | j < k < |ticks| :: ticks[k].Unreadable?
  }

  lemma {:induction false} LastTablesRead(saved: Tables, ticks: seq<Tick>)
    ensures (forall k | 0 <= k < |ticks| :: ticks[k].Unreadable?) ==> LastTables(saved, ticks) == saved
    ensures forall j | LastReadable(ticks, j) :: LastTables(saved, ticks) == Parsed(ticks[j].users, ticks[j].groups)
  {
    hide Parsed;
    if ticks != [] {
      var n := |ticks| - 1;
      LastTablesRead(saved, ticks[..n]);
      forall j | LastReadable(ticks, j) ensures LastTables(saved, ticks) == Parsed(ticks[j].users, ticks[j].groups) {
        if j < n { assert LastReadable(ticks[..n], j); }
      }
    }
  }

  /**
   The monitor over any run of ticks: the messages turn the server's mirror into the
   accounts, groups and memberships of the last databases that could be read.
   */
  method Run(saved: Tables, ticks: seq<Tick>) returns (sent: seq<Message>)
    ensures AppliedAll(View(saved), sent) == View(LastTables(saved, ticks))
    ensures (forall k | 0 <= k < |ticks| :: ticks[k].Unreadable?) ==> AppliedAll(View(saved), sent) == View(saved)
    ensures forall j | LastReadable(ticks, j) :: MirrorShows(AppliedAll(View(saved), sent), ticks[j].users, ticks[j].groups)
  {
    hide View, Applied, Tells, Parsed, WellKeyed, MirrorShows;
    var tables := saved;
    sent := [];
    for i := 0 to |ticks|
      invariant tables == LastTables(saved, ticks[..i])
      invariant AppliedAll(View(saved), sent) == View(tables)
    {
      assert ticks[..i + 1][..i] == ticks[..i];
      if ticks[i].Read? {
        var newest := Parsed(ticks[i].users, ticks[i].groups);
        ParsedWellKeyed(ticks[i].users, ticks[i].groups);
        var msg := BuildUsersDiff(tables, newest);
        if msg.Some? {
          MirrorFollows(msg.value, tables, newest);
          sent := sent + [msg.value];
          assert sent[..|sent| - 1] + [msg.value] == sent;
        }
        tables := newest;
      }
    }
    assert ticks[..|ticks|] == ticks;
    LastTablesRead(saved, ticks);
    forall j | LastReadable(ticks, j) ensures MirrorShows(AppliedAll(View(saved), sent), ticks[j].users, ticks[j].groups) {
      ViewShows(ticks[j].users, ticks[j].groups);
    }
  }
}
