/** The process table, reported as differences; two maps swap roles on every tick. */
module ActiveProcessInfo {
  import opened Common
  import opened Replica

  datatype ProcessInfo = ProcessInfo(
    pid: int, name: string, state: string, uid: int, gid: int, vmSize: int, startTime: int, percentCPU: real)

  type Table = map<int, ProcessInfo>

  /** A map on the heap. */
  class ProcessTable {
    var contents: Table

    constructor ()
      ensures contents == map[]
    {
      contents := map[];
    }
  }

  /** One entry of /proc: not a process, a process gone before it could be read, or one that was read. */
  datatype Entry = NotAProcess | Gone | Process(info: ProcessInfo)

  datatype Reading = NoBootTime | NoUptime | NoListing | Listed(entries: seq<Entry>)

  /** A process is told by its pid and the rest of its record. */
  datatype Message = Message(killAll: bool, adds: seq<(int, ProcessInfo)>, updates: seq<(int, ProcessInfo)>, kills: seq<int>)

  datatype Outcome = Failed | Nothing | Built(msg: Message)

  /** The live processes of a listing, by pid. */
  function Collected(entries: seq<Entry>): (table: Table)
    ensures WellKeyed(table)
  {
    if entries == [] then map[]
    else
      var table, last := Collected(entries[..|entries| - 1]), entries[|entries| - 1];
      if last.Process? && last.info.state != "X" then table[last.info.pid := last.info] else table
  }

  /** Entry `i` is a live process with this pid, and no later entry is. */
  ghost predicate LastLive(entries: seq<Entry>, pid: int, i: nat) {
    && i < |entries| && Live(entries[i], pid)
    && forall k | i < k < |entries| :: !Live(entries[k], pid)
  }

  /** The entry could be read, and its process is not dead. */
  predicate Live(entry: Entry, pid: int) { entry.Process? && entry.info.pid == pid && entry.info.state != "X" }

  /** The table has the pids of the live processes in the listing, each with its last record. */
  ghost predicate Shows(table: Table, entries: seq<Entry>) {
    && (forall pid | pid in table :: exists i: nat :: LastLive(entries, pid, i) && table[pid] == entries[i].info)
    && (forall i, pid | 0 <= i < |entries| && Live(entries[i], pid) :: pid in table)
  }

  lemma {:induction false} CollectedShows(entries: seq<Entry>)
    ensures Shows(Collected(entries), entries)
  {
    if entries != [] {
      var n := |entries| - 1;
      var earlier, last := entries[..n], entries[n];
      CollectedShows(earlier);
      assert Collected(entries) == Entered(Collected(earlier), last);
      ShowsOneMore(Collected(earlier), earlier, last);
      assert entries == earlier + [last];
    }
  }

  function Entered(table: Table, entry: Entry): Table {
    if entry.Process? && Live(entry, entry.info.pid) then table[entry.info.pid := entry.info] else table
  }

  lemma ShowsOneMore(table: Table, entries: seq<Entry>, last: Entry)
    requires Shows(table, entries)
    ensures Shows(Entered(table, last), entries + [last])
  {
    var more, all := Entered(table, last), entries + [last];
    forall pid | pid in more ensures exists i: nat :: LastLive(all, pid, i) && more[pid] == all[i].info {
      if Live(last, pid) {
        assert LastLive(all, pid, |entries|);
      } else {
        var i: nat :| LastLive(entries, pid, i) && table[pid] == entries[i].info;
        assert LastLive(all, pid, i);
      }
    }
    forall i, pid | 0 <= i < |all| && Live(all[i], pid) ensures pid in more {
      if i < |entries| { assert Live(entries[i], pid); }
    }
  }

  ghost predicate WellKeyed(table: Table) {
    forall pid | pid in table :: table[pid].pid == pid
  }

  /** Worth telling the server about: anything but the pid, which is the key, and the load, which always moves. */
  predicate ProcessChanged(before: ProcessInfo, after: ProcessInfo) {
    || before.name != after.name
    || before.state != after.state
    || before.vmSize != after.vmSize
    || before.uid != after.uid
    || before.gid != after.gid
    || before.startTime != after.startTime
  }

  /** The same processes, apart from their load. */
  ghost predicate SameButLoad(before: Table, after: Table) {
    && (forall pid | pid in before :: pid in after)
    && (forall pid | pid in after :: pid in before && !ProcessChanged(before[pid], after[pid]))
  }

  ghost function Updated(before: Table, after: Table): set<int> {
    set pid | pid in before && pid in after && ProcessChanged(before[pid], after[pid])
  }

  /** `msg` tells exactly what changed. */
  ghost predicate Differs(msg: Message, before: Table, after: Table) {
    !msg.killAll && Reports(msg.adds, msg.updates, msg.kills, before, after, Updated(before, after))
  }

  ghost predicate Introduces(msg: Message, after: Table) {
    msg.killAll && Lists(msg.adds, after, after.Keys) && msg.updates == [] && msg.kills == []
  }

  // The server's side.

  /** What the server's table becomes. */
  function Mirrored(server: Table, msg: Message): Table {
    PerformAll(if msg.killAll then map[] else server, Operations(msg.adds, msg.updates, msg.kills))
  }

  function MirroredAll(server: Table, msgs: seq<Message>): Table {
    if msgs == [] then server
    else Mirrored(MirroredAll(server, msgs[..|msgs| - 1]), msgs[|msgs| - 1])
  }

  /** The same pids, and the same about each but the load. */
  ghost predicate Agrees(server: Table, table: Table) {
    && (forall pid | pid in server :: pid in table)
    && (forall pid | pid in table :: pid in server)
    && forall pid | pid in table :: server[pid].(percentCPU := table[pid].percentCPU) == table[pid]
  }

  /** One report carries the server's table from the last reported table to the new one. */
  lemma MirrorFollows(server: Table, msg: Message, before: Table, after: Table)
    requires Agrees(server, before) && Differs(msg, before, after) && WellKeyed(before) && WellKeyed(after)
    ensures Agrees(Mirrored(server, msg), after)
  {
    var mirror := Mirrored(server, msg);
    forall pid: int
      ensures pid in mirror <==> pid in after
      ensures pid in after ==> mirror[pid].(percentCPU := after[pid].percentCPU) == after[pid]
    {
      ReportAt(server, msg.adds, msg.updates, msg.kills, before, after, Updated(before, after), pid);
    }
  }

  /** The same about a pid but the load. */
  ghost predicate AgreesAt(server: Table, table: Table, pid: int) {
    && (pid in server <==> pid in table)
    && (pid in table ==> server[pid].(percentCPU := table[pid].percentCPU) == table[pid])
  }

  /**
   A difference that never arrives, because the queue bound or the type filter dropped it:
   the next one puts the server's table right exactly if it mentions every process about
   which the server is behind.
   */
  lemma DroppedDifference(server: Table, before: Table, after: Table, msg: Message)
    requires Differs(msg, before, after) && WellKeyed(before) && WellKeyed(after)
    ensures Agrees(Mirrored(server, msg), after)
       <==> forall pid :: Mentions(before, after, Updated(before, after), pid) || AgreesAt(server, after, pid)
  {
    var mirror := Mirrored(server, msg);
    forall pid ensures AgreesAt(mirror, after, pid) <==>
      Mentions(before, after, Updated(before, after), pid) || AgreesAt(server, after, pid)
    {
      ReportAt(server, msg.adds, msg.updates, msg.kills, before, after, Updated(before, after), pid);
    }
    AgreesEverywhere(mirror, after);
  }

  lemma AgreesEverywhere(server: Table, table: Table)
    ensures Agrees(server, table) <==> forall pid :: AgreesAt(server, table, pid)
  {
    if forall pid :: AgreesAt(server, table, pid) {
      forall pid | pid in server ensures pid in table { assert AgreesAt(server, table, pid); }
      forall pid | pid in table
        ensures pid in server && server[pid].(percentCPU := table[pid].percentCPU) == table[pid]
      {
        assert AgreesAt(server, table, pid);
      }
    }
  }

  /** A difference in plain terms: which processes it adds, updates and kills. */
  lemma DifferenceTells(msg: Message, before: Table, after: Table)
    requires Differs(msg, before, after)
    ensures !msg.killAll
    ensures forall pid, info :: (pid, info) in msg.adds <==> pid !in before && pid in after && info == after[pid]
    ensures forall pid, info :: (pid, info) in msg.updates <==>
      && pid in before && pid in after && info == after[pid]
      && (|| before[pid].name != info.name || before[pid].state != info.state || before[pid].vmSize != info.vmSize
          || before[pid].uid != info.uid || before[pid].gid != info.gid || before[pid].startTime != info.startTime)
    ensures forall pid :: pid in msg.kills <==> pid in before && pid !in after
  {
    hide Lists, ListsKeys;
    ReportTells(msg.adds, msg.updates, msg.kills, before, after, Updated(before, after));
  }

  /** And the introduction: every process, after all others are forgotten. */
  lemma IntroductionTells(msg: Message, after: Table)
    requires Introduces(msg, after)
    ensures msg.killAll && msg.updates == [] && msg.kills == []
    ensures forall pid, info :: (pid, info) in msg.adds <==> pid in after && info == after[pid]
  {
    hide Lists;
    ListsPairs(msg.adds, after, after.Keys);
  }

  /** The first message makes the server forget whatever it held. */
  lemma MirrorStarts(server: Table, msg: Message, after: Table)
    requires Introduces(msg, after) && WellKeyed(after)
    ensures Agrees(Mirrored(server, msg), after)
  {
    assert Created(map[], after) == after.Keys;
    assert Updated(map[], after) == {} && Deleted(map[], after) == {};
    MirrorFollows(map[], msg.(killAll := false), map[], after);
  }

  /** Saying nothing is right exactly when nothing but the load has changed. */
  lemma SilenceKeepsMirror(server: Table, before: Table, after: Table)
    requires Agrees(server, before) && WellKeyed(before) && WellKeyed(after)
    ensures Agrees(server, after) <==> SameButLoad(before, after)
  {
    if Agrees(server, after) {
      forall pid | pid in after ensures !ProcessChanged(before[pid], after[pid]) {
        assert !ProcessChanged(server[pid], before[pid]) && !ProcessChanged(server[pid], after[pid]);
      }
    } else if SameButLoad(before, after) {
      forall pid | pid in after ensures server[pid].(percentCPU := after[pid].percentCPU) == after[pid] {
        assert !ProcessChanged(before[pid], after[pid]);
      }
    }
  }

  // The plugin.

  /** The values of a table, in the arbitrary order of a map traversal. */
  method Values(table: Table) returns (infos: seq<(int, ProcessInfo)>)
    requires WellKeyed(table)
    ensures Lists(infos, table, table.Keys)
  {
    infos := [];
    var todo := table.Keys;
    while exists pid :: pid in todo
      decreases |todo|
      invariant todo <= table.Keys
      invariant Lists(infos, table, table.Keys - todo)
    {
      var pid :| pid in todo;
      todo := todo - {pid};
      infos := infos + [(table[pid].pid, table[pid])];
    }
    assert table.Keys - {} == table.Keys;
  }

  /** The part of `table` with these pids. */
  ghost predicate Selects(part: Table, table: Table, pids: set<int>) {
    && (part != map[] ==> exists pid :: pid in part)
    && (forall pid | pid in part :: pid in pids && pid in table && part[pid] == table[pid])
    && (forall pid | pid in pids :: pid in part)
  }

  lemma SelectsNone(table: Table, pids: set<int>)
    requires pids <= table.Keys
    ensures Selects(map[], table, pids - table.Keys)
  {
  }

  /** One more pid has been looked at. */
  lemma SelectsOneMore(part: Table, table: Table, pids: set<int>, todo: set<int>, pid: int)
    requires pid in todo && Selects(part, table, pids - todo) && pid in table
    ensures
      if pid in pids then Selects(part[pid := table[pid]], table, pids - (todo - {pid}))
      else Selects(part, table, pids - (todo - {pid}))
  {
    if pid in pids { assert pid in part[pid := table[pid]]; }
  }

  lemma ListsOneMoreKey(list: seq<int>, pids: set<int>, todo: set<int>, pid: int)
    requires pid in todo && ListsKeys(list, pids - todo)
    ensures ListsKeys(if pid in pids then list + [pid] else list, pids - (todo - {pid}))
  {
    var longer := if pid in pids then list + [pid] else list;
    forall k | k in pids - (todo - {pid}) ensures k in longer {
      if k != pid { assert k in list; }
    }
  }

  /** The first loop of `DiffProcesses`. */
  method NewAndUpdated(before: Table, current: Table) returns (creates: Table, updates: Table)
    ensures Selects(creates, current, Created(before, current))
    ensures Selects(updates, current, Updated(before, current))
  {
    creates, updates := map[], map[];
    var todo := current.Keys;
    ghost var created, changed := Created(before, current), Updated(before, current);
    SelectsNone(current, created);
    SelectsNone(current, changed);
    assert created - {} == created && changed - {} == changed;
    hide Selects;
    while exists pid :: pid in todo
      decreases |todo|
      invariant todo <= current.Keys
      invariant Selects(creates, current, created - todo)
      invariant Selects(updates, current, changed - todo)
    {
      var pid :| pid in todo;
      SelectsOneMore(creates, current, created, todo, pid);
      SelectsOneMore(updates, current, changed, todo, pid);
      todo := todo - {pid};
      if pid !in before {
        creates := creates[pid := current[pid]];
      } else if ProcessChanged(before[pid], current[pid]) {
        updates := updates[pid := current[pid]];
      }
    }
    assert todo == {};
  }

  /** The second loop of `DiffProcesses`. */
  method DeletedPids(before: Table, current: Table) returns (deletes: seq<int>)
    ensures ListsKeys(deletes, Deleted(before, current))
  {
    deletes := [];
    var todo := before.Keys;
    ghost var gone := Deleted(before, current);
    assert gone - {} == gone && gone - todo == {};
    while exists pid :: pid in todo
      decreases |todo|
      invariant todo <= before.Keys
      invariant ListsKeys(deletes, gone - todo)
    {
      var pid :| pid in todo;
      ListsOneMoreKey(deletes, gone, todo, pid);
      todo := todo - {pid};
      if pid !in current { deletes := deletes + [pid]; }
    }
    assert todo == {};
  }

  method DiffProcesses(before: Table, current: Table) returns (creates: Table, updates: Table, deletes: seq<int>)
    ensures Selects(creates, current, Created(before, current))
    ensures Selects(updates, current, Updated(before, current))
    ensures ListsKeys(deletes, Deleted(before, current))
  {
    creates, updates := NewAndUpdated(before, current);
    deletes := DeletedPids(before, current);
  }

  lemma NothingSelected(before: Table, current: Table)
    requires forall pid :: pid !in Created(before, current)
    requires forall pid :: pid !in Updated(before, current)
    requires forall pid :: pid !in Deleted(before, current)
    ensures SameButLoad(before, current)
  {
    forall pid | pid in before ensures pid in current {
      assert pid !in Deleted(before, current);
    }
    forall pid | pid in current ensures pid in before && !ProcessChanged(before[pid], current[pid]) {
      assert pid !in Created(before, current) && pid !in Updated(before, current);
    }
  }

  /** The message that tells the differences, if there are any. */
  method DiffMessage(before: Table, current: Table) returns (outcome: Outcome)
    requires WellKeyed(current)
    ensures match outcome
            case Failed => false
            case Nothing => SameButLoad(before, current)
            case Built(msg) => Differs(msg, before, current) && !SameButLoad(before, current)
  {
    var creates, updates, deletes := DiffProcesses(before, current);
    if creates == map[] && updates == map[] && deletes == [] {
      NothingSelected(before, current);
      return Nothing;
    }
    assert !SameButLoad(before, current) by {
      if pid :| pid in creates {
        assert pid in Created(before, current);
      } else if pid :| pid in updates {
        assert pid in Updated(before, current);
      } else {
        var gone := deletes[0];
        assert gone in before && gone !in current;
      }
    }
    var adds := Values(creates);
    var upds := Values(updates);
    assert Lists(adds, current, Created(before, current));
    assert Lists(upds, current, Updated(before, current));
    outcome := Built(Message(false, adds, upds, deletes));
  }

  class Plugin {
    var initialized: bool
    var previous: ProcessTable?
    var scratch: ProcessTable?

    /** The two tables never alias, and there is a previous one exactly after the first successful tick. */
    ghost predicate Valid()
      reads this, previous
    {
      && (previous == null <==> !initialized)
      && (previous != null ==> previous != scratch && WellKeyed(previous.contents))
    }

    /** The last reported table. */
    ghost function Last(): Option<Table>
      reads this, previous
    {
      if previous == null then None else Some(previous.contents)
    }

    constructor ()
      ensures Valid() && Last() == None && scratch == null
    {
      initialized, previous, scratch := false, null, null;
    }

    method ReadAllProcessesInto(dst: ProcessTable, entries: seq<Entry>)
      requires dst.contents == map[]
      modifies dst
      ensures Shows(dst.contents, entries)
      ensures dst.contents == Collected(entries)
    {
      CollectedShows(entries);
      hide Shows;
      for i := 0 to |entries|
        invariant dst.contents == Collected(entries[..i])
      {
        assert entries[..i + 1][..i] == entries[..i];
        match entries[i] {
          case NotAProcess =>
          case Gone =>
          case Process(info) =>
            if info.state != "X" { dst.contents := dst.contents[info.pid := info]; }
        }
      }
      assert entries[..|entries|] == entries;
    }

    /**
     One tick. A failed read reports nothing and keeps the last table. Otherwise the two
     tables change places, and the message is an introduction, the changes, or nothing.
     */
    method BuildMessage(reading: Reading) returns (outcome: Outcome)
      requires Valid()
      modifies this, scratch
      ensures Valid()
      ensures reading.Listed? ==> (previous == old(scratch) || fresh(previous)) && scratch == old(previous)
      ensures !reading.Listed? ==> previous == old(previous) && (scratch == old(scratch) || fresh(scratch))
      ensures !reading.Listed? ==> Last() == old(Last()) && outcome == Failed
      ensures reading.Listed? ==>
        var before, after := old(Last()), Collected(reading.entries);
        && Last() == Some(after)
        && match outcome
           case Failed => false
           case Nothing => before.Some? && SameButLoad(before.value, after)
           case Built(msg) =>
             if before.None? then Introduces(msg, after)
             else Differs(msg, before.value, after) && !SameButLoad(before.value, after)
    {
      if reading.NoBootTime? || reading.NoUptime? { return Failed; }
      if scratch == null {
        scratch := new ProcessTable();
      } else {
        scratch.contents := map[];
      }
      if reading.NoListing? { return Failed; }
      ReadAllProcessesInto(scratch, reading.entries);
      var current := scratch.contents;
      if !initialized {
        var adds := Values(current);
        initialized := true;
        previous, scratch := scratch, previous;
        return Built(Message(true, adds, [], []));
      }
      outcome := DiffMessage(previous.contents, current);
      previous, scratch := scratch, previous;
    }
  }

  /** The table of the last tick that could be read. */
  function LastRead(readings: seq<Reading>): Option<Table> {
    if readings == [] then None
    else if readings[|readings| - 1].Listed? then Some(Collected(readings[|readings| - 1].entries))
    else LastRead(readings[..|readings| - 1])
  }

  /** Reading `j` is the last one whose listing could be read. */
  predicate LastListed(readings: seq<Reading>, j: int) {
    0 <= j < |readings| && readings[j].Listed? && forall k | j < k < |readings| :: !readings[k].Listed?
  }

  /** The pids of the live processes in the listing, with the last record of each but for the load. */
  ghost predicate MirrorShows(mirror: Table, entries: seq<Entry>) {
    && (forall pid | pid in mirror :: exists i: nat ::
          LastLive(entries, pid, i) && mirror[pid].(percentCPU := entries[i].info.percentCPU) == entries[i].info)
    && (forall i, pid | 0 <= i < |entries| && Live(entries[i], pid) :: pid in mirror)
  }

  lemma AgreesShows(mirror: Table, table: Table, entries: seq<Entry>)
    requires Agrees(mirror, table) && Shows(table, entries)
    ensures MirrorShows(mirror, entries)
  {
    forall pid | pid in mirror
      ensures exists i: nat ::
        LastLive(entries, pid, i) && mirror[pid].(percentCPU := entries[i].info.percentCPU) == entries[i].info
    {
      var i: nat :| LastLive(entries, pid, i) && table[pid] == entries[i].info;
    }
  }

  lemma {:induction false} LastReadListed(readings: seq<Reading>)
    ensures (forall k | 0 <= k < |readings| :: !readings[k].Listed?) ==> LastRead(readings).None?
    ensures forall j | LastListed(readings, j) :: LastRead(readings) == Some(Collected(readings[j].entries))
  {
    hide Collected;
    if readings != [] {
      var n := |readings| - 1;
      LastReadListed(readings[..n]);
      forall j | LastListed(readings, j) ensures LastRead(readings) == Some(Collected(readings[j].entries)) {
        if j < n { assert LastListed(readings[..n], j); }
      }
    }
  }

  /**
   The plugin over any run of ticks. Whatever the server held before, folding the messages
   sent gives the live processes of the last listing that could be read, up to their load.
   */
  method Run(readings: seq<Reading>, ghost stale: Table) returns (sent: seq<Message>)
    ensures (forall k | 0 <= k < |readings| :: !readings[k].Listed?) ==> sent == []
    ensures forall j | LastListed(readings, j) :: MirrorShows(MirroredAll(stale, sent), readings[j].entries)
  {
    hide Agrees, Differs, Introduces, SameButLoad, WellKeyed, Mirrored, Collected, Shows, MirrorShows;
    var plugin := new Plugin();
    sent := [];
    for i := 0 to |readings|
      invariant fresh(plugin) && plugin.Valid() && (plugin.scratch != null ==> fresh(plugin.scratch))
      invariant plugin.previous != null ==> fresh(plugin.previous)
      invariant plugin.Last() == LastRead(readings[..i])
      invariant plugin.Last().None? ==> sent == []
      invariant plugin.Last().Some? ==> Agrees(MirroredAll(stale, sent), plugin.Last().value)
    {
      ghost var before, server := plugin.Last(), MirroredAll(stale, sent);
      var outcome := plugin.BuildMessage(readings[i]);
      assert readings[..i + 1][..i] == readings[..i];
      match outcome {
        case Failed =>
        case Nothing => SilenceKeepsMirror(server, before.value, plugin.Last().value);
        case Built(msg) =>
          sent := sent + [msg];
          assert sent[..|sent| - 1] + [msg] == sent;
          if before.None? {
            MirrorStarts(server, msg, plugin.Last().value);
          } else {
            MirrorFollows(server, msg, before.value, plugin.Last().value);
          }
      }
    }
    assert readings[..|readings|] == readings;
    LastReadListed(readings);
    forall j | LastListed(readings, j) ensures MirrorShows(MirroredAll(stale, sent), readings[j].entries) {
      CollectedShows(readings[j].entries);
      AgreesShows(MirroredAll(stale, sent), plugin.Last().value, readings[j].entries);
    }
  }
}
