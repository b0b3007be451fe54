/** Durable client state: an atomically replaced file, its backup, and the saves that share it. */
module Persist {
  import opened Common
  import opened Queue

  /** One plugin's saved JSON text. */
  type Raw = Bytes

  datatype State = State(
    secureID: string,
    insecureID: string,
    serverUUID: string,
    outboundSequence: int,
    nextExpectedFromServer: int,
    exchangeToken: string,
    acceptedTypes: seq<Kind>,
    acceptedTypesHash: Bytes,
    pluginState: Option<map<string, Raw>>)  // None is Go's nil map
  {
    function Plugins(): map<string, Raw> {
      if pluginState.Some? then pluginState.value else map[]
    }

    /** The state as it reads back from JSON: the plugin map is never nil. */
    function Loaded(): State { this.(pluginState := Some(Plugins())) }
  }

  // What a state holds, in plain terms.

  /** The exchange's own fields. */
  predicate SameExchangeFields(a: State, b: State) {
    && a.secureID == b.secureID && a.insecureID == b.insecureID && a.serverUUID == b.serverUUID
    && a.outboundSequence == b.outboundSequence && a.nextExpectedFromServer == b.nextExpectedFromServer
    && a.exchangeToken == b.exchangeToken
    && a.acceptedTypes == b.acceptedTypes && a.acceptedTypesHash == b.acceptedTypesHash
  }

  /** These are the plugin entries; a nil map has none. */
  predicate HasPlugins(s: State, plugins: map<string, Raw>) {
    if s.pluginState.Some? then s.pluginState.value == plugins else plugins == map[]
  }

  /** `read` is what reading `written` back must give: the same contents, with a map that is not nil. */
  predicate ReadsBack(read: State, written: State) {
    SameExchangeFields(read, written) && read.pluginState.Some? && HasPlugins(written, read.pluginState.value)
  }

  lemma LoadedReads(s: State)
    ensures ReadsBack(s.Loaded(), s)
  {
  }

  /** The exchange fields and plugin entries on disk; no file stands for an unregistered client that has sent nothing. */
  predicate FileHolds(file: File, fields: State, plugins: map<string, Raw>) {
    match file
    case Whole(s) => SameExchangeFields(s, fields) && HasPlugins(s, plugins)
    case Missing => SameExchangeFields(fields, State("", "", "", 0, 0, "", [], [], None)) && plugins == map[]
    case Damaged => false
  }

  lemma FileHoldsReads(d: Disk, fields: State, plugins: map<string, Raw>)
    requires FileHolds(d.main, fields, plugins)
    ensures
      var read := LoadLocked(d);
      read.Some? && SameExchangeFields(read.value, fields) && read.value.pluginState == Some(plugins)
  {
  }

  const ZERO_STATE := State("", "", "", 0, 0, "", [], [], Some(map[]))

  /** A state file holds a whole encoded state, or bytes that do not decode: no proper prefix of a JSON object decodes. */
  datatype File = Missing | Whole(state: State) | Damaged

  /** `path`, `path.old`, and the temporary files not yet renamed or removed. */
  datatype Disk = Disk(main: File, backup: File, temps: seq<File>)

  /** The step of a save that reports an I/O error. A failed backup may or may not have truncated the old backup. */
  datatype Fault = NoFault | CreateFault | WriteFault | BackupFault(truncated: bool) | RenameFault

  /** `loadLocked`. */
  function LoadLocked(d: Disk): Option<State> {
    match d.main
    case Missing => Some(ZERO_STATE)
    case Whole(s) => Some(s.Loaded())
    case Damaged => None
  }

  /** `Load`: the backup is read only when the state file does not decode. */
  function Load(d: Disk): Option<State> {
    if LoadLocked(d).Some? then LoadLocked(d)
    else if d.backup.Whole? then Some(d.backup.state.Loaded())
    else None
  }

  /** The temporary file, from its creation to the rename. */
  function TempWrites(d: Disk, s: State): seq<Disk> {
    [d.(temps := d.temps + [Damaged]), d.(temps := d.temps + [Whole(s)])]
  }

  /** Overwriting the backup in place: truncated first, complete later. */
  function BackupWrites(d: Disk, fault: Fault): seq<Disk> {
    if d.main.Missing? then []
    else if fault.BackupFault? then (if fault.truncated then [d.(backup := Damaged)] else [])
    else [d.(backup := Damaged), d.(backup := d.main)]
  }

  function Last(d: Disk, writes: seq<Disk>): Disk { if writes == [] then d else writes[|writes| - 1] }

  /** Every state of the disk, in order, that `saveLocked` passes through after leaving `d`. */
  function SaveTrace(d: Disk, s: State, fault: Fault): seq<Disk> {
    if fault.CreateFault? then []
    else
      var temp := TempWrites(d, s);
      if fault.WriteFault? then temp[..1] + [d]
      else
        var copies := BackupWrites(Last(d, temp), fault);
        var backedUp := Last(Last(d, temp), copies);
        temp + copies + [Disk(if fault.RenameFault? then d.main else Whole(s), backedUp.backup, d.temps)]
  }

  predicate SaveSucceeds(fault: Fault) { fault.NoFault? || fault.BackupFault? }

  /** The on-disk store. `trace` records each disk state that a crash could leave behind. */
  class Store {
    var disk: Disk
    ghost var trace: seq<Disk>

    constructor (d: Disk)
      ensures disk == d && trace == []
    {
      disk := d;
      trace := [];
    }

    method SetDisk(d: Disk)
      modifies this
      ensures disk == d && trace == old(trace) + [d]
    {
      disk := d;
      trace := trace + [d];
    }

    /** The part of `saveLocked` that copies the state file over the backup, in place. */
    method CopyToBackup(fault: Fault)
      modifies this
      ensures trace == old(trace) + BackupWrites(old(disk), fault)
      ensures disk == Last(old(disk), BackupWrites(old(disk), fault))
    {
      if !disk.main.Missing? {
        if !fault.BackupFault? || fault.truncated { SetDisk(disk.(backup := Damaged)); }
        if !fault.BackupFault? { SetDisk(disk.(backup := disk.main)); }
      }
    }

    /** `saveLocked`, one disk operation at a time; `fault` is the I/O error it meets, if any. */
    method SaveLocked(s: State, fault: Fault) returns (ok: bool)
      modifies this
      ensures trace == old(trace) + SaveTrace(old(disk), s, fault)
      ensures disk == Last(old(disk), SaveTrace(old(disk), s, fault))
      ensures ok == (fault.NoFault? || fault.BackupFault?)
      ensures disk.main == (if ok then Whole(s) else old(disk.main)) && disk.temps == old(disk.temps)
    {
      var before := disk;
      if fault.CreateFault? { return false; }
      SetDisk(disk.(temps := disk.temps + [Damaged]));
      if fault.WriteFault? {
        SetDisk(before);
        return false;
      }
      SetDisk(before.(temps := before.temps + [Whole(s)]));
      CopyToBackup(fault);
      SetDisk(Disk(if fault.RenameFault? then disk.main else Whole(s), disk.backup, before.temps));
      ok := !fault.RenameFault?;
    }

    /** `Update`: the backup is never consulted here. */
    method Update(f: State -> Option<State>, fault: Fault) returns (ok: bool)
      modifies this
      ensures disk == Last(old(disk), UpdateTrace(old(disk), f, fault))
      ensures trace == old(trace) + UpdateTrace(old(disk), f, fault)
      ensures ok == (Replacement(old(disk), f).Some? && SaveSucceeds(fault))
      ensures ok ==> Replacement(old(disk), f).Some? && disk.main == Whole(Replacement(old(disk), f).value)
      ensures ok ==> exists read, next ::
        && (forall fields, plugins | FileHolds(old(disk.main), fields, plugins) ::
              SameExchangeFields(read, fields) && read.pluginState == Some(plugins))
        && f(read) == Some(next) && disk.main == Whole(next)
      ensures !ok ==> disk.main == old(disk.main)
    {
      forall fields, plugins | FileHolds(disk.main, fields, plugins)
        ensures
          var read := LoadLocked(disk);
          read.Some? && SameExchangeFields(read.value, fields) && read.value.pluginState == Some(plugins)
      {
        FileHoldsReads(disk, fields, plugins);
      }
      hide FileHolds, SameExchangeFields, SaveTrace;
      var current := LoadLocked(disk);
      if current.None? { return false; }
      var next := f(current.value);
      if next.None? { return false; }
      ok := SaveLocked(next.value, fault);
    }

    /** The save at the end of `performExchange`; `merged` is what its own copy of the state has become. */
    method SaveExchange(memory: State, fault: Fault) returns (ok: bool, merged: State)
      modifies this
      ensures disk == Last(old(disk), UpdateTrace(old(disk), s => Some(ExchangeSaved(s, memory)), fault))
      ensures ok == (!old(disk).main.Damaged? && (fault.NoFault? || fault.BackupFault?))
      ensures ok ==> forall fields, plugins | FileHolds(old(disk.main), fields, plugins) ::
                Overlaid(disk.main, memory, plugins)
      ensures !ok ==> disk.main == old(disk.main)
      ensures old(disk).main.Damaged? ==> merged == memory
      ensures forall fields, plugins | FileHolds(old(disk.main), fields, plugins) :: Gains(merged, memory, plugins)
    {
      hide SaveTrace;
      var current := LoadLocked(disk);
      merged := if current.None? then memory else MemoryAfterSave(current.value, memory);
      ok := Update(s => Some(ExchangeSaved(s, memory)), fault);
      if ok {
        forall fields, plugins | FileHolds(old(disk.main), fields, plugins) ensures Overlaid(disk.main, memory, plugins) {
          FileHoldsReads(old(disk), fields, plugins);
          ExchangeOverlays(current.value, memory, plugins);
        }
      }
    }

    /** `SetPluginState`. */
    method SetPluginState(key: string, data: Raw, fault: Fault) returns (ok: bool)
      modifies this
      ensures disk == Last(old(disk), UpdateTrace(old(disk), s => Some(PluginSaved(s, key, data)), fault))
      ensures ok == (!old(disk).main.Damaged? && (fault.NoFault? || fault.BackupFault?))
      ensures ok ==> forall fields, plugins | FileHolds(old(disk.main), fields, plugins) ::
                FileHolds(disk.main, fields, plugins[key := data])
      ensures !ok ==> disk.main == old(disk.main)
    {
      hide SaveTrace;
      ok := Update(s => Some(PluginSaved(s, key, data)), fault);
    }
  }

  /** `after` is the entries of `memory` and those of `disk`, which win. */
  ghost predicate Joined(after: map<string, Raw>, memory: map<string, Raw>, disk: map<string, Raw>) {
    && (forall key :: key in after <==> key in memory || key in disk)
    && (forall key | key in after :: after[key] == if key in disk then disk[key] else memory[key])
  }

  /** The file holds memory's exchange fields, and the plugin entries of both, where those of the file win. */
  ghost predicate Overlaid(after: File, memory: State, plugins: map<string, Raw>) {
    forall own | HasPlugins(memory, own) ::
      exists all :: Joined(all, own, plugins) && FileHolds(after, memory, all)
  }

  /** Memory keeps its exchange fields, and gains the file's plugin entries unless its map is nil. */
  ghost predicate Gains(merged: State, memory: State, plugins: map<string, Raw>) {
    && SameExchangeFields(merged, memory)
    && (memory.pluginState.None? ==> merged.pluginState.None?)
    && (memory.pluginState.Some? ==>
          merged.pluginState.Some? && Joined(merged.pluginState.value, memory.pluginState.value, plugins))
  }

  /** The state an update would write: none if the file does not decode or the callback refuses. */
  function Replacement(d: Disk, f: State -> Option<State>): Option<State> {
    match LoadLocked(d)
    case None => None
    case Some(s) => f(s)
  }

  function UpdateTrace(d: Disk, f: State -> Option<State>, fault: Fault): seq<Disk> {
    match Replacement(d, f)
    case None => []
    case Some(s) => SaveTrace(d, s, fault)
  }

  /** One `Update` of a history; the process may die after `crash` of its disk operations. */
  datatype Attempt = Attempt(f: State -> Option<State>, fault: Fault, crash: Option<nat>)

  function AfterAttempt(d: Disk, a: Attempt): Disk {
    var writes := UpdateTrace(d, a.f, a.fault);
    match a.crash
    case None => Last(d, writes)
    case Some(n) => Last(d, writes[..Min(n, |writes|)])
  }

  /** The rename took place. */
  predicate Commits(d: Disk, a: Attempt) {
    && Replacement(d, a.f).Some? && SaveSucceeds(a.fault)
    && (a.crash.Some? ==> a.crash.value >= |UpdateTrace(d, a.f, a.fault)|)
  }

  /** The disk after a history of updates, each of which may fail or crash anywhere. */
  function Run(d: Disk, attempts: seq<Attempt>): Disk
    decreases |attempts|
  {
    if attempts == [] then d else Run(AfterAttempt(d, attempts[0]), attempts[1..])
  }

  /** The state that a history of whole, uninterrupted updates would reach. */
  function Replay(d: Disk, s: State, attempts: seq<Attempt>): State
    decreases |attempts|
  {
    if attempts == [] then s
    else
      var next := if Commits(d, attempts[0]) && attempts[0].f(s).Some? then attempts[0].f(s).value.Loaded() else s;
      Replay(AfterAttempt(d, attempts[0]), next, attempts[1..])
  }

  /** Until the rename, a save leaves the state file as it was. */
  lemma SaveTraceKeepsMain(d: Disk, s: State, fault: Fault, i: nat)
    requires i < |SaveTrace(d, s, fault)|
    ensures SaveTrace(d, s, fault)[i].main == d.main
         || (i == |SaveTrace(d, s, fault)| - 1 && SaveSucceeds(fault) && SaveTrace(d, s, fault)[i].main == Whole(s))
    ensures i == |SaveTrace(d, s, fault)| - 1 && SaveSucceeds(fault) ==> SaveTrace(d, s, fault)[i].main == Whole(s)
  {
  }

  /** What a save passes through: the rename comes last, and puts in place a file that was written whole before. */
  lemma SaveTraceTells(d: Disk, s: State, fault: Fault, i: nat)
    requires i < |SaveTrace(d, s, fault)|
    ensures
      var trace := SaveTrace(d, s, fault);
      var now, last := trace[i], i == |trace| - 1;
      && (!last ==> now.main == d.main && (now.temps == d.temps + [Damaged] || now.temps == d.temps + [Whole(s)]))
      && (last ==> now.temps == d.temps && now.main == if fault.NoFault? || fault.BackupFault? then Whole(s) else d.main)
      && (last && now.main != d.main ==> i > 0 && trace[i - 1].temps == d.temps + [Whole(s)])
      && (now.backup == d.backup || (!d.main.Missing? && (now.backup == Damaged || now.backup == d.main)))
  {
  }

  /** A crash between any two steps leaves the state of before or the new state, never a mixture. */
  lemma AttemptIsAtomic(d: Disk, a: Attempt)
    requires LoadLocked(d).Some?
    ensures LoadLocked(AfterAttempt(d, a))
         == if Commits(d, a) then Some(Replacement(d, a.f).value.Loaded()) else LoadLocked(d)
  {
    if Replacement(d, a.f).Some? {
      var s := Replacement(d, a.f).value;
      var writes := SaveTrace(d, s, a.fault);
      var n := if a.crash.Some? then Min(a.crash.value, |writes|) else |writes|;
      if n > 0 { SaveTraceKeepsMain(d, s, a.fault, n - 1); }
      assert writes[..|writes|] == writes;
    }
  }

  /** Over any history of updates, faults and crashes, Load returns what the committed updates alone would give. */
  lemma {:induction false} CrashConsistency(d: Disk, attempts: seq<Attempt>)
    requires LoadLocked(d).Some?
    ensures Load(Run(d, attempts)) == Some(Replay(d, LoadLocked(d).value, attempts))
    decreases |attempts|
  {
    if attempts != [] {
      AttemptIsAtomic(d, attempts[0]);
      CrashConsistency(AfterAttempt(d, attempts[0]), attempts[1..]);
    }
  }

  /** The state that the last committed attempt wrote, if any did. */
  function LastWritten(d: Disk, attempts: seq<Attempt>): Option<State>
    decreases |attempts|
  {
    if attempts == [] then None
    else
      var later := LastWritten(AfterAttempt(d, attempts[0]), attempts[1..]);
      if later.Some? then later else if Commits(d, attempts[0]) then Replacement(d, attempts[0].f) else None
  }

  /** In plain terms: Load reads back, whole, the last state written, or what was there before. */
  lemma {:induction false} LoadReadsLast(d: Disk, attempts: seq<Attempt>, fields: State, plugins: map<string, Raw>)
    requires FileHolds(d.main, fields, plugins)
    ensures
      var read, last := Load(Run(d, attempts)), LastWritten(d, attempts);
      && read.Some?
      && if last.Some? then ReadsBack(read.value, last.value)
         else SameExchangeFields(read.value, fields) && read.value.pluginState == Some(plugins)
    decreases |attempts|
  {
    FileHoldsReads(d, fields, plugins);
    if attempts != [] {
      AttemptIsAtomic(d, attempts[0]);
      var next := AfterAttempt(d, attempts[0]);
      var now := LoadLocked(next).value;
      LoadedHolds(next, now);
      LoadReadsLast(next, attempts[1..], now, now.pluginState.value);
      if Commits(d, attempts[0]) { LoadedReads(Replacement(d, attempts[0].f).value); }
    }
  }

  lemma LoadedHolds(d: Disk, read: State)
    requires LoadLocked(d) == Some(read)
    ensures read.pluginState.Some? && FileHolds(d.main, read, read.pluginState.value)
  {
  }

  /** A save that completes with its backup keeps the state it replaces; only the very first save has none to keep. */
  lemma BackupHoldsPrevious(d: Disk, a: Attempt)
    requires Commits(d, a) && a.fault.NoFault? && !d.main.Missing?
    ensures AfterAttempt(d, a).backup == d.main
    ensures AfterAttempt(d, a).main == Whole(Replacement(d, a.f).value)
  {
    var writes := UpdateTrace(d, a.f, a.fault);
    assert writes[..|writes|] == writes;
  }

  /** With an undecodable state file, no update writes anything: the backup stays. */
  lemma {:induction false} UpdatesSpareBackup(d: Disk, attempts: seq<Attempt>)
    requires d.main.Damaged?
    ensures Run(d, attempts) == d
    decreases |attempts|
  {
    if attempts != [] { UpdatesSpareBackup(AfterAttempt(d, attempts[0]), attempts[1..]); }
  }

  /** Every one of these attempts fails or is interrupted before its rename. */
  predicate NoneCommits(d: Disk, attempts: seq<Attempt>)
    decreases |attempts|
  {
    attempts == [] || (!Commits(d, attempts[0]) && NoneCommits(AfterAttempt(d, attempts[0]), attempts[1..]))
  }

  /** Attempts that do not commit leave the state file alone, whatever they do to the backup. */
  lemma {:induction false} InterruptedKeepMain(d: Disk, attempts: seq<Attempt>)
    requires NoneCommits(d, attempts)
    ensures Run(d, attempts).main == d.main
    decreases |attempts|
  {
    if attempts != [] {
      var a := attempts[0];
      var writes := UpdateTrace(d, a.f, a.fault);
      var n := if a.crash.Some? then Min(a.crash.value, |writes|) else |writes|;
      assert writes[..|writes|] == writes;
      if n > 0 { SaveTraceKeepsMain(d, Replacement(d, a.f).value, a.fault, n - 1); }
      InterruptedKeepMain(AfterAttempt(d, a), attempts[1..]);
    }
  }

  /**
   Two completed saves with any interrupted ones between them, then damage to the state
   file, then any further updates: Load returns the first of the two saved states.
   */
  lemma BackupRecovery(d: Disk, first: Attempt, between: seq<Attempt>, second: Attempt, later: seq<Attempt>)
    requires Commits(d, first)
    requires NoneCommits(AfterAttempt(d, first), between)
    requires Commits(Run(AfterAttempt(d, first), between), second) && second.fault.NoFault?
    ensures
      var saved := AfterAttempt(Run(AfterAttempt(d, first), between), second);
      var read := Load(Run(saved.(main := Damaged), later));
      read.Some? && ReadsBack(read.value, Replacement(d, first.f).value)
  {
    LoadedReads(Replacement(d, first.f).value);
    var writes := UpdateTrace(d, first.f, first.fault);
    SaveTraceKeepsMain(d, Replacement(d, first.f).value, first.fault, |writes| - 1);
    assert writes[..|writes|] == writes;
    InterruptedKeepMain(AfterAttempt(d, first), between);
    var mid := Run(AfterAttempt(d, first), between);
    BackupHoldsPrevious(mid, second);
    UpdatesSpareBackup(AfterAttempt(mid, second).(main := Damaged), later);
  }

  /** The attempt gets as far as overwriting the backup: there is a state file to copy, and it neither fails nor dies before. */
  predicate OverwritesBackup(d: Disk, a: Attempt) {
    && d.main.Whole? && Replacement(d, a.f).Some?
    && (a.fault.NoFault? || a.fault.RenameFault? || a.fault == BackupFault(true))
    && (a.crash.None? || a.crash.value >= 3)
  }

  /** It dies while the backup is truncated, or fails then, which it only logs. */
  predicate LeavesBackupBroken(a: Attempt) {
    a.fault == BackupFault(true) || a.crash == Some(3)
  }

  /** The backup after a history is broken: the last attempt that overwrote it left it so, or it was no backup to begin with. */
  predicate BackupBroken(d: Disk, attempts: seq<Attempt>, broken: bool)
    decreases |attempts|
  {
    if attempts == [] then broken
    else
      var a := attempts[0];
      BackupBroken(AfterAttempt(d, a), attempts[1..], if OverwritesBackup(d, a) then LeavesBackupBroken(a) else broken)
  }

  lemma AttemptBackup(d: Disk, a: Attempt)
    ensures !AfterAttempt(d, a).backup.Whole? <==> if OverwritesBackup(d, a) then LeavesBackupBroken(a) else !d.backup.Whole?
  {
    var writes := UpdateTrace(d, a.f, a.fault);
    var n := if a.crash.Some? then Min(a.crash.value, |writes|) else |writes|;
    assert writes[..|writes|] == writes;
    if n > 0 { assert Last(d, writes[..n]) == writes[n - 1]; }
  }

  /**
   Over any history of updates, faults and crashes, from any disk: damage to the state file
   is then beyond recovery exactly when the last update that got as far as overwriting the
   backup left it broken, or none did and there was no whole backup before.
   */
  lemma {:induction false} BackupWindow(d: Disk, attempts: seq<Attempt>)
    ensures Load(Run(d, attempts).(main := Damaged)).None? <==> BackupBroken(d, attempts, !d.backup.Whole?)
    decreases |attempts|
  {
    if attempts != [] {
      AttemptBackup(d, attempts[0]);
      BackupWindow(AfterAttempt(d, attempts[0]), attempts[1..]);
    }
  }

  /** In particular, the first save of all leaves nothing to fall back on. */
  lemma FirstSaveHasNoBackup(d: Disk, a: Attempt)
    requires d.main.Missing? && d.backup.Missing?
    ensures Load(AfterAttempt(d, a).(main := Damaged)).None?
  {
    assert Run(d, [a]) == AfterAttempt(d, a);
    BackupWindow(d, [a]);
  }

  /** `Save` without the decoding step of `Update` copies a damaged file over the backup. */
  lemma SaveDestroysBackup(d: Disk, s: State)
    requires d.main.Damaged?
    ensures Last(d, SaveTrace(d, s, NoFault)).backup.Damaged?
  {
  }

  // The two kinds of save that share the file.

  /** The write of `performExchange`: its own exchange fields, and the plugin entries of memory overlaid by those on disk. */
  function ExchangeSaved(current: State, memory: State): State {
    memory.(pluginState := Some(memory.Plugins() + current.Plugins()))
  }

  function PluginSaved(latest: State, key: string, data: Raw): State {
    latest.(pluginState := Some(latest.Plugins()[key := data]))
  }

  /** The merged map is the one memory holds, so memory gains the disk's entries, unless its map was nil. */
  function MemoryAfterSave(current: State, memory: State): State {
    if memory.pluginState.None? then memory else ExchangeSaved(current, memory)
  }

  /** The state file and the exchange loop's copy of the state. */
  datatype World = World(file: State, memory: State)

  datatype SaveStep =
    | SaveExchange(fields: State)            // fields other than pluginState, as the exchange left them
    | SavePlugin(key: string, data: Raw)
    | ResetPlugins                           // set-id and resynchronize: pluginState = nil

  function ApplySave(w: World, step: SaveStep): World {
    match step
    case SaveExchange(fields) =>
      var memory := fields.(pluginState := w.memory.pluginState);
      World(ExchangeSaved(w.file, memory), MemoryAfterSave(w.file, memory))
    case SavePlugin(key, data) => w.(file := PluginSaved(w.file, key, data))
    case ResetPlugins => w.(memory := w.memory.(pluginState := None))
  }

  function ApplySaves(w: World, steps: seq<SaveStep>): World
    decreases |steps|
  {
    if steps == [] then w else ApplySaves(ApplySave(w, steps[0]), steps[1..])
  }

  /** The exchange fields of the last exchange save. */
  function LastFields(initial: State, steps: seq<SaveStep>): State
    decreases |steps|
  {
    if steps == [] then initial
    else LastFields(if steps[0].SaveExchange? then steps[0].fields else initial, steps[1..])
  }

  /** For each plugin, its last saved value. */
  function LastPlugins(initial: map<string, Raw>, steps: seq<SaveStep>): map<string, Raw>
    decreases |steps|
  {
    if steps == [] then initial
    else LastPlugins(if steps[0].SavePlugin? then initial[steps[0].key := steps[0].data] else initial, steps[1..])
  }

  /** Memory holds no plugin entry that the file lacks. */
  ghost predicate NothingNew(memory: State, plugins: map<string, Raw>) {
    forall own | HasPlugins(memory, own) :: own.Keys <= plugins.Keys
  }

  /** Non-interference: each kind of save keeps exactly what the other kind wrote last. */
  lemma {:induction false} SavesDoNotInterfere(w: World, fields: State, plugins: map<string, Raw>, steps: seq<SaveStep>)
    requires SameExchangeFields(w.file, fields) && w.file.pluginState == Some(plugins) && NothingNew(w.memory, plugins)
    ensures SameExchangeFields(ApplySaves(w, steps).file, LastFields(fields, steps))
    ensures ApplySaves(w, steps).file.pluginState == Some(LastPlugins(plugins, steps))
    decreases |steps|
  {
    if steps != [] {
      var next := ApplySave(w, steps[0]);
      if steps[0].SaveExchange? {
        assert HasPlugins(w.memory, w.memory.Plugins());
        assert w.memory.Plugins() + plugins == plugins;
      }
      SavesDoNotInterfere(next, if steps[0].SaveExchange? then steps[0].fields else fields,
                          if steps[0].SavePlugin? then plugins[steps[0].key := steps[0].data] else plugins, steps[1..]);
    }
  }

  /** A save and the I/O error that it meets, if any. */
  datatype Save = Save(step: SaveStep, fault: Fault)

  /** The steps that take effect. */
  function Done(saves: seq<Save>): seq<SaveStep> {
    if saves == [] then []
    else if saves[0].step.ResetPlugins? || saves[0].fault.NoFault? || saves[0].fault.BackupFault? then
      [saves[0].step] + Done(saves[1..])
    else Done(saves[1..])
  }

  lemma ExchangeOverlays(current: State, memory: State, plugins: map<string, Raw>)
    requires current.pluginState == Some(plugins)
    ensures Overlaid(Whole(ExchangeSaved(current, memory)), memory, plugins)
  {
    forall own | HasPlugins(memory, own)
      ensures exists all :: Joined(all, own, plugins) && FileHolds(Whole(ExchangeSaved(current, memory)), memory, all)
    {
      assert Joined(own + plugins, own, plugins);
    }
  }

  lemma JoinedKnown(all: map<string, Raw>, own: map<string, Raw>, plugins: map<string, Raw>)
    requires Joined(all, own, plugins) && own.Keys <= plugins.Keys
    ensures all == plugins
  {
    assert all.Keys == plugins.Keys;
  }

  lemma OverlaidKnown(file: File, memory: State, fields: State, plugins: map<string, Raw>)
    requires Overlaid(file, memory, plugins) && NothingNew(memory, plugins) && SameExchangeFields(memory, fields)
    ensures FileHolds(file, fields, plugins)
  {
    var own := if memory.pluginState.Some? then memory.pluginState.value else map[];
    assert HasPlugins(memory, own);
    var all :| Joined(all, own, plugins) && FileHolds(file, memory, all);
    JoinedKnown(all, own, plugins);
  }

  lemma GainsKnown(merged: State, memory: State, plugins: map<string, Raw>)
    requires Gains(merged, memory, plugins) && NothingNew(memory, plugins)
    ensures NothingNew(merged, plugins)
  {
    if memory.pluginState.Some? {
      assert HasPlugins(memory, memory.pluginState.value);
      JoinedKnown(merged.pluginState.value, memory.pluginState.value, plugins);
    }
  }

  lemma StillKnown(memory: State, other: State, plugins: map<string, Raw>, more: map<string, Raw>)
    requires NothingNew(memory, plugins) && plugins.Keys <= more.Keys
    requires other.pluginState == memory.pluginState || other.pluginState.None?
    ensures NothingNew(other, more)
  {
    if other.pluginState.Some? { assert HasPlugins(memory, other.pluginState.value); }
  }

  /**
   The store under any interleaving of the two kinds of save, with any faults: the file holds
   the exchange fields of the last exchange save that worked, and each plugin's last saved value.
   */
  method SaveAll(store: Store, memory: State, saves: seq<Save>, ghost fields: State, ghost plugins: map<string, Raw>)
    returns (after: State)
    requires FileHolds(store.disk.main, fields, plugins) && NothingNew(memory, plugins)
    modifies store
    ensures FileHolds(store.disk.main, LastFields(fields, Done(saves)), LastPlugins(plugins, Done(saves)))
    decreases |saves|
  {
    assert !store.disk.main.Damaged?;
    hide FileHolds, Overlaid, Gains, NothingNew;
    if saves == [] { return memory; }
    match saves[0].step {
      case SaveExchange(f) =>
        var m := f.(pluginState := memory.pluginState);
        StillKnown(memory, m, plugins, plugins);
        var ok, merged := store.SaveExchange(m, saves[0].fault);
        GainsKnown(merged, m, plugins);
        if ok { OverlaidKnown(store.disk.main, m, f, plugins); }
        after := SaveAll(store, merged, saves[1..], if ok then f else fields, plugins);
      case SavePlugin(key, data) =>
        var ok := store.SetPluginState(key, data, saves[0].fault);
        StillKnown(memory, memory, plugins, plugins[key := data]);
        after := SaveAll(store, memory, saves[1..], fields, if ok then plugins[key := data] else plugins);
      case ResetPlugins =>
        var reset := memory.(pluginState := None);
        StillKnown(memory, reset, plugins, plugins);
        after := SaveAll(store, reset, saves[1..], fields, plugins);
    }
  }

  /** The two kinds of save commute, whatever memory holds. */
  lemma SavesCommute(w: World, fields: State, key: string, data: Raw)
    ensures ApplySave(ApplySave(w, SaveExchange(fields)), SavePlugin(key, data)).file
         == ApplySave(ApplySave(w, SavePlugin(key, data)), SaveExchange(fields)).file
  {
    var m, d := w.memory.Plugins(), w.file.Plugins();
    assert (m + d)[key := data] == m + d[key := data];
  }

  /** Resetting the plugin state in memory never reaches the file: the next save copies the disk's entries back. */
  lemma ResetIsUndone(w: World, fields: State)
    requires w.memory.Plugins().Keys <= w.file.Plugins().Keys
    ensures ApplySave(ApplySave(w, ResetPlugins), SaveExchange(fields)).file == ApplySave(w, SaveExchange(fields)).file
    ensures ApplySave(ApplySave(w, ResetPlugins), SaveExchange(fields)).file.Plugins() == w.file.Plugins()
  {
    assert w.memory.Plugins() + w.file.Plugins() == w.file.Plugins();
    assert map[] + w.file.Plugins() == w.file.Plugins();
  }
}
