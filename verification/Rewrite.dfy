/** The append-only file at work: commands, flushing, the forked rewrite with its diff buffer, each
    sub-step of finalizing, crashes and recoveries, as one state machine over the bytes on disk. */
module Rewrite {

  import opened Numbers
  import opened Bytes
  import opened Store
  import opened Log
  import opened Codec
  import opened Loader
  import opened LogFile
  import opened Aging

  // ----- State

  /** A file's contents and how many of its leading bytes are known to be on the device. */
  datatype File = File(bytes: seq<byte>, flushed: nat)

  datatype Policy = FlushNo | FlushPerTick | FlushAlways

  /** `maxDiff` is aof-rewrite-buf-max-size, `startCap` the diff buffer's size at start-up. */
  datatype Config = Config(policy: Policy, maxDiff: nat, startCap: nat)

  datatype Mode = Idle | Active | Aborting

  /** The forked child: a frozen copy of the tables taken after `forkAt` records, the order in which the
      iterator visits the keys, how far it got and the records it has written; `bornAt` is the number of
      commands before the fork, logged or not. `created` is the creation
      time it put in its file header, once the temporary file is open; `exit` whether it exited with 0. */
  datatype Child = Child(
    snapshot: Tables, forkAt: nat, bornAt: nat, order: seq<Key>, pos: nat, emitted: seq<Record>,
    created: Option<nat>, exit: Option<bool>)

  /** What the server does next: serve, or one of the sub-steps of `aof_rewrite_finalize`. */
  datatype Phase = Serving | Opening | Writing | Flushing | Reopening | Renaming | Swapping

  /** `files` maps inodes to contents, `named` is the inode under the AOF name, `temp` the one under the
      temporary name, `fd` the one the append descriptor is open on and `newFd` its successor. `time` is the
      latest reading of the wall clock.

      The rest only describes the run: all records appended so far, all commands that succeeded, logged or
      not, and the tables before each, how many records a flush has covered, and that the named file holds
      a header made at `created`, then `base`, a snapshot of `root` taken before command `rootAt`, then the
      records appended since number `baseAt`. `trusted` says that a flush has
      happened since the last start, or that the file was fully flushed when it was read then. */
  datatype State = State(
    tables: Tables, files: map<nat, File>, named: nat, temp: Option<nat>, fd: nat, newFd: nat, dirty: bool,
    mode: Mode, child: Option<Child>, diff: seq<byte>, cap: nat, phase: Phase, time: int,
    history: seq<Record>, past: seq<Moment>, before: seq<Tables>, synced: nat, trusted: bool,
    root: Tables, base: seq<Record>, baseAt: nat, rootAt: nat, created: nat)

  // ----- Steps

  /** Makes the whole content of file `i` durable. */
  function Flush(s: State, i: nat): (s': State)
    requires i in s.files
  {
    s.(files := s.files[i := File(s.files[i].bytes, |s.files[i].bytes|)])
  }

  /** `aof_rewrite_cleanup` */
  function Cleanup(s: State): (s': State) {
    s.(mode := Idle, child := None, diff := [], phase := Serving)
  }

  /** The failure exits: the temporary name goes, the live file stays. */
  function Discard(s: State): (s': State) {
    Cleanup(s.(temp := None))
  }

  /** `aof_abort_rewrite` */
  function Abort(s: State): (s': State) {
    s.(diff := [], mode := Aborting)
  }

  /** The buffer's size after growing for `needed` bytes: doubled, at least `needed`, at most the cap. */
  function GrownCap(cfg: Config, cap: nat, needed: nat): (c: nat) {
    var doubled := if 2 * cap < needed then needed else 2 * cap;
    if needed <= cap then cap else if doubled > cfg.maxDiff then cfg.maxDiff else doubled
  }

  /** The rewrite buffer: contents, size, and whether it is still wanted. */
  datatype Buffer = Buffer(diff: seq<byte>, cap: nat, mode: Mode)

  /** `aof_emit_diff` on the buffer alone: the bytes go behind the others, or the rewrite is given up. */
  function Stashed(cfg: Config, b: Buffer, e: seq<byte>): (b': Buffer) {
    var needed := |b.diff| + |e|;
    if needed > b.cap && needed > cfg.maxDiff then Buffer([], b.cap, Aborting)
    else Buffer(b.diff + e, GrownCap(cfg, b.cap, needed), b.mode)
  }

  /** `aof_emit_diff` */
  function EmitDiff(cfg: Config, s: State, e: seq<byte>): (s': State) {
    var b := Stashed(cfg, Buffer(s.diff, s.cap, s.mode), e);
    s.(diff := b.diff, cap := b.cap, mode := b.mode)
  }

  /** `aof_maybe_fsync_always` */
  function FlushIfAlways(cfg: Config, s: State, flushOk: bool): (s': State)
    requires s.fd in s.files
  {
    if cfg.policy == FlushAlways && flushOk then
      Flush(s, s.fd).(dirty := false, synced := |s.history|, trusted := true)
    else s
  }

  /** `aof_append` up to the flush: the bytes go to the live file and the diff. */
  function Appended(cfg: Config, s: State, r: Record, e: seq<byte>): (s': State)
    requires s.fd in s.files
    ensures s'.fd in s'.files
  {
    var f := s.files[s.fd];
    var s1 := s.(files := s.files[s.fd := File(f.bytes + e, f.flushed)], history := s.history + [r], dirty := true);
    if s1.mode == Active then EmitDiff(cfg, s1, e) else s1
  }

  /** `aof_append` of the encoded record `e` of `r`, with every byte written. */
  function Append(cfg: Config, s: State, r: Record, e: seq<byte>, flushOk: bool): (s': State)
    requires s.fd in s.files
  {
    FlushIfAlways(cfg, Appended(cfg, s, r, e), flushOk)
  }

  /** A command has run: the tables are what it made of them. */
  function Lived(s: State, m: Moment): (s': State) {
    s.(tables := Apply(s.tables, m.r).tables, past := s.past + [m], before := s.before + [s.tables])
  }

  /** A command whose record does not fit: it runs, and nothing is logged. */
  function Unwritten(s: State, r: Record): (s': State) {
    if Apply(s.tables, r).ok then Lived(s, Silent(r)) else s.(tables := Apply(s.tables, r).tables)
  }

  /** A command handler: run the operation, and log it if it succeeded. */
  function Command(cfg: Config, s: State, r: Record, e: seq<byte>, flushOk: bool): (s': State)
    requires s.fd in s.files
  {
    var a := Apply(s.tables, r);
    if a.ok then Append(cfg, Lived(s, Moment.Logged(r)), r, e, flushOk)
    else s.(tables := a.tables)
  }

  /** Any command handler: one whose record does not fit changes the tables and logs nothing, since the
      append's result is ignored. */
  function Handled(cfg: Config, s: State, r: Record, flushOk: bool): (s': State)
    requires s.fd in s.files && IsInt64(r.expireAt)
  {
    if Fits(r) then Command(cfg, s, r, Encode(r), flushOk) else Unwritten(s, r)
  }

  /** `aof_cron` when its interval has passed */
  function CronFlush(s: State, flushOk: bool): (s': State)
    requires s.fd in s.files
  {
    if s.dirty && flushOk then Flush(s, s.fd).(dirty := false, synced := |s.history|, trusted := true) else s
  }

  /** `aof_rewrite_start` with a successful fork */
  function StartRewrite(s: State, order: seq<Key>): (s': State) {
    s.(mode := Active, diff := [], child := Some(Child(s.tables, |s.history|, |s.past|, order, 0, [], None, None)))
  }

  function WithChild(s: State, c: Child): (s': State) {
    s.(child := Some(c))
  }

  /** The child handles its next key. */
  ghost function EmitKey(s: State, c: Child, i: nat, now: int): (s': State)
    requires i in s.files && c.pos < |c.order| && c.order[c.pos] in c.snapshot.keyspace
    requires IsInt64(SnapshotRecord(c.snapshot, c.order[c.pos]).expireAt)
  {
    var k := c.order[c.pos];
    var r := SnapshotRecord(c.snapshot, k);
    if Dead(c.snapshot, k, now) then WithChild(s, c.(pos := c.pos + 1))
    else if !Fits(r) then WithChild(s, c.(exit := Some(false)))
    else
      var f := s.files[i];
      WithChild(s, c.(pos := c.pos + 1, emitted := c.emitted + [r])).(
        files := s.files[i := File(f.bytes + Encode(r), f.flushed)])
  }

  /** `aof_rewrite_cron` finding that the child is gone */
  function Reaped(s: State, exitOk: bool): (s': State) {
    if s.mode == Aborting then Discard(s)
    else if exitOk then s.(phase := Opening)
    else Discard(s)
  }

  /** Appends `data` to the temporary file. */
  function WriteTemp(s: State, i: nat, data: seq<byte>): (s': State)
    requires i in s.files
  {
    s.(files := s.files[i := File(s.files[i].bytes + data, s.files[i].flushed)])
  }

  /** `rename` of the temporary file over the live one */
  function SwitchName(s: State, c: Child, i: nat, time: nat): (s': State) {
    s.(named := i, temp := None, phase := Swapping, root := c.snapshot, base := c.emitted, baseAt := c.forkAt,
       rootAt := c.bornAt, synced := |s.history|, trusted := true, created := time)
  }

  /** How many records of the history a recovery that replayed `records` records of the file kept. */
  function Kept(s: State, records: nat): (n: nat)
    ensures n <= |s.history|
  {
    if records < |s.base| then 0
    else if s.baseAt + records - |s.base| <= |s.history| then s.baseAt + records - |s.base|
    else |s.history|
  }

  /** The number of commands before record `j` of the history, or of all if there is no such record. */
  function PlaceOf(s: State, j: nat): (m: nat)
    ensures m <= |s.past|
  {
    if s.rootAt <= |s.past| && s.baseAt <= j then s.rootAt + Place(s.past[s.rootAt..], j - s.baseAt) else 0
  }

  /** A new process after recovering `l` from what remained of the named file, of which `flushed` bytes are
      known to be on the device. Loading flushes nothing. */
  function Restart(cfg: Config, s: State, l: Loaded, remains: seq<byte>, flushed: nat, synced: nat, now: int)
    : (s': State)
    requires l.validEnd <= |remains|
  {
    var n, part := Kept(s, l.records), Min(flushed, l.validEnd);
    var m := PlaceOf(s, n);
    State(l.tables, map[s.named := File(remains[..l.validEnd], part)], s.named, None, s.named, s.named, false,
          Idle, None, [], cfg.startCap, Serving, now, s.history[..n],
          s.past[..m], if m <= |s.before| then s.before[..m] else s.before,
          Min(synced, n), part == l.validEnd || l.validEnd == FILE_HEADER_SIZE,
          s.root, s.base, s.baseAt, s.rootAt, s.created)
  }

  /** A server with empty tables and a new file with its unflushed header. */
  ghost function Init(cfg: Config, inode: nat, created: nat, now: int): (s: State) {
    State(EMPTY, map[inode := File(FileHeader(created), 0)], inode, None, inode, inode, false, Idle, None, [],
          cfg.startCap, Serving, now, [], [], [], 0, true, EMPTY, [], 0, 0, created)
  }

  /** The end of a process and the start of the next: record `r` was being written, `cut` bytes of the
      named file are left, and the reload takes place at `now`, reading `clock` as it goes. */
  datatype Crash = Crash(r: Record, cut: nat, buf: seq<byte>, clock: nat -> int, now: int)

  datatype Event =
    | Mutate(r: Record, flushOk: bool)
    | Unlogged(r: Record)
    | Clock(now: int)
    | Expiry(dead: set<Key>, now: int)
    | Tick(flushOk: bool)
    | Fork(order: seq<Key>)
    | ChildOpen(inode: nat, time: nat)
    | ChildEmit(now: int)
    | ChildDone
    | ChildDie
    | Reap
    | WaitError
    | FinalOpen(ok: bool)
    | FinalWrite(ok: bool, put: nat)
    | FinalFlush(ok: bool)
    | FinalReopen(ok: bool)
    | FinalRename(ok: bool)
    | FinalSwap
    | Kill(c: Crash)
    | PowerLoss(c: Crash, created: nat)

  predicate Crashes(e: Event) {
    e.Kill? || e.PowerLoss?
  }

  predicate Running(s: State) {
    s.child.Some? && s.child.value.exit.None?
  }

  /** The child has its temporary file open. */
  predicate Writes(s: State) {
    Running(s) && s.child.value.created.Some? && s.temp.Some? && s.temp.value in s.files
  }

  /** What is left of the named file after a crash. */
  ghost function Remains(s: State, c: Crash): (bytes: seq<byte>)
    requires s.named in s.files && Loggable(c.r) && c.cut <= |s.files[s.named].bytes| + |Encode(c.r)|
    ensures |bytes| == c.cut
  {
    (s.files[s.named].bytes + Encode(c.r))[..c.cut]
  }

  /** The process can end here: between two events, or within the write of a record. */
  ghost predicate CanCrash(s: State, c: Crash) {
    && s.named in s.files && |c.buf| == RECORD_MAX && s.time <= c.now && Loggable(c.r)
    && c.cut < |s.files[s.named].bytes| + |Encode(c.r)|
    && (c.cut > |s.files[s.named].bytes| ==> s.phase == Serving)
  }

  /** A dying process leaves every byte it wrote. */
  ghost predicate CanKill(s: State, c: Crash) {
    CanCrash(s, c) && |s.files[s.named].bytes| <= c.cut
  }

  /** A power loss leaves at least what was flushed. */
  ghost predicate CanLosePower(s: State, c: Crash) {
    CanCrash(s, c) && s.files[s.named].flushed <= c.cut
  }

  ghost function Reload(s: State, c: Crash): (up: Startup)
    requires CanCrash(s, c)
  {
    Start(Remains(s, c), c.buf, c.clock)
  }

  /** A command some handler can run. */
  predicate Commanded(r: Record) {
    NulFree(r.key) && NulFree(r.value) && IsInt64(r.expireAt) && HandlerRecord(r)
  }

  /** When an event can happen. Any child outcome, any failure of a system call and any crash point is
      possible at its place; a run goes on after a crash only if the next start-up accepts the file. */
  ghost predicate Enabled(cfg: Config, s: State, e: Event) {
    match e
    case Mutate(r, _) => s.phase == Serving && s.fd in s.files && Commanded(r) && Fits(r)
    case Unlogged(r) => s.phase == Serving && Commanded(r) && !Fits(r)
    case Clock(now) => s.time <= now
    case Expiry(dead, now) =>
      s.phase == Serving && now <= s.time && forall k :: k in dead ==> Dead(s.tables, k, now)
    case Tick(_) => s.phase == Serving && s.fd in s.files && cfg.policy == FlushPerTick
    case Fork(order) => s.phase == Serving && s.mode == Idle && Visits(order, s.tables)
    case ChildOpen(i, _) =>
      && Running(s) && s.child.value.created.None?
      && if s.temp.Some? then i == s.temp.value else i !in s.files
    case ChildEmit(now) =>
      && Writes(s) && now <= s.time && s.child.value.pos < |s.child.value.order|
      && var k := s.child.value.order[s.child.value.pos];
         k in s.child.value.snapshot.keyspace && IsInt64(SnapshotRecord(s.child.value.snapshot, k).expireAt)
    case ChildDone => Writes(s) && s.child.value.pos == |s.child.value.order|
    case ChildDie => Running(s)
    case Reap => s.phase == Serving && s.child.Some? && s.child.value.exit.Some?
    case WaitError => s.phase == Serving && s.child.Some?
    case FinalOpen(_) => s.phase == Opening
    case FinalWrite(_, put) => s.phase == Writing && s.temp.Some? && s.temp.value in s.files && put <= |s.diff|
    case FinalFlush(_) => s.phase == Flushing && s.temp.Some? && s.temp.value in s.files
    case FinalReopen(_) => s.phase == Reopening && s.temp.Some?
    case FinalRename(_) =>
      s.phase == Renaming && s.temp.Some? && s.child.Some? && s.child.value.created.Some?
    case FinalSwap => s.phase == Swapping
    case Kill(c) => CanKill(s, c) && Reload(s, c).Recovered?
    case PowerLoss(c, _) => CanLosePower(s, c) && Reload(s, c) != Refused
  }

  /** What an event does. */
  ghost function Step(cfg: Config, s: State, e: Event): (s': State)
    requires Enabled(cfg, s, e)
  {
    match e
    case Mutate(r, flushOk) => Command(cfg, s, r, Encode(r), flushOk)
    case Unlogged(r) => Unwritten(s, r)
    case Clock(now) => s.(time := now)
    case Expiry(dead, _) => s.(tables := Without(s.tables, dead))
    case Tick(flushOk) => CronFlush(s, flushOk)
    case Fork(order) => StartRewrite(s, order)
    case ChildOpen(i, time) =>
      WithChild(s, s.child.value.(created := Some(time))).(
        temp := Some(i), files := s.files[i := File(FileHeader(time), 0)])
    case ChildEmit(now) => EmitKey(s, s.child.value, s.temp.value, now)
    case ChildDone => WithChild(Flush(s, s.temp.value), s.child.value.(exit := Some(true)))
    case ChildDie => WithChild(s, s.child.value.(exit := Some(false)))
    case Reap => Reaped(s, s.child.value.exit.value)
    case WaitError => Cleanup(s)
    case FinalOpen(ok) => if ok then s.(phase := Writing) else Discard(s)
    case FinalWrite(ok, put) =>
      if ok then WriteTemp(s, s.temp.value, s.diff).(phase := Flushing)
      else Discard(WriteTemp(s, s.temp.value, s.diff[..put]))
    case FinalFlush(ok) => if ok then Flush(s, s.temp.value).(phase := Reopening) else Discard(s)
    case FinalReopen(ok) => if ok then s.(phase := Renaming, newFd := s.temp.value) else Discard(s)
    case FinalRename(ok) =>
      if ok then SwitchName(s, s.child.value, s.temp.value, s.child.value.created.value) else Discard(s)
    case FinalSwap => Cleanup(s.(fd := s.newFd))
    case Kill(c) => AfterKill(cfg, s, c)
    case PowerLoss(c, created) => AfterPowerLoss(cfg, s, c, created)
  }

  /** The flushed part stays what it was: the next process has flushed nothing. */
  ghost function AfterKill(cfg: Config, s: State, c: Crash): (s': State)
    requires CanKill(s, c) && Reload(s, c).Recovered?
  {
    Restart(cfg, s, Reload(s, c).loaded, Remains(s, c), s.files[s.named].flushed, s.synced, c.now)
  }

  /** What survived was on the device. An empty file gets a new header. */
  ghost function AfterPowerLoss(cfg: Config, s: State, c: Crash, created: nat): (s': State)
    requires CanLosePower(s, c) && Reload(s, c) != Refused
  {
    match Reload(s, c)
    case Fresh => Init(cfg, s.named, created, c.now)
    case Recovered(l) => Restart(cfg, s, l, Remains(s, c), l.validEnd, |s.history|, c.now)
  }

  // ----- The invariant

  /** Keys and values are C strings, deadlines 64-bit integers. */
  ghost predicate Storable(t: Tables) {
    && Consistent(t)
    && (forall k :: k in t.keyspace ==> NulFree(k) && NulFree(t.keyspace[k]))
    && (forall k :: k in t.expires ==> IsInt64(t.expires[k]))
  }

  ghost predicate StoredOk(s: State) {
    && LoggableAll(s.history) && Storable(s.tables) && |s.before| == |s.past|
    && forall i :: 0 <= i < |s.before| ==> Storable(s.before[i])
  }

  /** The records in the named file. */
  function FileLog(s: State): (log: seq<Record>)
    requires s.baseAt <= |s.history|
  {
    s.base + s.history[s.baseAt..]
  }

  /** The flushed part of the named file ends exactly behind record `synced`, and a clear flag means that
      this is the last one exactly if the file is trusted. */
  ghost predicate SyncedOk(s: State)
    requires s.baseAt <= |s.history| && LoggableAll(s.base) && LoggableAll(s.history) && s.named in s.files
  {
    && s.baseAt <= s.synced <= |s.history|
    && (!s.dirty ==> (s.trusted <==> s.synced == |s.history|))
    && (|| (s.files[s.named].flushed == 0 && s.base == [] && s.baseAt == 0 && s.synced == 0)
        || FILE_HEADER_SIZE + Size(s.base) + Size(s.history[s.baseAt..s.synced]) == s.files[s.named].flushed)
  }

  ghost predicate NamedOk(s: State)
    requires LoggableAll(s.history)
  {
    && LoggableAll(s.base) && s.baseAt <= |s.history|
    && s.named in s.files
    && s.files[s.named].bytes == FileHeader(s.created) + EncodeAll(s.base) + EncodeAll(s.history[s.baseAt..])
    && SyncedOk(s)
  }

  /** The append descriptor is open on the named file, except between rename and descriptor swap. */
  predicate DescriptorsOk(s: State) {
    && s.fd in s.files
    && (s.phase != Swapping ==> s.fd == s.named)
    && (s.phase == Swapping ==> s.newFd == s.named)
    && (s.temp.Some? ==> s.temp.value in s.files && s.temp.value != s.named && s.temp.value != s.fd)
  }

  /** What the child has put into the temporary file so far. */
  ghost predicate ChildOk(s: State, c: Child) {
    && c.forkAt <= |s.history|
    && Storable(c.snapshot)
    && Visits(c.order, c.snapshot)
    && c.pos <= |c.order|
    && LoggableAll(c.emitted)
    && (c.created.None? ==> c.pos == 0 && c.emitted == [] && c.exit != Some(true))
    && (c.exit == Some(true) ==> c.pos == |c.order|)
    && (c.created.Some? && s.phase != Swapping ==> s.temp.Some?)
    && (c.created.Some? && s.temp.Some? && s.phase in {Serving, Opening, Writing} ==>
          s.temp.value in s.files && s.files[s.temp.value].bytes == FileHeader(c.created.value) + EncodeAll(c.emitted))
  }

  /** The rewrite fields fit together: at most one child, a diff buffer only while active, and in it
      exactly the bytes of the records appended since the fork. */
  ghost predicate RewriteOk(cfg: Config, s: State)
    requires LoggableAll(s.history)
  {
    && (s.mode == Idle <==> s.child.None?)
    && (s.mode != Active ==> s.diff == [])
    && (s.phase != Serving ==> s.mode == Active && s.child.value.exit == Some(true))
    && s.cap <= cfg.maxDiff
    && |s.diff| <= s.cap
    && (s.child.Some? ==> ChildOk(s, s.child.value))
    && (s.mode == Active ==> s.diff == EncodeAll(s.history[s.child.value.forkAt..]))
  }

  /** Past the diff write the temporary file is complete; past the flush it is durable. */
  ghost predicate FinalOk(s: State)
    requires LoggableAll(s.history)
  {
    s.phase in {Flushing, Reopening, Renaming} ==>
      && s.temp.Some? && s.temp.value in s.files && s.child.Some? && s.child.value.created.Some?
      && s.child.value.forkAt <= |s.history| && LoggableAll(s.child.value.emitted)
      && (s.phase == Renaming ==> s.newFd == s.temp.value)
      && var f := s.files[s.temp.value];
         && f.bytes == FileHeader(s.child.value.created.value) + EncodeAll(s.child.value.emitted)
                       + EncodeAll(s.history[s.child.value.forkAt..])
         && (s.phase != Flushing ==> f.flushed == |f.bytes|)
  }

  /** The files, the buffer and the flags are what they should be. */
  ghost predicate Solid(cfg: Config, s: State) {
    && StoredOk(s)
    && NamedOk(s)
    && DescriptorsOk(s)
    && RewriteOk(cfg, s)
    && FinalOk(s)
  }

  /** The commands since number `n`, whose records are those since number `h`, lead from `t` to the live
      tables. */
  ghost predicate Leads(s: State, t: Tables, n: nat, h: nat) {
    && n <= |s.past| == |s.before| && h <= |s.history| && LoggedIn(s.past[n..]) == s.history[h..]
    && Trail(t, s.before[n..], s.past[n..], s.tables, s.time)
  }

  ghost predicate ChildFaithful(s: State, c: Child) {
    && Leads(s, c.snapshot, c.bornAt, c.forkAt) && c.pos <= |c.order|
    && CapturesPart(c.emitted, c.snapshot, KeySet(c.order[..c.pos]), s.time)
  }

  /** The named file is a snapshot and the log of what was lived since, and the child's file will be. */
  ghost predicate Faithful(s: State) {
    && Captures(s.base, s.root, s.time) && Leads(s, s.root, s.rootAt, s.baseAt)
    && (s.child.Some? ==> ChildFaithful(s, s.child.value))
  }

  ghost predicate Inv(cfg: Config, s: State) {
    Solid(cfg, s) && Faithful(s)
  }

  // ----- Runs

  /** Every command since the snapshot in the named file is harmless to a reload at `T`: the logged ones
      are repeatable, those that went unlogged invisible. */
  ghost predicate AllHarmless(s: State, T: int) {
    && s.rootAt <= |s.past| == |s.before| && s.baseAt <= |s.history|
    && forall i :: s.rootAt <= i < |s.past| ==> Harmless(s.before[i], s.past[i], T)
  }

  /** No deadline in the log passes while it is being reloaded. */
  ghost predicate SteadyClock(log: seq<Record>, clock: nat -> int, T: int) {
    forall i :: 0 <= i < |log| ==> (Elapsed(log[i], clock(i)) <==> Elapsed(log[i], T))
  }

  /** A reload that repeats what was lived. */
  ghost predicate GoodReload(s: State, clock: nat -> int, T: int) {
    AllHarmless(s, T) && SteadyClock(FileLog(s), clock, T)
  }

  /** Every event is sound but a crash after which the reload is not good. */
  ghost predicate Sound(s: State, e: Event) {
    match e
    case Kill(c) => GoodReload(s, c.clock, c.now)
    case PowerLoss(c, _) => GoodReload(s, c.clock, c.now)
    case _ => true
  }

  /** Every event can happen where it stands. */
  ghost predicate Possible(cfg: Config, s: State, run: seq<Event>)
    decreases |run|
  {
    run != [] ==> Enabled(cfg, s, run[0]) && Possible(cfg, Step(cfg, s, run[0]), run[1..])
  }

  ghost function Final(cfg: Config, s: State, run: seq<Event>): (s': State)
    requires Possible(cfg, s, run)
    decreases |run|
  {
    if run == [] then s else Final(cfg, Step(cfg, s, run[0]), run[1..])
  }

  ghost predicate SoundRun(cfg: Config, s: State, run: seq<Event>)
    decreases |run|
  {
    run != [] ==> Enabled(cfg, s, run[0]) && Sound(s, run[0]) && SoundRun(cfg, Step(cfg, s, run[0]), run[1..])
  }
}
