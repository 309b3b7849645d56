/**
 * The on-disk configuration store (hemlock-mgmtd, store.rs): running, candidate
 * and the ring of rollback points. A rename and a whole-file write are each one
 * atomic step on the files.
 */
module RollbackStore {
  import opened Basics

  const RING_SIZE: nat := 50

  /** Commit metadata; an absent or unreadable file reads as `DEFAULT`. */
  datatype Meta = Meta(committedAt: string, comment: string, user: string, client: string)

  const DEFAULT := Meta("", "", "", "")

  /** `rollback/<n>.conf`, `rollback/<n>.json` and the three top-level files. */
  datatype Files = Files(
    confs: map<nat, string>,
    metas: map<nat, Meta>,
    running: Option<string>,
    runningMeta: Option<Meta>,
    candidate: Option<string>)

  const FRESH := Files(map[], map[], None, None, None)

  datatype Op =
    | RenameConf(n: nat)
    | RenameMeta(n: nat)
    | WriteConf(n: nat, text: string)
    | WriteMeta(n: nat, meta: Meta)
    | WriteRunning(text: string)
    | WriteRunningMeta(meta: Meta)
    | WriteCandidate(text: string)

  /** Renames go from slot n to slot n + 1; renaming a missing file fails and changes nothing. */
  function Exec(f: Files, op: Op): Files {
    match op
    case RenameConf(n) => if n in f.confs then f.(confs := (f.confs - {n})[n + 1 := f.confs[n]]) else f
    case RenameMeta(n) => if n in f.metas then f.(metas := (f.metas - {n})[n + 1 := f.metas[n]]) else f
    case WriteConf(n, text) => f.(confs := f.confs[n := text])
    case WriteMeta(n, meta) => f.(metas := f.metas[n := meta])
    case WriteRunning(text) => f.(running := Some(text))
    case WriteRunningMeta(meta) => f.(runningMeta := Some(meta))
    case WriteCandidate(text) => f.(candidate := Some(text))
  }

  /** The steps of an operation, in order. */
  datatype Script = Done | Step(op: Op, rest: Script)

  function Concat(a: Script, b: Script): Script {
    match a
    case Done => b
    case Step(op, rest) => Step(op, Concat(rest, b))
  }

  function ExecAll(f: Files, ops: Script): Files
    decreases ops
  {
    match ops
    case Done => f
    case Step(op, rest) => ExecAll(Exec(f, op), rest)
  }

  function RunningText(f: Files): string {
    if f.running.Some? then f.running.value else ""
  }

  function RunningMeta(f: Files): Meta {
    if f.runningMeta.Some? then f.runningMeta.value else DEFAULT
  }

  function CandidateText(f: Files): string {
    if f.candidate.Some? then f.candidate.value else RunningText(f)
  }

  /** The rename of one ring entry: its metadata follows when there is any. */
  function ShiftOne(f: Files, n: nat): Script {
    if n !in f.confs then Done
    else Step(RenameConf(n), if n in f.metas then Step(RenameMeta(n), Done) else Done)
  }

  /** Entries n, n - 1, ..., 1, each one slot up. */
  function Shift(f: Files, n: nat): Script {
    if n == 0 then Done else Concat(ShiftOne(f, n), Shift(f, n - 1))
  }

  /** After the first write only the metadata, the running files and the candidate change. */
  function LaterWrites(f: Files, text: string, meta: Meta): Script {
    Step(WriteMeta(1, RunningMeta(f)),
    Step(WriteRunning(text), Step(WriteRunningMeta(meta), Step(WriteCandidate(text), Done))))
  }

  function Writes(f: Files, text: string, meta: Meta): Script {
    Step(WriteConf(1, RunningText(f)), LaterWrites(f, text, meta))
  }

  function CommitOps(f: Files, text: string, meta: Meta): Script {
    Concat(Shift(f, RING_SIZE - 1), Writes(f, text, meta))
  }

  function Committed(f: Files, text: string, meta: Meta): Files {
    ExecAll(f, CommitOps(f, text, meta))
  }

  lemma {:induction false} ExecAllConcat(f: Files, a: Script, b: Script)
    ensures ExecAll(f, Concat(a, b)) == ExecAll(ExecAll(f, a), b)
    decreases a
  {
    if a.Step? { ExecAllConcat(Exec(f, a.op), a.rest, b); }
  }

  // ---------------------------------------------------------------- the ring while it shifts

  /** Slot k once every entry above n has moved up. */
  function Moved<T>(files: map<nat, T>, moves: nat -> bool, n: nat, k: nat): Option<T> {
    if k <= n || k > RING_SIZE then Get(files, k)
    else if k - 1 > n && moves(k - 1) then Get(files, k - 1)
    else if k < RING_SIZE && moves(k) then None
    else Get(files, k)
  }

  function ConfMoves(f: Files): nat -> bool { n => n in f.confs }

  function MetaMoves(f: Files): nat -> bool { n => n in f.confs && n in f.metas }

  ghost predicate AtLevel(f: Files, n: nat, g: Files) {
    g.running == f.running && g.runningMeta == f.runningMeta && g.candidate == f.candidate &&
    (forall k: nat :: Get(g.confs, k) == Moved(f.confs, ConfMoves(f), n, k)) &&
    (forall k: nat :: Get(g.metas, k) == Moved(f.metas, MetaMoves(f), n, k))
  }

  lemma ShiftOneExec(f: Files, n: nat, g: Files)
    requires n in f.confs
    ensures var h := Exec(g, RenameConf(n));
      ExecAll(g, ShiftOne(f, n)) == if n in f.metas then Exec(h, RenameMeta(n)) else h
  {
    var h := Exec(g, RenameConf(n));
    var rest := ShiftOne(f, n).rest;
    assert ExecAll(g, ShiftOne(f, n)) == ExecAll(h, rest);
    if n in f.metas { assert ExecAll(h, rest) == ExecAll(Exec(h, RenameMeta(n)), Done); }
  }

  lemma ShiftOneStep(f: Files, n: nat, g: Files)
    requires 0 < n < RING_SIZE && AtLevel(f, n, g)
    ensures AtLevel(f, n - 1, ExecAll(g, ShiftOne(f, n)))
  {
    assert Get(g.confs, n) == Get(f.confs, n) && Get(g.metas, n) == Get(f.metas, n);
    if n in f.confs {
      ShiftOneExec(f, n, g);
    }
    var h := ExecAll(g, ShiftOne(f, n));
    forall k: nat
      ensures Get(h.confs, k) == Moved(f.confs, ConfMoves(f), n - 1, k)
      ensures Get(h.metas, k) == Moved(f.metas, MetaMoves(f), n - 1, k)
    {
      assert Get(g.confs, k) == Moved(f.confs, ConfMoves(f), n, k);
      assert Get(g.metas, k) == Moved(f.metas, MetaMoves(f), n, k);
    }
  }

  lemma {:induction false} ShiftReaches(f: Files, n: nat, g: Files)
    requires n < RING_SIZE && AtLevel(f, n, g)
    ensures AtLevel(f, 0, ExecAll(g, Shift(f, n)))
  {
    if n > 0 {
      ShiftOneStep(f, n, g);
      ExecAllConcat(g, ShiftOne(f, n), Shift(f, n - 1));
      ShiftReaches(f, n - 1, ExecAll(g, ShiftOne(f, n)));
    }
  }

  lemma LevelTop(f: Files)
    ensures AtLevel(f, RING_SIZE - 1, f)
  {
  }

  lemma WritesDone(f: Files, g: Files, text: string, meta: Meta)
    ensures ExecAll(g, Writes(f, text, meta)) ==
      Files(g.confs[1 := RunningText(f)], g.metas[1 := RunningMeta(f)], Some(text), Some(meta), Some(text))
  {
    var one := Exec(g, WriteConf(1, RunningText(f)));
    var two := Exec(one, WriteMeta(1, RunningMeta(f)));
    var three := Exec(two, WriteRunning(text));
    var four := Exec(three, WriteRunningMeta(meta));
    var last := Step(WriteCandidate(text), Done);
    assert ExecAll(four, last) == ExecAll(Exec(four, WriteCandidate(text)), Done);
    assert ExecAll(three, Step(WriteRunningMeta(meta), last)) == ExecAll(four, last);
    assert ExecAll(one, LaterWrites(f, text, meta)) == ExecAll(two, LaterWrites(f, text, meta).rest);
  }

  // ---------------------------------------------------------------- the ring is a bounded history

  /** A stored configuration with the metadata of the commit that created it. */
  datatype Entry = Entry(text: string, meta: Meta)

  function Slot(history: seq<Entry>, k: nat): Option<Entry> {
    if 1 <= k <= RING_SIZE && k < |history| then Some(history[k]) else None
  }

  /** The files hold a history, newest first: running, then the ring up to its size. */
  ghost predicate Holds(f: Files, history: seq<Entry>) {
    history != [] && RunningText(f) == history[0].text && RunningMeta(f) == history[0].meta &&
    (forall k: nat :: Get(f.confs, k) == match Slot(history, k) case None => None case Some(e) => Some(e.text)) &&
    (forall k: nat :: Get(f.metas, k) == match Slot(history, k) case None => None case Some(e) => Some(e.meta))
  }

  /** A commit prepends to the bounded history and makes the new text the candidate. */
  lemma CommitPrepends(f: Files, history: seq<Entry>, text: string, meta: Meta)
    requires Holds(f, history)
    ensures Holds(Committed(f, text, meta), [Entry(text, meta)] + history)
    ensures CandidateText(Committed(f, text, meta)) == text
  {
    var g := ExecAll(f, Shift(f, RING_SIZE - 1));
    LevelTop(f);
    ShiftReaches(f, RING_SIZE - 1, f);
    ExecAllConcat(f, Shift(f, RING_SIZE - 1), Writes(f, text, meta));
    WritesDone(f, g, text, meta);
    var longer := [Entry(text, meta)] + history;
    forall k: nat
      ensures Get(g.confs[1 := RunningText(f)], k) ==
        match Slot(longer, k) case None => None case Some(e) => Some(e.text)
      ensures Get(g.metas[1 := RunningMeta(f)], k) ==
        match Slot(longer, k) case None => None case Some(e) => Some(e.meta)
    {
      if k > 1 {
        SlotUp(f, history, longer, g, k);
      } else {
        assert longer[1] == history[0];
        assert Get(g.confs, k) == Moved(f.confs, ConfMoves(f), 0, k);
        assert Get(g.metas, k) == Moved(f.metas, MetaMoves(f), 0, k);
      }
    }
  }

  lemma SlotUp(f: Files, history: seq<Entry>, longer: seq<Entry>, g: Files, k: nat)
    requires Holds(f, history) && AtLevel(f, 0, g) && k > 1
    requires |longer| == |history| + 1 && longer[1..] == history
    ensures Get(g.confs, k) == match Slot(longer, k) case None => None case Some(e) => Some(e.text)
    ensures Get(g.metas, k) == match Slot(longer, k) case None => None case Some(e) => Some(e.meta)
  {
    assert Slot(longer, k) == if k <= RING_SIZE then Slot(history, k - 1) else None by {
      if k <= RING_SIZE && k < |longer| { assert longer[k] == longer[1..][k - 1]; }
    }
    assert Get(f.confs, k - 1).Some? == Slot(history, k - 1).Some? == Get(f.metas, k - 1).Some?;
    assert Get(f.confs, k).Some? == Slot(history, k).Some? == Get(f.metas, k).Some?;
    assert Get(g.confs, k) == Moved(f.confs, ConfMoves(f), 0, k);
    assert Get(g.metas, k) == Moved(f.metas, MetaMoves(f), 0, k);
  }

  /** Everything that can happen to a store, newest last; a commit may be cut short, leaving some files. */
  datatype Log =
    | Opened
    | Commit(prior: Log, text: string, meta: Meta)
    | Cut(prior: Log, text: string, meta: Meta, left: Files)
    | SetCandidate(prior: Log, text: string)
    | Discard(prior: Log)

  function FilesOf(log: Log): Files {
    match log
    case Opened => FRESH
    case Commit(prior, text, meta) => Committed(FilesOf(prior), text, meta)
    case Cut(_, _, _, left) => left
    case SetCandidate(prior, text) => Exec(FilesOf(prior), WriteCandidate(text))
    case Discard(prior) => Exec(FilesOf(prior), WriteCandidate(RunningText(FilesOf(prior))))
  }

  /** Commits newest first, ending in the empty configuration before the first one. */
  function HistoryOf(log: Log): seq<Entry> {
    match log
    case Opened => [Entry("", DEFAULT)]
    case Commit(prior, text, meta) => [Entry(text, meta)] + HistoryOf(prior)
    case Cut(prior, _, _, _) => HistoryOf(prior)
    case SetCandidate(prior, _) => HistoryOf(prior)
    case Discard(prior) => HistoryOf(prior)
  }

  function DraftOf(log: Log): string {
    match log
    case Opened => ""
    case Commit(_, text, _) => text
    case Cut(_, _, _, left) => CandidateText(left)
    case SetCandidate(_, text) => text
    case Discard(prior) => RunningText(FilesOf(prior))
  }

  /** No commit was cut short. */
  predicate Uncut(log: Log) {
    match log
    case Opened => true
    case Commit(prior, _, _) => Uncut(prior)
    case Cut(_, _, _, _) => false
    case SetCandidate(prior, _) => Uncut(prior)
    case Discard(prior) => Uncut(prior)
  }

  /** After any log of whole commits the running files, the ring and the candidate are those of its history. */
  lemma {:induction false} RingIsHistory(log: Log)
    requires Uncut(log)
    ensures Holds(FilesOf(log), HistoryOf(log))
    ensures CandidateText(FilesOf(log)) == DraftOf(log)
  {
    match log {
      case Opened =>
      case Commit(prior, text, meta) =>
        RingIsHistory(prior);
        CommitPrepends(FilesOf(prior), HistoryOf(prior), text, meta);
      case SetCandidate(prior, text) =>
        RingIsHistory(prior);
      case Discard(prior) =>
        RingIsHistory(prior);
    }
  }

  // ---------------------------------------------------------------- a crash between two steps

  /** `g` is what a crash leaves: the files after some prefix of the steps. */
  ghost predicate Leaves(f: Files, ops: Script, g: Files)
    decreases ops
  {
    g == f || (ops.Step? && Leaves(Exec(f, ops.op), ops.rest, g))
  }

  lemma {:induction false} LeavesConcat(f: Files, a: Script, b: Script, g: Files)
    requires Leaves(f, Concat(a, b), g)
    ensures Leaves(f, a, g) || Leaves(ExecAll(f, a), b, g)
    decreases a
  {
    if a.Step? && g != f { LeavesConcat(Exec(f, a.op), a.rest, b, g); }
  }

  /** Every entry but the oldest slot is still in its slot or one up. */
  ghost predicate RingKept(f: Files, g: Files) {
    forall n :: 1 <= n < RING_SIZE && n in f.confs ==>
      Get(g.confs, n) == Some(f.confs[n]) || Get(g.confs, n + 1) == Some(f.confs[n])
  }

  /** The running configuration is the old or the new one, and the old one is never lost. */
  ghost predicate RunningKept(f: Files, text: string, g: Files) {
    (g.running == f.running || g.running == Some(text)) &&
    (g.running == f.running || Get(g.confs, 1) == Some(RunningText(f)))
  }

  lemma LevelKept(f: Files, n: nat, g: Files)
    requires n < RING_SIZE && AtLevel(f, n, g)
    ensures RingKept(f, g)
  {
    forall m | 1 <= m < RING_SIZE && m in f.confs
      ensures Get(g.confs, m) == Some(f.confs[m]) || Get(g.confs, m + 1) == Some(f.confs[m])
    {
      assert Get(g.confs, m) == Moved(f.confs, ConfMoves(f), n, m);
      assert Get(g.confs, m + 1) == Moved(f.confs, ConfMoves(f), n, m + 1);
    }
  }

  lemma ShiftOneKept(f: Files, n: nat, g: Files, crash: Files)
    requires 0 < n < RING_SIZE && AtLevel(f, n, g) && Leaves(g, ShiftOne(f, n), crash)
    ensures crash.running == f.running && RingKept(f, crash)
  {
    LevelKept(f, n, g);
    ShiftOneStep(f, n, g);
    var end := ExecAll(g, ShiftOne(f, n));
    LevelKept(f, n - 1, end);
    if n in f.confs {
      ShiftOneExec(f, n, g);
      var h := Exec(g, RenameConf(n));
      var rest := ShiftOne(f, n).rest;
      assert crash == g || Leaves(h, rest, crash);
      if n in f.metas && Leaves(h, rest, crash) {
        assert crash == h || Leaves(Exec(h, RenameMeta(n)), Done, crash);
      }
    }
  }

  lemma {:induction false} ShiftKept(f: Files, n: nat, g: Files, crash: Files)
    requires n < RING_SIZE && AtLevel(f, n, g) && Leaves(g, Shift(f, n), crash)
    ensures crash.running == f.running && RingKept(f, crash)
  {
    if n == 0 {
      LevelKept(f, 0, g);
    } else {
      LeavesConcat(g, ShiftOne(f, n), Shift(f, n - 1), crash);
      if Leaves(g, ShiftOne(f, n), crash) {
        ShiftOneKept(f, n, g, crash);
      } else {
        ShiftOneStep(f, n, g);
        ShiftKept(f, n - 1, ExecAll(g, ShiftOne(f, n)), crash);
      }
    }
  }

  lemma WritesKept(f: Files, g: Files, text: string, meta: Meta, crash: Files)
    requires AtLevel(f, 0, g) && Leaves(g, Writes(f, text, meta), crash)
    ensures RingKept(f, crash) && RunningKept(f, text, crash)
  {
    LevelKept(f, 0, g);
    forall n | 1 <= n < RING_SIZE && n in f.confs ensures Get(g.confs, n + 1) == Some(f.confs[n]) {
      assert Get(g.confs, n + 1) == Moved(f.confs, ConfMoves(f), 0, n + 1);
    }
    if crash != g {
      assert LaterOnly(LaterWrites(f, text, meta).rest.rest, text);
      WritesTail(f, text, Exec(g, WriteConf(1, RunningText(f))), LaterWrites(f, text, meta), crash);
    }
  }

  predicate LaterOnly(ops: Script, text: string) {
    ops.Step? ==>
      (ops.op.WriteMeta? || ops.op == WriteRunning(text) || ops.op.WriteRunningMeta? || ops.op.WriteCandidate?) &&
      LaterOnly(ops.rest, text)
  }

  /** The writes after the first leave the ring's texts alone. */
  lemma {:induction false} WritesTail(f: Files, text: string, g: Files, ops: Script, crash: Files)
    requires Leaves(g, ops, crash) && Get(g.confs, 1) == Some(RunningText(f)) && LaterOnly(ops, text)
    requires g.running == f.running || g.running == Some(text)
    ensures crash.confs == g.confs && RunningKept(f, text, crash)
    decreases ops
  {
    if crash != g { WritesTail(f, text, Exec(g, ops.op), ops.rest, crash); }
  }

  /** Wherever a commit is cut short, nothing but the oldest entry can be gone. */
  lemma CrashSafe(f: Files, text: string, meta: Meta, crash: Files)
    requires Leaves(f, CommitOps(f, text, meta), crash)
    ensures RunningKept(f, text, crash) && RingKept(f, crash)
  {
    LevelTop(f);
    LeavesConcat(f, Shift(f, RING_SIZE - 1), Writes(f, text, meta), crash);
    if Leaves(f, Shift(f, RING_SIZE - 1), crash) {
      ShiftKept(f, RING_SIZE - 1, f, crash);
    } else {
      ShiftReaches(f, RING_SIZE - 1, f);
      WritesKept(f, ExecAll(f, Shift(f, RING_SIZE - 1)), text, meta, crash);
    }
  }

  // ---------------------------------------------------------------- listing the ring

  /** Slots 1 to n that hold a configuration, with their metadata. */
  function Rollbacks(f: Files, n: nat): seq<(nat, Meta)> {
    if n == 0 then []
    else Rollbacks(f, n - 1) + if n in f.confs then [(n, if n in f.metas then f.metas[n] else DEFAULT)] else []
  }

  /** The listing is the history behind running, one entry per commit, at most a ring of them. */
  lemma {:induction false} RollbacksAreHistory(f: Files, history: seq<Entry>, n: nat)
    requires Holds(f, history) && n <= RING_SIZE
    ensures var points := Rollbacks(f, n);
      && |points| == (if |history| <= n then |history| - 1 else n)
      && forall i :: 0 <= i < |points| ==> points[i] == (i + 1, history[i + 1].meta)
  {
    if n > 0 {
      RollbacksAreHistory(f, history, n - 1);
      assert Get(f.confs, n) == match Slot(history, n) case None => None case Some(e) => Some(e.text);
      assert Get(f.metas, n) == match Slot(history, n) case None => None case Some(e) => Some(e.meta);
    }
  }

  // ---------------------------------------------------------------- the store object

  class Store {
    var files: Files

    constructor Open()
      ensures files == FRESH
    {
      files := FRESH;
    }

    method Do(op: Op)
      modifies this
      ensures files == Exec(old(files), op)
    {
      files := Exec(files, op);
    }

    /** Rotate the ring downwards from its end, then write slot 1, running and candidate. */
    method Commit(text: string, meta: Meta)
      modifies this
      ensures files == Committed(old(files), text, meta)
    {
      ghost var before := files;
      ExecAllConcat(before, Shift(before, RING_SIZE - 1), Writes(before, text, meta));
      LevelTop(before);
      var n: nat := RING_SIZE - 1;
      while n > 0
        invariant n < RING_SIZE && AtLevel(before, n, files)
        invariant ExecAll(files, Shift(before, n)) == ExecAll(before, Shift(before, RING_SIZE - 1))
      {
        ghost var g := files;
        assert Get(g.confs, n) == Get(before.confs, n) && Get(g.metas, n) == Get(before.metas, n);
        ExecAllConcat(g, ShiftOne(before, n), Shift(before, n - 1));
        ShiftOneStep(before, n, g);
        if n in files.confs {
          ShiftOneExec(before, n, g);
          Do(RenameConf(n));
          if n in files.metas {
            Do(RenameMeta(n));
          }
        }
        n := n - 1;
      }
      WritesDone(before, files, text, meta);
      Do(WriteConf(1, RunningText(files)));
      Do(WriteMeta(1, RunningMeta(files)));
      Do(WriteRunning(text));
      Do(WriteRunningMeta(meta));
      Do(WriteCandidate(text));
    }

    /** The draft reads back, and nothing committed changes. */
    method SetDraft(text: string)
      modifies this
      ensures CandidateText(files) == text
      ensures files.confs == old(files.confs) && files.metas == old(files.metas)
      ensures RunningText(files) == old(RunningText(files)) && RunningMeta(files) == old(RunningMeta(files))
    {
      Do(WriteCandidate(text));
    }

    /** The draft is the running text again, and nothing committed changes. */
    method DiscardDraft()
      modifies this
      ensures CandidateText(files) == RunningText(files) == old(RunningText(files))
      ensures files.confs == old(files.confs) && files.metas == old(files.metas)
      ensures RunningMeta(files) == old(RunningMeta(files))
    {
      Do(WriteCandidate(RunningText(files)));
    }

    /** The rollback points, newest first, each with its metadata. */
    method ListRollbacks() returns (points: seq<(nat, Meta)>)
      ensures points == Rollbacks(files, RING_SIZE)
    {
      points := [];
      var n := 0;
      while n < RING_SIZE
        invariant n <= RING_SIZE && points == Rollbacks(files, n)
      {
        n := n + 1;
        if n in files.confs {
          points := points + [(n, if n in files.metas then files.metas[n] else DEFAULT)];
        }
      }
    }
  }
}
