/**
 * The rollback ring when commits may be cut short (hemlock-mgmtd, store.rs): whose
 * metadata a slot shows, after one commit and over whole logs.
 */
module RollbackCrashes {
  import opened Basics
  import opened RollbackStore

  // ---------------------------------------------------------------- one slot through a commit

  /** What moves into slot k + 1: the entry of slot k, or the running files for slot zero. */
  function TextAt(f: Files, k: nat): Option<string> {
    if k == 0 then Some(RunningText(f)) else Get(f.confs, k)
  }

  function MetaAt(f: Files, k: nat): Option<Meta> {
    if k == 0 then Some(RunningMeta(f)) else Get(f.metas, k)
  }

  /** The metadata left in a slot when the next text arrives: none, unless nothing carried it away. */
  function Stale(f: Files, k: nat): Option<Meta> {
    if k < RING_SIZE && k in f.confs then None else Get(f.metas, k)
  }

  /** The states a slot goes through: untouched, without its text, with the text from below, with its metadata too. */
  predicate Staged(f: Files, k: nat, g: Files)
    requires k > 0
  {
    var conf, meta := Get(g.confs, k), Get(g.metas, k);
    (conf == Get(f.confs, k) && meta == Get(f.metas, k)) ||
    (conf == None && (meta == None || meta == Get(f.metas, k))) ||
    (conf == TextAt(f, k - 1) && (meta == Stale(f, k) || meta == MetaAt(f, k - 1)))
  }

  lemma LevelStaged(f: Files, n: nat, g: Files, k: nat)
    requires n < RING_SIZE && AtLevel(f, n, g) && 1 <= k <= RING_SIZE
    ensures Staged(f, k, g)
  {
    assert Get(g.confs, k) == Moved(f.confs, ConfMoves(f), n, k);
    assert Get(g.metas, k) == Moved(f.metas, MetaMoves(f), n, k);
  }

  /** Between the two renames of entry n its text shows what was left in slot n + 1. */
  lemma HalfMoved(f: Files, n: nat, g: Files, k: nat)
    requires 0 < n < RING_SIZE && AtLevel(f, n, g) && n in f.confs && 1 <= k <= RING_SIZE
    ensures var h := Exec(g, RenameConf(n));
      Staged(f, k, h) && Get(h.confs, n + 1) == TextAt(f, n) && Get(h.metas, n + 1) == Stale(f, n + 1)
  {
    LevelStaged(f, n, g, k);
    assert Get(g.confs, n) == Moved(f.confs, ConfMoves(f), n, n);
    assert Get(g.metas, n + 1) == Moved(f.metas, MetaMoves(f), n, n + 1);
  }

  lemma ShiftOneStaged(f: Files, n: nat, g: Files, crash: Files, k: nat)
    requires 0 < n < RING_SIZE && AtLevel(f, n, g) && Leaves(g, ShiftOne(f, n), crash) && 1 <= k <= RING_SIZE
    ensures Staged(f, k, crash)
  {
    LevelStaged(f, n, g, k);
    ShiftOneStep(f, n, g);
    LevelStaged(f, n - 1, ExecAll(g, ShiftOne(f, n)), k);
    if n in f.confs {
      ShiftOneExec(f, n, g);
      HalfMoved(f, n, g, k);
      var h := Exec(g, RenameConf(n));
      var rest := ShiftOne(f, n).rest;
      assert crash == g || Leaves(h, rest, crash);
      if n in f.metas && Leaves(h, rest, crash) {
        assert crash == h || Leaves(Exec(h, RenameMeta(n)), Done, crash);
      }
    }
  }

  lemma {:induction false} ShiftStaged(f: Files, n: nat, g: Files, crash: Files, k: nat)
    requires n < RING_SIZE && AtLevel(f, n, g) && Leaves(g, Shift(f, n), crash) && 1 <= k <= RING_SIZE
    ensures Staged(f, k, crash)
  {
    if n == 0 {
      LevelStaged(f, 0, g, k);
    } else {
      LeavesConcat(g, ShiftOne(f, n), Shift(f, n - 1), crash);
      if Leaves(g, ShiftOne(f, n), crash) {
        ShiftOneStaged(f, n, g, crash, k);
      } else {
        ShiftOneStep(f, n, g);
        ShiftStaged(f, n - 1, ExecAll(g, ShiftOne(f, n)), crash, k);
      }
    }
  }

  predicate TopLevelOnly(ops: Script) {
    ops.Step? ==> (ops.op.WriteRunning? || ops.op.WriteRunningMeta? || ops.op.WriteCandidate?) && TopLevelOnly(ops.rest)
  }

  lemma {:induction false} RingUntouched(g: Files, ops: Script, crash: Files)
    requires Leaves(g, ops, crash) && TopLevelOnly(ops)
    ensures crash.confs == g.confs && crash.metas == g.metas
    decreases ops
  {
    if crash != g { RingUntouched(Exec(g, ops.op), ops.rest, crash); }
  }

  lemma WritesStaged(f: Files, g: Files, text: string, meta: Meta, crash: Files, k: nat)
    requires AtLevel(f, 0, g) && Leaves(g, Writes(f, text, meta), crash) && 1 <= k <= RING_SIZE
    ensures Staged(f, k, crash)
  {
    LevelStaged(f, 0, g, k);
    if crash != g {
      var one := Exec(g, WriteConf(1, RunningText(f)));
      var two := Exec(one, WriteMeta(1, RunningMeta(f)));
      var rest := LaterWrites(f, text, meta).rest;
      assert Leaves(one, LaterWrites(f, text, meta), crash);
      if crash != one {
        assert TopLevelOnly(rest.rest);
        RingUntouched(two, rest, crash);
      }
      assert Get(g.metas, 1) == Moved(f.metas, MetaMoves(f), 0, 1);
    }
  }

  /** Wherever a commit stops, each slot is in one of its stages. */
  lemma CrashStaged(f: Files, text: string, meta: Meta, crash: Files, k: nat)
    requires Leaves(f, CommitOps(f, text, meta), crash) && 1 <= k <= RING_SIZE
    ensures Staged(f, k, crash)
  {
    LevelTop(f);
    LeavesConcat(f, Shift(f, RING_SIZE - 1), Writes(f, text, meta), crash);
    if Leaves(f, Shift(f, RING_SIZE - 1), crash) {
      ShiftStaged(f, RING_SIZE - 1, f, crash, k);
    } else {
      ShiftReaches(f, RING_SIZE - 1, f);
      WritesStaged(f, ExecAll(f, Shift(f, RING_SIZE - 1)), text, meta, crash, k);
    }
  }

  // ---------------------------------------------------------------- whose metadata a slot shows

  /** A slot's text with the metadata it had where it came from, or, freshly moved, with none. */
  predicate Attributed(f: Files, k: nat, g: Files)
    requires k > 0
  {
    k in g.confs ==>
      (Some(g.confs[k]) == Get(f.confs, k) && Get(g.metas, k) == Get(f.metas, k)) ||
      (Some(g.confs[k]) == TextAt(f, k - 1) && (k !in g.metas || Get(g.metas, k) == MetaAt(f, k - 1)))
  }

  /**
   * Metadata no text will carry away from slot k: it belongs to no text, or to the one the
   * ring drops; and a text with other metadata, or none, is about to move in.
   */
  predicate Foreign(f: Files, k: nat)
    requires k > 0
  {
    k in f.metas && TextAt(f, k - 1).Some? && MetaAt(f, k - 1) != Get(f.metas, k) &&
    (k !in f.confs || (k == RING_SIZE && TextAt(f, k - 1) != Get(f.confs, k)))
  }

  ghost predicate AlwaysAttributed(f: Files, text: string, meta: Meta, k: nat)
    requires k > 0
  {
    forall crash :: Leaves(f, CommitOps(f, text, meta), crash) ==> Attributed(f, k, crash)
  }

  lemma {:induction false} LeavesLater(f: Files, a: Script, b: Script, g: Files)
    requires Leaves(ExecAll(f, a), b, g)
    ensures Leaves(f, Concat(a, b), g)
    decreases a
  {
    if a.Step? { LeavesLater(Exec(f, a.op), a.rest, b, g); }
  }

  lemma {:induction false} LeavesSooner(f: Files, a: Script, b: Script, g: Files)
    requires Leaves(f, a, g)
    ensures Leaves(f, Concat(a, b), g)
    decreases a
  {
    if a.Step? && g != f { LeavesSooner(Exec(f, a.op), a.rest, b, g); }
  }

  /** The store can stop between the two renames of any entry. */
  lemma {:induction false} StopsHalf(f: Files, m: nat, g: Files, n: nat) returns (h: Files)
    requires 0 < n <= m < RING_SIZE && AtLevel(f, m, g) && n in f.confs
    ensures AtLevel(f, n, h) && Leaves(g, Shift(f, m), Exec(h, RenameConf(n)))
    decreases m
  {
    if m == n {
      h := g;
      var half := Exec(g, RenameConf(n));
      assert Leaves(half, ShiftOne(f, n).rest, half) && Leaves(g, ShiftOne(f, n), half);
      LeavesSooner(g, ShiftOne(f, n), Shift(f, n - 1), half);
    } else {
      ShiftOneStep(f, m, g);
      h := StopsHalf(f, m - 1, ExecAll(g, ShiftOne(f, m)), n);
      LeavesLater(g, ShiftOne(f, m), Shift(f, m - 1), Exec(h, RenameConf(n)));
    }
  }

  /** A crash that shows the stale metadata of slot k on the text moving in. */
  lemma StopsStale(f: Files, text: string, meta: Meta, k: nat) returns (crash: Files)
    requires 1 <= k <= RING_SIZE && TextAt(f, k - 1).Some?
    ensures Leaves(f, CommitOps(f, text, meta), crash)
    ensures Get(crash.confs, k) == TextAt(f, k - 1) && Get(crash.metas, k) == Stale(f, k)
  {
    LevelTop(f);
    if k > 1 {
      var h := StopsHalf(f, RING_SIZE - 1, f, k - 1);
      HalfMoved(f, k - 1, h, k);
      crash := Exec(h, RenameConf(k - 1));
      LeavesSooner(f, Shift(f, RING_SIZE - 1), Writes(f, text, meta), crash);
    } else {
      ShiftReaches(f, RING_SIZE - 1, f);
      var g := ExecAll(f, Shift(f, RING_SIZE - 1));
      crash := Exec(g, WriteConf(1, RunningText(f)));
      assert Get(g.metas, 1) == Moved(f.metas, MetaMoves(f), 0, 1);
      assert Leaves(crash, LaterWrites(f, text, meta), crash) && Leaves(g, Writes(f, text, meta), crash);
      LeavesLater(f, Shift(f, RING_SIZE - 1), Writes(f, text, meta), crash);
    }
  }

  /** No stop of a commit, nor its end, puts other metadata on slot k, exactly when none is foreign there. */
  lemma AttributedIff(f: Files, text: string, meta: Meta, k: nat)
    requires 1 <= k <= RING_SIZE
    ensures AlwaysAttributed(f, text, meta, k) <==> !Foreign(f, k)
  {
    if Foreign(f, k) {
      var crash := StopsStale(f, text, meta, k);
      assert !Attributed(f, k, crash);
    } else {
      forall crash | Leaves(f, CommitOps(f, text, meta), crash) ensures Attributed(f, k, crash) {
        CrashStaged(f, text, meta, crash, k);
      }
    }
  }

  /** Slot k after a whole commit. */
  lemma CommittedSlot(f: Files, text: string, meta: Meta, k: nat)
    requires 1 <= k <= RING_SIZE
    ensures Get(Committed(f, text, meta).confs, k) ==
      if TextAt(f, k - 1).Some? then TextAt(f, k - 1)
      else if k < RING_SIZE then None
      else Get(f.confs, k)
    ensures Get(Committed(f, text, meta).metas, k) ==
      if TextAt(f, k - 1).Some? && MetaAt(f, k - 1).Some? then MetaAt(f, k - 1) else Stale(f, k)
  {
    LevelTop(f);
    ShiftReaches(f, RING_SIZE - 1, f);
    ExecAllConcat(f, Shift(f, RING_SIZE - 1), Writes(f, text, meta));
    var g := ExecAll(f, Shift(f, RING_SIZE - 1));
    WritesDone(f, g, text, meta);
    assert Get(g.confs, k) == Moved(f.confs, ConfMoves(f), 0, k);
    assert Get(g.metas, k) == Moved(f.metas, MetaMoves(f), 0, k);
  }

  /** A whole commit misattributes slot k exactly when the text moving in brings no metadata of its own. */
  lemma CommittedAttributedIff(f: Files, text: string, meta: Meta, k: nat)
    requires 1 <= k <= RING_SIZE
    ensures Attributed(f, k, Committed(f, text, meta)) <==> !(Foreign(f, k) && MetaAt(f, k - 1).None?)
  {
    CommittedSlot(f, text, meta, k);
  }

  /** The last slot, spelled out. */
  lemma LastSlotIff(f: Files, text: string, meta: Meta)
    ensures AlwaysAttributed(f, text, meta, 50) <==>
      !(49 in f.confs && 50 in f.metas && Get(f.confs, 49) != Get(f.confs, 50) && Get(f.metas, 49) != Get(f.metas, 50))
  {
    AttributedIff(f, text, meta, 50);
  }

  // ---------------------------------------------------------------- whole logs

  /** Every cut left what some prefix of its commit's steps leaves. */
  ghost predicate IsLog(log: Log) {
    match log
    case Opened => true
    case Commit(prior, _, _) => IsLog(prior)
    case Cut(prior, text, meta, left) =>
      IsLog(prior) && Leaves(FilesOf(prior), CommitOps(FilesOf(prior), text, meta), left)
    case SetCandidate(prior, _) => IsLog(prior)
    case Discard(prior) => IsLog(prior)
  }

  /** Commits that were made or tried, and the empty configuration before them. */
  function Entries(log: Log): set<Entry> {
    match log
    case Opened => {Entry("", DEFAULT)}
    case Commit(prior, text, meta) => Entries(prior) + {Entry(text, meta)}
    case Cut(prior, text, meta, _) => Entries(prior) + {Entry(text, meta)}
    case SetCandidate(prior, _) => Entries(prior)
    case Discard(prior) => Entries(prior)
  }

  function Texts(log: Log): set<string> {
    set e <- Entries(log) :: e.text
  }

  /** The text of the last whole commit, and of those cut short since. */
  function Recent(log: Log): set<string> {
    match log
    case Opened => {""}
    case Commit(_, text, _) => {text}
    case Cut(prior, text, _, _) => Recent(prior) + {text}
    case SetCandidate(prior, _) => Recent(prior)
    case Discard(prior) => Recent(prior)
  }

  lemma {:induction false} RecentTexts(log: Log)
    ensures Recent(log) <= Texts(log)
  {
    match log {
      case Opened =>
        assert Entry("", DEFAULT) in Entries(log);
      case Commit(prior, text, meta) =>
        assert Entry(text, meta) in Entries(log);
      case Cut(prior, text, meta, _) =>
        RecentTexts(prior);
        assert Entry(text, meta) in Entries(log);
        MoreTexts(prior, log);
      case SetCandidate(prior, _) => RecentTexts(prior);
      case Discard(prior) => RecentTexts(prior);
    }
  }

  lemma MoreTexts(prior: Log, log: Log)
    requires Entries(prior) <= Entries(log)
    ensures Texts(prior) <= Texts(log)
  {
    forall t | t in Texts(prior) ensures t in Texts(log) {
      var e :| e in Entries(prior) && e.text == t;
      assert e in Entries(log);
    }
  }

  ghost predicate RingKnown(f: Files, texts: set<string>) {
    forall k | 1 <= k <= RING_SIZE && k in f.confs :: f.confs[k] in texts
  }

  lemma StagedKnown(f: Files, g: Files, texts: set<string>)
    requires RingKnown(f, texts) && RunningText(f) in texts
    requires forall k :: 1 <= k <= RING_SIZE ==> Staged(f, k, g)
    ensures RingKnown(g, texts)
  {
    forall k | 1 <= k <= RING_SIZE && k in g.confs ensures g.confs[k] in texts {
      assert Staged(f, k, g);
    }
  }

  lemma {:induction false} LeavesAll(f: Files, ops: Script)
    ensures Leaves(f, ops, ExecAll(f, ops))
    decreases ops
  {
    if ops.Step? { LeavesAll(Exec(f, ops.op), ops.rest); }
  }

  /** A whole commit is the last of its own stops. */
  lemma CommitKnown(f: Files, text: string, meta: Meta, g: Files, texts: set<string>)
    requires Leaves(f, CommitOps(f, text, meta), g)
    requires RingKnown(f, texts) && RunningText(f) in texts
    ensures RingKnown(g, texts)
  {
    forall k | 1 <= k <= RING_SIZE ensures Staged(f, k, g) {
      CrashStaged(f, text, meta, g, k);
    }
    StagedKnown(f, g, texts);
  }

  /**
   * After any log, cuts included, the running text is that of the last whole commit or of one
   * tried since, and every text of the ring was committed or tried.
   */
  lemma {:induction false} LogKeepsTexts(log: Log)
    requires IsLog(log)
    ensures RunningText(FilesOf(log)) in Recent(log)
    ensures RingKnown(FilesOf(log), Texts(log))
  {
    if !log.Opened? {
      var prior := log.prior;
      var f := FilesOf(prior);
      LogKeepsTexts(prior);
      RecentTexts(prior);
      MoreTexts(prior, log);
      match log {
        case Commit(_, text, meta) =>
          LeavesAll(f, CommitOps(f, text, meta));
          CommitKnown(f, text, meta, FilesOf(log), Texts(log));
          CommittedTop(f, text, meta);
        case Cut(_, text, meta, left) =>
          CommitKnown(f, text, meta, left, Texts(log));
          CrashSafe(f, text, meta, left);
        case SetCandidate(_, _) =>
        case Discard(_) =>
      }
    }
  }

  lemma CommittedTop(f: Files, text: string, meta: Meta)
    ensures Committed(f, text, meta).running == Some(text) && Committed(f, text, meta).runningMeta == Some(meta)
  {
    ExecAllConcat(f, Shift(f, RING_SIZE - 1), Writes(f, text, meta));
    WritesDone(f, ExecAll(f, Shift(f, RING_SIZE - 1)), text, meta);
  }

  // ---------------------------------------------------------------- which slots can lie

  /** The commit was cut between the running text and its metadata. */
  predicate TornRunning(f: Files, text: string, meta: Meta, left: Files) {
    left.running == Some(text) && left.runningMeta == f.runningMeta && RunningText(f) != text && RunningMeta(f) != meta
  }

  /**
   * The slots, zero being the running files, that may show metadata of another commit: a lie
   * starts where metadata is foreign or where the running files are torn, and moves with its text.
   */
  ghost predicate Doubtful(log: Log, k: nat) {
    match log
    case Opened => false
    case Commit(prior, _, _) =>
      k > 0 &&
      (Doubtful(prior, k - 1) || (k == RING_SIZE && Doubtful(prior, k)) ||
       (Foreign(FilesOf(prior), k) && MetaAt(FilesOf(prior), k - 1).None?))
    case Cut(prior, text, meta, left) =>
      if k == 0 then
        TornRunning(FilesOf(prior), text, meta, left) ||
        (RunningText(left) == RunningText(FilesOf(prior)) && Doubtful(prior, 0))
      else Doubtful(prior, k - 1) || Doubtful(prior, k) || Foreign(FilesOf(prior), k)
    case SetCandidate(prior, _) => Doubtful(prior, k)
    case Discard(prior) => Doubtful(prior, k)
  }

  /** Slot k shows a commit's text with that commit's metadata, or shows none. */
  ghost predicate Honest(f: Files, k: nat, entries: set<Entry>) {
    TextAt(f, k).Some? && MetaAt(f, k).Some? ==> Entry(TextAt(f, k).value, MetaAt(f, k).value) in entries
  }

  /** The running files of a stopped commit: old, torn or new. */
  lemma {:induction false} TopStaged(f: Files, text: string, meta: Meta, crash: Files)
    requires Leaves(f, CommitOps(f, text, meta), crash)
    ensures (crash.running == f.running && crash.runningMeta == f.runningMeta) ||
      (crash.running == Some(text) && (crash.runningMeta == f.runningMeta || crash.runningMeta == Some(meta)))
  {
    LevelTop(f);
    LeavesConcat(f, Shift(f, RING_SIZE - 1), Writes(f, text, meta), crash);
    if Leaves(f, Shift(f, RING_SIZE - 1), crash) {
      ShiftTop(f, f, RING_SIZE - 1, crash);
    } else {
      ShiftReaches(f, RING_SIZE - 1, f);
      WritesTop(f, ExecAll(f, Shift(f, RING_SIZE - 1)), text, meta, crash);
    }
  }

  predicate RenamesOnly(ops: Script) {
    ops.Step? ==> (ops.op.RenameConf? || ops.op.RenameMeta?) && RenamesOnly(ops.rest)
  }

  lemma {:induction false} RenamesConcat(a: Script, b: Script)
    requires RenamesOnly(a) && RenamesOnly(b)
    ensures RenamesOnly(Concat(a, b))
  {
    if a.Step? { RenamesConcat(a.rest, b); }
  }

  lemma {:induction false} ShiftRenames(f: Files, n: nat)
    ensures RenamesOnly(Shift(f, n))
  {
    if n > 0 {
      ShiftRenames(f, n - 1);
      RenamesConcat(ShiftOne(f, n), Shift(f, n - 1));
    }
  }

  lemma {:induction false} RenamesTop(g: Files, ops: Script, crash: Files)
    requires Leaves(g, ops, crash) && RenamesOnly(ops)
    ensures crash.running == g.running && crash.runningMeta == g.runningMeta
    decreases ops
  {
    if crash != g { RenamesTop(Exec(g, ops.op), ops.rest, crash); }
  }

  lemma ShiftTop(f: Files, g: Files, n: nat, crash: Files)
    requires Leaves(g, Shift(f, n), crash)
    ensures crash.running == g.running && crash.runningMeta == g.runningMeta
  {
    ShiftRenames(f, n);
    RenamesTop(g, Shift(f, n), crash);
  }

  lemma WritesTop(f: Files, g: Files, text: string, meta: Meta, crash: Files)
    requires AtLevel(f, 0, g) && Leaves(g, Writes(f, text, meta), crash)
    ensures (crash.running == f.running && crash.runningMeta == f.runningMeta) ||
      (crash.running == Some(text) && (crash.runningMeta == f.runningMeta || crash.runningMeta == Some(meta)))
  {
    var one := Exec(g, WriteConf(1, RunningText(f)));
    var two := Exec(one, WriteMeta(1, RunningMeta(f)));
    var three := Exec(two, WriteRunning(text));
    var four := Exec(three, WriteRunningMeta(meta));
    var last := Step(WriteCandidate(text), Done);
    assert crash == g || Leaves(one, LaterWrites(f, text, meta), crash);
    if crash != g && crash != one && crash != two {
      assert Leaves(two, LaterWrites(f, text, meta).rest, crash);
      assert Leaves(three, Step(WriteRunningMeta(meta), last), crash);
      if crash != three {
        assert Leaves(four, last, crash);
        assert crash == four || Leaves(Exec(four, WriteCandidate(text)), Done, crash);
      }
    }
  }

  lemma MoreHonest(f: Files, k: nat, entries: set<Entry>, more: set<Entry>)
    requires Honest(f, k, entries) && entries <= more
    ensures Honest(f, k, more)
  {
  }

  /** A stopped commit keeps an honest slot honest unless the metadata there is foreign. */
  lemma CutHonest(f: Files, text: string, meta: Meta, left: Files, k: nat, entries: set<Entry>)
    requires Leaves(f, CommitOps(f, text, meta), left) && 1 <= k <= RING_SIZE
    requires Honest(f, k, entries) && Honest(f, k - 1, entries) && !Foreign(f, k)
    ensures Honest(left, k, entries)
  {
    CrashStaged(f, text, meta, left, k);
  }

  lemma CommitHonest(f: Files, text: string, meta: Meta, k: nat, entries: set<Entry>)
    requires 1 <= k <= RING_SIZE && Honest(f, k - 1, entries) && (k == RING_SIZE ==> Honest(f, k, entries))
    requires !(Foreign(f, k) && MetaAt(f, k - 1).None?)
    ensures Honest(Committed(f, text, meta), k, entries)
  {
    CommittedSlot(f, text, meta, k);
  }

  /** After any log a slot that is not doubtful shows its own commit's metadata or none. */
  lemma {:induction false} LogHonest(log: Log, k: nat)
    requires IsLog(log) && k <= RING_SIZE && !Doubtful(log, k)
    ensures Honest(FilesOf(log), k, Entries(log))
    decreases log
  {
    match log {
      case Opened =>
      case Commit(prior, text, meta) =>
        CommittedTop(FilesOf(prior), text, meta);
        if k > 0 {
          LogHonest(prior, k - 1);
          MoreHonest(FilesOf(prior), k - 1, Entries(prior), Entries(log));
          if k == RING_SIZE {
            LogHonest(prior, k);
            MoreHonest(FilesOf(prior), k, Entries(prior), Entries(log));
          }
          CommitHonest(FilesOf(prior), text, meta, k, Entries(log));
        }
      case Cut(prior, text, meta, left) =>
        TopStaged(FilesOf(prior), text, meta, left);
        if k > 0 {
          LogHonest(prior, k - 1);
          LogHonest(prior, k);
          MoreHonest(FilesOf(prior), k - 1, Entries(prior), Entries(log));
          MoreHonest(FilesOf(prior), k, Entries(prior), Entries(log));
          CutHonest(FilesOf(prior), text, meta, left, k, Entries(log));
        } else if RunningText(left) == RunningText(FilesOf(prior)) {
          LogHonest(prior, 0);
        }
      case SetCandidate(prior, _) => LogHonest(prior, k);
      case Discard(prior) => LogHonest(prior, k);
    }
  }

  lemma HoldsBoth(f: Files, history: seq<Entry>, k: nat)
    requires Holds(f, history) && k <= RING_SIZE
    ensures TextAt(f, k).Some? == MetaAt(f, k).Some? == (k < |history|)
    ensures k < |history| ==> TextAt(f, k) == Some(history[k].text) && MetaAt(f, k) == Some(history[k].meta)
  {
    assert Get(f.confs, k) == match Slot(history, k) case None => None case Some(e) => Some(e.text);
    assert Get(f.metas, k) == match Slot(history, k) case None => None case Some(e) => Some(e.meta);
  }

  /** Without a cut no slot is doubtful. */
  lemma {:induction false} UncutHonest(log: Log, k: nat)
    requires Uncut(log) && k <= RING_SIZE
    ensures IsLog(log) && !Doubtful(log, k)
    decreases log
  {
    match log {
      case Opened =>
      case Commit(prior, text, meta) =>
        UncutHonest(prior, k);
        if k > 0 {
          UncutHonest(prior, k - 1);
          RingIsHistory(prior);
          HoldsBoth(FilesOf(prior), HistoryOf(prior), k - 1);
        }
      case SetCandidate(prior, _) => UncutHonest(prior, k);
      case Discard(prior) => UncutHonest(prior, k);
    }
  }

  // ---------------------------------------------------------------- lies that happen

  /** A commit cut between the running text and its metadata leaves the new text under the old metadata. */
  lemma TornStop(f: Files, text: string, meta: Meta) returns (left: Files)
    ensures Leaves(f, CommitOps(f, text, meta), left)
    ensures left.running == Some(text) && left.runningMeta == f.runningMeta
    ensures left.confs == Committed(f, text, meta).confs && left.metas == Committed(f, text, meta).metas
  {
    LevelTop(f);
    ShiftReaches(f, RING_SIZE - 1, f);
    var g := ExecAll(f, Shift(f, RING_SIZE - 1));
    var one := Exec(g, WriteConf(1, RunningText(f)));
    var two := Exec(one, WriteMeta(1, RunningMeta(f)));
    left := Exec(two, WriteRunning(text));
    var rest := LaterWrites(f, text, meta).rest;
    assert Leaves(left, rest.rest, left);
    assert Leaves(two, rest, left);
    assert Leaves(one, LaterWrites(f, text, meta), left);
    assert Leaves(g, Writes(f, text, meta), left);
    LeavesLater(f, Shift(f, RING_SIZE - 1), Writes(f, text, meta), left);
    ExecAllConcat(f, Shift(f, RING_SIZE - 1), Writes(f, text, meta));
    WritesDone(f, g, text, meta);
  }

  lemma TornHolds(f: Files, history: seq<Entry>, text: string, meta: Meta, left: Files)
    requires Holds(f, history) && left.running == Some(text) && left.runningMeta == f.runningMeta
    requires left.confs == Committed(f, text, meta).confs && left.metas == Committed(f, text, meta).metas
    ensures Holds(left, [Entry(text, history[0].meta)] + history)
  {
    CommitPrepends(f, history, text, meta);
    var whole, torn := [Entry(text, meta)] + history, [Entry(text, history[0].meta)] + history;
    forall k: nat ensures Slot(torn, k) == Slot(whole, k) {
    }
  }

  /** The same commit, n times over. */
  function Later(log: Log, n: nat, e: Entry): Log {
    if n == 0 then log else Commit(Later(log, n - 1, e), e.text, e.meta)
  }

  function Longer(history: seq<Entry>, n: nat, e: Entry): (r: seq<Entry>)
    requires history != []
    ensures |r| == n + |history| && r[n] == history[0]
  {
    if n == 0 then history else [e] + Longer(history, n - 1, e)
  }

  lemma {:induction false} LaterHolds(log: Log, history: seq<Entry>, n: nat, e: Entry)
    requires Holds(FilesOf(log), history) && IsLog(log)
    ensures IsLog(Later(log, n, e)) && Entries(Later(log, n, e)) <= Entries(log) + {e}
    ensures Holds(FilesOf(Later(log, n, e)), Longer(history, n, e))
  {
    if n > 0 {
      LaterHolds(log, history, n - 1, e);
      CommitPrepends(FilesOf(Later(log, n - 1, e)), Longer(history, n - 1, e), e.text, e.meta);
      assert e == Entry(e.text, e.meta);
    }
  }

  /** A torn commit lies in every slot its text later reaches: k commits on, slot k shows an entry nobody committed. */
  lemma AnySlotCanLie(k: nat, text: string, meta: Meta, e: Entry) returns (log: Log)
    requires k <= RING_SIZE && text != "" && meta != DEFAULT && e.text != text
    ensures IsLog(log) && !Honest(FilesOf(log), k, Entries(log))
  {
    var left := TornStop(FRESH, text, meta);
    TornHolds(FRESH, [Entry("", DEFAULT)], text, meta, left);
    var torn := Cut(Opened, text, meta, left);
    var history := [Entry(text, DEFAULT), Entry("", DEFAULT)];
    assert [Entry(text, DEFAULT)] + [Entry("", DEFAULT)] == history;
    log := Later(torn, k, e);
    LaterHolds(torn, history, k, e);
    HoldsBoth(FilesOf(log), Longer(history, k, e), k);
    assert Entry(text, DEFAULT) !in Entries(torn) + {e};
  }

  /**
   * A commit cut between the renames of slot 48 in a full ring, then a whole commit: slot 50
   * shows for good the metadata of the entry that slot 49 held.
   */
  lemma LastSlotLies(prior: Log, text: string, meta: Meta, next: string, author: Meta) returns (cut: Log)
    requires Uncut(prior) && |HistoryOf(prior)| > 50
    ensures IsLog(cut) && cut.Cut? && cut.prior == prior && cut.text == text && cut.meta == meta
    ensures var g := FilesOf(Commit(cut, next, author));
      Get(g.confs, 50) == Some(HistoryOf(prior)[48].text) && Get(g.metas, 50) == Some(HistoryOf(prior)[49].meta)
    ensures HistoryOf(prior)[48].text != HistoryOf(prior)[49].text ==>
      Foreign(cut.left, 50) && !Attributed(cut.left, 50, FilesOf(Commit(cut, next, author)))
  {
    var f, history := FilesOf(prior), HistoryOf(prior);
    RingIsHistory(prior);
    UncutHonest(prior, 0);
    HoldsBoth(f, history, 48);
    HoldsBoth(f, history, 49);
    var left := SlotStops(f, text, meta);
    cut := Cut(prior, text, meta, left);
    CommittedSlot(left, next, author, 50);
  }

  lemma SlotStops(f: Files, text: string, meta: Meta) returns (left: Files)
    requires 48 in f.confs && 49 in f.confs && 49 in f.metas
    ensures Leaves(f, CommitOps(f, text, meta), left)
    ensures Get(left.confs, 49) == Get(f.confs, 48) && Get(left.metas, 49) == None
    ensures Get(left.confs, 50) == Get(f.confs, 49) && Get(left.metas, 50) == Get(f.metas, 49)
  {
    LevelTop(f);
    var h := StopsHalf(f, RING_SIZE - 1, f, 48);
    HalfMoved(f, 48, h, 49);
    left := Exec(h, RenameConf(48));
    LeavesSooner(f, Shift(f, RING_SIZE - 1), Writes(f, text, meta), left);
    assert Get(h.confs, 50) == Moved(f.confs, ConfMoves(f), 48, 50);
    assert Get(h.metas, 50) == Moved(f.metas, MetaMoves(f), 48, 50);
  }

  // A log that fills the ring with entries that are all different.

  function Tally(n: nat): string {
    seq(n, _ => 'x')
  }

  function Nth(n: nat): Entry {
    Entry(Tally(n), if n == 0 then DEFAULT else Meta(Tally(n), "", "", ""))
  }

  function Filled(n: nat): Log {
    if n == 0 then Opened else Commit(Filled(n - 1), Nth(n).text, Nth(n).meta)
  }

  lemma {:induction false} FilledHistory(n: nat)
    ensures Uncut(Filled(n)) && |HistoryOf(Filled(n))| == n + 1
    ensures forall i :: 0 <= i <= n ==> HistoryOf(Filled(n))[i] == Nth(n - i)
    ensures forall e <- Entries(Filled(n)) :: e == Nth(|e.text|)
  {
    if n > 0 {
      FilledHistory(n - 1);
    }
  }

  /** The lie is reached: whole commits, one cut, one whole commit, and slot 50 shows an entry nobody committed. */
  lemma LastSlotLieReached(n: nat) returns (log: Log)
    requires n >= 50
    ensures IsLog(log) && !Honest(FilesOf(log), 50, Entries(log))
  {
    FilledHistory(n);
    var cut := LastSlotLies(Filled(n), Nth(n + 1).text, Nth(n + 1).meta, Nth(n + 2).text, Nth(n + 2).meta);
    log := Commit(cut, Nth(n + 2).text, Nth(n + 2).meta);
    assert Entries(log) == Entries(Filled(n)) + {Nth(n + 1)} + {Nth(n + 2)};
    NotNth(n - 48);
  }

  lemma NotNth(m: nat)
    requires m > 1
    ensures var e := Entry(Nth(m).text, Nth(m - 1).meta); e != Nth(|e.text|)
  {
    assert |Tally(m)| == m && |Tally(m - 1)| == m - 1;
  }
}
