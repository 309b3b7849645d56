/**
 * Exactly when every rollback entry describes its own commit (hemlock-mgmtd, store.rs),
 * although any commit may be cut short: for the stops of one commit on any files, and
 * for all logs of the same commits.
 */
module RollbackHonesty {
  import opened Basics
  import opened RollbackStore
  import opened RollbackCrashes

  // ---------------------------------------------------------------- one commit

  /** Every stop of a commit, its end included, leaves slot k honest. */
  ghost predicate StaysHonest(f: Files, text: string, meta: Meta, k: nat, entries: set<Entry>) {
    forall crash :: Leaves(f, CommitOps(f, text, meta), crash) ==> Honest(crash, k, entries)
  }

  /** The text that moves into slot k and the metadata it finds there are one commit's. */
  ghost predicate Matches(f: Files, k: nat, entries: set<Entry>)
    requires k > 0
  {
    TextAt(f, k - 1).Some? && Stale(f, k).Some? ==> Entry(TextAt(f, k - 1).value, Stale(f, k).value) in entries
  }

  lemma SlotHonestIff(f: Files, text: string, meta: Meta, k: nat, entries: set<Entry>)
    requires 1 <= k <= RING_SIZE
    ensures StaysHonest(f, text, meta, k, entries) <==>
      Honest(f, k, entries) && Honest(f, k - 1, entries) && Matches(f, k, entries)
  {
    var ops := CommitOps(f, text, meta);
    if StaysHonest(f, text, meta, k, entries) {
      assert Leaves(f, ops, f);
      LeavesAll(f, ops);
      CommittedSlot(f, text, meta, k);
      assert Honest(Committed(f, text, meta), k, entries);
      if TextAt(f, k - 1).Some? {
        var crash := StopsStale(f, text, meta, k);
        assert Honest(crash, k, entries);
      }
    } else {
      var crash :| Leaves(f, ops, crash) && !Honest(crash, k, entries);
      CrashStaged(f, text, meta, crash, k);
    }
  }

  /** The running files, which a stop can tear apart. */
  lemma RunningHonestIff(f: Files, text: string, meta: Meta, entries: set<Entry>)
    ensures StaysHonest(f, text, meta, 0, entries) <==>
      Honest(f, 0, entries) && Entry(text, meta) in entries && Entry(text, RunningMeta(f)) in entries
  {
    var ops := CommitOps(f, text, meta);
    if StaysHonest(f, text, meta, 0, entries) {
      assert Leaves(f, ops, f);
      LeavesAll(f, ops);
      CommittedTop(f, text, meta);
      assert Honest(Committed(f, text, meta), 0, entries);
      var torn := TornStop(f, text, meta);
      assert Honest(torn, 0, entries);
    } else {
      var crash :| Leaves(f, ops, crash) && !Honest(crash, 0, entries);
      TopStaged(f, text, meta, crash);
    }
  }

  /**
   * Every stop of a commit leaves every slot honest, on any files, exactly when all slots were
   * honest, the new text may stand over the old metadata, and so may each text that moves
   * over the metadata it finds.
   */
  lemma StopsHonestIff(f: Files, text: string, meta: Meta, entries: set<Entry>)
    ensures (forall k | 0 <= k <= RING_SIZE :: StaysHonest(f, text, meta, k, entries)) <==>
      && (forall k | 0 <= k <= RING_SIZE :: Honest(f, k, entries))
      && Entry(text, meta) in entries && Entry(text, RunningMeta(f)) in entries
      && (forall k | 1 <= k <= RING_SIZE :: Matches(f, k, entries))
  {
    RunningHonestIff(f, text, meta, entries);
    if forall k | 0 <= k <= RING_SIZE :: StaysHonest(f, text, meta, k, entries) {
      forall k | 0 <= k <= RING_SIZE ensures Honest(f, k, entries) && (k > 0 ==> Matches(f, k, entries)) {
        assert StaysHonest(f, text, meta, k, entries);
        if k > 0 { SlotHonestIff(f, text, meta, k, entries); }
      }
    } else {
      var k :| 0 <= k <= RING_SIZE && !StaysHonest(f, text, meta, k, entries);
      if k > 0 { SlotHonestIff(f, text, meta, k, entries); }
    }
  }

  // ---------------------------------------------------------------- all logs of the same commits

  const FIRST := Entry("", DEFAULT)

  /** The empty configuration and the commits made or tried after it, oldest first. */
  function Tried(log: Log): (r: seq<Entry>)
    ensures r != [] && r[0] == FIRST
  {
    match log
    case Opened => [FIRST]
    case Commit(prior, text, meta) => Tried(prior) + [Entry(text, meta)]
    case Cut(prior, text, meta, _) => Tried(prior) + [Entry(text, meta)]
    case SetCandidate(prior, _) => Tried(prior)
    case Discard(prior) => Tried(prior)
  }

  lemma {:induction false} TriedEntries(log: Log)
    ensures Entries(log) == set e <- Tried(log)
  {
    if !log.Opened? { TriedEntries(log.prior); }
  }

  /** The text of one commit over the metadata of the same or an earlier one. */
  ghost predicate Crossed(tried: seq<Entry>, text: string, meta: Meta) {
    exists i, j :: 0 <= j <= i < |tried| && tried[i].text == text && tried[j].meta == meta
  }

  /** Every such pair was itself tried. */
  ghost predicate Closed(tried: seq<Entry>) {
    forall i, j :: 0 <= j <= i < |tried| ==> Entry(tried[i].text, tried[j].meta) in tried
  }

  lemma CrossedMore(tried: seq<Entry>, e: Entry, text: string, meta: Meta)
    requires Crossed(tried, text, meta)
    ensures Crossed(tried + [e], text, meta) && Crossed(tried + [e], e.text, meta)
  {
    var i, j :| 0 <= j <= i < |tried| && tried[i].text == text && tried[j].meta == meta;
    var more := tried + [e];
    assert more[i] == tried[i] && more[j] == tried[j] && more[|tried|] == e;
  }

  /** No slot's metadata is newer than a text at or before it. */
  ghost predicate InOrder(f: Files, tried: seq<Entry>) {
    forall k, m | 0 <= k <= m <= RING_SIZE && TextAt(f, k).Some? && MetaAt(f, m).Some? ::
      Crossed(tried, TextAt(f, k).value, MetaAt(f, m).value)
  }

  /** What a slot's text and metadata can be once the commit of `e` stops. */
  lemma PairKept(f: Files, e: Entry, left: Files, tried: seq<Entry>, k: nat, m: nat)
    requires Leaves(f, CommitOps(f, e.text, e.meta), left) && InOrder(f, tried)
    requires k <= m <= RING_SIZE && TextAt(left, k).Some? && MetaAt(left, m).Some?
    ensures Crossed(tried + [e], TextAt(left, k).value, MetaAt(left, m).value)
  {
    var text, meta := TextAt(left, k).value, MetaAt(left, m).value;
    TopStaged(f, e.text, e.meta, left);
    if k > 0 { CrashStaged(f, e.text, e.meta, left, k); }
    if m > 0 { CrashStaged(f, e.text, e.meta, left, m); }
    if m == 0 && meta == e.meta && text == e.text {
      assert (tried + [e])[|tried|] == e;
    } else {
      var n := if MetaAt(f, m) == Some(meta) then m else m - 1;
      assert Crossed(tried, RunningText(f), meta) by { assert TextAt(f, 0).Some? && MetaAt(f, n) == Some(meta); }
      CrossedMore(tried, e, RunningText(f), meta);
      if k > 0 || text != e.text {
        var l := if k > 0 && TextAt(f, k - 1) == Some(text) then k - 1 else k;
        assert TextAt(f, l) == Some(text) && l <= n;
        CrossedMore(tried, e, text, meta);
      }
    }
  }

  lemma StopInOrder(f: Files, e: Entry, left: Files, tried: seq<Entry>)
    requires Leaves(f, CommitOps(f, e.text, e.meta), left) && InOrder(f, tried)
    ensures InOrder(left, tried + [e])
  {
    forall k, m | 0 <= k <= m <= RING_SIZE && TextAt(left, k).Some? && MetaAt(left, m).Some?
      ensures Crossed(tried + [e], TextAt(left, k).value, MetaAt(left, m).value)
    {
      PairKept(f, e, left, tried, k, m);
    }
  }

  lemma DraftInOrder(f: Files, text: string, tried: seq<Entry>)
    requires InOrder(f, tried)
    ensures InOrder(Exec(f, WriteCandidate(text)), tried)
  {
    var g := Exec(f, WriteCandidate(text));
    forall k, m | 0 <= k <= m <= RING_SIZE && TextAt(g, k).Some? && MetaAt(g, m).Some?
      ensures Crossed(tried, TextAt(g, k).value, MetaAt(g, m).value)
    {
      assert TextAt(g, k) == TextAt(f, k) && MetaAt(g, m) == MetaAt(f, m);
    }
  }

  /** After any log the ring is in order, texts before their metadata's successors. */
  lemma {:induction false} LogInOrder(log: Log)
    requires IsLog(log)
    ensures InOrder(FilesOf(log), Tried(log))
  {
    match log {
      case Opened =>
        assert [FIRST][0] == FIRST;
      case Commit(prior, text, meta) =>
        LogInOrder(prior);
        LeavesAll(FilesOf(prior), CommitOps(FilesOf(prior), text, meta));
        StopInOrder(FilesOf(prior), Entry(text, meta), FilesOf(log), Tried(prior));
      case Cut(prior, text, meta, left) =>
        LogInOrder(prior);
        StopInOrder(FilesOf(prior), Entry(text, meta), left, Tried(prior));
      case SetCandidate(prior, text) =>
        LogInOrder(prior);
        DraftInOrder(FilesOf(prior), text, Tried(prior));
      case Discard(prior) =>
        LogInOrder(prior);
        DraftInOrder(FilesOf(prior), RunningText(FilesOf(prior)), Tried(prior));
    }
  }

  /** Commits made whole. */
  function Whole(log: Log, es: seq<Entry>): Log
    decreases |es|
  {
    if es == [] then log else Whole(Commit(log, es[0].text, es[0].meta), es[1..])
  }

  /** Commits cut before their first step. */
  function Idle(log: Log, es: seq<Entry>): Log
    decreases |es|
  {
    if es == [] then log else Idle(Cut(log, es[0].text, es[0].meta, FilesOf(log)), es[1..])
  }

  lemma {:induction false} WholeTried(log: Log, es: seq<Entry>)
    requires IsLog(log)
    ensures IsLog(Whole(log, es)) && Tried(Whole(log, es)) == Tried(log) + es
    ensures es != [] ==> RunningMeta(FilesOf(Whole(log, es))) == es[|es| - 1].meta
    decreases |es|
  {
    if es != [] {
      var next := Commit(log, es[0].text, es[0].meta);
      CommittedTop(FilesOf(log), es[0].text, es[0].meta);
      WholeTried(next, es[1..]);
      Peel(Tried(log), es);
    }
  }

  lemma {:induction false} IdleTried(log: Log, es: seq<Entry>)
    requires IsLog(log)
    ensures IsLog(Idle(log, es)) && Tried(Idle(log, es)) == Tried(log) + es && FilesOf(Idle(log, es)) == FilesOf(log)
    decreases |es|
  {
    if es != [] {
      IdleTried(Cut(log, es[0].text, es[0].meta, FilesOf(log)), es[1..]);
      Peel(Tried(log), es);
    }
  }

  lemma Peel(before: seq<Entry>, es: seq<Entry>)
    requires es != []
    ensures before + [Entry(es[0].text, es[0].meta)] + es[1..] == before + es
  {
  }

  lemma Pieces(tried: seq<Entry>, i: nat, j: nat)
    requires j < i <= |tried|
    ensures [tried[0]] + tried[1..j + 1] + tried[j + 1..i] == tried[..i]
    ensures j > 0 ==> tried[1..j + 1][j - 1] == tried[j]
  {
  }

  /** A log of the first i entries that ends at entry j. */
  lemma Reached(tried: seq<Entry>, i: nat, j: nat) returns (log: Log)
    requires j < i <= |tried| && tried[0] == FIRST
    ensures IsLog(log) && Tried(log) == tried[..i] && RunningMeta(FilesOf(log)) == tried[j].meta
  {
    var made, dropped := tried[1..j + 1], tried[j + 1..i];
    Pieces(tried, i, j);
    var whole := Whole(Opened, made);
    WholeTried(Opened, made);
    log := Idle(whole, dropped);
    IdleTried(whole, dropped);
  }

  /** A log that ends with the text of commit i over the metadata of an earlier commit j. */
  lemma CrossedReached(tried: seq<Entry>, i: nat, j: nat) returns (log: Log)
    requires j < i < |tried| && tried[0] == FIRST
    ensures IsLog(log) && Tried(log) == tried
    ensures RunningText(FilesOf(log)) == tried[i].text && RunningMeta(FilesOf(log)) == tried[j].meta
  {
    var idle := Reached(tried, i, j);
    var left := TornStop(FilesOf(idle), tried[i].text, tried[i].meta);
    var torn := Cut(idle, tried[i].text, tried[i].meta, left);
    log := Idle(torn, tried[i + 1..]);
    IdleTried(torn, tried[i + 1..]);
    assert tried[..i] + [tried[i]] + tried[i + 1..] == tried;
  }

  /**
   * Every log of the given commits, cut short wherever, shows only entries that were tried, in
   * the running files and every slot, exactly when the text of each commit over the metadata
   * of any earlier one is among them.
   */
  lemma RunsHonestIff(tried: seq<Entry>)
    requires tried != [] && tried[0] == FIRST
    ensures (forall log, k | IsLog(log) && Tried(log) == tried && 0 <= k <= RING_SIZE ::
        Honest(FilesOf(log), k, Entries(log))) <==> Closed(tried)
  {
    if Closed(tried) {
      forall log, k | IsLog(log) && Tried(log) == tried && 0 <= k <= RING_SIZE
        ensures Honest(FilesOf(log), k, Entries(log))
      {
        LogInOrder(log);
        TriedEntries(log);
      }
    } else {
      var i, j :| 0 <= j <= i < |tried| && Entry(tried[i].text, tried[j].meta) !in tried;
      assert tried[i] == Entry(tried[i].text, tried[i].meta);
      var log := CrossedReached(tried, i, j);
      TriedEntries(log);
      assert !Honest(FilesOf(log), 0, Entries(log));
    }
  }

  /** Commits that all carry metadata of their own are safe from lies only when they all commit the empty text. */
  lemma StampedIff(tried: seq<Entry>)
    requires tried != [] && tried[0] == FIRST && forall i :: 1 <= i < |tried| ==> tried[i].meta != DEFAULT
    ensures (forall log, k | IsLog(log) && Tried(log) == tried && 0 <= k <= RING_SIZE ::
        Honest(FilesOf(log), k, Entries(log))) <==> forall e <- tried :: e.text == ""
  {
    RunsHonestIff(tried);
    if Closed(tried) {
      forall e | e in tried ensures e.text == "" {
        var i :| 0 <= i < |tried| && tried[i] == e;
        assert Entry(tried[i].text, tried[0].meta) in tried;
      }
    } else {
      var i, j :| 0 <= j <= i < |tried| && Entry(tried[i].text, tried[j].meta) !in tried;
      assert tried[i] in tried && tried[j] in tried && tried[j] == Entry(tried[j].text, tried[j].meta);
    }
  }
}
