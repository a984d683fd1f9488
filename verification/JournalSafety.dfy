/** Crash safety of the configuration transaction: what every interrupted call leaves behind. */
module JournalSafety {
  import opened Prelude
  import opened Npmrc
  import opened Journal

  // ------------------------------------------------------------- the invariant

  /** Restoring `prior` puts `orig` back: the exact text, or no file at all. */
  predicate Restores(prior: Prior, orig: Option<string>)
  {
    if orig.None? then !prior.fileExisted else prior.fileExisted && prior.raw == orig.value
  }

  /** The content that points npm at the gateway, made from the original file. */
  ghost predicate IsGenerated(cfg: Config, c: Option<string>, orig: Option<string>)
  {
    var inspected := Inspect(cfg.rules, orig);
    inspected.Ok? && c == Some(GenerateEnabledContent(inspected.value, cfg.url))
  }

  /** The prior also tells whether the original file set a registry, and which. */
  ghost predicate Describes(cfg: Config, prior: Prior, orig: Option<string>)
  {
    var inspected := Inspect(cfg.rules, orig);
    inspected.Ok? && prior.hasRegistry == inspected.value.hasRegistry && prior.registryValue == inspected.value.registryValue
  }

  predicate WellTyped(cfg: Config, d: Disk)
  {
    && (cfg.target in d ==> d[cfg.target].Raw?)
    && (cfg.journal in d ==> d[cfg.journal].JournalFile?)
    && (cfg.state in d ==> d[cfg.state].StateFile?)
  }

  /** Disabled: no journal, no recorded prior, the original file in place. */
  ghost predicate Idle(cfg: Config, orig: Option<string>, d: Disk)
  {
    && WellTyped(cfg, d) && JournalOf(cfg, d).None? && TargetOf(cfg, d) == orig
    && !StateOf(cfg, d).enabled && StateOf(cfg, d).prior.None?
  }

  /** Enabled: no journal, the generated file in place, the original recorded as prior. */
  ghost predicate On(cfg: Config, orig: Option<string>, d: Disk)
  {
    && WellTyped(cfg, d) && JournalOf(cfg, d).None? && IsGenerated(cfg, TargetOf(cfg, d), orig)
    && StateOf(cfg, d).enabled && StateOf(cfg, d).gatewayUrl == cfg.url
    && StateOf(cfg, d).prior.Some? && Restores(StateOf(cfg, d).prior.value, orig) && Describes(cfg, StateOf(cfg, d).prior.value, orig)
  }

  /** A transaction is open: its journal can restore the original. */
  ghost predicate InFlight(cfg: Config, orig: Option<string>, d: Disk)
  {
    && WellTyped(cfg, d) && JournalOf(cfg, d).Some?
    && var tx := JournalOf(cfg, d).value;
       && tx.target == cfg.target && Restores(tx.prior, orig)
       && (tx.staged.Some? ==> IsTemp(cfg, tx.staged.value)) && (tx.staged.Some? <==> tx.phase == Staged)
       && (TargetOf(cfg, d) == orig || IsGenerated(cfg, TargetOf(cfg, d), orig))
  }

  ghost predicate Inv(cfg: Config, orig: Option<string>, d: Disk)
  {
    Idle(cfg, orig, d) || On(cfg, orig, d) || InFlight(cfg, orig, d)
  }

  /** Not enabled, or not finished becoming so: recovery leads back to the original. */
  ghost predicate Revocable(cfg: Config, orig: Option<string>, d: Disk)
  {
    Idle(cfg, orig, d) || InFlight(cfg, orig, d)
  }

  // ------------------------------------------ predicates kept through every prefix

  /** The two disks agree on everything the invariant reads. */
  predicate Alike(cfg: Config, d: Disk, e: Disk)
  {
    forall p :: p in {cfg.target, cfg.journal, cfg.state} ==> (p in d <==> p in e) && (p in d ==> d[p] == e[p])
  }

  lemma AlikeKeeps(cfg: Config, orig: Option<string>, d: Disk, e: Disk)
    requires Alike(cfg, d, e)
    ensures WellTyped(cfg, d) == WellTyped(cfg, e)
    ensures TargetOf(cfg, d) == TargetOf(cfg, e) && JournalOf(cfg, d) == JournalOf(cfg, e) && StateOf(cfg, d) == StateOf(cfg, e)
    ensures Idle(cfg, orig, d) == Idle(cfg, orig, e)
    ensures On(cfg, orig, d) == On(cfg, orig, e)
    ensures InFlight(cfg, orig, d) == InFlight(cfg, orig, e)
  {
    assert cfg.target in {cfg.target, cfg.journal, cfg.state};
    assert cfg.journal in {cfg.target, cfg.journal, cfg.state};
    assert cfg.state in {cfg.target, cfg.journal, cfg.state};
  }

  lemma TempIsInvisible(cfg: Config, d: Disk, tmp: Path, c: Content)
    requires IsTemp(cfg, tmp)
    ensures Alike(cfg, d, d[tmp := c]) && Alike(cfg, d, d - {tmp})
  {
  }

  /** Until it completes, an atomic write leaves the disk alike; then one file is new. */
  lemma AtomicWritePrefix(cfg: Config, d: Disk, p: Path, c: Content, n: nat)
    requires ValidConfig(cfg)
    ensures var r := Replay(d, Cut(AtomicWrite(cfg, d, p, c), n));
      if n < 3 then Alike(cfg, d, r) else r == d[p := c]
  {
    AtomicWriteEffect(cfg, d, p, c, n);
    TempIsInvisible(cfg, d, cfg.tempName(d), Raw(""));
    TempIsInvisible(cfg, d, cfg.tempName(d), c);
  }

  lemma AtomicWriteResult(cfg: Config, d: Disk, p: Path, c: Content)
    requires ValidConfig(cfg)
    ensures Replay(d, AtomicWrite(cfg, d, p, c)) == d[p := c]
  {
    AtomicWriteEffect(cfg, d, p, c, 3);
  }

  lemma OneAction(d: Disk, a: Act, n: nat)
    ensures Replay(d, Cut([a], n)) == if n == 0 then d else Apply(d, a)
    ensures Replay(d, [a]) == Apply(d, a)
  {
    assert [a][..0] == [] && [a][1..] == [];
    assert Replay(Apply(d, a), []) == Apply(d, a);
  }

  /** The end of recovery and of commit: state saved, then the journal removed. */
  lemma SettlePrefix(cfg: Config, d: Disk, s: GatewayState, n: nat)
    requires ValidConfig(cfg)
    ensures |SettlePlan(cfg, d, s)| == 4
    ensures var r := Replay(d, Cut(SettlePlan(cfg, d, s), n));
      if n < 3 then Alike(cfg, d, r)
      else if n == 3 then r == d[cfg.state := StateFile(s)]
      else r == d[cfg.state := StateFile(s)] - {cfg.journal}
  {
    var w := AtomicWrite(cfg, d, cfg.state, StateFile(s));
    CutConcat(d, w, [Remove(cfg.journal)], n);
    AtomicWritePrefix(cfg, d, cfg.state, StateFile(s), n);
    AtomicWriteResult(cfg, d, cfg.state, StateFile(s));
    if n >= 3 {
      OneAction(d[cfg.state := StateFile(s)], Remove(cfg.journal), n - 3);
    }
  }

  // --------------------------------------------------------------- recovery

  /** The target with the prior file put back over it. */
  function PutBack(cfg: Config, d: Disk, prior: Prior): Disk
  {
    if prior.fileExisted then d[cfg.target := Raw(prior.raw)] else d - {cfg.target}
  }

  lemma PutBackRestores(cfg: Config, orig: Option<string>, d: Disk)
    requires ValidConfig(cfg) && InFlight(cfg, orig, d)
    ensures var e := PutBack(cfg, d, JournalOf(cfg, d).value.prior);
      InFlight(cfg, orig, e) && TargetOf(cfg, e) == orig && StateOf(cfg, e) == StateOf(cfg, d) && JournalOf(cfg, e) == JournalOf(cfg, d)
  {
  }

  lemma RestorePrefix(cfg: Config, orig: Option<string>, d: Disk, n: nat)
    requires ValidConfig(cfg) && InFlight(cfg, orig, d)
    ensures var tx := JournalOf(cfg, d).value;
      && InFlight(cfg, orig, Replay(d, Cut(RestorePlan(cfg, d, tx), n)))
      && Replay(d, RestorePlan(cfg, d, tx)) == PutBack(cfg, d, tx.prior)
  {
    var tx := JournalOf(cfg, d).value;
    var r := Replay(d, Cut(RestorePlan(cfg, d, tx), n));
    PutBackRestores(cfg, orig, d);
    if tx.prior.fileExisted {
      AtomicWritePrefix(cfg, d, tx.target, Raw(tx.prior.raw), n);
      AtomicWriteResult(cfg, d, tx.target, Raw(tx.prior.raw));
      if n < 3 {
        AlikeKeeps(cfg, orig, d, r);
      }
    } else {
      OneAction(d, Remove(tx.target), n);
    }
  }

  /** Settling an open transaction whose target is the original, as recovery does. */
  lemma SettleToIdle(cfg: Config, orig: Option<string>, d: Disk, n: nat)
    requires ValidConfig(cfg) && InFlight(cfg, orig, d) && TargetOf(cfg, d) == orig
    ensures var r := Replay(d, Cut(SettlePlan(cfg, d, DisabledState(StateOf(cfg, d))), n));
      if n < 4 then InFlight(cfg, orig, r) else Idle(cfg, orig, r)
  {
    var s := DisabledState(StateOf(cfg, d));
    SettlePrefix(cfg, d, s, n);
    if n < 3 {
      AlikeKeeps(cfg, orig, d, Replay(d, Cut(SettlePlan(cfg, d, s), n)));
    }
  }

  lemma CleanupPrefix(cfg: Config, orig: Option<string>, d: Disk, n: nat)
    requires ValidConfig(cfg) && InFlight(cfg, orig, d)
    ensures Alike(cfg, d, Replay(d, Cut(CleanupPlan(JournalOf(cfg, d).value), n)))
  {
    var tx := JournalOf(cfg, d).value;
    if tx.staged.Some? {
      OneAction(d, Remove(tx.staged.value), n);
      TempIsInvisible(cfg, d, tx.staged.value, Raw(""));
    }
  }

  /** A recovery cut off anywhere leaves the transaction open; a complete one is back at the original. */
  lemma RecoverPrefix(cfg: Config, orig: Option<string>, d: Disk, n: nat)
    requires ValidConfig(cfg) && InFlight(cfg, orig, d)
    ensures var plan := RecoverPlan(cfg, d);
      if n < |plan| then InFlight(cfg, orig, Replay(d, Cut(plan, n))) else Idle(cfg, orig, Replay(d, Cut(plan, n)))
  {
    hide Inspect, IsGenerated, SettlePlan, AtomicWrite;
    var tx := JournalOf(cfg, d).value;
    var p1 := CleanupPlan(tx);
    var d1 := Replay(d, p1);
    CleanupPrefix(cfg, orig, d, |p1|);
    AlikeKeeps(cfg, orig, d, d1);
    var p2 := RestorePlan(cfg, d1, tx);
    var d2 := Replay(d1, p2);
    RestorePrefix(cfg, orig, d1, |p2|);
    PutBackRestores(cfg, orig, d1);
    var p3 := SettlePlan(cfg, d2, DisabledState(StateOf(cfg, d2)));
    SettlePrefix(cfg, d2, DisabledState(StateOf(cfg, d2)), 0);
    assert RecoverPlan(cfg, d) == p1 + p2 + p3;
    ReplayConcat(d, p1, p2);
    CutConcat(d, p1 + p2, p3, n);
    CutConcat(d, p1, p2, n);
    if n < |p1| {
      CleanupPrefix(cfg, orig, d, n);
      AlikeKeeps(cfg, orig, d, Replay(d, Cut(p1, n)));
    } else if n < |p1 + p2| {
      RestorePrefix(cfg, orig, d1, n - |p1|);
    } else {
      SettleToIdle(cfg, orig, d2, n - |p1 + p2|);
    }
  }

  // ----------------------------------------------------------- a transaction

  /** A settled disk on which a transaction about `orig` may begin. */
  ghost predicate Settled(cfg: Config, orig: Option<string>, d: Disk)
  {
    && WellTyped(cfg, d) && JournalOf(cfg, d).None?
    && (TargetOf(cfg, d) == orig || IsGenerated(cfg, TargetOf(cfg, d), orig))
  }

  /** What the target becomes when `tx` commits. */
  function Outcome(tx: Transaction, text: string): Option<string>
  {
    if tx.action.Disable? && !tx.prior.fileExisted then None else Some(text)
  }

  ghost predicate Sound(cfg: Config, orig: Option<string>, tx: Transaction, text: string)
  {
    && tx.target == cfg.target && tx.staged.None? && tx.phase == Pending && Restores(tx.prior, orig)
    && (Outcome(tx, text) == orig || IsGenerated(cfg, Outcome(tx, text), orig))
  }

  lemma BeginPrefix(cfg: Config, orig: Option<string>, d: Disk, tx: Transaction, text: string, n: nat)
    requires ValidConfig(cfg) && Settled(cfg, orig, d) && Sound(cfg, orig, tx, text)
    ensures |BeginPlan(cfg, d, tx)| == 3
    ensures var r := Replay(d, Cut(BeginPlan(cfg, d, tx), n));
      if n < 3 then Alike(cfg, d, r) else
        && r == d[cfg.journal := JournalFile(tx)] && InFlight(cfg, orig, r)
        && JournalOf(cfg, r) == Some(tx) && StateOf(cfg, r) == StateOf(cfg, d)
  {
    AtomicWritePrefix(cfg, d, cfg.journal, JournalFile(tx), n);
  }

  lemma StageResult(cfg: Config, d: Disk, tx: Transaction, text: string)
    requires ValidConfig(cfg)
    ensures var staged := cfg.tempName(d);
      Replay(d, StagePlan(cfg, d, tx, text)) == d[staged := Raw(text)][cfg.journal := JournalFile(StagedTx(tx, staged))]
  {
    var staged := cfg.tempName(d);
    var d2 := d[staged := Raw(text)];
    StageFile(d, staged, text, 2);
    var q := AtomicWrite(cfg, d2, cfg.journal, JournalFile(StagedTx(tx, staged)));
    ReplayConcat(d, [Create(staged), Write(staged, Raw(text))], q);
    AtomicWriteResult(cfg, d2, cfg.journal, JournalFile(StagedTx(tx, staged)));
  }

  /** Staging only adds a temporary file and names it in the journal. */
  lemma StagePrefix(cfg: Config, orig: Option<string>, d: Disk, tx: Transaction, text: string, n: nat)
    requires ValidConfig(cfg) && InFlight(cfg, orig, d) && JournalOf(cfg, d) == Some(tx)
    ensures |StagePlan(cfg, d, tx, text)| == 5
    ensures InFlight(cfg, orig, Replay(d, Cut(StagePlan(cfg, d, tx, text), n)))
  {
    var staged := cfg.tempName(d);
    var p := [Create(staged), Write(staged, Raw(text))];
    var d1 := d[staged := Raw("")];
    var d2 := d[staged := Raw(text)];
    StageFile(d, staged, text, n);
    TempIsInvisible(cfg, d, staged, Raw(""));
    TempIsInvisible(cfg, d, staged, Raw(text));
    AlikeKeeps(cfg, orig, d, d1);
    AlikeKeeps(cfg, orig, d, d2);
    var j := JournalFile(StagedTx(tx, staged));
    var q := AtomicWrite(cfg, d2, cfg.journal, j);
    CutConcat(d, p, q, n);
    if n >= 2 {
      AtomicWritePrefix(cfg, d2, cfg.journal, j, n - 2);
      if n - 2 < 3 {
        AlikeKeeps(cfg, orig, d2, Replay(d2, Cut(q, n - 2)));
      }
    }
  }

  lemma StageFile(d: Disk, staged: Path, text: string, n: nat)
    ensures var p := [Create(staged), Write(staged, Raw(text))];
      && Replay(d, p) == d[staged := Raw(text)]
      && Replay(d, Cut(p, n)) == if n == 0 then d else if n == 1 then d[staged := Raw("")] else d[staged := Raw(text)]
  {
    var p := [Create(staged), Write(staged, Raw(text))];
    OneAction(d, Create(staged), 1);
    OneAction(d[staged := Raw("")], Write(staged, Raw(text)), 1);
    ReplayConcat(d, [Create(staged)], [Write(staged, Raw(text))]);
    assert p == [Create(staged)] + [Write(staged, Raw(text))];
    assert p[..0] == [] && p[..1] == [Create(staged)];
  }

  /** The transaction in the journal can be committed: the target will be `text`, staged under a temporary name. */
  ghost predicate Committable(cfg: Config, orig: Option<string>, d: Disk, tx: Transaction, text: string)
  {
    && InFlight(cfg, orig, d) && JournalOf(cfg, d) == Some(tx)
    && (Outcome(tx, text) == orig || IsGenerated(cfg, Outcome(tx, text), orig))
    && (Outcome(tx, text).Some? ==> tx.staged.Some? && tx.staged.value in d && d[tx.staged.value] == Raw(text))
  }

  lemma MoveEffect(cfg: Config, orig: Option<string>, d: Disk, tx: Transaction, text: string, n: nat)
    requires ValidConfig(cfg) && Committable(cfg, orig, d, tx, text)
    ensures |MovePlan(tx)| == 1
    ensures var e := Replay(d, MovePlan(tx));
      InFlight(cfg, orig, e) && TargetOf(cfg, e) == Outcome(tx, text) && StateOf(cfg, e) == StateOf(cfg, d) && JournalOf(cfg, e) == Some(tx)
    ensures n == 0 ==> Replay(d, Cut(MovePlan(tx), n)) == d
  {
    OneAction(d, MovePlan(tx)[0], n);
    OneAction(d, MovePlan(tx)[0], 1);
  }

  lemma CommitSettles(cfg: Config, orig: Option<string>, d: Disk, tx: Transaction, n: nat)
    requires ValidConfig(cfg) && InFlight(cfg, orig, d) && Restores(tx.prior, orig)
    ensures var s := CommittedState(tx, StateOf(cfg, d));
      var r := Replay(d, Cut(SettlePlan(cfg, d, s), n));
      if n < 4 then InFlight(cfg, orig, r)
      else WellTyped(cfg, r) && JournalOf(cfg, r).None? && TargetOf(cfg, r) == TargetOf(cfg, d) && StateOf(cfg, r) == s
  {
    var s := CommittedState(tx, StateOf(cfg, d));
    SettlePrefix(cfg, d, s, n);
    if n < 3 {
      AlikeKeeps(cfg, orig, d, Replay(d, Cut(SettlePlan(cfg, d, s), n)));
    }
  }

  ghost predicate Committed(cfg: Config, d: Disk, tx: Transaction, text: string, r: Disk)
  {
    && WellTyped(cfg, r) && JournalOf(cfg, r).None? && TargetOf(cfg, r) == Outcome(tx, text)
    && StateOf(cfg, r) == CommittedState(tx, StateOf(cfg, d))
  }

  lemma CommitPrefix(cfg: Config, orig: Option<string>, d: Disk, tx: Transaction, text: string, n: nat)
    requires ValidConfig(cfg) && Committable(cfg, orig, d, tx, text)
    ensures |CommitPlan(cfg, d, tx)| == 5
    ensures var r := Replay(d, Cut(CommitPlan(cfg, d, tx), n));
      if n < 5 then InFlight(cfg, orig, r) else Committed(cfg, d, tx, text, r)
  {
    hide Inspect, IsGenerated, AtomicWrite, MovePlan;
    MoveEffect(cfg, orig, d, tx, text, n);
    var e := Replay(d, MovePlan(tx));
    var q := SettlePlan(cfg, e, CommittedState(tx, StateOf(cfg, e)));
    SettlePrefix(cfg, e, CommittedState(tx, StateOf(cfg, e)), 0);
    CutConcat(d, MovePlan(tx), q, n);
    if n >= 1 {
      CommitSettles(cfg, orig, e, tx, n - 1);
    }
  }

  lemma StagedPrefix(cfg: Config, orig: Option<string>, d: Disk, tx: Transaction, text: string, n: nat)
    requires ValidConfig(cfg) && InFlight(cfg, orig, d) && JournalOf(cfg, d) == Some(tx)
    requires Sound(cfg, orig, tx, text) && Outcome(tx, text).Some?
    ensures var p2 := StagePlan(cfg, d, tx, text);
      var plan := p2 + CommitPlan(cfg, Replay(d, p2), StagedTx(tx, cfg.tempName(d)));
      var r := Replay(d, Cut(plan, n));
      |plan| == 10 && if n < |plan| then InFlight(cfg, orig, r) else Committed(cfg, d, tx, text, r)
  {
    hide Inspect, IsGenerated, AtomicWrite, StagePlan, CommitPlan;
    var p2 := StagePlan(cfg, d, tx, text);
    var d2 := Replay(d, p2);
    var tx2 := StagedTx(tx, cfg.tempName(d));
    StagePrefix(cfg, orig, d, tx, text, n);
    StagePrefix(cfg, orig, d, tx, text, 5);
    StageResult(cfg, d, tx, text);
    assert Cut(p2, 5) == p2;
    assert Committable(cfg, orig, d2, tx2, text);
    CommitPrefix(cfg, orig, d2, tx2, text, if n < 5 then 0 else n - 5);
    CutConcat(d, p2, CommitPlan(cfg, d2, tx2), n);
  }

  /** A transaction cut off before its journal exists changes nothing; cut off later it is open; else it is through. */
  lemma TransactionPrefix(cfg: Config, orig: Option<string>, d: Disk, tx: Transaction, text: string, n: nat)
    requires ValidConfig(cfg) && Settled(cfg, orig, d) && Sound(cfg, orig, tx, text)
    ensures var plan := TransactionPlan(cfg, d, tx, text);
      var r := Replay(d, Cut(plan, n));
      && |plan| > 3
      && (if n < 3 then Alike(cfg, d, r)
          else if n < |plan| then InFlight(cfg, orig, r)
          else Committed(cfg, d, tx, text, r))
  {
    hide Inspect, IsGenerated, AtomicWrite, BeginPlan, StagePlan, CommitPlan, InFlight, WellTyped, JournalOf, TargetOf, StateOf, Alike;
    var p1 := BeginPlan(cfg, d, tx);
    var d1 := d[cfg.journal := JournalFile(tx)];
    var m := if n < 3 then 0 else n - 3;
    BeginPrefix(cfg, orig, d, tx, text, n);
    BeginPrefix(cfg, orig, d, tx, text, 3);
    assert Cut(p1, 3) == p1;
    if Outcome(tx, text).None? {
      CommitPrefix(cfg, orig, d1, tx, text, m);
      CutConcat(d, p1, CommitPlan(cfg, d1, tx), n);
    } else {
      var p2 := StagePlan(cfg, d1, tx, text);
      var p3 := CommitPlan(cfg, Replay(d1, p2), StagedTx(tx, cfg.tempName(d1)));
      StagedPrefix(cfg, orig, d1, tx, text, m);
      CutConcat(d, p1, p2 + p3, n);
      assert TransactionPlan(cfg, d, tx, text) == p1 + (p2 + p3);
    }
  }

  // -------------------------------------------------------- enable and disable

  lemma InspectedPrior(cfg: Config, c: Option<string>)
    requires Inspect(cfg.rules, c).Ok?
    ensures Restores(PriorOf(Inspect(cfg.rules, c).value), c)
  {
    hide Lines, FirstOffence, LastRegistry, RegistryValue, RegistryAllowed;
  }

  /** Enabling on a settled disk: the current file becomes the recorded prior, whatever it is. */
  lemma EnableSettledPrefix(cfg: Config, d: Disk, healthy: bool, n: nat)
    requires ValidConfig(cfg) && WellTyped(cfg, d) && JournalOf(cfg, d).None?
    ensures var orig := TargetOf(cfg, d);
      var plan := EnableSettledPlan(cfg, d, healthy);
      var r := Replay(d, Cut(plan, n));
      && (n < |plan| ==> Alike(cfg, d, r) || InFlight(cfg, orig, r))
      && (n >= |plan| ==> if plan == [] then r == d else On(cfg, orig, r))
  {
    hide Inspect, GenerateEnabledContent, TransactionPlan;
    var orig := TargetOf(cfg, d);
    var inspected := Inspect(cfg.rules, orig);
    if inspected.Ok? && healthy {
      InspectedPrior(cfg, orig);
      var tx := NewTx(cfg, Enable, PriorOf(inspected.value));
      var text := GenerateEnabledContent(inspected.value, cfg.url);
      assert IsGenerated(cfg, Some(text), orig);
      TransactionPrefix(cfg, orig, d, tx, text, n);
    }
  }

  /** Disabling a settled disk with a recorded prior restores it. */
  lemma DisableSettledPrefix(cfg: Config, orig: Option<string>, d: Disk, n: nat)
    requires ValidConfig(cfg) && Settled(cfg, orig, d)
    requires PriorToRestore(cfg, d).Some? && Restores(PriorToRestore(cfg, d).value, orig)
    ensures var plan := DisableSettledPlan(cfg, d);
      var r := Replay(d, Cut(plan, n));
      && |plan| > 3
      && (n < |plan| ==> Alike(cfg, d, r) || InFlight(cfg, orig, r))
      && (n >= |plan| ==> Idle(cfg, orig, r))
  {
    hide Inspect, GenerateEnabledContent, TransactionPlan;
    var prior := PriorToRestore(cfg, d).value;
    TransactionPrefix(cfg, orig, d, NewTx(cfg, Disable, prior), prior.raw, n);
  }

  lemma NothingToRecover(cfg: Config, d: Disk, q: seq<Act>)
    requires JournalOf(cfg, d).None?
    ensures RecoverPlan(cfg, d) == [] && Replay(d, []) == d && [] + q == q
  {
  }

  /** Where a recovery leads to, complete or not, from any disk recovery can lead back from. */
  lemma RecoverFromRevocable(cfg: Config, orig: Option<string>, d: Disk, n: nat)
    requires ValidConfig(cfg) && Revocable(cfg, orig, d)
    ensures var plan := RecoverPlan(cfg, d);
      var r := Replay(d, Cut(plan, n));
      Revocable(cfg, orig, r) && (n >= |plan| ==> Idle(cfg, orig, r))
  {
    hide Inspect, IsGenerated, RecoverPlan;
    if InFlight(cfg, orig, d) {
      RecoverPrefix(cfg, orig, d, n);
    } else {
      NothingToRecover(cfg, d, []);
    }
  }

  /** EnableNpm: cut off anywhere it can be undone, and what it changes when it completes. */
  lemma EnablePrefix(cfg: Config, orig: Option<string>, d: Disk, healthy: bool, n: nat)
    requires ValidConfig(cfg) && Revocable(cfg, orig, d)
    ensures var plan := EnablePlan(cfg, d, healthy);
      var r := Replay(d, Cut(plan, n));
      && (n < |plan| ==> Revocable(cfg, orig, r))
      && (n >= |plan| ==> if Inspect(cfg.rules, orig).Ok? && healthy then On(cfg, orig, r) else Idle(cfg, orig, r))
  {
    hide IsGenerated, RecoverPlan, TransactionPlan, Inspect;
    var p := RecoverPlan(cfg, d);
    var e := Replay(d, p);
    RecoverFromRevocable(cfg, orig, d, |p|);
    assert Cut(p, |p|) == p;
    var q := EnableSettledPlan(cfg, e, healthy);
    CutConcat(d, p, q, n);
    if n < |p| {
      RecoverFromRevocable(cfg, orig, d, n);
    } else {
      EnableSettledPrefix(cfg, e, healthy, n - |p|);
      if Alike(cfg, e, Replay(e, Cut(q, n - |p|))) {
        AlikeKeeps(cfg, orig, e, Replay(e, Cut(q, n - |p|)));
      }
      TransactionIsLong(cfg, e, healthy);
    }
  }

  lemma TransactionIsLong(cfg: Config, d: Disk, healthy: bool)
    ensures EnableSettledPlan(cfg, d, healthy) == [] <==> !(Inspect(cfg.rules, TargetOf(cfg, d)).Ok? && healthy)
  {
    hide Inspect, CommitPlan, StagePlan, GenerateEnabledContent;
  }
}
