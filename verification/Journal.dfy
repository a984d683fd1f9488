/**
 The configuration transaction as durable actions.

 The disk is a map from paths to file contents.  Every call of the lifecycle manager is a plan:
 the list of durable file operations it performs when nothing interrupts it.  A crash keeps a
 prefix of the plan.  Renames and removals are atomic and succeed; the only fault is a crash.
 */
module Journal {
  import opened Prelude
  import opened Npmrc

  type Path = string

  datatype Prior = Prior(fileExisted: bool, hasRegistry: bool, registryValue: string, raw: string)

  datatype ActionKind = Enable | Disable

  datatype Phase = Pending | Staged

  datatype Transaction = Transaction(action: ActionKind, phase: Phase, target: Path, gatewayUrl: string,
                                     staged: Option<Path>, prior: Prior)

  datatype GatewayState = GatewayState(enabled: bool, gatewayUrl: string, prior: Option<Prior>)

  datatype Content = Raw(text: string) | JournalFile(tx: Transaction) | StateFile(state: GatewayState)

  type Disk = map<Path, Content>

  /** Where things are, the gateway, and how a fresh temporary name is found. */
  datatype Config = Config(target: Path, journal: Path, state: Path, url: string, rules: Rules, tempName: Disk -> Path)

  ghost predicate ValidConfig(cfg: Config)
  {
    && cfg.target != cfg.journal && cfg.target != cfg.state && cfg.journal != cfg.state
    && forall d :: cfg.tempName(d) !in d && IsTemp(cfg, cfg.tempName(d))
  }

  predicate IsTemp(cfg: Config, p: Path)
  {
    p != cfg.target && p != cfg.journal && p != cfg.state
  }

  // ---------------------------------------------------------- durable actions

  datatype Act = Create(path: Path) | Write(path: Path, content: Content) | Rename(from: Path, to: Path) | Remove(path: Path)

  function Apply(d: Disk, a: Act): Disk
  {
    match a
    case Create(p) => d[p := Raw("")]
    case Write(p, c) => if p in d then d[p := c] else d
    case Rename(from, to) => if from in d then (d - {from})[to := d[from]] else d
    case Remove(p) => d - {p}
  }

  function Replay(d: Disk, plan: seq<Act>): Disk
    decreases |plan|
  {
    if plan == [] then d else Replay(Apply(d, plan[0]), plan[1..])
  }

  /** The part of a plan that a crash after `n` durable actions leaves done. */
  function Cut(plan: seq<Act>, n: nat): seq<Act>
  {
    if n < |plan| then plan[..n] else plan
  }

  // -------------------------------------------------------- reading the disk

  function TargetOf(cfg: Config, d: Disk): Option<string>
  {
    if cfg.target in d && d[cfg.target].Raw? then Some(d[cfg.target].text) else None
  }

  function JournalOf(cfg: Config, d: Disk): Option<Transaction>
  {
    if cfg.journal in d && d[cfg.journal].JournalFile? then Some(d[cfg.journal].tx) else None
  }

  /** A missing state file reads as disabled. */
  function StateOf(cfg: Config, d: Disk): GatewayState
  {
    if cfg.state in d && d[cfg.state].StateFile? then d[cfg.state].state else GatewayState(false, "", None)
  }

  // -------------------------------------------------------------- the plans

  function AtomicWrite(cfg: Config, d: Disk, p: Path, c: Content): seq<Act>
  {
    var tmp := cfg.tempName(d);
    [Create(tmp), Write(tmp, c), Rename(tmp, p)]
  }

  function DisabledState(s: GatewayState): GatewayState
  {
    s.(enabled := false, prior := None)
  }

  function CleanupPlan(tx: Transaction): seq<Act>
  {
    if tx.staged.Some? then [Remove(tx.staged.value)] else []
  }

  function RestorePlan(cfg: Config, d: Disk, tx: Transaction): seq<Act>
  {
    if tx.prior.fileExisted then AtomicWrite(cfg, d, tx.target, Raw(tx.prior.raw)) else [Remove(tx.target)]
  }

  /** RecoverJournal: put back the prior file, forget the prior, clear the journal. */
  function RecoverPlan(cfg: Config, d: Disk): seq<Act>
  {
    if JournalOf(cfg, d).None? then [] else
      var tx := JournalOf(cfg, d).value;
      var p1 := CleanupPlan(tx);
      var d1 := Replay(d, p1);
      var p2 := RestorePlan(cfg, d1, tx);
      var d2 := Replay(d1, p2);
      p1 + p2 + SettlePlan(cfg, d2, DisabledState(StateOf(cfg, d2)))
  }

  /** Saving the state, then clearing the journal: how recovery and commit both end. */
  function SettlePlan(cfg: Config, d: Disk, s: GatewayState): seq<Act>
  {
    AtomicWrite(cfg, d, cfg.state, StateFile(s)) + [Remove(cfg.journal)]
  }

  function BeginPlan(cfg: Config, d: Disk, tx: Transaction): seq<Act>
  {
    AtomicWrite(cfg, d, cfg.journal, JournalFile(tx))
  }

  function StagedTx(tx: Transaction, staged: Path): Transaction
  {
    tx.(phase := Staged, staged := Some(staged))
  }

  function StagePlan(cfg: Config, d: Disk, tx: Transaction, text: string): seq<Act>
  {
    var staged := cfg.tempName(d);
    var p := [Create(staged), Write(staged, Raw(text))];
    p + AtomicWrite(cfg, Replay(d, p), cfg.journal, JournalFile(StagedTx(tx, staged)))
  }

  function CommittedState(tx: Transaction, s: GatewayState): GatewayState
  {
    if tx.action.Enable? then GatewayState(true, tx.gatewayUrl, Some(tx.prior)) else DisabledState(s)
  }

  /** Moving the staged file over the target, or removing the target if there was no file before. */
  function MovePlan(tx: Transaction): seq<Act>
  {
    if tx.action.Disable? && !tx.prior.fileExisted then [Remove(tx.target)]
    else if tx.staged.Some? then [Rename(tx.staged.value, tx.target)]
    else []
  }

  /** A transaction that has nothing to move is refused. */
  function CommitPlan(cfg: Config, d: Disk, tx: Transaction): seq<Act>
  {
    var p := MovePlan(tx);
    var d1 := Replay(d, p);
    if p == [] then [] else p + SettlePlan(cfg, d1, CommittedState(tx, StateOf(cfg, d1)))
  }

  /** Begin, stage unless the target is to be removed, commit. */
  function TransactionPlan(cfg: Config, d: Disk, tx: Transaction, text: string): seq<Act>
  {
    var p1 := BeginPlan(cfg, d, tx);
    var d1 := Replay(d, p1);
    if tx.action.Disable? && !tx.prior.fileExisted then p1 + CommitPlan(cfg, d1, tx)
    else
      var p2 := StagePlan(cfg, d1, tx, text);
      p1 + p2 + CommitPlan(cfg, Replay(d1, p2), StagedTx(tx, cfg.tempName(d1)))
  }

  function PriorOf(info: NpmrcInfo): Prior
  {
    Prior(info.present, info.hasRegistry, info.registryValue, info.raw)
  }

  function NewTx(cfg: Config, action: ActionKind, prior: Prior): Transaction
  {
    Transaction(action, Pending, cfg.target, cfg.url, None, prior)
  }

  /** What EnableNpm does once recovery is through. */
  function EnableSettledPlan(cfg: Config, d: Disk, healthy: bool): seq<Act>
  {
    var inspected := Inspect(cfg.rules, TargetOf(cfg, d));
    if inspected.Err? || !healthy then []
    else TransactionPlan(cfg, d, NewTx(cfg, Enable, PriorOf(inspected.value)),
                         GenerateEnabledContent(inspected.value, cfg.url))
  }

  function EnablePlan(cfg: Config, d: Disk, healthy: bool): seq<Act>
  {
    var p := RecoverPlan(cfg, d);
    p + EnableSettledPlan(cfg, Replay(d, p), healthy)
  }

  const FALLBACK := "registry=https://registry.npmjs.org/\n"

  /** The recorded prior, or the fixed public-registry content when none is recorded. */
  function PriorToRestore(cfg: Config, d: Disk): Option<Prior>
  {
    var recorded := StateOf(cfg, d).prior;
    if recorded.Some? then recorded else
      var inspected := Inspect(cfg.rules, TargetOf(cfg, d));
      if inspected.Err? || !inspected.value.present then None
      else Some(Prior(true, true, "https://registry.npmjs.org/", FALLBACK))
  }

  function DisableSettledPlan(cfg: Config, d: Disk): seq<Act>
  {
    var prior := PriorToRestore(cfg, d);
    if prior.None? then [] else TransactionPlan(cfg, d, NewTx(cfg, Disable, prior.value), prior.value.raw)
  }

  function DisablePlan(cfg: Config, d: Disk): seq<Act>
  {
    var p := RecoverPlan(cfg, d);
    p + DisableSettledPlan(cfg, Replay(d, p))
  }

  // ------------------------------------------------------- plans and crashes

  lemma {:induction false} ReplayConcat(d: Disk, p: seq<Act>, q: seq<Act>)
    ensures Replay(d, p + q) == Replay(Replay(d, p), q)
    decreases |p|
  {
    if p == [] {
      assert p + q == q;
    } else {
      assert (p + q)[1..] == p[1..] + q;
      ReplayConcat(Apply(d, p[0]), p[1..], q);
    }
  }

  /** A crash falls into the first or into the second of two plans run after one another. */
  lemma CutConcat(d: Disk, p: seq<Act>, q: seq<Act>, n: nat)
    ensures Replay(d, Cut(p + q, n)) ==
      if n < |p| then Replay(d, Cut(p, n)) else Replay(Replay(d, p), Cut(q, n - |p|))
  {
    if n < |p| {
      assert (p + q)[..n] == p[..n];
    } else {
      assert n < |p + q| ==> (p + q)[..n] == p + q[..n - |p|];
      ReplayConcat(d, p, Cut(q, n - |p|));
      assert Cut(p + q, n) == p + Cut(q, n - |p|);
    }
  }

  /** An atomic write changes one file, and nothing but a temporary file before that. */
  lemma AtomicWriteEffect(cfg: Config, d: Disk, p: Path, c: Content, n: nat)
    requires ValidConfig(cfg)
    ensures var tmp, r := cfg.tempName(d), Replay(d, Cut(AtomicWrite(cfg, d, p, c), n));
      if n == 0 then r == d
      else if n == 1 then r == d[tmp := Raw("")]
      else if n == 2 then r == d[tmp := c]
      else r == d[p := c]
  {
    var tmp := cfg.tempName(d);
    var plan := AtomicWrite(cfg, d, p, c);
    var d1 := Apply(d, Create(tmp));
    var d2 := Apply(d1, Write(tmp, c));
    var d3 := Apply(d2, Rename(tmp, p));
    assert d2 == d[tmp := c];
    assert d3 == d[p := c] by {
      assert d2 - {tmp} == d;
    }
    assert plan[1..] == [Write(tmp, c), Rename(tmp, p)] && plan[1..][1..] == [Rename(tmp, p)];
    assert plan[..1] == [Create(tmp)] && plan[..2] == [Create(tmp), Write(tmp, c)] && plan[..0] == [];
    assert [Create(tmp), Write(tmp, c)][1..] == [Write(tmp, c)];
    assert Replay(d1, [Write(tmp, c)]) == d2;
    assert Replay(d2, [Rename(tmp, p)]) == Replay(d3, []) == d3;
    assert Replay(d1, plan[1..]) == Replay(d2, [Rename(tmp, p)]);
  }
}
