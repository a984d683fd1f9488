/**
 The lifecycle manager as an object over a disk.

 `power` is the number of durable actions left before the process dies; after that, actions have
 no effect.  Every method is proved to do to the disk exactly the prefix of its plan that the
 power allows, so the theorems about plans are theorems about this code.
 */
module JournalObjects {
  import opened Prelude
  import opened Npmrc
  import opened Journal

  /** Running `plan` with `n` actions of power left, ending on disk `e` with `m` left. */
  ghost predicate Ran(d: Disk, n: nat, plan: seq<Act>, e: Disk, m: nat)
  {
    e == Replay(d, Cut(plan, n)) && m == if n < |plan| then 0 else n - |plan|
  }

  /** Two plans in a row; the second one matters only if the first one got through. */
  lemma RanConcat(d: Disk, n: nat, p: seq<Act>, e: Disk, m: nat, q: seq<Act>, q': seq<Act>, f: Disk, k: nat)
    requires Ran(d, n, p, e, m) && Ran(e, m, q', f, k)
    requires n >= |p| ==> q' == q
    ensures Ran(d, n, p + q, f, k)
  {
    CutConcat(d, p, q, n);
    if n < |p| {
      assert q' != [] ==> q'[..0] == [];
    }
  }

  class LifecycleManager {
    const cfg: Config
    var disk: Disk
    var power: nat

    constructor (cfg: Config, disk: Disk, power: nat)
      ensures this.cfg == cfg && this.disk == disk && this.power == power
    {
      this.cfg := cfg;
      this.disk := disk;
      this.power := power;
    }

    method Do(a: Act)
      modifies this
      ensures Ran(old(disk), old(power), [a], disk, power)
    {
      assert [a][..0] == [] && [a][1..] == [];
      if power > 0 {
        disk := Apply(disk, a);
        power := power - 1;
      }
    }

    method AtomicWriteFile(p: Path, c: Content)
      modifies this
      ensures Ran(old(disk), old(power), AtomicWrite(cfg, old(disk), p, c), disk, power)
    {
      ghost var d, n := disk, power;
      var tmp := cfg.tempName(disk);
      Do(Create(tmp));
      ghost var d1, n1 := disk, power;
      Do(Write(tmp, c));
      RanConcat(d, n, [Create(tmp)], d1, n1, [Write(tmp, c)], [Write(tmp, c)], disk, power);
      ghost var d2, n2 := disk, power;
      Do(Rename(tmp, p));
      RanConcat(d, n, [Create(tmp)] + [Write(tmp, c)], d2, n2, [Rename(tmp, p)], [Rename(tmp, p)], disk, power);
      assert [Create(tmp)] + [Write(tmp, c)] + [Rename(tmp, p)] == AtomicWrite(cfg, d, p, c);
    }

    method SaveStateAndClearJournal(s: GatewayState)
      modifies this
      ensures Ran(old(disk), old(power), SettlePlan(cfg, old(disk), s), disk, power)
    {
      ghost var d, n := disk, power;
      AtomicWriteFile(cfg.state, StateFile(s));
      ghost var d1, n1 := disk, power;
      Do(Remove(cfg.journal));
      RanConcat(d, n, AtomicWrite(cfg, d, cfg.state, StateFile(s)), d1, n1,
                [Remove(cfg.journal)], [Remove(cfg.journal)], disk, power);
    }

    method BeginTransaction(action: ActionKind, prior: Prior) returns (tx: Transaction)
      modifies this
      ensures tx == NewTx(cfg, action, prior)
      ensures Ran(old(disk), old(power), BeginPlan(cfg, old(disk), tx), disk, power)
    {
      tx := Transaction(action, Pending, cfg.target, cfg.url, None, prior);
      AtomicWriteFile(cfg.journal, JournalFile(tx));
    }

    method StageTransaction(tx: Transaction, text: string) returns (tx': Transaction)
      modifies this
      ensures tx' == StagedTx(tx, cfg.tempName(old(disk)))
      ensures Ran(old(disk), old(power), StagePlan(cfg, old(disk), tx, text), disk, power)
    {
      ghost var d, n := disk, power;
      var staged := cfg.tempName(disk);
      ghost var c, w := [Create(staged)], [Write(staged, Raw(text))];
      Do(Create(staged));
      ghost var d1, n1 := disk, power;
      Do(Write(staged, Raw(text)));
      RanConcat(d, n, c, d1, n1, w, w, disk, power);
      ghost var d2, n2 := disk, power;
      tx' := tx.(phase := Staged, staged := Some(staged));
      AtomicWriteFile(cfg.journal, JournalFile(tx'));
      assert c + w == [Create(staged), Write(staged, Raw(text))];
      RanConcat(d, n, c + w, d2, n2, AtomicWrite(cfg, Replay(d, c + w), cfg.journal, JournalFile(tx')),
                AtomicWrite(cfg, d2, cfg.journal, JournalFile(tx')), disk, power);
    }

    /**
     Moves the staged file into place, or removes the target; then updates the state and clears the
     journal.  Without a staged file where one is needed it fails and touches nothing.
     */
    method CommitTransaction(tx: Transaction) returns (ok: bool)
      modifies this
      ensures ok <==> tx.staged.Some? || (tx.action.Disable? && !tx.prior.fileExisted)
      ensures !ok ==> disk == old(disk) && power == old(power)
      ensures Ran(old(disk), old(power), CommitPlan(cfg, old(disk), tx), disk, power)
    {
      ghost var d, n := disk, power;
      if tx.action.Disable? && !tx.prior.fileExisted {
        Do(Remove(tx.target));
      } else if tx.staged.None? {
        return false;
      } else {
        Do(Rename(tx.staged.value, tx.target));
      }
      ghost var d1, n1 := disk, power;
      var state := StateOf(cfg, disk);
      if tx.action.Enable? {
        state := GatewayState(true, tx.gatewayUrl, Some(tx.prior));
      } else {
        state := state.(enabled := false, prior := None);
      }
      SaveStateAndClearJournal(state);
      ghost var e := Replay(d, MovePlan(tx));
      RanConcat(d, n, MovePlan(tx), d1, n1, SettlePlan(cfg, e, CommittedState(tx, StateOf(cfg, e))),
                SettlePlan(cfg, d1, state), disk, power);
      ok := true;
    }

    method RecoverJournal()
      modifies this
      ensures Ran(old(disk), old(power), RecoverPlan(cfg, old(disk)), disk, power)
    {
      ghost var d, n := disk, power;
      var found := JournalOf(cfg, disk);
      if found.None? {
        return;
      }
      var tx := found.value;
      ghost var p1 := CleanupPlan(tx);
      if tx.staged.Some? {
        Do(Remove(tx.staged.value));
      }
      ghost var d1, n1 := disk, power;
      ghost var e1 := Replay(d, p1);
      ghost var p2, q2 := RestorePlan(cfg, e1, tx), RestorePlan(cfg, d1, tx);
      if !tx.prior.fileExisted {
        Do(Remove(tx.target));
      } else {
        AtomicWriteFile(tx.target, Raw(tx.prior.raw));
      }
      RanConcat(d, n, p1, d1, n1, p2, q2, disk, power);
      ghost var d2, n2 := disk, power;
      var state := StateOf(cfg, disk);
      SaveStateAndClearJournal(state.(enabled := false, prior := None));
      ReplayConcat(d, p1, p2);
      ghost var e2 := Replay(e1, p2);
      RanConcat(d, n, p1 + p2, d2, n2, SettlePlan(cfg, e2, DisabledState(StateOf(cfg, e2))),
                SettlePlan(cfg, d2, DisabledState(StateOf(cfg, d2))), disk, power);
    }

    /** Begin, stage when there is something to stage, commit. */
    method RunTransaction(action: ActionKind, prior: Prior, text: string)
      modifies this
      ensures Ran(old(disk), old(power), TransactionPlan(cfg, old(disk), NewTx(cfg, action, prior), text), disk, power)
    {
      ghost var d, n := disk, power;
      var tx := BeginTransaction(action, prior);
      ghost var d1, n1 := disk, power;
      ghost var p1 := BeginPlan(cfg, d, tx);
      ghost var e1 := Replay(d, p1);
      if action.Disable? && !prior.fileExisted {
        var _ := CommitTransaction(tx);
        RanConcat(d, n, p1, d1, n1, CommitPlan(cfg, e1, tx), CommitPlan(cfg, d1, tx), disk, power);
      } else {
        var tx' := StageTransaction(tx, text);
        ghost var p2 := StagePlan(cfg, e1, tx, text);
        RanConcat(d, n, p1, d1, n1, p2, StagePlan(cfg, d1, tx, text), disk, power);
        ghost var d2, n2 := disk, power;
        var _ := CommitTransaction(tx');
        ReplayConcat(d, p1, p2);
        RanConcat(d, n, p1 + p2, d2, n2, CommitPlan(cfg, Replay(e1, p2), StagedTx(tx, cfg.tempName(e1))),
                  CommitPlan(cfg, d2, tx'), disk, power);
      }
    }

    method EnableNpm(healthy: bool)
      modifies this
      ensures Ran(old(disk), old(power), EnablePlan(cfg, old(disk), healthy), disk, power)
    {
      ghost var d, n := disk, power;
      RecoverJournal();
      ghost var d1, n1 := disk, power;
      ghost var p := RecoverPlan(cfg, d);
      ghost var q, q' := EnableSettledPlan(cfg, Replay(d, p), healthy), EnableSettledPlan(cfg, d1, healthy);
      var info := InspectNpmrc(cfg.rules, TargetOf(cfg, disk));
      if info.Ok? && healthy {
        var prior := Prior(info.value.present, info.value.hasRegistry, info.value.registryValue, info.value.raw);
        RunTransaction(Enable, prior, GenerateEnabledContent(info.value, cfg.url));
      }
      RanConcat(d, n, p, d1, n1, q, q', disk, power);
    }

    method DisableNpm()
      modifies this
      ensures Ran(old(disk), old(power), DisablePlan(cfg, old(disk)), disk, power)
    {
      ghost var d, n := disk, power;
      RecoverJournal();
      ghost var d1, n1 := disk, power;
      ghost var p := RecoverPlan(cfg, d);
      ghost var q, q' := DisableSettledPlan(cfg, Replay(d, p)), DisableSettledPlan(cfg, d1);
      var prior := StateOf(cfg, disk).prior;
      if prior.None? {
        var info := InspectNpmrc(cfg.rules, TargetOf(cfg, disk));
        if info.Ok? && info.value.present {
          prior := Some(Prior(true, true, "https://registry.npmjs.org/", FALLBACK));
        }
      }
      if prior.Some? {
        RunTransaction(Disable, prior.value, prior.value.raw);
      }
      RanConcat(d, n, p, d1, n1, q, q', disk, power);
    }
  }
}
