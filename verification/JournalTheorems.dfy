/** What the configuration transaction promises, over every run of possibly interrupted calls. */
module JournalTheorems {
  import opened Prelude
  import opened Npmrc
  import opened Journal
  import opened JournalSafety

  // ---------------------------------------------------------- all or nothing

  /** Recoveries one after the other, each cut off after the given number of durable actions. */
  function Recoveries(cfg: Config, d: Disk, cuts: seq<nat>): Disk
    decreases |cuts|
  {
    if cuts == [] then d else Recoveries(cfg, Replay(d, Cut(RecoverPlan(cfg, d), cuts[0])), cuts[1..])
  }

  lemma {:induction false} RecoveriesKeep(cfg: Config, orig: Option<string>, d: Disk, cuts: seq<nat>)
    requires ValidConfig(cfg)
    ensures Revocable(cfg, orig, d) ==> Revocable(cfg, orig, Recoveries(cfg, d, cuts))
    ensures On(cfg, orig, d) ==> On(cfg, orig, Recoveries(cfg, d, cuts))
    decreases |cuts|
  {
    hide IsGenerated, RecoverPlan, Inspect;
    if cuts != [] {
      if Revocable(cfg, orig, d) {
        RecoverFromRevocable(cfg, orig, d, cuts[0]);
      } else if On(cfg, orig, d) {
        NothingToRecover(cfg, d, []);
      }
      RecoveriesKeep(cfg, orig, Replay(d, Cut(RecoverPlan(cfg, d), cuts[0])), cuts[1..]);
    }
  }

  /**
   An enable begun from a disabled state, cut off after `n` durable actions, then any number of
   recoveries each cut off anywhere, then a complete one: either every action had been done and
   the gateway content is in place with the original recorded, or the original is back exactly,
   no journal is left and the state is disabled.
   */
  lemma EnableIsAllOrNothing(cfg: Config, orig: Option<string>, d: Disk, healthy: bool, n: nat, cuts: seq<nat>)
    requires ValidConfig(cfg) && Idle(cfg, orig, d)
    ensures var plan := EnablePlan(cfg, d, healthy);
      var crashed := Recoveries(cfg, Replay(d, Cut(plan, n)), cuts);
      var final := Replay(crashed, RecoverPlan(cfg, crashed));
      if n >= |plan| && healthy && Inspect(cfg.rules, orig).Ok? then On(cfg, orig, final) else Idle(cfg, orig, final)
  {
    hide IsGenerated, RecoverPlan, Inspect, EnablePlan;
    var plan := EnablePlan(cfg, d, healthy);
    var first := Replay(d, Cut(plan, n));
    EnablePrefix(cfg, orig, d, healthy, n);
    RecoveriesKeep(cfg, orig, first, cuts);
    var crashed := Recoveries(cfg, first, cuts);
    var p := RecoverPlan(cfg, crashed);
    if On(cfg, orig, first) {
      NothingToRecover(cfg, crashed, []);
    } else {
      RecoverFromRevocable(cfg, orig, crashed, |p|);
    }
  }

  // -------------------------------------------------------------------- runs

  datatype Call = EnableNpm(healthy: bool) | DisableNpm | Recover

  /** A call that is cut off after `n` durable actions, or the developer editing the file. */
  datatype Event = Called(call: Call, n: nat) | Edited(content: Option<string>)

  function PlanOf(cfg: Config, d: Disk, call: Call): seq<Act>
  {
    match call
    case EnableNpm(healthy) => EnablePlan(cfg, d, healthy)
    case DisableNpm => DisablePlan(cfg, d)
    case Recover => RecoverPlan(cfg, d)
  }

  /**
   The discipline under which restoration is promised: no enable on top of a completed one, a
   disable only with a clear journal and a recorded prior, edits only while disabled.
   */
  predicate Allowed(cfg: Config, d: Disk, ev: Event)
  {
    match ev
    case Called(EnableNpm(_), _) => JournalOf(cfg, d).Some? || StateOf(cfg, d).prior.None?
    case Called(DisableNpm, _) => JournalOf(cfg, d).None? && StateOf(cfg, d).prior.Some?
    case Called(Recover, _) => true
    case Edited(_) => JournalOf(cfg, d).None? && StateOf(cfg, d).prior.None?
  }

  function NextDisk(cfg: Config, d: Disk, ev: Event): Disk
  {
    match ev
    case Called(call, n) => Replay(d, Cut(PlanOf(cfg, d, call), n))
    case Edited(content) => if content.Some? then d[cfg.target := Raw(content.value)] else d - {cfg.target}
  }

  function NextOriginal(orig: Option<string>, ev: Event): Option<string>
  {
    if ev.Edited? then ev.content else orig
  }

  lemma RevocableOrOn(cfg: Config, orig: Option<string>, d: Disk, ev: Event)
    requires Inv(cfg, orig, d) && Allowed(cfg, d, ev)
    ensures ev.Called? && ev.call.EnableNpm? ==> Revocable(cfg, orig, d)
    ensures ev.Called? && ev.call.DisableNpm? ==> On(cfg, orig, d)
    ensures ev.Edited? ==> Idle(cfg, orig, d)
  {
    hide IsGenerated, Inspect;
  }

  lemma DisablePrefix(cfg: Config, orig: Option<string>, d: Disk, n: nat)
    requires ValidConfig(cfg) && On(cfg, orig, d)
    ensures var plan := DisablePlan(cfg, d);
      var r := Replay(d, Cut(plan, n));
      && Inv(cfg, orig, r)
      && (n >= |plan| ==> Idle(cfg, orig, r))
  {
    hide IsGenerated, Inspect, RecoverPlan, TransactionPlan;
    NothingToRecover(cfg, d, DisableSettledPlan(cfg, d));
    DisableSettledPrefix(cfg, orig, d, n);
    var r := Replay(d, Cut(DisableSettledPlan(cfg, d), n));
    if Alike(cfg, d, r) {
      AlikeKeeps(cfg, orig, d, r);
    }
  }

  lemma StepKeepsInv(cfg: Config, orig: Option<string>, d: Disk, ev: Event)
    requires ValidConfig(cfg) && Inv(cfg, orig, d) && Allowed(cfg, d, ev)
    ensures Inv(cfg, NextOriginal(orig, ev), NextDisk(cfg, d, ev))
  {
    hide IsGenerated, Inspect, RecoverPlan, EnablePlan, DisablePlan;
    RevocableOrOn(cfg, orig, d, ev);
    match ev
    case Called(EnableNpm(healthy), n) => EnablePrefix(cfg, orig, d, healthy, n);
    case Called(DisableNpm, n) => DisablePrefix(cfg, orig, d, n);
    case Called(Recover, n) =>
      if On(cfg, orig, d) {
        NothingToRecover(cfg, d, []);
      } else {
        RecoverFromRevocable(cfg, orig, d, n);
      }
    case Edited(content) =>
  }

  /** Disks and original contents along a run that starts disabled and keeps to the discipline. */
  ghost predicate IsRun(cfg: Config, ds: seq<Disk>, origs: seq<Option<string>>, evs: seq<Event>)
  {
    && |ds| == |evs| + 1 == |origs| && Idle(cfg, origs[0], ds[0])
    && forall i :: 0 <= i < |evs| ==>
         Allowed(cfg, ds[i], evs[i]) && ds[i + 1] == NextDisk(cfg, ds[i], evs[i]) && origs[i + 1] == NextOriginal(origs[i], evs[i])
  }

  lemma {:induction false} RunKeepsInv(cfg: Config, ds: seq<Disk>, origs: seq<Option<string>>, evs: seq<Event>, i: nat)
    requires ValidConfig(cfg) && IsRun(cfg, ds, origs, evs) && i < |ds|
    ensures Inv(cfg, origs[i], ds[i])
  {
    hide IsGenerated, Inspect, NextDisk, Inv;
    if i > 0 {
      RunKeepsInv(cfg, ds, origs, evs, i - 1);
      StepKeepsInv(cfg, origs[i - 1], ds[i - 1], evs[i - 1]);
    } else {
      IdleIsInv(cfg, origs[0], ds[0]);
    }
  }

  lemma IdleIsInv(cfg: Config, orig: Option<string>, d: Disk)
    requires Idle(cfg, orig, d)
    ensures Inv(cfg, orig, d)
  {
  }

  /**
   In every state of every such run the developer's original is held in the target, in the
   journal or in the saved state, and the target is the original or the generated content.
   */
  lemma OriginalIsNeverLost(cfg: Config, ds: seq<Disk>, origs: seq<Option<string>>, evs: seq<Event>, i: nat)
    requires ValidConfig(cfg) && IsRun(cfg, ds, origs, evs) && i < |ds|
    ensures var d, orig := ds[i], origs[i];
      && (|| TargetOf(cfg, d) == orig
          || (JournalOf(cfg, d).Some? && Restores(JournalOf(cfg, d).value.prior, orig))
          || (StateOf(cfg, d).prior.Some? && Restores(StateOf(cfg, d).prior.value, orig)))
      && (TargetOf(cfg, d) == orig || IsGenerated(cfg, TargetOf(cfg, d), orig))
  {
    hide IsGenerated, Inspect, NextDisk;
    RunKeepsInv(cfg, ds, origs, evs, i);
  }

  /** Each disable that completes restores the original exactly, absent and empty files included. */
  lemma CompletedDisableRestores(cfg: Config, ds: seq<Disk>, origs: seq<Option<string>>, evs: seq<Event>, i: nat)
    requires ValidConfig(cfg) && IsRun(cfg, ds, origs, evs) && i < |evs|
    requires evs[i].Called? && evs[i].call.DisableNpm? && evs[i].n >= |DisablePlan(cfg, ds[i])|
    ensures TargetOf(cfg, ds[i + 1]) == origs[i] && Idle(cfg, origs[i], ds[i + 1])
  {
    hide IsGenerated, Inspect, DisablePlan;
    RunKeepsInv(cfg, ds, origs, evs, i);
    RevocableOrOn(cfg, origs[i], ds[i], evs[i]);
    DisablePrefix(cfg, origs[i], ds[i], evs[i].n);
  }

  // ------------------------------------------------ outside the discipline

  /** A complete transaction, whatever was in the target before. */
  lemma StagedTransactionResult(cfg: Config, d: Disk, tx: Transaction, text: string)
    requires ValidConfig(cfg) && WellTyped(cfg, d) && tx.target == cfg.target && tx.prior.fileExisted
    ensures var r := Replay(d, TransactionPlan(cfg, d, tx, text));
      TargetOf(cfg, r) == Some(text) && JournalOf(cfg, r).None?
  {
    hide StagePlan, SettlePlan, BeginPlan;
    var p1, d1 := BeginPlan(cfg, d, tx), d[cfg.journal := JournalFile(tx)];
    BeginResult(cfg, d, tx);
    var staged := cfg.tempName(d1);
    var p2, tx2 := StagePlan(cfg, d1, tx, text), StagedTx(tx, staged);
    var d2 := d1[staged := Raw(text)][cfg.journal := JournalFile(tx2)];
    StageResult(cfg, d1, tx, text);
    var d3 := (d2 - {staged})[cfg.target := Raw(text)];
    OneAction(d2, Rename(staged, cfg.target), 1);
    var s := CommittedState(tx2, StateOf(cfg, d3));
    var p4 := SettlePlan(cfg, d3, s);
    SettlePrefix(cfg, d3, s, 4);
    assert Cut(p4, 4) == p4;
    var p3 := [Rename(staged, cfg.target)];
    ReplayConcat(d, p1, p2);
    ReplayConcat(d2, p3, p4);
    ReplayConcat(d, p1 + p2, p3 + p4);
  }

  lemma BeginResult(cfg: Config, d: Disk, tx: Transaction)
    requires ValidConfig(cfg)
    ensures Replay(d, BeginPlan(cfg, d, tx)) == d[cfg.journal := JournalFile(tx)]
  {
    AtomicWriteResult(cfg, d, cfg.journal, JournalFile(tx));
  }

  /** With no recorded prior, a disable writes the fixed public-registry content over an existing file. */
  lemma DisableWithoutPrior(cfg: Config, orig: Option<string>, d: Disk)
    requires ValidConfig(cfg) && Idle(cfg, orig, d)
    ensures var r := Replay(d, DisableSettledPlan(cfg, d));
      TargetOf(cfg, r) == if orig.None? || Inspect(cfg.rules, orig).Err? then orig else Some("registry=https://registry.npmjs.org/\n")
  {
    hide IsGenerated, TransactionPlan, Lines, FirstOffence, LastRegistry, RegistryAllowed, RegistryValue;
    var prior := PriorToRestore(cfg, d);
    if prior.Some? {
      StagedTransactionResult(cfg, d, NewTx(cfg, Disable, prior.value), FALLBACK);
    }
  }

  /**
   Exactly when a complete disable leaves the developer's original in place: with a clear journal
   and a recorded prior, or when the fallback has nothing to overwrite, refuses the file, or
   happens to write the same content.
   */
  lemma DisableRestoresIff(cfg: Config, orig: Option<string>, d: Disk)
    requires ValidConfig(cfg) && Inv(cfg, orig, d)
    ensures TargetOf(cfg, Replay(d, DisablePlan(cfg, d))) == orig <==>
      || (JournalOf(cfg, d).None? && StateOf(cfg, d).prior.Some?)
      || orig.None? || Inspect(cfg.rules, orig).Err? || orig == Some("registry=https://registry.npmjs.org/\n")
  {
    hide IsGenerated, Inspect, RecoverPlan, DisableSettledPlan;
    var plan := DisablePlan(cfg, d);
    assert Cut(plan, |plan|) == plan;
    if On(cfg, orig, d) {
      DisablePrefix(cfg, orig, d, |plan|);
    } else {
      var p := RecoverPlan(cfg, d);
      var e := Replay(d, p);
      RecoverFromRevocable(cfg, orig, d, |p|);
      assert Cut(p, |p|) == p;
      ReplayConcat(d, p, DisableSettledPlan(cfg, e));
      DisableWithoutPrior(cfg, orig, e);
    }
  }

  /** An enable on top of a completed one records the gateway content as the prior; a refused one changes nothing. */
  lemma SecondEnable(cfg: Config, orig: Option<string>, d: Disk, healthy: bool)
    requires ValidConfig(cfg) && On(cfg, orig, d)
    ensures var gateway := TargetOf(cfg, d);
      var again := Replay(d, EnablePlan(cfg, d, healthy));
      if healthy && Inspect(cfg.rules, gateway).Ok? then On(cfg, gateway, again) else again == d
  {
    hide IsGenerated, Inspect, RecoverPlan, TransactionPlan;
    var plan := EnableSettledPlan(cfg, d, healthy);
    NothingToRecover(cfg, d, plan);
    EnableSettledPrefix(cfg, d, healthy, |plan|);
    TransactionIsLong(cfg, d, healthy);
    assert Cut(plan, |plan|) == plan;
  }

  lemma CompleteDisable(cfg: Config, orig: Option<string>, d: Disk)
    requires ValidConfig(cfg) && On(cfg, orig, d)
    ensures TargetOf(cfg, Replay(d, DisablePlan(cfg, d))) == orig
  {
    hide IsGenerated, Inspect, DisablePlan;
    var plan := DisablePlan(cfg, d);
    assert Cut(plan, |plan|) == plan;
    DisablePrefix(cfg, orig, d, |plan|);
  }

  /**
   Enabling again and then disabling brings the original back exactly when the gateway is not
   healthy, inspection refuses the current file, or the current file is the original.
   */
  lemma SecondEnableRestoresIff(cfg: Config, orig: Option<string>, d: Disk, healthy: bool)
    requires ValidConfig(cfg) && On(cfg, orig, d)
    ensures var gateway := TargetOf(cfg, d);
      var again := Replay(d, EnablePlan(cfg, d, healthy));
      TargetOf(cfg, Replay(again, DisablePlan(cfg, again))) == orig <==>
      !healthy || Inspect(cfg.rules, gateway).Err? || gateway == orig
  {
    hide IsGenerated, Inspect, EnablePlan, DisablePlan;
    var gateway := TargetOf(cfg, d);
    SecondEnable(cfg, orig, d, healthy);
    var again := Replay(d, EnablePlan(cfg, d, healthy));
    CompleteDisable(cfg, if healthy && Inspect(cfg.rules, gateway).Ok? then gateway else orig, again);
  }

  /** Concretely: disabling while the transaction that replaced an empty file is open does not bring it back. */
  lemma PendingDisableOverwritesEmptyFile(cfg: Config, d: Disk)
    requires ValidConfig(cfg) && InFlight(cfg, Some(""), d)
    ensures TargetOf(cfg, Replay(d, DisablePlan(cfg, d))) != Some("")
  {
    hide IsGenerated, RecoverPlan, DisablePlan;
    assert Lines("") == [""] && Ignored("") && FirstOffence(cfg.rules, [""]).None?;
    assert Inspect(cfg.rules, Some("")).Ok?;
    assert FALLBACK != "";
    DisableRestoresIff(cfg, Some(""), d);
  }

  /** Concretely: with no file at the start, enabling twice and disabling leaves a file behind. */
  lemma SecondEnableLeavesFileBehind(cfg: Config, d: Disk)
    requires ValidConfig(cfg) && On(cfg, None, d) && UsableUrl(cfg.rules, cfg.url)
    ensures var again := Replay(d, EnablePlan(cfg, d, true));
      TargetOf(cfg, Replay(again, DisablePlan(cfg, again))).Some?
  {
    hide Inspect, GenerateEnabledContent, EnablePlan, DisablePlan;
    EnabledContentIsEffective(cfg.rules, None, cfg.url);
    SecondEnableRestoresIff(cfg, None, d, true);
  }
}
