/** From a snapshot to flags, and from flags to a verdict. */
module Policy {
  import opened Prelude
  import opened Text
  import opened Snapshot

  datatype Profile = Balanced | Strict

  datatype Flag =
    | IntegrityMismatch | KnownMalicious | VulnerabilityAboveThreshold | StrongNameConfusion | NewbornOrFresh
    | PublisherOrProvenanceChanged | InstallScriptAdded | HasInstallScriptOrNativeBuild | EvidenceUnavailable
    | FreshCachedAllow | LowPopularity | MissingRepository | PackageNotFound | DangerousInstallScript
    | InspectionTruncated

  /** The boolean fields of the source's record that are true. */
  type Assessment = set<Flag>

  datatype Decision = Decision(verdict: Verdict, ruleId: string, degraded: bool)

  // ------------------------------------------------------------ the matrix

  function Evaluate(profile: Profile, a: Assessment): Decision
  {
    var degraded := InspectionTruncated in a;
    var strict := profile == Strict;
    if PackageNotFound in a then Decision(Block, "registry.package-not-found", degraded)
    else if IntegrityMismatch in a || KnownMalicious in a then Decision(Block, "core.integrity-or-malicious", degraded)
    else if DangerousInstallScript in a then Decision(Block, "execution.dangerous-install-script", degraded)
    else if VulnerabilityAboveThreshold in a then Decision(Block, "core.vulnerability-threshold", degraded)
    else if StrongNameConfusion in a && NewbornOrFresh in a then
      Decision(if strict then Block else ApprovalRequired, "identity.confusable-new", degraded)
    else if PublisherOrProvenanceChanged in a && InstallScriptAdded in a then
      Decision(if strict then Block else ApprovalRequired, "release.provenance-script-change", degraded)
    else if HasInstallScriptOrNativeBuild in a && EvidenceUnavailable !in a then
      Decision(if strict then ApprovalRequired else Warn, "execution.install-time", degraded)
    else if EvidenceUnavailable in a && FreshCachedAllow in a then
      Decision(if strict then ApprovalRequired else Allow, "availability.fresh-cache", true)
    else if EvidenceUnavailable in a then
      if strict then Decision(Block, "availability.strict", true)
      else Decision(ApprovalRequired, "availability.no-cache", true)
    else if LowPopularity in a || MissingRepository in a then
      if strict then Decision(Warn, "reputation.weak-signal", degraded)
      else Decision(Allow, "reputation.informational", degraded)
    else Decision(Allow, "core.policy-satisfied", degraded)
  }

  // ------------------------------------------------------------- severities

  /** `unicode.ToLower` on the characters that can end up as an ASCII letter. */
  function LowerRune(c: char): char
  {
    if c == '\U{130}' then 'i' else if c == '\U{212A}' then 'k' else LowerChar(c)
  }

  function LowerWord(s: string): string
  {
    seq(|s|, i requires 0 <= i < |s| => LowerRune(s[i]))
  }

  /** 0 stands for an unknown severity. */
  function SeverityRank(s: string): nat
  {
    var w := LowerWord(s);
    if w == "critical" then 4
    else if w == "high" then 3
    else if w == "medium" || w == "moderate" then 2
    else if w == "low" then 1
    else 0
  }

  /** The rank of a configured threshold; an unrecognised one counts as high. */
  function ThresholdRank(threshold: string): nat
  {
    if threshold == "low" then 1
    else if threshold == "medium" then 2
    else if threshold == "high" then 3
    else if threshold == "critical" then 4
    else 3
  }

  predicate IsVulnerabilityAboveThreshold(obs: string, threshold: string)
  {
    if obs == "above_threshold" then true
    else if obs == "below_threshold" || obs == "none" || obs == "no_record_found" then false
    else SeverityRank(obs) != 0 && SeverityRank(obs) >= ThresholdRank(threshold)
  }

  // ------------------------------------------------------------- assessment

  predicate HasPrefix(s: string, prefix: string)
  {
    prefix <= s
  }

  predicate NamesConfusion(o: string)
  {
    o == "confusion_detected" || o == "true" || HasPrefix(o, "confusion_detected:")
  }

  /** The flags one observation raises. */
  function Raised(s: Signal, threshold: string): Assessment
  {
    OwnFlags(s, threshold) + (if s.observation == "unavailable" then {EvidenceUnavailable} else {})
  }

  function OwnFlags(s: Signal, threshold: string): Assessment
  {
    var o := s.observation;
    if s.kind == "integrity" then
      if o == "mismatch" || o == "failed" then {IntegrityMismatch} else {}
    else if s.kind == "malicious" then
      if o == "true" || o == "malicious" then {KnownMalicious} else {}
    else if s.kind == "vulnerability" then
      if o == "malicious" then {KnownMalicious}
      else if IsVulnerabilityAboveThreshold(o, threshold) then {VulnerabilityAboveThreshold} else {}
    else if s.kind == "name_confusion" then
      if NamesConfusion(o) then {StrongNameConfusion} else {}
    else if s.kind == "publish_history" then
      if o == "not_found" || o == "package_not_found" || o == "version_not_found" then {PackageNotFound} else {}
    else if s.kind == "package_age" then
      if o == "fresh" || o == "newborn" then {NewbornOrFresh}
      else if o == "not_found" then {PackageNotFound} else {}
    else if s.kind == "provenance" then
      if o == "changed" || o == "unexpected" then {PublisherOrProvenanceChanged} else {}
    else if s.kind == "install_script" then ScriptFlags(o)
    else if s.kind == "reputation" then
      if o == "low_popularity" then {LowPopularity}
      else if o == "missing_repository" then {MissingRepository} else {}
    else if s.kind == "cache" then
      if o == "fresh_allow" then {FreshCachedAllow} else {}
    else if s.kind == "availability" then
      if o == "unavailable" then {EvidenceUnavailable} else {}
    else {}
  }

  function ScriptFlags(o: string): Assessment
  {
    if o == "script_added" then {InstallScriptAdded, HasInstallScriptOrNativeBuild}
    else if o == "present" || o == "native_build" then {HasInstallScriptOrNativeBuild}
    else if o == "inspect_truncated" then {InspectionTruncated}
    else if HasPrefix(o, "indicator:") || HasPrefix(o, "dangerous_script:") then
      {DangerousInstallScript, HasInstallScriptOrNativeBuild}
    else {}
  }

  function AssessAll(obs: seq<Signal>, threshold: string): Assessment
  {
    if obs == [] then {} else AssessAll(obs[..|obs| - 1], threshold) + Raised(obs[|obs| - 1], threshold)
  }

  predicate HasUnavailableState(snap: Snapshot)
  {
    exists k :: k in snap.states && snap.states[k] == Unavailable
  }

  predicate HasUnavailableEvidence(snap: Snapshot)
  {
    HasUnavailableState(snap) || exists i :: 0 <= i < |snap.observations| && snap.observations[i].observation == "unavailable"
  }

  function Assess(snap: Snapshot, threshold: string): Assessment
  {
    AssessAll(snap.observations, threshold) + (if HasUnavailableEvidence(snap) then {EvidenceUnavailable} else {})
  }

  /** What the assessment keeps for the explanation: the imitated name, and the scripts with the reasons. */
  datatype Details = Details(confusedWith: string, scriptNames: seq<string>, scriptReasons: seq<string>)

  /** The name a confusion observation gives, if it gives one. */
  function NamedTarget(s: Signal): Option<string>
  {
    if s.kind != "name_confusion" then None
    else if HasPrefix(s.observation, "confusion_detected:") then Some(s.observation[|"confusion_detected:"|..])
    else if HasPrefix(s.observation, "target:") then Some(s.observation[|"target:"|..])
    else None
  }

  /** The dangerous script an observation names, and the reason it gives if it is an indicator. */
  function NamedScript(s: Signal): Option<(string, Option<string>)>
  {
    var o := s.observation;
    if s.kind != "install_script" then None
    else if HasPrefix(o, "indicator:") then
      var parts := Split(o, ':');
      if |parts| >= 4 && parts[2] == "script" then Some((parts[3], Some(parts[1] + " indicator in " + parts[3]))) else None
    else if HasPrefix(o, "dangerous_script:") then Some((o[|"dangerous_script:"|..], None))
    else None
  }

  /** The last name given wins; scripts and reasons add up in order. */
  function DetailsOf(obs: seq<Signal>): Details
  {
    if obs == [] then Details("", [], []) else
      var d, last := DetailsOf(obs[..|obs| - 1]), obs[|obs| - 1];
      var target, script := NamedTarget(last), NamedScript(last);
      Details(if target.Some? then target.value else d.confusedWith,
              d.scriptNames + (if script.Some? then [script.value.0] else []),
              d.scriptReasons + (if script.Some? && script.value.1.Some? then [script.value.1.value] else []))
  }

  /** AssessWithThreshold: flags are set observation by observation, never cleared. */
  method AssessWithThreshold(snap: Snapshot, threshold: string) returns (a: Assessment, d: Details)
    ensures a == Assess(snap, threshold) && d == DetailsOf(snap.observations)
  {
    hide OwnFlags, NamedScript, NamedTarget;
    a, d := {}, Details("", [], []);
    for i := 0 to |snap.observations|
      invariant a == AssessAll(snap.observations[..i], threshold) && d == DetailsOf(snap.observations[..i])
    {
      var obs := snap.observations[i];
      a := a + OwnFlags(obs, threshold);
      if obs.observation == "unavailable" {
        a := a + {EvidenceUnavailable};
      }
      var target, script := NamedTarget(obs), NamedScript(obs);
      if target.Some? {
        d := d.(confusedWith := target.value);
      }
      if script.Some? {
        d := d.(scriptNames := d.scriptNames + [script.value.0]);
        if script.value.1.Some? {
          d := d.(scriptReasons := d.scriptReasons + [script.value.1.value]);
        }
      }
      assert snap.observations[..i + 1][..i] == snap.observations[..i];
    }
    assert snap.observations[..|snap.observations|] == snap.observations;
    if HasUnavailableEvidence(snap) {
      a := a + {EvidenceUnavailable};
    }
  }

  /** What names are read off observations: what follows the sign, and the fourth part of an indicator. */
  lemma NamesRead(s: Signal, x: string)
    ensures s.kind == "name_confusion" && s.observation == "confusion_detected:" + x ==> NamedTarget(s) == Some(x)
    ensures s.kind == "name_confusion" && s.observation == "target:" + x ==> NamedTarget(s) == Some(x)
    ensures s.kind == "install_script" && s.observation == "dangerous_script:" + x ==> NamedScript(s) == Some((x, None))
    ensures s.kind != "name_confusion" ==> NamedTarget(s) == None
    ensures s.kind != "install_script" ==> NamedScript(s) == None
  {
    hide Split;
    if s.observation == "target:" + x {
      assert s.observation[0] == 't' && s.observation[|"target:"|..] == x;
    } else if s.observation == "confusion_detected:" + x {
      assert s.observation[|"confusion_detected:"|..] == x;
    } else if s.observation == "dangerous_script:" + x {
      assert s.observation[0] == 'd' && s.observation[|"dangerous_script:"|..] == x;
    }
  }

  /** An indicator names its script and a reason when it has the four parts. */
  lemma IndicatorRead(s: Signal, indicator: string, script: string)
    requires s.kind == "install_script" && s.observation == "indicator:" + indicator + ":script:" + script
    requires ':' !in indicator && ':' !in script
    ensures NamedScript(s) == Some((script, Some(indicator + " indicator in " + script)))
  {
    hide Split;
    var tail := "script" + [':'] + script;
    var rest := indicator + [':'] + tail;
    assert s.observation == "indicator" + [':'] + rest;
    SplitFirst("indicator", ':', rest);
    SplitFirst(indicator, ':', tail);
    SplitFirst("script", ':', script);
    LastPart(script);
    assert Split(s.observation, ':') == ["indicator", indicator, "script", script];
    assert "indicator:" <= s.observation;
  }

  lemma LastPart(s: string)
    requires ':' !in s
    ensures Split(s, ':') == [s]
  {
  }

  /** The name kept is the last one given. */
  lemma {:induction false} LastNameWins(obs: seq<Signal>, i: nat)
    requires i < |obs| && NamedTarget(obs[i]).Some? && forall j :: i < j < |obs| ==> NamedTarget(obs[j]).None?
    ensures DetailsOf(obs).confusedWith == NamedTarget(obs[i]).value
  {
    hide NamedTarget, NamedScript;
    if i < |obs| - 1 {
      LastNameWins(obs[..|obs| - 1], i);
    }
  }

  /** Every script named is kept, in order. */
  lemma {:induction false} ScriptsAreKept(obs: seq<Signal>, more: seq<Signal>)
    ensures DetailsOf(obs).scriptNames <= DetailsOf(obs + more).scriptNames
    ensures DetailsOf(obs).scriptReasons <= DetailsOf(obs + more).scriptReasons
    ensures forall s :: s in more && NamedScript(s).Some? ==> NamedScript(s).value.0 in DetailsOf(obs + more).scriptNames
    decreases |more|
  {
    hide NamedTarget, NamedScript;
    if more == [] {
      assert obs + more == obs;
    } else {
      var init := more[..|more| - 1];
      assert (obs + more)[..|obs + more| - 1] == obs + init;
      ScriptsAreKept(obs, init);
      forall s | s in more ensures s in init || s == more[|more| - 1] {}
    }
  }

  lemma NamedScriptIsFlagged(s: Signal, threshold: string)
    requires NamedScript(s).Some?
    ensures DangerousInstallScript in Raised(s, threshold)
  {
    hide Split, IsVulnerabilityAboveThreshold, NamesConfusion;
    var o := s.observation;
    if HasPrefix(o, "indicator:") {
      assert o[2] == 'd';
    } else {
      assert o[0] == 'd';
    }
  }

  /** Whenever a dangerous script is named, the assessment says so, under every threshold; reasons come with names. */
  lemma {:induction false} NamedScriptsAreFlagged(obs: seq<Signal>, threshold: string)
    ensures |DetailsOf(obs).scriptReasons| <= |DetailsOf(obs).scriptNames|
    ensures DetailsOf(obs).scriptNames != [] ==> DangerousInstallScript in AssessAll(obs, threshold)
  {
    hide Raised, NamedScript;
    if obs != [] {
      if NamedScript(obs[|obs| - 1]).Some? {
        NamedScriptIsFlagged(obs[|obs| - 1], threshold);
      }
      NamedScriptsAreFlagged(obs[..|obs| - 1], threshold);
    }
  }

  // -------------------------------------------------------- what the flags mean

  /** The severities that reach a threshold; an unrecognised threshold counts as high. */
  predicate Reaches(severity: string, threshold: string)
  {
    if threshold == "low" then severity in {"low", "medium", "moderate", "high", "critical"}
    else if threshold == "medium" then severity in {"medium", "moderate", "high", "critical"}
    else if threshold == "critical" then severity == "critical"
    else severity in {"high", "critical"}
  }

  /** What an observation has to say for a flag, flag by flag. */
  predicate Speaks(f: Flag, s: Signal, threshold: string)
  {
    var o := s.observation;
    match f
    case IntegrityMismatch => s.kind == "integrity" && o in {"mismatch", "failed"}
    case KnownMalicious =>
      (s.kind == "malicious" && o in {"true", "malicious"}) || (s.kind == "vulnerability" && o == "malicious")
    case VulnerabilityAboveThreshold =>
      s.kind == "vulnerability" && (o == "above_threshold" || Reaches(LowerWord(o), threshold))
    case StrongNameConfusion =>
      s.kind == "name_confusion" && (o in {"confusion_detected", "true"} || "confusion_detected:" <= o)
    case NewbornOrFresh => s.kind == "package_age" && o in {"fresh", "newborn"}
    case PublisherOrProvenanceChanged => s.kind == "provenance" && o in {"changed", "unexpected"}
    case InstallScriptAdded => s.kind == "install_script" && o == "script_added"
    case HasInstallScriptOrNativeBuild =>
      s.kind == "install_script" &&
      (o in {"script_added", "present", "native_build"} || "indicator:" <= o || "dangerous_script:" <= o)
    case DangerousInstallScript => s.kind == "install_script" && ("indicator:" <= o || "dangerous_script:" <= o)
    case InspectionTruncated => s.kind == "install_script" && o == "inspect_truncated"
    case FreshCachedAllow => s.kind == "cache" && o == "fresh_allow"
    case LowPopularity => s.kind == "reputation" && o == "low_popularity"
    case MissingRepository => s.kind == "reputation" && o == "missing_repository"
    case PackageNotFound =>
      (s.kind == "publish_history" && o in {"not_found", "package_not_found", "version_not_found"}) ||
      (s.kind == "package_age" && o == "not_found")
    case EvidenceUnavailable => o == "unavailable"
  }

  /** Severities are read without regard to case. */
  lemma LowerWordOfAscii(s: string)
    requires forall i :: 0 <= i < |s| ==> s[i] < '\U{80}'
    ensures LowerWord(s) == Lower(s)
  {
  }

  lemma SeverityReaches(o: string, threshold: string)
    requires o != "malicious"
    ensures IsVulnerabilityAboveThreshold(o, threshold) <==> o == "above_threshold" || Reaches(LowerWord(o), threshold)
  {
    NoSeverity();
  }

  lemma NoSeverity()
    ensures SeverityRank("below_threshold") == 0 && SeverityRank("none") == 0 && SeverityRank("no_record_found") == 0
    ensures forall t :: !Reaches(LowerWord("below_threshold"), t) && !Reaches(LowerWord("none"), t)
    ensures forall t :: !Reaches(LowerWord("no_record_found"), t) && !Reaches(LowerWord("malicious"), t)
  {
    assert LowerWord("below_threshold")[0] == 'b';
    assert LowerWord("none")[0] == 'n' && LowerWord("no_record_found")[0] == 'n';
    assert LowerWord("malicious")[1] == 'a';
  }

  lemma ScriptFlagsMean(o: string, f: Flag)
    ensures f in ScriptFlags(o) <==>
      match f
      case InstallScriptAdded => o == "script_added"
      case HasInstallScriptOrNativeBuild =>
        o in {"script_added", "present", "native_build"} || "indicator:" <= o || "dangerous_script:" <= o
      case DangerousInstallScript => "indicator:" <= o || "dangerous_script:" <= o
      case InspectionTruncated => o == "inspect_truncated"
      case _ => false
  {
    if "indicator:" <= o {
      assert o[2] == 'd';
    } else if "dangerous_script:" <= o {
      assert o[0] == 'd';
    }
  }

  /** Kinds about the package as it is now. */
  predicate AboutPackage(kind: string)
  {
    kind in {"integrity", "malicious", "vulnerability", "name_confusion"}
  }

  lemma RaisedAboutPackage(s: Signal, threshold: string, f: Flag)
    requires AboutPackage(s.kind)
    ensures f in Raised(s, threshold) <==> Speaks(f, s, threshold)
  {
    hide ScriptFlags, IsVulnerabilityAboveThreshold, Reaches, LowerWord, NamesConfusion;
    NoSeverity();
    if s.kind == "vulnerability" && s.observation != "malicious" {
      SeverityReaches(s.observation, threshold);
    } else if s.kind == "name_confusion" {
      ConfusionNamed(s.observation);
    }
  }

  lemma ConfusionNamed(o: string)
    ensures NamesConfusion(o) <==> o in {"confusion_detected", "true"} || "confusion_detected:" <= o
  {
  }

  lemma RaisedAboutRelease(s: Signal, threshold: string, f: Flag)
    requires !AboutPackage(s.kind)
    ensures f in Raised(s, threshold) <==> Speaks(f, s, threshold)
  {
    hide ScriptFlags, IsVulnerabilityAboveThreshold, Reaches, LowerWord, NamesConfusion;
    ScriptFlagsMean(s.observation, f);
  }

  /** An observation raises a flag exactly when it says what the flag stands for. */
  lemma RaisedIff(s: Signal, threshold: string, f: Flag)
    ensures f in Raised(s, threshold) <==> Speaks(f, s, threshold)
  {
    hide Raised, Speaks, AboutPackage;
    if AboutPackage(s.kind) {
      RaisedAboutPackage(s, threshold, f);
    } else {
      RaisedAboutRelease(s, threshold, f);
    }
  }

  /**
   A flag is set exactly when some observation says what it stands for; the outage flag also when a
   provider's state is unavailable.
   */
  lemma FlagsMean(snap: Snapshot, threshold: string, f: Flag)
    ensures f in Assess(snap, threshold) <==>
      || (exists s :: s in snap.observations && Speaks(f, s, threshold))
      || (f == EvidenceUnavailable && exists k :: k in snap.states && snap.states[k] == Unavailable)
  {
    hide Raised, Speaks;
    var obs := snap.observations;
    if f in AssessAll(obs, threshold) {
      FlagHasSource(obs, threshold, f);
      var i :| 0 <= i < |obs| && f in Raised(obs[i], threshold);
      RaisedIff(obs[i], threshold, f);
    }
    forall s | s in obs && Speaks(f, s, threshold) ensures f in AssessAll(obs, threshold) {
      var i :| 0 <= i < |obs| && obs[i] == s;
      RaisedIff(s, threshold, f);
      SignalIsCounted(obs, threshold, i);
    }
    OutageSpeaks(snap, threshold);
  }

  lemma OutageSpeaks(snap: Snapshot, threshold: string)
    ensures (exists i :: 0 <= i < |snap.observations| && snap.observations[i].observation == "unavailable") <==>
      exists s :: s in snap.observations && Speaks(EvidenceUnavailable, s, threshold)
  {
    if i :| 0 <= i < |snap.observations| && snap.observations[i].observation == "unavailable" {
      assert snap.observations[i] in snap.observations && Speaks(EvidenceUnavailable, snap.observations[i], threshold);
    }
  }

  // ------------------------------------------------------------ the matrix, by verdict

  /** Flags that block under every profile. */
  predicate Forbids(f: Flag)
  {
    f in {PackageNotFound, IntegrityMismatch, KnownMalicious, DangerousInstallScript, VulnerabilityAboveThreshold}
  }

  predicate Hard(a: Assessment)
  {
    || PackageNotFound in a || IntegrityMismatch in a || KnownMalicious in a
    || DangerousInstallScript in a || VulnerabilityAboveThreshold in a
  }

  /** A new package with a confusing name, or a change of hands together with a new script. */
  predicate Suspicious(a: Assessment)
  {
    (StrongNameConfusion in a && NewbornOrFresh in a) || (PublisherOrProvenanceChanged in a && InstallScriptAdded in a)
  }

  /** Each verdict, and the degraded mark, by the flags and the profile alone. */
  lemma {:induction false} Matrix(p: Profile, a: Assessment)
    ensures var d := Evaluate(p, a);
      var outage, cached := EvidenceUnavailable in a, FreshCachedAllow in a;
      var scripts, weak := HasInstallScriptOrNativeBuild in a, LowPopularity in a || MissingRepository in a;
      var holds := if p == Balanced then Suspicious(a) || (outage && !cached)
                   else !Suspicious(a) && if outage then cached else scripts;
      var warns := !Suspicious(a) && !outage && if p == Balanced then scripts else !scripts && weak;
      var allows := !Suspicious(a) && if p == Balanced then (if outage then cached else !scripts) else !outage && !scripts && !weak;
      && (d.verdict == Block <==> Hard(a) || (p == Strict && (Suspicious(a) || (outage && !cached))))
      && (d.verdict == ApprovalRequired <==> !Hard(a) && holds)
      && (d.verdict == Warn <==> !Hard(a) && warns)
      && (d.verdict == Allow <==> !Hard(a) && allows)
      && (d.degraded <==> InspectionTruncated in a || (outage && !Hard(a) && !Suspicious(a)))
  {
  }

  /** The rule a decision names, for the twelve cases there are. */
  lemma {:induction false} RuleNames(p: Profile, a: Assessment)
    ensures var rule := Evaluate(p, a).ruleId;
      var tampered := IntegrityMismatch in a || KnownMalicious in a;
      var confusable := StrongNameConfusion in a && NewbornOrFresh in a;
      && (PackageNotFound in a ==> rule == "registry.package-not-found")
      && (PackageNotFound !in a && tampered ==> rule == "core.integrity-or-malicious")
      && (PackageNotFound !in a && !tampered && DangerousInstallScript in a ==> rule == "execution.dangerous-install-script")
      && (PackageNotFound !in a && !tampered && DangerousInstallScript !in a && VulnerabilityAboveThreshold in a ==>
            rule == "core.vulnerability-threshold")
      && (!Hard(a) && confusable ==> rule == "identity.confusable-new")
      && (!Hard(a) && !confusable && Suspicious(a) ==> rule == "release.provenance-script-change")
  {
  }

  lemma {:induction false} RuleNamesOtherwise(p: Profile, a: Assessment)
    requires !Hard(a) && !Suspicious(a)
    ensures var rule := Evaluate(p, a).ruleId;
      var outage, cached := EvidenceUnavailable in a, FreshCachedAllow in a;
      var scripts, weak := HasInstallScriptOrNativeBuild in a, LowPopularity in a || MissingRepository in a;
      && (outage && cached ==> rule == "availability.fresh-cache")
      && (outage && !cached ==> rule == if p == Strict then "availability.strict" else "availability.no-cache")
      && (!outage && scripts ==> rule == "execution.install-time")
      && (!outage && !scripts && weak ==> rule == if p == Strict then "reputation.weak-signal" else "reputation.informational")
      && (!outage && !scripts && !weak ==> rule == "core.policy-satisfied")
  {
  }

  /** One observation of a forbidding kind blocks, whatever the profile and whatever else is observed. */
  lemma ForbiddenBlocks(p: Profile, snap: Snapshot, threshold: string, s: Signal, f: Flag)
    requires s in snap.observations && Forbids(f) && Speaks(f, s, threshold)
    ensures Evaluate(p, Assess(snap, threshold)).verdict == Block
  {
    hide Assess, Evaluate, Speaks;
    FlagsMean(snap, threshold, f);
    Matrix(p, Assess(snap, threshold));
  }

  // ------------------------------------------------------------ monotonicity

  lemma {:induction false} SignalIsCounted(obs: seq<Signal>, threshold: string, i: nat)
    requires i < |obs|
    ensures Raised(obs[i], threshold) <= AssessAll(obs, threshold)
  {
    if i < |obs| - 1 {
      SignalIsCounted(obs[..|obs| - 1], threshold, i);
    }
  }

  lemma {:induction false} FlagHasSource(obs: seq<Signal>, threshold: string, f: Flag)
    requires f in AssessAll(obs, threshold)
    ensures exists i :: 0 <= i < |obs| && f in Raised(obs[i], threshold)
  {
    hide Raised;
    var before, last := obs[..|obs| - 1], obs[|obs| - 1];
    if f !in Raised(last, threshold) {
      FlagHasSource(before, threshold, f);
      var i :| 0 <= i < |before| && f in Raised(before[i], threshold);
      assert obs[i] == before[i];
    }
  }

  function Rank(v: Verdict): nat
  {
    match v
    case Allow => 0
    case Warn => 1
    case ApprovalRequired => 2
    case Block => 3
  }

  predicate AtLeastAsStrict(p: Profile, q: Profile)
  {
    q == Strict || p == q
  }

  lemma {:induction false} EvaluateMonotone(p: Profile, q: Profile, a: Assessment, b: Assessment)
    requires AtLeastAsStrict(p, q) && a <= b
    requires EvidenceUnavailable in b ==> EvidenceUnavailable in a
    requires FreshCachedAllow in b ==> FreshCachedAllow in a
    ensures Rank(Evaluate(p, a).verdict) <= Rank(Evaluate(q, b).verdict)
  {
  }

  lemma LowerThresholdRaisesMore(s: Signal, t: string, u: string)
    requires ThresholdRank(u) <= ThresholdRank(t)
    ensures Raised(s, t) <= Raised(s, u)
  {
    hide SeverityRank, ThresholdRank, ScriptFlags, NamesConfusion;
  }

  /** A signal that may be added without the verdict being able to get milder. */
  predicate Harmless(s: Signal)
  {
    s.kind != "cache" && s.observation != "unavailable"
  }

  lemma HarmlessFlags(s: Signal, threshold: string)
    requires Harmless(s)
    ensures EvidenceUnavailable !in Raised(s, threshold) && FreshCachedAllow !in Raised(s, threshold)
  {
    hide IsVulnerabilityAboveThreshold, NamesConfusion, HasPrefix;
  }

  lemma AvailabilityOfSignal(s: Signal, t: string, u: string, f: Flag)
    requires f == EvidenceUnavailable || f == FreshCachedAllow
    ensures f in Raised(s, t) <==> f in Raised(s, u)
  {
    hide IsVulnerabilityAboveThreshold, NamesConfusion, HasPrefix;
  }

  /** `more` has every observation of `less`, and what it adds is harmless. */
  ghost predicate Extends(less: seq<Signal>, more: seq<Signal>)
  {
    && (forall i :: 0 <= i < |less| ==> less[i] in more)
    && (forall i :: 0 <= i < |more| ==> more[i] in less || Harmless(more[i]))
  }

  /** Harmless observations decide neither availability nor the cached allow. */
  lemma SameAvailability(less: seq<Signal>, more: seq<Signal>, t: string, u: string, f: Flag)
    requires Extends(less, more) && (f == EvidenceUnavailable || f == FreshCachedAllow)
    ensures f in AssessAll(more, u) ==> f in AssessAll(less, t)
  {
    hide Raised, Harmless, AssessAll;
    if f in AssessAll(more, u) {
      FlagHasSource(more, u, f);
      var i :| 0 <= i < |more| && f in Raised(more[i], u);
      if more[i] in less {
        var j :| 0 <= j < |less| && less[j] == more[i];
        AvailabilityOfSignal(less[j], t, u, f);
        SignalIsCounted(less, t, j);
      } else {
        HarmlessFlags(more[i], u);
      }
    }
  }

  lemma MoreRaisesMore(less: seq<Signal>, more: seq<Signal>, t: string, u: string)
    requires Extends(less, more) && ThresholdRank(u) <= ThresholdRank(t)
    ensures AssessAll(less, t) <= AssessAll(more, u)
  {
    hide Raised, ThresholdRank, AssessAll;
    forall f | f in AssessAll(less, t) ensures f in AssessAll(more, u) {
      FlagHasSource(less, t, f);
      var i :| 0 <= i < |less| && f in Raised(less[i], t);
      var j :| 0 <= j < |more| && more[j] == less[i];
      LowerThresholdRaisesMore(less[i], t, u);
      SignalIsCounted(more, u, j);
    }
  }

  lemma SameUnavailableEvidence(less: Snapshot, more: Snapshot)
    requires Extends(less.observations, more.observations) && HasUnavailableState(less) == HasUnavailableState(more)
    ensures HasUnavailableEvidence(more) ==> HasUnavailableEvidence(less)
    ensures HasUnavailableEvidence(less) ==> HasUnavailableEvidence(more)
  {
    var a, b := less.observations, more.observations;
    if i :| 0 <= i < |a| && a[i].observation == "unavailable" {
      var j :| 0 <= j < |b| && b[j] == a[i];
    }
    if i :| 0 <= i < |b| && b[i].observation == "unavailable" {
      assert !Harmless(b[i]);
      var j :| 0 <= j < |a| && a[j] == b[i];
    }
  }

  /**
   A stricter profile, a lower threshold and more observations, none of them from the cache or
   "unavailable", together never give a less restrictive verdict.
   */
  lemma VerdictIsMonotone(p: Profile, q: Profile, t: string, u: string, less: Snapshot, more: Snapshot)
    requires AtLeastAsStrict(p, q) && ThresholdRank(u) <= ThresholdRank(t)
    requires Extends(less.observations, more.observations)
    requires HasUnavailableState(less) == HasUnavailableState(more)
    ensures Rank(Evaluate(p, Assess(less, t)).verdict) <= Rank(Evaluate(q, Assess(more, u)).verdict)
  {
    hide AssessAll, ThresholdRank, Evaluate, HasUnavailableEvidence;
    MoreRaisesMore(less.observations, more.observations, t, u);
    SameAvailability(less.observations, more.observations, t, u, EvidenceUnavailable);
    SameAvailability(less.observations, more.observations, t, u, FreshCachedAllow);
    SameUnavailableEvidence(less, more);
    EvaluateMonotone(p, q, Assess(less, t), Assess(more, u));
  }

  /** Something is known that a row above the availability rows decides on, install-time code aside. */
  predicate Grave(a: Assessment)
  {
    Hard(a) || Suspicious(a)
  }

  predicate Milder(p: Profile, a: Assessment, b: Assessment)
  {
    Rank(Evaluate(p, b).verdict) < Rank(Evaluate(p, a).verdict)
  }

  /**
   Neither exclusion can be dropped, and this is exactly what each would cost.  An outage makes the
   verdict milder just for a balanced profile that would warn of install-time code and has a fresh
   cached allow; a fresh cached allow does so just during an outage.  Either only where nothing grave
   is known.
   */
  lemma {:induction false} ExclusionsCost(p: Profile, a: Assessment)
    ensures Milder(p, a, a + {EvidenceUnavailable}) <==>
      p == Balanced && !Grave(a) && HasInstallScriptOrNativeBuild in a && EvidenceUnavailable !in a && FreshCachedAllow in a
    ensures Milder(p, a, a + {FreshCachedAllow}) <==> !Grave(a) && EvidenceUnavailable in a && FreshCachedAllow !in a
  {
  }

  /** During an outage the policy alone allows only under the balanced profile with a fresh cached allow, and says it is degraded. */
  lemma OutageVerdict(p: Profile, a: Assessment)
    requires EvidenceUnavailable in a
    ensures var d := Evaluate(p, a);
      || d.verdict == Block || d.verdict == ApprovalRequired
      || (d.verdict == Allow && d.degraded && p == Balanced && FreshCachedAllow in a)
  {
  }
}
