// Fix actions and the semantic key that identifies the issue they address
// (eir-svc/src/models.rs).
module Actions {
  import opened Wrappers

  datatype FixAction =
    | ServiceRestart(service: string)
    | ServiceStop(service: string)
    | ServiceStart(service: string)
    | LogCleanup(path: string, daysOld: nat)
    | DiskCleanup(area: string)
    | PowerShellDiagnostic(script: string)
    | TaskDisable(task: string)
    | TaskEnable(task: string)
    | RegistryReset(keyPath: string, valueName: string, valueData: string)
    | NetworkDiagnostic(command: string)
    | DriverDisable(driver: string)
    | DriverEnable(driver: string)
    | SoftwareUninstall(package: string)
    | BcdEdit(element: string, setting: string)
    | ProcessKill(process: string)
    | FileDelete(path: string)
    | FirewallEnable(profile: string)
    | DefenderSignatureUpdate
    | DefenderRealtimeEnable
    | SfcScan
    | DismRestoreHealth
    | StartupSet(name: string, location: string, hive: string, enable: bool)

  // Lexical normalisation of a Windows path or registry key. Any function will do:
  // nothing below depends on which one it is.
  type Normalizer = string -> string

  function LowerAscii(s: string): (r: string)
    ensures |r| == |s|
  {
    seq(|s|, i requires 0 <= i < |s| => if 'A' <= s[i] <= 'Z' then s[i] - 'A' + 'a' else s[i])
  }

  function KindOf(a: FixAction): string {
    match a
    case ServiceRestart(_) => "service_restart"
    case ServiceStop(_) => "service_stop"
    case ServiceStart(_) => "service_start"
    case LogCleanup(_, _) => "log_cleanup"
    case DiskCleanup(_) => "disk_cleanup"
    case PowerShellDiagnostic(_) => "powershell_diagnostic"
    case TaskDisable(_) => "task_disable"
    case TaskEnable(_) => "task_enable"
    case RegistryReset(_, _, _) => "registry_reset"
    case NetworkDiagnostic(_) => "network_diagnostic"
    case DriverDisable(_) => "driver_disable"
    case DriverEnable(_) => "driver_enable"
    case SoftwareUninstall(_) => "software_uninstall"
    case BcdEdit(_, _) => "bcd_edit"
    case ProcessKill(_) => "process_kill"
    case FileDelete(_) => "file_delete"
    case FirewallEnable(_) => "firewall_enable"
    case DefenderSignatureUpdate => "defender_signature_update"
    case DefenderRealtimeEnable => "defender_realtime_enable"
    case SfcScan => "sfc_scan"
    case DismRestoreHealth => "dism_restore_health"
    case StartupSet(_, _, _, _) => "startup_set"
  }

  // What an action works on, case-folded. Parameters that are written afresh on every
  // analysis (a script, a value payload, a cleanup age) are not part of it.
  function TargetOf(a: FixAction, norm: Normalizer): Option<string> {
    match a
    case ServiceRestart(s) => Some(LowerAscii(s))
    case ServiceStop(s) => Some(LowerAscii(s))
    case ServiceStart(s) => Some(LowerAscii(s))
    case LogCleanup(p, _) => Some(norm(p))
    case DiskCleanup(t) => Some(LowerAscii(t))
    case PowerShellDiagnostic(_) => None
    case TaskDisable(t) => Some(norm(t))
    case TaskEnable(t) => Some(norm(t))
    case RegistryReset(k, v, _) => Some(RegistryTarget(norm(k), LowerAscii(v)))
    case NetworkDiagnostic(c) => Some(LowerAscii(c))
    case DriverDisable(d) => Some(LowerAscii(d))
    case DriverEnable(d) => Some(LowerAscii(d))
    case SoftwareUninstall(p) => Some(LowerAscii(p))
    case BcdEdit(e, _) => Some(LowerAscii(e))
    case ProcessKill(p) => Some(LowerAscii(p))
    case FileDelete(p) => Some(norm(p))
    case FirewallEnable(p) => Some(LowerAscii(p))
    case DefenderSignatureUpdate => None
    case DefenderRealtimeEnable => None
    case SfcScan => None
    case DismRestoreHealth => None
    case StartupSet(n, l, h, on) =>
      Some(StartupTarget(LowerAscii(n), LowerAscii(l), LowerAscii(h), on))
  }

  function RegistryTarget(path: string, value: string): string {
    path + "|" + value
  }

  function StartupTarget(name: string, location: string, hive: string, on: bool): string {
    ThreeParts(name, location, hive) + "|" + Switch(on)
  }

  function ThreeParts(name: string, location: string, hive: string): string {
    name + "|" + location + "|" + hive
  }

  function Switch(on: bool): string {
    if on then "true" else "false"
  }

  function DedupKey(a: FixAction, norm: Normalizer): string {
    Render(KindOf(a), TargetOf(a, norm))
  }

  function Render(kind: string, target: Option<string>): string {
    match target
    case None => kind
    case Some(t) => kind + "|" + t
  }

  predicate CanAlwaysApprove(a: FixAction) {
    !a.PowerShellDiagnostic?
  }

  predicate Plain(kind: string) {
    kind != "" && '|' !in kind
  }

  lemma ServiceKindIsPlain(a: FixAction)
    requires a.ServiceRestart? || a.ServiceStop? || a.ServiceStart? || a.TaskDisable? || a.TaskEnable?
             || a.DriverDisable? || a.DriverEnable?
    ensures Plain(KindOf(a))
  {
  }

  lemma TargetedKindIsPlain(a: FixAction)
    requires a.LogCleanup? || a.DiskCleanup? || a.RegistryReset? || a.BcdEdit? || a.ProcessKill? || a.FileDelete?
             || a.SoftwareUninstall? || a.StartupSet?
    ensures Plain(KindOf(a))
  {
  }

  lemma RepairKindIsPlain(a: FixAction)
    requires a.PowerShellDiagnostic? || a.NetworkDiagnostic? || a.FirewallEnable? || a.DefenderSignatureUpdate?
             || a.DefenderRealtimeEnable? || a.SfcScan? || a.DismRestoreHealth?
    ensures Plain(KindOf(a))
  {
  }

  lemma KindIsPlain(a: FixAction)
    ensures Plain(KindOf(a))
  {
    hide KindOf;
    if a.ServiceRestart? || a.ServiceStop? || a.ServiceStart? || a.TaskDisable? || a.TaskEnable? || a.DriverDisable?
       || a.DriverEnable? {
      ServiceKindIsPlain(a);
    } else if a.LogCleanup? || a.DiskCleanup? || a.RegistryReset? || a.BcdEdit? || a.ProcessKill? || a.FileDelete?
              || a.SoftwareUninstall? || a.StartupSet? {
      TargetedKindIsPlain(a);
    } else {
      RepairKindIsPlain(a);
    }
  }

  // The first bar splits a key in one way only, since no kind holds one.
  lemma RenderInjective(k1: string, t1: Option<string>, k2: string, t2: Option<string>)
    requires Plain(k1) && Plain(k2)
    ensures Render(k1, t1) == Render(k2, t2) <==> k1 == k2 && t1 == t2
  {
    var s1, s2 := Render(k1, t1), Render(k2, t2);
    if s1 == s2 {
      assert k1 <= s1 && k2 <= s2;
      assert t1.Some? ==> s1[|k1|] == '|' && t1.value == s1[|k1| + 1..];
      assert t2.Some? ==> s2[|k2|] == '|' && t2.value == s2[|k2| + 1..];
      assert forall i | 0 <= i < |k1| :: s1[i] == k1[i] != '|';
      assert forall i | 0 <= i < |k2| :: s2[i] == k2[i] != '|';
      assert |k1| == |k2|;
      assert k1 == s1[..|k1|] == k2;
    }
  }

  // Two actions share a key exactly when they are the same variant on the same target,
  // and no action has the empty key that a registry undo reports under.
  lemma SameKeyIffSameIssue(a: FixAction, b: FixAction, norm: Normalizer)
    ensures DedupKey(a, norm) != ""
    ensures DedupKey(a, norm) == DedupKey(b, norm)
            <==> KindOf(a) == KindOf(b) && TargetOf(a, norm) == TargetOf(b, norm)
  {
    KindIsPlain(a);
    KindIsPlain(b);
    hide KindOf, TargetOf;
    RenderInjective(KindOf(a), TargetOf(a, norm), KindOf(b), TargetOf(b, norm));
  }

  // A registry target names its key path and value name unambiguously exactly when
  // neither holds a bar; otherwise some other value shares its key.
  lemma RegistryTargetUnambiguous(path: string, value: string)
    ensures (forall p, v :: RegistryTarget(p, v) == RegistryTarget(path, value) ==> p == path && v == value)
            <==> '|' !in path && '|' !in value
  {
    if '|' in path {
      var i :| 0 <= i < |path| && path[i] == '|';
      var p, v := path[..i], path[i + 1..] + "|" + value;
      assert path == p + "|" + path[i + 1..];
      assert RegistryTarget(p, v) == RegistryTarget(path, value);
      assert |p| < |path|;
    } else if '|' in value {
      var i :| 0 <= i < |value| && value[i] == '|';
      var p, v := path + "|" + value[..i], value[i + 1..];
      assert value == value[..i] + "|" + v;
      assert RegistryTarget(p, v) == RegistryTarget(path, value);
      assert |p| > |path|;
    } else {
      forall p, v | RegistryTarget(p, v) == RegistryTarget(path, value)
        ensures p == path && v == value
      {
        var s := RegistryTarget(path, value);
        assert s == RegistryTarget(p, v);
        assert s[|p|] == '|';
        assert forall i | 0 <= i < |s| && i != |path| :: s[i] in path || s[i] in value;
        assert |p| == |path|;
        assert p == s[..|p|] && v == s[|p| + 1..];
        assert path == s[..|path|] && value == s[|path| + 1..];
      }
    }
  }

  lemma LastBarSplitsOnce(s: string, a: string, t: string, b: string)
    requires '|' !in a && '|' !in b
    ensures s + "|" + a == t + "|" + b <==> s == t && a == b
  {
    var x, y := s + "|" + a, t + "|" + b;
    if x == y {
      assert x[|s|] == '|' && y[|t|] == '|';
      assert forall i | |s| < i < |x| :: x[i] == a[i - |s| - 1] != '|';
      assert forall i | |t| < i < |y| :: y[i] == b[i - |t| - 1] != '|';
      assert |s| == |t|;
      assert s == x[..|s|] && t == y[..|t|];
      assert a == x[|s| + 1..] && b == y[|t| + 1..];
    }
  }

  lemma SwitchesDiffer(on: bool, off: bool)
    ensures '|' !in Switch(on) && (Switch(on) == Switch(off) <==> on == off)
  {
    assert "true"[0] != "false"[0];
  }

  lemma TwoBarsSplitOnce(n: string, l: string, h: string, x: string, y: string, z: string)
    requires '|' !in n && '|' !in l && '|' !in h && ThreeParts(x, y, z) == ThreeParts(n, l, h)
    ensures x == n && y == l && z == h
  {
    var s := ThreeParts(n, l, h);
    var i, j := |n|, |n| + 1 + |l|;
    assert forall k | 0 <= k < |s| && k != i && k != j :: s[k] in n || s[k] in l || s[k] in h;
    assert s[|x|] == '|' && s[|x| + 1 + |y|] == '|';
    assert |x| == i && |y| == |l|;
    assert x == s[..i] == n;
    assert y == s[i + 1..j] == l;
    assert z == s[j + 1..] == h;
  }

  // Some bar lets the same text be split in another way.
  lemma BarSplitsAgain(n: string, l: string, h: string) returns (x: string, y: string, z: string)
    requires '|' in n || '|' in l || '|' in h
    ensures ThreeParts(x, y, z) == ThreeParts(n, l, h) && |x| != |n|
  {
    if '|' in n {
      var i :| 0 <= i < |n| && n[i] == '|';
      x, y, z := n[..i], n[i + 1..], l + "|" + h;
      assert n == x + "|" + y;
    } else if '|' in l {
      var i :| 0 <= i < |l| && l[i] == '|';
      x, y, z := n + "|" + l[..i], l[i + 1..], h;
      assert l == l[..i] + "|" + y;
    } else {
      var i :| 0 <= i < |h| && h[i] == '|';
      x, y, z := n + "|" + l, h[..i], h[i + 1..];
      assert h == y + "|" + z;
    }
  }

  // A startup target names its entry unambiguously exactly when name, location and hive
  // hold no bar; otherwise some other entry shares its key.
  lemma StartupTargetUnambiguous(n: string, l: string, h: string, on: bool)
    ensures (forall x, y, z, off :: StartupTarget(x, y, z, off) == StartupTarget(n, l, h, on)
                                    ==> x == n && y == l && z == h && off == on)
            <==> '|' !in n && '|' !in l && '|' !in h
  {
    if '|' in n || '|' in l || '|' in h {
      var x, y, z := BarSplitsAgain(n, l, h);
      assert StartupTarget(x, y, z, on) == StartupTarget(n, l, h, on);
    } else {
      forall x, y, z, off | StartupTarget(x, y, z, off) == StartupTarget(n, l, h, on)
        ensures x == n && y == l && z == h && off == on
      {
        SwitchesDiffer(on, off);
        SwitchesDiffer(off, on);
        LastBarSplitsOnce(ThreeParts(x, y, z), Switch(off), ThreeParts(n, l, h), Switch(on));
        TwoBarsSplitOnce(n, l, h, x, y, z);
      }
    }
  }

  // --- the key, on variants and fields ---

  // Equal up to the case of ASCII letters.
  predicate SameLetter(a: char, b: char) {
    || a == b
    || ('A' <= a <= 'Z' && b as int == a as int + 32)
    || ('A' <= b <= 'Z' && a as int == b as int + 32)
  }

  predicate SameWord(a: string, b: string) {
    |a| == |b| && forall i | 0 <= i < |a| :: SameLetter(a[i], b[i])
  }

  lemma FoldedAlike(a: string, b: string)
    ensures LowerAscii(a) == LowerAscii(b) <==> SameWord(a, b)
  {
    var x, y := LowerAscii(a), LowerAscii(b);
    if |a| == |b| {
      forall i | 0 <= i < |a| ensures x[i] == y[i] <==> SameLetter(a[i], b[i]) {
        LetterFoldedAlike(a[i], b[i]);
      }
    }
  }

  lemma LetterFoldedAlike(a: char, b: char)
    ensures (if 'A' <= a <= 'Z' then a - 'A' + 'a' else a) == (if 'A' <= b <= 'Z' then b - 'A' + 'a' else b)
            <==> SameLetter(a, b)
  {
  }

  lemma FoldingKeepsBars(s: string)
    ensures '|' in LowerAscii(s) <==> '|' in s
  {
    forall i | 0 <= i < |s| ensures LowerAscii(s)[i] == '|' <==> s[i] == '|' {}
    assert '|' in s ==> exists i | 0 <= i < |s| :: s[i] == '|' && LowerAscii(s)[i] == '|';
  }

  // The two actions are one variant.
  predicate SameVariant(a: FixAction, b: FixAction) {
    match a
    case ServiceRestart(_) => b.ServiceRestart?
    case ServiceStop(_) => b.ServiceStop?
    case ServiceStart(_) => b.ServiceStart?
    case LogCleanup(_, _) => b.LogCleanup?
    case DiskCleanup(_) => b.DiskCleanup?
    case PowerShellDiagnostic(_) => b.PowerShellDiagnostic?
    case TaskDisable(_) => b.TaskDisable?
    case TaskEnable(_) => b.TaskEnable?
    case RegistryReset(_, _, _) => b.RegistryReset?
    case NetworkDiagnostic(_) => b.NetworkDiagnostic?
    case DriverDisable(_) => b.DriverDisable?
    case DriverEnable(_) => b.DriverEnable?
    case SoftwareUninstall(_) => b.SoftwareUninstall?
    case BcdEdit(_, _) => b.BcdEdit?
    case ProcessKill(_) => b.ProcessKill?
    case FileDelete(_) => b.FileDelete?
    case FirewallEnable(_) => b.FirewallEnable?
    case DefenderSignatureUpdate => b.DefenderSignatureUpdate?
    case DefenderRealtimeEnable => b.DefenderRealtimeEnable?
    case SfcScan => b.SfcScan?
    case DismRestoreHealth => b.DismRestoreHealth?
    case StartupSet(_, _, _, _) => b.StartupSet?
  }

  // And they work on the same thing: the fields written afresh on every analysis aside.
  predicate SameTarget(a: FixAction, b: FixAction, norm: Normalizer)
    requires SameVariant(a, b)
  {
    match a
    case ServiceRestart(x) => SameWord(x, b.service)
    case ServiceStop(x) => SameWord(x, b.service)
    case ServiceStart(x) => SameWord(x, b.service)
    case LogCleanup(x, _) => norm(x) == norm(b.path)
    case DiskCleanup(x) => SameWord(x, b.area)
    case PowerShellDiagnostic(_) => true
    case TaskDisable(x) => norm(x) == norm(b.task)
    case TaskEnable(x) => norm(x) == norm(b.task)
    case RegistryReset(x, y, _) => norm(x) == norm(b.keyPath) && SameWord(y, b.valueName)
    case NetworkDiagnostic(x) => SameWord(x, b.command)
    case DriverDisable(x) => SameWord(x, b.driver)
    case DriverEnable(x) => SameWord(x, b.driver)
    case SoftwareUninstall(x) => SameWord(x, b.package)
    case BcdEdit(x, _) => SameWord(x, b.element)
    case ProcessKill(x) => SameWord(x, b.process)
    case FileDelete(x) => norm(x) == norm(b.path)
    case FirewallEnable(x) => SameWord(x, b.profile)
    case DefenderSignatureUpdate => true
    case DefenderRealtimeEnable => true
    case SfcScan => true
    case DismRestoreHealth => true
    case StartupSet(x, y, z, on) =>
      SameWord(x, b.name) && SameWord(y, b.location) && SameWord(z, b.hive) && on == b.enable
  }

  // No bar in the parts of a target that has several.
  predicate Unbarred(a: FixAction, norm: Normalizer) {
    match a
    case RegistryReset(k, v, _) => '|' !in norm(k) && '|' !in v
    case StartupSet(n, l, h, _) => '|' !in n && '|' !in l && '|' !in h
    case _ => true
  }

  // Length and first letter tell the kinds apart.
  function KindLength(a: FixAction): nat {
    match a
    case ServiceRestart(_) => 15
    case ServiceStop(_) => 12
    case ServiceStart(_) => 13
    case LogCleanup(_, _) => 11
    case DiskCleanup(_) => 12
    case PowerShellDiagnostic(_) => 21
    case TaskDisable(_) => 12
    case TaskEnable(_) => 11
    case RegistryReset(_, _, _) => 14
    case NetworkDiagnostic(_) => 18
    case DriverDisable(_) => 14
    case DriverEnable(_) => 13
    case SoftwareUninstall(_) => 18
    case BcdEdit(_, _) => 8
    case ProcessKill(_) => 12
    case FileDelete(_) => 11
    case FirewallEnable(_) => 15
    case DefenderSignatureUpdate => 25
    case DefenderRealtimeEnable => 24
    case SfcScan => 8
    case DismRestoreHealth => 19
    case StartupSet(_, _, _, _) => 11
  }

  function KindInitial(a: FixAction): char {
    match a
    case LogCleanup(_, _) => 'l'
    case DiskCleanup(_) => 'd'
    case PowerShellDiagnostic(_) => 'p'
    case TaskDisable(_) => 't'
    case TaskEnable(_) => 't'
    case RegistryReset(_, _, _) => 'r'
    case NetworkDiagnostic(_) => 'n'
    case DriverDisable(_) => 'd'
    case DriverEnable(_) => 'd'
    case BcdEdit(_, _) => 'b'
    case ProcessKill(_) => 'p'
    case FileDelete(_) => 'f'
    case FirewallEnable(_) => 'f'
    case DefenderSignatureUpdate => 'd'
    case DefenderRealtimeEnable => 'd'
    case DismRestoreHealth => 'd'
    case _ => 's'
  }

  lemma KindShape(a: FixAction)
    ensures |KindOf(a)| == KindLength(a) && KindOf(a)[0] == KindInitial(a)
  {
  }

  lemma ShapeTellsVariant(a: FixAction, b: FixAction)
    requires KindLength(a) == KindLength(b) && KindInitial(a) == KindInitial(b)
    ensures SameVariant(a, b)
  {
  }

  lemma ShortVariantHasOneKind(a: FixAction, b: FixAction)
    requires SameVariant(a, b) && KindLength(a) <= 12
    ensures KindOf(a) == KindOf(b)
  {
  }

  lemma MiddlingVariantHasOneKind(a: FixAction, b: FixAction)
    requires SameVariant(a, b) && 12 < KindLength(a) <= 15
    ensures KindOf(a) == KindOf(b)
  {
  }

  lemma LongVariantHasOneKind(a: FixAction, b: FixAction)
    requires SameVariant(a, b) && KindLength(a) > 15
    ensures KindOf(a) == KindOf(b)
  {
  }

  lemma VariantHasOneKind(a: FixAction, b: FixAction)
    requires SameVariant(a, b)
    ensures KindOf(a) == KindOf(b)
  {
    hide KindOf, KindLength, SameVariant;
    if KindLength(a) <= 12 {
      ShortVariantHasOneKind(a, b);
    } else if KindLength(a) <= 15 {
      MiddlingVariantHasOneKind(a, b);
    } else {
      LongVariantHasOneKind(a, b);
    }
  }

  lemma SameKindIffSameVariant(a: FixAction, b: FixAction)
    ensures KindOf(a) == KindOf(b) <==> SameVariant(a, b)
  {
    KindShape(a);
    KindShape(b);
    if KindOf(a) == KindOf(b) { ShapeTellsVariant(a, b); }
    if SameVariant(a, b) { VariantHasOneKind(a, b); }
    hide KindOf, KindLength, KindInitial, SameVariant;
  }

  lemma ResetTargets(a: FixAction, b: FixAction, norm: Normalizer)
    requires a.RegistryReset? && b.RegistryReset?
    ensures SameTarget(a, b, norm) ==> TargetOf(a, norm) == TargetOf(b, norm)
    ensures Unbarred(a, norm) && TargetOf(a, norm) == TargetOf(b, norm) ==> SameTarget(a, b, norm)
  {
    FoldedAlike(a.valueName, b.valueName);
    FoldingKeepsBars(a.valueName);
    RegistryTargetUnambiguous(norm(a.keyPath), LowerAscii(a.valueName));
    hide LowerAscii, SameWord, RegistryTarget;
  }

  lemma StartupTargets(a: FixAction, b: FixAction, norm: Normalizer)
    requires a.StartupSet? && b.StartupSet?
    ensures SameTarget(a, b, norm) ==> TargetOf(a, norm) == TargetOf(b, norm)
    ensures Unbarred(a, norm) && TargetOf(a, norm) == TargetOf(b, norm) ==> SameTarget(a, b, norm)
  {
    FoldedAlike(a.name, b.name);
    FoldedAlike(a.location, b.location);
    FoldedAlike(a.hive, b.hive);
    FoldingKeepsBars(a.name);
    FoldingKeepsBars(a.location);
    FoldingKeepsBars(a.hive);
    StartupTargetUnambiguous(LowerAscii(a.name), LowerAscii(a.location), LowerAscii(a.hive), a.enable);
    hide LowerAscii, SameWord, StartupTarget;
  }

  lemma PlainTargets(a: FixAction, b: FixAction, norm: Normalizer)
    requires SameVariant(a, b) && !a.RegistryReset? && !a.StartupSet?
    ensures SameTarget(a, b, norm) <==> TargetOf(a, norm) == TargetOf(b, norm)
  {
    forall x, y ensures LowerAscii(x) == LowerAscii(y) <==> SameWord(x, y) {
      FoldedAlike(x, y);
    }
    hide LowerAscii, SameWord;
  }

  // Actions of different variants never share a key. Two of one variant share it when they
  // work on the same thing, names compared up to ASCII case and paths after normalisation;
  // and, unless a part of the target holds a bar, only then.
  lemma KeyIffSameVariantAndTarget(a: FixAction, b: FixAction, norm: Normalizer)
    ensures DedupKey(a, norm) == DedupKey(b, norm) ==> SameVariant(a, b)
    ensures SameVariant(a, b) && SameTarget(a, b, norm) ==> DedupKey(a, norm) == DedupKey(b, norm)
    ensures Unbarred(a, norm) && DedupKey(a, norm) == DedupKey(b, norm) ==> SameTarget(a, b, norm)
  {
    SameKeyIffSameIssue(a, b, norm);
    SameKindIffSameVariant(a, b);
    hide KindOf, DedupKey;
    if SameVariant(a, b) {
      if a.RegistryReset? {
        ResetTargets(a, b, norm);
      } else if a.StartupSet? {
        StartupTargets(a, b, norm);
      } else {
        PlainTargets(a, b, norm);
        assert Unbarred(a, norm);
      }
      hide SameTarget, TargetOf, SameVariant, Unbarred;
    }
  }

  // A standing approval is refused exactly for the actions whose key would cover every
  // script there could be.
  lemma StandingApprovalCoversNoScript(a: FixAction, norm: Normalizer)
    ensures CanAlwaysApprove(a) <==> forall script :: DedupKey(PowerShellDiagnostic(script), norm) != DedupKey(a, norm)
    ensures !CanAlwaysApprove(a) <==> forall script :: DedupKey(PowerShellDiagnostic(script), norm) == DedupKey(a, norm)
  {
    var probe := PowerShellDiagnostic("");
    KindsDiffer(a);
    SameKeyIffSameIssue(probe, a, norm);
    assert forall script :: DedupKey(PowerShellDiagnostic(script), norm) == DedupKey(probe, norm);
    hide KindOf, TargetOf;
  }

  lemma KindsDiffer(a: FixAction)
    ensures KindOf(a) == "powershell_diagnostic" <==> a.PowerShellDiagnostic?
  {
  }

  // What the execution protocol needs to know about an action: its semantic key, the
  // label it is logged under, and whether it is a registry reset.
  datatype RawFix = RawFix(key: string, shown: string, reset: bool)
  type Fix = f: RawFix | f.key != "" witness RawFix("k", "", false)

  function FixOf(a: FixAction, norm: Normalizer, shown: string): (f: Fix)
    ensures f.key == DedupKey(a, norm) && f.reset == a.RegistryReset?
  {
    SameKeyIffSameIssue(a, a, norm);
    RawFix(DedupKey(a, norm), shown, a.RegistryReset?)
  }

  // Two fixes are one to the protocol exactly when they address the same issue.
  lemma SameFixIffSameIssue(a: FixAction, b: FixAction, norm: Normalizer, shownA: string, shownB: string)
    ensures FixOf(a, norm, shownA).key == FixOf(b, norm, shownB).key
            <==> KindOf(a) == KindOf(b) && TargetOf(a, norm) == TargetOf(b, norm)
    ensures Unbarred(a, norm) ==>
              (FixOf(a, norm, shownA).key == FixOf(b, norm, shownB).key
               <==> SameVariant(a, b) && SameTarget(a, b, norm))
  {
    SameKeyIffSameIssue(a, b, norm);
    KeyIffSameVariantAndTarget(a, b, norm);
    hide KindOf, TargetOf, DedupKey, SameVariant, SameTarget, Unbarred;
  }
}
