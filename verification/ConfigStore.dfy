// The configuration file: backup, temporary file, atomic rename, and the load that falls
// back to the backup (eir-svc/src/config.rs).
module ConfigStore {
  import opened Wrappers

  // Unreadable: the file is there but cannot be read as text.
  datatype File = Missing | Unreadable | Text(text: string)

  datatype Files = Files(live: File, bak: File, tmp: File)

  // What a write that is cut off or fails leaves behind is arbitrary.
  datatype Written = Whole | Torn(left: File)

  // The process stops after `stop` of the three writes.
  datatype Faults = Faults(bak: Written, tmp: Written, renamed: bool, stop: nat)

  // A TOML parser; all that is asked of it is that it reads back what was serialised.
  type Parser<!C> = string -> Option<C>

  function Read<C>(f: File, parse: Parser<C>): Option<C> {
    if f.Text? then parse(f.text) else None
  }

  function After(f: File, text: string, w: Written): File {
    if w.Whole? then Text(text) else w.left
  }

  predicate Replaces(f: Faults) {
    f.stop >= 3 && f.tmp.Whole? && f.renamed
  }

  function Saved<C>(d: Files, text: string, parse: Parser<C>, f: Faults): Files {
    if f.stop == 0 then d
    else
      var kept := if Read(d.live, parse).Some? then d.(bak := After(d.bak, d.live.text, f.bak)) else d;
      if f.stop == 1 then kept
      else
        var staged := kept.(tmp := After(kept.tmp, text, f.tmp));
        if !Replaces(f) then staged else staged.(live := staged.tmp, tmp := Missing)
  }

  class ConfigDir {
    var files: Files

    method Save<C>(text: string, parse: Parser<C>, f: Faults) returns (ok: bool)
      modifies this
      ensures files == Saved(old(files), text, parse, f) && ok == Replaces(f)
    {
      if f.stop == 0 {
        return false;
      }
      // The current config is a recovery source only if it parses.
      if Read(files.live, parse).Some? {
        files := files.(bak := After(files.bak, files.live.text, f.bak));
      }
      if f.stop == 1 {
        return false;
      }
      files := files.(tmp := After(files.tmp, text, f.tmp));
      if f.stop == 2 || f.tmp.Torn? || !f.renamed {
        return false;
      }
      files := files.(live := files.tmp, tmp := Missing);
      return true;
    }
  }

  // The configuration the files stand for.
  function Effective<C>(d: Files, parse: Parser<C>): Option<C> {
    var live := Read(d.live, parse);
    if live.Some? then live else Read(d.bak, parse)
  }

  // None stands for an error. A live file that cannot be read at all is one, whatever the
  // backup holds.
  function Load<C>(d: Files, parse: Parser<C>): Option<C> {
    match d.live
    case Missing => None
    case Unreadable => None
    case Text(t) => if parse(t).Some? then parse(t) else Read(d.bak, parse)
  }

  lemma LoadIffReadable<C>(d: Files, parse: Parser<C>)
    ensures Load(d, parse).Some? <==> d.live.Text? && (Read(d.live, parse).Some? || Read(d.bak, parse).Some?)
    ensures Load(d, parse) == if d.live.Text? then Effective(d, parse) else None
  {
  }

  // The fallback does not cover a live file that is gone: a good backup is then not read.
  lemma BackupUnusedWhenLiveIsGone<C>(parse: Parser<C>, text: string)
    requires parse(text).Some?
    ensures var d := Files(Missing, Text(text), Missing);
            Effective(d, parse).Some? && Load(d, parse).None?
  {
  }

  datatype SaveCall<C> = SaveCall(config: C, text: string, f: Faults)

  function Play<C>(d: Files, saves: seq<SaveCall<C>>, parse: Parser<C>): Files
    decreases |saves|
  {
    if saves == [] then d else Play(Saved(d, saves[0].text, parse, saves[0].f), saves[1..], parse)
  }

  // The last configuration that replaced the live file, or else the one before all saves.
  function LastReplacing<C>(before: Option<C>, saves: seq<SaveCall<C>>): Option<C>
    decreases |saves|
  {
    if saves == [] then before
    else LastReplacing(if Replaces(saves[0].f) then Some(saves[0].config) else before, saves[1..])
  }

  // One save, cut off anywhere, leaves the old configuration in force or puts the new one.
  lemma SaveIsAtomic<C>(d: Files, call: SaveCall<C>, parse: Parser<C>)
    requires parse(call.text) == Some(call.config)
    ensures var e := Saved(d, call.text, parse, call.f);
            && Effective(e, parse) == (if Replaces(call.f) then Some(call.config) else Effective(d, parse))
            && (e.live.Text? <==> d.live.Text? || Replaces(call.f))
  {
  }

  predicate SomeReplaced<C>(saves: seq<SaveCall<C>>) {
    exists i | 0 <= i < |saves| :: Replaces(saves[i].f)
  }

  // Any number of saves from any files at all, each cut off anywhere: the configuration in
  // force is the last one whose save got as far as the rename, and until one does, the one
  // from before. The live file is there exactly if it was or a save put it there.
  lemma {:induction false} SavesAreCrashConsistent<C>(d: Files, saves: seq<SaveCall<C>>, parse: Parser<C>)
    requires forall i | 0 <= i < |saves| :: parse(saves[i].text) == Some(saves[i].config)
    ensures Effective(Play(d, saves, parse), parse) == LastReplacing(Effective(d, parse), saves)
    ensures Play(d, saves, parse).live.Text? <==> d.live.Text? || SomeReplaced(saves)
    decreases |saves|
  {
    if saves == [] {
    } else {
      var e, rest := Saved(d, saves[0].text, parse, saves[0].f), saves[1..];
      SaveIsAtomic(d, saves[0], parse);
      SavesAreCrashConsistent(e, rest, parse);
      assert SomeReplaced(saves) <==> Replaces(saves[0].f) || SomeReplaced(rest) by {
        if i :| 0 <= i < |saves| && Replaces(saves[i].f) {
          assert i > 0 ==> rest[i - 1] == saves[i];
        }
        if i :| 0 <= i < |rest| && Replaces(rest[i].f) {
          assert saves[i + 1] == rest[i];
        }
      }
    }
  }

  // What load makes of it: a completed save is never rolled back, and what was readable
  // stays readable.
  lemma LoadAfterSaves<C>(d: Files, saves: seq<SaveCall<C>>, parse: Parser<C>)
    requires forall i | 0 <= i < |saves| :: parse(saves[i].text) == Some(saves[i].config)
    ensures Load(Play(d, saves, parse), parse)
            == if d.live.Text? || SomeReplaced(saves) then LastReplacing(Effective(d, parse), saves) else None
    ensures Load(d, parse).Some? ==> Load(Play(d, saves, parse), parse).Some?
  {
    SavesAreCrashConsistent(d, saves, parse);
    LoadIffReadable(Play(d, saves, parse), parse);
    ReplacingKeepsSome(Effective(d, parse), saves);
  }

  lemma {:induction false} ReplacingKeepsSome<C>(before: Option<C>, saves: seq<SaveCall<C>>)
    ensures LastReplacing(before, saves).Some? <==> before.Some? || SomeReplaced(saves)
    decreases |saves|
  {
    if saves == [] {
    } else {
      var rest := saves[1..];
      ReplacingKeepsSome(if Replaces(saves[0].f) then Some(saves[0].config) else before, rest);
      if i :| 0 <= i < |saves| && Replaces(saves[i].f) {
        assert i > 0 ==> rest[i - 1] == saves[i];
      }
      if i :| 0 <= i < |rest| && Replaces(rest[i].f) {
        assert saves[i + 1] == rest[i];
      }
    }
  }

  // What a save leaves in the backup: the live text if that parses and the write was whole;
  // else what was there, or what a cut-off write left. A broken live file never replaces a
  // good backup.
  lemma BackupAfterSave<C>(d: Files, text: string, parse: Parser<C>, f: Faults)
    ensures var e := Saved(d, text, parse, f);
            && (d.live.Text? && parse(d.live.text).Some? && f.stop > 0 && f.bak.Whole? ==> e.bak == d.live)
            && (d.live.Text? && parse(d.live.text).Some? && f.stop > 0 && f.bak.Torn? ==> e.bak == f.bak.left)
            && (!(d.live.Text? && parse(d.live.text).Some?) || f.stop == 0 ==> e.bak == d.bak)
  {
  }

  // The live file is only ever replaced as a whole, by the new text.
  lemma LiveAfterSave<C>(d: Files, text: string, parse: Parser<C>, f: Faults)
    ensures Saved(d, text, parse, f).live
            == if f.stop >= 3 && f.tmp.Whole? && f.renamed then Text(text) else d.live
  {
  }

  // So after a whole save over a config that parsed, losing the new text still leaves the old
  // configuration to load.
  lemma BackupCoversTheLastSave<C>(d: Files, text: string, previous: C, parse: Parser<C>, junk: string)
    requires Read(d.live, parse) == Some(previous) && parse(junk).None?
    ensures var e := Saved(d, text, parse, Faults(Whole, Whole, true, 3));
            Load(e.(live := Text(junk)), parse) == Some(previous)
  {
  }
}
