/** Relearning when a monitored shell configuration file has changed on disk.
    Modification times are the ones recorded at the previous check; the file
    system is observed through `current`, the modification time of every
    monitored file that exists and can be stat-ed. */
module FileWatching {
  import opened Wrappers
  import opened Dicts
  import opened Aliases
  import opened LazyCollector
  import opened AutoLearning

  /** Modification time per file path. */
  type Mtimes = map<string, int>

  /** Every monitored file, shell after shell, in the setting's order. */
  function AllFiles(monitored: Monitored): seq<string>
    decreases |monitored|
  {
    if monitored == [] then []
    else
      var n := |monitored| - 1;
      AllFiles(monitored[..n]) + monitored[n].1
  }

  /** The files that exist now and are new since the previous check or carry another time. */
  function Changed(files: seq<string>, current: Mtimes, previous: Mtimes): set<string> {
    set f | f in files && f in current && (f !in previous || previous[f] != current[f])
  }

  /** What is recorded for the next check: the present time of every existing file. */
  function Snapshot(files: seq<string>, current: Mtimes): Mtimes {
    map f | f in files && f in current :: current[f]
  }

  /** Whether the shell's files and the changed ones meet. */
  predicate Touches(files: seq<string>, changed: set<string>) {
    exists f :: f in files && f in changed
  }

  /** The shells that own a changed file, in the setting's order. */
  function Affected(monitored: Monitored, changed: set<string>): seq<string>
    decreases |monitored|
  {
    if monitored == [] then []
    else
      var n := |monitored| - 1;
      Affected(monitored[..n], changed) + if Touches(monitored[n].1, changed) then [monitored[n].0] else []
  }

  /** Relearning the given shells one by one: the store, the summed change count and the saves. */
  function Relearn(store: Store, monitored: Monitored, shells: seq<string>, fs: FileSystem): (Store, nat, nat)
    decreases |shells|
  {
    if shells == [] then (store, 0, 0)
    else
      var n := |shells| - 1;
      var acc := Relearn(store, monitored, shells[..n], fs);
      var step := LearnAll(acc.0, monitored, ShellsToProcess(monitored, Some(shells[n])), fs);
      (step.0, acc.1 + Total(step.1), acc.2 + step.2)
  }

  /** A file is among all monitored files exactly when some shell lists it. */
  lemma {:induction false} AllFilesMember(monitored: Monitored, f: string)
    ensures f in AllFiles(monitored) <==> exists i :: 0 <= i < |monitored| && f in monitored[i].1
    decreases |monitored|
  {
    if monitored != [] {
      var n := |monitored| - 1;
      var pre := monitored[..n];
      assert AllFiles(monitored) == AllFiles(pre) + monitored[n].1;
      AllFilesMember(pre, f);
      if f in AllFiles(pre) {
        var i :| 0 <= i < n && f in pre[i].1;
        assert monitored[i] == pre[i];
      }
      if exists i :: 0 <= i < |monitored| && f in monitored[i].1 {
        var i :| 0 <= i < |monitored| && f in monitored[i].1;
        if i < n {
          assert pre[i] == monitored[i];
        }
      }
    }
  }

  /** A shell is relearned exactly when one of its entries lists a changed file. */
  lemma {:induction false} AffectedShells(monitored: Monitored, changed: set<string>, s: string)
    ensures s in Affected(monitored, changed) <==>
            exists i :: 0 <= i < |monitored| && monitored[i].0 == s && Touches(monitored[i].1, changed)
    decreases |monitored|
  {
    if monitored != [] {
      var n := |monitored| - 1;
      var pre := monitored[..n];
      var last := if Touches(monitored[n].1, changed) then [monitored[n].0] else [];
      assert Affected(monitored, changed) == Affected(pre, changed) + last;
      AffectedShells(pre, changed, s);
      if s in Affected(pre, changed) {
        var i :| 0 <= i < n && pre[i].0 == s && Touches(pre[i].1, changed);
        assert monitored[i] == pre[i];
      }
      if exists i :: 0 <= i < |monitored| && monitored[i].0 == s && Touches(monitored[i].1, changed) {
        var i :| 0 <= i < |monitored| && monitored[i].0 == s && Touches(monitored[i].1, changed);
        if i < n {
          assert pre[i] == monitored[i];
        }
      }
    }
  }

  /** A change is never lost: some shell owning the changed file gets relearned. */
  lemma ChangeHasShell(monitored: Monitored, current: Mtimes, previous: Mtimes)
    requires Changed(AllFiles(monitored), current, previous) != {}
    ensures Affected(monitored, Changed(AllFiles(monitored), current, previous)) != []
  {
    var changed := Changed(AllFiles(monitored), current, previous);
    var f :| f in changed;
    AllFilesMember(monitored, f);
    var i :| 0 <= i < |monitored| && f in monitored[i].1;
    assert Touches(monitored[i].1, changed);
    AffectedShells(monitored, changed, monitored[i].0);
  }

  /** A check right after another, with nothing touched in between, sees no change. */
  lemma SnapshotSettles(files: seq<string>, current: Mtimes, later: seq<string>)
    ensures Changed(later, current, Snapshot(files, current)) == set f | f in later && f in current && f !in files
  {
  }

  /** Relearning only shells that have no monitored files changes nothing, counts
      nothing and saves nothing. */
  lemma {:induction false} RelearnIdle(store: Store, monitored: Monitored, shells: seq<string>, fs: FileSystem)
    requires forall i :: 0 <= i < |shells| ==> shells[i] != "" && FilesOf(monitored, shells[i]) == []
    ensures Relearn(store, monitored, shells, fs) == (store, 0, 0)
    decreases |shells|
  {
    if shells != [] {
      var n := |shells| - 1;
      RelearnIdle(store, monitored, shells[..n], fs);
      LearnAllIdle(store, monitored, [shells[n]], fs);
    }
  }

  /** The shell relearned last decides every name its files define: the name gets
      the entry that shell's parse gives, tagged with that shell, whatever the
      shells before it left. */
  lemma LastShellWins(store: Store, m: Monitored, shells: seq<string>, fs: FileSystem, k: string)
    requires shells != []
    requires var s := shells[|shells| - 1];
      s != "" && FilesOf(m, s) != [] && k in Keys(NewAliases(s, FilesOf(m, s), fs))
    ensures var s := shells[|shells| - 1];
      var news := NewAliases(s, FilesOf(m, s), fs);
      && Get(Relearn(store, m, shells, fs).0, k) == Get(news, k)
      && Get(news, k).Some? && Get(news, k).value.shell == s
  {
    var n := |shells| - 1;
    var s := shells[n];
    var news := NewAliases(s, FilesOf(m, s), fs);
    var acc := Relearn(store, m, shells[..n], fs);
    assert ShellsToProcess(m, Some(s)) == [s];
    assert [s][..0] == [];
    assert LearnAll(acc.0, m, [], fs).0 == acc.0;
    assert LearnAll(acc.0, m, [s], fs).0 == LearnShell(acc.0, m, s, fs).store;
    assert Relearn(store, m, shells, fs).0 == LearnAll(acc.0, m, [s], fs).0;
    LearnShellGet(acc.0, m, s, fs, k);
    GetFound(news, k);
  }

  /** The order in which the affected shells are relearned shows in the store: a
      name that the monitored files of two shells both define (bash and zsh,
      which share `~/.slothrc` by default) ends up with the entry of whichever
      shell comes last. */
  lemma OrderMatters(store: Store, m: Monitored, fs: FileSystem, k: string, a: string, b: string)
    requires a != "" && b != "" && a != b
    requires FilesOf(m, a) != [] && k in Keys(NewAliases(a, FilesOf(m, a), fs))
    requires FilesOf(m, b) != [] && k in Keys(NewAliases(b, FilesOf(m, b), fs))
    ensures var r := Get(Relearn(store, m, [a, b], fs).0, k); r.Some? && r.value.shell == b
    ensures var r := Get(Relearn(store, m, [b, a], fs).0, k); r.Some? && r.value.shell == a
    ensures Relearn(store, m, [a, b], fs).0 != Relearn(store, m, [b, a], fs).0
  {
    var ab, ba := [a, b], [b, a];
    LastShellWins(store, m, ab, fs, k);
    LastShellWins(store, m, ba, fs, k);
  }

  /** `FileWatcher`: the recorded modification times, the writes of the last-check
      stamp, and the learner it drives. */
  class FileWatcher {
    const learner: AutoLearner
    var previous: Mtimes
    var stamps: nat

    constructor (learner: AutoLearner, recorded: Mtimes)
      ensures this.learner == learner && previous == recorded && stamps == 0
    {
      this.learner := learner;
      previous := recorded;
      stamps := 0;
    }

    /** `_get_changed_files`: the changed files, with the present times recorded. */
    method GetChangedFiles(files: seq<string>, current: Mtimes) returns (changed: set<string>)
      modifies this
      ensures changed == Changed(files, current, old(previous))
      ensures previous == Snapshot(files, current) && stamps == old(stamps)
    {
      var recorded := previous;
      var times: Mtimes := map[];
      changed := {};
      var i := 0;
      while i < |files|
        invariant 0 <= i <= |files|
        invariant changed == Changed(files[..i], current, recorded)
        invariant times == Snapshot(files[..i], current)
      {
        var f := files[i];
        assert files[..i + 1] == files[..i] + [f];
        if f in current {
          times := times[f := current[f]];
          if f !in recorded || recorded[f] != current[f] {
            changed := changed + {f};
          }
        }
        i := i + 1;
      }
      assert files[..|files|] == files;
      previous := times;
    }

    /** The times are recorded once per round that has files; the learner acts only
        when some file changed, on the shells that own one. */
    method CheckAndRelearnIfNeeded(current: Mtimes, fs: FileSystem) returns (relearned: bool)
      modifies this, learner
      ensures var files := AllFiles(old(learner.monitored));
        files == [] ==> previous == old(previous)
      ensures var files := AllFiles(old(learner.monitored));
        files != [] ==> previous == Snapshot(files, current)
      ensures var m := old(learner.monitored);
        AllFiles(m) == [] || Changed(AllFiles(m), current, old(previous)) == {} ==>
          && !relearned && stamps == old(stamps)
          && learner.aliases == old(learner.aliases) && learner.aliasSaves == old(learner.aliasSaves)
      ensures var m := old(learner.monitored);
        var changed := Changed(AllFiles(m), current, old(previous));
        AllFiles(m) != [] && changed != {} ==>
          var r := Relearn(old(learner.aliases), m, Affected(m, changed), fs);
          && learner.aliases == r.0 && learner.aliasSaves == old(learner.aliasSaves) + r.2
          && relearned == (r.1 > 0) && stamps == old(stamps) + 1
      ensures learner.monitored == old(learner.monitored) && learner.configSaves == old(learner.configSaves)
    {
      var m := learner.monitored;
      var files := GatherFiles(m);
      if files == [] {
        return false;
      }
      var changed := GetChangedFiles(files, current);
      if changed == {} {
        return false;
      }
      relearned := RelearnChanged(m, changed, fs);
    }

    /** The relearning round once some file changed. */
    method RelearnChanged(m: Monitored, changed: set<string>, fs: FileSystem) returns (relearned: bool)
      requires learner.monitored == m
      modifies this, learner
      ensures var r := Relearn(old(learner.aliases), m, Affected(m, changed), fs);
        && learner.aliases == r.0 && learner.aliasSaves == old(learner.aliasSaves) + r.2
        && relearned == (r.1 > 0) && stamps == old(stamps) + 1
      ensures learner.monitored == m && learner.configSaves == old(learner.configSaves)
      ensures previous == old(previous)
    {
      var shells := AffectedOf(m, changed);
      var total := RelearnShells(learner, m, shells, fs);
      stamps := stamps + 1;
      relearned := total > 0;
    }

    /** `force_relearn_all`: every shell relearned, and the stamp written. */
    method ForceRelearnAll(fs: FileSystem) returns (results: Counts)
      modifies this, learner
      ensures var r := LearnAll(old(learner.aliases), learner.monitored, ShellsToProcess(learner.monitored, None), fs);
        && learner.aliases == r.0 && results == r.1 && learner.aliasSaves == old(learner.aliasSaves) + r.2
      ensures learner.monitored == old(learner.monitored) && learner.configSaves == old(learner.configSaves)
      ensures previous == old(previous) && stamps == old(stamps) + 1
    {
      results := learner.LearnFromMonitoredFiles(None, fs);
      stamps := stamps + 1;
    }
  }

  /** The loop relearning the given shells and summing their change counts. */
  method RelearnShells(learner: AutoLearner, m: Monitored, shells: seq<string>, fs: FileSystem) returns (total: nat)
    requires learner.monitored == m
    modifies learner
    ensures var r := Relearn(old(learner.aliases), m, shells, fs);
      && learner.aliases == r.0 && total == r.1 && learner.aliasSaves == old(learner.aliasSaves) + r.2
    ensures learner.monitored == m && learner.configSaves == old(learner.configSaves)
  {
    total := 0;
    var i := 0;
    while i < |shells|
      invariant 0 <= i <= |shells|
      invariant learner.monitored == m && learner.configSaves == old(learner.configSaves)
      invariant var r := Relearn(old(learner.aliases), m, shells[..i], fs);
        learner.aliases == r.0 && total == r.1 && learner.aliasSaves == old(learner.aliasSaves) + r.2
    {
      ghost var acc := Relearn(old(learner.aliases), m, shells[..i], fs);
      ghost var next := Relearn(old(learner.aliases), m, shells[..i + 1], fs);
      ghost var step := LearnAll(acc.0, m, ShellsToProcess(m, Some(shells[i])), fs);
      RelearnNext(old(learner.aliases), m, shells, i, fs);
      assert next.1 == total + Total(step.1);
      var results := learner.LearnFromMonitoredFiles(Some(shells[i]), fs);
      assert Total(results) == Total(step.1);
      total := total + Total(results);
      i := i + 1;
    }
    assert shells[..|shells|] == shells;
  }

  /** Relearning one more shell relearns it on the store the earlier ones left. */
  lemma RelearnNext(store: Store, m: Monitored, shells: seq<string>, i: nat, fs: FileSystem)
    requires i < |shells|
    ensures var acc := Relearn(store, m, shells[..i], fs);
      var step := LearnAll(acc.0, m, ShellsToProcess(m, Some(shells[i])), fs);
      var r := Relearn(store, m, shells[..i + 1], fs);
      r.0 == step.0 && r.1 == acc.1 + Total(step.1) && r.2 == acc.2 + step.2
  {
    assert shells[..i + 1][..i] == shells[..i];
  }

  /** The loop gathering every shell's files. */
  method GatherFiles(monitored: Monitored) returns (files: seq<string>)
    ensures files == AllFiles(monitored)
  {
    files := [];
    var i := 0;
    while i < |monitored|
      invariant 0 <= i <= |monitored|
      invariant files == AllFiles(monitored[..i])
    {
      assert monitored[..i + 1][..i] == monitored[..i];
      files := files + monitored[i].1;
      i := i + 1;
    }
    assert monitored[..|monitored|] == monitored;
  }

  /** The loop picking the shells that own a changed file. */
  method AffectedOf(monitored: Monitored, changed: set<string>) returns (shells: seq<string>)
    ensures shells == Affected(monitored, changed)
  {
    shells := [];
    var i := 0;
    while i < |monitored|
      invariant 0 <= i <= |monitored|
      invariant shells == Affected(monitored[..i], changed)
    {
      assert monitored[..i + 1][..i] == monitored[..i];
      var files := monitored[i].1;
      var touches := false;
      var j := 0;
      while j < |files|
        invariant 0 <= j <= |files|
        invariant touches <==> exists k :: 0 <= k < j && files[k] in changed
      {
        if files[j] in changed {
          touches := true;
        }
        j := j + 1;
      }
      assert touches == Touches(files, changed);
      if touches {
        shells := shells + [monitored[i].0];
      }
      i := i + 1;
    }
    assert monitored[..|monitored|] == monitored;
  }
}
