/**
 * Relearning of the newer generation (`lazysloth/core/auto_learner.py`): the
 * aliases parsed from a shell's monitored files are merged into the alias
 * store with counts of what was learned, updated and removed, and the lists
 * of monitored files are edited.
 */
module AutoLearning {
  import opened Wrappers
  import opened Text
  import opened Dicts
  import opened Aliases
  import opened LazyCollector

  /** The `{'learned', 'updated', 'removed'}` counts. */
  datatype Counts = Counts(learned: nat, updated: nat, removed: nat)

  function Plus(a: Counts, b: Counts): Counts {
    Counts(a.learned + b.learned, a.updated + b.updated, a.removed + b.removed)
  }

  function Total(c: Counts): nat {
    c.learned + c.updated + c.removed
  }

  /** The monitored files, per shell, as the `monitored_files` setting holds them. */
  type Monitored = Dict<seq<string>>

  /** `monitored_files.<shell>`, or no files. */
  function FilesOf(monitored: Monitored, shell: string): seq<string> {
    match Get(monitored, shell)
    case None => []
    case Some(files) => files
  }

  // ---- the merge of the parsed aliases ----

  /** The aliases parsed from the monitored files: only bash and zsh files are parsed. */
  function NewAliases(shell: string, files: seq<string>, fs: FileSystem): Store {
    if shell == "bash" || shell == "zsh" then CollectFiles(files, fs, shell) else []
  }

  /** The merge loop over the parsed aliases, in order: a new name is learned, a
      changed command is an update, and an unchanged alias takes the parsed
      entry's fields (every field is present in a parsed entry). */
  function Merge(existing: Store, news: Store): (Store, Counts)
    decreases |news|
  {
    if news == [] then (existing, Counts(0, 0, 0))
    else
      var n := |news| - 1;
      MergeOne(Merge(existing, news[..n]), news[n].0, news[n].1)
  }

  /** One turn of the merge loop. */
  function MergeOne(acc: (Store, Counts), name: string, data: AliasEntry): (Store, Counts) {
    var current := Get(acc.0, name);
    var c := acc.1;
    if current.None? then (Put(acc.0, name, data), c.(learned := c.learned + 1))
    else if current.value.command != data.command then (Put(acc.0, name, data), c.(updated := c.updated + 1))
    else (Put(acc.0, name, data), c)
  }

  /** Names of the parse that the store did not have. */
  function FreshNames(existing: Store, news: Store): set<string> {
    set k | k in Keys(news) && k !in Keys(existing)
  }

  /** Names of the parse whose stored command differs from the parsed one. */
  function ChangedNames(existing: Store, news: Store): set<string> {
    set k | k in Keys(news) && Get(existing, k).Some? && Get(news, k).Some? &&
            Get(existing, k).value.command != Get(news, k).value.command
  }

  /** The merge assigns the parsed entries one by one, as `update` does. */
  lemma {:induction false} MergeStore(existing: Store, news: Store)
    ensures Merge(existing, news).0 == Update(existing, news)
    decreases |news|
  {
    if news != [] {
      var n := |news| - 1;
      MergeStore(existing, news[..n]);
      assert news == news[..n] + [news[n]];
      UpdateSnoc(existing, news[..n], news[n]);
    }
  }

  lemma {:induction false} UpdateSnoc<V>(d: Dict<V>, e: Dict<V>, x: (string, V))
    ensures Update(d, e + [x]) == Put(Update(d, e), x.0, x.1)
    decreases |e|
  {
    if e == [] {
      assert [x][1..] == [];
    } else {
      assert (e + [x])[0] == e[0] && (e + [x])[1..] == e[1..] + [x];
      UpdateSnoc(Put(d, e[0].0, e[0].1), e[1..], x);
    }
  }

  /** The learned count is the number of new names, the updated count the number
      of names whose command changed. */
  lemma {:induction false} MergeCounts(existing: Store, news: Store)
    requires UniqueKeys(news)
    ensures Merge(existing, news).1 == Counts(|FreshNames(existing, news)|, |ChangedNames(existing, news)|, 0)
    decreases |news|
  {
    if news != [] {
      var n := |news| - 1;
      var pre := news[..n];
      var x := news[n];
      assert news == pre + [x];
      assert UniqueKeys(pre);
      MergeCounts(existing, pre);
      KeysIndex(pre);
      MergeCountsNext(existing, pre, x);
    }
  }

  /** The counts after one more parsed entry, from the counts before it. */
  lemma MergeCountsNext(existing: Store, pre: Store, x: (string, AliasEntry))
    requires UniqueKeys(pre + [x]) && x.0 !in Keys(pre)
    requires Merge(existing, pre).1 == Counts(|FreshNames(existing, pre)|, |ChangedNames(existing, pre)|, 0)
    ensures Merge(existing, pre + [x]).1 == Counts(|FreshNames(existing, pre + [x])|, |ChangedNames(existing, pre + [x])|, 0)
  {
    var acc := Merge(existing, pre);
    assert (pre + [x])[..|pre|] == pre;
    assert Merge(existing, pre + [x]).1 == MergeOne(acc, x.0, x.1).1;
    MergeFinds(existing, pre, x.0);
    GetFound(existing, x.0);
    var isNew := x.0 !in Keys(existing);
    var isChanged := Get(existing, x.0).Some? && Get(existing, x.0).value.command != x.1.command;
    MergeOneCounts(acc, x.0, x.1);
    NamesNext(existing, pre, x, isNew, isChanged);
  }

  /** One turn of the merge counts a new name as learned and a changed command as updated. */
  lemma MergeOneCounts(acc: (Store, Counts), name: string, data: AliasEntry)
    ensures var current := Get(acc.0, name);
      MergeOne(acc, name, data).1 ==
        acc.1.(learned := acc.1.learned + (if current.None? then 1 else 0),
               updated := acc.1.updated + (if current.Some? && current.value.command != data.command then 1 else 0))
  {
  }

  /** The sizes of both sets after one more parsed entry with a name not parsed before. */
  lemma NamesNext(existing: Store, pre: Store, x: (string, AliasEntry), isNew: bool, isChanged: bool)
    requires UniqueKeys(pre + [x]) && x.0 !in Keys(pre)
    requires isNew == (x.0 !in Keys(existing))
    requires isChanged == (Get(existing, x.0).Some? && Get(existing, x.0).value.command != x.1.command)
    ensures |FreshNames(existing, pre + [x])| == |FreshNames(existing, pre)| + (if isNew then 1 else 0)
    ensures |ChangedNames(existing, pre + [x])| == |ChangedNames(existing, pre)| + (if isChanged then 1 else 0)
  {
    SnocSets(existing, pre, x);
    CardPlus(FreshNames(existing, pre), x.0, isNew);
    CardPlus(ChangedNames(existing, pre), x.0, isChanged);
  }

  /** A name the merge has not reached yet still finds the stored entry. */
  lemma MergeFinds(existing: Store, pre: Store, k: string)
    requires UniqueKeys(pre) && k !in Keys(pre)
    ensures Get(Merge(existing, pre).0, k) == Get(existing, k)
  {
    MergeStore(existing, pre);
    GetUpdate(existing, pre, k);
  }

  lemma CardPlus(a: set<string>, x: string, b: bool)
    requires x !in a
    ensures |a + (if b then {x} else {})| == |a| + (if b then 1 else 0)
  {
  }

  /** How one more parsed entry, with a name not parsed before, extends both sets. */
  lemma SnocSets(existing: Store, pre: Store, x: (string, AliasEntry))
    requires UniqueKeys(pre + [x]) && x.0 !in Keys(pre)
    ensures FreshNames(existing, pre + [x]) ==
            FreshNames(existing, pre) + (if x.0 in Keys(existing) then {} else {x.0})
    ensures ChangedNames(existing, pre + [x]) ==
            ChangedNames(existing, pre) +
            (if Get(existing, x.0).Some? && Get(existing, x.0).value.command != x.1.command then {x.0} else {})
    ensures x.0 !in FreshNames(existing, pre) && x.0 !in ChangedNames(existing, pre)
  {
    KeysSnoc(pre, x);
    GetAt(pre + [x], |pre|);
    forall k | k in Keys(pre)
      ensures Get(pre + [x], k) == Get(pre, k)
    {
      GetSnoc(pre, x, k);
    }
  }

  /** Appending an entry with another key does not change what a key finds. */
  lemma {:induction false} GetSnoc<V>(d: Dict<V>, x: (string, V), k: string)
    requires k != x.0
    ensures Get(d + [x], k) == Get(d, k)
  {
    if d != [] {
      assert (d + [x])[1..] == d[1..] + [x];
      GetSnoc(d[1..], x, k);
    }
  }

  // ---- the removal of aliases that left the monitored files ----

  /** `Path(source).name` is among the names of the monitored files, or the source itself is listed. */
  predicate Monitors(files: seq<string>, source: string) {
    (exists i :: 0 <= i < |files| && BaseName(files[i]) == BaseName(source)) || source in files
  }

  /** The shell's stored aliases that the parse no longer has. */
  function Candidates(store: Store, shell: string, newNames: set<string>): set<string> {
    set k | k in Keys(store) && Get(store, k).Some? && Get(store, k).value.shell == shell && k !in newNames
  }

  /** The names among `names` whose stored alias came from a monitored file. */
  function Removable(store: Store, files: seq<string>, names: set<string>): set<string> {
    set k | k in names && Get(store, k).Some? && Monitors(files, Get(store, k).value.sourceFile)
  }

  /** The dictionary without the keys in `gone`, in its order (`del` on each). */
  function Without<V>(d: Dict<V>, gone: set<string>): Dict<V> {
    if d == [] then []
    else if d[0].0 in gone then Without(d[1..], gone)
    else [d[0]] + Without(d[1..], gone)
  }

  lemma {:induction false} WithoutGet<V>(d: Dict<V>, gone: set<string>, k: string)
    ensures Get(Without(d, gone), k) == if k in gone then None else Get(d, k)
  {
    if d != [] {
      WithoutGet(d[1..], gone, k);
      var w := Without(d[1..], gone);
      if d[0].0 !in gone {
        assert ([d[0]] + w)[1..] == w;
      }
    }
  }

  /** Deleting one more key is removing one more name. */
  lemma {:induction false} DeleteWithout<V>(d: Dict<V>, gone: set<string>, x: string)
    ensures Delete(Without(d, gone), x) == Without(d, gone + {x})
  {
    if d != [] {
      DeleteWithout(d[1..], gone, x);
      var w := Without(d[1..], gone);
      if d[0].0 !in gone {
        assert ([d[0]] + w)[1..] == w;
      }
    }
  }

  lemma {:induction false} WithoutNothing<V>(d: Dict<V>)
    ensures Without(d, {}) == d
  {
    if d != [] {
      WithoutNothing(d[1..]);
    }
  }

  lemma {:induction false} WithoutUnique<V>(d: Dict<V>, gone: set<string>)
    requires UniqueKeys(d)
    ensures UniqueKeys(Without(d, gone))
  {
    if d != [] {
      assert UniqueKeys(d[1..]);
      WithoutUnique(d[1..], gone);
      var w := Without(d[1..], gone);
      if d[0].0 !in gone {
        KeysIndex(w);
        KeysIndex(d[1..]);
        WithoutKeys(d[1..], gone);
        assert d[0].0 !in Keys(d[1..]);
        var r := [d[0]] + w;
        forall i, j | 0 <= i < j < |r| ensures r[i].0 != r[j].0 {
          if i == 0 {
            assert r[j] == w[j - 1];
          }
        }
      }
    }
  }

  lemma {:induction false} WithoutKeys<V>(d: Dict<V>, gone: set<string>)
    ensures Keys(Without(d, gone)) == Keys(d) - gone
  {
    if d != [] {
      WithoutKeys(d[1..], gone);
      var w := Without(d[1..], gone);
      if d[0].0 !in gone {
        assert ([d[0]] + w)[1..] == w;
      }
    }
  }

  // ---- one shell ----

  /** What `_learn_from_shell` leaves: the store, the counts, and whether the store was saved. */
  datatype Learned = Learned(store: Store, counts: Counts, saved: bool)

  /** `_learn_from_shell`, as a function of the store and the settings. A shell
      without monitored files changes nothing and saves nothing. */
  function LearnShell(store: Store, monitored: Monitored, shell: string, fs: FileSystem): Learned {
    var files := FilesOf(monitored, shell);
    if files == [] then Learned(store, Counts(0, 0, 0), false)
    else
      var news := NewAliases(shell, files, fs);
      var merged := Merge(store, news);
      var gone := Removable(store, files, Candidates(store, shell, Keys(news)));
      Learned(Without(merged.0, gone), merged.1.(removed := |gone|), true)
  }

  /** After relearning, a parsed alias has its parsed entry; a stored alias of the
      shell that the parse lost is gone if it came from a monitored file; every
      other alias is kept as it was. */
  lemma LearnShellGet(store: Store, monitored: Monitored, shell: string, fs: FileSystem, k: string)
    requires FilesOf(monitored, shell) != []
    ensures var files := FilesOf(monitored, shell);
            var news := NewAliases(shell, files, fs);
            Get(LearnShell(store, monitored, shell, fs).store, k) ==
              if k in Keys(news) then Get(news, k)
              else if k in Removable(store, files, Candidates(store, shell, Keys(news))) then None
              else Get(store, k)
  {
    var files := FilesOf(monitored, shell);
    var news := NewAliases(shell, files, fs);
    var gone := Removable(store, files, Candidates(store, shell, Keys(news)));
    MergeStore(store, news);
    WithoutGet(Merge(store, news).0, gone, k);
    GetUpdate(store, news, k);
  }

  /** The counts of one shell: new names, changed commands, and removed aliases. */
  lemma LearnShellCounts(store: Store, monitored: Monitored, shell: string, fs: FileSystem)
    requires FilesOf(monitored, shell) != []
    ensures var files := FilesOf(monitored, shell);
            var news := NewAliases(shell, files, fs);
            LearnShell(store, monitored, shell, fs).counts ==
              Counts(|FreshNames(store, news)|, |ChangedNames(store, news)|,
                     |Removable(store, files, Candidates(store, shell, Keys(news)))|)
  {
    var news := NewAliases(shell, FilesOf(monitored, shell), fs);
    MergeCounts(store, news);
  }

  /** A shell other than bash and zsh has nothing parsed, so nothing is learned
      or updated and every alias of it from a monitored file is dropped. */
  lemma OtherShellForgets(store: Store, monitored: Monitored, shell: string, fs: FileSystem, k: string)
    requires FilesOf(monitored, shell) != [] && shell != "bash" && shell != "zsh"
    requires Get(store, k).Some? && Get(store, k).value.shell == shell
    requires Monitors(FilesOf(monitored, shell), Get(store, k).value.sourceFile)
    ensures LearnShell(store, monitored, shell, fs).counts.learned == 0
    ensures LearnShell(store, monitored, shell, fs).counts.updated == 0
    ensures Get(LearnShell(store, monitored, shell, fs).store, k).None?
  {
    LearnShellGet(store, monitored, shell, fs, k);
    GetFound(store, k);
  }

  /** Relearning keeps the store a dictionary. */
  lemma LearnShellUnique(store: Store, monitored: Monitored, shell: string, fs: FileSystem)
    requires UniqueKeys(store)
    ensures UniqueKeys(LearnShell(store, monitored, shell, fs).store)
  {
    var files := FilesOf(monitored, shell);
    if files != [] {
      var news := NewAliases(shell, files, fs);
      MergeStore(store, news);
      UpdateUnique(store, news);
      WithoutUnique(Merge(store, news).0, Removable(store, files, Candidates(store, shell, Keys(news))));
    }
  }

  // ---- all shells ----

  /** `learn_from_monitored_files` over the given shells, in order. */
  function LearnAll(store: Store, monitored: Monitored, shells: seq<string>, fs: FileSystem): (Store, Counts, nat)
    decreases |shells|
  {
    if shells == [] then (store, Counts(0, 0, 0), 0)
    else
      var n := |shells| - 1;
      var acc := LearnAll(store, monitored, shells[..n], fs);
      var step := LearnShell(acc.0, monitored, shells[n], fs);
      (step.store, Plus(acc.1, step.counts), acc.2 + if step.saved then 1 else 0)
  }

  /** Relearning one more shell relearns it on the store the earlier ones left. */
  lemma LearnAllNext(store: Store, monitored: Monitored, shells: seq<string>, i: nat, fs: FileSystem)
    requires i < |shells|
    ensures var acc := LearnAll(store, monitored, shells[..i], fs);
      var step := LearnShell(acc.0, monitored, shells[i], fs);
      var r := LearnAll(store, monitored, shells[..i + 1], fs);
      r.0 == step.store && r.1 == Plus(acc.1, step.counts) && r.2 == acc.2 + (if step.saved then 1 else 0)
  {
    assert shells[..i + 1][..i] == shells[..i];
  }

  /** One turn of the loop of `learn_from_monitored_files`, on values. */
  lemma LearnAllStep(store: Store, m: Monitored, shells: seq<string>, i: nat, fs: FileSystem,
                     before: Store, totals: Counts, saved: nat, after: Store, counts: Counts, more: nat)
    requires i < |shells|
    requires var r := LearnAll(store, m, shells[..i], fs);
      before == r.0 && totals == r.1 && saved == r.2
    requires var step := LearnShell(before, m, shells[i], fs);
      after == step.store && counts == step.counts && more == (if step.saved then 1 else 0)
    ensures var r := LearnAll(store, m, shells[..i + 1], fs);
      after == r.0 && Plus(totals, counts) == r.1 && saved + more == r.2
  {
    LearnAllNext(store, m, shells, i, fs);
  }

  /** The shells relearned: the one named, or every shell with a monitored-files
      entry (an empty name counts as none). */
  function ShellsToProcess(monitored: Monitored, shell: Option<string>): seq<string> {
    if shell.Some? && shell.value != "" then [shell.value] else KeyList(monitored)
  }

  /** When no shell has monitored files, nothing is learned and nothing is saved. */
  lemma {:induction false} LearnAllIdle(store: Store, monitored: Monitored, shells: seq<string>, fs: FileSystem)
    requires forall i :: 0 <= i < |shells| ==> FilesOf(monitored, shells[i]) == []
    ensures LearnAll(store, monitored, shells, fs) == (store, Counts(0, 0, 0), 0)
    decreases |shells|
  {
    if shells != [] {
      LearnAllIdle(store, monitored, shells[..|shells| - 1], fs);
    }
  }

  // ---- editing the monitored files ----

  /** The position of the first occurrence of `x`. */
  function FirstIndex(xs: seq<string>, x: string): (i: nat)
    requires x in xs
    ensures i < |xs| && xs[i] == x && x !in xs[..i]
  {
    if xs[0] == x then 0
    else
      var k := FirstIndex(xs[1..], x);
      assert xs[..k + 1] == [xs[0]] + xs[1..][..k];
      k + 1
  }

  /** `list.remove(x)`: the first occurrence of `x` taken out. */
  function RemoveFirst(xs: seq<string>, x: string): (r: seq<string>)
    requires x in xs
  {
    var i := FirstIndex(xs, x);
    xs[..i] + xs[i + 1..]
  }

  /** One occurrence fewer, and every other file stays where it was. */
  lemma RemoveFirstCount(xs: seq<string>, x: string)
    requires x in xs
    ensures multiset(RemoveFirst(xs, x)) == multiset(xs) - multiset{x}
    ensures |RemoveFirst(xs, x)| == |xs| - 1
  {
    var i := FirstIndex(xs, x);
    assert xs == xs[..i] + [xs[i]] + xs[i + 1..];
  }

  /** The setting after `path` is appended to the shell's list. */
  function WithFile(monitored: Monitored, shell: string, path: string): Monitored {
    Put(monitored, shell, FilesOf(monitored, shell) + [path])
  }

  /** The setting after the first `path` is taken out of the shell's list. */
  function WithoutFile(monitored: Monitored, shell: string, path: string): Monitored
    requires path in FilesOf(monitored, shell)
  {
    Put(monitored, shell, RemoveFirst(FilesOf(monitored, shell), path))
  }

  /** Adding a file extends that shell's list by it and changes no other shell's. */
  lemma WithFileFiles(monitored: Monitored, shell: string, path: string, other: string)
    ensures FilesOf(WithFile(monitored, shell, path), other) ==
            if other == shell then FilesOf(monitored, shell) + [path] else FilesOf(monitored, other)
  {
    GetPut(monitored, shell, FilesOf(monitored, shell) + [path], other);
  }

  /** Removing a file drops one occurrence from that shell's list and changes no other shell's. */
  lemma WithoutFileFiles(monitored: Monitored, shell: string, path: string, other: string)
    requires path in FilesOf(monitored, shell)
    ensures other == shell ==>
              multiset(FilesOf(WithoutFile(monitored, shell, path), other)) == multiset(FilesOf(monitored, shell)) - multiset{path}
    ensures other != shell ==> FilesOf(WithoutFile(monitored, shell, path), other) == FilesOf(monitored, other)
  {
    GetPut(monitored, shell, RemoveFirst(FilesOf(monitored, shell), path), other);
    RemoveFirstCount(FilesOf(monitored, shell), path);
  }

  /** `AutoLearner`: the monitored-files setting and the alias store it learns into.
      `aliasSaves` counts the writes of the alias store, `configSaves` those of the settings. */
  class AutoLearner {
    var monitored: Monitored
    var aliases: Store
    var aliasSaves: nat
    var configSaves: nat

    constructor (monitored: Monitored, aliases: Store)
      ensures this.monitored == monitored && this.aliases == aliases
      ensures aliasSaves == 0 && configSaves == 0
    {
      this.monitored := monitored;
      this.aliases := aliases;
      aliasSaves := 0;
      configSaves := 0;
    }

    /** `_learn_from_shell` */
    method LearnFromShell(shell: string, fs: FileSystem) returns (counts: Counts)
      modifies this
      ensures var r := LearnShell(old(aliases), monitored, shell, fs);
        && aliases == r.store && counts == r.counts
        && aliasSaves == old(aliasSaves) + (if r.saved then 1 else 0)
      ensures monitored == old(monitored) && configSaves == old(configSaves)
    {
      var files := FilesOf(monitored, shell);
      if files == [] {
        return Counts(0, 0, 0);
      }
      var fromShell := Candidates(aliases, shell, {});
      var news: Store := [];
      if shell == "bash" || shell == "zsh" {
        news := CollectEach(files, fs, shell);
      }
      var existing, learned, updated := MergeParsed(aliases, news);
      MergeStore(aliases, news);
      CandidatesOf(aliases, shell, Keys(news));
      var removed;
      existing, removed := RemoveLost(existing, aliases, files, news, fromShell - Keys(news));
      aliases := existing;
      aliasSaves := aliasSaves + 1;
      counts := Counts(learned, updated, removed);
    }

    /** `learn_from_monitored_files`: the shells one after the other, with their counts summed. */
    method LearnFromMonitoredFiles(shell: Option<string>, fs: FileSystem) returns (totals: Counts)
      modifies this
      ensures var r := LearnAll(old(aliases), monitored, ShellsToProcess(monitored, shell), fs);
        && aliases == r.0 && totals == r.1 && aliasSaves == old(aliasSaves) + r.2
      ensures monitored == old(monitored) && configSaves == old(configSaves)
    {
      var shells := if shell.Some? && shell.value != "" then [shell.value] else KeyList(monitored);
      ghost var m := monitored;
      totals := Counts(0, 0, 0);
      var i := 0;
      while i < |shells|
        invariant 0 <= i <= |shells|
        invariant monitored == m && configSaves == old(configSaves)
        invariant var r := LearnAll(old(aliases), m, shells[..i], fs);
          aliases == r.0 && totals == r.1 && aliasSaves == old(aliasSaves) + r.2
      {
        ghost var before := aliases;
        ghost var saves := aliasSaves;
        var counts := LearnFromShell(shells[i], fs);
        LearnAllStep(old(aliases), m, shells, i, fs, before, totals, saves - old(aliasSaves), aliases, counts,
                     aliasSaves - saves);
        totals := Plus(totals, counts);
        i := i + 1;
      }
      assert shells[..|shells|] == shells;
    }

    /** `check_file_changes`: relearn, and report whether anything was learned, updated or removed. */
    method CheckFileChanges(shell: Option<string>, fs: FileSystem) returns (changed: bool)
      modifies this
      ensures var r := LearnAll(old(aliases), monitored, ShellsToProcess(monitored, shell), fs);
        && aliases == r.0 && aliasSaves == old(aliasSaves) + r.2
        && changed == (Total(r.1) > 0)
      ensures monitored == old(monitored) && configSaves == old(configSaves)
    {
      var results := LearnFromMonitoredFiles(shell, fs);
      changed := results.learned > 0 || results.updated > 0 || results.removed > 0;
    }

    /** `get_monitored_files` */
    function GetMonitoredFiles(shell: Option<string>): (r: Monitored)
      reads this
      ensures shell.Some? && shell.value != "" ==> Keys(r) == {shell.value}
      ensures !(shell.Some? && shell.value != "") ==> r == monitored
      ensures forall s :: s in Keys(r) ==> FilesOf(r, s) == FilesOf(monitored, s)
    {
      if shell.Some? && shell.value != "" then
        GetFound([(shell.value, FilesOf(monitored, shell.value))], shell.value);
        [(shell.value, FilesOf(monitored, shell.value))]
      else monitored
    }

    /** `add_monitored_file`, with `resolved` the path made absolute: added exactly
        when the shell's list lacks it. */
    method AddMonitoredFile(shell: string, resolved: string) returns (added: bool)
      modifies this
      ensures added == (resolved !in FilesOf(old(monitored), shell))
      ensures added ==> monitored == WithFile(old(monitored), shell, resolved) && configSaves == old(configSaves) + 2
      ensures !added ==> monitored == old(monitored) && configSaves == old(configSaves)
      ensures aliases == old(aliases) && aliasSaves == old(aliasSaves)
    {
      var files := FilesOf(monitored, shell);
      if resolved !in files {
        monitored := Put(monitored, shell, files + [resolved]);
        configSaves := configSaves + 2;
        return true;
      }
      return false;
    }

    /** `remove_monitored_file`: the resolved path is taken out first, the path as
        given only when the resolved one is not listed; nothing happens for an
        unknown shell or an unlisted file. */
    method RemoveMonitoredFile(shell: string, filePath: string, resolved: string) returns (removed: bool)
      modifies this
      ensures var files := FilesOf(old(monitored), shell);
        removed == (shell in Keys(old(monitored)) && (resolved in files || filePath in files))
      ensures var files := FilesOf(old(monitored), shell);
        removed ==> monitored == WithoutFile(old(monitored), shell, if resolved in files then resolved else filePath)
                    && configSaves == old(configSaves) + 2
      ensures !removed ==> monitored == old(monitored) && configSaves == old(configSaves)
      ensures aliases == old(aliases) && aliasSaves == old(aliasSaves)
    {
      GetFound(monitored, shell);
      if Get(monitored, shell).None? {
        return false;
      }
      var files := FilesOf(monitored, shell);
      removed := false;
      if resolved in files {
        monitored := Put(monitored, shell, RemoveFirst(files, resolved));
        removed := true;
      } else if filePath in files {
        monitored := Put(monitored, shell, RemoveFirst(files, filePath));
        removed := true;
      }
      if removed {
        configSaves := configSaves + 2;
      }
    }
  }

  /** The merge loop of `_learn_from_shell`. */
  method MergeParsed(store: Store, news: Store) returns (existing: Store, learned: nat, updated: nat)
    ensures (existing, Counts(learned, updated, 0)) == Merge(store, news)
  {
    existing, learned, updated := store, 0, 0;
    var i := 0;
    while i < |news|
      invariant 0 <= i <= |news|
      invariant existing == Merge(store, news[..i]).0
      invariant Counts(learned, updated, 0) == Merge(store, news[..i]).1
    {
      MergeNext(store, news, i);
      var name := news[i].0;
      var data := news[i].1;
      var current := Get(existing, name);
      assert Merge(store, news[..i + 1]).0 == Put(existing, name, data);
      if current.None? {
        existing := Put(existing, name, data);
        learned := learned + 1;
      } else if current.value.command != data.command {
        existing := Put(existing, name, data);
        updated := updated + 1;
      } else {
        existing := Put(existing, name, data);
      }
      i := i + 1;
    }
    assert news[..|news|] == news;
  }

  /** The merge up to one more parsed entry is one more turn of the loop. */
  lemma MergeNext(store: Store, news: Store, i: nat)
    requires i < |news|
    ensures var acc := Merge(store, news[..i]);
      var r := Merge(store, news[..i + 1]);
      r.0 == MergeOne(acc, news[i].0, news[i].1).0 && r.1 == MergeOne(acc, news[i].0, news[i].1).1
  {
    assert news[..i + 1][..i] == news[..i];
  }

  /** The removal loop of `_learn_from_shell`, over the candidates in any order:
      each one whose stored alias came from a monitored file is deleted and counted. */
  method RemoveLost(merged: Store, store: Store, files: seq<string>, news: Store, candidates: set<string>)
    returns (existing: Store, removed: nat)
    requires UniqueKeys(news) && merged == Update(store, news)
    requires forall k :: k in candidates ==> k !in Keys(news) && Get(store, k).Some?
    ensures existing == Without(merged, Removable(store, files, candidates))
    ensures removed == |Removable(store, files, candidates)|
  {
    existing := merged;
    var remaining := candidates;
    ghost var done: set<string> := {};
    removed := 0;
    WithoutNothing(merged);
    assert Removable(store, files, done) == {};
    while remaining != {}
      invariant remaining !! done && remaining + done == candidates
      invariant existing == Without(merged, Removable(store, files, done))
      invariant removed == |Removable(store, files, done)|
      decreases |remaining|
    {
      var name :| name in remaining;
      RemoveTurn(merged, store, files, news, done, name);
      var data := Get(existing, name);
      var source := if data.Some? then data.value.sourceFile else "";
      if Monitors(files, source) {
        existing := Delete(existing, name);
        removed := removed + 1;
      }
      remaining := remaining - {name};
      done := done + {name};
    }
  }

  /** One turn of the removal loop: the candidate still finds its stored entry, and
      deleting it exactly when it came from a monitored file removes one more name. */
  lemma RemoveTurn(merged: Store, store: Store, files: seq<string>, news: Store, done: set<string>, name: string)
    requires UniqueKeys(news) && merged == Update(store, news)
    requires name !in Keys(news) && Get(store, name).Some? && name !in done
    ensures var now := Without(merged, Removable(store, files, done));
            var m := Monitors(files, Get(store, name).value.sourceFile);
            && Get(now, name) == Get(store, name)
            && (m ==> Delete(now, name) == Without(merged, Removable(store, files, done + {name})))
            && (!m ==> now == Without(merged, Removable(store, files, done + {name})))
            && |Removable(store, files, done + {name})| == |Removable(store, files, done)| + (if m then 1 else 0)
  {
    WithoutGet(merged, Removable(store, files, done), name);
    GetUpdate(store, news, name);
    RemovableStep(store, files, done, name);
    DeleteWithout(merged, Removable(store, files, done), name);
  }

  /** The shell's names minus the parsed ones are the candidates for removal. */
  lemma CandidatesOf(store: Store, shell: string, newNames: set<string>)
    ensures Candidates(store, shell, {}) - newNames == Candidates(store, shell, newNames)
  {
  }

  /** One more name considered for removal. */
  lemma RemovableStep(store: Store, files: seq<string>, done: set<string>, name: string)
    requires name !in done
    ensures Removable(store, files, done + {name}) ==
            Removable(store, files, done) +
            (if Get(store, name).Some? && Monitors(files, Get(store, name).value.sourceFile) then {name} else {})
    ensures name !in Removable(store, files, done)
  {
  }
}
