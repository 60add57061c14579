# FastParrot / LazySloth alias coach, modelled in Dafny

FastParrot and its successor, LazySloth, watch the commands a user types in bash, zsh or fish.
When a command could have been typed as one of the user's shell aliases, they nudge the user
toward the alias: first with a notice, later by blocking the command. This project models the
core of both generations:

- **Alias collection** (`LazyCollector`, `FastCollector`, on top of `AliasSyntax`,
  `Assignments`, `AliasMatch`, `Expansion`):
  - which configuration files are read for each shell;
  - the definition patterns `alias NAME=VALUE` (bash/zsh) and `alias NAME VALUE` (fish),
    written as explicit scanners with the regex engine's leftmost, non-overlapping behaviour;
  - later definitions overriding earlier ones, and fish function files;
  - the recursive expansion of aliases with a depth bound and a cycle guard;
  - the choice of the most specific alias for a command.
- **Command monitoring** (`CommandMonitor`): the filters that decide whether a command is tracked,
  the usage statistics, the suggestion text, and the notice/block thresholds.
- **LazySloth settings** (`SlothConfig`): the default settings and dotted-key `get` and `set`
  on a nested dictionary.
- **Auto-learning** (`AutoLearning`, `FileWatching`):
  - re-reading monitored configuration files;
  - merging newly found aliases into the store and forgetting aliases whose definitions vanished;
  - counting what changed;
  - editing the monitored-file lists;
  - detecting changed files by modification time.
- **The user alias file** (`SlothRC`): reading and writing `.slothrc`, and the source line a
  shell needs.
- **The installers** (`LazyInstaller`, `FastInstaller`, on top of `ConfigChoice` and
  `MarkerBlocks`):
  - detecting the shell and choosing its configuration file;
  - refusing, forcing or appending the marked integration block;
  - taking every block out again and collapsing runs of line breaks.

Python dictionaries whose order matters become ordered association lists (`Dicts`). `dict[k] = v`
replaces a value in place or appends a new key; `get` finds the first binding. Objects whose
methods update their fields are classes:
- `Monitor`, `Config`, `AutoLearner`, `FileWatcher`, `RcFile`, and one `Installer` per generation.

The file system is a map from path to content, modification times are a map from path to number,
and the clock is a parameter.

## Model

| member | source | states |
|---|---|---|
| Dicts.GetPut | lazysloth/collectors/alias_collector.py:96-101 | after `d[k] = v`, looking up `k` gives `v` and every other key is unchanged |
| Dicts.GetDelete | lazysloth/core/auto_learner.py:113 | after `del d[k]`, `k` is absent and every other key is unchanged |
| Dicts.GetUpdate | lazysloth/collectors/alias_collector.py:22 | after `d.update(e)`, keys of `e` take `e`'s values and the rest keep `d`'s |
| Dicts.Put | lazysloth/collectors/alias_collector.py:96-101 | the key set grows by the assigned key; assigning an existing key keeps the length; a new key goes last |
| Dicts.PutInPlace | lazysloth/collectors/alias_collector.py:96-101 | assigning an existing key replaces its entry in place: every position keeps its key, and in a dictionary the key's entry takes the new value while every other entry stays |
| AliasSyntax.MatchAtValid | lazysloth/collectors/alias_collector.py:78 | a match of either definition pattern yields a name of the pattern's name class and a non-empty command without quotes or line breaks |
| AliasSyntax.SearchFound | lazysloth/collectors/alias_collector.py:91 | what `re.search` returns is a match of the pattern at its start position |
| AliasSyntax.SearchLeftmost | lazysloth/collectors/alias_collector.py:91 | no match starts before the one `re.search` returns, and none exists when it returns nothing |
| AliasSyntax.FindAll | fastparrot/collectors/alias_collector.py:94 | `re.finditer` matches lie inside the text, in order, without overlapping |
| AliasSyntax.FindAllFound | fastparrot/collectors/alias_collector.py:94 | every `finditer` match is a match of the pattern at its start |
| AliasSyntax.SpanRun | lazysloth/collectors/alias_collector.py:78 | a greedy character-class run covers only class characters and stops at the first other one |
| AliasSyntax.MatchDefinition | fastparrot/collectors/alias_collector.py:92 | a well-formed `alias name=value` (bare, single- or double-quoted) after any prefix matches with exactly that name and command |
| AliasSyntax.MatchDefinitionAlone | lazysloth/collectors/alias_collector.py:78 | a well-formed definition on its own matches at position 0 and spans the whole line |
| AliasSyntax.MatchFishDefinition | fastparrot/collectors/alias_collector.py:119 | a well-formed fish `alias name value` matches with exactly that name and command |
| Assignments.AssignParsedFrom | lazysloth/collectors/alias_collector.py:96-101 | every stored entry carries the file's shell and path, kind alias, and a name and command of the pattern's classes |
| Assignments.AssignLast | lazysloth/collectors/alias_collector.py:96 | a name defined several times keeps its last definition |
| Assignments.AssignAbsent | lazysloth/collectors/alias_collector.py:80-101 | a name no line defines is not in the result |
| Assignments.AssignSnoc | lazysloth/collectors/alias_collector.py:96 | adding one more definition changes the lookup of its name only |
| AliasMatch.BestIndexCorrect | lazysloth/collectors/alias_collector.py:199-219 | no alias is found exactly when no alias command covers the command; otherwise the one found is the first of the longest covering ones |
| AliasMatch.FirstLongestUnique | lazysloth/collectors/alias_collector.py:211-219 | the first longest covering alias is unique |
| AliasMatch.MostSpecificCorrect | fastparrot/collectors/alias_collector.py:205-229 | the most specific alias is none exactly when nothing covers the command, and otherwise is the first longest one |
| AliasMatch.FindMostSpecific | fastparrot/collectors/alias_collector.py:205-229 | the search loop returns the most specific alias |
| Expansion.StepAlias | lazysloth/collectors/alias_collector.py:166-184 | an expansion step replaces the first word, and only when it is a stored, not yet visited alias |
| Expansion.StepTokens | lazysloth/collectors/alias_collector.py:176-190 | after a step the words are the alias command's words followed by the remaining words |
| LazyCollector.ConfigFiles | lazysloth/collectors/alias_collector.py:49-66 | bash and zsh have four files ending in `.profile`; other shells have none |
| LazyCollector.ParseLine | lazysloth/collectors/alias_collector.py:80-101 | a line produces a definition only when, without its indentation, it starts with `alias ` and not with `#`; the name and command are of the pattern's classes |
| LazyCollector.ParseLines | lazysloth/collectors/alias_collector.py:76-101 | parsing a file gives unique names, each entry tagged with the shell and path |
| LazyCollector.ParseAliases | lazysloth/collectors/alias_collector.py:68-106 | the line loop computes the parse of the file |
| LazyCollector.DefinitionParses | lazysloth/collectors/alias_collector.py:80-101 | a well-formed definition line parses back to its name and command |
| LazyCollector.ParseLinesGet | lazysloth/collectors/alias_collector.py:80-101 | a name is absent when no line defines it, and otherwise takes the command of its last defining line |
| LazyCollector.CollectFiles | lazysloth/collectors/alias_collector.py:38-47 | aliases from several files have unique names, the shell given, and a source among the files |
| LazyCollector.CollectEach | lazysloth/collectors/alias_collector.py:43-45 | the loop over existing files computes the merged store |
| LazyCollector.CollectBashZsh | lazysloth/collectors/alias_collector.py:38-47 | collecting a shell reads exactly its configuration files |
| LazyCollector.CollectFromShell | lazysloth/collectors/alias_collector.py:29-36 | bash and zsh are collected; any other shell is an unsupported-shell error |
| LazyCollector.CollectAll | lazysloth/collectors/alias_collector.py:15-27 | the loop merges bash's aliases and then zsh's into one store |
| LazyCollector.CollectAllGet | lazysloth/collectors/alias_collector.py:20-22 | in the merge, a zsh alias overrides a bash alias of the same name |
| LazyCollector.TraceDistinct | lazysloth/collectors/alias_collector.py:133-150 | the aliases an expansion goes through are stored, not visited before, distinct, and no more than the depth |
| LazyCollector.TraceBound | lazysloth/collectors/alias_collector.py:133-150 | an expansion goes through no more aliases than there are unvisited stored names |
| LazyCollector.ExpandComplete | lazysloth/collectors/alias_collector.py:166-197 | when the depth bound is not reached, the result has no further expandable first word |
| LazyCollector.CycleStops | lazysloth/collectors/alias_collector.py:133-150 | `a -> b -> a` expands `a` back to `a` and stops |
| LazyCollector.LoopTurn | lazysloth/collectors/alias_collector.py:134-149 | one turn of the loop expands exactly when a recursive step does, and expands the same alias |
| LazyCollector.ExpandLoopAgrees | lazysloth/collectors/alias_collector.py:133-150 | when every stored command is trimmed, the loop in `_expand_aliases` computes the same as the recursive `_expand_aliases_in_command` |
| LazyCollector.ExpandEntry | lazysloth/collectors/alias_collector.py:126-155 | expansion changes only an entry's command, and leaves an empty command alone |
| LazyCollector.ExpandStore | lazysloth/collectors/alias_collector.py:124-156 | the expanded store has the same names in the same order, each entry expanded |
| LazyCollector.ExpandStoreAgrees | lazysloth/collectors/alias_collector.py:131-155 | when every stored command is trimmed, each expanded command is the recursive expansion that starts with the alias itself visited |
| LazyCollector.ExpandStoreKeys | lazysloth/collectors/alias_collector.py:124-156 | expansion keeps the names and their order |
| LazyCollector.ExpandAliases | lazysloth/collectors/alias_collector.py:120-156 | the method computes the expanded store |
| LazyCollector.ExpandOne | lazysloth/collectors/alias_collector.py:126-156 | an entry without a command is kept; any other gets the command the inner loop computes and keeps its other fields |
| LazyCollector.ExpandCommandLoop | lazysloth/collectors/alias_collector.py:131-150 | the while loop computes the loop's specification |
| LazyCollector.FindAliasForCommand | lazysloth/collectors/alias_collector.py:108-118 | the alias found is the most specific one for the expanded command among the expanded aliases; it is a stored name and covers the command |
| FastCollector.ConfigFiles | fastparrot/collectors/alias_collector.py:63-80 | the four files of bash and of zsh, in order; none for other shells |
| FastCollector.ParseMatches | fastparrot/collectors/alias_collector.py:94-103 | parsing by `finditer` gives unique names tagged with the shell and path |
| FastCollector.ParseText | fastparrot/collectors/alias_collector.py:82-108 | bash/zsh parsing gives unique, well-formed entries |
| FastCollector.ParseFishConfig | fastparrot/collectors/alias_collector.py:110-135 | fish config parsing gives unique, well-formed fish entries |
| FastCollector.ParseAliases | fastparrot/collectors/alias_collector.py:94-103 | the loop over matches computes the parse |
| FastCollector.ParseMatchesLast | fastparrot/collectors/alias_collector.py:94-103 | a name takes the command of its last match |
| FastCollector.ParseMatchesAbsent | fastparrot/collectors/alias_collector.py:94-103 | a name no match defines is absent |
| FastCollector.CommentedDefinitionCounts | fastparrot/collectors/alias_collector.py:92-94 | the pattern searches anywhere, so a definition behind a comment character is still collected |
| FastCollector.StrippedLines | fastparrot/collectors/alias_collector.py:148 | the kept lines are non-empty and trimmed, and no more than the input lines |
| FastCollector.StrippedLinesConcat | fastparrot/collectors/alias_collector.py:148 | the comprehension works line by line: the lines of `a + b` give those of `a` followed by those of `b`, in order |
| FastCollector.StrippedLinesSingle | fastparrot/collectors/alias_collector.py:148 | one line gives its stripped form when that is not empty, and nothing otherwise |
| FastCollector.StrippedLinesComplete | fastparrot/collectors/alias_collector.py:148 | every line that is non-empty after stripping is kept |
| FastCollector.CodeLines | fastparrot/collectors/alias_collector.py:149 | the code lines are exactly the lines that are not comments and not `end`, and no more than the input lines |
| FastCollector.CodeLinesConcat | fastparrot/collectors/alias_collector.py:149 | the filter works line by line: the code lines of `a + b` are those of `a` followed by those of `b`, in order and with repeats |
| FastCollector.CodeLinesSingle | fastparrot/collectors/alias_collector.py:149 | one line is kept exactly when it is no comment and not `end` |
| FastCollector.ParseFishFunction | fastparrot/collectors/alias_collector.py:137-166 | a function file yields at most one entry, named after the file, kind function |
| FastCollector.ParseFishFunctionBody | fastparrot/collectors/alias_collector.py:148-161 | an entry exists exactly when the body has two to four lines, and its command is the second line |
| FastCollector.CollectFiles | fastparrot/collectors/alias_collector.py:35-44 | aliases from several files have unique names, the shell given, and a source among the files |
| FastCollector.CollectEach | fastparrot/collectors/alias_collector.py:40-42 | the loop over existing files computes the merged store |
| FastCollector.CollectFunctions | fastparrot/collectors/alias_collector.py:57-59 | function files add only fish function entries, keeping names unique |
| FastCollector.CollectFishSpec | fastparrot/collectors/alias_collector.py:46-61 | fish collection gives unique names, all fish |
| FastCollector.CollectFish | fastparrot/collectors/alias_collector.py:46-61 | the method computes fish collection |
| FastCollector.CollectFromShell | fastparrot/collectors/alias_collector.py:28-33 | the method dispatches on the shell |
| FastCollector.UnknownShellEmpty | fastparrot/collectors/alias_collector.py:28-33 | an unknown shell gives no aliases and no error |
| FastCollector.CollectAll | fastparrot/collectors/alias_collector.py:14-26 | all three shells are merged |
| FastCollector.CollectAllGet | fastparrot/collectors/alias_collector.py:19-21 | fish overrides zsh, which overrides bash |
| FastCollector.Trace | fastparrot/collectors/alias_collector.py:191-201 | expansion goes through at most `depth` aliases |
| FastCollector.TraceInStore | fastparrot/collectors/alias_collector.py:191-201 | every alias expansion goes through is stored |
| FastCollector.ExpandComplete | fastparrot/collectors/alias_collector.py:178-203 | when the depth is not used up, the result has no expandable first word |
| FastCollector.CycleRunsOut | fastparrot/collectors/alias_collector.py:178-203 | without a visited set, `a -> b -> a` runs until the depth is used up |
| FastCollector.CycleTwo | fastparrot/collectors/alias_collector.py:191-201 | a two-alias cycle alternates: any even depth gives the start back |
| FastCollector.AliasForFound | fastparrot/collectors/alias_collector.py:168-176 | an alias found is stored and covers the expanded command |
| FastCollector.FindAliasForCommand | fastparrot/collectors/alias_collector.py:168-176 | the method computes the alias lookup |
| CommandMonitor.OptimalNeedsAlias | fastparrot/monitors/command_monitor.py:90-101 | a command counts as already optimal only when its first word is a stored alias |
| CommandMonitor.TrackedFilters | fastparrot/monitors/command_monitor.py:43-60 | a command is tracked exactly when monitoring is on, its first word is not ignored, it is not already optimal, and some alias covers it |
| CommandMonitor.TrackedAlias | fastparrot/monitors/command_monitor.py:58-62 | the tracked alias is stored and covers the command |
| CommandMonitor.SuggestionKeepsArguments | fastparrot/monitors/command_monitor.py:152-159 | the suggestion is the alias name followed by the arguments left after the alias command, quoted |
| CommandMonitor.SuggestionExample | fastparrot/monitors/command_monitor.py:152-159 | `git status --short` with `gs = git status` suggests `'gs --short'` |
| CommandMonitor.TrackedSuggestion | fastparrot/monitors/command_monitor.py:136-162 | for a tracked command, the suggestion keeps its arguments |
| CommandMonitor.ActionThresholds | fastparrot/monitors/command_monitor.py:164-191 | block exactly when blocking is on and the count reaches its threshold; otherwise notice exactly when the count reaches the notice threshold |
| CommandMonitor.EscalationMonotone | fastparrot/monitors/command_monitor.py:175-191 | a higher count never gives a milder action |
| CommandMonitor.Bump | fastparrot/monitors/command_monitor.py:65-78 | recording adds the name, raises its count by one and sets its last-seen time |
| CommandMonitor.BumpOthers | fastparrot/monitors/command_monitor.py:65-78 | recording leaves the other names' statistics unchanged |
| CommandMonitor.BumpEntry | fastparrot/monitors/command_monitor.py:66-78 | a first use starts at count 1 with both times now; later uses keep the first-seen time |
| CommandMonitor.BumpMonotone | fastparrot/monitors/command_monitor.py:77 | counts never go down |
| CommandMonitor.BumpUnique | fastparrot/monitors/command_monitor.py:66-74 | statistics keep one entry per name |
| CommandMonitor.Monitor.constructor | fastparrot/monitors/command_monitor.py:34-36 | a monitor starts with the given settings, aliases and statistics |
| CommandMonitor.Monitor.RecordCommand | fastparrot/monitors/command_monitor.py:38-84 | untracked commands change nothing; tracked ones bump and save the statistics and return the action for the new count |
| SlothConfig.DefaultSettings | lazysloth/core/config.py:29-53 | the monitoring defaults: enabled, notice at 1, block at 5, blocking on, nothing ignored |
| SlothConfig.FreshLookup | lazysloth/core/config.py:60-71 | any key in an empty configuration gives the default |
| SlothConfig.SetThenLookup | lazysloth/core/config.py:73-84 | after a successful set, getting the same key gives the value set |
| SlothConfig.SetKeepsSiblings | lazysloth/core/config.py:73-84 | a set does not change keys that diverge from the one set |
| SlothConfig.SetIntoMissing | lazysloth/core/config.py:78-81 | a set succeeds when the missing intermediate dictionaries can be created |
| SlothConfig.FreshSet | lazysloth/core/config.py:78-83 | any key can be set in an empty configuration |
| SlothConfig.SetFailure | lazysloth/core/config.py:78-81 | a set fails only when some prefix of the key reaches a value that is not a dictionary |
| SlothConfig.Config.constructor | lazysloth/core/config.py:9-16 | a configuration starts with the given data, not yet saved |
| SlothConfig.Config.Get | lazysloth/core/config.py:60-71 | the key is split on dots and followed through the nested dictionaries, with the default when the path breaks |
| SlothConfig.Config.Set | lazysloth/core/config.py:73-84 | the key path is set and the file saved once, or nothing changes when the path meets a value that is not a dictionary |
| ConfigChoice.FirstExistingSpec | lazysloth/core/installer.py:60-63 | a file is found exactly when some listed file exists, and it is the earliest |
| ConfigChoice.ChooseSpec | lazysloth/core/installer.py:57-66 | the choice is none only for an empty list, otherwise the earliest existing file, or the first listed file when none exists |
| ConfigChoice.ChooseStable | lazysloth/core/installer.py:76-78 | creating the chosen file keeps the choice |
| ConfigChoice.ChooseRepeat | lazysloth/core/installer.py:46-55 | a file listed twice in a row counts once |
| ConfigChoice.FindExisting | lazysloth/core/installer.py:57-66 | the loop computes the choice |
| AutoLearning.MergeStore | lazysloth/core/auto_learner.py:84-95 | merging new aliases is `dict.update` |
| AutoLearning.MergeCounts | lazysloth/core/auto_learner.py:84-95 | learned counts the new names, updated counts names whose command changed |
| AutoLearning.LearnShellGet | lazysloth/core/auto_learner.py:50-123 | after learning a shell, a name takes its new definition, is gone when it was removable, or keeps its old entry |
| AutoLearning.LearnShellCounts | lazysloth/core/auto_learner.py:79-123 | learned, updated and removed count the new names, the changed names and the removed names |
| AutoLearning.OtherShellForgets | lazysloth/core/auto_learner.py:66-114 | a shell other than bash and zsh learns nothing but still loses its aliases from monitored files |
| AutoLearning.LearnShellUnique | lazysloth/core/auto_learner.py:84-114 | learning keeps one entry per name |
| AutoLearning.LearnAllIdle | lazysloth/core/auto_learner.py:52-55 | shells without monitored files change nothing and count nothing |
| AutoLearning.FirstIndex | lazysloth/core/auto_learner.py:190-194 | `list.remove` removes the first occurrence |
| AutoLearning.RemoveFirstCount | lazysloth/core/auto_learner.py:190-194 | removing from a list takes out exactly one occurrence |
| AutoLearning.WithFileFiles | lazysloth/core/auto_learner.py:155-162 | adding a file appends it to its shell's list and leaves the other shells alone |
| AutoLearning.WithoutFileFiles | lazysloth/core/auto_learner.py:190-195 | removing a file takes one occurrence from its shell's list and leaves the other shells alone |
| AutoLearning.CandidatesOf | lazysloth/core/auto_learner.py:97-101 | the removal candidates are the shell's stored names that were not found again |
| AutoLearning.RemovableStep | lazysloth/core/auto_learner.py:104-114 | a candidate is removed exactly when its source file is monitored |
| AutoLearning.RemoveTurn | lazysloth/core/auto_learner.py:104-114 | one turn of the removal loop deletes the candidate exactly when its source file is monitored, and counts it |
| AutoLearning.MergeParsed | lazysloth/core/auto_learner.py:84-95 | the merge loop computes the merged store and its counts |
| AutoLearning.RemoveLost | lazysloth/core/auto_learner.py:97-114 | the removal loop deletes exactly the removable names and counts them |
| AutoLearning.AutoLearner.constructor | lazysloth/core/auto_learner.py:14-16 | a learner starts with the given monitored files and aliases |
| AutoLearning.AutoLearner.LearnFromShell | lazysloth/core/auto_learner.py:50-123 | the store and counts become those of learning the shell; the store is saved whenever the shell has monitored files |
| AutoLearning.AutoLearner.LearnFromMonitoredFiles | lazysloth/core/auto_learner.py:18-48 | each shell to process is learned in turn and the counts are summed |
| AutoLearning.AutoLearner.CheckFileChanges | lazysloth/core/auto_learner.py:203-222 | changed is true exactly when learning counted something |
| AutoLearning.AutoLearner.GetMonitoredFiles | lazysloth/core/auto_learner.py:125-140 | a named shell gives a dictionary holding only that shell, with its list (empty when it has none); no shell, or an empty name, gives the whole monitored-files dictionary |
| AutoLearning.AutoLearner.AddMonitoredFile | lazysloth/core/auto_learner.py:142-167 | a file not yet monitored is appended and the settings saved; otherwise nothing changes |
| AutoLearning.AutoLearner.RemoveMonitoredFile | lazysloth/core/auto_learner.py:169-201 | the resolved path, else the path as given, is removed when listed; otherwise nothing changes |
| FileWatching.AllFilesMember | lazysloth/core/file_watcher.py:32-38 | the files to watch are exactly the files listed for some shell |
| FileWatching.AffectedShells | lazysloth/core/file_watcher.py:45-48 | a shell is relearned exactly when one of its files changed |
| FileWatching.ChangeHasShell | lazysloth/core/file_watcher.py:43-48 | a changed file always names at least one shell to relearn |
| FileWatching.SnapshotSettles | lazysloth/core/file_watcher.py:76-96 | right after a check, a file counts as changed only when it was not in the checked list |
| FileWatching.RelearnIdle | lazysloth/core/file_watcher.py:51-56 | relearning only shells that have no monitored files changes, counts and saves nothing |
| FileWatching.LastShellWins | lazysloth/core/auto_learner.py:83-95 | a name that the last relearned shell's files define gets that shell's parsed entry, tagged with that shell, whatever came before |
| FileWatching.OrderMatters | lazysloth/core/file_watcher.py:45-56 | when two shells' monitored files define the same name, relearning them in the two orders gives different stores: the name is tagged with the shell relearned last |
| FileWatching.FileWatcher.constructor | lazysloth/core/file_watcher.py:16-20 | a watcher starts with the recorded times and no check stamped |
| FileWatching.FileWatcher.GetChangedFiles | lazysloth/core/file_watcher.py:68-96 | the changed files are those that are new or whose time differs from the recorded one; the recorded times become the current ones |
| FileWatching.FileWatcher.CheckAndRelearnIfNeeded | lazysloth/core/file_watcher.py:22-66 | without files or without changes nothing is relearned; otherwise exactly the affected shells are relearned and the check is stamped |
| FileWatching.FileWatcher.RelearnChanged | lazysloth/core/file_watcher.py:43-62 | the affected shells are relearned and the check time stamped |
| FileWatching.FileWatcher.ForceRelearnAll | lazysloth/core/file_watcher.py:132-136 | every monitored shell is relearned and the check time stamped |
| FileWatching.RelearnShells | lazysloth/core/file_watcher.py:51-56 | the loop relearns the given shells in turn and sums the counts |
| FileWatching.GatherFiles | lazysloth/core/file_watcher.py:32-38 | the loop gathers every monitored file |
| FileWatching.AffectedOf | lazysloth/core/file_watcher.py:43-48 | the loop gathers the affected shells |
| SlothRC.Unquote | lazysloth/core/slothrc.py:68-72 | one pair of matching quotes is removed, or nothing |
| SlothRC.SourceLine | lazysloth/core/slothrc.py:112-119 | the line ends in `source PATH`, and it is exactly that for fish |
| SlothRC.SortCorrect | lazysloth/core/slothrc.py:93 | the names are written sorted, each exactly once |
| SlothRC.UnescapeEscape | lazysloth/core/slothrc.py:96 | unescaping undoes the escaping of double quotes |
| SlothRC.SplitAliasLine | lazysloth/core/slothrc.py:59-72 | a written alias line splits into its name and its escaped, double-quoted command |
| SlothRC.ParseAliasLine | lazysloth/core/slothrc.py:50-74 | a written alias line reads back as its name and command |
| SlothRC.CommentSkipped | lazysloth/core/slothrc.py:55-56 | comment lines define nothing |
| SlothRC.HeaderSkipped | lazysloth/core/slothrc.py:85-90 | the header lines define nothing |
| SlothRC.LinesOfRender | lazysloth/core/slothrc.py:82-99 | the written file splits into the header, one line per alias in sorted order, and the empty last line |
| SlothRC.RoundTrip | lazysloth/core/slothrc.py:42-105 | reading a written file gives back every alias unchanged |
| SlothRC.RereadAsWritten | lazysloth/core/slothrc.py:63-97 | as written, reading gives back each command with its quotes still escaped |
| SlothRC.QuoteLost | lazysloth/core/slothrc.py:63-97 | as written, a command containing `"` does not come back unchanged |
| SlothRC.QuoteLostExample | lazysloth/core/slothrc.py:63-97 | the alias `q` with command `a"b` comes back differently |
| SlothRC.AddAliasEffect | lazysloth/core/slothrc.py:16-25 | after adding, the name reads back as the new command and every other alias is unchanged |
| SlothRC.RemoveAliasEffect | lazysloth/core/slothrc.py:27-36 | after removing, the name is gone and every other alias is unchanged |
| SlothRC.AddAliasAsWritten | lazysloth/core/slothrc.py:16-25 | as written, after adding, the new alias reads back escaped and every other alias reads back with its quotes escaped once more; a command holding a quote changes |
| SlothRC.RemoveAliasAsWritten | lazysloth/core/slothrc.py:27-36 | as written, after removing, the name is gone and every other alias reads back with its quotes escaped once more |
| SlothRC.RcFile.constructor | lazysloth/core/slothrc.py:13-14 | the file starts with the given path and content |
| SlothRC.RcFile.ReadAliases | lazysloth/core/slothrc.py:42-80 | a missing file gives no aliases; otherwise the line loop computes the aliases stored |
| SlothRC.RcFile.GetAliases | lazysloth/core/slothrc.py:38-40 | the aliases read from the file |
| SlothRC.RcFile.WriteAliases | lazysloth/core/slothrc.py:82-105 | the file becomes the rendering of the aliases |
| SlothRC.RcFile.AddAlias | lazysloth/core/slothrc.py:16-25 | the file is rewritten with the alias set |
| SlothRC.RcFile.RemoveAlias | lazysloth/core/slothrc.py:27-36 | a stored alias is removed and the file rewritten; otherwise nothing changes and false is returned |
| SlothRC.RcFile.EnsureExists | lazysloth/core/slothrc.py:107-110 | a missing file is created with only the header; an existing one is left alone |
| MarkerBlocks.FindFromFirst | lazysloth/core/installer.py:233 | the lazy `.*?` stops at the nearest end marker: the position found holds the marker and none comes before it |
| MarkerBlocks.FindFromIs | lazysloth/core/installer.py:233 | the nearest occurrence is the one found |
| MarkerBlocks.SkipSpaceStrips | lazysloth/core/installer.py:233 | the trailing `\s*` takes the longest run of white space |
| MarkerBlocks.MatchAtFront | lazysloth/core/installer.py:233 | a block matches at a position exactly when the start marker is there and an end marker follows |
| MarkerBlocks.RemoveBlocks | lazysloth/core/installer.py:236 | one `re.sub` pass never makes the text longer |
| MarkerBlocks.BlockShrinks | lazysloth/core/installer.py:236 | a pass over text with a block makes it shorter |
| MarkerBlocks.NoBlockUntouched | lazysloth/core/installer.py:236 | a pass over text without a block changes nothing |
| MarkerBlocks.KeepPrefix | lazysloth/core/installer.py:236 | text before the first start marker is kept as it is |
| MarkerBlocks.WithoutMarker | lazysloth/core/installer.py:236 | text without the start marker is unchanged |
| MarkerBlocks.BlockReforms | lazysloth/core/installer.py:233-236 | one pass can leave a complete block, formed from the text around the block it removed |
| MarkerBlocks.NoBlockLeft | lazysloth/core/installer.py:229-236 | repeating the pass until nothing changes leaves no complete block |
| MarkerBlocks.OnePassSuffices | lazysloth/core/installer.py:236 | when one pass leaves no block, repeating gives the same result |
| MarkerBlocks.RemoveAppendedThen | lazysloth/core/installer.py:233-236 | removing an appended block keeps the text before it plus a blank line, and the text after it without leading white space |
| MarkerBlocks.RemoveAppended | lazysloth/core/installer.py:233-236 | removing the block `install` appended leaves the text before it and a blank line |
| MarkerBlocks.RemoveAllAppended | lazysloth/core/installer.py:233-236 | the same holds for repeated passes |
| MarkerBlocks.CollapseHead | lazysloth/core/installer.py:239 | a leading run of three or more line breaks becomes two |
| MarkerBlocks.CollapseNoTriple | lazysloth/core/installer.py:239 | after collapsing, no three line breaks are in a row |
| MarkerBlocks.CollapseFixed | lazysloth/core/installer.py:239 | text without three line breaks in a row is unchanged |
| MarkerBlocks.CollapseIdempotent | lazysloth/core/installer.py:239 | collapsing twice is collapsing once |
| MarkerBlocks.CollapseKeepsText | lazysloth/core/installer.py:239 | collapsing removes only line breaks |
| MarkerBlocks.CollapseNoNew | lazysloth/core/installer.py:239 | collapsing does not create a single-line marker |
| MarkerBlocks.CollapseOccurs | lazysloth/core/installer.py:239 | a single-line marker after collapsing was already in the text, at the same position or later |
| MarkerBlocks.CollapseBlock | lazysloth/core/installer.py:239 | collapsing does not create a block |
| LazyInstaller.DetectShellSpec | lazysloth/core/installer.py:36-44 | the shell is zsh exactly when `$SHELL` names zsh, and bash otherwise, including when it is unset |
| LazyInstaller.ConfigFilesKnown | lazysloth/core/installer.py:46-55 | only bash and zsh have files, three entries each, all under the home directory |
| LazyInstaller.BashListRepeats | lazysloth/core/installer.py:51-52 | the bash list names `.bash_profile` twice and never `.bashrc` |
| LazyInstaller.ListedShellsHaveCode | lazysloth/core/installer.py:116-217 | a shell has configuration files exactly when it has integration code |
| LazyInstaller.UninstallRemovesAll | lazysloth/core/installer.py:229-239 | after uninstalling, with the pass repeated, no block and no three line breaks in a row are left |
| LazyInstaller.OnePassUninstall | lazysloth/core/installer.py:233-239 | where one pass leaves no block, the single `re.sub` pass writes what the repeated pass writes |
| LazyInstaller.SinglePassStaysInstalled | lazysloth/core/installer.py:233-239 | on the re-forming input, the single pass writes back a file that still holds the start marker |
| LazyInstaller.UninstallKeepsText | lazysloth/core/installer.py:236-239 | apart from line breaks, uninstalling keeps everything outside the blocks |
| LazyInstaller.InstallThenUninstall | lazysloth/core/installer.py:95-108 | installing into clean text and uninstalling, with one pass or repeated passes, gives the text back with a blank line added, line breaks collapsed |
| LazyInstaller.ReinstallLeavesOne | lazysloth/core/installer.py:94-108 | a forced reinstall leaves clean text followed by exactly the new block |
| LazyInstaller.SinglePassLeavesBlock | lazysloth/core/installer.py:233-236 | for LazySloth's markers, one pass can leave a complete block and the repeated pass leaves none |
| LazyInstaller.Installer.constructor | lazysloth/core/installer.py:10-12 | an installer starts with the given home directory, files and alias file |
| LazyInstaller.Installer.FindExistingConfig | lazysloth/core/installer.py:57-66 | the configuration file chosen for the shell |
| LazyInstaller.Installer.Uninstall | lazysloth/core/installer.py:219-245 | an existing chosen file is rewritten without its blocks and the data cleaned; otherwise nothing changes |
| LazyInstaller.Installer.Install | lazysloth/core/installer.py:68-114 | no file: refused; installed without force: refused after creating the file; otherwise cleaned when installed or forced, block appended, alias file created |
| LazyInstaller.Installer.Touch | lazysloth/core/installer.py:76-78 | the chosen file is created empty when missing, and the choice stays |
| LazyInstaller.Installer.Append | lazysloth/core/installer.py:94-114 | the file is cleaned when installed or forced, the block appended, and the alias file created |
| FastInstaller.DetectShellSpec | fastparrot/core/installer.py:14-26 | the shell is `$SHELL`'s name when supported, and bash otherwise or when unset |
| FastInstaller.ConfigFilesKnown | fastparrot/core/installer.py:28-48 | exactly bash, zsh and fish have files: three, three and one, all under the home directory |
| FastInstaller.IntegrationCodeSpec | fastparrot/core/installer.py:103-184 | code exists exactly for the shells with files; any other shell is refused with its name |
| FastInstaller.UninstallRemovesAll | fastparrot/core/installer.py:195-206 | after uninstalling, with the pass repeated, no block and no three line breaks in a row are left |
| FastInstaller.OnePassUninstall | fastparrot/core/installer.py:200-206 | where one pass leaves no block, the single `re.sub` pass writes what the repeated pass writes |
| FastInstaller.SinglePassStaysInstalled | fastparrot/core/installer.py:200-206 | on the re-forming input, the single pass writes back a file that still holds the start marker |
| FastInstaller.UninstallKeepsText | fastparrot/core/installer.py:203-206 | apart from line breaks, uninstalling keeps everything outside the blocks |
| FastInstaller.InstallThenUninstall | fastparrot/core/installer.py:85-96 | installing into clean text and uninstalling, with one pass or repeated passes, gives the text back with a blank line added, line breaks collapsed |
| FastInstaller.ReinstallLeavesOne | fastparrot/core/installer.py:85-96 | a forced reinstall leaves clean text followed by exactly the new block |
| FastInstaller.SinglePassLeavesBlock | fastparrot/core/installer.py:200-203 | for FastParrot's markers, one pass can leave a complete block and the repeated pass leaves none |
| FastInstaller.Installer.constructor | fastparrot/core/installer.py:10-12 | an installer starts with the given home directory and files |
| FastInstaller.Installer.FindExistingConfig | fastparrot/core/installer.py:50-59 | the configuration file chosen for the shell |
| FastInstaller.Installer.Uninstall | fastparrot/core/installer.py:186-209 | an existing chosen file is rewritten without its blocks; otherwise nothing changes |
| FastInstaller.Installer.Install | fastparrot/core/installer.py:61-101 | no file: refused; installed without force: refused after creating the file; otherwise cleaned when installed, then the block appended |
| FastInstaller.Installer.Touch | fastparrot/core/installer.py:68-71 | the chosen file is created empty when missing, and the choice stays |
| FastInstaller.Installer.Append | fastparrot/core/installer.py:85-96 | the file is cleaned when installed, then the block appended |

## Left out

- The hook scripts' text is given as a `Hooks` value. The interpreter path, `which` and the
  `.fastparrotrc` source line inside them come from outside the core.
- `fastparrot/core/fastparrotrc.py` is not part of this model. The FastParrot installer does not
  create that file here, and `fastparrot/core/config.py` is not part of this model either:
  FastParrot's monitoring settings are a typed `Settings` value.
- `fastparrot/monitors/hook.py` is not part of this model. It decides the shell's exit behaviour
  from the action, outside the core.
- LazyInstaller.Installer.Uninstall: `_clean_lazysloth_data` deletes files and directories outside
  the model, so its calls are only counted (`cleanups`).
- File-system behaviour is left out:
  - directory creation (`mkdir(parents=True)`);
  - `Path.expanduser` and `resolve`, which come in as the `resolved` parameter;
  - reading and writing errors: `IOError` and `UnicodeDecodeError` paths;
  - `check_and_relearn_if_needed`'s catch-all `except`, which returns false.
- Modification times, the current time and the fish function files' glob order come in as
  parameters (`current`, `now`, `funcs`).
- Python set iteration order is not modelled. `shells_to_relearn` is a `set`, walked in hash order,
  which can differ from one process to the next. The model relearns the affected shells in the order
  of the monitored-file settings, which is one of the orders the source can take. The resulting store
  depends on that order whenever two affected shells parse the same alias name (`OrderMatters`): by
  default bash and zsh both monitor `~/.slothrc`, so its aliases end up tagged with the shell relearned
  last. Removal candidates are walked in any order; the removed set (`Removable`) does not depend on it.
- Text.BaseName: pathlib's `Path(p).name` also drops `.` components (`a/.` gives `a`); `BaseName`
  takes the text after the last slash, so it gives `.` there.
- YAML serialisation is left out: key sorting and file layout. A configuration is a nested
  `Value` and saving is counted (`saves`).
- SlothConfig.Config.Get: a shell name containing `.` splits into extra key parts, as in the
  source; keys are otherwise plain strings.
- The learner's `Config` is shared state in the source. Here it is the `AutoLearner`'s
  `monitored` field, and the watcher reaches it through its learner.
- CommandMonitor.OptimalNeedsAlias: the catch of `AttributeError`, `TypeError` and `KeyError` in
  `_is_using_optimal_alias` is not modelled, because the typed model cannot raise them.
- Newline translation is left out. Every file content in the model is the text after the translation
  that Python's text-mode `open` performs. That translation turns `\r\n` and a lone `\r` into `\n`,
  and it applies to the shell configuration files, the alias files, the fish files and `.slothrc`
  alike. On untranslated text the model differs: `Collapse` leaves runs of `\r\n` alone, and
  `SlothRC` treats a lone `\r` inside a line as ordinary text.
- SlothRC.RcFile.ReadAliases: reads with the corrected `SlothRC.Read`, which turns `\"` back into `"`.
  `_read_aliases` (lazysloth/core/slothrc.py:69-72) only removes the quotes; `SlothRC.ReadAsWritten`
  is that reader, and `SlothRC.RereadAsWritten` states what it gives back.
- SlothRC.RcFile.GetAliases: returns the corrected read. The source returns commands with their
  quotes still escaped.
- SlothRC.RcFile.AddAlias: rewrites the file from the corrected read. In the source every other
  command holding a quote gains one more level of escaping on each rewrite, as
  `SlothRC.AddAliasAsWritten` states.
- SlothRC.RcFile.RemoveAlias: rewrites the file from the corrected read. The source's accumulating
  escaping is stated by `SlothRC.RemoveAliasAsWritten`.
- SlothRC.AddAliasEffect: "every other alias is unchanged" holds for the corrected reader only. It
  fails for the source's reader on any other command holding a quote (`SlothRC.AddAliasAsWritten`).
- SlothRC.RemoveAliasEffect: holds for the corrected reader only, as above
  (`SlothRC.RemoveAliasAsWritten`).
- LazyInstaller.Uninstalled: repeats the block pass until the text stops changing. Line 236 of
  lazysloth/core/installer.py makes one pass, which is `LazyInstaller.UninstalledOnce`. The two write
  the same whenever one pass leaves no block (`LazyInstaller.OnePassUninstall`). They differ on the
  Findings input (`LazyInstaller.SinglePassStaysInstalled`).
- LazyInstaller.Reinstalled: cleans an installed file through the repeated pass of `Uninstalled`.
- LazyInstaller.Installer.Uninstall: writes `Uninstalled`, not the source's single pass.
- LazyInstaller.Installer.Install: cleans through the repeated pass, not the source's single pass.
- LazyInstaller.Installer.Append: cleans through the repeated pass, not the source's single pass.
- FastInstaller.Uninstalled: repeats the block pass where line 203 of fastparrot/core/installer.py
  makes one, which is `FastInstaller.UninstalledOnce`. They agree whenever one pass leaves no block
  (`FastInstaller.OnePassUninstall`) and differ on the Findings input
  (`FastInstaller.SinglePassStaysInstalled`).
- FastInstaller.Reinstalled: cleans an installed file through the repeated pass of `Uninstalled`.
- FastInstaller.Installer.Uninstall: writes `Uninstalled`, not the source's single pass.
- FastInstaller.Installer.Install: cleans through the repeated pass, not the source's single pass.
- FastInstaller.Installer.Append: cleans through the repeated pass, not the source's single pass.
- Saving the collected store (`save_aliases_data`) writes YAML and is left out. The store is the
  collector's result, and the learner's `aliases` field.
- The command-line interface (`cli.py`) and the interactive prompts are outside the core.
- The regular expressions are modelled for the definition patterns these files use, not as
  general regex engines; string case folding and Unicode normalisation do not occur.

## Findings

| source | as written | input that shows it | evidently intended | confidence | as-written member | corrected member |
|---|---|---|---|---|---|---|
| lazysloth/core/slothrc.py:63-97 | `_write_aliases` escapes `"` as `\"`, and `_read_aliases` strips the quotes without unescaping | alias `q` with command `a"b` is written and read back as `a\"b` | reading a written file gives back the same commands | not executed | SlothRC.QuoteLost | SlothRC.RoundTrip |
| lazysloth/core/installer.py:233-236 | one `re.sub` pass with the lazy block pattern removes the blocks it finds, but the text around a removed block can join into a new complete block | `# ` + `# LazySloth integration# End LazySloth integration` + `LazySloth integration# End LazySloth integration` leaves `# LazySloth integration# End LazySloth integration` | remove all integration blocks, as the comment at line 229 says | not executed | LazyInstaller.SinglePassLeavesBlock | MarkerBlocks.NoBlockLeft |
| fastparrot/core/installer.py:200-203 | the same single pass over FastParrot's markers | `# ` + `# FastParrot integration# End FastParrot integration` + `FastParrot integration# End FastParrot integration` leaves `# FastParrot integration# End FastParrot integration` | remove all integration blocks, as the comment at line 196 says | not executed | FastInstaller.SinglePassLeavesBlock | FastInstaller.UninstallRemovesAll |

In both installers, `Uninstalled` uses the corrected `MarkerBlocks.RemoveAllBlocks`, which repeats
the pass until nothing changes. `RcFile` reads with the corrected `SlothRC.Read`, which undoes the
escaping. The code as written is kept beside them:
- `MarkerBlocks.RemoveBlocks` and each installer's `UninstalledOnce` are the single pass.
- `SlothRC.ReadAsWritten` is the reader that keeps the escapes.
- `SlothRC.AddAliasAsWritten` and `SlothRC.RemoveAliasAsWritten` state what the source's rewrites do.
The members that use the corrected halves are listed under "## Left out".
