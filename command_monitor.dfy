/**
 * The usage tracker of the older generation (`fastparrot/monitors/command_monitor.py`):
 * a typed command that an alias could have replaced is counted against that
 * alias, and once the count reaches the configured thresholds the tool answers
 * with a notice or a block that suggests the alias.
 */
module CommandMonitor {
  import opened Wrappers
  import opened Text
  import opened Dicts
  import opened Aliases
  import opened AliasMatch
  import opened FastCollector

  /** `MonitorAction` */
  datatype MonitorAction = NoAction | Notice | Block

  /** `MonitorResult`: an action and the message shown with it. */
  datatype MonitorResult = MonitorResult(action: MonitorAction, message: string)
  {
    predicate IsBlocking() {
      action == Block
    }

    predicate IsNotice() {
      action == Notice
    }
  }

  /** The `monitoring.*` settings the monitor reads. */
  datatype Settings = Settings(
    enabled: bool,
    ignoredCommands: seq<string>,
    noticeThreshold: int,
    blockingThreshold: int,
    blockingEnabled: bool)

  /** The values the monitor falls back to for settings that are absent. */
  const DefaultSettings := Settings(true, [], 1, 3, false)

  /** One entry of the usage statistics, kept per alias name. */
  datatype Stat = Stat(count: int, firstSeen: string, lastSeen: string, aliasCommand: string)

  /** The recorded count of an alias; an alias without an entry has none yet. */
  function Count(stats: Dict<Stat>, name: string): int {
    match Get(stats, name)
    case None => 0
    case Some(st) => st.count
  }

  // ---- which alias a command is counted against ----

  /** `_is_using_optimal_alias`: the first token is an alias, and the alias the
      store chooses for the command it expands to is that alias or one with the
      same command. The chosen alias is looked up with `find_alias_for_command`,
      which expands the already expanded command once more. */
  predicate UsingOptimalAlias(command: string, store: Store) {
    var parts := Words(command);
    if parts == [] then false
    else
      var first := parts[0];
      var current := Get(store, first);
      if current.None? then false
      else
        var expanded := ExpandInCommand(command, store, MaxDepth);
        match AliasFor(expanded, store)
        case None => true
        case Some(optimal) => first == optimal.0 || current.value.command == optimal.1.command
  }

  /** A command already written with the best alias starts with a stored alias. */
  lemma OptimalNeedsAlias(command: string, store: Store)
    requires UsingOptimalAlias(command, store)
    ensures Words(command) != [] && Words(command)[0] in Keys(store)
  {
    GetFound(store, Words(command)[0]);
  }

  /** The alias a command is counted against, or nothing when monitoring is off,
      the command's leading token is ignored, the command already uses the best
      alias, or no alias covers it. */
  function Tracked(settings: Settings, command: string, store: Store): Option<(string, AliasEntry)> {
    if !settings.enabled then None
    else if FirstWordOr(command) in settings.ignoredCommands then None
    else if UsingOptimalAlias(command, store) then None
    else AliasFor(command, store)
  }

  /** The filters of `record_command`, in both directions. */
  lemma TrackedFilters(settings: Settings, command: string, store: Store)
    ensures Tracked(settings, command, store).Some? <==>
              && settings.enabled
              && FirstWordOr(command) !in settings.ignoredCommands
              && !UsingOptimalAlias(command, store)
              && AliasFor(command, store).Some?
  {
  }

  /** A tracked alias is stored, and its command covers the command as expanded. */
  lemma TrackedAlias(settings: Settings, command: string, store: Store)
    requires Tracked(settings, command, store).Some?
    ensures var t := Tracked(settings, command, store).value;
            t.0 in Keys(store) && Covers(t.1.command, ExpandInCommand(command, store, MaxDepth))
  {
    AliasForFound(command, store);
  }

  // ---- the suggestion and the action ----

  /** The suggestion for an expanded command: the alias name, followed by what
      comes after the alias command when the command goes on with a space. */
  function SuggestionFor(expanded: string, name: string, aliasCommand: string): string {
    if expanded == aliasCommand then "'" + name + "'"
    else if StartsWith(expanded, aliasCommand + " ") then "'" + name + expanded[|aliasCommand|..] + "'"
    else "'" + name + "'"
  }

  /** `_generate_alias_suggestion`: the typed command is expanded with the store first. */
  function Suggestion(command: string, name: string, entry: AliasEntry, store: Store): string {
    SuggestionFor(ExpandInCommand(command, store, MaxDepth), name, entry.command)
  }

  /** When the alias command covers the expanded command, the suggestion is the
      alias name followed by exactly the arguments the alias does not spell. */
  lemma SuggestionKeepsArguments(expanded: string, name: string, aliasCommand: string)
    requires Covers(aliasCommand, expanded)
    ensures var tail := expanded[|aliasCommand|..];
            && aliasCommand + tail == expanded
            && (tail == "" || tail[0] == ' ')
            && SuggestionFor(expanded, name, aliasCommand) == "'" + name + tail + "'"
  {
    var tail := expanded[|aliasCommand|..];
    assert aliasCommand + tail == expanded;
    if expanded != aliasCommand {
      assert expanded[..|aliasCommand| + 1] == aliasCommand + " ";
      assert tail[0] == expanded[|aliasCommand|];
    }
  }

  /** `git status --short` with `gs` for `git status` is suggested as `'gs --short'`. */
  lemma SuggestionExample()
    ensures SuggestionFor("git status --short", "gs", "git status") == "'gs --short'"
  {
    assert StartsWith("git status --short", "git status" + " ");
  }

  /** The alias a command is counted against never needs the fallback branch:
      its suggestion keeps the arguments of the expanded command. */
  lemma TrackedSuggestion(settings: Settings, command: string, store: Store)
    requires Tracked(settings, command, store).Some?
    ensures var t := Tracked(settings, command, store).value;
            var expanded := ExpandInCommand(command, store, MaxDepth);
            && StartsWith(expanded, t.1.command)
            && Suggestion(command, t.0, t.1, store) == "'" + t.0 + expanded[|t.1.command|..] + "'"
  {
    var t := Tracked(settings, command, store).value;
    TrackedAlias(settings, command, store);
    SuggestionKeepsArguments(ExpandInCommand(command, store, MaxDepth), t.0, t.1.command);
  }

  function BlockMessage(suggested: string, command: string): string {
    "\n\U{1F6AB}\U{1F9A5} Time to be lazy.\nUse " + suggested + " instead of '" + command + "'"
  }

  function NoticeMessage(suggested: string, command: string): string {
    "\n\U{1F9A5}\U{1F4A1} You can use " + suggested + " instead of '" + command + "'"
  }

  /** `_check_for_action` with the count after this use. */
  function CheckForAction(settings: Settings, command: string, count: int, alias: (string, AliasEntry), store: Store): Option<MonitorResult> {
    if settings.blockingEnabled && count >= settings.blockingThreshold then
      Some(MonitorResult(Block, BlockMessage(Suggestion(command, alias.0, alias.1, store), command)))
    else if settings.noticeThreshold <= count then
      Some(MonitorResult(Notice, NoticeMessage(Suggestion(command, alias.0, alias.1, store), command)))
    else None
  }

  /** Blocking comes first; a notice fires from its threshold on whenever the
      command is not blocked, so past the block threshold when blocking is off. */
  lemma ActionThresholds(settings: Settings, command: string, count: int, alias: (string, AliasEntry), store: Store)
    ensures var r := CheckForAction(settings, command, count, alias, store);
      && (r.Some? && r.value.IsBlocking() <==> settings.blockingEnabled && count >= settings.blockingThreshold)
      && (r.Some? && r.value.IsNotice() <==>
            !(settings.blockingEnabled && count >= settings.blockingThreshold) && settings.noticeThreshold <= count)
      && (r.Some? ==> r.value.action != NoAction)
  {
  }

  /** How far the answer goes: nothing, a notice, a block. */
  function Level(r: Option<MonitorResult>): nat {
    match r
    case None => 0
    case Some(m) => if m.action == Block then 2 else if m.action == Notice then 1 else 0
  }

  /** Using an alias more never softens the answer. */
  lemma EscalationMonotone(settings: Settings, command: string, c1: int, c2: int, alias: (string, AliasEntry), store: Store)
    requires c1 <= c2
    ensures Level(CheckForAction(settings, command, c1, alias, store)) <= Level(CheckForAction(settings, command, c2, alias, store))
  {
  }

  // ---- the statistics ----

  /** The entry of `name` before this use: a new one with count 0 when absent. */
  function Entry(stats: Dict<Stat>, name: string, aliasCommand: string, now: string): Stat {
    match Get(stats, name)
    case None => Stat(0, now, now, aliasCommand)
    case Some(st) => st
  }

  /** The statistics after one more use of `name`: the entry (created if absent)
      has its count raised by one and its last use set to `now`. */
  function Bump(stats: Dict<Stat>, name: string, aliasCommand: string, now: string): (r: Dict<Stat>)
    ensures Keys(r) == Keys(stats) + {name}
    ensures Count(r, name) == Count(stats, name) + 1
    ensures Get(r, name).Some? && Get(r, name).value.lastSeen == now
  {
    var st := Entry(stats, name, aliasCommand, now);
    GetPut(stats, name, st.(count := st.count + 1, lastSeen := now), name);
    Put(stats, name, st.(count := st.count + 1, lastSeen := now))
  }

  /** Every other alias keeps its entry. */
  lemma BumpOthers(stats: Dict<Stat>, name: string, aliasCommand: string, now: string, other: string)
    requires other != name
    ensures Get(Bump(stats, name, aliasCommand, now), other) == Get(stats, other)
  {
    var st := Entry(stats, name, aliasCommand, now);
    GetPut(stats, name, st.(count := st.count + 1, lastSeen := now), other);
  }

  /** A new entry records its alias command and first use; an existing one keeps both. */
  lemma BumpEntry(stats: Dict<Stat>, name: string, aliasCommand: string, now: string)
    ensures var e := Get(Bump(stats, name, aliasCommand, now), name).value;
            match Get(stats, name)
            case None => e == Stat(1, now, now, aliasCommand)
            case Some(st) => e == st.(count := st.count + 1, lastSeen := now)
  {
    var st := Entry(stats, name, aliasCommand, now);
    GetPut(stats, name, st.(count := st.count + 1, lastSeen := now), name);
  }

  /** No count ever goes down. */
  lemma BumpMonotone(stats: Dict<Stat>, name: string, aliasCommand: string, now: string, other: string)
    ensures Count(Bump(stats, name, aliasCommand, now), other) >= Count(stats, other)
  {
    if other != name {
      BumpOthers(stats, name, aliasCommand, now, other);
    }
  }

  lemma BumpUnique(stats: Dict<Stat>, name: string, aliasCommand: string, now: string)
    requires UniqueKeys(stats)
    ensures UniqueKeys(Bump(stats, name, aliasCommand, now))
  {
    var st := Entry(stats, name, aliasCommand, now);
    PutUnique(stats, name, st.(count := st.count + 1, lastSeen := now));
  }

  // ---- the monitor ----

  /** `CommandMonitor`, with the saved statistics as its state. The settings and
      the alias store are what the configuration holds while a command is recorded;
      `saves` counts the writes of the statistics. */
  class Monitor {
    const settings: Settings
    const aliases: Store
    var stats: Dict<Stat>
    var saves: nat

    constructor (settings: Settings, aliases: Store, stats: Dict<Stat>)
      ensures this.settings == settings && this.aliases == aliases
      ensures this.stats == stats && saves == 0
    {
      this.settings := settings;
      this.aliases := aliases;
      this.stats := stats;
      saves := 0;
    }

    /** `record_command`: a command no alias is counted for changes nothing; otherwise
        its alias is counted once, the statistics are saved once, and the answer
        follows the thresholds with the new count. */
    method RecordCommand(command: string, now: string) returns (r: Option<MonitorResult>)
      modifies this
      ensures var t := Tracked(settings, command, aliases);
        if t.None? then r.None? && stats == old(stats) && saves == old(saves)
        else
          && stats == Bump(old(stats), t.value.0, t.value.1.command, now)
          && saves == old(saves) + 1
          && r == CheckForAction(settings, command, Count(stats, t.value.0), t.value, aliases)
    {
      if !settings.enabled {
        return None;
      }
      var commandBase := FirstWordOr(command);
      if commandBase in settings.ignoredCommands {
        return None;
      }
      if UsingOptimalAlias(command, aliases) {
        return None;
      }
      var existing := FindAliasForCommand(command, aliases);
      if existing.None? {
        return None;
      }
      var name := existing.value.0;
      var data := existing.value.1;
      var entry := Entry(stats, name, data.command, now);
      entry := entry.(count := entry.count + 1, lastSeen := now);
      stats := Put(stats, name, entry);
      saves := saves + 1;
      r := CheckForAction(settings, command, Count(stats, name), existing.value, aliases);
    }
  }
}
