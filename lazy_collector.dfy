/**
 * The alias collector of the bash/zsh generation: line-by-line parsing of
 * shell configuration files, merging per shell and across shells, expansion
 * of aliases inside a command (with a set of already expanded names) and of
 * every stored alias, and the lookup of the alias that fits a command best.
 *
 * The file system is a map from path to content that holds the files that
 * exist and can be read; a file that cannot be read yields no aliases, as
 * the caught read error does.
 */
module LazyCollector {
  import opened Wrappers
  import opened Text
  import opened Dicts
  import opened Aliases
  import opened AliasSyntax
  import opened AliasMatch
  import opened Assignments
  import opened Expansion

  type FileSystem = map<string, string>

  /** The shells this generation supports. */
  predicate Supported(shell: string) {
    shell == "bash" || shell == "zsh"
  }

  /** `_get_config_files`: the files read for a shell, in order. The bash list
      names `.bash_profile` twice and has no `.bashrc`. */
  function ConfigFiles(shell: string, home: string): (r: seq<string>)
    ensures Supported(shell) <==> r != []
    ensures Supported(shell) ==> |r| == 4 && r[3] == PathJoin(home, ".profile")
  {
    if shell == "bash" then
      [PathJoin(home, ".bash_profile"), PathJoin(home, ".bash_profile"),
       PathJoin(home, ".bash_aliases"), PathJoin(home, ".profile")]
    else if shell == "zsh" then
      [PathJoin(home, ".zshrc"), PathJoin(home, ".zsh_profile"),
       PathJoin(home, ".zshenv"), PathJoin(home, ".profile")]
    else []
  }

  // ---- parsing ----

  /** One line of a configuration file: lines whose left-stripped form starts
      with `#` or does not start with `alias ` are skipped; otherwise the
      pattern is searched in the line as it was. */
  function ParseLine(line: string): (r: Option<(string, string)>)
    ensures r.Some? ==> StartsWith(LStrip(line), "alias ") && !StartsWith(LStrip(line), "#")
    ensures r.Some? ==> ValidName(r.value.0) && ValidCommand(r.value.1)
  {
    var stripped := LStrip(line);
    if StartsWith(stripped, "#") || !StartsWith(stripped, "alias ") then None
    else
      match Search(BashForm, line, 0)
      case None => None
      case Some(m) =>
        SearchFound(BashForm, line, 0);
        MatchAtValid(BashForm, line, m.start);
        Some((m.name, m.command))
  }

  /** What each line defines, in order. */
  function Definitions(lines: seq<string>): (r: seq<Option<(string, string)>>)
    ensures |r| == |lines|
    ensures forall j :: 0 <= j < |lines| ==> r[j] == ParseLine(lines[j])
  {
    seq(|lines|, j requires 0 <= j < |lines| => ParseLine(lines[j]))
  }

  /** The dictionary filled by the loop over `lines`. */
  function ParseLines(lines: seq<string>, shell: string, path: string): (r: Store)
    ensures UniqueKeys(r)
    ensures ParsedFrom(BashForm, r, shell, path)
  {
    AssignParsedFrom(BashForm, Definitions(lines), shell, path);
    Assign(Definitions(lines), shell, path)
  }

  /** `_parse_bash_zsh_aliases` on the content of the file `path`. */
  function ParseText(content: string, shell: string, path: string): Store {
    ParseLines(SplitOn(content, '\n'), shell, path)
  }

  method ParseAliases(content: string, shell: string, path: string) returns (aliases: Store)
    ensures aliases == ParseText(content, shell, path)
  {
    var lines := SplitOn(content, '\n');
    ghost var defs := Definitions(lines);
    aliases := [];
    var i := 0;
    while i < |lines|
      invariant 0 <= i <= |lines|
      invariant aliases == Assign(defs[..i], shell, path)
    {
      AssignNext(defs, shell, path, i);
      var line := lines[i];
      var stripped := LStrip(line);
      if !StartsWith(stripped, "#") && StartsWith(stripped, "alias ") {
        var m := Search(BashForm, line, 0);
        if m.Some? {
          aliases := Put(aliases, m.value.name, AliasEntry(m.value.command, shell, path, Alias));
        }
      }
      i := i + 1;
    }
    assert defs[..|lines|] == defs;
  }

  /** A definition line on its own parses to its name and command. */
  lemma DefinitionParses(name: string, q: string, cmd: string)
    requires ValidName(name) && QuoteMark(q) && ValidCommand(cmd)
    ensures ParseLine(Definition(name, q, cmd)) == Some((name, cmd))
  {
    MatchDefinitionAlone(name, q, cmd);
    ParseLineAt(Definition(name, q, cmd), Match(0, name, cmd, |Definition(name, q, cmd)|));
  }

  /** A line starting with `alias ` and matching there parses to that match. */
  lemma ParseLineAt(line: string, m: Match)
    requires StartsWith(line, "alias ") && MatchAt(BashForm, line, 0) == Some(m)
    ensures ParseLine(line) == Some((m.name, m.command))
  {
    KeywordLine(line);
    assert Search(BashForm, line, 0) == Some(m);
  }

  /** A line starting with `alias ` has no leading whitespace and is no comment. */
  lemma KeywordLine(line: string)
    requires StartsWith(line, "alias ")
    ensures LStrip(line) == line && !StartsWith(line, "#")
  {
    assert line[0] == "alias "[0];
  }

  /** Within one file the entry of a name comes from the last line defining it,
      and a name no line defines has none. */
  lemma ParseLinesGet(lines: seq<string>, shell: string, path: string, name: string)
    ensures (forall j :: 0 <= j < |lines| ==> !Defines(lines[j], name)) ==>
              Get(ParseLines(lines, shell, path), name).None?
    ensures forall k :: 0 <= k < |lines| && Defines(lines[k], name) &&
                        (forall j :: k < j < |lines| ==> !Defines(lines[j], name)) ==>
              Get(ParseLines(lines, shell, path), name) == Some(AliasEntry(ParseLine(lines[k]).value.1, shell, path, Alias))
  {
    var defs := Definitions(lines);
    if forall j :: 0 <= j < |lines| ==> !Defines(lines[j], name) {
      AssignAbsent(defs, shell, path, name);
    }
    forall k | 0 <= k < |lines| && Defines(lines[k], name) && (forall j :: k < j < |lines| ==> !Defines(lines[j], name))
      ensures Get(ParseLines(lines, shell, path), name) == Some(AliasEntry(ParseLine(lines[k]).value.1, shell, path, Alias))
    {
      AssignLast(defs, shell, path, k, name, ParseLine(lines[k]).value.1);
    }
  }

  /** The line is a definition of `name`. */
  predicate Defines(line: string, name: string) {
    ParseLine(line).Some? && ParseLine(line).value.0 == name
  }

  // ---- collecting ----

  /** `_collect_bash_zsh_aliases`: the parse of every readable file, merged in order. */
  function CollectFiles(files: seq<string>, fs: FileSystem, shell: string): (r: Store)
    ensures UniqueKeys(r)
    ensures forall p :: p in r ==> p.1.shell == shell && p.1.sourceFile in files && p.1.kind == Alias
    decreases |files|
  {
    if files == [] then []
    else
      var n := |files| - 1;
      var acc := CollectFiles(files[..n], fs, shell);
      var f := files[n];
      assert forall x :: x in files[..n] ==> x in files;
      if f in fs then
        var parsed := ParseText(fs[f], shell, f);
        UpdateUnique(acc, parsed);
        Update(acc, parsed)
      else acc
  }

  method CollectBashZsh(shell: string, home: string, fs: FileSystem) returns (aliases: Store)
    ensures aliases == CollectFiles(ConfigFiles(shell, home), fs, shell)
  {
    aliases := CollectEach(ConfigFiles(shell, home), fs, shell);
  }

  /** The loop of `_collect_bash_zsh_aliases` over the configuration files. */
  method CollectEach(files: seq<string>, fs: FileSystem, shell: string) returns (aliases: Store)
    ensures aliases == CollectFiles(files, fs, shell)
  {
    aliases := [];
    var i := 0;
    while i < |files|
      invariant 0 <= i <= |files|
      invariant aliases == CollectFiles(files[..i], fs, shell)
    {
      assert files[..i + 1][..i] == files[..i];
      var f := files[i];
      if f in fs {
        var parsed := ParseAliases(fs[f], shell, f);
        aliases := Update(aliases, parsed);
      }
      i := i + 1;
    }
    assert files[..|files|] == files;
  }

  function UnsupportedShell(shell: string): string {
    "Unsupported shell: " + shell + ". Only 'bash' and 'zsh' are supported."
  }

  /** `collect_from_shell`: the aliases of a supported shell, an error for any other. */
  method CollectFromShell(shell: string, home: string, fs: FileSystem) returns (r: Result<Store, string>)
    ensures Supported(shell) ==> r == Ok(CollectFiles(ConfigFiles(shell, home), fs, shell))
    ensures !Supported(shell) ==> r == Err(UnsupportedShell(shell))
  {
    if Supported(shell) {
      var aliases := CollectBashZsh(shell, home, fs);
      r := Ok(aliases);
    } else {
      r := Err(UnsupportedShell(shell));
    }
  }

  /** What `collect_all` builds (and then saves): bash's aliases, overwritten by zsh's. */
  function CollectAllSpec(home: string, fs: FileSystem): Store {
    Update(Update([], CollectFiles(ConfigFiles("bash", home), fs, "bash")),
           CollectFiles(ConfigFiles("zsh", home), fs, "zsh"))
  }

  method CollectAll(home: string, fs: FileSystem) returns (all: Store)
    ensures all == CollectAllSpec(home, fs)
  {
    all := [];
    var shells := ["bash", "zsh"];
    var i := 0;
    while i < |shells|
      invariant 0 <= i <= |shells|
      invariant i == 0 ==> all == []
      invariant i == 1 ==> all == Update([], CollectFiles(ConfigFiles("bash", home), fs, "bash"))
      invariant i == 2 ==> all == CollectAllSpec(home, fs)
    {
      var r := CollectFromShell(shells[i], home, fs);
      all := Update(all, r.value);
      i := i + 1;
    }
  }

  /** A zsh alias wins over a bash alias of the same name; every other alias keeps its own entry. */
  lemma CollectAllGet(home: string, fs: FileSystem, name: string)
    ensures var bash := CollectFiles(ConfigFiles("bash", home), fs, "bash");
            var zsh := CollectFiles(ConfigFiles("zsh", home), fs, "zsh");
            Get(CollectAllSpec(home, fs), name) ==
              if name in Keys(zsh) then Get(zsh, name) else Get(bash, name)
  {
    var bash := CollectFiles(ConfigFiles("bash", home), fs, "bash");
    var zsh := CollectFiles(ConfigFiles("zsh", home), fs, "zsh");
    GetUpdate(Update([], bash), zsh, name);
    GetUpdate([], bash, name);
    GetFound(bash, name);
  }

  // ---- expanding a command ----

  /** `_expand_aliases_in_command(command, aliases, depth, visited)` */
  function ExpandInCommand(command: string, store: Store, depth: nat, visited: set<string>): string
    decreases depth
  {
    if depth == 0 then command
    else
      match Step(command, store, visited)
      case None => command
      case Some(s) => ExpandInCommand(s.1, store, depth - 1, visited + {s.0})
  }

  /** The alias names substituted one after the other. */
  function Trace(command: string, store: Store, depth: nat, visited: set<string>): (t: seq<string>)
    decreases depth
  {
    if depth == 0 then []
    else
      match Step(command, store, visited)
      case None => []
      case Some(s) => [s.0] + Trace(s.1, store, depth - 1, visited + {s.0})
  }

  /** Expansion performs at most `depth` substitutions, each of a stored alias
      not expanded before, and never the same alias twice. */
  lemma {:induction false} TraceDistinct(command: string, store: Store, depth: nat, visited: set<string>)
    ensures var t := Trace(command, store, depth, visited);
      && |t| <= depth
      && (forall i :: 0 <= i < |t| ==> t[i] in Keys(store) && t[i] !in visited)
      && (forall i, j :: 0 <= i < j < |t| ==> t[i] != t[j])
    decreases depth
  {
    if depth > 0 {
      match Step(command, store, visited) {
        case None =>
        case Some(s) =>
          StepAlias(command, store, visited);
          TraceDistinct(s.1, store, depth - 1, visited + {s.0});
          ConsDistinct(s.0, Trace(s.1, store, depth - 1, visited + {s.0}), Keys(store), visited);
      }
    }
  }

  /** Prepending a new name, outside `visited`, to distinct names outside `visited` and that name. */
  lemma ConsDistinct(x: string, rest: seq<string>, keys: set<string>, visited: set<string>)
    requires x in keys && x !in visited
    requires forall i :: 0 <= i < |rest| ==> rest[i] in keys && rest[i] !in visited + {x}
    requires forall i, j :: 0 <= i < j < |rest| ==> rest[i] != rest[j]
    ensures forall i :: 0 <= i < |[x] + rest| ==> ([x] + rest)[i] in keys && ([x] + rest)[i] !in visited
    ensures forall i, j :: 0 <= i < j < |[x] + rest| ==> ([x] + rest)[i] != ([x] + rest)[j]
  {
    var t := [x] + rest;
    assert forall i :: 1 <= i < |t| ==> t[i] == rest[i - 1];
  }

  /** So the number of substitutions is also bounded by the number of stored
      aliases not yet expanded: the `a -> b, b -> a` cycle stops. */
  lemma TraceBound(command: string, store: Store, depth: nat, visited: set<string>)
    ensures |Trace(command, store, depth, visited)| <= |Keys(store) - visited|
  {
    var t := Trace(command, store, depth, visited);
    TraceDistinct(command, store, depth, visited);
    DistinctCard(t);
    assert ElemSet(t) <= Keys(store) - visited;
    SubsetCard(ElemSet(t), Keys(store) - visited);
  }

  lemma SubsetCard(a: set<string>, b: set<string>)
    requires a <= b
    ensures |a| <= |b|
  {
    assert b == a + (b - a);
  }

  function ElemSet(t: seq<string>): set<string> {
    set i | 0 <= i < |t| :: t[i]
  }

  lemma {:induction false} DistinctCard(t: seq<string>)
    requires forall i, j :: 0 <= i < j < |t| ==> t[i] != t[j]
    ensures |ElemSet(t)| == |t|
  {
    if t != [] {
      var n := |t| - 1;
      DistinctCard(t[..n]);
      assert ElemSet(t) == ElemSet(t[..n]) + {t[n]};
      assert t[n] !in ElemSet(t[..n]);
    }
  }

  lemma ElemSetCons(x: string, t: seq<string>)
    ensures ElemSet([x] + t) == {x} + ElemSet(t)
  {
    var u := [x] + t;
    forall y | y in ElemSet(u) ensures y in {x} + ElemSet(t) {
      var i :| 0 <= i < |u| && u[i] == y;
      if i > 0 {
        assert u[i] == t[i - 1];
      }
    }
    forall y | y in ElemSet(t) ensures y in ElemSet(u) {
      var i :| 0 <= i < |t| && t[i] == y;
      assert u[i + 1] == y;
    }
    assert u[0] == x;
  }

  /** When fewer than `depth` substitutions happen the result is fully expanded:
      no further substitution applies with the names used so far. */
  lemma {:induction false} ExpandComplete(command: string, store: Store, depth: nat, visited: set<string>)
    requires |Trace(command, store, depth, visited)| < depth
    ensures Step(ExpandInCommand(command, store, depth, visited), store,
                 visited + ElemSet(Trace(command, store, depth, visited))).None?
    decreases depth
  {
    var step := Step(command, store, visited);
    if step.None? {
      assert Trace(command, store, depth, visited) == [];
      assert ExpandInCommand(command, store, depth, visited) == command;
      assert visited + ElemSet([]) == visited;
    } else {
      var s := step.value;
      var rest := Trace(s.1, store, depth - 1, visited + {s.0});
      assert Trace(command, store, depth, visited) == [s.0] + rest;
      assert ExpandInCommand(command, store, depth, visited) == ExpandInCommand(s.1, store, depth - 1, visited + {s.0});
      ExpandComplete(s.1, store, depth - 1, visited + {s.0});
      assert visited + ElemSet([s.0] + rest) == (visited + {s.0}) + ElemSet(rest) by {
        ElemSetCons(s.0, rest);
      }
    }
  }

  /** The two-alias cycle of the tests: `a` expands to `b`, which would expand back to `a`. */
  lemma CycleStops()
    ensures var store := [("a", AliasEntry("b", "bash", "rc", Alias)), ("b", AliasEntry("a", "bash", "rc", Alias))];
            ExpandInCommand("a", store, MaxDepth, {}) == "a"
  {
    var store := [("a", AliasEntry("b", "bash", "rc", Alias)), ("b", AliasEntry("a", "bash", "rc", Alias))];
    assert Words("a") == ["a"];
    assert Words("b") == ["b"];
    assert Step("a", store, {}) == Some(("a", "b"));
    assert Step("b", store, {"a"}) == Some(("b", "a"));
    assert Step("a", store, {"a", "b"}) == None;
    assert {"a"} + {"b"} == {"a", "b"};
  }

  // ---- expanding the store ----

  /** One turn of the `while depth < max_depth` loop of `_expand_aliases`: the
      alias name the first token names and the stripped command with that
      token replaced, or nothing where the loop breaks. It breaks exactly
      where the recursion of `_expand_aliases_in_command` stops. */
  function LoopTurn(command: string, store: Store, history: set<string>): (r: Option<(string, string)>)
    ensures r.Some? <==> Step(command, store, history).Some?
    ensures r.Some? ==> r.value.0 == Step(command, store, history).value.0
  {
    var parts := Words(command);
    if parts == [] then None
    else
      var first := parts[0];
      var entry := Get(store, first);
      if entry.None? || first in history || entry.value.command == "" then None
      else Some((first, Strip(entry.value.command + " " + JoinSpace(parts[1..]))))
  }

  /** The whole loop, from the entry's command, with the history started at the
      alias's own name and `depth` turns taken. */
  function ExpandLoop(command: string, store: Store, history: set<string>, depth: nat): string
    decreases MaxDepth - depth
  {
    if depth >= MaxDepth then command
    else
      match LoopTurn(command, store, history)
      case None => command
      case Some(t) => ExpandLoop(t.1, store, history + {t.0}, depth + 1)
  }

  /** Every stored command has no leading or trailing whitespace and holds text. */
  predicate TrimmedCommands(store: Store) {
    forall i :: 0 <= i < |store| ==> Trimmed(store[i].1.command)
  }

  /** On a store of trimmed commands the loop of `_expand_aliases` computes what
      the recursion of `_expand_aliases_in_command` computes from the same history. */
  lemma {:induction false} ExpandLoopAgrees(command: string, store: Store, history: set<string>, depth: nat)
    requires TrimmedCommands(store) && depth <= MaxDepth
    ensures ExpandLoop(command, store, history, depth) == ExpandInCommand(command, store, MaxDepth - depth, history)
    decreases MaxDepth - depth
  {
    if depth < MaxDepth && Step(command, store, history).Some? {
      var s := Step(command, store, history).value;
      ExpandLoopAgrees(s.1, store, history + {s.0}, depth + 1);
      AgreeStep(command, store, history, depth, s);
    } else {
      AgreeAtEnd(command, store, history, depth);
    }
  }

  /** Where the loop stops, the recursion stops with the same command. */
  lemma AgreeAtEnd(command: string, store: Store, history: set<string>, depth: nat)
    requires depth <= MaxDepth && (depth == MaxDepth || Step(command, store, history).None?)
    ensures ExpandLoop(command, store, history, depth) == ExpandInCommand(command, store, MaxDepth - depth, history)
  {
    if depth == MaxDepth {
      LoopAtLimit(command, store, history, depth);
    } else {
      LoopStops(command, store, history, depth);
    }
  }

  /** A turn of the loop agrees with a level of the recursion when what follows agrees. */
  lemma AgreeStep(command: string, store: Store, history: set<string>, depth: nat, s: (string, string))
    requires TrimmedCommands(store) && depth < MaxDepth
    requires Step(command, store, history).Some? && s == Step(command, store, history).value
    requires ExpandLoop(s.1, store, history + {s.0}, depth + 1) == ExpandInCommand(s.1, store, MaxDepth - (depth + 1), history + {s.0})
    ensures ExpandLoop(command, store, history, depth) == ExpandInCommand(command, store, MaxDepth - depth, history)
  {
    LoopUnfold(command, store, history, depth);
    SubstituteTrimmed(command, store, history);
  }

  /** At the depth limit the loop and the recursion both stop. */
  lemma LoopAtLimit(command: string, store: Store, history: set<string>, depth: nat)
    requires depth == MaxDepth
    ensures ExpandLoop(command, store, history, depth) == command
    ensures ExpandInCommand(command, store, MaxDepth - depth, history) == command
  {
  }

  /** With nothing left to substitute, the loop and the recursion both stop. */
  lemma LoopStops(command: string, store: Store, history: set<string>, depth: nat)
    requires depth < MaxDepth && Step(command, store, history).None?
    ensures ExpandLoop(command, store, history, depth) == command
    ensures ExpandInCommand(command, store, MaxDepth - depth, history) == command
  {
  }

  /** One turn of the loop and one level of the recursion, side by side. */
  lemma LoopUnfold(command: string, store: Store, history: set<string>, depth: nat)
    requires depth < MaxDepth && Step(command, store, history).Some?
    ensures var step := Step(command, store, history);
      && ExpandLoop(command, store, history, depth) ==
           ExpandLoop(LoopTurn(command, store, history).value.1, store,
                      history + {LoopTurn(command, store, history).value.0}, depth + 1)
      && ExpandInCommand(command, store, MaxDepth - depth, history) ==
           ExpandInCommand(step.value.1, store, MaxDepth - (depth + 1), history + {step.value.0})
  {
  }

  /** On trimmed commands stripping after the substitution changes nothing. */
  lemma SubstituteTrimmed(command: string, store: Store, history: set<string>)
    requires TrimmedCommands(store) && Step(command, store, history).Some?
    ensures LoopTurn(command, store, history).value.1 == Step(command, store, history).value.1
  {
    var parts := Words(command);
    var entry := Get(store, parts[0]).value;
    WordsClean(command);
    GetFound(store, parts[0]);
    var i :| 0 <= i < |store| && store[i] == (parts[0], entry);
    assert Trimmed(store[i].1.command);
    assert forall k :: 0 <= k < |parts[1..]| ==> parts[1..][k] == parts[k + 1];
    StripSpaceJoin(entry.command, parts[1..]);
  }

  /** One entry of `_expand_aliases`: an entry without a command is kept as it is,
      any other gets the expanded command and keeps its other fields. */
  function ExpandEntry(name: string, entry: AliasEntry, store: Store): (r: AliasEntry)
    ensures r == entry.(command := r.command)
    ensures entry.command == "" ==> r == entry
  {
    if entry.command == "" then entry
    else entry.(command := ExpandLoop(entry.command, store, {name}, 0))
  }

  /** `_expand_aliases(store)`: the entries of `entries` expanded against `store`. */
  function ExpandStore(entries: Store, store: Store): (r: Store)
    ensures |r| == |entries|
    ensures forall i :: 0 <= i < |r| ==> r[i] == (entries[i].0, ExpandEntry(entries[i].0, entries[i].1, store))
  {
    MapValues(entries, (n, e) => ExpandEntry(n, e, store))
  }

  /** Each value replaced by `f` of its key and value, in order. */
  function MapValues(entries: Store, f: (string, AliasEntry) -> AliasEntry): (r: Store)
    ensures |r| == |entries|
    ensures forall i :: 0 <= i < |r| ==> r[i] == (entries[i].0, f(entries[i].0, entries[i].1))
    decreases |entries|
  {
    if entries == [] then []
    else
      var n := |entries| - 1;
      var acc := MapValues(entries[..n], f);
      var r := acc + [(entries[n].0, f(entries[n].0, entries[n].1))];
      assert forall i :: 0 <= i < n ==> r[i] == acc[i] && entries[..n][i] == entries[i];
      r
  }

  /** On a store of trimmed commands each expanded entry's command is what
      `_expand_aliases_in_command` makes of it with the alias's own name expanded already. */
  lemma ExpandStoreAgrees(store: Store, i: nat)
    requires TrimmedCommands(store) && i < |store| && store[i].1.command != ""
    ensures ExpandStore(store, store)[i].1.command == ExpandInCommand(store[i].1.command, store, MaxDepth, {store[i].0})
  {
    ExpandLoopAgrees(store[i].1.command, store, {store[i].0}, 0);
  }

  /** The expanded store has the same keys in the same order. */
  lemma ExpandStoreKeys(store: Store)
    ensures KeyList(ExpandStore(store, store)) == KeyList(store)
    ensures Keys(ExpandStore(store, store)) == Keys(store)
  {
    var r := ExpandStore(store, store);
    KeysIndex(r);
    KeysIndex(store);
    assert forall k :: k in Keys(r) <==> k in Keys(store) by {
      forall k ensures k in Keys(r) <==> k in Keys(store) {
        if k in Keys(r) {
          var i :| 0 <= i < |r| && r[i].0 == k;
          assert store[i].0 == k;
        }
        if k in Keys(store) {
          var i :| 0 <= i < |store| && store[i].0 == k;
          assert r[i].0 == k;
        }
      }
    }
  }

  /** `_expand_aliases`: every entry with a command gets the command its inner loop computes. */
  method ExpandAliases(store: Store) returns (r: Store)
    ensures r == ExpandStore(store, store)
  {
    ghost var target := ExpandStore(store, store);
    r := [];
    var i := 0;
    while i < |store|
      invariant 0 <= i <= |store|
      invariant r == target[..i]
    {
      var (name, data) := store[i];
      var entry := ExpandOne(name, data, store);
      assert target[i] == (name, entry);
      assert target[..i + 1] == target[..i] + [target[i]];
      r := r + [(name, entry)];
      i := i + 1;
    }
    assert target[..|store|] == target;
  }

  /** The body of the loop of `_expand_aliases` for one entry. */
  method ExpandOne(name: string, data: AliasEntry, store: Store) returns (entry: AliasEntry)
    ensures entry == ExpandEntry(name, data, store)
  {
    entry := data;
    if data.command != "" {
      var current := ExpandCommandLoop(name, data.command, store);
      entry := data.(command := current);
    }
  }

  /** The inner `while depth < max_depth` loop of `_expand_aliases` for the alias `name`. */
  method ExpandCommandLoop(name: string, command: string, store: Store) returns (current: string)
    ensures current == ExpandLoop(command, store, {name}, 0)
  {
    current := command;
    var history := {name};
    var depth := 0;
    while depth < MaxDepth
      invariant 0 <= depth <= MaxDepth
      invariant ExpandLoop(current, store, history, depth) == ExpandLoop(command, store, {name}, 0)
    {
      var turn := LoopTurn(current, store, history);
      if turn.None? {
        break;
      }
      current := turn.value.1;
      history := history + {turn.value.0};
      depth := depth + 1;
    }
  }

  // ---- lookup ----

  /** `find_alias_for_command`: the command expanded with an empty set of expanded
      names, matched against the expanded store. */
  method FindAliasForCommand(command: string, store: Store) returns (r: Option<(string, AliasEntry)>)
    ensures r == MostSpecific(ExpandInCommand(command, store, MaxDepth, {}), ExpandStore(store, store))
    ensures r.Some? ==> r.value.0 in Keys(store)
    ensures r.Some? ==> Covers(r.value.1.command, ExpandInCommand(command, store, MaxDepth, {}))
  {
    var expanded := ExpandInCommand(command, store, MaxDepth, {});
    var all := ExpandAliases(store);
    r := FindMostSpecific(expanded, all);
    MostSpecificCorrect(expanded, all);
    ExpandStoreKeys(store);
    if r.Some? {
      var k :| IsFirstLongest(expanded, all, k) && r.value == all[k];
      KeysIndex(all);
    }
  }
}
