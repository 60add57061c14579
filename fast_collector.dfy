/**
 * The alias collector of the bash/zsh/fish generation: the definition
 * pattern searched through the whole text of a configuration file (so a
 * definition counts wherever it appears, comments included), the fish forms,
 * merging per shell and across shells, expansion without a set of expanded
 * names, and the lookup against the store as it was collected.
 *
 * The file system is a map from path to content that holds the files that
 * exist and can be read; the `*.fish` files of the functions directory are
 * given in the order the directory listing yields them.
 */
module FastCollector {
  import opened Wrappers
  import opened Text
  import opened Dicts
  import opened Aliases
  import opened AliasSyntax
  import opened AliasMatch
  import opened Assignments
  import opened Expansion

  type FileSystem = map<string, string>

  /** `_get_config_files`: the files read for a shell, in order; none for any other shell. */
  function ConfigFiles(shell: string, home: string): (r: seq<string>)
    ensures shell == "bash" ==> r == [PathJoin(home, ".bashrc"), PathJoin(home, ".bash_profile"),
                                      PathJoin(home, ".bash_aliases"), PathJoin(home, ".profile")]
    ensures shell == "zsh" ==> r == [PathJoin(home, ".zshrc"), PathJoin(home, ".zsh_profile"),
                                     PathJoin(home, ".zshenv"), PathJoin(home, ".profile")]
    ensures shell != "bash" && shell != "zsh" ==> r == []
  {
    if shell == "bash" then
      [PathJoin(home, ".bashrc"), PathJoin(home, ".bash_profile"),
       PathJoin(home, ".bash_aliases"), PathJoin(home, ".profile")]
    else if shell == "zsh" then
      [PathJoin(home, ".zshrc"), PathJoin(home, ".zsh_profile"),
       PathJoin(home, ".zshenv"), PathJoin(home, ".profile")]
    else []
  }

  // ---- parsing ----

  /** The name and command of every match, in order. */
  function MatchDefinitions(ms: seq<Match>): (r: seq<Option<(string, string)>>)
    ensures |r| == |ms|
    ensures forall j :: 0 <= j < |ms| ==> r[j] == Some((ms[j].name, ms[j].command))
  {
    seq(|ms|, j requires 0 <= j < |ms| => Some((ms[j].name, ms[j].command)))
  }

  /** The matches of `FindAll` have a well-formed name and command. */
  lemma MatchesWellFormed(pat: Pattern, s: string)
    ensures WellFormed(pat, MatchDefinitions(FindAll(pat, s, 0)))
  {
    var ms := FindAll(pat, s, 0);
    var defs := MatchDefinitions(ms);
    forall j | 0 <= j < |defs| && defs[j].Some?
      ensures ValidNameFor(pat, defs[j].value.0) && ValidCommand(defs[j].value.1)
    {
      FindAllFound(pat, s, 0, j);
      MatchAtValid(pat, s, ms[j].start);
    }
  }

  /** The dictionary the `re.finditer` loop fills from `content`, with every
      entry of the given shell and file. */
  function ParseMatches(pat: Pattern, content: string, shell: string, path: string): (r: Store)
    ensures UniqueKeys(r)
    ensures ParsedFrom(pat, r, shell, path)
  {
    var ms := FindAll(pat, content, 0);
    MatchesWellFormed(pat, content);
    AssignParsedFrom(pat, MatchDefinitions(ms), shell, path);
    Assign(MatchDefinitions(ms), shell, path)
  }

  /** `_parse_bash_zsh_aliases` on the content of the file `path`. */
  function ParseText(content: string, shell: string, path: string): (r: Store)
    ensures UniqueKeys(r) && ParsedFrom(BashForm, r, shell, path)
  {
    ParseMatches(BashForm, content, shell, path)
  }

  /** `_parse_fish_config`: the fish pattern, every entry of shell `fish`. */
  function ParseFishConfig(content: string, path: string): (r: Store)
    ensures UniqueKeys(r) && ParsedFrom(FishForm, r, "fish", path)
  {
    ParseMatches(FishForm, content, "fish", path)
  }

  /** The `for match in re.finditer(...)` loop of both parsers. */
  method ParseAliases(pat: Pattern, content: string, shell: string, path: string) returns (aliases: Store)
    ensures aliases == ParseMatches(pat, content, shell, path)
  {
    var ms := FindAll(pat, content, 0);
    ghost var defs := MatchDefinitions(ms);
    aliases := [];
    var i := 0;
    while i < |ms|
      invariant 0 <= i <= |ms|
      invariant aliases == Assign(defs[..i], shell, path)
    {
      AssignNext(defs, shell, path, i);
      aliases := Put(aliases, ms[i].name, AliasEntry(ms[i].command, shell, path, Alias));
      i := i + 1;
    }
    assert defs[..|ms|] == defs;
  }

  /** The entry of a name comes from the last match that defines it. */
  lemma ParseMatchesLast(pat: Pattern, content: string, shell: string, path: string, k: nat)
    requires k < |FindAll(pat, content, 0)|
    requires forall j :: k < j < |FindAll(pat, content, 0)| ==>
               FindAll(pat, content, 0)[j].name != FindAll(pat, content, 0)[k].name
    ensures var m := FindAll(pat, content, 0)[k];
            Get(ParseMatches(pat, content, shell, path), m.name) == Some(AliasEntry(m.command, shell, path, Alias))
  {
    var ms := FindAll(pat, content, 0);
    var defs := MatchDefinitions(ms);
    forall j | k < j < |defs| ensures defs[j].None? || defs[j].value.0 != ms[k].name {
      assert defs[j] == Some((ms[j].name, ms[j].command));
    }
    AssignLast(defs, shell, path, k, ms[k].name, ms[k].command);
  }

  /** A name no match defines has no entry. */
  lemma ParseMatchesAbsent(pat: Pattern, content: string, shell: string, path: string, name: string)
    requires forall j :: 0 <= j < |FindAll(pat, content, 0)| ==> FindAll(pat, content, 0)[j].name != name
    ensures Get(ParseMatches(pat, content, shell, path), name).None?
  {
    var ms := FindAll(pat, content, 0);
    var defs := MatchDefinitions(ms);
    forall j | 0 <= j < |defs| ensures defs[j].None? || defs[j].value.0 != name {
      assert defs[j] == Some((ms[j].name, ms[j].command));
    }
    AssignAbsent(defs, shell, path, name);
  }

  /** Unlike the line-by-line parser, a definition behind a comment sign (or any
      other single character) counts: the text `#alias name=cmd` defines `name`. */
  lemma CommentedDefinitionCounts(c: char, name: string, q: string, cmd: string, shell: string, path: string)
    requires c != 'a' && ValidName(name) && QuoteMark(q) && ValidCommand(cmd)
    ensures ParseText([c] + Definition(name, q, cmd), shell, path) == [(name, AliasEntry(cmd, shell, path, Alias))]
  {
    var s := [c] + Definition(name, q, cmd);
    var m := Match(1, name, cmd, |s|);
    assert s == [c] + Definition(name, q, cmd) + "";
    MatchDefinition(s, [c], name, q, cmd, "", |s|);
    OnlyMatch(BashForm, s, m);
    assert ParseText(s, shell, path) == Assign(MatchDefinitions([m]), shell, path);
    AssignSingle(name, cmd, shell, path);
  }

  /** A text whose one match starts at its second character and runs to its end. */
  lemma OnlyMatch(pat: Pattern, s: string, m: Match)
    requires |s| > 1 && s[0] != 'a' && m.start == 1 && m.end == |s| && MatchAt(pat, s, 1) == Some(m)
    ensures FindAll(pat, s, 0) == [m]
  {
    assert !KeywordAt(s, 0) && !KeywordAt(s, |s|);
    assert Search(pat, s, 0) == Some(m);
    assert FindAll(pat, s, |s|) == [];
  }

  // ---- fish functions ----

  /** `[line.strip() for line in lines if line.strip()]` */
  function StrippedLines(lines: seq<string>): (r: seq<string>)
    ensures |r| <= |lines|
    ensures forall i :: 0 <= i < |r| ==> r[i] != [] && Trimmed(r[i])
    decreases |lines|
  {
    if lines == [] then []
    else
      var n := |lines| - 1;
      var rest := StrippedLines(lines[..n]);
      var last := Strip(lines[n]);
      StripTrimmed(lines[n]);
      if last != [] then
        var r := rest + [last];
        assert forall i :: 0 <= i < |rest| ==> r[i] == rest[i];
        r
      else rest
  }

  /** Every line that is not blank contributes its stripped form. */
  lemma {:induction false} StrippedLinesComplete(lines: seq<string>, i: nat)
    requires i < |lines| && Strip(lines[i]) != []
    ensures Strip(lines[i]) in StrippedLines(lines)
    decreases |lines|
  {
    var n := |lines| - 1;
    if i < n {
      assert lines[..n][i] == lines[i];
      StrippedLinesComplete(lines[..n], i);
    }
  }

  /** The filter keeps order and multiplicity: it works line by line, and a line is
      kept, stripped, exactly when it is not blank. */
  lemma {:induction false} StrippedLinesConcat(a: seq<string>, b: seq<string>)
    ensures StrippedLines(a + b) == StrippedLines(a) + StrippedLines(b)
    decreases |b|
  {
    if b == [] {
      assert a + b == a;
    } else {
      var n := |b| - 1;
      StrippedLinesConcat(a, b[..n]);
      assert (a + b)[..|a + b| - 1] == a + b[..n];
      assert (a + b)[|a + b| - 1] == b[n];
    }
  }

  lemma StrippedLinesSingle(x: string)
    ensures StrippedLines([x]) == if Strip(x) != [] then [Strip(x)] else []
  {
    assert [x][..0] == [];
  }

  /** The lines that are neither comments nor `end`. */
  function CodeLines(lines: seq<string>): (r: seq<string>)
    ensures |r| <= |lines|
    ensures forall x :: x in r <==> x in lines && !StartsWith(x, "#") && x != "end"
    decreases |lines|
  {
    if lines == [] then []
    else
      var n := |lines| - 1;
      var rest := CodeLines(lines[..n]);
      assert forall l :: l in lines <==> l in lines[..n] || l == lines[n];
      if !StartsWith(lines[n], "#") && lines[n] != "end" then rest + [lines[n]] else rest
  }

  /** The filter keeps order and multiplicity: it works line by line, and a line is
      kept exactly when it is no comment and not `end`. */
  lemma {:induction false} CodeLinesConcat(a: seq<string>, b: seq<string>)
    ensures CodeLines(a + b) == CodeLines(a) + CodeLines(b)
    decreases |b|
  {
    if b == [] {
      assert a + b == a;
    } else {
      var n := |b| - 1;
      CodeLinesConcat(a, b[..n]);
      assert (a + b)[..|a + b| - 1] == a + b[..n];
      assert (a + b)[|a + b| - 1] == b[n];
    }
  }

  lemma CodeLinesSingle(x: string)
    ensures CodeLines([x]) == if !StartsWith(x, "#") && x != "end" then [x] else []
  {
    assert [x][..0] == [];
  }

  /** The code lines of a fish function file. */
  function FunctionBody(content: string): seq<string> {
    CodeLines(StrippedLines(SplitOn(content, '\n')))
  }

  /** `_parse_fish_function`: a file with two to four code lines is one alias-like
      function named after the file, whose command is its second code line;
      any other file yields nothing. */
  function ParseFishFunction(stem: string, content: string, path: string): (r: Store)
    ensures |r| <= 1
    ensures r != [] ==> r[0].0 == stem && r[0].1 == AliasEntry(r[0].1.command, "fish", path, Function)
  {
    var body := FunctionBody(content);
    if 2 <= |body| <= 4 then [(stem, AliasEntry(body[1], "fish", path, Function))] else []
  }

  /** A function file yields an entry exactly when it has two to four code lines, and
      the command is the second of them: stripped, not blank, no comment and not `end`. */
  lemma ParseFishFunctionBody(stem: string, content: string, path: string)
    ensures ParseFishFunction(stem, content, path) != [] <==> 2 <= |FunctionBody(content)| <= 4
    ensures var r := ParseFishFunction(stem, content, path);
            r != [] ==> r[0].1.command == FunctionBody(content)[1] && r[0].1.command != [] &&
                        Trimmed(r[0].1.command) && !StartsWith(r[0].1.command, "#") && r[0].1.command != "end"
  {
    var body := FunctionBody(content);
    if 2 <= |body| <= 4 {
      assert body[1] in body;
    }
  }

  // ---- collecting ----

  /** `_collect_bash_zsh_aliases`: the parse of every readable file, merged in order. */
  function CollectFiles(files: seq<string>, fs: FileSystem, shell: string): (r: Store)
    ensures UniqueKeys(r)
    ensures forall p :: p in r ==> p.1.shell == shell && p.1.sourceFile in files && p.1.kind == Alias
    decreases |files|
  {
    if files == [] then []
    else
      var n := |files| - 1;
      var acc := CollectFiles(files[..n], fs, shell);
      var f := files[n];
      assert forall x :: x in files[..n] ==> x in files;
      if f in fs then
        var parsed := ParseText(fs[f], shell, f);
        UpdateUnique(acc, parsed);
        Update(acc, parsed)
      else acc
  }

  /** The loop of `_collect_bash_zsh_aliases` over the configuration files. */
  method CollectEach(files: seq<string>, fs: FileSystem, shell: string) returns (aliases: Store)
    ensures aliases == CollectFiles(files, fs, shell)
  {
    aliases := [];
    var i := 0;
    while i < |files|
      invariant 0 <= i <= |files|
      invariant aliases == CollectFiles(files[..i], fs, shell)
    {
      assert files[..i + 1][..i] == files[..i];
      var f := files[i];
      if f in fs {
        var parsed := ParseAliases(BashForm, fs[f], shell, f);
        aliases := Update(aliases, parsed);
      }
      i := i + 1;
    }
    assert files[..|files|] == files;
  }

  function FishConfig(home: string): string {
    PathJoin(PathJoin(PathJoin(home, ".config"), "fish"), "config.fish")
  }

  /** The function files' entries merged in listing order, each named after its file's stem. */
  function CollectFunctions(funcs: seq<string>, fs: FileSystem, acc: Store): (r: Store)
    requires UniqueKeys(acc)
    ensures UniqueKeys(r)
    ensures forall p :: p in r ==> p in acc || (p.1.shell == "fish" && p.1.sourceFile in funcs && p.1.kind == Function)
    decreases |funcs|
  {
    if funcs == [] then acc
    else
      var n := |funcs| - 1;
      var prev := CollectFunctions(funcs[..n], fs, acc);
      var f := funcs[n];
      assert forall x :: x in funcs[..n] ==> x in funcs;
      if f in fs then
        var parsed := ParseFishFunction(Stem(BaseName(f)), fs[f], f);
        UpdateUnique(prev, parsed);
        Update(prev, parsed)
      else prev
  }

  /** `_collect_fish_aliases`: `config.fish` first, then the function files. */
  function CollectFishSpec(home: string, fs: FileSystem, funcs: seq<string>): (r: Store)
    ensures UniqueKeys(r)
    ensures forall p :: p in r ==> p.1.shell == "fish"
  {
    CollectFunctions(funcs, fs, FishBase(home, fs))
  }

  /** The aliases of `config.fish`, when it exists, merged into the empty dictionary. */
  function FishBase(home: string, fs: FileSystem): (r: Store)
    ensures UniqueKeys(r)
    ensures forall p :: p in r ==> p.1.shell == "fish"
  {
    var config := FishConfig(home);
    var parsed := if config in fs then ParseFishConfig(fs[config], config) else [];
    UpdateUnique([], parsed);
    Update([], parsed)
  }

  method CollectFish(home: string, fs: FileSystem, funcs: seq<string>) returns (aliases: Store)
    ensures aliases == CollectFishSpec(home, fs, funcs)
  {
    var config := FishConfig(home);
    var parsed: Store := [];
    if config in fs {
      parsed := ParseAliases(FishForm, fs[config], "fish", config);
    }
    aliases := Update([], parsed);
    ghost var base := aliases;
    assert base == FishBase(home, fs);
    var i := 0;
    while i < |funcs|
      invariant 0 <= i <= |funcs|
      invariant aliases == CollectFunctions(funcs[..i], fs, base)
    {
      assert funcs[..i + 1][..i] == funcs[..i];
      var f := funcs[i];
      if f in fs {
        aliases := Update(aliases, ParseFishFunction(Stem(BaseName(f)), fs[f], f));
      }
      i := i + 1;
    }
    assert funcs[..|funcs|] == funcs;
  }

  /** `collect_from_shell`: fish has its own collector; every other shell goes
      through the bash/zsh one, which has no files for an unknown shell. */
  function FromShell(shell: string, home: string, fs: FileSystem, funcs: seq<string>): Store {
    if shell == "fish" then CollectFishSpec(home, fs, funcs)
    else CollectFiles(ConfigFiles(shell, home), fs, shell)
  }

  method CollectFromShell(shell: string, home: string, fs: FileSystem, funcs: seq<string>) returns (aliases: Store)
    ensures aliases == FromShell(shell, home, fs, funcs)
  {
    if shell == "fish" {
      aliases := CollectFish(home, fs, funcs);
    } else {
      aliases := CollectEach(ConfigFiles(shell, home), fs, shell);
    }
  }

  /** An unknown shell contributes no aliases (and raises no error). */
  lemma UnknownShellEmpty(shell: string, home: string, fs: FileSystem, funcs: seq<string>)
    requires shell != "bash" && shell != "zsh" && shell != "fish"
    ensures FromShell(shell, home, fs, funcs) == []
  {
  }

  /** What `collect_all` builds (and then saves): bash's aliases, overwritten by zsh's, overwritten by fish's. */
  function CollectAllSpec(home: string, fs: FileSystem, funcs: seq<string>): Store {
    Update(Update(Update([], FromShell("bash", home, fs, funcs)), FromShell("zsh", home, fs, funcs)),
           FromShell("fish", home, fs, funcs))
  }

  method CollectAll(home: string, fs: FileSystem, funcs: seq<string>) returns (all: Store)
    ensures all == CollectAllSpec(home, fs, funcs)
  {
    all := [];
    var shells := ["bash", "zsh", "fish"];
    var i := 0;
    while i < |shells|
      invariant 0 <= i <= |shells|
      invariant i == 0 ==> all == []
      invariant i == 1 ==> all == Update([], FromShell("bash", home, fs, funcs))
      invariant i == 2 ==> all == Update(Update([], FromShell("bash", home, fs, funcs)), FromShell("zsh", home, fs, funcs))
      invariant i == 3 ==> all == CollectAllSpec(home, fs, funcs)
    {
      var aliases := CollectFromShell(shells[i], home, fs, funcs);
      all := Update(all, aliases);
      i := i + 1;
    }
  }

  /** The last shell that defines a name provides its entry. */
  lemma CollectAllGet(home: string, fs: FileSystem, funcs: seq<string>, name: string)
    ensures var bash := FromShell("bash", home, fs, funcs);
            var zsh := FromShell("zsh", home, fs, funcs);
            var fish := FromShell("fish", home, fs, funcs);
            Get(CollectAllSpec(home, fs, funcs), name) ==
              if name in Keys(fish) then Get(fish, name)
              else if name in Keys(zsh) then Get(zsh, name)
              else Get(bash, name)
  {
    var bash := FromShell("bash", home, fs, funcs);
    var zsh := FromShell("zsh", home, fs, funcs);
    var fish := FromShell("fish", home, fs, funcs);
    GetMerged(bash, zsh, fish, name);
  }

  // ---- expanding a command ----

  /** `_expand_aliases_in_command(command, aliases, max_depth)`: no name is ever
      marked as expanded, so only the depth stops a cycle. */
  function ExpandInCommand(command: string, store: Store, depth: nat): string
    decreases depth
  {
    if depth == 0 then command
    else
      match Step(command, store, {})
      case None => command
      case Some(s) => ExpandInCommand(s.1, store, depth - 1)
  }

  /** The alias names substituted one after the other. */
  function Trace(command: string, store: Store, depth: nat): (t: seq<string>)
    ensures |t| <= depth
    decreases depth
  {
    if depth == 0 then []
    else
      match Step(command, store, {})
      case None => []
      case Some(s) => [s.0] + Trace(s.1, store, depth - 1)
  }

  /** Every substituted name is a stored alias (with repetitions, unlike the newer generation). */
  lemma {:induction false} TraceInStore(command: string, store: Store, depth: nat)
    ensures forall i :: 0 <= i < |Trace(command, store, depth)| ==> Trace(command, store, depth)[i] in Keys(store)
    decreases depth
  {
    if depth > 0 {
      var step := Step(command, store, {});
      if step.Some? {
        StepAlias(command, store, {});
        TraceInStore(step.value.1, store, depth - 1);
        var rest := Trace(step.value.1, store, depth - 1);
        assert forall i :: 1 <= i < |[step.value.0] + rest| ==> ([step.value.0] + rest)[i] == rest[i - 1];
      }
    }
  }

  /** Expansion stops early only where no substitution applies. */
  lemma {:induction false} ExpandComplete(command: string, store: Store, depth: nat)
    requires |Trace(command, store, depth)| < depth
    ensures Step(ExpandInCommand(command, store, depth), store, {}).None?
    decreases depth
  {
    if Step(command, store, {}).Some? {
      var s := Step(command, store, {}).value;
      ExpandUnfold(command, store, depth, s);
      ExpandComplete(s.1, store, depth - 1);
    }
  }

  /** One substitution, seen by the expansion and by its trace. */
  lemma ExpandUnfold(command: string, store: Store, depth: nat, s: (string, string))
    requires depth > 0 && Step(command, store, {}) == Some(s)
    ensures ExpandInCommand(command, store, depth) == ExpandInCommand(s.1, store, depth - 1)
    ensures Trace(command, store, depth) == [s.0] + Trace(s.1, store, depth - 1)
  {
  }

  /** The two-alias cycle runs for the whole depth, substituting `a` and `b` by
      turns, and after ten substitutions is back at `a`. */
  lemma CycleRunsOut()
    ensures var store := [("a", AliasEntry("b", "bash", "rc", Alias)), ("b", AliasEntry("a", "bash", "rc", Alias))];
            ExpandInCommand("a", store, MaxDepth) == "a" &&
            ExpandInCommand("a", store, 1) == "b" &&
            |Trace("a", store, 2)| == 2
  {
    var store := [("a", AliasEntry("b", "bash", "rc", Alias)), ("b", AliasEntry("a", "bash", "rc", Alias))];
    assert Words("a") == ["a"];
    assert Words("b") == ["b"];
    assert Step("a", store, {}) == Some(("a", "b"));
    assert Step("b", store, {}) == Some(("b", "a"));
    CycleTwo(store, MaxDepth);
  }

  lemma {:induction false} CycleTwo(store: Store, n: nat)
    requires Step("a", store, {}) == Some(("a", "b")) && Step("b", store, {}) == Some(("b", "a"))
    requires n % 2 == 0
    ensures ExpandInCommand("a", store, n) == "a"
    decreases n
  {
    if n > 0 {
      assert ExpandInCommand("a", store, n) == ExpandInCommand("b", store, n - 1);
      assert ExpandInCommand("b", store, n - 1) == ExpandInCommand("a", store, n - 2);
      CycleTwo(store, n - 2);
    }
  }

  // ---- lookup ----

  /** `find_alias_for_command`: the command expanded, matched against the store as collected. */
  function AliasFor(command: string, store: Store): Option<(string, AliasEntry)> {
    MostSpecific(ExpandInCommand(command, store, MaxDepth), store)
  }

  /** The alias found is a stored one whose command covers the expanded command. */
  lemma AliasForFound(command: string, store: Store)
    ensures AliasFor(command, store).Some? ==>
              && AliasFor(command, store).value.0 in Keys(store)
              && Covers(AliasFor(command, store).value.1.command, ExpandInCommand(command, store, MaxDepth))
  {
    var expanded := ExpandInCommand(command, store, MaxDepth);
    MostSpecificCorrect(expanded, store);
    if AliasFor(command, store).Some? {
      var k :| IsFirstLongest(expanded, store, k) && AliasFor(command, store).value == store[k];
      KeysIndex(store);
    }
  }

  method FindAliasForCommand(command: string, store: Store) returns (r: Option<(string, AliasEntry)>)
    ensures r == AliasFor(command, store)
  {
    var expanded := ExpandInCommand(command, store, MaxDepth);
    r := FindMostSpecific(expanded, store);
  }
}
