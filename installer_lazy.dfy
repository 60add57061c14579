/**
 * The lazysloth `Installer`: which shell, which configuration file, appending the
 * integration block, and taking the blocks out again.  Files are a map from path
 * to content; a path is a key exactly when the file exists.
 */
module LazyInstaller {
  import opened Wrappers
  import opened Text
  import opened MarkerBlocks
  import opened ConfigChoice
  import opened SlothRC

  const Product := "LazySloth integration"
  const StartMarker := "# " + Product
  const EndMarker := "# End " + Product

  lemma MarkersPlain()
    ensures StartMarker != [] && '\n' !in StartMarker && EndMarker != [] && '\n' !in EndMarker
  {
    assert '\n' !in Product;
  }

  // ---- shell and configuration file ----

  /** `detect_shell`: the file name of `$SHELL` (`/bin/bash` when unset), kept when it is
      a supported shell. */
  function DetectShell(env: Option<string>): string {
    var name := BaseName(match env case Some(p) => p case None => "/bin/bash");
    if name == "bash" || name == "zsh" then name else "bash"
  }

  /** Always a supported shell: zsh exactly when `$SHELL` names zsh, bash otherwise,
      and bash when `$SHELL` is unset. */
  lemma DetectShellSpec(env: Option<string>)
    ensures DetectShell(env) == "bash" || DetectShell(env) == "zsh"
    ensures DetectShell(env) == "zsh" <==> env.Some? && BaseName(env.value) == "zsh"
    ensures env.None? ==> DetectShell(env) == "bash"
  {
    if env.None? {
      assert "/bin/bash" == "/bin" + "/" + "bash";
      BaseNameOf("/bin", "bash");
    }
  }

  /** `get_shell_config_files` */
  function ConfigFiles(shell: string, home: string): seq<string> {
    if shell == "bash" then [PathJoin(home, ".bash_profile"), PathJoin(home, ".bash_profile"), PathJoin(home, ".profile")]
    else if shell == "zsh" then [PathJoin(home, ".zshrc"), PathJoin(home, ".zsh_profile"), PathJoin(home, ".profile")]
    else []
  }

  /** Only bash and zsh have configuration files, three each. */
  lemma ConfigFilesKnown(shell: string, home: string)
    ensures ConfigFiles(shell, home) != [] <==> shell == "bash" || shell == "zsh"
    ensures ConfigFiles(shell, home) != [] ==> |ConfigFiles(shell, home)| == 3
    ensures forall f :: f in ConfigFiles(shell, home) ==> |f| > |home|
  {
  }

  /** The bash list names `.bash_profile` twice and not `.bashrc`; the repeated entry
      never changes which file is chosen. */
  lemma BashListRepeats(home: string, existing: set<string>)
    ensures PathJoin(home, ".bashrc") !in ConfigFiles("bash", home)
    ensures Choose(ConfigFiles("bash", home), existing)
         == Choose([PathJoin(home, ".bash_profile"), PathJoin(home, ".profile")], existing)
  {
    var p := PathJoin(home, ".bash_profile");
    assert |PathJoin(home, ".bashrc")| < |p|;
    assert |PathJoin(home, ".bashrc")| != |PathJoin(home, ".profile")|;
    ChooseRepeat(p, [PathJoin(home, ".profile")], existing);
  }

  /** The hook script of each supported shell, with the interpreter path and the
      `.slothrc` source line filled in. */
  datatype Hooks = Hooks(bash: string, zsh: string)

  /** `_generate_integration_code` */
  function IntegrationCode(shell: string, hooks: Hooks): Result<string, string> {
    if shell == "bash" then Ok(hooks.bash)
    else if shell == "zsh" then Ok(hooks.zsh)
    else Err("Unsupported shell: " + shell + ". Only 'bash' and 'zsh' are supported.")
  }

  /** Every shell that has a configuration file has integration code. */
  lemma ListedShellsHaveCode(shell: string, home: string, hooks: Hooks)
    ensures ConfigFiles(shell, home) != [] <==> IntegrationCode(shell, hooks).Ok?
  {
  }

  // ---- the content of the configuration file ----

  /** `lazysloth_marker in content` */
  predicate IsInstalled(content: string) {
    Contains(content, StartMarker)
  }

  /** What `uninstall` writes back: every block taken out, then runs of line breaks collapsed. */
  function Uninstalled(content: string): string {
    Collapse(RemoveAllBlocks(content, StartMarker, EndMarker))
  }

  /** What `uninstall` writes back as written: one pass of the pattern, then runs of
      line breaks collapsed. */
  function UninstalledOnce(content: string): string {
    Collapse(RemoveBlocks(content, StartMarker, EndMarker))
  }

  /** Where one pass leaves no block, the single pass and the repeated one write the same. */
  lemma OnePassUninstall(content: string)
    requires !HasBlock(RemoveBlocks(content, StartMarker, EndMarker), StartMarker, EndMarker)
    ensures UninstalledOnce(content) == Uninstalled(content)
  {
    OnePassSuffices(content, StartMarker, EndMarker);
  }

  /** What `install` leaves once it appends: the content cleaned first when it was
      installed, then the block. */
  function Reinstalled(content: string, code: string): string {
    (if IsInstalled(content) then Uninstalled(content) else content) + Block(StartMarker, EndMarker, code)
  }

  /** After `uninstall` no complete block is left, and no run of three line breaks. */
  lemma UninstallRemovesAll(content: string)
    ensures !HasBlock(Uninstalled(content), StartMarker, EndMarker)
    ensures NoTriple(Uninstalled(content))
  {
    MarkersPlain();
    var t := RemoveAllBlocks(content, StartMarker, EndMarker);
    NoBlockLeft(content, StartMarker, EndMarker);
    CollapseBlock(t, StartMarker, EndMarker);
    CollapseNoTriple(t);
  }

  /** Uninstalling keeps every character other than the blocks' and the line breaks. */
  lemma UninstallKeepsText(content: string)
    ensures Squeeze(Uninstalled(content)) == Squeeze(RemoveAllBlocks(content, StartMarker, EndMarker))
  {
    CollapseKeepsText(RemoveAllBlocks(content, StartMarker, EndMarker));
  }

  /** Installing into content without the integration, then uninstalling, gives the
      content back with one blank line added and runs of line breaks collapsed. */
  lemma InstallThenUninstall(content: string, code: string)
    requires !IsInstalled(content) && !Contains(code, EndMarker)
    ensures IsInstalled(Reinstalled(content, code))
    ensures Uninstalled(Reinstalled(content, code)) == Collapse(content + "\n\n")
    ensures UninstalledOnce(Reinstalled(content, code)) == Collapse(content + "\n\n")
  {
    MarkersPlain();
    RemoveAppended(content, code, StartMarker, EndMarker);
    RemoveAllAppended(content, code, StartMarker, EndMarker);
    BlockHasMarker(content, code, StartMarker, EndMarker);
  }

  /** A forced reinstall over one installed block leaves text without the marker
      followed by exactly the new block; uninstalling then leaves no marker at all. */
  lemma ReinstallLeavesOne(content: string, previous: string, code: string)
    requires !IsInstalled(content) && !Contains(previous, EndMarker) && !Contains(code, EndMarker)
    ensures var clean := Collapse(content + "\n\n");
      && Reinstalled(content + Block(StartMarker, EndMarker, previous), code) == clean + Block(StartMarker, EndMarker, code)
      && !IsInstalled(clean)
      && !IsInstalled(Uninstalled(Reinstalled(content + Block(StartMarker, EndMarker, previous), code)))
  {
    MarkersPlain();
    var clean := Collapse(content + "\n\n");
    InstallThenUninstall(content, previous);
    assert !Contains(content + "\n\n", StartMarker) by {
      PlainSuffix(content, StartMarker);
    }
    CollapseNoNew(content + "\n\n", StartMarker);
    InstallThenUninstall(clean, code);
    PlainSuffix(clean, StartMarker);
    CollapseNoNew(clean + "\n\n", StartMarker);
  }

  /** One pass of the pattern, as `uninstall` runs it, can leave a complete block: the
      text around a removed block joins into a new one.  Repeating the pass leaves none. */
  lemma SinglePassLeavesBlock(content: string)
    requires content == "# " + StartMarker + EndMarker + Product + EndMarker
    ensures HasBlock(content, StartMarker, EndMarker)
    ensures RemoveBlocks(content, StartMarker, EndMarker) == StartMarker + EndMarker
    ensures HasBlock(RemoveBlocks(content, StartMarker, EndMarker), StartMarker, EndMarker)
    ensures !HasBlock(Uninstalled(content), StartMarker, EndMarker)
  {
    MarkersPlain();
    var a := "# ";
    assert StartMarker == a + Product;
    assert !IsSpace(Product[0]);
    forall i: nat | i < |a|
      ensures !StartsWith(a[i..] + StartMarker, StartMarker)
    {
      assert (a[i..] + StartMarker)[2 - i] != StartMarker[2 - i];
    }
    assert !Contains(Product + EndMarker, StartMarker) by {
      ProductOnce();
    }
    BlockReforms(StartMarker, EndMarker, a, Product);
    UninstallRemovesAll(content);
  }

  lemma ProductOnce()
    ensures !Contains(Product + EndMarker, StartMarker)
  {
    assert '#' !in Product && Product[0] == 'L';
    NamedMarkers(Product);
  }

  /** On that text the single pass `uninstall` runs leaves the integration installed. */
  lemma SinglePassStaysInstalled(content: string)
    requires content == "# " + StartMarker + EndMarker + Product + EndMarker
    ensures UninstalledOnce(content) == StartMarker + EndMarker
    ensures IsInstalled(UninstalledOnce(content))
  {
    MarkersPlain();
    SinglePassLeavesBlock(content);
    var t := StartMarker + EndMarker;
    assert '\n' !in t;
    CollapseFixed(t);
    assert OccursAt(t, StartMarker, 0);
  }

  // ---- the installer ----

  /** Why `install` stopped, or that it finished. */
  datatype Outcome = Installed | NoConfigFile(shell: string) | AlreadyInstalled

  /** `Installer`: the configuration files of the home directory, the runs of
      `_clean_lazysloth_data`, and the `.slothrc` file. */
  class Installer {
    const home: string
    const rc: RcFile
    var files: map<string, string>
    var cleanups: nat

    constructor (home: string, files: map<string, string>, rc: RcFile)
      ensures this.home == home && this.files == files && this.rc == rc && cleanups == 0
    {
      this.home := home;
      this.files := files;
      this.rc := rc;
      cleanups := 0;
    }

    /** `find_existing_config` */
    method FindExistingConfig(shell: string) returns (r: Option<string>)
      ensures r == Choose(ConfigFiles(shell, home), files.Keys)
    {
      r := FindExisting(ConfigFiles(shell, home), files.Keys);
    }

    /** `uninstall`: the chosen file, when it exists, is rewritten without its blocks and
        the learned data is cleaned; otherwise nothing happens. */
    method Uninstall(shell: string)
      modifies this
      ensures var cf := Choose(ConfigFiles(shell, home), old(files).Keys);
        cf.Some? && cf.value in old(files) ==>
          files == old(files)[cf.value := Uninstalled(old(files)[cf.value])] && cleanups == old(cleanups) + 1
      ensures var cf := Choose(ConfigFiles(shell, home), old(files).Keys);
        !(cf.Some? && cf.value in old(files)) ==> files == old(files) && cleanups == old(cleanups)
    {
      var found := FindExistingConfig(shell);
      if found.None? || found.value !in files {
        return;
      }
      var path := found.value;
      var cleaned := Collapse(RemoveAllBlocks(files[path], StartMarker, EndMarker));
      files := files[path := cleaned];
      cleanups := cleanups + 1;
    }

    /** `install`: the chosen file is created when missing; an installed file is refused
        without `force` and cleaned first with it; then the block is appended and the
        `.slothrc` file made to exist. */
    method Install(shell: string, force: bool, hooks: Hooks) returns (outcome: Outcome)
      modifies this, rc
      ensures var cf := Choose(ConfigFiles(shell, home), old(files).Keys);
        cf.None? ==>
          && outcome == NoConfigFile(shell)
          && files == old(files) && cleanups == old(cleanups) && rc.content == old(rc.content)
      ensures var cf := Choose(ConfigFiles(shell, home), old(files).Keys);
        cf.Some? ==>
          var before := if cf.value in old(files) then old(files)[cf.value] else "";
          if IsInstalled(before) && !force then
            && outcome == AlreadyInstalled
            && files == old(files)[cf.value := before] && cleanups == old(cleanups)
            && rc.content == old(rc.content)
          else
            && IntegrationCode(shell, hooks).Ok? && outcome == Installed
            && files == old(files)[cf.value := Reinstalled(before, IntegrationCode(shell, hooks).value)]
            && cleanups == old(cleanups) + (if IsInstalled(before) || force then 1 else 0)
            && rc.content == (if old(rc.content).None? then Some(Render([])) else old(rc.content))
    {
      var found := FindExistingConfig(shell);
      if found.None? {
        return NoConfigFile(shell);
      }
      var path := found.value;
      Touch(shell, path);
      if Contains(files[path], StartMarker) && !force {
        return AlreadyInstalled;
      }
      outcome := Append(shell, path, force, hooks);
    }

    /** The chosen file is created, empty, when it does not exist. */
    method Touch(shell: string, path: string)
      requires Choose(ConfigFiles(shell, home), files.Keys) == Some(path)
      modifies this
      ensures files == old(files)[path := if path in old(files) then old(files)[path] else ""]
      ensures Choose(ConfigFiles(shell, home), files.Keys) == Some(path)
      ensures cleanups == old(cleanups)
    {
      if path !in files {
        ChooseStable(ConfigFiles(shell, home), files.Keys, path);
        assert files[path := ""].Keys == files.Keys + {path};
        files := files[path := ""];
      }
    }

    /** The rest of `install` once the chosen file exists and may be written: cleaning,
        appending the block and making `.slothrc` exist. */
    method Append(shell: string, path: string, force: bool, hooks: Hooks) returns (outcome: Outcome)
      requires Choose(ConfigFiles(shell, home), files.Keys) == Some(path) && path in files
      requires !IsInstalled(files[path]) || force
      modifies this, rc
      ensures IntegrationCode(shell, hooks).Ok? && outcome == Installed
      ensures files == old(files)[path := Reinstalled(old(files)[path], IntegrationCode(shell, hooks).value)]
      ensures cleanups == old(cleanups) + (if IsInstalled(old(files)[path]) || force then 1 else 0)
      ensures rc.content == (if old(rc.content).None? then Some(Render([])) else old(rc.content))
    {
      ChooseSpec(ConfigFiles(shell, home), files.Keys);
      ListedShellsHaveCode(shell, home, hooks);
      if Contains(files[path], StartMarker) {
        Uninstall(shell);
      } else if force {
        cleanups := cleanups + 1;
      }
      var code := IntegrationCode(shell, hooks).value;
      files := files[path := files[path] + Block(StartMarker, EndMarker, code)];
      rc.EnsureExists();
      return Installed;
    }
  }
}
