/**
 * The fastparrot `Installer`: which shell, which configuration file, appending the
 * integration block, and taking the blocks out again.  Files are a map from path
 * to content; a path is a key exactly when the file exists.
 */
module FastInstaller {
  import opened Wrappers
  import opened Text
  import opened MarkerBlocks
  import opened ConfigChoice

  const Product := "FastParrot integration"
  const StartMarker := "# " + Product
  const EndMarker := "# End " + Product

  lemma MarkersPlain()
    ensures StartMarker != [] && '\n' !in StartMarker && EndMarker != [] && '\n' !in EndMarker
  {
    assert '\n' !in Product;
  }

  // ---- shell and configuration file ----

  /** The shells fastparrot supports. */
  predicate Supported(shell: string) {
    shell == "bash" || shell == "zsh" || shell == "fish"
  }

  /** `detect_shell`: the file name of `$SHELL` (`/bin/bash` when unset), kept when it is
      a supported shell. */
  function DetectShell(env: Option<string>): string {
    var name := BaseName(match env case Some(p) => p case None => "/bin/bash");
    if Supported(name) then name else "bash"
  }

  /** Always a supported shell: the one `$SHELL` names when it is supported, bash
      otherwise, and bash when `$SHELL` is unset. */
  lemma DetectShellSpec(env: Option<string>)
    ensures Supported(DetectShell(env))
    ensures env.Some? && Supported(BaseName(env.value)) ==> DetectShell(env) == BaseName(env.value)
    ensures env.Some? && !Supported(BaseName(env.value)) ==> DetectShell(env) == "bash"
    ensures env.None? ==> DetectShell(env) == "bash"
  {
    if env.None? {
      assert "/bin/bash" == "/bin" + "/" + "bash";
      BaseNameOf("/bin", "bash");
    }
  }

  /** `get_shell_config_files` */
  function ConfigFiles(shell: string, home: string): seq<string> {
    if shell == "bash" then [PathJoin(home, ".bashrc"), PathJoin(home, ".bash_profile"), PathJoin(home, ".profile")]
    else if shell == "zsh" then [PathJoin(home, ".zshrc"), PathJoin(home, ".zsh_profile"), PathJoin(home, ".profile")]
    else if shell == "fish" then [PathJoin(PathJoin(PathJoin(home, ".config"), "fish"), "config.fish")]
    else []
  }

  /** Exactly the supported shells have configuration files: three for bash and zsh,
      one for fish. */
  lemma ConfigFilesKnown(shell: string, home: string)
    ensures ConfigFiles(shell, home) != [] <==> Supported(shell)
    ensures shell == "bash" || shell == "zsh" ==> |ConfigFiles(shell, home)| == 3
    ensures shell == "fish" ==> |ConfigFiles(shell, home)| == 1
    ensures forall f :: f in ConfigFiles(shell, home) ==> |f| > |home|
  {
  }

  /** The hook script of each supported shell, with the interpreter path and the
      `.fastparrotrc` source line filled in. */
  datatype Hooks = Hooks(bash: string, zsh: string, fish: string)

  /** `_generate_integration_code` */
  function IntegrationCode(shell: string, hooks: Hooks): Result<string, string> {
    if shell == "bash" then Ok(hooks.bash)
    else if shell == "zsh" then Ok(hooks.zsh)
    else if shell == "fish" then Ok(hooks.fish)
    else Err("Unsupported shell: " + shell)
  }

  /** Code exists exactly for the supported shells, which are exactly the ones with a
      configuration file; any other shell is refused with its name in the message. */
  lemma IntegrationCodeSpec(shell: string, home: string, hooks: Hooks)
    ensures IntegrationCode(shell, hooks).Ok? <==> Supported(shell)
    ensures IntegrationCode(shell, hooks).Ok? <==> ConfigFiles(shell, home) != []
    ensures !Supported(shell) ==> IntegrationCode(shell, hooks) == Err("Unsupported shell: " + shell)
  {
  }

  // ---- the content of the configuration file ----

  /** `fastparrot_marker in content` */
  predicate IsInstalled(content: string) {
    Contains(content, StartMarker)
  }

  /** What `uninstall` writes back: every block taken out, then runs of line breaks collapsed. */
  function Uninstalled(content: string): string {
    Collapse(RemoveAllBlocks(content, StartMarker, EndMarker))
  }

  /** What `uninstall` writes back as written: one pass of the pattern, then runs of
      line breaks collapsed. */
  function UninstalledOnce(content: string): string {
    Collapse(RemoveBlocks(content, StartMarker, EndMarker))
  }

  /** Where one pass leaves no block, the single pass and the repeated one write the same. */
  lemma OnePassUninstall(content: string)
    requires !HasBlock(RemoveBlocks(content, StartMarker, EndMarker), StartMarker, EndMarker)
    ensures UninstalledOnce(content) == Uninstalled(content)
  {
    OnePassSuffices(content, StartMarker, EndMarker);
  }

  /** What `install` leaves once it appends: the content cleaned first when it was
      installed, then the block. */
  function Reinstalled(content: string, code: string): string {
    (if IsInstalled(content) then Uninstalled(content) else content) + Block(StartMarker, EndMarker, code)
  }

  /** After `uninstall` no complete block is left, and no run of three line breaks. */
  lemma UninstallRemovesAll(content: string)
    ensures !HasBlock(Uninstalled(content), StartMarker, EndMarker)
    ensures NoTriple(Uninstalled(content))
  {
    MarkersPlain();
    var t := RemoveAllBlocks(content, StartMarker, EndMarker);
    NoBlockLeft(content, StartMarker, EndMarker);
    CollapseBlock(t, StartMarker, EndMarker);
    CollapseNoTriple(t);
  }

  /** Uninstalling keeps every character other than the blocks' and the line breaks. */
  lemma UninstallKeepsText(content: string)
    ensures Squeeze(Uninstalled(content)) == Squeeze(RemoveAllBlocks(content, StartMarker, EndMarker))
  {
    CollapseKeepsText(RemoveAllBlocks(content, StartMarker, EndMarker));
  }

  /** Installing into content without the integration, then uninstalling, gives the
      content back with one blank line added and runs of line breaks collapsed. */
  lemma InstallThenUninstall(content: string, code: string)
    requires !IsInstalled(content) && !Contains(code, EndMarker)
    ensures IsInstalled(Reinstalled(content, code))
    ensures Uninstalled(Reinstalled(content, code)) == Collapse(content + "\n\n")
    ensures UninstalledOnce(Reinstalled(content, code)) == Collapse(content + "\n\n")
  {
    MarkersPlain();
    RemoveAppended(content, code, StartMarker, EndMarker);
    RemoveAllAppended(content, code, StartMarker, EndMarker);
    BlockHasMarker(content, code, StartMarker, EndMarker);
  }

  /** A forced reinstall over one installed block leaves text without the marker
      followed by exactly the new block; uninstalling then leaves no marker at all. */
  lemma ReinstallLeavesOne(content: string, previous: string, code: string)
    requires !IsInstalled(content) && !Contains(previous, EndMarker) && !Contains(code, EndMarker)
    ensures var clean := Collapse(content + "\n\n");
      && Reinstalled(content + Block(StartMarker, EndMarker, previous), code) == clean + Block(StartMarker, EndMarker, code)
      && !IsInstalled(clean)
      && !IsInstalled(Uninstalled(Reinstalled(content + Block(StartMarker, EndMarker, previous), code)))
  {
    MarkersPlain();
    var clean := Collapse(content + "\n\n");
    InstallThenUninstall(content, previous);
    assert !Contains(content + "\n\n", StartMarker) by {
      PlainSuffix(content, StartMarker);
    }
    CollapseNoNew(content + "\n\n", StartMarker);
    InstallThenUninstall(clean, code);
    PlainSuffix(clean, StartMarker);
    CollapseNoNew(clean + "\n\n", StartMarker);
  }

  /** One pass of the pattern, as `uninstall` runs it, can leave a complete block: the
      text around a removed block joins into a new one.  Repeating the pass leaves none. */
  lemma SinglePassLeavesBlock(content: string)
    requires content == "# " + StartMarker + EndMarker + Product + EndMarker
    ensures HasBlock(content, StartMarker, EndMarker)
    ensures RemoveBlocks(content, StartMarker, EndMarker) == StartMarker + EndMarker
    ensures HasBlock(RemoveBlocks(content, StartMarker, EndMarker), StartMarker, EndMarker)
    ensures !HasBlock(Uninstalled(content), StartMarker, EndMarker)
  {
    MarkersPlain();
    var a := "# ";
    assert StartMarker == a + Product;
    assert !IsSpace(Product[0]);
    forall i: nat | i < |a|
      ensures !StartsWith(a[i..] + StartMarker, StartMarker)
    {
      assert (a[i..] + StartMarker)[2 - i] != StartMarker[2 - i];
    }
    assert !Contains(Product + EndMarker, StartMarker) by {
      assert '#' !in Product && Product[0] == 'F';
      NamedMarkers(Product);
    }
    BlockReforms(StartMarker, EndMarker, a, Product);
    UninstallRemovesAll(content);
  }

  /** On that text the single pass `uninstall` runs leaves the integration installed. */
  lemma SinglePassStaysInstalled(content: string)
    requires content == "# " + StartMarker + EndMarker + Product + EndMarker
    ensures UninstalledOnce(content) == StartMarker + EndMarker
    ensures IsInstalled(UninstalledOnce(content))
  {
    MarkersPlain();
    SinglePassLeavesBlock(content);
    var t := StartMarker + EndMarker;
    assert '\n' !in t;
    CollapseFixed(t);
    assert OccursAt(t, StartMarker, 0);
  }

  // ---- the installer ----

  /** Why `install` stopped, or that it finished. */
  datatype Outcome = Installed | NoConfigFile(shell: string) | AlreadyInstalled

  /** `Installer`: the configuration files of the home directory. */
  class Installer {
    const home: string
    var files: map<string, string>

    constructor (home: string, files: map<string, string>)
      ensures this.home == home && this.files == files
    {
      this.home := home;
      this.files := files;
    }

    /** `find_existing_config` */
    method FindExistingConfig(shell: string) returns (r: Option<string>)
      ensures r == Choose(ConfigFiles(shell, home), files.Keys)
    {
      r := FindExisting(ConfigFiles(shell, home), files.Keys);
    }

    /** `uninstall`: the chosen file, when it exists, is rewritten without its blocks;
        otherwise nothing happens. */
    method Uninstall(shell: string)
      modifies this
      ensures var cf := Choose(ConfigFiles(shell, home), old(files).Keys);
        files == if cf.Some? && cf.value in old(files)
                 then old(files)[cf.value := Uninstalled(old(files)[cf.value])]
                 else old(files)
    {
      var found := FindExistingConfig(shell);
      if found.None? || found.value !in files {
        return;
      }
      var path := found.value;
      var cleaned := Collapse(RemoveAllBlocks(files[path], StartMarker, EndMarker));
      files := files[path := cleaned];
    }

    /** `install`: the chosen file is created when missing; an installed file is refused
        without `force` and cleaned first with it; then the block is appended. */
    method Install(shell: string, force: bool, hooks: Hooks) returns (outcome: Outcome)
      modifies this
      ensures var cf := Choose(ConfigFiles(shell, home), old(files).Keys);
        cf.None? ==> outcome == NoConfigFile(shell) && files == old(files)
      ensures var cf := Choose(ConfigFiles(shell, home), old(files).Keys);
        cf.Some? ==>
          var before := if cf.value in old(files) then old(files)[cf.value] else "";
          if IsInstalled(before) && !force then
            outcome == AlreadyInstalled && files == old(files)[cf.value := before]
          else
            && IntegrationCode(shell, hooks).Ok? && outcome == Installed
            && files == old(files)[cf.value := Reinstalled(before, IntegrationCode(shell, hooks).value)]
    {
      var found := FindExistingConfig(shell);
      if found.None? {
        return NoConfigFile(shell);
      }
      var path := found.value;
      Touch(shell, path);
      if Contains(files[path], StartMarker) && !force {
        return AlreadyInstalled;
      }
      outcome := Append(shell, path, hooks);
    }

    /** The chosen file is created, empty, when it does not exist. */
    method Touch(shell: string, path: string)
      requires Choose(ConfigFiles(shell, home), files.Keys) == Some(path)
      modifies this
      ensures files == old(files)[path := if path in old(files) then old(files)[path] else ""]
      ensures Choose(ConfigFiles(shell, home), files.Keys) == Some(path)
    {
      if path !in files {
        ChooseStable(ConfigFiles(shell, home), files.Keys, path);
        assert files[path := ""].Keys == files.Keys + {path};
        files := files[path := ""];
      }
    }

    /** The rest of `install` once the chosen file exists: cleaning it when installed,
        then appending the block. */
    method Append(shell: string, path: string, hooks: Hooks) returns (outcome: Outcome)
      requires Choose(ConfigFiles(shell, home), files.Keys) == Some(path) && path in files
      modifies this
      ensures IntegrationCode(shell, hooks).Ok? && outcome == Installed
      ensures files == old(files)[path := Reinstalled(old(files)[path], IntegrationCode(shell, hooks).value)]
    {
      ChooseSpec(ConfigFiles(shell, home), files.Keys);
      IntegrationCodeSpec(shell, home, hooks);
      if Contains(files[path], StartMarker) {
        Uninstall(shell);
      }
      var code := IntegrationCode(shell, hooks).value;
      files := files[path := files[path] + Block(StartMarker, EndMarker, code)];
      return Installed;
    }
  }
}
