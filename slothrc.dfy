/** The user's own alias file, `~/.slothrc`: a comment header followed by one
    `alias name="command"` line per alias, in sorted name order. */
module SlothRC {
  import opened Wrappers
  import opened Text
  import opened Dicts

  // ---- reading one line ----

  /** How the command of an alias line was quoted. */
  datatype Quoting = DoubleQuoted | SingleQuoted | Bare

  /** One surrounding pair of matching quotes removed, if there is one
      (a lone quote counts as both ends and leaves nothing). */
  function Unquote(c: string): (r: (string, Quoting))
    ensures r.1 == Bare ==> r.0 == c
    ensures r.1 != Bare ==> |r.0| + 2 == |c| || (|c| == 1 && r.0 == "")
  {
    if |c| >= 1 && c[0] == '"' && c[|c| - 1] == '"' then (if |c| == 1 then "" else c[1..|c| - 1], DoubleQuoted)
    else if |c| >= 1 && c[0] == '\'' && c[|c| - 1] == '\'' then (if |c| == 1 then "" else c[1..|c| - 1], SingleQuoted)
    else (c, Bare)
  }

  /** A stripped line that starts with `alias ` and holds an `=`: the stripped name
      before the first `=`, and the stripped, unquoted command after it. Blank
      lines, comments and every other line give nothing. */
  function SplitLine(raw: string): Option<(string, string, Quoting)> {
    var line := Strip(raw);
    if line == [] || line[0] == '#' || !StartsWith(line, "alias ") then None
    else
      var part := line[6..];
      if '=' !in part then None
      else
        var i := IndexOf(part, '=');
        var u := Unquote(Strip(part[i + 1..]));
        Some((Strip(part[..i]), u.0, u.1))
  }

  /** `command.replace('"', '\\"')`, as the writer escapes a command. */
  function Escape(cmd: string): string {
    ReplaceChar(cmd, '"', "\\\"")
  }

  /** Every `\"` turned back into `"`, scanning from the left. */
  function Unescape(s: string): string {
    if s == [] then []
    else if |s| >= 2 && s[0] == '\\' && s[1] == '"' then "\"" + Unescape(s[2..])
    else [s[0]] + Unescape(s[1..])
  }

  /** The name and command a line defines; `unescape` says whether the `\"` of a
      double-quoted command is turned back into `"`. */
  function ParseLine(raw: string, unescape: bool): Option<(string, string)> {
    match SplitLine(raw)
    case None => None
    case Some(t) => Some((t.0, if unescape && t.2 == DoubleQuoted then Unescape(t.1) else t.1))
  }

  // ---- reading a file ----

  /** The lines of a file; a line ending `\r\n` keeps its `\r`, which `strip` removes. */
  function Lines(text: string): seq<string> {
    SplitOn(text, '\n')
  }

  /** What each line defines, in order. */
  function Entries(lines: seq<string>, unescape: bool): (r: seq<Option<(string, string)>>)
    ensures |r| == |lines|
  {
    seq(|lines|, i requires 0 <= i < |lines| => ParseLine(lines[i], unescape))
  }

  /** The definitions bound in order into `acc`: a later definition of a name
      replaces the earlier one and keeps its place. */
  function Bind(acc: Dict<string>, entries: seq<Option<(string, string)>>): Dict<string>
    decreases |entries|
  {
    if entries == [] then acc
    else
      var n := |entries| - 1;
      BindOne(Bind(acc, entries[..n]), entries[n])
  }

  function BindOne(acc: Dict<string>, entry: Option<(string, string)>): Dict<string> {
    match entry
    case None => acc
    case Some(p) => Put(acc, p.0, p.1)
  }

  /** `_read_aliases` as written: an escaped quote stays escaped. */
  function ReadAsWritten(text: string): Dict<string> {
    Bind([], Entries(Lines(text), false))
  }

  /** `_read_aliases` with the writer's escaping undone. */
  function Read(text: string): Dict<string> {
    Bind([], Entries(Lines(text), true))
  }

  /** The aliases in the file, none when it does not exist. */
  function Stored(content: Option<string>): Dict<string> {
    match content
    case None => []
    case Some(text) => Read(text)
  }

  // ---- writing a file ----

  /** Python's `<=` on strings: code point by code point, a prefix first. */
  predicate LexLeq(a: string, b: string)
    decreases |a|
  {
    a == [] || (b != [] && (a[0] < b[0] || (a[0] == b[0] && LexLeq(a[1..], b[1..]))))
  }

  predicate SortedStrings(s: seq<string>) {
    forall i :: 0 <= i < |s| - 1 ==> LexLeq(s[i], s[i + 1])
  }

  function Insert(x: string, s: seq<string>): (r: seq<string>)
    ensures |r| == |s| + 1 && (r[0] == x || (s != [] && r[0] == s[0]))
  {
    if s == [] || LexLeq(x, s[0]) then [x] + s else [s[0]] + Insert(x, s[1..])
  }

  /** `sorted(names)` */
  function Sort(xs: seq<string>): seq<string> {
    if xs == [] then [] else Insert(xs[0], Sort(xs[1..]))
  }

  /** The four header lines, the last one empty. */
  const Header: seq<string> := [
    "# LazySloth" + " user-defined" + " aliases",
    "# This file is" + " automatically managed" + " by LazySloth",
    "# You can edit it" + " manually, but changes" + " may be overwritten",
    ""]

  /** The command bound to a name the map holds. */
  function CommandOf(d: Dict<string>, name: string): string {
    match Get(d, name)
    case None => ""
    case Some(c) => c
  }

  /** `alias name="command"`, the command's quotes escaped. */
  function AliasLine(name: string, cmd: string): string {
    "alias " + name + "=\"" + Escape(cmd) + "\""
  }

  function AliasLines(d: Dict<string>, names: seq<string>): (r: seq<string>)
    ensures |r| == |names|
  {
    seq(|names|, i requires 0 <= i < |names| => AliasLine(names[i], CommandOf(d, names[i])))
  }

  /** The lines `_write_aliases` writes: the header, the aliases by name, an empty last line. */
  function RenderLines(d: Dict<string>): seq<string> {
    Header + AliasLines(d, Sort(KeyList(d))) + [""]
  }

  /** The file text `_write_aliases` writes. */
  function Render(d: Dict<string>): string {
    JoinOn(RenderLines(d), '\n')
  }

  /** `get_source_line`: the line a shell configuration uses to load the file. */
  function SourceLine(shell: string, path: string): (r: string)
    ensures |r| >= |path| + 7 && r[|r| - |path| - 7..] == "source " + path
    ensures shell == "fish" <==> r == "source " + path
  {
    if shell == "fish" then "source " + path
    else
      var r := "[ -f " + path + " ] && source " + path;
      assert |r| > |"source " + path|;
      r
  }

  // ---- properties ----

  /** A name the file format can carry: no `=`, no line break, no surrounding whitespace. */
  predicate ValidName(name: string) {
    '=' !in name && '\n' !in name && Trimmed(name)
  }

  /** Every alias can be written and read back: valid names, commands on one line. */
  predicate ValidAliases(d: Dict<string>) {
    forall k :: k in Keys(d) ==> ValidName(k) && '\n' !in CommandOf(d, k)
  }

  /** The command as a reader gives it back after writing. */
  function Reread(cmd: string, unescape: bool): string {
    if unescape then cmd else Escape(cmd)
  }

  lemma {:induction false} LexTotal(a: string, b: string)
    ensures LexLeq(a, b) || LexLeq(b, a)
    decreases |a|
  {
    if a != [] && b != [] && a[0] == b[0] {
      LexTotal(a[1..], b[1..]);
    }
  }

  lemma {:induction false} InsertSorted(x: string, s: seq<string>)
    requires SortedStrings(s)
    ensures SortedStrings(Insert(x, s))
    ensures multiset(Insert(x, s)) == multiset(s) + multiset{x}
  {
    InsertPerm(x, s);
    if s != [] && !LexLeq(x, s[0]) {
      LexTotal(x, s[0]);
      SortedTail(s);
      InsertSorted(x, s[1..]);
      ConsSorted(s[0], Insert(x, s[1..]));
    }
  }

  lemma {:induction false} InsertPerm(x: string, s: seq<string>)
    ensures multiset(Insert(x, s)) == multiset(s) + multiset{x}
  {
    if s != [] && !LexLeq(x, s[0]) {
      InsertPerm(x, s[1..]);
      assert Insert(x, s) == [s[0]] + Insert(x, s[1..]);
      assert s == [s[0]] + s[1..];
    }
  }

  lemma SortedTail(s: seq<string>)
    requires s != [] && SortedStrings(s)
    ensures SortedStrings(s[1..])
  {
    forall i | 0 <= i < |s[1..]| - 1 ensures LexLeq(s[1..][i], s[1..][i + 1]) {
      assert s[1..][i] == s[i + 1] && s[1..][i + 1] == s[i + 2];
    }
  }

  lemma ConsSorted(a: string, r: seq<string>)
    requires r != [] && SortedStrings(r) && LexLeq(a, r[0])
    ensures SortedStrings([a] + r)
  {
    forall i | 0 <= i < |r| ensures LexLeq(([a] + r)[i], ([a] + r)[i + 1]) {
      if i > 0 {
        assert ([a] + r)[i] == r[i - 1] && ([a] + r)[i + 1] == r[i];
      }
    }
  }

  /** `sorted` orders the names and keeps every one of them. */
  lemma {:induction false} SortCorrect(xs: seq<string>)
    ensures SortedStrings(Sort(xs))
    ensures multiset(Sort(xs)) == multiset(xs)
  {
    if xs != [] {
      SortCorrect(xs[1..]);
      InsertSorted(xs[0], Sort(xs[1..]));
      assert xs == [xs[0]] + xs[1..];
    }
  }

  lemma {:induction false} IndexOfAt(s: string, c: char, k: nat)
    requires k < |s| && s[k] == c && c !in s[..k]
    ensures IndexOf(s, c) == k
  {
    if k > 0 {
      assert s[0] == s[..k][0];
      assert s[1..][..k - 1] == s[..k][1..];
      IndexOfAt(s[1..], c, k - 1);
    }
  }

  lemma {:induction false} EscapeAvoids(cmd: string, x: char)
    requires x !in cmd && x != '"' && x != '\\'
    ensures x !in Escape(cmd)
  {
    if cmd != [] {
      assert x !in cmd[1..];
      EscapeAvoids(cmd[1..], x);
    }
  }

  lemma EscapeStart(cmd: string)
    ensures Escape(cmd) == [] || Escape(cmd)[0] != '"'
  {
  }

  /** Undoing the escape gives back any command, quotes included. */
  lemma {:induction false} UnescapeEscape(cmd: string)
    ensures Unescape(Escape(cmd)) == cmd
  {
    if cmd != [] {
      var e := Escape(cmd[1..]);
      UnescapeEscape(cmd[1..]);
      EscapeStart(cmd[1..]);
      if cmd[0] == '"' {
        var s := "\\\"" + e;
        assert Escape(cmd) == s;
        assert s[2..] == e;
      } else {
        var s := [cmd[0]] + e;
        assert Escape(cmd) == s;
        assert s[1..] == e;
      }
    }
  }

  /** A written alias line splits back into its name and its escaped command. */
  lemma QuotedShape(e: string)
    ensures Unquote(Strip("\"" + e + "\"")) == (e, DoubleQuoted)
  {
    var v := "\"" + e + "\"";
    assert v[0] == '"' && v[|v| - 1] == '"';
    StripOfTrimmed(v);
    assert v[1..|v| - 1] == e;
  }

  lemma AssignmentShape(name: string, e: string)
    requires '=' !in name
    ensures var part := name + "=\"" + e + "\"";
      && '=' in part && IndexOf(part, '=') == |name|
      && part[..|name|] == name && part[|name| + 1..] == "\"" + e + "\""
  {
    var part := name + "=\"" + e + "\"";
    assert part[|name|] == '=' && part[..|name|] == name;
    IndexOfAt(part, '=', |name|);
    assert part[|name| + 1..] == "\"" + e + "\"";
  }

  lemma LineShape(name: string, e: string)
    ensures var line := "alias " + name + "=\"" + e + "\"";
      && Strip(line) == line && line != [] && line[0] != '#' && StartsWith(line, "alias ")
      && line[6..] == name + "=\"" + e + "\""
  {
    var line := "alias " + name + "=\"" + e + "\"";
    assert line[0] == 'a' && line[|line| - 1] == '"';
    StripOfTrimmed(line);
    assert line[..6] == "alias ";
    assert line[6..] == name + "=\"" + e + "\"";
  }

  /** A written alias line splits back into its name and its escaped command. */
  lemma SplitAliasLine(name: string, cmd: string)
    requires ValidName(name)
    ensures SplitLine(AliasLine(name, cmd)) == Some((name, Escape(cmd), DoubleQuoted))
  {
    var e := Escape(cmd);
    LineShape(name, e);
    AssignmentShape(name, e);
    StripOfTrimmed(name);
    QuotedShape(e);
  }

  /** Reading a written line: the name, and the command or its escaped form. */
  lemma ParseAliasLine(name: string, cmd: string, unescape: bool)
    requires ValidName(name)
    ensures ParseLine(AliasLine(name, cmd), unescape) == Some((name, Reread(cmd, unescape)))
  {
    SplitAliasLine(name, cmd);
    UnescapeEscape(cmd);
  }

  lemma {:induction false} BindConcat(acc: Dict<string>, a: seq<Option<(string, string)>>, b: seq<Option<(string, string)>>)
    ensures Bind(acc, a + b) == Bind(Bind(acc, a), b)
    decreases |b|
  {
    if b == [] {
      assert a + b == a;
    } else {
      var n := |b| - 1;
      BindConcat(acc, a, b[..n]);
      var ab := a + b;
      assert ab[..|ab| - 1] == a + b[..n];
      assert ab[|ab| - 1] == b[n];
      assert Bind(acc, ab) == BindOne(Bind(acc, a + b[..n]), b[n]);
    }
  }

  /** Lines that define nothing leave the map as it was. */
  lemma {:induction false} BindNothing(acc: Dict<string>, entries: seq<Option<(string, string)>>)
    requires forall i :: 0 <= i < |entries| ==> entries[i].None?
    ensures Bind(acc, entries) == acc
    decreases |entries|
  {
    if entries != [] {
      BindNothing(acc, entries[..|entries| - 1]);
    }
  }

  /** A comment line defines nothing. */
  lemma CommentSkipped(line: string, unescape: bool)
    requires line != [] && line[0] == '#' && Trimmed(line)
    ensures ParseLine(line, unescape).None?
  {
    StripOfTrimmed(line);
  }

  /** A comment line, in pieces: starts with `#`, ends in a non-space, no line break. */
  lemma CommentPieces(l: string, a: string, b: string, c: string)
    requires l == a + b + c && a != [] && a[0] == '#' && c != [] && !IsSpace(c[|c| - 1])
    requires '\n' !in a && '\n' !in b && '\n' !in c
    ensures l != [] && l[0] == '#' && Trimmed(l) && '\n' !in l
  {
    assert l[|l| - 1] == c[|c| - 1];
  }

  lemma HeaderClean(h: seq<string>, i: nat)
    requires h == Header && i < |h|
    ensures '\n' !in h[i]
    ensures i < 3 ==> h[i] != [] && h[i][0] == '#' && Trimmed(h[i])
    ensures i == 3 ==> h[i] == ""
  {
    if i == 0 {
      CommentPieces(h[i], "# LazySloth", " user-defined", " aliases");
    } else if i == 1 {
      CommentPieces(h[i], "# This file is", " automatically managed", " by LazySloth");
    } else if i == 2 {
      CommentPieces(h[i], "# You can edit it", " manually, but changes", " may be overwritten");
    }
  }

  lemma HeaderSkipped(h: seq<string>, unescape: bool)
    requires h == Header
    ensures forall i :: 0 <= i < |h| ==> Entries(h, unescape)[i].None?
  {
    forall i | 0 <= i < |h| ensures Entries(h, unescape)[i].None? {
      HeaderClean(h, i);
      if i < 3 {
        CommentSkipped(h[i], unescape);
      }
    }
  }

  /** The definitions a run of written alias lines holds. */
  function AliasEntries(d: Dict<string>, names: seq<string>, unescape: bool): (r: seq<Option<(string, string)>>)
    ensures |r| == |names|
  {
    seq(|names|, i requires 0 <= i < |names| => Some((names[i], Reread(CommandOf(d, names[i]), unescape))))
  }

  lemma AliasLinesParse(d: Dict<string>, names: seq<string>, unescape: bool)
    requires ValidAliases(d)
    requires forall i :: 0 <= i < |names| ==> names[i] in Keys(d)
    ensures Entries(AliasLines(d, names), unescape) == AliasEntries(d, names, unescape)
  {
    forall i | 0 <= i < |names|
      ensures Entries(AliasLines(d, names), unescape)[i] == AliasEntries(d, names, unescape)[i]
    {
      ParseAliasLine(names[i], CommandOf(d, names[i]), unescape);
    }
  }

  lemma AliasLinesClean(d: Dict<string>, names: seq<string>)
    requires ValidAliases(d)
    requires forall i :: 0 <= i < |names| ==> names[i] in Keys(d)
    ensures forall i :: 0 <= i < |names| ==> '\n' !in AliasLines(d, names)[i]
  {
    forall i | 0 <= i < |names| ensures '\n' !in AliasLines(d, names)[i] {
      EscapeAvoids(CommandOf(d, names[i]), '\n');
    }
  }

  /** Binding the definitions of written alias lines binds each written name to its command. */
  lemma {:induction false} BindAliases(acc: Dict<string>, d: Dict<string>, names: seq<string>, unescape: bool, k: string)
    ensures Get(Bind(acc, AliasEntries(d, names, unescape)), k) ==
            if k in names then Some(Reread(CommandOf(d, k), unescape)) else Get(acc, k)
    decreases |names|
  {
    if names != [] {
      var n := |names| - 1;
      var pre := names[..n];
      var es := AliasEntries(d, names, unescape);
      var cmd := Reread(CommandOf(d, names[n]), unescape);
      assert es[..n] == AliasEntries(d, pre, unescape);
      BindAliases(acc, d, pre, unescape, k);
      var b := Bind(acc, es[..n]);
      assert es[n] == Some((names[n], cmd));
      assert Bind(acc, es) == Put(b, names[n], cmd);
      GetPut(b, names[n], cmd, k);
      assert names == pre + [names[n]];
      assert k in names <==> k in pre || k == names[n];
    }
  }

  lemma SortedKeys(d: Dict<string>, k: string)
    ensures forall i :: 0 <= i < |Sort(KeyList(d))| ==> Sort(KeyList(d))[i] in Keys(d)
    ensures k in Sort(KeyList(d)) <==> k in Keys(d)
  {
    var names := Sort(KeyList(d));
    SortCorrect(KeyList(d));
    KeysIndex(d);
    forall i | 0 <= i < |names| ensures names[i] in Keys(d) {
      assert names[i] in multiset(KeyList(d));
    }
    if k in Keys(d) {
      var i :| 0 <= i < |d| && d[i].0 == k;
      assert KeyList(d)[i] == k;
      assert k in multiset(names);
    }
  }

  /** The lines of a written file are the lines written. */
  lemma LinesOfRender(d: Dict<string>)
    requires ValidAliases(d)
    ensures Lines(Render(d)) == RenderLines(d)
  {
    RenderLinesClean(d);
    SplitOfJoin(RenderLines(d), '\n');
  }

  /** No written line holds a line break. */
  lemma RenderLinesClean(d: Dict<string>)
    requires ValidAliases(d)
    ensures |RenderLines(d)| >= 1
    ensures forall i :: 0 <= i < |RenderLines(d)| ==> '\n' !in RenderLines(d)[i]
  {
    var names := Sort(KeyList(d));
    SortedKeys(d, "");
    AliasLinesClean(d, names);
    var h := Header;
    var al := AliasLines(d, names);
    var lines := RenderLines(d);
    assert lines == h + al + [""];
    forall i | 0 <= i < |lines| ensures '\n' !in lines[i] {
      if i < 4 {
        assert lines[i] == h[i];
        HeaderClean(h, i);
      } else if i < 4 + |al| {
        assert lines[i] == al[i - 4];
      }
    }
  }

  /** Lines that define nothing around a run of lines leave only what the run defines. */
  lemma EntriesConcat(a: seq<string>, b: seq<string>, unescape: bool)
    ensures Entries(a + b, unescape) == Entries(a, unescape) + Entries(b, unescape)
  {
  }

  lemma BindFramed(h: seq<string>, body: seq<string>, unescape: bool)
    requires forall i :: 0 <= i < |h| ==> Entries(h, unescape)[i].None?
    ensures Bind([], Entries(h + body + [""], unescape)) == Bind([], Entries(body, unescape))
  {
    var he := Entries(h, unescape);
    var es := Entries(body, unescape);
    var last := Entries([""], unescape);
    EntriesConcat(h + body, [""], unescape);
    EntriesConcat(h, body, unescape);
    assert last[0] == ParseLine("", unescape);
    BindConcat([], he + es, last);
    BindConcat([], he, es);
    BindNothing([], he);
    BindNothing(Bind([], es), last);
  }

  /** Of the written lines only the alias lines define something. */
  lemma BindRenderLines(d: Dict<string>, unescape: bool)
    requires ValidAliases(d)
    ensures Bind([], Entries(RenderLines(d), unescape)) == Bind([], AliasEntries(d, Sort(KeyList(d)), unescape))
  {
    var names := Sort(KeyList(d));
    SortedKeys(d, "");
    AliasLinesParse(d, names, unescape);
    HeaderSkipped(Header, unescape);
    BindFramed(Header, AliasLines(d, names), unescape);
  }

  lemma RereadRender(d: Dict<string>, unescape: bool, k: string)
    requires ValidAliases(d)
    ensures Get(Bind([], Entries(Lines(Render(d)), unescape)), k) ==
            if k in Keys(d) then Some(Reread(CommandOf(d, k), unescape)) else None
  {
    LinesOfRender(d);
    BindRenderLines(d, unescape);
    SortedKeys(d, k);
    BindAliases([], d, Sort(KeyList(d)), unescape, k);
  }

  /** Reading what was written gives back every alias. */
  lemma RoundTrip(d: Dict<string>, k: string)
    requires ValidAliases(d)
    ensures Get(Read(Render(d)), k) == Get(d, k)
  {
    RereadRender(d, true, k);
    GetFound(d, k);
  }

  /** As written, reading back a command that holds a quote gives its escaped form. */
  lemma RereadAsWritten(d: Dict<string>, k: string)
    requires ValidAliases(d)
    ensures Get(ReadAsWritten(Render(d)), k) == match Get(d, k) case None => None case Some(c) => Some(Escape(c))
  {
    RereadRender(d, false, k);
    GetFound(d, k);
  }

  lemma {:induction false} EscapeLonger(cmd: string)
    ensures |Escape(cmd)| >= |cmd|
    ensures '"' in cmd ==> |Escape(cmd)| > |cmd|
  {
    if cmd != [] {
      EscapeLonger(cmd[1..]);
      assert cmd == [cmd[0]] + cmd[1..];
    }
  }

  /** As written, an alias whose command holds a quote does not survive a write
      followed by a read: it comes back with the quote escaped. */
  lemma QuoteLost(d: Dict<string>, name: string, cmd: string)
    requires d == [(name, cmd)] && ValidName(name) && '\n' !in cmd && '"' in cmd
    ensures Get(ReadAsWritten(Render(d)), name) == Some(Escape(cmd))
    ensures Get(ReadAsWritten(Render(d)), name) != Some(cmd)
  {
    assert Keys(d) == {name};
    assert Get(d, name) == Some(cmd);
    RereadAsWritten(d, name);
    EscapeLonger(cmd);
  }

  /** The alias `q` bound to `a"b` is read back as `a\"b`. */
  lemma QuoteLostExample(d: Dict<string>)
    requires d == [("q", "a\"b")]
    ensures Get(ReadAsWritten(Render(d)), "q") != Some("a\"b")
  {
    var c := "a\"b";
    assert c[1] == '"';
    assert Trimmed("q") && '=' !in "q" && '\n' !in "q";
    QuoteLost(d, "q", c);
  }

  /** `add_alias`: the new binding, every other one kept. */
  lemma AddAliasEffect(d: Dict<string>, name: string, cmd: string, k: string)
    requires ValidAliases(d) && ValidName(name) && '\n' !in cmd
    ensures Get(Read(Render(Put(d, name, cmd))), k) == if k == name then Some(cmd) else Get(d, k)
  {
    var e := Put(d, name, cmd);
    forall j | j in Keys(e) ensures ValidName(j) && '\n' !in CommandOf(e, j) {
      GetPut(d, name, cmd, j);
    }
    RoundTrip(e, k);
    GetPut(d, name, cmd, k);
  }

  /** `remove_alias`: the name gone, every other binding kept. */
  lemma RemoveAliasEffect(d: Dict<string>, name: string, k: string)
    requires ValidAliases(d)
    ensures Get(Read(Render(Delete(d, name))), k) == if k == name then None else Get(d, k)
  {
    var e := Delete(d, name);
    forall j | j in Keys(e) ensures ValidName(j) && '\n' !in CommandOf(e, j) {
      GetDelete(d, name, j);
    }
    RoundTrip(e, k);
    GetDelete(d, name, k);
  }

  /** `add_alias` as written, reading the file back without unescaping: the new alias
      comes back escaped, and every other alias one escaping level deeper than before,
      so a command holding a quote changes with every rewrite. */
  lemma AddAliasAsWritten(d: Dict<string>, name: string, cmd: string, k: string)
    requires ValidAliases(d) && ValidName(name) && '\n' !in cmd
    ensures Get(ReadAsWritten(Render(Put(d, name, cmd))), k) ==
      if k == name then Some(Escape(cmd)) else match Get(d, k) case None => None case Some(c) => Some(Escape(c))
    ensures k != name && Get(d, k).Some? && '"' in Get(d, k).value ==>
      Get(ReadAsWritten(Render(Put(d, name, cmd))), k) != Get(d, k)
  {
    var e := Put(d, name, cmd);
    forall j | j in Keys(e) ensures ValidName(j) && '\n' !in CommandOf(e, j) {
      GetPut(d, name, cmd, j);
    }
    RereadAsWritten(e, k);
    GetPut(d, name, cmd, k);
    if Get(d, k).Some? {
      EscapeLonger(Get(d, k).value);
    }
  }

  /** `remove_alias` as written: the name is gone, and every other alias comes back one
      escaping level deeper than before. */
  lemma RemoveAliasAsWritten(d: Dict<string>, name: string, k: string)
    requires ValidAliases(d)
    ensures Get(ReadAsWritten(Render(Delete(d, name))), k) ==
      if k == name then None else match Get(d, k) case None => None case Some(c) => Some(Escape(c))
    ensures k != name && Get(d, k).Some? && '"' in Get(d, k).value ==>
      Get(ReadAsWritten(Render(Delete(d, name))), k) != Get(d, k)
  {
    var e := Delete(d, name);
    forall j | j in Keys(e) ensures ValidName(j) && '\n' !in CommandOf(e, j) {
      GetDelete(d, name, j);
    }
    RereadAsWritten(e, k);
    GetDelete(d, name, k);
    if Get(d, k).Some? {
      EscapeLonger(Get(d, k).value);
    }
  }

  /** `SlothRC`: the alias file at `path`; `content` is `None` while it does not exist. */
  class RcFile {
    const path: string
    var content: Option<string>

    constructor (path: string, content: Option<string>)
      ensures this.path == path && this.content == content
    {
      this.path := path;
      this.content := content;
    }

    /** `_read_aliases`: the file's lines one by one. */
    method ReadAliases() returns (aliases: Dict<string>)
      ensures aliases == Stored(content)
    {
      if content.None? {
        return [];
      }
      var lines := Lines(content.value);
      aliases := [];
      var i := 0;
      while i < |lines|
        invariant 0 <= i <= |lines|
        invariant aliases == Bind([], Entries(lines[..i], true))
      {
        assert Entries(lines[..i + 1], true)[..i] == Entries(lines[..i], true);
        var parsed := ParseLine(lines[i], true);
        if parsed.Some? {
          aliases := Put(aliases, parsed.value.0, parsed.value.1);
        }
        i := i + 1;
      }
      assert lines[..|lines|] == lines;
    }

    /** `get_aliases` */
    method GetAliases() returns (aliases: Dict<string>)
      ensures aliases == Stored(content)
    {
      aliases := ReadAliases();
    }

    /** `_write_aliases`: the header, one line per alias in name order, an empty last line. */
    method WriteAliases(aliases: Dict<string>)
      modifies this
      ensures content == Some(Render(aliases))
    {
      var names := Sort(KeyList(aliases));
      var lines := Header;
      var i := 0;
      while i < |names|
        invariant 0 <= i <= |names|
        invariant lines == Header + AliasLines(aliases, names[..i])
      {
        assert AliasLines(aliases, names[..i + 1]) == AliasLines(aliases, names[..i]) + [AliasLine(names[i], CommandOf(aliases, names[i]))];
        lines := lines + [AliasLine(names[i], CommandOf(aliases, names[i]))];
        i := i + 1;
      }
      assert names[..|names|] == names;
      lines := lines + [""];
      content := Some(JoinOn(lines, '\n'));
    }

    /** `add_alias`: read, bind, write back. */
    method AddAlias(name: string, cmd: string)
      modifies this
      ensures content == Some(Render(Put(Stored(old(content)), name, cmd)))
    {
      var aliases := ReadAliases();
      aliases := Put(aliases, name, cmd);
      WriteAliases(aliases);
    }

    /** `remove_alias`: written back without the name exactly when it was there. */
    method RemoveAlias(name: string) returns (removed: bool)
      modifies this
      ensures removed == (name in Keys(Stored(old(content))))
      ensures removed ==> content == Some(Render(Delete(Stored(old(content)), name)))
      ensures !removed ==> content == old(content)
    {
      var aliases := ReadAliases();
      GetFound(aliases, name);
      if Get(aliases, name).Some? {
        WriteAliases(Delete(aliases, name));
        return true;
      }
      return false;
    }

    /** `ensure_exists`: a missing file is created with the header only. */
    method EnsureExists()
      modifies this
      ensures old(content).None? ==> content == Some(Render([]))
      ensures old(content).Some? ==> content == old(content)
    {
      if content.None? {
        WriteAliases([]);
      }
    }

    /** `get_source_line` */
    function GetSourceLine(shell: string): string {
      SourceLine(shell, path)
    }
  }
}
