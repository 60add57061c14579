/**
 * The two alias-definition regular expressions of the collectors, written as
 * explicit scanners with the backtracking behaviour of Python's `re`:
 *
 *   bash/zsh:  alias\s+([^=\s]+)=(['"]?)([^'"\n]+)\2
 *   fish:      alias\s+([^\s]+)\s+(['"]?)([^'"\n]+)\2
 *
 * At a given start position the bash/zsh pattern can match in only one way:
 * `\s+` and the name class never give characters back usefully, and after
 * an opening quote the command run must be followed by the same quote. The
 * fish pattern's second `\s+` does give whitespace back to the command class
 * (which admits every whitespace character but the newline), so the scanner
 * retries with one whitespace character fewer at a time.
 */
module AliasSyntax {
  import opened Wrappers
  import opened Text

  /** `[^=\s]` */
  predicate NameChar(c: char) {
    c != '=' && !IsSpace(c)
  }

  /** `[^\s]` */
  predicate FishNameChar(c: char) {
    !IsSpace(c)
  }

  /** `[^'"\n]` */
  predicate CommandChar(c: char) {
    c != '\'' && c != '"' && c != '\n'
  }

  predicate IsQuote(c: char) {
    c == '\'' || c == '"'
  }

  predicate ValidName(s: string) {
    s != [] && forall i :: 0 <= i < |s| ==> NameChar(s[i])
  }

  predicate ValidFishName(s: string) {
    s != [] && forall i :: 0 <= i < |s| ==> FishNameChar(s[i])
  }

  predicate ValidCommand(s: string) {
    s != [] && forall i :: 0 <= i < |s| ==> CommandChar(s[i])
  }

  /** Which of the two patterns. */
  datatype Pattern = BashForm | FishForm

  predicate ValidNameFor(pat: Pattern, s: string) {
    if pat == BashForm then ValidName(s) else ValidFishName(s)
  }

  /** One match: where it starts, group 1, group 3, and where it ends. */
  datatype Match = Match(start: nat, name: string, command: string, end: nat)

  /** Length of the run of characters satisfying `p` from position `i` (see `SpanRun`). */
  function Span(s: string, i: nat, p: char -> bool): (n: nat)
    requires i <= |s|
    ensures i + n <= |s|
    decreases |s| - i
  {
    if i < |s| && p(s[i]) then 1 + Span(s, i + 1, p) else 0
  }

  /** The run `Span` measures is the longest one: all of it satisfies `p` and the next character does not. */
  lemma {:induction false} SpanRun(s: string, i: nat, p: char -> bool)
    requires i <= |s|
    ensures forall k :: i <= k < i + Span(s, i, p) ==> p(s[k])
    ensures i + Span(s, i, p) == |s| || !p(s[i + Span(s, i, p)])
    decreases |s| - i
  {
    if i < |s| && p(s[i]) {
      SpanRun(s, i + 1, p);
    }
  }

  /** `(['"]?)([^'"\n]+)\2` from position `v`: the command and the end position. */
  function ValueAt(s: string, v: nat): (r: Option<(string, nat)>)
    requires v <= |s|
    ensures r.Some? ==> v < r.value.1 <= |s|
  {
    if v < |s| && IsQuote(s[v]) then
      var c := Span(s, v + 1, CommandChar);
      if c > 0 && v + 1 + c < |s| && s[v + 1 + c] == s[v]
      then Some((s[v + 1..v + 1 + c], v + 2 + c))
      else None
    else
      var c := Span(s, v, CommandChar);
      if c > 0 then Some((s[v..v + c], v + c)) else None
  }

  /** The command `ValueAt` finds is a nonempty run of the command class. */
  lemma ValueAtValid(s: string, v: nat)
    requires v <= |s|
    ensures ValueAt(s, v).Some? ==> ValidCommand(ValueAt(s, v).value.0)
  {
    if v < |s| && IsQuote(s[v]) {
      SpanRun(s, v + 1, CommandChar);
      RunSlice(s, v + 1, v + 1 + Span(s, v + 1, CommandChar), CommandChar);
    } else {
      SpanRun(s, v, CommandChar);
      RunSlice(s, v, v + Span(s, v, CommandChar), CommandChar);
    }
  }

  /** A run of characters satisfying `p`, taken as a slice. */
  lemma RunSlice(s: string, a: nat, b: nat, p: char -> bool)
    requires a <= b <= |s| && forall k :: a <= k < b ==> p(s[k])
    ensures forall j :: 0 <= j < b - a ==> p(s[a..b][j])
  {
  }

  /** The fish pattern's second `\s+` took `k` whitespace characters after position `p`. */
  function FishValue(s: string, p: nat, k: nat): (r: Option<(string, nat)>)
    requires p + k <= |s|
    ensures r.Some? ==> p < r.value.1 <= |s|
    decreases k
  {
    if k == 0 then None
    else
      match ValueAt(s, p + k)
      case Some(r) => Some(r)
      case None => FishValue(s, p, k - 1)
  }

  /** The command `FishValue` finds is one that `ValueAt` found. */
  lemma {:induction false} FishValueValid(s: string, p: nat, k: nat)
    requires p + k <= |s|
    ensures FishValue(s, p, k).Some? ==> ValidCommand(FishValue(s, p, k).value.0)
    decreases k
  {
    if k > 0 {
      ValueAtValid(s, p + k);
      FishValueValid(s, p, k - 1);
    }
  }

  /** The literal `alias` of both patterns starts at position `i`. */
  predicate KeywordAt(s: string, i: nat) {
    i + 5 <= |s| && s[i] == 'a' && s[i + 1] == 'l' && s[i + 2] == 'i' && s[i + 3] == 'a' && s[i + 4] == 's'
  }

  /** The pattern tried at position `i` (what `re.match` would do there). */
  function MatchAt(pat: Pattern, s: string, i: nat): (r: Option<Match>)
    requires i <= |s|
    ensures r.Some? ==> r.value.start == i && i < r.value.end <= |s|
  {
    if !KeywordAt(s, i) then None
    else
      var w := Span(s, i + 5, IsSpace);
      if w == 0 then None
      else if pat == BashForm then BashRest(s, i, i + 5 + w)
      else FishRest(s, i, i + 5 + w)
  }

  /** `([^=\s]+)=(['"]?)([^'"\n]+)\2` from position `q`, in a match that starts at `i`. */
  function BashRest(s: string, i: nat, q: nat): (r: Option<Match>)
    requires i < q <= |s|
    ensures r.Some? ==> r.value.start == i && q < r.value.end <= |s|
  {
    var n := Span(s, q, NameChar);
    if n == 0 || q + n == |s| || s[q + n] != '=' then None
    else Named(i, s[q..q + n], ValueAt(s, q + n + 1))
  }

  /** `([^\s]+)\s+(['"]?)([^'"\n]+)\2` from position `q`, in a match that starts at `i`. */
  function FishRest(s: string, i: nat, q: nat): (r: Option<Match>)
    requires i < q <= |s|
    ensures r.Some? ==> r.value.start == i && q < r.value.end <= |s|
  {
    var n := Span(s, q, FishNameChar);
    var w := Span(s, q + n, IsSpace);
    if n == 0 || w == 0 then None
    else Named(i, s[q..q + n], FishValue(s, q + n, w))
  }

  /** The match made of a start, a name and the command part found after it. */
  function Named(i: nat, name: string, value: Option<(string, nat)>): (r: Option<Match>)
    ensures r.Some? <==> value.Some?
    ensures r.Some? ==> r.value == Match(i, name, value.value.0, value.value.1)
  {
    match value
    case None => None
    case Some(v) => Some(Match(i, name, v.0, v.1))
  }

  /** A match's name is a run of the name class and its command a run of the command class. */
  lemma MatchAtValid(pat: Pattern, s: string, i: nat)
    requires i <= |s|
    ensures MatchAt(pat, s, i).Some? ==>
      ValidNameFor(pat, MatchAt(pat, s, i).value.name) && ValidCommand(MatchAt(pat, s, i).value.command)
  {
    if KeywordAt(s, i) && Span(s, i + 5, IsSpace) > 0 {
      var q := i + 5 + Span(s, i + 5, IsSpace);
      if pat == BashForm {
        BashRestValid(s, i, q);
      } else {
        FishRestValid(s, i, q);
      }
    }
  }

  lemma BashRestValid(s: string, i: nat, q: nat)
    requires i < q <= |s|
    ensures BashRest(s, i, q).Some? ==>
      ValidName(BashRest(s, i, q).value.name) && ValidCommand(BashRest(s, i, q).value.command)
  {
    var n := Span(s, q, NameChar);
    SpanRun(s, q, NameChar);
    RunSlice(s, q, q + n, NameChar);
    if q + n < |s| {
      ValueAtValid(s, q + n + 1);
    }
  }

  lemma FishRestValid(s: string, i: nat, q: nat)
    requires i < q <= |s|
    ensures FishRest(s, i, q).Some? ==>
      ValidFishName(FishRest(s, i, q).value.name) && ValidCommand(FishRest(s, i, q).value.command)
  {
    var n := Span(s, q, FishNameChar);
    SpanRun(s, q, FishNameChar);
    RunSlice(s, q, q + n, FishNameChar);
    FishValueValid(s, q + n, Span(s, q + n, IsSpace));
  }

  /** `re.search` from position `i`: the leftmost match. */
  function Search(pat: Pattern, s: string, i: nat): (r: Option<Match>)
    requires i <= |s|
    ensures r.Some? ==> i <= r.value.start < r.value.end <= |s|
    decreases |s| - i
  {
    var m := MatchAt(pat, s, i);
    if m.Some? then m
    else if i == |s| then None
    else Search(pat, s, i + 1)
  }

  /** What `Search` returns is what the pattern matches where the match starts. */
  lemma {:induction false} SearchFound(pat: Pattern, s: string, i: nat)
    requires i <= |s|
    ensures Search(pat, s, i).Some? ==> MatchAt(pat, s, Search(pat, s, i).value.start) == Search(pat, s, i)
    decreases |s| - i
  {
    if MatchAt(pat, s, i).None? && i < |s| {
      SearchFound(pat, s, i + 1);
    }
  }

  /** The match `Search` returns is the leftmost one, and when it finds none there is none. */
  lemma {:induction false} SearchLeftmost(pat: Pattern, s: string, i: nat, j: nat)
    requires i <= j <= |s|
    ensures Search(pat, s, i).Some? && j < Search(pat, s, i).value.start ==> MatchAt(pat, s, j).None?
    ensures Search(pat, s, i).None? ==> MatchAt(pat, s, j).None?
    decreases |s| - i
  {
    if MatchAt(pat, s, i).None? && i < |s| && i < j {
      SearchLeftmost(pat, s, i + 1, j);
    }
  }

  /** `re.finditer` from position `i`: leftmost matches, each search resuming where the last match ended. */
  function FindAll(pat: Pattern, s: string, i: nat): (r: seq<Match>)
    requires i <= |s|
    ensures forall k :: 0 <= k < |r| ==> i <= r[k].start < r[k].end <= |s|
    ensures forall k :: 0 <= k < |r| - 1 ==> r[k].end <= r[k + 1].start
    decreases |s| - i
  {
    var m := Search(pat, s, i);
    if m.None? then []
    else
      var rest := FindAll(pat, s, m.value.end);
      assert forall k :: 0 <= k < |rest| ==> ([m.value] + rest)[k + 1] == rest[k];
      [m.value] + rest
  }

  /** Every match `FindAll` reports is what the pattern matches at its start position. */
  lemma {:induction false} FindAllFound(pat: Pattern, s: string, i: nat, k: nat)
    requires i <= |s| && k < |FindAll(pat, s, i)|
    ensures MatchAt(pat, s, FindAll(pat, s, i)[k].start) == Some(FindAll(pat, s, i)[k])
    decreases |s| - i
  {
    var m := Search(pat, s, i).value;
    var rest := FindAll(pat, s, m.end);
    assert FindAll(pat, s, i) == [m] + rest;
    if k > 0 {
      FindAllFound(pat, s, m.end, k - 1);
    } else {
      SearchFound(pat, s, i);
    }
  }

  /** A run of characters satisfying `p`, ended by one that does not (or by the end), is what `Span` measures. */
  lemma {:induction false} SpanOf(pre: string, w: string, post: string, p: char -> bool)
    requires forall k :: 0 <= k < |w| ==> p(w[k])
    requires post == [] || !p(post[0])
    ensures Span(pre + w + post, |pre|, p) == |w|
    decreases |w|
  {
    var s := pre + w + post;
    if w == [] {
      assert s == pre + post;
      if post != [] {
        assert s[|pre|] == post[0];
      }
    } else {
      assert s[|pre|] == w[0];
      assert s == (pre + [w[0]]) + w[1..] + post;
      SpanOf(pre + [w[0]], w[1..], post, p);
    }
  }

  /** The quote characters a definition may put around its command: none, `'` or `"`. */
  predicate QuoteMark(q: string) {
    q == "" || q == "'" || q == "\""
  }

  /** The command part parses back after any prefix, up to its closing quote. */
  lemma ValueOf(s: string, pre: string, q: string, cmd: string, rest: string, e: nat)
    requires QuoteMark(q) && ValidCommand(cmd)
    requires q == "" ==> rest == [] || !CommandChar(rest[0])
    requires s == pre + q + cmd + q + rest && e == |pre| + 2 * |q| + |cmd|
    ensures ValueAt(s, |pre|) == Some((cmd, e))
  {
    if q == "" {
      assert s == pre + cmd + rest;
      assert s[|pre|] == cmd[0];
      SpanOf(pre, cmd, rest, CommandChar);
      assert s[|pre|..|pre| + |cmd|] == cmd;
    } else {
      assert s[|pre|] == q[0];
      assert s == (pre + q) + cmd + (q + rest);
      SpanOf(pre + q, cmd, q + rest, CommandChar);
      assert s[|pre| + 1 + |cmd|] == q[0];
      assert s[|pre| + 1..|pre| + 1 + |cmd|] == cmd;
    }
  }

  /** The bash/zsh pattern at position `i`, from the positions of its parts. */
  lemma MatchAtBash(s: string, i: nat, name: string, v: nat, cmd: string, e: nat)
    requires i + 6 + |name| < v <= |s|
    requires KeywordAt(s, i) && Span(s, i + 5, IsSpace) == 1
    requires Span(s, i + 6, NameChar) == |name| && s[i + 6..i + 6 + |name|] == name
    requires name != [] && v == i + 7 + |name| && s[v - 1] == '='
    requires ValueAt(s, v) == Some((cmd, e))
    ensures MatchAt(BashForm, s, i) == Some(Match(i, name, cmd, e))
  {
    assert BashRest(s, i, i + 6) == Some(Match(i, name, cmd, e));
  }

  /** `alias name=cmd`, with the command between the quote marks `q`. */
  function Definition(name: string, q: string, cmd: string): string {
    "alias " + name + "=" + q + cmd + q
  }

  /** `alias name cmd` in fish syntax, with the command between the quote marks `q`. */
  function FishDefinition(name: string, q: string, cmd: string): string {
    "alias " + name + " " + q + cmd + q
  }

  /** The start of a definition after `pre`: the keyword, one space, and a name that `tail` ends. */
  lemma HeadOf(pre: string, name: string, tail: string, p: char -> bool)
    requires name != [] && !IsSpace(name[0]) && forall k :: 0 <= k < |name| ==> p(name[k])
    requires tail != [] && !p(tail[0])
    ensures var s := pre + "alias " + name + tail;
            var i := |pre|;
      && KeywordAt(s, i) && Span(s, i + 5, IsSpace) == 1
      && Span(s, i + 6, p) == |name| && s[i + 6..i + 6 + |name|] == name && s[i + 6 + |name|] == tail[0]
  {
    var s := pre + "alias " + name + tail;
    var i := |pre|;
    assert s[i..i + 5] == "alias";
    assert s == (pre + "alias") + " " + (name + tail);
    assert (name + tail)[0] == name[0];
    SpanOf(pre + "alias", " ", name + tail, IsSpace);
    assert s == (pre + "alias ") + name + tail;
    SpanOf(pre + "alias ", name, tail, p);
    assert s[i + 6 + |name|] == tail[0];
    assert s[i + 6..i + 6 + |name|] == name;
  }

  lemma DefinitionSplit(pre: string, name: string, sep: string, q: string, cmd: string, rest: string)
    ensures pre + ("alias " + name + sep + q + cmd + q) + rest == pre + "alias " + name + (sep + q + cmd + q + rest)
    ensures pre + ("alias " + name + sep + q + cmd + q) + rest == (pre + "alias " + name + sep) + q + cmd + q + rest
  {
  }

  /** A definition written `alias name=cmd`, `alias name='cmd'` or `alias name="cmd"`
      after any text `pre` is matched where it starts, with the name and the command it holds. */
  lemma MatchDefinition(s: string, pre: string, name: string, q: string, cmd: string, rest: string, e: nat)
    requires ValidName(name) && QuoteMark(q) && ValidCommand(cmd)
    requires q == "" ==> rest == [] || !CommandChar(rest[0])
    requires s == pre + Definition(name, q, cmd) + rest && e == |pre| + |Definition(name, q, cmd)|
    ensures MatchAt(BashForm, s, |pre|) == Some(Match(|pre|, name, cmd, e))
  {
    var head := pre + "alias " + name + "=";
    var tail := "=" + q + cmd + q + rest;
    DefinitionSplit(pre, name, "=", q, cmd, rest);
    assert s == pre + "alias " + name + tail;
    assert s == head + q + cmd + q + rest;
    HeadOf(pre, name, tail, NameChar);
    assert s[|head| - 1] == '=';
    assert |head| + 2 * |q| + |cmd| == e;
    ValueOf(s, head, q, cmd, rest, e);
    MatchAtBash(s, |pre|, name, |head|, cmd, e);
  }

  /** A definition on its own is matched at its start, and it starts with the keyword and a space. */
  lemma MatchDefinitionAlone(name: string, q: string, cmd: string)
    requires ValidName(name) && QuoteMark(q) && ValidCommand(cmd)
    ensures StartsWith(Definition(name, q, cmd), "alias ")
    ensures MatchAt(BashForm, Definition(name, q, cmd), 0) == Some(Match(0, name, cmd, |Definition(name, q, cmd)|))
  {
    var s := Definition(name, q, cmd);
    var pre: string := "";
    assert s == pre + s + pre && |pre| == 0;
    MatchDefinition(s, pre, name, q, cmd, pre, |s|);
    DefinitionStarts(name, q, cmd);
  }

  lemma DefinitionStarts(name: string, q: string, cmd: string)
    ensures StartsWith(Definition(name, q, cmd), "alias ")
  {
    assert Definition(name, q, cmd) == "alias " + (name + "=" + q + cmd + q);
  }

  /** The fish pattern at position `i`, from the positions of its parts (one space before the command). */
  lemma MatchAtFish(s: string, i: nat, name: string, v: nat, cmd: string, e: nat)
    requires i + 6 + |name| < v <= |s|
    requires KeywordAt(s, i) && Span(s, i + 5, IsSpace) == 1
    requires Span(s, i + 6, FishNameChar) == |name| && s[i + 6..i + 6 + |name|] == name
    requires name != [] && v == i + 7 + |name| && Span(s, v - 1, IsSpace) == 1
    requires ValueAt(s, v) == Some((cmd, e))
    ensures MatchAt(FishForm, s, i) == Some(Match(i, name, cmd, e))
  {
    FishValueOne(s, v - 1, cmd, e);
    assert FishRest(s, i, i + 6) == Some(Match(i, name, cmd, e));
  }

  /** With one whitespace character taken, the command is what follows it. */
  lemma FishValueOne(s: string, p: nat, cmd: string, e: nat)
    requires p + 1 <= |s| && ValueAt(s, p + 1) == Some((cmd, e))
    ensures FishValue(s, p, 1) == Some((cmd, e))
  {
  }

  /** A fish definition written `alias name cmd`, `alias name 'cmd'` or `alias name "cmd"`
      after any text `pre` is matched where it starts, with the name and the command it holds. */
  lemma MatchFishDefinition(s: string, pre: string, name: string, q: string, cmd: string, rest: string, e: nat)
    requires ValidFishName(name) && QuoteMark(q) && ValidCommand(cmd)
    requires q == "" ==> !IsSpace(cmd[0]) && (rest == [] || !CommandChar(rest[0]))
    requires s == pre + FishDefinition(name, q, cmd) + rest && e == |pre| + |FishDefinition(name, q, cmd)|
    ensures MatchAt(FishForm, s, |pre|) == Some(Match(|pre|, name, cmd, e))
  {
    var head := pre + "alias " + name + " ";
    var tail := " " + q + cmd + q + rest;
    DefinitionSplit(pre, name, " ", q, cmd, rest);
    assert s == pre + "alias " + name + tail;
    assert s == head + q + cmd + q + rest;
    HeadOf(pre, name, tail, FishNameChar);
    SeparatorSpan(head, q, cmd, rest);
    assert |head| + 2 * |q| + |cmd| == e;
    ValueOf(s, head, q, cmd, rest, e);
    MatchAtFish(s, |pre|, name, |head|, cmd, e);
  }

  /** The single space before a fish command is the whole whitespace run there. */
  lemma SeparatorSpan(pre: string, q: string, cmd: string, rest: string)
    requires pre != [] && pre[|pre| - 1] == ' ' && QuoteMark(q) && cmd != []
    requires q == "" ==> !IsSpace(cmd[0])
    ensures Span(pre + q + cmd + q + rest, |pre| - 1, IsSpace) == 1
  {
    var s := pre + q + cmd + q + rest;
    var value := q + cmd + q + rest;
    assert s == pre[..|pre| - 1] + " " + value;
    assert value[0] == if q == "" then cmd[0] else q[0];
    SpanOf(pre[..|pre| - 1], " ", value, IsSpace);
  }
}
