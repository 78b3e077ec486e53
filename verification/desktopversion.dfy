/** Docker Desktop version detection from the stdout of `reg query` and
  * `wmic datafile ... get version` (`get_docker_desktop_version` in
  * docker.rs). The processes themselves are not modelled: each command is
  * represented by `Some(stdout)` when it ran and exited successfully, and by
  * `None` otherwise. */
module DesktopVersion {
  import opened Wrappers
  import opened Strings

  /** The registry value name searched for in the `reg` output. */
  const RegistryKey: string := "CurrentVersion"

  /** The property searched for in the `wmic` output. */
  const WmicKey: string := "Version="

  /** The number of dot-separated components a reported version keeps. */
  const KeptComponents: nat := 3

  /** `v.split('.').take(3).join(".")`: keep the first three components. */
  function TruncateVersion(v: string): (r: string)
    ensures Split(r, ".") == Split(v, ".")[..Min(|Split(v, ".")|, KeptComponents)]
    ensures r <= v
  {
    var parts := Split(v, ".");
    var kept := parts[..Min(|parts|, KeptComponents)];
    SplitPiecesFree(v, ".");
    SingleCharBorderFree('.');
    SplitJoin(kept, ".");
    JoinTakePrefix(parts, |kept|, ".");
    Join(kept, ".")
  }

  /** Joining the first `n` parts gives a prefix of joining them all. */
  lemma {:induction false} JoinTakePrefix(parts: seq<string>, n: nat, sep: string)
    requires 1 <= n <= |parts|
    ensures Join(parts[..n], sep) <= Join(parts, sep)
    decreases |parts|
  {
    if n == |parts| {
      assert parts[..n] == parts;
    } else if n == 1 {
      assert Join(parts[..1], sep) == parts[0];
      assert Join(parts, sep) == parts[0] + (sep + Join(parts[1..], sep));
    } else {
      JoinTakePrefix(parts[1..], n - 1, sep);
      assert parts[..n][1..] == parts[1..][..n - 1];
      assert Join(parts[..n], sep) == parts[0] + sep + Join(parts[1..][..n - 1], sep);
      assert Join(parts, sep) == parts[0] + sep + Join(parts[1..], sep);
    }
  }

  /** A truncated version has at most three components, is non-empty when
    * its input is, and leaves a version of at most three components alone. */
  lemma TruncateVersionShape(v: string)
    ensures |Split(TruncateVersion(v), ".")| <= KeptComponents
    ensures |v| > 0 ==> |TruncateVersion(v)| > 0
    ensures |Split(v, ".")| <= KeptComponents ==> TruncateVersion(v) == v
  {
    var parts := Split(v, ".");
    var r := TruncateVersion(v);
    if |parts| <= KeptComponents {
      assert parts[..|parts|] == parts;
    } else if |v| > 0 {
      var rp := Split(r, ".");
      assert |rp| == KeptComponents;
      assert r == Join(rp, ".");
      assert r == rp[0] + "." + Join(rp[1..], ".");
    }
  }

  /** `key` first occurs on line `i`. */
  predicate FirstAt(lines: seq<string>, key: string, i: int)
  {
    0 <= i < |lines| && Contains(lines[i], key)
    && forall j :: 0 <= j < i ==> !Contains(lines[j], key)
  }

  /** `stdout.lines().find(|l| l.contains(key))`: the first line of the
    * output that mentions `key`. */
  function FirstLineWith(stdout: string, key: string): (line: Option<string>)
    ensures line.None? <==> forall j :: 0 <= j < |Lines(stdout)| ==> !Contains(Lines(stdout)[j], key)
    ensures line.Some? ==> Contains(line.value, key)
    ensures line.Some? ==> exists i :: FirstAt(Lines(stdout), key, i) && Lines(stdout)[i] == line.value
  {
    var lines := Lines(stdout);
    match FindContaining(lines, key)
    case None => None
    case Some(i) =>
      assert FirstAt(lines, key, i);
      Some(lines[i])
  }

  /** Whichever line first mentions the key is the line found. */
  lemma FirstLineAt(stdout: string, key: string, i: nat)
    requires FirstAt(Lines(stdout), key, i)
    ensures FirstLineWith(stdout, key) == Some(Lines(stdout)[i])
  {
    var line := FirstLineWith(stdout, key);
    assert line.Some?;
    var i' :| FirstAt(Lines(stdout), key, i') && Lines(stdout)[i'] == line.value;
    assert i' == i by {
      assert !(i' < i) && !(i < i');
    }
  }

  /** No character of the string is whitespace. */
  predicate IsWord(s: string)
  {
    forall i :: 0 <= i < |s| ==> !IsWhitespace(s[i])
  }

  /** `split_whitespace().last()`: the last word of a line; absent exactly
    * when the line is all whitespace. */
  function LastWord(line: string): (w: Option<string>)
    ensures w.None? <==> forall i :: 0 <= i < |line| ==> IsWhitespace(line[i])
    ensures w.Some? ==> |w.value| > 0 && IsWord(w.value)
    ensures w.Some? ==> exists i :: LastRunAt(line, w.value, i)
  {
    var words := SplitWhitespace(line);
    SplitWhitespaceLast(line);
    if |words| == 0 then None else Some(LastOf(words))
  }

  /** A word with only whitespace after it, and whitespace or the line start
    * before it, is the word found. */
  lemma LastWordAt(line: string, w: string, i: nat)
    requires LastRunAt(line, w, i) && |w| > 0 && IsWord(w)
    ensures LastWord(line) == Some(w)
  {
    assert line[i] == line[i..i + |w|][0] == w[0];
    var found := LastWord(line);
    assert found.Some?;
    var i' :| LastRunAt(line, found.value, i');
    LastRunUnique(line, found.value, i', w, i);
  }

  /** The registry token of the first `CurrentVersion` line; empty when no
    * line mentions the key. */
  function RegistryToken(stdout: string): (t: string)
    ensures FirstLineWith(stdout, RegistryKey).None? ==> t == ""
    ensures FirstLineWith(stdout, RegistryKey).Some? ==>
              t == LineToken(FirstLineWith(stdout, RegistryKey).value)
    ensures IsWord(t)
    ensures |t| == 0 || (t[0] != '"' && t[|t| - 1] != '"')
  {
    match FirstLineWith(stdout, RegistryKey)
    case None => ""
    case Some(line) => LineToken(line)
  }

  /** `split_whitespace().last()` then `.trim_matches('"').trim()`: the last
    * word of the line without its surrounding quotes; empty when the line
    * has no word. */
  function LineToken(line: string): (t: string)
    ensures LastWord(line).None? ==> t == ""
    ensures LastWord(line).Some? ==> t == Trim(TrimChar(LastWord(line).value, '"'))
    ensures IsWord(t)
    ensures |t| == 0 || (t[0] != '"' && t[|t| - 1] != '"')
  {
    match LastWord(line)
    case None => ""
    case Some(w) =>
      var unquoted := TrimChar(w, '"');
      UnquoteWord(w);
      TrimOfWord(unquoted);
      Trim(unquoted)
  }

  /** Removing the quotes around a word leaves a word without surrounding
    * quotes. */
  lemma UnquoteWord(w: string)
    requires IsWord(w)
    ensures var u := TrimChar(w, '"');
            IsWord(u) && (|u| == 0 || (u[0] != '"' && u[|u| - 1] != '"'))
  {
    var t := TrimStartChar(w, '"');
    SliceOfWord(w, |w| - |t|, |w|);
    var u := TrimEndChar(t, '"');
    SliceOfWord(t, 0, |u|);
    if |u| > 0 {
      assert u[0] == t[0];
    }
  }

  lemma SliceOfWord(s: string, lo: nat, hi: nat)
    requires IsWord(s) && lo <= hi <= |s|
    ensures IsWord(s[lo..hi])
  {
    forall i | 0 <= i < hi - lo
      ensures !IsWhitespace(s[lo..hi][i])
    {
      assert s[lo..hi][i] == s[lo + i];
    }
  }

  /** Trimming a string with no whitespace in it changes nothing. */
  lemma TrimOfWord(w: string)
    requires IsWord(w)
    ensures Trim(w) == w
  {
    if |w| > 0 {
      assert !IsWhitespace(w[0]) && !IsWhitespace(w[|w| - 1]);
    }
    TrimUnchanged(w);
  }

  /** The registry path: the token, if non-empty, truncated to three
    * components. */
  function FromRegistry(stdout: string): (r: Option<string>)
    ensures r.Some? <==> |RegistryToken(stdout)| > 0
    ensures r.Some? ==> r.value == TruncateVersion(RegistryToken(stdout))
    ensures r.Some? ==> r.value <= RegistryToken(stdout)
    ensures r.Some? ==> |r.value| > 0 && |Split(r.value, ".")| <= KeptComponents
  {
    var clean := RegistryToken(stdout);
    if |clean| == 0 then None
    else
      TruncateVersionShape(clean);
      Some(TruncateVersion(clean))
  }

  /** `.split('=').nth(1)` of the first `Version=` line, trimmed: the text
    * between its first and second `=`; empty when there is no such line. */
  function WmicToken(stdout: string): (t: string)
    ensures FirstLineWith(stdout, WmicKey).None? ==> t == ""
    ensures FirstLineWith(stdout, WmicKey).Some? ==>
              var pieces := Split(FirstLineWith(stdout, WmicKey).value, "=");
              t == (if |pieces| < 2 then "" else Trim(pieces[1]))
    ensures '=' !in t
    ensures |t| == 0 || (!IsWhitespace(t[0]) && !IsWhitespace(t[|t| - 1]))
  {
    match FirstLineWith(stdout, WmicKey)
    case None => ""
    case Some(line) =>
      var pieces := Split(line, "=");
      if |pieces| < 2 then ""
      else
        SplitPiecesFree(line, "=");
        ContainsChar(pieces[1], '=');
        TrimKeepsOut(pieces[1], '=');
        Trim(pieces[1])
  }

  /** Trimming never introduces a character. */
  lemma TrimKeepsOut(s: string, c: char)
    requires c !in s
    ensures c !in Trim(s)
  {
    var t := TrimStart(s);
    SliceKeepsOut(s, |s| - |t|, |s|, c);
    var e := TrimEnd(t);
    SliceKeepsOut(t, 0, |e|, c);
  }

  /** A slice has no character its sequence lacks. */
  lemma SliceKeepsOut(s: string, lo: nat, hi: nat, c: char)
    requires lo <= hi <= |s| && c !in s
    ensures c !in s[lo..hi]
  {
    forall i | 0 <= i < hi - lo
      ensures s[lo..hi][i] != c
    {
      assert s[lo..hi][i] == s[lo + i];
    }
  }

  /** The `wmic` path: the token, if non-empty, truncated to three
    * components. */
  function FromWmic(stdout: string): (r: Option<string>)
    ensures r.Some? <==> |WmicToken(stdout)| > 0
    ensures r.Some? ==> r.value == TruncateVersion(WmicToken(stdout))
    ensures r.Some? ==> r.value <= WmicToken(stdout) && '=' !in r.value
    ensures r.Some? ==> |r.value| > 0 && |Split(r.value, ".")| <= KeptComponents
  {
    var clean := WmicToken(stdout);
    if |clean| == 0 then None
    else
      TruncateVersionShape(clean);
      var r := TruncateVersion(clean);
      assert forall i :: 0 <= i < |r| ==> r[i] == clean[i];
      Some(r)
  }

  /** Removing the quotes around a quoted token gives the token back. */
  lemma UnquoteQuoted(tok: string)
    requires |tok| > 0 && tok[0] != '"' && tok[|tok| - 1] != '"'
    ensures TrimChar("\"" + tok + "\"", '"') == tok
  {
    var q := "\"" + tok + "\"";
    var t := TrimStartChar(q, '"');
    assert q[0] == '"' && q[1] == tok[0];
    assert |q| - |t| == 1;
    assert t == tok + "\"";
    var e := TrimEndChar(t, '"');
    assert t[|t| - 1] == '"' && t[|t| - 2] == tok[|tok| - 1];
    assert |e| == |t| - 1;
    assert e == tok;
  }

  /** Whatever the other lines say, an output whose first `CurrentVersion`
    * line ends in a quoted token, followed only by whitespace, reports that
    * token cut to three components. */
  lemma RegistryVersionOfOutput(lines: seq<string>, i: nat, a: string, tok: string, ws: string)
    requires PlainLines(lines) && FirstAt(lines, RegistryKey, i)
    requires lines[i] == a + " \"" + tok + "\"" + ws
    requires |tok| > 0 && IsWord(tok) && tok[0] != '"' && tok[|tok| - 1] != '"'
    requires forall k :: 0 <= k < |ws| ==> IsWhitespace(ws[k])
    ensures FromRegistry(Join(lines, "\n")) == Some(TruncateVersion(tok))
  {
    var stdout := Join(lines, "\n");
    LinesOfJoin(lines);
    FirstLineAt(stdout, RegistryKey, i);
    var line := lines[i];
    var q := "\"" + tok + "\"";
    QuotedAtEnd(line, a, tok, ws);
    LastWordAt(line, q, |a| + 1);
    UnquoteQuoted(tok);
    TrimOfWord(tok);
    assert LineToken(line) == tok;
  }

  /** The quoted token of such a line is its last word. */
  lemma QuotedAtEnd(line: string, a: string, tok: string, ws: string)
    requires line == a + " \"" + tok + "\"" + ws
    requires IsWord(tok)
    requires forall k :: 0 <= k < |ws| ==> IsWhitespace(ws[k])
    ensures var q := "\"" + tok + "\"";
            LastRunAt(line, q, |a| + 1) && |q| > 0 && IsWord(q)
  {
    var q := "\"" + tok + "\"";
    var i := |a| + 1;
    assert line == (a + " ") + q + ws;
    assert line[i..i + |q|] == q;
    assert line[i - 1] == ' ';
    forall k | i + |q| <= k < |line|
      ensures IsWhitespace(line[k])
    {
      assert line[k] == ws[k - i - |q|];
    }
    forall k | 0 <= k < |q|
      ensures !IsWhitespace(q[k])
    {
      if 0 < k < |q| - 1 {
        assert q[k] == tok[k - 1];
      }
    }
  }

  /** Whatever the other lines say, an output whose first `Version=` line
    * has the fields `fields` between its `=` signs reports the second field,
    * trimmed and cut to three components. */
  lemma WmicVersionOfOutput(lines: seq<string>, i: nat, fields: seq<string>)
    requires PlainLines(lines) && FirstAt(lines, WmicKey, i)
    requires |fields| >= 2 && lines[i] == Join(fields, "=")
    requires forall k :: 0 <= k < |fields| ==> '=' !in fields[k]
    requires |Trim(fields[1])| > 0
    ensures FromWmic(Join(lines, "\n")) == Some(TruncateVersion(Trim(fields[1])))
  {
    var stdout := Join(lines, "\n");
    LinesOfJoin(lines);
    FirstLineAt(stdout, WmicKey, i);
    SingleCharBorderFree('=');
    forall k | 0 <= k < |fields|
      ensures !Contains(fields[k], "=")
    {
      ContainsChar(fields[k], '=');
    }
    SplitJoin(fields, "=");
  }

  /** `get_docker_desktop_version`: the registry first, `wmic` only when the
    * registry yields nothing. */
  function DetectDesktopVersion(reg: Option<string>, wmic: Option<string>): (r: Option<string>)
    ensures reg.Some? && FromRegistry(reg.value).Some? ==> r == FromRegistry(reg.value)
    ensures !(reg.Some? && FromRegistry(reg.value).Some?) ==>
              r == (if wmic.Some? then FromWmic(wmic.value) else None)
    ensures r.Some? ==> |r.value| > 0 && |Split(r.value, ".")| <= KeptComponents
  {
    match reg
    case Some(out) =>
      (match FromRegistry(out)
       case Some(v) => Some(v)
       case None => if wmic.Some? then FromWmic(wmic.value) else None)
    case None => if wmic.Some? then FromWmic(wmic.value) else None
  }
}
