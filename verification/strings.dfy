/** String operations of the Rust standard library and of JavaScript that the
    modelled code relies on, over Dafny's `string` (a sequence of Unicode
    scalar values). */
module Strings {
  import opened Wrappers

  /** The smaller of two naturals. */
  function Min(a: nat, b: nat): (m: nat)
    ensures m <= a && m <= b && (m == a || m == b)
  {
    if a <= b then a else b
  }

  /** Rust's `char::is_whitespace`: the Unicode White_Space property. */
  predicate IsWhitespace(c: char)
  {
    || ('\t' <= c <= '\r')
    || c == ' '
    || c == '\U{0085}'
    || c == '\U{00A0}'
    || c == '\U{1680}'
    || ('\U{2000}' <= c <= '\U{200A}')
    || c == '\U{2028}'
    || c == '\U{2029}'
    || c == '\U{202F}'
    || c == '\U{205F}'
    || c == '\U{3000}'
  }

  /** `str::trim_start`: drop the leading whitespace, and only that. */
  function TrimStart(s: string): (r: string)
    ensures |r| <= |s| && r == s[|s| - |r|..]
    ensures forall i :: 0 <= i < |s| - |r| ==> IsWhitespace(s[i])
    ensures |r| == 0 || !IsWhitespace(r[0])
    decreases |s|
  {
    if |s| > 0 && IsWhitespace(s[0]) then TrimStart(s[1..]) else s
  }

  /** `str::trim_end`: drop the trailing whitespace, and only that. */
  function TrimEnd(s: string): (r: string)
    ensures |r| <= |s| && r == s[..|r|]
    ensures forall i :: |r| <= i < |s| ==> IsWhitespace(s[i])
    ensures |r| == 0 || !IsWhitespace(r[|r| - 1])
    decreases |s|
  {
    if |s| > 0 && IsWhitespace(s[|s| - 1]) then TrimEnd(s[..|s| - 1]) else s
  }

  /** `str::trim`. */
  function Trim(s: string): string
  {
    TrimEnd(TrimStart(s))
  }

  /** A string with no whitespace at either end is its own trim. */
  lemma TrimUnchanged(s: string)
    requires |s| == 0 || (!IsWhitespace(s[0]) && !IsWhitespace(s[|s| - 1]))
    ensures TrimStart(s) == s && TrimEnd(s) == s && Trim(s) == s
  {
  }

  /** `str::trim_start_matches(c)` for one character `c`. */
  function TrimStartChar(s: string, c: char): (r: string)
    ensures |r| <= |s| && r == s[|s| - |r|..]
    ensures forall i :: 0 <= i < |s| - |r| ==> s[i] == c
    ensures |r| == 0 || r[0] != c
    decreases |s|
  {
    if |s| > 0 && s[0] == c then TrimStartChar(s[1..], c) else s
  }

  /** `str::trim_end_matches(c)` for one character `c`. */
  function TrimEndChar(s: string, c: char): (r: string)
    ensures |r| <= |s| && r == s[..|r|]
    ensures forall i :: |r| <= i < |s| ==> s[i] == c
    ensures |r| == 0 || r[|r| - 1] != c
    decreases |s|
  {
    if |s| > 0 && s[|s| - 1] == c then TrimEndChar(s[..|s| - 1], c) else s
  }

  /** `str::trim_matches(c)` for one character `c`. */
  function TrimChar(s: string, c: char): string
  {
    TrimEndChar(TrimStartChar(s, c), c)
  }

  /** `sub` occurs in `s` (Rust `str::contains`). */
  predicate Contains(s: string, sub: string)
    decreases |s|
  {
    sub <= s || (|s| > 0 && Contains(s[1..], sub))
  }

  /** `parts.join(sep)`, in Rust and in JavaScript alike. */
  function Join(parts: seq<string>, sep: string): string
    decreases |parts|
  {
    if |parts| == 0 then ""
    else if |parts| == 1 then parts[0]
    else parts[0] + sep + Join(parts[1..], sep)
  }

  /** `s.split(sep)` for a non-empty separator, in Rust and in JavaScript alike:
      occurrences are taken left to right without overlap and empty pieces are
      kept, so splitting the empty string gives one empty piece. */
  function Split(s: string, sep: string): (parts: seq<string>)
    requires |sep| > 0
    ensures |parts| >= 1
    ensures Join(parts, sep) == s
    decreases |s|
  {
    if |s| == 0 then [""]
    else if sep <= s then
      var rest := Split(s[|sep|..], sep);
      JoinAfterEmpty(rest, sep);
      assert s == sep + s[|sep|..];
      [""] + rest
    else
      var rest := Split(s[1..], sep);
      JoinExtendFirst(s[0], rest, sep);
      assert s == [s[0]] + s[1..];
      [[s[0]] + rest[0]] + rest[1..]
  }

  /** An empty first part contributes just the separator. */
  lemma JoinAfterEmpty(rest: seq<string>, sep: string)
    requires |rest| >= 1
    ensures Join([""] + rest, sep) == sep + Join(rest, sep)
  {
    assert ([""] + rest)[1..] == rest;
  }

  /** A character put in front of the first part comes out in front of the join. */
  lemma JoinExtendFirst(c: char, parts: seq<string>, sep: string)
    requires |parts| >= 1
    ensures Join([[c] + parts[0]] + parts[1..], sep) == [c] + Join(parts, sep)
  {
    var q := [[c] + parts[0]] + parts[1..];
    assert q[1..] == parts[1..];
  }

  /** Drops one carriage return at the end of a line. */
  function StripCarriageReturn(line: string): string
  {
    if |line| > 0 && line[|line| - 1] == '\r' then line[..|line| - 1] else line
  }

  /** Rust `str::lines`: the pieces between line feeds, each with one carriage
      return before its line feed removed; a final empty piece (after a
      trailing line feed, or of the empty string) is not a line, and a final
      piece with no line feed after it keeps its carriage return. */
  function Lines(s: string): seq<string>
  {
    LinesOf(Split(s, "\n"))
  }

  /** The lines read from the pieces between line feeds. */
  function LinesOf(pieces: seq<string>): (lines: seq<string>)
    requires |pieces| >= 1
    ensures |lines| == (if |pieces[|pieces| - 1]| == 0 then |pieces| - 1 else |pieces|)
    ensures forall k :: 0 <= k < |pieces| - 1 ==> lines[k] == StripCarriageReturn(pieces[k])
    ensures |pieces[|pieces| - 1]| > 0 ==> lines[|pieces| - 1] == pieces[|pieces| - 1]
  {
    var ended := seq(|pieces| - 1, k requires 0 <= k < |pieces| - 1 => StripCarriageReturn(pieces[k]));
    var last := pieces[|pieces| - 1];
    if |last| == 0 then ended else ended + [last]
  }

  /** Lines that read back unchanged once joined with line feeds: none holds
      a line feed, none but the last ends in a carriage return, and the last
      is not empty. */
  predicate PlainLines(ls: seq<string>)
  {
    |ls| >= 1 && |ls[|ls| - 1]| > 0
    && (forall k :: 0 <= k < |ls| ==> '\n' !in ls[k])
    && forall k :: 0 <= k < |ls| - 1 ==> StripCarriageReturn(ls[k]) == ls[k]
  }

  /** Joining plain lines with line feeds and reading them back gives the
      lines. */
  lemma LinesOfJoin(ls: seq<string>)
    requires PlainLines(ls)
    ensures Lines(Join(ls, "\n")) == ls
  {
    SplitJoinLines(ls);
    LinesOfPlainPieces(ls);
  }

  lemma SplitJoinLines(ls: seq<string>)
    requires |ls| >= 1
    requires forall k :: 0 <= k < |ls| ==> '\n' !in ls[k]
    ensures Split(Join(ls, "\n"), "\n") == ls
  {
    SingleCharBorderFree('\n');
    forall k | 0 <= k < |ls|
      ensures !Contains(ls[k], "\n")
    {
      ContainsChar(ls[k], '\n');
    }
    SplitJoin(ls, "\n");
  }

  lemma LinesOfPlainPieces(ls: seq<string>)
    requires |ls| >= 1 && |ls[|ls| - 1]| > 0
    requires forall k :: 0 <= k < |ls| - 1 ==> StripCarriageReturn(ls[k]) == ls[k]
    ensures LinesOf(ls) == ls
  {
    var lines := LinesOf(ls);
    forall k | 0 <= k < |ls|
      ensures lines[k] == ls[k]
    {
      if k < |ls| - 1 {
        assert lines[k] == StripCarriageReturn(ls[k]);
      }
    }
  }

  /** `lines.iter().position(|l| l.contains(sub))`: the first line containing `sub`. */
  function FindContaining(lines: seq<string>, sub: string): (r: Option<nat>)
    ensures r.Some? ==> r.value < |lines| && Contains(lines[r.value], sub)
    ensures r.Some? ==> forall j :: 0 <= j < r.value ==> !Contains(lines[j], sub)
    ensures r.None? ==> forall j :: 0 <= j < |lines| ==> !Contains(lines[j], sub)
    decreases |lines|
  {
    if |lines| == 0 then None
    else if Contains(lines[0], sub) then Some(0)
    else match FindContaining(lines[1..], sub)
      case None => None
      case Some(k) => Some(k + 1)
  }

  /** Length of the run of non-whitespace characters that starts `s`. */
  function WordLength(s: string): (n: nat)
    ensures n <= |s|
    ensures forall i :: 0 <= i < n ==> !IsWhitespace(s[i])
    ensures n < |s| ==> IsWhitespace(s[n])
    decreases |s|
  {
    if |s| == 0 || IsWhitespace(s[0]) then 0 else 1 + WordLength(s[1..])
  }

  /** Rust `str::split_whitespace`: the maximal runs of non-whitespace characters. */
  function SplitWhitespace(s: string): (words: seq<string>)
    ensures forall k :: 0 <= k < |words| ==> |words[k]| > 0
    ensures forall k, i :: 0 <= k < |words| && 0 <= i < |words[k]| ==> !IsWhitespace(words[k][i])
    decreases |s|
  {
    if |s| == 0 then []
    else if IsWhitespace(s[0]) then SplitWhitespace(s[1..])
    else
      var n := WordLength(s);
      [s[..n]] + SplitWhitespace(s[n..])
  }

  /** `w` sits in `line` at index `i` as its last word: whitespace (or the
      start of the line) before it and nothing but whitespace after it. */
  predicate LastRunAt(line: string, w: string, i: int)
  {
    0 <= i && i + |w| <= |line| && line[i..i + |w|] == w
    && (i == 0 || IsWhitespace(line[i - 1]))
    && forall k :: i + |w| <= k < |line| ==> IsWhitespace(line[k])
  }

  /** The last word of a line. */
  function LastOf(words: seq<string>): string
    requires |words| > 0
  {
    words[|words| - 1]
  }

  /** `split_whitespace()` yields nothing exactly for an all-whitespace string,
      and its last word is the last run of non-whitespace characters. */
  ghost predicate LastWordFacts(s: string)
  {
    (SplitWhitespace(s) == [] <==> forall i :: 0 <= i < |s| ==> IsWhitespace(s[i]))
    && (|SplitWhitespace(s)| > 0 ==> exists i :: LastRunAt(s, LastOf(SplitWhitespace(s)), i))
  }

  lemma {:induction false} SplitWhitespaceLast(s: string)
    ensures LastWordFacts(s)
    decreases |s|
  {
    if |s| == 0 {
    } else if IsWhitespace(s[0]) {
      SplitWhitespaceLast(s[1..]);
      LastAfterBlank(s);
    } else {
      SplitWhitespaceLast(s[WordLength(s)..]);
      LastAfterWord(s);
    }
  }

  lemma LastAfterBlank(s: string)
    requires |s| > 0 && IsWhitespace(s[0]) && LastWordFacts(s[1..])
    ensures LastWordFacts(s)
  {
    var t := s[1..];
    var words := SplitWhitespace(t);
    assert SplitWhitespace(s) == words;
    if |words| > 0 {
      var j :| LastRunAt(t, LastOf(words), j);
      LastRunShift(s, 1, LastOf(words), j);
    } else {
      assert forall i :: 0 < i < |s| ==> s[i] == t[i - 1];
    }
  }

  lemma LastAfterWord(s: string)
    requires |s| > 0 && !IsWhitespace(s[0]) && LastWordFacts(s[WordLength(s)..])
    ensures LastWordFacts(s)
  {
    var n := WordLength(s);
    var t := s[n..];
    var words := SplitWhitespace(t);
    assert SplitWhitespace(s) == [s[..n]] + words;
    if |words| == 0 {
      assert LastOf(SplitWhitespace(s)) == s[..n];
      WordBeforeBlanks(s, n);
    } else {
      var w := LastOf(words);
      assert LastOf(SplitWhitespace(s)) == w;
      var j :| LastRunAt(t, w, j);
      if j == 0 {
        assert !IsWhitespace(w[0]);
      }
      LastRunShift(s, n, w, j);
    }
  }

  /** A word followed only by whitespace is the last word. */
  lemma WordBeforeBlanks(s: string, n: nat)
    requires n <= |s|
    requires forall i :: 0 <= i < |s[n..]| ==> IsWhitespace(s[n..][i])
    ensures LastRunAt(s, s[..n], 0)
  {
    forall k | n <= k < |s|
      ensures IsWhitespace(s[k])
    {
      assert s[k] == s[n..][k - n];
    }
  }

  /** A last word of a suffix that does not start the suffix is a last word
      of the whole string. */
  lemma LastRunShift(s: string, d: nat, w: string, j: int)
    requires d <= |s| && LastRunAt(s[d..], w, j)
    requires j > 0 || d == 0 || IsWhitespace(s[d - 1])
    ensures LastRunAt(s, w, j + d)
  {
    var t := s[d..];
    assert s[j + d..j + d + |w|] == t[j..j + |w|];
    forall k | j + d + |w| <= k < |s|
      ensures IsWhitespace(s[k])
    {
      assert s[k] == t[k - d];
    }
    if j > 0 {
      assert s[j + d - 1] == t[j - 1];
    }
  }

  /** A line has at most one non-empty last word. */
  lemma LastRunUnique(line: string, w1: string, i1: nat, w2: string, i2: nat)
    requires LastRunAt(line, w1, i1) && LastRunAt(line, w2, i2)
    requires |w1| > 0 && |w2| > 0
    requires forall k :: 0 <= k < |w1| ==> !IsWhitespace(w1[k])
    requires forall k :: 0 <= k < |w2| ==> !IsWhitespace(w2[k])
    ensures w1 == w2 && i1 == i2
  {
    RunIsWord(line, w1, i1);
    RunIsWord(line, w2, i2);
    var e1, e2 := i1 + |w1|, i2 + |w2|;
    assert !IsWhitespace(line[e1 - 1]) && !IsWhitespace(line[e2 - 1]);
    assert e1 == e2;
    assert !IsWhitespace(line[i1]) && !IsWhitespace(line[i2]);
    assert i1 == i2;
  }

  /** The characters a word occupies in the line are not whitespace. */
  lemma RunIsWord(line: string, w: string, i: nat)
    requires i + |w| <= |line| && line[i..i + |w|] == w
    requires forall k :: 0 <= k < |w| ==> !IsWhitespace(w[k])
    ensures forall k :: i <= k < i + |w| ==> !IsWhitespace(line[k])
  {
    forall k | i <= k < i + |w|
      ensures !IsWhitespace(line[k])
    {
      assert line[k] == line[i..i + |w|][k - i];
    }
  }

  predicate IsDigit(c: char)
  {
    '0' <= c <= '9'
  }

  predicate AllDigits(s: string)
  {
    forall i :: 0 <= i < |s| ==> IsDigit(s[i])
  }

  function DigitValue(c: char): nat
    requires IsDigit(c)
  {
    c as int - '0' as int
  }

  /** The decimal value of a string of ASCII digits, most significant first. */
  function DigitsValue(s: string): nat
    requires AllDigits(s)
    decreases |s|
  {
    if |s| == 0 then 0 else 10 * DigitsValue(s[..|s| - 1]) + DigitValue(s[|s| - 1])
  }

  function DigitChar(d: nat): (c: char)
    requires d < 10
    ensures IsDigit(c) && DigitValue(c) == d
  {
    ('0' as int + d) as char
  }

  /** JavaScript's `String(n)` for a non-negative integer: its shortest decimal form. */
  function NatToDecimal(n: nat): (s: string)
    ensures |s| > 0 && AllDigits(s)
    ensures DigitsValue(s) == n
    ensures s[0] == '0' ==> s == "0"
    decreases n
  {
    if n < 10 then [DigitChar(n)]
    else
      var s := NatToDecimal(n / 10) + [DigitChar(n % 10)];
      assert s[..|s| - 1] == NatToDecimal(n / 10);
      s
  }

  /** JavaScript `a < b` on strings: lexicographic by character code, a proper
      prefix before its extensions. */
  predicate CodeUnitLess(a: string, b: string)
    decreases |a|
  {
    if |a| == 0 then |b| > 0
    else if |b| == 0 then false
    else if a[0] != b[0] then a[0] < b[0]
    else CodeUnitLess(a[1..], b[1..])
  }

  /** No string is below itself. */
  lemma {:induction false} CodeUnitLessIrreflexive(a: string)
    ensures !CodeUnitLess(a, a)
    decreases |a|
  {
    if |a| > 0 {
      CodeUnitLessIrreflexive(a[1..]);
    }
  }

  /** The string order is transitive. */
  lemma {:induction false} CodeUnitLessTransitive(a: string, b: string, c: string)
    requires CodeUnitLess(a, b) && CodeUnitLess(b, c)
    ensures CodeUnitLess(a, c)
    decreases |a|
  {
    if |a| > 0 && a[0] == b[0] && b[0] == c[0] {
      CodeUnitLessTransitive(a[1..], b[1..], c[1..]);
    }
  }

  /** Two different strings are ordered one way or the other. */
  lemma {:induction false} CodeUnitLessTotal(a: string, b: string)
    requires a != b
    ensures CodeUnitLess(a, b) || CodeUnitLess(b, a)
    decreases |a|
  {
    if |a| > 0 && |b| > 0 && a[0] == b[0] {
      assert a == [a[0]] + a[1..] && b == [b[0]] + b[1..];
      CodeUnitLessTotal(a[1..], b[1..]);
    }
  }

  // ---------------------------------------------------------------------
  // Facts about Contains, Split and Join
  // ---------------------------------------------------------------------

  /** An occurrence of `sub` at any position of `s` is found by Contains. */
  lemma {:induction false} NotContainsAt(s: string, sub: string, i: nat)
    requires i <= |s| && !Contains(s, sub)
    ensures !(sub <= s[i..])
    decreases i
  {
    if i > 0 {
      assert s[1..][i - 1..] == s[i..];
      NotContainsAt(s[1..], sub, i - 1);
    }
  }

  /** A one-character pattern occurs exactly when the character does. */
  lemma {:induction false} ContainsChar(s: string, c: char)
    ensures Contains(s, [c]) <==> c in s
    decreases |s|
  {
    if |s| > 0 {
      ContainsChar(s[1..], c);
      assert s == [s[0]] + s[1..];
    }
  }

  /** A pattern whose first character never occurs in `s` does not occur in `s`. */
  lemma {:induction false} NotContainsFirstChar(s: string, sub: string)
    requires |sub| > 0 && sub[0] !in s
    ensures !Contains(s, sub)
    decreases |s|
  {
    if |s| > 0 {
      assert s[0] != sub[0];
      assert forall c :: c in s[1..] ==> c in s;
      NotContainsFirstChar(s[1..], sub);
    }
  }

  /** No proper suffix of `sep` is also a prefix of it, so two occurrences
      of `sep` can never overlap. */
  predicate BorderFree(sep: string)
  {
    forall n :: 0 < n < |sep| ==> sep[n..] != sep[..|sep| - n]
  }

  /** Split sees the first piece of `p + t` through to the end of `p` when no
      occurrence of the separator starts inside `p`. */
  lemma {:induction false} SplitPrefix(p: string, t: string, sep: string)
    requires |sep| > 0
    requires forall i :: 0 <= i < |p| ==> !(sep <= (p + t)[i..])
    ensures Split(p + t, sep) == [p + Split(t, sep)[0]] + Split(t, sep)[1..]
    decreases |p|
  {
    var st := Split(t, sep);
    assert st == [st[0]] + st[1..];
    if |p| == 0 {
      assert p + t == t;
      assert p + st[0] == st[0];
    } else {
      var s := p + t;
      assert !(sep <= s[0..]);
      assert s[0..] == s;
      forall i | 0 <= i < |p[1..]|
        ensures !(sep <= (p[1..] + t)[i..])
      {
        assert (p[1..] + t)[i..] == s[i + 1..];
      }
      SplitPrefix(p[1..], t, sep);
      SplitPrefixStep(p, t, sep);
    }
  }

  /** A non-empty sequence is its first element before the rest, also
      when another sequence follows. */
  lemma HeadAndRest<T>(a: seq<T>, b: seq<T>)
    requires |a| > 0
    ensures a == [a[0]] + a[1..] && a + b == [a[0]] + (a[1..] + b)
  {
  }

  /** The inductive step of `SplitPrefix`: no occurrence starts at the
      first character, so it joins the first piece. */
  lemma SplitPrefixStep(p: string, t: string, sep: string)
    requires |sep| > 0 && |p| > 0 && !(sep <= p + t)
    requires Split(p[1..] + t, sep) == [p[1..] + Split(t, sep)[0]] + Split(t, sep)[1..]
    ensures Split(p + t, sep) == [p + Split(t, sep)[0]] + Split(t, sep)[1..]
  {
    var st := Split(t, sep);
    var r := Split(p[1..] + t, sep);
    HeadAndRest(p, t);
    SplitNoMatchCons(p[0], p[1..] + t, sep);
    HeadAndRest(p, st[0]);
    assert r[0] == p[1..] + st[0] && r[1..] == st[1..];
  }

  /** Where no occurrence starts, the first character joins the first piece. */
  lemma SplitNoMatchCons(c: char, rest: string, sep: string)
    requires |sep| > 0 && !(sep <= [c] + rest)
    ensures Split([c] + rest, sep) == [[c] + Split(rest, sep)[0]] + Split(rest, sep)[1..]
  {
    assert ([c] + rest)[0] == c && ([c] + rest)[1..] == rest;
  }

  /** Inside `p + sep + rest`, no occurrence of `sep` starts within `p` when
      `p` does not contain `sep` and `sep` cannot overlap itself. */
  lemma NoOccurrenceInside(p: string, sep: string, rest: string)
    requires |sep| > 0 && BorderFree(sep) && !Contains(p, sep)
    ensures forall i :: 0 <= i < |p| ==> !(sep <= (p + sep + rest)[i..])
  {
    forall i | 0 <= i < |p|
      ensures !(sep <= (p + sep + rest)[i..])
    {
      if i + |sep| <= |p| {
        NoOccurrenceWithin(p, sep, rest, i);
      } else {
        NoOccurrenceAcross(p, sep, rest, i);
      }
    }
  }

  /** An occurrence starting inside `p` and ending inside it would be one of `p`. */
  lemma NoOccurrenceWithin(p: string, sep: string, rest: string, i: nat)
    requires |sep| > 0 && !Contains(p, sep) && i + |sep| <= |p|
    ensures !(sep <= (p + sep + rest)[i..])
  {
    var s := p + sep + rest;
    NotContainsAt(p, sep, i);
    assert s[i..i + |sep|] == p[i..][..|sep|];
  }

  /** An occurrence starting inside `p` and reaching past it would overlap the
      `sep` that follows `p`. */
  lemma NoOccurrenceAcross(p: string, sep: string, rest: string, i: nat)
    requires |sep| > 0 && BorderFree(sep) && i < |p| < i + |sep|
    ensures !(sep <= (p + sep + rest)[i..])
  {
    var s := p + sep + rest;
    var n := |p| - i;
    assert s[i..i + |sep|] == p[i..] + sep[..|sep| - n];
    assert s[i..i + |sep|][n..] == sep[..|sep| - n];
    assert sep[n..] != sep[..|sep| - n];
  }

  /** Splitting a join gives the parts back, when no part contains the
      separator and the separator cannot overlap itself. */
  lemma {:induction false} SplitJoin(parts: seq<string>, sep: string)
    requires |sep| > 0 && BorderFree(sep) && |parts| >= 1
    requires forall k :: 0 <= k < |parts| ==> !Contains(parts[k], sep)
    ensures Split(Join(parts, sep), sep) == parts
    decreases |parts|
  {
    if |parts| == 1 {
      SplitJoinSingle(parts[0], sep);
    } else {
      SplitJoin(parts[1..], sep);
      SplitJoinStep(parts[0], Join(parts[1..], sep), sep);
      assert parts == [parts[0]] + parts[1..];
    }
  }

  lemma SplitJoinStep(p: string, j: string, sep: string)
    requires |sep| > 0 && BorderFree(sep) && !Contains(p, sep)
    ensures Split(p + sep + j, sep) == [p] + Split(j, sep)
  {
    NoOccurrenceInside(p, sep, j);
    assert p + (sep + j) == p + sep + j;
    SplitPrefix(p, sep + j, sep);
    SplitAfterSeparator(sep, j);
    var x := Split(sep + j, sep);
    assert x[0] == "" && x[1..] == Split(j, sep);
    assert p + x[0] == p;
  }

  lemma SplitJoinSingle(p: string, sep: string)
    requires |sep| > 0 && !Contains(p, sep)
    ensures Split(p, sep) == [p]
  {
    forall i | 0 <= i < |p|
      ensures !(sep <= (p + "")[i..])
    {
      assert (p + "")[i..] == p[i..];
      NotContainsAt(p, sep, i);
    }
    SplitPrefix(p, "", sep);
    assert p + "" == p;
  }

  lemma SplitAfterSeparator(sep: string, j: string)
    requires |sep| > 0
    ensures Split(sep + j, sep) == [""] + Split(j, sep)
  {
    assert (sep + j)[|sep|..] == j;
  }

  /** The first piece of a split is a prefix of the string. */
  lemma FirstPieceIsPrefix(s: string, sep: string)
    requires |sep| > 0
    ensures Split(s, sep)[0] <= s
  {
    var parts := Split(s, sep);
    if |parts| > 1 {
      assert s == parts[0] + sep + Join(parts[1..], sep);
    }
  }

  /** No piece of a split contains the separator. */
  lemma {:induction false} SplitPiecesFree(s: string, sep: string)
    requires |sep| > 0
    ensures forall k :: 0 <= k < |Split(s, sep)| ==> !Contains(Split(s, sep)[k], sep)
    decreases |s|
  {
    var parts := Split(s, sep);
    if |s| == 0 {
      assert parts == [""];
    } else if sep <= s {
      SplitPiecesFree(s[|sep|..], sep);
      assert !Contains("", sep);
    } else {
      var rest := Split(s[1..], sep);
      SplitPiecesFree(s[1..], sep);
      FirstPieceIsPrefix(s[1..], sep);
      var first := [s[0]] + rest[0];
      assert first[1..] == rest[0];
      assert first <= s;
      assert !Contains(first, sep);
      forall k | 0 <= k < |parts|
        ensures !Contains(parts[k], sep)
      {
        if k > 0 {
          assert parts[k] == rest[k];
        }
      }
    }
  }

  /** Every one-character separator is border-free. */
  lemma SingleCharBorderFree(c: char)
    ensures BorderFree([c])
  {
  }
}
