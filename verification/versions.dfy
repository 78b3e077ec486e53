/** The backend's hand-written version comparator, `compare_versions` in
    src-tauri/src/modules/docker.rs: does `latest` name a newer version than
    `current`? */
module Versions {
  import opened Wrappers
  import opened Strings

  const U32_MAX: nat := 4294967295

  /** The unsigned part of a text `str::parse::<u32>` accepts: one or more
      ASCII digits (leading zeros allowed) whose value fits in 32 bits. */
  predicate U32Digits(s: string)
  {
    |s| > 0 && AllDigits(s) && DigitsValue(s) <= U32_MAX
  }

  /** Rust `str::parse::<u32>`: an optional leading `+`, then the digits. */
  function ParseU32(s: string): (r: Option<nat>)
    ensures r.Some? <==> U32Digits(s) || (|s| > 1 && s[0] == '+' && U32Digits(s[1..]))
    ensures U32Digits(s) ==> r == Some(DigitsValue(s))
    ensures |s| > 1 && s[0] == '+' && U32Digits(s[1..]) ==> r == Some(DigitsValue(s[1..]))
    ensures r.Some? ==> r.value <= U32_MAX
  {
    var digits := if |s| > 1 && s[0] == '+' then s[1..] else s;
    if |digits| > 0 && AllDigits(digits) && DigitsValue(digits) <= U32_MAX
    then Some(DigitsValue(digits))
    else None
  }

  /** The decimal form of a number, with or without a `+`, parses back to
      the number exactly when it fits in 32 bits. */
  lemma ParseU32Decimal(n: nat)
    ensures ParseU32(NatToDecimal(n)) == (if n <= U32_MAX then Some(n) else None)
    ensures ParseU32("+" + NatToDecimal(n)) == (if n <= U32_MAX then Some(n) else None)
  {
    var d := NatToDecimal(n);
    assert d[0] != '+';
    assert ("+" + d)[0] == '+' && ("+" + d)[1..] == d;
    assert !U32Digits("+" + d) by {
      assert !IsDigit(("+" + d)[0]);
    }
  }

  /** No part parses. Stated part by part so that the solver unfolds it
      one step at a time; `NoPartParsesMeans` gives the quantified form. */
  predicate NoPartParses(parts: seq<string>)
    decreases |parts|
  {
    |parts| == 0 || (ParseU32(parts[0]).None? && NoPartParses(parts[1..]))
  }

  /** Every part parses; `EveryPartParsesMeans` gives the quantified form. */
  predicate EveryPartParses(parts: seq<string>)
    decreases |parts|
  {
    |parts| == 0 || (ParseU32(parts[0]).Some? && EveryPartParses(parts[1..]))
  }

  /** `.filter_map(|s| s.parse::<u32>().ok())`: the values of the parseable
      parts, in order. Together with `ParseComponentsAppend` the first two
      clauses fix the result for every input. */
  function ParseComponents(parts: seq<string>): (values: seq<nat>)
    ensures NoPartParses(parts) ==> values == []
    ensures EveryPartParses(parts) ==>
              |values| == |parts| && forall k :: 0 <= k < |parts| ==> ParseU32(parts[k]) == Some(values[k])
    ensures |values| <= |parts|
    ensures forall k :: 0 <= k < |values| ==> values[k] <= U32_MAX
    decreases |parts|
  {
    if |parts| == 0 then []
    else
      var rest := ParseComponents(parts[1..]);
      match ParseU32(parts[0])
      case Some(v) => [v] + rest
      case None => rest
  }

  lemma {:induction false} NoPartParsesMeans(parts: seq<string>)
    ensures NoPartParses(parts) <==> forall j :: 0 <= j < |parts| ==> ParseU32(parts[j]).None?
    decreases |parts|
  {
    if |parts| > 0 {
      NoPartParsesMeans(parts[1..]);
      assert forall j :: 0 < j < |parts| ==> parts[j] == parts[1..][j - 1];
    }
  }

  lemma {:induction false} EveryPartParsesMeans(parts: seq<string>)
    ensures EveryPartParses(parts) <==> forall j :: 0 <= j < |parts| ==> ParseU32(parts[j]).Some?
    decreases |parts|
  {
    if |parts| > 0 {
      EveryPartParsesMeans(parts[1..]);
      assert forall j :: 0 < j < |parts| ==> parts[j] == parts[1..][j - 1];
    }
  }

  /** Parsing distributes over concatenation, so the result is the parsed
      values of the parts one by one. */
  lemma {:induction false} ParseComponentsAppend(a: seq<string>, b: seq<string>)
    ensures ParseComponents(a + b) == ParseComponents(a) + ParseComponents(b)
    decreases |a|
  {
    if |a| == 0 {
      assert a + b == b;
    } else {
      ParseComponentsAppend(a[1..], b);
      ParseStepAppend(a, b);
    }
  }

  /** The inductive step of `ParseComponentsAppend`: the first part of `a`
      contributes the same value whether `b` follows or not. */
  lemma ParseStepAppend(a: seq<string>, b: seq<string>)
    requires |a| > 0
    requires ParseComponents(a[1..] + b) == ParseComponents(a[1..]) + ParseComponents(b)
    ensures ParseComponents(a + b) == ParseComponents(a) + ParseComponents(b)
  {
    var x, r := a[0], a[1..];
    HeadAndRest(a, b);
    ParseCons(x, r + b);
    ParseCons(x, r);
    ConcatShift(ValueOf(x), ParseComponents(r), ParseComponents(b), ParseComponents(r + b),
                ParseComponents(r + b), ParseComponents(b), ParseComponents(a + b), ParseComponents(a));
  }

  /** The value one part contributes: its parsed value, or nothing. */
  function ValueOf(part: string): seq<nat>
  {
    if ParseU32(part).Some? then [ParseU32(part).value] else []
  }

  /** One step of the `filter_map`: the first part's value, if any, then
      the rest. */
  lemma ParseCons(part: string, rest: seq<string>)
    ensures ParseComponents([part] + rest) == ValueOf(part) + ParseComponents(rest)
  {
    assert ([part] + rest)[0] == part && ([part] + rest)[1..] == rest;
  }

  /** No part sits at index 3 or later as a `"0"` (`parts[0]` is at
      `index`). Stated part by part; `NoSkippedZeroMeans` gives the
      quantified form. */
  predicate NoSkippedZero(parts: seq<string>, index: nat)
    decreases |parts|
  {
    |parts| == 0 || ((index < 3 || parts[0] != "0") && NoSkippedZero(parts[1..], index + 1))
  }

  lemma {:induction false} NoSkippedZeroMeans(parts: seq<string>, index: nat)
    ensures NoSkippedZero(parts, index) <==>
            forall k :: 0 <= k < |parts| && index + k >= 3 ==> parts[k] != "0"
    decreases |parts|
  {
    if |parts| > 0 {
      NoSkippedZeroMeans(parts[1..], index + 1);
      assert forall k :: 0 < k < |parts| ==> parts[k] == parts[1..][k - 1];
    }
  }

  /** `normalize_version`'s loop: the parts, with every `"0"` at index 3 or
      later skipped; `index` is the position of `parts[0]`. Together with
      `SkipZeroPartsAppend` the clauses fix the result for every input. */
  function SkipZeroParts(parts: seq<string>, index: nat): (kept: seq<string>)
    ensures |kept| <= |parts|
    ensures index < 3 && |parts| > 0 ==> |kept| > 0 && kept[0] == parts[0]
    ensures forall k :: 0 <= k < |kept| ==> kept[k] in parts
    ensures NoSkippedZero(parts, index) ==> kept == parts
    decreases |parts|
  {
    if |parts| == 0 then []
    else
      var rest := SkipZeroParts(parts[1..], index + 1);
      if index >= 3 && parts[0] == "0" then rest else [parts[0]] + rest
  }

  /** What survives the loop: every part at an index below 3, in place,
      and no `"0"` at an index of 3 or more. */
  lemma {:induction false} SkipZeroPartsShape(parts: seq<string>, index: nat)
    ensures forall k :: 0 <= k < |parts| && index + k < 3 ==>
              k < |SkipZeroParts(parts, index)| && SkipZeroParts(parts, index)[k] == parts[k]
    ensures forall k :: 0 <= k < |SkipZeroParts(parts, index)| && index + k >= 3 ==>
              SkipZeroParts(parts, index)[k] != "0"
    decreases |parts|
  {
    if |parts| > 0 {
      SkipZeroPartsShape(parts[1..], index + 1);
      SkipStep(parts, index);
      var rest := SkipZeroParts(parts[1..], index + 1);
      var kept := SkipZeroParts(parts, index);
      if index >= 3 && parts[0] == "0" {
        assert kept == rest;
      } else {
        assert kept == [parts[0]] + rest;
        forall k | 0 < k < |kept|
          ensures kept[k] == rest[k - 1]
        {
        }
        forall k | 0 < k < |parts|
          ensures parts[k] == parts[1..][k - 1]
        {
        }
      }
    }
  }

  /** The loop treats the parts one at a time, each by its own index. */
  lemma {:induction false} SkipZeroPartsAppend(a: seq<string>, b: seq<string>, index: nat)
    ensures SkipZeroParts(a + b, index) == SkipZeroParts(a, index) + SkipZeroParts(b, index + |a|)
    decreases |a|
  {
    if |a| == 0 {
      assert a == [] && a + b == b;
    } else {
      SkipZeroPartsAppend(a[1..], b, index + 1);
      SkipConsAppend(a[0], a[1..], b, index);
      SkipOfHeadAndRest(a, b, index);
      Regroup(SkipZeroParts(a + b, index), SkipZeroParts([a[0]] + (a[1..] + b), index),
              SkipZeroParts(a, index), SkipZeroParts([a[0]] + a[1..], index),
              SkipZeroParts(b, index + |a|), SkipZeroParts(b, index + 1 + |a[1..]|));
    }
  }

  /** The inductive step of `SkipZeroPartsAppend`: a part placed before
      `rest` is decided the same way whether `b` follows or not. */
  lemma SkipConsAppend(part: string, rest: seq<string>, b: seq<string>, index: nat)
    requires SkipZeroParts(rest + b, index + 1) == SkipZeroParts(rest, index + 1) + SkipZeroParts(b, index + 1 + |rest|)
    ensures SkipZeroParts([part] + (rest + b), index)
            == SkipZeroParts([part] + rest, index) + SkipZeroParts(b, index + 1 + |rest|)
  {
    SkipCons(part, rest + b, index);
    SkipCons(part, rest, index);
    var head := if index >= 3 && part == "0" then [] else [part];
    var front := SkipZeroParts(rest, index + 1);
    var back := SkipZeroParts(b, index + 1 + |rest|);
    ConcatShift(head, front, back, SkipZeroParts(rest + b, index + 1), SkipZeroParts(rest + b, index + 1),
                back, SkipZeroParts([part] + (rest + b), index), SkipZeroParts([part] + rest, index));
  }

  /** Equal sequences substituted into a concatenation. */
  lemma Regroup<T>(whole: seq<T>, whole': seq<T>, front: seq<T>, front': seq<T>, back: seq<T>, back': seq<T>)
    requires whole == whole' && whole' == front' + back'
    requires front == front' && back == back'
    ensures whole == front + back
  {
  }

  /** Sequence concatenation regrouped, for named pieces: `tail` is
      `front + back` through `same` and `back'`. */
  lemma ConcatShift<T>(head: seq<T>, front: seq<T>, back: seq<T>,
                       tail: seq<T>, same: seq<T>, back': seq<T>,
                       whole: seq<T>, prefix: seq<T>)
    requires tail == same && same == front + back' && back' == back
    requires whole == head + tail
    requires prefix == head + front
    ensures whole == prefix + back
  {
  }

  /** `SkipConsAppend`'s terms, written with `a` itself. */
  lemma SkipOfHeadAndRest(a: seq<string>, b: seq<string>, index: nat)
    requires |a| > 0
    ensures SkipZeroParts(a + b, index) == SkipZeroParts([a[0]] + (a[1..] + b), index)
    ensures SkipZeroParts(a, index) == SkipZeroParts([a[0]] + a[1..], index)
    ensures SkipZeroParts(b, index + |a|) == SkipZeroParts(b, index + 1 + |a[1..]|)
  {
    HeadAndRest(a, b);
  }

  /** The loop's step for a part placed before the rest. */
  lemma SkipCons(part: string, rest: seq<string>, index: nat)
    ensures SkipZeroParts([part] + rest, index)
            == (if index >= 3 && part == "0" then [] else [part]) + SkipZeroParts(rest, index + 1)
  {
    assert ([part] + rest)[0] == part && ([part] + rest)[1..] == rest;
  }

  /** One step of the loop: the first part is dropped or kept, by its index. */
  lemma SkipStep(parts: seq<string>, index: nat)
    requires |parts| > 0
    ensures SkipZeroParts(parts, index)
            == (if index >= 3 && parts[0] == "0" then [] else [parts[0]]) + SkipZeroParts(parts[1..], index + 1)
  {
  }

  /** `normalize_version`: split on dots, skip the zero parts, join with
      dots; splitting the result again gives exactly the kept parts. */
  function NormalizeVersion(v: string): (r: string)
    ensures Split(r, ".") == SkipZeroParts(Split(v, "."), 0)
  {
    SingleCharBorderFree('.');
    ResplitKeptParts(v, ".");
    Join(SkipZeroParts(Split(v, "."), 0), ".")
  }

  /** Normalising twice is normalising once: no `"0"` part is left beyond
      index 3 to skip. */
  lemma NormalizeVersionIdempotent(v: string)
    ensures NormalizeVersion(NormalizeVersion(v)) == NormalizeVersion(v)
  {
    var kept := SkipZeroParts(Split(v, "."), 0);
    SkipZeroPartsShape(Split(v, "."), 0);
    NoSkippedZeroMeans(kept, 0);
    assert SkipZeroParts(kept, 0) == kept;
  }

  /** `trim().trim_start_matches('v')`. */
  function CleanVersion(v: string): string
  {
    TrimStartChar(Trim(v), 'v')
  }

  /** The numeric components `compare_versions` extracts from one side. */
  function Components(v: string): seq<nat>
  {
    ParseComponents(Split(NormalizeVersion(CleanVersion(v)), "."))
  }

  /** Component `i` of a version, with missing positions read as 0. */
  function At(parts: seq<nat>, i: nat): nat
  {
    if i < |parts| then parts[i] else 0
  }

  function Max(a: nat, b: nat): nat
  {
    if a >= b then a else b
  }

  /** The reference order: `latest` is greater than `current` when both are
      padded with zeros to a common length and compared lexicographically. */
  ghost predicate PaddedGreater(current: seq<nat>, latest: seq<nat>)
  {
    exists k: nat :: At(latest, k) > At(current, k) && forall j: nat :: j < k ==> At(latest, j) == At(current, j)
  }

  /** The comparison loop of `compare_versions`, from position `i` on. */
  function GreaterFrom(current: seq<nat>, latest: seq<nat>, i: nat): (greater: bool)
    requires forall j: nat :: j < i ==> At(latest, j) == At(current, j)
    ensures greater <==> PaddedGreater(current, latest)
    decreases Max(|current|, |latest|) - i
  {
    if i >= Max(|current|, |latest|) then
      assert forall k: nat :: At(latest, k) == At(current, k) by {
        forall k: nat ensures At(latest, k) == At(current, k) {
          if k >= i {
            assert At(latest, k) == 0 == At(current, k);
          }
        }
      }
      false
    else if At(latest, i) > At(current, i) then
      true
    else if At(latest, i) < At(current, i) then
      assert forall k: nat :: !(At(latest, k) > At(current, k) && forall j: nat :: j < k ==> At(latest, j) == At(current, j)) by {
        forall k: nat ensures !(At(latest, k) > At(current, k) && forall j: nat :: j < k ==> At(latest, j) == At(current, j)) {
          if k > i {
            assert At(latest, i) != At(current, i);
          }
        }
      }
      false
    else
      GreaterFrom(current, latest, i + 1)
  }

  /** `compare_versions(current, latest)`: true when `latest` is newer. */
  function CompareVersions(current: string, latest: string): (newer: bool)
    ensures newer <==> |Components(current)| > 0 && |Components(latest)| > 0
                       && PaddedGreater(Components(current), Components(latest))
  {
    var c := Components(current);
    var l := Components(latest);
    if |c| == 0 || |l| == 0 then false else GreaterFrom(c, l, 0)
  }

  // ---------------------------------------------------------------------
  // The comparison is a strict order
  // ---------------------------------------------------------------------

  lemma PaddedGreaterIrreflexive(v: seq<nat>)
    ensures !PaddedGreater(v, v)
  {
  }

  lemma PaddedGreaterAsymmetric(a: seq<nat>, b: seq<nat>)
    ensures !(PaddedGreater(a, b) && PaddedGreater(b, a))
  {
  }

  lemma PaddedGreaterTransitive(a: seq<nat>, b: seq<nat>, c: seq<nat>)
    requires PaddedGreater(a, b) && PaddedGreater(b, c)
    ensures PaddedGreater(a, c)
  {
    var k1: nat :| At(b, k1) > At(a, k1) && forall j: nat :: j < k1 ==> At(b, j) == At(a, j);
    var k2: nat :| At(c, k2) > At(b, k2) && forall j: nat :: j < k2 ==> At(c, j) == At(b, j);
    var k := if k1 <= k2 then k1 else k2;
    assert At(c, k) > At(a, k);
    assert forall j: nat :: j < k ==> At(c, j) == At(a, j);
  }

  /** A version is never newer than itself. */
  lemma CompareVersionsIrreflexive(v: string)
    ensures !CompareVersions(v, v)
  {
    PaddedGreaterIrreflexive(Components(v));
  }

  /** Two versions are never each newer than the other. */
  lemma CompareVersionsAsymmetric(a: string, b: string)
    ensures !(CompareVersions(a, b) && CompareVersions(b, a))
  {
    PaddedGreaterAsymmetric(Components(a), Components(b));
  }

  /** If `b` is newer than `a` and `c` newer than `b`, then `c` is newer than `a`. */
  lemma CompareVersionsTransitive(a: string, b: string, c: string)
    requires CompareVersions(a, b) && CompareVersions(b, c)
    ensures CompareVersions(a, c)
  {
    PaddedGreaterTransitive(Components(a), Components(b), Components(c));
  }

  /** Missing positions count as zero: appending zero components to either side
      never changes the outcome. */
  lemma PaddedGreaterIgnoresTrailingZeros(current: seq<nat>, latest: seq<nat>, n: nat)
    ensures PaddedGreater(current + seq(n, _ => 0), latest) <==> PaddedGreater(current, latest)
    ensures PaddedGreater(current, latest + seq(n, _ => 0)) <==> PaddedGreater(current, latest)
  {
    var z: seq<nat> := seq(n, _ => 0);
    assert forall k: nat :: At(current + z, k) == At(current, k);
    assert forall k: nat :: At(latest + z, k) == At(latest, k);
  }

  /** A side with no numeric component makes the answer false both ways. */
  lemma NoComponentsNeverNewer(a: string, b: string)
    requires |Components(a)| == 0
    ensures !CompareVersions(a, b) && !CompareVersions(b, a)
  {
  }

  // ---------------------------------------------------------------------
  // What normalisation does
  // ---------------------------------------------------------------------

  /** Re-splitting the normalised string gives back exactly the kept parts,
      so the components are the parseable kept parts of the cleaned input. */
  lemma ComponentsOfKeptParts(v: string)
    ensures Components(v) == ParseComponents(SkipZeroParts(Split(CleanVersion(v), "."), 0))
  {
    SingleCharBorderFree('.');
    ResplitKeptParts(CleanVersion(v), ".");
  }

  lemma ResplitKeptParts(s: string, sep: string)
    requires |sep| > 0 && BorderFree(sep)
    ensures Split(Join(SkipZeroParts(Split(s, sep), 0), sep), sep) == SkipZeroParts(Split(s, sep), 0)
  {
    var parts := Split(s, sep);
    var kept := SkipZeroParts(parts, 0);
    SplitPiecesFree(s, sep);
    forall k | 0 <= k < |kept|
      ensures !Contains(kept[k], sep)
    {
      var j :| 0 <= j < |parts| && parts[j] == kept[k];
    }
    SplitJoin(kept, sep);
  }

  /** Surrounding whitespace and leading `v`s are ignored. */
  lemma CleanVersionStrips(w1: string, vs: nat, core: string, w2: string)
    requires forall i :: 0 <= i < |w1| ==> IsWhitespace(w1[i])
    requires forall i :: 0 <= i < |w2| ==> IsWhitespace(w2[i])
    requires |core| > 0 && core[0] != 'v' && !IsWhitespace(core[0]) && !IsWhitespace(core[|core| - 1])
    ensures CleanVersion(w1 + seq(vs, _ => 'v') + core + w2) == core
  {
    var v := seq(vs, _ => 'v');
    var body := v + core;
    var tail := body + w2;
    assert w1 + v + core + w2 == w1 + tail;
    assert tail[0] == body[0];
    TrimStartPrefix(w1, tail);
    assert body[|body| - 1] == core[|core| - 1];
    TrimEndSuffix(body, w2);
    TrimStartCharPrefix(vs, core);
  }

  /** A string that neither starts nor ends with whitespace nor starts with
      `v` is left as it is. */
  lemma CleanVersionOfPlain(s: string)
    requires |s| > 0 && s[0] != 'v' && !IsWhitespace(s[0]) && !IsWhitespace(s[|s| - 1])
    ensures CleanVersion(s) == s
  {
    assert TrimStart(s) == s;
    assert TrimEnd(s) == s;
  }

  lemma {:induction false} TrimStartPrefix(w: string, rest: string)
    requires forall i :: 0 <= i < |w| ==> IsWhitespace(w[i])
    requires |rest| > 0 && !IsWhitespace(rest[0])
    ensures TrimStart(w + rest) == rest
    decreases |w|
  {
    if |w| > 0 {
      assert (w + rest)[1..] == w[1..] + rest;
      TrimStartPrefix(w[1..], rest);
    } else {
      assert w + rest == rest;
    }
  }

  lemma {:induction false} TrimEndSuffix(body: string, w: string)
    requires forall i :: 0 <= i < |w| ==> IsWhitespace(w[i])
    requires |body| > 0 && !IsWhitespace(body[|body| - 1])
    ensures TrimEnd(body + w) == body
    decreases |w|
  {
    if |w| > 0 {
      assert (body + w)[..|body + w| - 1] == body + w[..|w| - 1];
      TrimEndSuffix(body, w[..|w| - 1]);
    } else {
      assert body + w == body;
    }
  }

  lemma {:induction false} TrimStartCharPrefix(n: nat, core: string)
    requires |core| > 0 && core[0] != 'v'
    ensures TrimStartChar(seq(n, _ => 'v') + core, 'v') == core
    decreases n
  {
    if n > 0 {
      assert (seq(n, _ => 'v') + core)[1..] == seq(n - 1, _ => 'v') + core;
      TrimStartCharPrefix(n - 1, core);
    } else {
      assert seq(n, _ => 'v') + core == core;
    }
  }
}

/** `compare_versions` skips every `"0"` component at index 3 or later, not
    only trailing ones, so a zero in the middle shifts the components after
    it one place left. This module holds the corrected normalisation, which
    drops only trailing zero components, and the counterexample that tells
    the two apart. */
module VersionsIntended {
  import opened Wrappers
  import opened Strings
  import opened Versions

  /** Every component of the cleaned input, none skipped: the components a
      version string is meant to stand for. */
  function AllComponents(v: string): seq<nat>
  {
    ParseComponents(Split(CleanVersion(v), "."))
  }

  /** The corrected `normalize_version` loop: `"0"` parts are dropped only
      from the end, and never below index 3. */
  function DropTrailingZeroParts(parts: seq<string>): (kept: seq<string>)
    ensures |kept| <= |parts| && kept == parts[..|kept|]
    ensures |parts| >= 3 ==> |kept| >= 3
    ensures forall k :: |kept| <= k < |parts| ==> parts[k] == "0"
    decreases |parts|
  {
    if |parts| > 3 && parts[|parts| - 1] == "0" then DropTrailingZeroParts(parts[..|parts| - 1])
    else parts
  }

  function IntendedComponents(v: string): seq<nat>
  {
    ParseComponents(Split(Join(DropTrailingZeroParts(Split(CleanVersion(v), ".")), "."), "."))
  }

  /** `compare_versions` with the corrected normalisation. */
  function CompareVersionsIntended(current: string, latest: string): (newer: bool)
    ensures newer <==> |IntendedComponents(current)| > 0 && |IntendedComponents(latest)| > 0
                       && PaddedGreater(IntendedComponents(current), IntendedComponents(latest))
  {
    var c := IntendedComponents(current);
    var l := IntendedComponents(latest);
    if |c| == 0 || |l| == 0 then false else GreaterFrom(c, l, 0)
  }

  lemma ParseZero()
    ensures ParseComponents(["0"]) == [0]
  {
    assert AllDigits("0");
    assert DigitsValue("0") == 0 by {
      assert "0"[..0] == "";
    }
  }

  /** Dropping trailing zero parts only removes trailing zero components. */
  lemma {:induction false} DropTrailingZerosKeepsPositions(parts: seq<string>)
    ensures forall k: nat :: At(ParseComponents(DropTrailingZeroParts(parts)), k) == At(ParseComponents(parts), k)
    decreases |parts|
  {
    if |parts| > 3 && parts[|parts| - 1] == "0" {
      var front := parts[..|parts| - 1];
      DropTrailingZerosKeepsPositions(front);
      assert parts == front + ["0"];
      ParseComponentsAppend(front, ["0"]);
      ParseZero();
      var pf := ParseComponents(front);
      assert ParseComponents(parts) == pf + [0];
      assert forall k: nat :: At(pf + [0], k) == At(pf, k);
    }
  }

  lemma PaddedGreaterRespectsPositions(a: seq<nat>, a': seq<nat>, b: seq<nat>, b': seq<nat>)
    requires forall k: nat :: At(a, k) == At(a', k)
    requires forall k: nat :: At(b, k) == At(b', k)
    ensures PaddedGreater(a, b) <==> PaddedGreater(a', b')
  {
  }

  /** With the corrected normalisation, the comparison is exactly the padded
      order on every component of the cleaned inputs: normalising changes no
      answer. */
  lemma IntendedComparesAllComponents(current: string, latest: string)
    ensures CompareVersionsIntended(current, latest) <==>
              |IntendedComponents(current)| > 0 && |IntendedComponents(latest)| > 0
              && PaddedGreater(AllComponents(current), AllComponents(latest))
  {
    IntendedComponentsArePadded(current);
    IntendedComponentsArePadded(latest);
    PaddedGreaterRespectsPositions(IntendedComponents(current), AllComponents(current),
                                   IntendedComponents(latest), AllComponents(latest));
  }

  lemma IntendedComponentsArePadded(v: string)
    ensures forall k: nat :: At(IntendedComponents(v), k) == At(AllComponents(v), k)
  {
    var parts := Split(CleanVersion(v), ".");
    var kept := DropTrailingZeroParts(parts);
    SplitPiecesFree(CleanVersion(v), ".");
    SingleCharBorderFree('.');
    assert forall k :: 0 <= k < |kept| ==> kept[k] == parts[k];
    SplitJoin(kept, ".");
    DropTrailingZerosKeepsPositions(parts);
  }

  // ---------------------------------------------------------------------
  // The input that tells the two apart
  // ---------------------------------------------------------------------

  lemma SplitOfVersion(parts: seq<string>, v: string)
    requires |parts| >= 1 && v == Join(parts, ".")
    requires forall k :: 0 <= k < |parts| ==> '.' !in parts[k]
    ensures Split(v, ".") == parts
  {
    forall k | 0 <= k < |parts|
      ensures !Contains(parts[k], ".")
    {
      ContainsChar(parts[k], '.');
    }
    SingleCharBorderFree('.');
    SplitJoin(parts, ".");
  }

  lemma ParseDigit(s: string, d: nat)
    requires |s| == 1 && d < 10 && s[0] == DigitChar(d)
    ensures ParseU32(s) == Some(d)
  {
    assert AllDigits(s);
    assert s[..|s| - 1] == "";
    assert DigitsValue(s) == DigitValue(s[0]) == d;
  }

  lemma ParseSmallParts()
    ensures ParseU32("0") == Some(0) && ParseU32("1") == Some(1) && ParseU32("2") == Some(2)
    ensures ParseU32("3") == Some(3) && ParseU32("4") == Some(4) && ParseU32("5") == Some(5)
  {
    ParseDigit("0", 0); ParseDigit("1", 1); ParseDigit("2", 2);
    ParseDigit("3", 3); ParseDigit("4", 4); ParseDigit("5", 5);
  }
}

/** Concrete version strings that show how the as-written comparison and the
  * corrected one part ways when a zero sits in the middle of a version. */
module VersionExamples {
  import opened Wrappers
  import opened Strings
  import opened Versions
  import opened VersionsIntended

  /** `v` is the given parts joined with dots, with no surrounding whitespace
    * and no leading 'v'. */
  predicate PlainVersion(parts: seq<string>, v: string)
  {
    && |parts| >= 1 && v == Join(parts, ".")
    && (forall k :: 0 <= k < |parts| ==> '.' !in parts[k])
    && |v| > 0 && v[0] != 'v' && !IsWhitespace(v[0]) && !IsWhitespace(v[|v| - 1])
  }

  /** A plain version string is split straight into its parts. */
  lemma PlainVersionComponents(parts: seq<string>, v: string)
    requires PlainVersion(parts, v)
    ensures Components(v) == ParseComponents(SkipZeroParts(parts, 0))
    ensures AllComponents(v) == ParseComponents(parts)
  {
    CleanVersionOfPlain(v);
    SplitOfVersion(parts, v);
    ComponentsOfKeptParts(v);
  }

  lemma CurrentKept(parts: seq<string>)
    requires parts == ["1", "2", "3", "4"]
    ensures SkipZeroParts(parts, 0) == parts
  {
    assert parts[3] != "0";
    NoSkippedZeroMeans(parts, 0);
  }

  lemma CurrentParsed(parts: seq<string>)
    requires parts == ["1", "2", "3", "4"]
    ensures ParseComponents(parts) == [1, 2, 3, 4]
  {
    ParseSmallParts();
    var expected: seq<nat> := [1, 2, 3, 4];
    assert forall j :: 0 <= j < |parts| ==> ParseU32(parts[j]) == Some(expected[j]);
    EveryPartParsesMeans(parts);
  }

  /** As written, a "0" in the fourth place is dropped even when a
    * non-zero part follows it. */
  lemma FourthZeroSkipped(parts: seq<string>, a: string, b: string, c: string, d: string)
    requires parts == [a, b, c, "0", d] && d != "0"
    ensures SkipZeroParts(parts, 0) == [a, b, c, d]
  {
    assert parts == [a, b, c] + ["0", d];
    SkipZeroPartsAppend([a, b, c], ["0", d], 0);
    ShortPartsKept([a, b, c]);
    ZeroThenPartAtThree(d);
  }

  lemma ShortPartsKept(parts: seq<string>)
    requires |parts| <= 3
    ensures SkipZeroParts(parts, 0) == parts
  {
    NoSkippedZeroMeans(parts, 0);
  }

  lemma ZeroThenPartAtThree(d: string)
    requires d != "0"
    ensures SkipZeroParts(["0", d], 3) == [d]
  {
    SkipStep(["0", d], 3);
    assert ["0", d][1..] == [d];
  }

  lemma LatestParsed(parts: seq<string>)
    requires parts == ["1", "2", "3", "0", "5"]
    ensures ParseComponents(parts) == [1, 2, 3, 0, 5]
  {
    ParseSmallParts();
    var expected: seq<nat> := [1, 2, 3, 0, 5];
    assert forall j :: 0 <= j < |parts| ==> ParseU32(parts[j]) == Some(expected[j]);
    EveryPartParsesMeans(parts);
  }

  lemma LatestKeptParsed(kept: seq<string>)
    requires kept == ["1", "2", "3", "5"]
    ensures ParseComponents(kept) == [1, 2, 3, 5]
  {
    ParseSmallParts();
    var expected: seq<nat> := [1, 2, 3, 5];
    assert forall j :: 0 <= j < |kept| ==> ParseU32(kept[j]) == Some(expected[j]);
    EveryPartParsesMeans(kept);
  }

  lemma CurrentPlain(parts: seq<string>, v: string)
    requires parts == ["1", "2", "3", "4"] && v == "1.2.3.4"
    ensures PlainVersion(parts, v)
  {
    assert Join(["4"], ".") == "4";
    assert Join(["3", "4"], ".") == "3.4";
    assert Join(["2", "3", "4"], ".") == "2.3.4";
  }

  lemma LatestPlain(parts: seq<string>, v: string)
    requires parts == ["1", "2", "3", "0", "5"] && v == "1.2.3.0.5"
    ensures PlainVersion(parts, v)
  {
    assert Join(["5"], ".") == "5";
    assert Join(["0", "5"], ".") == "0.5";
    assert Join(["3", "0", "5"], ".") == "3.0.5";
    assert Join(["2", "3", "0", "5"], ".") == "2.3.0.5";
  }

  /** "1.2.3.4" keeps all four of its components under both readings. */
  lemma ComponentsOfCurrentExample(v: string)
    requires v == "1.2.3.4"
    ensures Components(v) == [1, 2, 3, 4]
    ensures AllComponents(v) == [1, 2, 3, 4]
  {
    var parts := ["1", "2", "3", "4"];
    assert Components(v) == ParseComponents(SkipZeroParts(parts, 0))
        && AllComponents(v) == ParseComponents(parts) by {
      CurrentPlain(parts, v);
      PlainVersionComponents(parts, v);
    }
    assert SkipZeroParts(parts, 0) == parts by { CurrentKept(parts); }
    assert ParseComponents(parts) == [1, 2, 3, 4] by { CurrentParsed(parts); }
  }

  /** "1.2.3.0.5" loses its fourth component "0" as written, so 5 moves into
    * the fourth place. */
  lemma ComponentsOfLatestExample(v: string)
    requires v == "1.2.3.0.5"
    ensures Components(v) == [1, 2, 3, 5]
    ensures AllComponents(v) == [1, 2, 3, 0, 5]
  {
    var parts := ["1", "2", "3", "0", "5"];
    assert Components(v) == ParseComponents(SkipZeroParts(parts, 0))
        && AllComponents(v) == ParseComponents(parts) by {
      LatestPlain(parts, v);
      PlainVersionComponents(parts, v);
    }
    var kept := ["1", "2", "3", "5"];
    assert SkipZeroParts(parts, 0) == kept by { FourthZeroSkipped(parts, "1", "2", "3", "5"); }
    assert ParseComponents(kept) == [1, 2, 3, 5] by { LatestKeptParsed(kept); }
    assert ParseComponents(parts) == [1, 2, 3, 0, 5] by { LatestParsed(parts); }
  }

  /** With the fourth components 4 and 5 in the same place, the second list
    * is the greater one. */
  lemma ShiftedOrder(c: seq<nat>, l: seq<nat>)
    requires c == [1, 2, 3, 4] && l == [1, 2, 3, 5]
    ensures PaddedGreater(c, l)
  {
    assert At(c, 3) == 4 && At(l, 3) == 5;
    assert forall j: nat :: j < 3 ==> At(l, j) == At(c, j);
  }

  /** [1, 2, 3, 0, 5] falls behind [1, 2, 3, 4] at the fourth place. */
  lemma AlignedOrder(c: seq<nat>, l: seq<nat>)
    requires c == [1, 2, 3, 4] && l == [1, 2, 3, 0, 5]
    ensures !PaddedGreater(c, l)
  {
    assert At(l, 3) < At(c, 3);
    forall k: nat
      ensures !(At(l, k) > At(c, k) && forall j: nat :: j < k ==> At(l, j) == At(c, j))
    {
      if k > 3 {
        assert At(l, 3) != At(c, 3);
      } else {
        assert k <= 3;
      }
    }
  }

  /** As written, "1.2.3.0.5" is reported newer than "1.2.3.4", although
      component by component it is older; the corrected comparison says no. */
  lemma MiddleZeroShiftsComponents(current: string, latest: string)
    requires current == "1.2.3.4" && latest == "1.2.3.0.5"
    ensures CompareVersions(current, latest)
    ensures !PaddedGreater(AllComponents(current), AllComponents(latest))
    ensures !CompareVersionsIntended(current, latest)
  {
    assert Components(current) == [1, 2, 3, 4] && AllComponents(current) == [1, 2, 3, 4] by {
      ComponentsOfCurrentExample(current);
    }
    assert Components(latest) == [1, 2, 3, 5] && AllComponents(latest) == [1, 2, 3, 0, 5] by {
      ComponentsOfLatestExample(latest);
    }
    ShiftedOrder(Components(current), Components(latest));
    AlignedOrder(AllComponents(current), AllComponents(latest));
    IntendedComparesAllComponents(current, latest);
  }
}
