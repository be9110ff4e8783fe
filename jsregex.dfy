/**
 * The regular expressions the adapters apply to page text, each written out
 * as the scan JavaScript's regex engine performs:
 *   - `s.replace(/\s+\s|\\r|\\n/g, '')`, the station/city clean-up;
 *   - `s.replace(/[PM2.5]/g, '')`, the city-title clean-up;
 *   - `s.match(/\d+/g)` and `s.match(/\d+/)`, the digit-run extraction.
 */
module JsRegex {
  import opened Util

  /** The characters `\s` matches: ECMAScript WhiteSpace and LineTerminator. */
  predicate IsSpace(c: char) {
    || c == '\t' || c == '\n' || c == '\U{000B}' || c == '\U{000C}' || c == '\r' || c == ' '
    || c == '\U{00A0}' || c == '\U{1680}' || ('\U{2000}' <= c <= '\U{200A}')
    || c == '\U{2028}' || c == '\U{2029}' || c == '\U{202F}' || c == '\U{205F}'
    || c == '\U{3000}' || c == '\U{FEFF}'
  }

  /** The characters `\d` matches: ASCII digits only. */
  predicate IsDigit(c: char) {
    '0' <= c <= '9'
  }

  predicate AllDigits(s: string) {
    forall i :: 0 <= i < |s| ==> IsDigit(s[i])
  }

  predicate NoDigit(s: string) {
    forall i :: 0 <= i < |s| ==> !IsDigit(s[i])
  }

  /** Length of the longest prefix of `s` whose characters all satisfy `p`. */
  function LeadingRun(s: string, p: char -> bool): (n: nat)
    ensures n <= |s|
    ensures forall i :: 0 <= i < n ==> p(s[i])
    ensures n < |s| ==> !p(s[n])
  {
    if s != [] && p(s[0]) then 1 + LeadingRun(s[1..], p) else 0
  }

  lemma {:induction false} LeadingRunAppend(a: string, b: string, p: char -> bool)
    requires b == [] || !p(b[0])
    ensures LeadingRun(a + b, p) == LeadingRun(a, p)
  {
    if a != [] && p(a[0]) {
      assert (a + b)[1..] == a[1..] + b;
      LeadingRunAppend(a[1..], b, p);
    } else if a == [] {
      assert a + b == b;
    }
  }

  // ---------------------------------------------------------------------
  // s.replace(/\s+\s|\\r|\\n/g, '')
  // ---------------------------------------------------------------------

  /**
   * The clean-up applied to station names, cell texts and the pm25in city:
   * scanning left to right, a maximal run of two or more white-space
   * characters is deleted (the greedy `\s+` backs off one character so that
   * the final `\s` matches), a single white-space character is kept, and the
   * two-character sequences backslash-r and backslash-n are deleted (the
   * regex escapes `\\r` and `\\n` match a literal backslash, not CR or LF).
   */
  function StripBreaks(s: string): (r: string)
    ensures |r| <= |s|
    decreases |s|
  {
    if s == [] then []
    else if IsSpace(s[0]) then
      var n := LeadingRun(s, IsSpace);
      if n >= 2 then StripBreaks(s[n..]) else [s[0]] + StripBreaks(s[1..])
    else if |s| >= 2 && s[0] == '\\' && (s[1] == 'r' || s[1] == 'n') then StripBreaks(s[2..])
    else [s[0]] + StripBreaks(s[1..])
  }

  /** No backslash in `s` is followed by `r` or `n`: the text holds no `\r` or `\n` text. */
  predicate NoEscape(s: string) {
    forall i :: 0 <= i < |s| - 1 ==> !(s[i] == '\\' && (s[i + 1] == 'r' || s[i + 1] == 'n'))
  }

  /**
   * The `\\r|\\n` half of the clean-up on its own: the same left-to-right
   * scan, deleting each backslash-r and backslash-n text and keeping every
   * other character, white space included.
   */
  function DropEscapes(s: string): (r: string)
    ensures |r| <= |s|
    decreases |s|
  {
    if s == [] then []
    else if |s| >= 2 && s[0] == '\\' && (s[1] == 'r' || s[1] == 'n') then DropEscapes(s[2..])
    else [s[0]] + DropEscapes(s[1..])
  }

  /** Text without `\r`/`\n` texts is what the `\\r|\\n` scan leaves of it. */
  lemma {:induction false} DropEscapesKeeps(s: string)
    requires NoEscape(s)
    ensures DropEscapes(s) == s
    decreases |s|
  {
    if s != [] {
      assert NoEscape(s[1..]) by {
        forall i | 0 <= i < |s[1..]| - 1
          ensures !(s[1..][i] == '\\' && (s[1..][i + 1] == 'r' || s[1..][i + 1] == 'n'))
        {
          assert s[1..][i] == s[i + 1] && s[1..][i + 1] == s[i + 2];
        }
      }
      DropEscapesKeeps(s[1..]);
      assert [s[0]] + s[1..] == s;
    }
  }

  /** The characters of `s` that are not white space, in order. */
  function NonSpace(s: string): (r: string)
    ensures |r| <= |s|
    ensures forall i :: 0 <= i < |r| ==> !IsSpace(r[i])
  {
    if s == [] then []
    else if IsSpace(s[0]) then NonSpace(s[1..])
    else [s[0]] + NonSpace(s[1..])
  }

  lemma {:induction false} NonSpaceAppend(a: string, b: string)
    ensures NonSpace(a + b) == NonSpace(a) + NonSpace(b)
  {
    if a != [] {
      assert (a + b)[1..] == a[1..] + b;
      NonSpaceAppend(a[1..], b);
    } else {
      assert a + b == b;
    }
  }

  lemma SpaceIsNotBackslash(c: char)
    requires IsSpace(c)
    ensures c != '\\'
  {
  }

  /** A white-space prefix passes the `\\r|\\n` scan unchanged. */
  lemma {:induction false} DropEscapesAfterSpaces(w: string, t: string)
    requires forall i :: 0 <= i < |w| ==> IsSpace(w[i])
    ensures DropEscapes(w + t) == w + DropEscapes(t)
  {
    if w == [] {
      assert w + t == t;
    } else {
      var s := w + t;
      assert s[0] == w[0] && s[1..] == w[1..] + t;
      SpaceIsNotBackslash(w[0]);
      DropEscapesAfterSpaces(w[1..], t);
      assert [w[0]] + (w[1..] + DropEscapes(t)) == w + DropEscapes(t);
    }
  }

  /**
   * Apart from white space, the clean-up keeps exactly the characters that
   * deleting the `\r` and `\n` texts keeps, in order: white space is the only
   * other thing it removes.
   */
  lemma {:induction false} StripKeepsNonSpace(s: string)
    ensures NonSpace(StripBreaks(s)) == NonSpace(DropEscapes(s))
    decreases |s|
  {
    if s == [] {
    } else if IsSpace(s[0]) {
      var n := LeadingRun(s, IsSpace);
      if n >= 2 {
        var w, t := s[..n], s[n..];
        assert s == w + t;
        StripKeepsNonSpace(t);
        DropEscapesAfterSpaces(w, t);
        NonSpaceAppend(w, DropEscapes(t));
        SpacesVanish(w);
      } else {
        StripKeepsNonSpace(s[1..]);
        assert ([s[0]] + StripBreaks(s[1..]))[1..] == StripBreaks(s[1..]);
        assert ([s[0]] + DropEscapes(s[1..]))[1..] == DropEscapes(s[1..]);
      }
    } else if |s| >= 2 && s[0] == '\\' && (s[1] == 'r' || s[1] == 'n') {
      StripKeepsNonSpace(s[2..]);
    } else {
      StripKeepsNonSpace(s[1..]);
      assert ([s[0]] + StripBreaks(s[1..]))[1..] == StripBreaks(s[1..]);
      assert ([s[0]] + DropEscapes(s[1..]))[1..] == DropEscapes(s[1..]);
    }
  }

  lemma {:induction false} SpacesVanish(w: string)
    requires forall i :: 0 <= i < |w| ==> IsSpace(w[i])
    ensures NonSpace(w) == []
  {
    if w != [] {
      SpacesVanish(w[1..]);
    }
  }

  /** Text without `\r`/`\n` texts keeps every character that is not white space, in order. */
  lemma StripKeepsText(s: string)
    requires NoEscape(s)
    ensures NonSpace(StripBreaks(s)) == NonSpace(s)
  {
    StripKeepsNonSpace(s);
    DropEscapesKeeps(s);
  }

  /** A run of two or more white-space characters is deleted. */
  lemma StripDropsSpaceRun(w: string, t: string)
    requires |w| >= 2 && forall i :: 0 <= i < |w| ==> IsSpace(w[i])
    requires t == [] || !IsSpace(t[0])
    ensures StripBreaks(w + t) == StripBreaks(t)
  {
    LeadingRunAppend(w, t, IsSpace);
    LeadingRunAll(w);
    assert (w + t)[|w|..] == t;
  }

  lemma {:induction false} LeadingRunAll(w: string)
    requires forall i :: 0 <= i < |w| ==> IsSpace(w[i])
    ensures LeadingRun(w, IsSpace) == |w|
  {
    if w != [] {
      LeadingRunAll(w[1..]);
    }
  }

  /** A white-space character standing alone is kept. */
  lemma StripKeepsLoneSpace(c: char, t: string)
    requires IsSpace(c) && (t == [] || !IsSpace(t[0]))
    ensures StripBreaks([c] + t) == [c] + StripBreaks(t)
  {
    assert ([c] + t)[1..] == t;
    LeadingRunAppend([c], t, IsSpace);
  }

  /** The texts `\r` and `\n` (a backslash, then the letter) are deleted. */
  lemma StripDropsEscape(c: char, t: string)
    requires c == 'r' || c == 'n'
    ensures StripBreaks(['\\', c] + t) == StripBreaks(t)
  {
    assert (['\\', c] + t)[2..] == t;
  }

  /** Any other character is kept, a backslash not followed by `r` or `n` included. */
  lemma StripKeepsOther(c: char, t: string)
    requires !IsSpace(c) && !(c == '\\' && t != [] && (t[0] == 'r' || t[0] == 'n'))
    ensures StripBreaks([c] + t) == [c] + StripBreaks(t)
  {
    assert ([c] + t)[1..] == t;
  }

  /** Text with no `\r`/`\n` text and no two adjacent white-space characters. */
  predicate Tidy(s: string) {
    && NoEscape(s)
    && (forall i :: 0 <= i < |s| - 1 ==> !(IsSpace(s[i]) && IsSpace(s[i + 1])))
  }

  /** The clean-up leaves tidy text, single spaces included, unchanged. */
  lemma {:induction false} StripKeepsTidy(s: string)
    requires Tidy(s)
    ensures StripBreaks(s) == s
    decreases |s|
  {
    if s != [] {
      assert Tidy(s[1..]) by {
        forall i | 0 <= i < |s[1..]| - 1
          ensures !(IsSpace(s[1..][i]) && IsSpace(s[1..][i + 1]))
          ensures !(s[1..][i] == '\\' && (s[1..][i + 1] == 'r' || s[1..][i + 1] == 'n'))
        {
          assert s[1..][i] == s[i + 1] && s[1..][i + 1] == s[i + 2];
        }
      }
      StripKeepsTidy(s[1..]);
      if IsSpace(s[0]) {
        assert LeadingRun(s, IsSpace) == 1 by {
          assert |s| > 1 ==> !IsSpace(s[1]);
        }
      }
      assert [s[0]] + s[1..] == s;
    }
  }

  /** Blank text stays blank (a single white-space character survives, longer runs vanish). */
  lemma {:induction false} StripBlank(s: string)
    requires forall i :: 0 <= i < |s| ==> IsSpace(s[i])
    ensures forall i :: 0 <= i < |StripBreaks(s)| ==> IsSpace(StripBreaks(s)[i])
    decreases |s|
  {
    if s != [] {
      var n := LeadingRun(s, IsSpace);
      if n >= 2 {
        StripBlank(s[n..]);
      } else {
        StripBlank(s[1..]);
      }
    }
  }

  /** Deleting `\r` can join two single spaces, which a second pass then deletes: the clean-up is not idempotent. */
  lemma StripIsNotIdempotent()
    ensures StripBreaks("a \\r b") == "a  b"
    ensures StripBreaks(StripBreaks("a \\r b")) == "ab"
  {
    var s := "a \\r b";
    assert LeadingRun(s[1..], IsSpace) == 1;
    assert LeadingRun(s[4..], IsSpace) == 1;
    calc {
      StripBreaks(s);
      ['a'] + StripBreaks(s[1..]);
      ['a', ' '] + StripBreaks(s[2..]);
      { assert s[2..][2..] == s[4..]; }
      ['a', ' '] + StripBreaks(s[4..]);
      ['a', ' ', ' '] + StripBreaks(s[5..]);
      ['a', ' ', ' ', 'b'] + StripBreaks(s[6..]);
    }
    var t := "a  b";
    assert LeadingRun(t[1..], IsSpace) == 2;
    assert t[1..][2..] == t[3..];
  }

  // ---------------------------------------------------------------------
  // s.replace(/[PM2.5]/g, '')
  // ---------------------------------------------------------------------

  /** The character class `[PM2.5]`: inside brackets `.` is a literal dot. */
  predicate InPm25Class(c: char) {
    c == 'P' || c == 'M' || c == '2' || c == '.' || c == '5'
  }

  /** Deletes every character of the class `[PM2.5]`, wherever it stands. */
  function RemovePm25Chars(s: string): (r: string)
    ensures |r| <= |s|
    ensures forall c :: c in r <==> c in s && !InPm25Class(c)
    ensures forall c :: !InPm25Class(c) ==> multiset(r)[c] == multiset(s)[c]
  {
    if s == [] then []
    else
      var rest := RemovePm25Chars(s[1..]);
      assert s == [s[0]] + s[1..];
      if InPm25Class(s[0]) then rest else [s[0]] + rest
  }

  /** Removing the class twice removes nothing more. */
  lemma {:induction false} RemovePm25CharsIdempotent(s: string)
    ensures RemovePm25Chars(RemovePm25Chars(s)) == RemovePm25Chars(s)
  {
    if s != [] {
      RemovePm25CharsIdempotent(s[1..]);
      var rest := RemovePm25Chars(s[1..]);
      if !InPm25Class(s[0]) {
        assert ([s[0]] + rest)[1..] == rest;
      }
    }
  }

  /** One character: a class character is deleted, any other kept. */
  lemma RemovePm25CharsSingle(c: char)
    ensures RemovePm25Chars([c]) == if InPm25Class(c) then [] else [c]
  {
  }

  /**
   * The removal works piece by piece: the text of `a + b` loses its class
   * characters as `a` and `b` do, the survivors of `a` first. With the
   * one-character case this fixes the order of the kept characters.
   */
  lemma {:induction false} RemovePm25CharsAppend(a: string, b: string)
    ensures RemovePm25Chars(a + b) == RemovePm25Chars(a) + RemovePm25Chars(b)
  {
    if a != [] {
      assert (a + b)[1..] == a[1..] + b;
      RemovePm25CharsAppend(a[1..], b);
    } else {
      assert a + b == b;
    }
  }

  // ---------------------------------------------------------------------
  // s.match(/\d+/g) and s.match(/\d+/)
  // ---------------------------------------------------------------------

  /**
   * The array `s.match(/\d+/g)` returns: every maximal run of ASCII digits,
   * left to right. JavaScript returns `null` when there is none; here that is
   * the empty sequence.
   */
  function DigitRuns(s: string): (runs: seq<string>)
    ensures runs == [] <==> NoDigit(s)
    ensures forall k :: 0 <= k < |runs| ==> runs[k] != [] && AllDigits(runs[k])
    decreases |s|
  {
    if s == [] then []
    else if !IsDigit(s[0]) then
      var rest := DigitRuns(s[1..]);
      assert NoDigit(s[1..]) ==> NoDigit(s) by {
        if NoDigit(s[1..]) {
          forall i | 0 < i < |s| ensures !IsDigit(s[i]) { assert s[i] == s[1..][i - 1]; }
        }
      }
      rest
    else
      var n := LeadingRun(s, IsDigit);
      [s[..n]] + DigitRuns(s[n..])
  }

  /** What `runs[i]` contributes to a string concatenation: the run, or "undefined" past the end. */
  function MatchAt(runs: seq<string>, i: nat): string {
    if i < |runs| then runs[i] else "undefined"
  }

  /** The single match of `s.match(/\d+/)`: the leftmost, longest digit run. */
  function FirstDigitRun(s: string): (r: Option<string>)
    ensures r.None? <==> NoDigit(s)
    ensures r.Some? ==> r.value != [] && AllDigits(r.value)
    decreases |s|
  {
    if s == [] then None
    else if IsDigit(s[0]) then Some(s[..LeadingRun(s, IsDigit)])
    else
      var r := FirstDigitRun(s[1..]);
      assert r.None? ==> NoDigit(s) by {
        if r.None? {
          forall i | 0 < i < |s| ensures !IsDigit(s[i]) { assert s[i] == s[1..][i - 1]; }
        }
      }
      r
  }

  /** The non-global match is the first element of the global one. */
  lemma {:induction false} FirstDigitRunIsFirstMatch(s: string)
    ensures FirstDigitRun(s) == if DigitRuns(s) == [] then None else Some(DigitRuns(s)[0])
    decreases |s|
  {
    if s != [] && !IsDigit(s[0]) {
      FirstDigitRunIsFirstMatch(s[1..]);
    }
  }

  /** Leading characters without a digit produce no match. */
  lemma {:induction false} DigitRunsSkip(sep: string, rest: string)
    requires NoDigit(sep)
    ensures DigitRuns(sep + rest) == DigitRuns(rest)
    decreases |sep|
  {
    if sep != [] {
      assert (sep + rest)[1..] == sep[1..] + rest;
      DigitRunsSkip(sep[1..], rest);
    } else {
      assert sep + rest == rest;
    }
  }

  /** A digit string followed by a non-digit is matched whole, as one run. */
  lemma DigitRunsTake(d: string, rest: string)
    requires d != [] && AllDigits(d)
    requires rest == [] || !IsDigit(rest[0])
    ensures DigitRuns(d + rest) == [d] + DigitRuns(rest)
  {
    var s := d + rest;
    assert LeadingRun(d, IsDigit) == |d|;
    LeadingRunAppend(d, rest, IsDigit);
    assert s[..|d|] == d && s[|d|..] == rest;
  }

  /**
   * Digit runs with non-digit text around and between them:
   * seps[0] + runs[0] + seps[1] + ... + runs[n-1] + seps[n].
   */
  function Interleave(seps: seq<string>, runs: seq<string>): string
    requires |seps| == |runs| + 1
    decreases |runs|
  {
    if runs == [] then seps[0] else seps[0] + (runs[0] + Interleave(seps[1..], runs[1..]))
  }

  /** `Interleave(seps, runs)` begins with `seps[0]`. */
  lemma InterleaveStart(seps: seq<string>, runs: seq<string>)
    requires |seps| == |runs| + 1
    ensures |seps[0]| <= |Interleave(seps, runs)| && Interleave(seps, runs)[..|seps[0]|] == seps[0]
  {
  }

  /**
   * `match(/\d+/g)` recovers the runs of such a text, in order, provided the
   * separators hold no digit and the inner ones are not empty.
   */
  lemma {:induction false} DigitRunsOfInterleave(seps: seq<string>, runs: seq<string>)
    requires |seps| == |runs| + 1
    requires forall i :: 0 <= i < |seps| ==> NoDigit(seps[i])
    requires forall i :: 0 < i < |runs| ==> seps[i] != []
    requires forall i :: 0 <= i < |runs| ==> runs[i] != [] && AllDigits(runs[i])
    ensures DigitRuns(Interleave(seps, runs)) == runs
    decreases |runs|
  {
    if runs != [] {
      var tail := Interleave(seps[1..], runs[1..]);
      DigitRunsOfInterleave(seps[1..], runs[1..]);
      InterleaveStart(seps[1..], runs[1..]);
      if |runs| == 1 {
        assert tail == seps[1];
      } else {
        assert seps[1] != [] && tail[0] == seps[1][0];
      }
      DigitRunsTake(runs[0], tail);
      DigitRunsSkip(seps[0], runs[0] + tail);
      assert [runs[0]] + runs[1..] == runs;
    }
  }
}
