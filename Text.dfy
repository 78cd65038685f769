/** String helpers shared by the frontend (JavaScript) and backend (Python)
    rules: whitespace, trimming, lower-casing, substring search, whitespace
    splitting, joining and decimal rendering of integers.

    Whitespace is the ASCII set that JavaScript's `trim()` and `\s` and
    Python's `strip()` and `split()` all agree on; lower-casing maps only the
    ASCII capitals. */
module Text {

  predicate IsSpace(c: char) {
    c == ' ' || c == '\t' || c == '\n' || c == '\r' || c == '\U{000B}' || c == '\U{000C}'
  }

  predicate NoSpace(s: string) {
    forall i :: 0 <= i < |s| ==> !IsSpace(s[i])
  }

  predicate AllSpace(s: string) {
    forall i :: 0 <= i < |s| ==> IsSpace(s[i])
  }

  /** Neither starts nor ends with whitespace. */
  predicate IsTrimmed(s: string) {
    s == [] || (!IsSpace(s[0]) && !IsSpace(s[|s| - 1]))
  }

  // ---------------------------------------------------------------- trimming

  /** The index of the first non-space character at or after `i`, or `|s|`
      when there is none. */
  function SkipSpaces(s: string, i: nat): (k: nat)
    requires i <= |s|
    ensures i <= k <= |s|
    ensures k < |s| ==> !IsSpace(s[k])
    decreases |s| - i
  {
    if i < |s| && IsSpace(s[i]) then SkipSpaces(s, i + 1) else i
  }

  /** The end of `s[lo..hi]` once its trailing whitespace is dropped. */
  function DropTrailing(s: string, lo: nat, hi: nat): (k: nat)
    requires lo <= hi <= |s|
    ensures lo <= k <= hi
    ensures k > lo ==> !IsSpace(s[k - 1])
    decreases hi
  {
    if hi > lo && IsSpace(s[hi - 1]) then DropTrailing(s, lo, hi - 1) else hi
  }

  /** JavaScript `s.trim()` and Python `s.strip()`: the input without its
      leading and trailing whitespace. */
  function Trim(s: string): (r: string)
    ensures IsTrimmed(r)
    ensures |r| <= |s|
  {
    var lo := SkipSpaces(s, 0);
    var hi := DropTrailing(s, lo, |s|);
    s[lo..hi]
  }

  /** Everything `SkipSpaces` steps over is whitespace. */
  lemma {:induction false} SkipSpacesSkipsSpace(s: string, i: nat)
    requires i <= |s|
    ensures forall j :: i <= j < SkipSpaces(s, i) ==> IsSpace(s[j])
    decreases |s| - i
  {
    if i < |s| && IsSpace(s[i]) {
      SkipSpacesSkipsSpace(s, i + 1);
    }
  }

  /** Everything `DropTrailing` drops is whitespace. */
  lemma {:induction false} DropTrailingDropsSpace(s: string, lo: nat, hi: nat)
    requires lo <= hi <= |s|
    ensures forall j :: DropTrailing(s, lo, hi) <= j < hi ==> IsSpace(s[j])
    decreases hi
  {
    if hi > lo && IsSpace(s[hi - 1]) {
      DropTrailingDropsSpace(s, lo, hi - 1);
    }
  }

  /** Trimming leaves nothing exactly when the input is all whitespace. */
  lemma TrimEmpty(s: string)
    ensures Trim(s) == [] <==> AllSpace(s)
  {
    var lo := SkipSpaces(s, 0);
    SkipSpacesSkipsSpace(s, 0);
    DropTrailingDropsSpace(s, lo, |s|);
  }

  /** A string that is already trimmed is its own trim. */
  lemma TrimOfTrimmed(s: string)
    requires IsTrimmed(s)
    ensures Trim(s) == s
  {
    if s != [] {
      assert SkipSpaces(s, 0) == 0;
      assert DropTrailing(s, 0, |s|) == |s|;
    }
  }

  /** Trimming twice is trimming once. */
  lemma TrimIdempotent(s: string)
    ensures Trim(Trim(s)) == Trim(s)
  {
    TrimOfTrimmed(Trim(s));
  }

  /** A space-free string is its own trim. */
  lemma TrimNoSpace(s: string)
    requires NoSpace(s)
    ensures Trim(s) == s
  {
    TrimOfTrimmed(s);
  }

  /** Trimming removes a whitespace prefix and a whitespace suffix and keeps
      the rest. */
  lemma TrimIsCore(s: string)
    ensures exists lo, hi :: 0 <= lo <= hi <= |s| && Trim(s) == s[lo..hi] && AllSpace(s[..lo]) && AllSpace(s[hi..])
  {
    var lo := SkipSpaces(s, 0);
    var hi := DropTrailing(s, lo, |s|);
    SkipSpacesSkipsSpace(s, 0);
    DropTrailingDropsSpace(s, lo, |s|);
    assert AllSpace(s[..lo]) && AllSpace(s[hi..]);
  }

  /** Whitespace around a trimmed text is exactly what trimming removes. */
  lemma TrimPadded(before: string, t: string, after: string)
    requires AllSpace(before) && IsTrimmed(t) && AllSpace(after)
    ensures Trim(before + t + after) == t
  {
    var s := before + t + after;
    if t == [] {
      assert AllSpace(s);
      TrimEmpty(s);
    } else {
      SkipSpacesTo(s, 0, |before|);
      DropTrailingTo(s, |before|, |s|, |before| + |t|);
      assert s[|before|..|before| + |t|] == t;
    }
  }

  /** `SkipSpaces` stops at the first non-space character. */
  lemma {:induction false} SkipSpacesTo(s: string, i: nat, k: nat)
    requires i <= k < |s| && !IsSpace(s[k])
    requires forall j :: i <= j < k ==> IsSpace(s[j])
    ensures SkipSpaces(s, i) == k
    decreases k - i
  {
    if i < k {
      SkipSpacesTo(s, i + 1, k);
    }
  }

  /** `DropTrailing` stops after the last non-space character. */
  lemma {:induction false} DropTrailingTo(s: string, lo: nat, hi: nat, k: nat)
    requires lo < k <= hi <= |s| && !IsSpace(s[k - 1])
    requires forall j :: k <= j < hi ==> IsSpace(s[j])
    ensures DropTrailing(s, lo, hi) == k
    decreases hi
  {
    if k < hi {
      DropTrailingTo(s, lo, hi - 1, k);
    }
  }

  // ----------------------------------------------------------- lower-casing

  function LowerChar(c: char): char {
    if 'A' <= c <= 'Z' then (c as int + 32) as char else c
  }

  /** Python `s.lower()` on the ASCII range. */
  function Lower(s: string): (r: string)
    ensures |r| == |s|
    ensures forall i :: 0 <= i < |s| ==> r[i] == LowerChar(s[i])
  {
    seq(|s|, i requires 0 <= i < |s| => LowerChar(s[i]))
  }

  lemma LowerPrefix(s: string, t: string)
    ensures Lower(s) <= Lower(s + t)
  {
  }

  // ------------------------------------------------------- substring search

  /** Python `pat in text`: `pat` occurs at some position of `text`. */
  predicate Contains(text: string, pat: string) {
    exists i :: 0 <= i <= |text| - |pat| && OccursAt(text, pat, i)
  }

  predicate OccursAt(text: string, pat: string, i: int)
    requires 0 <= i <= |text| - |pat|
  {
    text[i..i + |pat|] == pat
  }

  /** An occurrence stays an occurrence when the text is extended. */
  lemma ContainsExtend(text: string, more: string, pat: string)
    requires Contains(text, pat)
    ensures Contains(text + more, pat)
  {
    var i :| 0 <= i <= |text| - |pat| && OccursAt(text, pat, i);
    assert (text + more)[i..i + |pat|] == text[i..i + |pat|];
    assert OccursAt(text + more, pat, i);
  }

  lemma ContainsPrefix(text: string, longer: string, pat: string)
    requires text <= longer
    requires Contains(text, pat)
    ensures Contains(longer, pat)
  {
    assert longer == text + longer[|text|..];
    ContainsExtend(text, longer[|text|..], pat);
  }

  // ---------------------------------------------------- whitespace splitting

  /** The longest space-free prefix. */
  function Word(s: string): (w: string)
    ensures |w| <= |s| && w == s[..|w|] && NoSpace(w)
    ensures |w| < |s| ==> IsSpace(s[|w|])
  {
    if s == [] || IsSpace(s[0]) then [] else [s[0]] + Word(s[1..])
  }

  /** Python `s.split()` with no separator: the maximal runs of non-space
      characters, in order; leading, trailing and repeated whitespace produce
      no empty fields. */
  function Fields(s: string): (r: seq<string>)
    ensures forall i :: 0 <= i < |r| ==> r[i] != [] && NoSpace(r[i])
    decreases |s|
  {
    if s == [] then []
    else if IsSpace(s[0]) then Fields(s[1..])
    else
      var w := Word(s);
      [w] + Fields(s[|w|..])
  }

  /** Leading whitespace does not change the fields. */
  lemma {:induction false} FieldsSkipSpaces(sp: string, t: string)
    requires AllSpace(sp)
    ensures Fields(sp + t) == Fields(t)
    decreases |sp|
  {
    if sp != [] {
      assert IsSpace((sp + t)[0]);
      assert (sp + t)[1..] == sp[1..] + t;
      FieldsSkipSpaces(sp[1..], t);
    } else {
      assert sp + t == t;
    }
  }

  lemma {:induction false} WordOfNoSpace(w: string, t: string)
    requires NoSpace(w)
    requires t == [] || IsSpace(t[0])
    ensures Word(w + t) == w
    decreases |w|
  {
    if w == [] {
    } else {
      assert (w + t)[1..] == w[1..] + t;
      WordOfNoSpace(w[1..], t);
    }
  }

  /** A space-free word followed by whitespace and a rest splits into that word
      and the fields of the rest. */
  lemma FieldsWordThenSpace(w: string, sp: string, t: string)
    requires w != [] && NoSpace(w)
    requires sp != [] && AllSpace(sp)
    ensures Fields(w + sp + t) == [w] + Fields(t)
  {
    var s := w + sp + t;
    assert s == w + (sp + t);
    WordOfNoSpace(w, sp + t);
    assert s[|w|..] == sp + t;
    FieldsSkipSpaces(sp, t);
  }

  /** A string splits into exactly itself if and only if it is non-empty and
      space-free. */
  lemma FieldsSingle(t: string)
    ensures Fields(t) == [t] <==> t != [] && NoSpace(t)
  {
    if t != [] && NoSpace(t) {
      WordOfNoSpace(t, []);
      assert t + [] == t;
      assert t[|t|..] == [];
      assert Fields(t) == [t] + Fields([]);
    }
    if Fields(t) == [t] {
      assert Fields(t)[0] == t;
    }
  }

  // ----------------------------------------------------------------- joining

  /** JavaScript `parts.join(sep)` and Python `sep.join(parts)`. */
  function Join(parts: seq<string>, sep: string): string {
    if |parts| == 0 then ""
    else if |parts| == 1 then parts[0]
    else parts[0] + sep + Join(parts[1..], sep)
  }

  /** Joining more parts only extends the joined text. */
  lemma {:induction false} JoinPrefix(ps: seq<string>, qs: seq<string>, sep: string)
    ensures Join(ps, sep) <= Join(ps + qs, sep)
    decreases |ps|
  {
    if |ps| == 0 {
    } else if |ps| == 1 {
      if |qs| != 0 {
        assert (ps + qs)[1..] == qs;
      } else {
        assert ps + qs == ps;
      }
    } else {
      assert (ps + qs)[1..] == ps[1..] + qs;
      JoinPrefix(ps[1..], qs, sep);
    }
  }

  /** Appending one part adds the separator and that part. */
  lemma {:induction false} JoinSnoc(ps: seq<string>, x: string, sep: string)
    requires |ps| >= 1
    ensures Join(ps + [x], sep) == Join(ps, sep) + sep + x
    decreases |ps|
  {
    if |ps| == 1 {
      assert (ps + [x])[1..] == [x];
    } else {
      assert (ps + [x])[1..] == ps[1..] + [x];
      JoinSnoc(ps[1..], x, sep);
    }
  }

  // -------------------------------------------------------- decimal numbers

  predicate IsDigit(c: char) {
    '0' <= c <= '9'
  }

  function DigitChar(d: nat): (c: char)
    requires d < 10
    ensures IsDigit(c) && c as int - '0' as int == d
  {
    ('0' as int + d) as char
  }

  /** Decimal rendering of a natural number, as `str(n)` or `String(n)`. */
  function NatToString(n: nat): (r: string)
    ensures r != [] && forall i :: 0 <= i < |r| ==> IsDigit(r[i])
    ensures |r| > 1 ==> r[0] != '0'
  {
    if n < 10 then [DigitChar(n)] else NatToString(n / 10) + [DigitChar(n % 10)]
  }

  /** The value of a string of decimal digits. */
  function DigitsValue(s: string): nat
    requires forall i :: 0 <= i < |s| ==> IsDigit(s[i])
  {
    if s == [] then 0
    else
      assert IsDigit(s[|s| - 1]);
      10 * DigitsValue(s[..|s| - 1]) + (s[|s| - 1] as int - '0' as int)
  }

  /** Reading back the rendering gives the number. */
  lemma {:induction false} NatToStringRoundTrip(n: nat)
    ensures DigitsValue(NatToString(n)) == n
  {
    if n >= 10 {
      var r := NatToString(n);
      assert r[..|r| - 1] == NatToString(n / 10);
      NatToStringRoundTrip(n / 10);
    }
  }

  /** Distinct numbers have distinct renderings. */
  lemma NatToStringInjective(m: nat, n: nat)
    ensures NatToString(m) == NatToString(n) <==> m == n
  {
    if NatToString(m) == NatToString(n) {
      NatToStringRoundTrip(m);
      NatToStringRoundTrip(n);
    }
  }

  /** JavaScript `String(n)` for an integer value. */
  function IntToString(n: int): (r: string)
    ensures r != []
  {
    if n < 0 then "-" + NatToString(-n) else NatToString(n)
  }

  lemma IntToStringInjective(m: int, n: int)
    ensures IntToString(m) == IntToString(n) <==> m == n
  {
    if IntToString(m) == IntToString(n) {
      if m < 0 && n < 0 {
        assert NatToString(-m) == IntToString(m)[1..];
        NatToStringInjective(-m, -n);
      } else if m >= 0 && n >= 0 {
        NatToStringInjective(m, n);
      }
    }
  }

  // ----------------------------------------------- whitespace-run replacement

  /** JavaScript `s.replace(/\s+/g, c)`: every maximal run of whitespace
      becomes one `c`. */
  function ReplaceSpaceRuns(s: string, c: char): (r: string)
    ensures |r| <= |s|
    decreases |s|
  {
    if s == [] then []
    else if IsSpace(s[0]) then [c] + ReplaceSpaceRuns(s[SkipSpaces(s, 1)..], c)
    else [s[0]] + ReplaceSpaceRuns(s[1..], c)
  }

  /** With a non-space replacement, the result has no whitespace left. */
  lemma {:induction false} ReplaceSpaceRunsNoSpace(s: string, c: char)
    requires !IsSpace(c)
    ensures NoSpace(ReplaceSpaceRuns(s, c))
    decreases |s|
  {
    if s == [] {
    } else if IsSpace(s[0]) {
      ReplaceSpaceRunsNoSpace(s[SkipSpaces(s, 1)..], c);
    } else {
      ReplaceSpaceRunsNoSpace(s[1..], c);
    }
  }

  /** A space-free string is left unchanged. */
  lemma {:induction false} ReplaceSpaceRunsIdentity(s: string, c: char)
    requires NoSpace(s)
    ensures ReplaceSpaceRuns(s, c) == s
    decreases |s|
  {
    if s != [] {
      ReplaceSpaceRunsIdentity(s[1..], c);
    }
  }

  /** A run of whitespace between a word and a rest that starts with a
      non-space character is collapsed into exactly one `c`. */
  lemma {:induction false} ReplaceSpaceRunsCollapse(w: string, sp: string, t: string, c: char)
    requires NoSpace(w)
    requires sp != [] && AllSpace(sp)
    requires t == [] || !IsSpace(t[0])
    ensures ReplaceSpaceRuns(w + sp + t, c) == w + [c] + ReplaceSpaceRuns(t, c)
    decreases |w|
  {
    if w == [] {
      assert w + sp + t == sp + t;
      SkipSpacesRun(sp, t, 1);
      assert (sp + t)[|sp|..] == t;
    } else {
      assert (w + sp + t)[1..] == w[1..] + sp + t;
      ReplaceSpaceRunsCollapse(w[1..], sp, t, c);
    }
  }

  /** Skipping from inside a run of whitespace stops where the run ends. */
  lemma {:induction false} SkipSpacesRun(sp: string, t: string, i: nat)
    requires AllSpace(sp) && i <= |sp|
    requires t == [] || !IsSpace(t[0])
    ensures SkipSpaces(sp + t, i) == |sp|
    decreases |sp| - i
  {
    if i < |sp| {
      assert IsSpace((sp + t)[i]);
      SkipSpacesRun(sp, t, i + 1);
    } else if t != [] {
      assert (sp + t)[i] == t[0];
    }
  }
}
