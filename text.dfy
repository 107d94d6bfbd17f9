/** String helpers with the meaning Python gives them: str.strip(), str.split(),
    str.split(sep), str.startswith, the `in` substring test, int() of a digit string,
    str() of an integer, and the search for the regular expression `\((\d+)\)`. */
module Text {

  datatype Option<T> = None | Some(value: T)

  /** A character for which Python's str.isspace() holds: the separators that
      str.split() and str.strip() use when given no argument. */
  predicate IsSpace(c: char) {
    || c == ' ' || ('\t' <= c <= '\r')
    || ('\U{1C}' <= c <= '\U{1F}')
    || c == '\U{85}' || c == '\U{A0}' || c == '\U{1680}'
    || ('\U{2000}' <= c <= '\U{200A}')
    || c == '\U{2028}' || c == '\U{2029}' || c == '\U{202F}' || c == '\U{205F}' || c == '\U{3000}'
  }

  predicate IsDigit(c: char) {
    '0' <= c <= '9'
  }

  predicate StartsWith(s: string, p: string) {
    p <= s
  }

  /** Python's `sub in s`. */
  predicate Contains(s: string, sub: string) {
    exists i: nat | i <= |s| :: OccursAt(s, sub, i)
  }

  predicate OccursAt(s: string, sub: string, i: nat) {
    i + |sub| <= |s| && s[i..i + |sub|] == sub
  }

  // ---------------------------------------------------------------------------
  // strip

  /** Drops the leading characters satisfying `p`. */
  function DropLeading(s: string, p: char -> bool): (r: string)
    ensures |r| <= |s|
  {
    if |s| > 0 && p(s[0]) then DropLeading(s[1..], p) else s
  }

  lemma {:induction false} DropLeadingSpec(s: string, p: char -> bool)
    ensures var r := DropLeading(s, p);
      && r == s[|s| - |r|..]
      && (forall k | 0 <= k < |s| - |r| :: p(s[k]))
      && (r == [] || !p(r[0]))
  {
    if |s| > 0 && p(s[0]) {
      DropLeadingSpec(s[1..], p);
    }
  }

  /** Drops the trailing characters satisfying `p`. */
  function DropTrailing(s: string, p: char -> bool): (r: string)
    ensures |r| <= |s|
  {
    if |s| > 0 && p(s[|s| - 1]) then DropTrailing(s[..|s| - 1], p) else s
  }

  lemma {:induction false} DropTrailingSpec(s: string, p: char -> bool)
    ensures var r := DropTrailing(s, p);
      && r == s[..|r|]
      && (forall k | |r| <= k < |s| :: p(s[k]))
      && (r == [] || !p(r[|r| - 1]))
  {
    if |s| > 0 && p(s[|s| - 1]) {
      DropTrailingSpec(s[..|s| - 1], p);
    }
  }

  /** Python's str.strip(): no leading nor trailing whitespace. */
  function Strip(s: string): string {
    DropTrailing(DropLeading(s, IsSpace), IsSpace)
  }

  /** Python's str.strip(chars): drops leading and trailing members of `chars`. */
  function StripChars(s: string, chars: set<char>): string {
    DropTrailing(DropLeading(s, c => c in chars), c => c in chars)
  }

  lemma StripShape(s: string)
    ensures var t := Strip(s);
      (t == [] || (!IsSpace(t[0]) && !IsSpace(t[|t| - 1])))
      && exists i: nat :: OccursAt(s, t, i)
  {
    var l := DropLeading(s, IsSpace);
    var t := DropTrailing(l, IsSpace);
    DropLeadingSpec(s, IsSpace);
    DropTrailingSpec(l, IsSpace);
    var i := |s| - |l|;
    if t != [] {
      assert t[0] == l[0];
    }
    assert t == s[i..i + |t|];
    assert OccursAt(s, t, i);
  }

  // ---------------------------------------------------------------------------
  // split()

  predicate NoSpace(w: string) {
    forall k | 0 <= k < |w| :: !IsSpace(w[k])
  }

  /** Length of the run of non-space characters at the front of `s`. */
  function WordLength(s: string): (n: nat)
    ensures n <= |s| && (|s| > 0 && !IsSpace(s[0]) ==> n > 0)
  {
    if |s| == 0 || IsSpace(s[0]) then 0 else 1 + WordLength(s[1..])
  }

  lemma {:induction false} WordLengthSpec(s: string)
    ensures var n := WordLength(s); NoSpace(s[..n]) && (n < |s| ==> IsSpace(s[n]))
  {
    if |s| > 0 && !IsSpace(s[0]) {
      WordLengthSpec(s[1..]);
      var n := WordLength(s);
      assert s[..n] == [s[0]] + s[1..][..n - 1];
    }
  }

  /** Python's str.split() with no separator: the maximal runs of non-space
      characters, in order. */
  function Fields(s: string): seq<string>
    decreases |s|
  {
    if s == [] then []
    else if IsSpace(s[0]) then Fields(s[1..])
    else
      var n := WordLength(s);
      [s[..n]] + Fields(s[n..])
  }

  /** Every field is a non-empty run of non-space characters. */
  lemma {:induction false} FieldsAreWords(s: string)
    ensures forall k | 0 <= k < |Fields(s)| :: |Fields(s)[k]| > 0 && NoSpace(Fields(s)[k])
    decreases |s|
  {
    if s == [] {
    } else if IsSpace(s[0]) {
      FieldsAreWords(s[1..]);
    } else {
      var n := WordLength(s);
      WordLengthSpec(s);
      FieldsAreWords(s[n..]);
      var rest := Fields(s[n..]);
      assert forall k | 1 <= k < |Fields(s)| :: Fields(s)[k] == rest[k - 1];
    }
  }

  /** A string that starts with a non-space character has that character at the
      head of its first field. */
  lemma FirstField(s: string)
    requires |s| > 0 && !IsSpace(s[0])
    ensures |Fields(s)| > 0 && Fields(s)[0][0] == s[0]
  {
  }

  /** A word followed by whitespace (or nothing) is the first field. */
  lemma FieldsCons(w: string, tail: string)
    requires |w| > 0 && NoSpace(w)
    requires tail == [] || IsSpace(tail[0])
    ensures Fields(w + tail) == [w] + Fields(tail)
  {
    var s := w + tail;
    assert s[0] == w[0];
    WordOfPrefix(w, tail);
  }

  lemma FieldsSkipSpace(s: string)
    ensures Fields(" " + s) == Fields(s)
  {
    assert (" " + s)[1..] == s;
  }

  /** Words joined by single spaces. */
  function Unwords(ws: seq<string>): string {
    if ws == [] then [] else if |ws| == 1 then ws[0] else ws[0] + " " + Unwords(ws[1..])
  }

  /** split() recovers the words that Unwords joined. */
  lemma {:induction false} FieldsUnwords(ws: seq<string>)
    requires forall k | 0 <= k < |ws| :: |ws[k]| > 0 && NoSpace(ws[k])
    ensures Fields(Unwords(ws)) == ws
  {
    if ws == [] {
    } else if |ws| == 1 {
      FieldsCons(ws[0], []);
      assert ws[0] + [] == ws[0];
      assert Fields([]) == [];
      assert [ws[0]] == ws;
    } else {
      var rest := Unwords(ws[1..]);
      assert Unwords(ws) == ws[0] + (" " + rest);
      FieldsCons(ws[0], " " + rest);
      FieldsSkipSpace(rest);
      FieldsUnwords(ws[1..]);
      assert Fields(Unwords(ws)) == [ws[0]] + ws[1..];
      assert [ws[0]] + ws[1..] == ws;
    }
  }

  predicate AllSpace(s: string) {
    forall k | 0 <= k < |s| :: IsSpace(s[k])
  }

  /** Whitespace in front of a string adds no field. */
  lemma {:induction false} FieldsSkipRun(sp: string, s: string)
    requires AllSpace(sp)
    ensures Fields(sp + s) == Fields(s)
    decreases |sp|
  {
    if sp != [] {
      assert (sp + s)[0] == sp[0];
      assert (sp + s)[1..] == sp[1..] + s;
      assert AllSpace(sp[1..]) by {
        assert forall k | 0 <= k < |sp| - 1 :: sp[1..][k] == sp[k + 1];
      }
      FieldsSkipRun(sp[1..], s);
    } else {
      assert sp + s == s;
    }
  }

  /** Each word followed by its gap of whitespace, as in a line of a BIRD
      dump where fields are padded to columns. */
  function Spaced(ws: seq<string>, gaps: seq<string>): string
    requires |gaps| == |ws|
    decreases |ws|
  {
    if ws == [] then [] else ws[0] + gaps[0] + Spaced(ws[1..], gaps[1..])
  }

  /** split() recovers the words of a line whose words are separated by
      runs of whitespace of any length and kind, with any whitespace before
      the first word and after the last. */
  lemma FieldsOfSpacedWords(lead: string, ws: seq<string>, gaps: seq<string>)
    requires |gaps| == |ws| && AllSpace(lead)
    requires forall k | 0 <= k < |ws| :: |ws[k]| > 0 && NoSpace(ws[k]) && AllSpace(gaps[k])
    requires forall k | 0 <= k < |ws| - 1 :: |gaps[k]| > 0
    ensures Fields(lead + Spaced(ws, gaps)) == ws
  {
    FieldsSkipRun(lead, Spaced(ws, gaps));
    FieldsSpaced(ws, gaps);
  }

  lemma {:induction false} FieldsSpaced(ws: seq<string>, gaps: seq<string>)
    requires |gaps| == |ws|
    requires forall k | 0 <= k < |ws| :: |ws[k]| > 0 && NoSpace(ws[k]) && AllSpace(gaps[k])
    requires forall k | 0 <= k < |ws| - 1 :: |gaps[k]| > 0
    ensures Fields(Spaced(ws, gaps)) == ws
    decreases |ws|
  {
    if ws == [] {
      assert Fields([]) == [];
    } else {
      var rest := Spaced(ws[1..], gaps[1..]);
      var tail := gaps[0] + rest;
      assert Spaced(ws, gaps) == ws[0] + tail;
      if gaps[0] == [] {
        assert |ws| == 1;
        assert rest == [];
        assert tail == [];
      } else {
        assert tail[0] == gaps[0][0];
      }
      FieldsCons(ws[0], tail);
      FieldsSkipRun(gaps[0], rest);
      FieldsSpaced(ws[1..], gaps[1..]);
      assert [ws[0]] + ws[1..] == ws;
    }
  }

  lemma {:induction false} WordOfPrefix(w: string, tail: string)
    requires |w| > 0 && NoSpace(w)
    requires tail == [] || IsSpace(tail[0])
    ensures WordLength(w + tail) == |w|
    ensures (w + tail)[..|w|] == w && (w + tail)[|w|..] == tail
    decreases |w|
  {
    var s := w + tail;
    assert s[0] == w[0];
    assert !IsSpace(w[0]);
    if |w| > 1 {
      assert s[1..] == w[1..] + tail;
      assert NoSpace(w[1..]) by {
        assert forall k | 0 <= k < |w| - 1 :: w[1..][k] == w[k + 1];
      }
      WordOfPrefix(w[1..], tail);
      assert WordLength(s) == 1 + WordLength(s[1..]);
    } else {
      assert s[1..] == tail;
      assert WordLength(s) == 1 + WordLength(tail);
    }
  }


  // ---------------------------------------------------------------------------
  // split(sep)

  function IndexOf(s: string, c: char): (i: nat)
    requires c in s
    ensures i < |s| && s[i] == c && c !in s[..i]
  {
    if s[0] == c then 0 else 1 + IndexOf(s[1..], c)
  }

  /** Python's s.split(sep) for a one-character separator: never empty. */
  function SplitOn(s: string, sep: char): (r: seq<string>)
    ensures |r| >= 1
    ensures forall k | 0 <= k < |r| :: sep !in r[k]
    decreases |s|
  {
    if sep !in s then [s]
    else
      var i := IndexOf(s, sep);
      [s[..i]] + SplitOn(s[i + 1..], sep)
  }

  /** Python's sep.join(parts). */
  function JoinOn(parts: seq<string>, sep: char): string
    requires |parts| >= 1
  {
    if |parts| == 1 then parts[0] else parts[0] + [sep] + JoinOn(parts[1..], sep)
  }

  lemma {:induction false} JoinSplit(s: string, sep: char)
    ensures JoinOn(SplitOn(s, sep), sep) == s
    decreases |s|
  {
    if sep in s {
      var i := IndexOf(s, sep);
      var rest := s[i + 1..];
      var parts := SplitOn(rest, sep);
      assert SplitOn(s, sep) == [s[..i]] + parts;
      JoinSplit(rest, sep);
      JoinCons(s[..i], parts, sep);
      CutAt(s, i);
    }
  }

  lemma CutAt(s: string, i: nat)
    requires i < |s|
    ensures s == s[..i] + [s[i]] + s[i + 1..]
  {
  }

  lemma JoinCons(a: string, rest: seq<string>, sep: char)
    requires |rest| >= 1
    ensures JoinOn([a] + rest, sep) == a + [sep] + JoinOn(rest, sep)
  {
    assert ([a] + rest)[1..] == rest;
  }

  lemma {:induction false} SplitJoin(parts: seq<string>, sep: char)
    requires |parts| >= 1
    requires forall k | 0 <= k < |parts| :: sep !in parts[k]
    ensures SplitOn(JoinOn(parts, sep), sep) == parts
  {
    if |parts| > 1 {
      var rest := parts[1..];
      assert forall k | 0 <= k < |rest| :: rest[k] == parts[k + 1];
      SplitJoin(rest, sep);
      SplitCons(parts[0], JoinOn(rest, sep), sep);
      assert parts == [parts[0]] + rest;
    }
  }

  /** Splitting at the first separator. */
  lemma SplitCons(a: string, b: string, sep: char)
    requires sep !in a
    ensures SplitOn(a + [sep] + b, sep) == [a] + SplitOn(b, sep)
  {
    var s := a + [sep] + b;
    assert s[|a|] == sep;
    assert s[..|a|] == a;
    IndexOfAt(s, sep, |a|);
    assert s[|a| + 1..] == b;
  }

  lemma IndexOfAt(s: string, c: char, i: nat)
    requires i < |s| && s[i] == c && c !in s[..i]
    ensures IndexOf(s, c) == i
  {
    var j := IndexOf(s, c);
    assert forall k | 0 <= k < i :: s[..i][k] == s[k];
    assert forall k | 0 <= k < j :: s[..j][k] == s[k];
  }

  // ---------------------------------------------------------------------------
  // int() and str() of decimal numbers

  predicate AllDigits(s: string) {
    forall k | 0 <= k < |s| :: IsDigit(s[k])
  }

  /** Python's int(s) for a string of ASCII digits. */
  function DecimalValue(s: string): nat
    requires AllDigits(s)
  {
    if s == [] then 0 else 10 * DecimalValue(s[..|s| - 1]) + (s[|s| - 1] as int - '0' as int)
  }

  /** Python's str(n) for a natural number. */
  function DecimalString(n: nat): (s: string)
    ensures |s| > 0 && AllDigits(s)
  {
    if n < 10 then [('0' as int + n) as char]
    else DecimalString(n / 10) + [('0' as int + n % 10) as char]
  }

  lemma {:induction false} DecimalRoundTrip(n: nat)
    ensures DecimalValue(DecimalString(n)) == n
  {
    var s := DecimalString(n);
    if n >= 10 {
      DecimalRoundTrip(n / 10);
      assert s[..|s| - 1] == DecimalString(n / 10);
    } else {
      assert s[..|s| - 1] == [];
    }
  }

  // ---------------------------------------------------------------------------
  // re.search(r'\((\d+)\)', s)

  /** The regular expression `\((\d+)\)` matches s[i..j+1]: an opening
      parenthesis at i, one or more digits, a closing parenthesis at j. */
  predicate ParenMatch(s: string, i: nat, j: nat) {
    i + 1 < j < |s| && s[i] == '(' && s[j] == ')' && AllDigits(s[i + 1..j])
  }

  /** End of the run of digits that starts at `j`. */
  function DigitRunEnd(s: string, j: nat): (e: nat)
    requires j <= |s|
    ensures j <= e <= |s|
    decreases |s| - j
  {
    if j < |s| && IsDigit(s[j]) then DigitRunEnd(s, j + 1) else j
  }

  lemma {:induction false} DigitRunEndSpec(s: string, j: nat)
    requires j <= |s|
    ensures var e := DigitRunEnd(s, j); AllDigits(s[j..e]) && (e < |s| ==> !IsDigit(s[e]))
    decreases |s| - j
  {
    if j < |s| && IsDigit(s[j]) {
      DigitRunEndSpec(s, j + 1);
      var e := DigitRunEnd(s, j);
      assert s[j..e] == [s[j]] + s[j + 1..e];
    }
  }

  /** Whether the pattern matches at `i`, decided by scanning the digit run. */
  predicate MatchesAt(s: string, i: nat) {
    i < |s| && s[i] == '(' && var e := DigitRunEnd(s, i + 1); e > i + 1 && e < |s| && s[e] == ')'
  }

  function MetricFrom(s: string, i: nat): Option<nat>
    decreases |s| - i
  {
    if i >= |s| then None
    else if MatchesAt(s, i) then
      DigitRunEndSpec(s, i + 1);
      Some(DecimalValue(s[i + 1..DigitRunEnd(s, i + 1)]))
    else MetricFrom(s, i + 1)
  }

  /** int(group(1)) of the leftmost match of `\((\d+)\)`, or None. */
  function Metric(s: string): Option<nat> {
    MetricFrom(s, 0)
  }

  /** A match at i can only close at the end of the digit run after i. */
  lemma MatchesAtIff(s: string, i: nat)
    ensures MatchesAt(s, i) <==> exists j: nat :: ParenMatch(s, i, j)
    ensures forall j: nat :: ParenMatch(s, i, j) ==> j == DigitRunEnd(s, i + 1)
  {
    forall j: nat | ParenMatch(s, i, j) ensures j == DigitRunEnd(s, i + 1) {
      var e := DigitRunEnd(s, i + 1);
      DigitRunEndSpec(s, i + 1);
      assert forall k | i + 1 <= k < j :: s[k] == s[i + 1..j][k - (i + 1)];
      assert forall k | i + 1 <= k < e :: s[k] == s[i + 1..e][k - (i + 1)];
    }
    if MatchesAt(s, i) {
      DigitRunEndSpec(s, i + 1);
      assert ParenMatch(s, i, DigitRunEnd(s, i + 1));
    }
  }

  /** Metric is the value of the leftmost match, and None exactly when the
      pattern matches nowhere. */
  lemma {:induction false} MetricIsLeftmostMatch(s: string, i: nat)
    ensures MetricFrom(s, i).None? <==> forall k: nat, j: nat :: i <= k ==> !ParenMatch(s, k, j)
    ensures MetricFrom(s, i).Some? ==>
      exists k: nat, j: nat :: i <= k && ParenMatch(s, k, j)
        && (forall k': nat, j': nat :: i <= k' < k ==> !ParenMatch(s, k', j'))
        && MetricFrom(s, i).value == DecimalValue(s[k + 1..j])
    decreases |s| - i
  {
    if i >= |s| {
    } else {
      MatchesAtIff(s, i);
      if MatchesAt(s, i) {
        var j := DigitRunEnd(s, i + 1);
        assert ParenMatch(s, i, j);
      } else {
        MetricIsLeftmostMatch(s, i + 1);
        if MetricFrom(s, i + 1).Some? {
          var k: nat, j: nat :| i + 1 <= k && ParenMatch(s, k, j)
            && (forall k': nat, j': nat :: i + 1 <= k' < k ==> !ParenMatch(s, k', j'))
            && MetricFrom(s, i + 1).value == DecimalValue(s[k + 1..j]);
          assert forall k': nat, j': nat :: i <= k' < k ==> !ParenMatch(s, k', j');
        }
      }
    }
  }
}
