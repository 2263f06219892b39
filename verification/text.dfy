/** String helpers with the semantics of the Python `str` methods the crawler relies on:
    `strip()`, `split()`, `' '.join(...)`, `split(',')`, the `in` substring test and
    `lower()`. Strings are sequences of Unicode scalar values. */
module Text {

  import opened Base

  /** Python's `str.isspace` on one character: the separators `str.split()` and
      `str.strip()` use when called without arguments. */
  predicate IsSpace(c: char) {
    || ('\U{9}' <= c <= '\U{D}')
    || ('\U{1C}' <= c <= '\U{20}')
    || c == '\U{85}' || c == '\U{A0}' || c == '\U{1680}'
    || ('\U{2000}' <= c <= '\U{200A}')
    || c == '\U{2028}' || c == '\U{2029}' || c == '\U{202F}' || c == '\U{205F}'
    || c == '\U{3000}'
  }

  predicate NoSpace(s: string) {
    forall i :: 0 <= i < |s| ==> !IsSpace(s[i])
  }

  /** A string `strip()` leaves alone: it neither starts nor ends with whitespace. */
  predicate Stripped(s: string) {
    |s| == 0 || (!IsSpace(s[0]) && !IsSpace(s[|s| - 1]))
  }

  /** Number of leading whitespace characters `strip()` removes. */
  function LeadingSpaces(s: string): (n: nat)
    ensures n <= |s|
    ensures n < |s| ==> !IsSpace(s[n])
    decreases |s|
  {
    if |s| > 0 && IsSpace(s[0]) then
      var m := LeadingSpaces(s[1..]);
      assert m < |s| - 1 ==> s[1..][m] == s[m + 1];
      1 + m
    else 0
  }

  /** Number of trailing whitespace characters `strip()` removes. */
  function TrailingSpaces(s: string): (n: nat)
    ensures n <= |s|
    ensures n < |s| ==> !IsSpace(s[|s| - 1 - n])
    ensures |s| > 0 && !IsSpace(s[0]) ==> n < |s|
    decreases |s|
  {
    if |s| > 0 && IsSpace(s[|s| - 1]) then
      var m := TrailingSpaces(s[..|s| - 1]);
      assert m < |s| - 1 ==> s[..|s| - 1][|s| - 2 - m] == s[|s| - 2 - m];
      1 + m
    else 0
  }

  /** Python `s.lstrip()`. */
  function TrimLeft(s: string): (r: string)
    ensures |r| <= |s|
    ensures |r| == 0 || !IsSpace(r[0])
  {
    s[LeadingSpaces(s)..]
  }

  /** Python `s.strip()`. */
  function Strip(s: string): (r: string)
    ensures Stripped(r)
    ensures |r| <= |s|
  {
    var t := TrimLeft(s);
    t[..|t| - TrailingSpaces(t)]
  }

  lemma {:induction false} LeadingCut(s: string)
    ensures forall i :: 0 <= i < LeadingSpaces(s) ==> IsSpace(s[i])
    decreases |s|
  {
    if |s| > 0 && IsSpace(s[0]) {
      LeadingCut(s[1..]);
      forall i | 1 <= i < LeadingSpaces(s)
        ensures IsSpace(s[i])
      {
        assert s[i] == s[1..][i - 1];
      }
    }
  }

  lemma {:induction false} TrailingCut(s: string)
    ensures forall i :: |s| - TrailingSpaces(s) <= i < |s| ==> IsSpace(s[i])
    decreases |s|
  {
    if |s| > 0 && IsSpace(s[|s| - 1]) {
      TrailingCut(s[..|s| - 1]);
      forall i | |s| - TrailingSpaces(s) <= i < |s| - 1
        ensures IsSpace(s[i])
      {
        assert s[i] == s[..|s| - 1][i];
      }
    }
  }

  /** What `strip()` keeps is a contiguous slice of `s`, and everything it cuts away
      on either side is whitespace. */
  lemma StripFacts(s: string)
    ensures var r := Strip(s);
      && LeadingSpaces(s) + |r| <= |s|
      && r == s[LeadingSpaces(s)..LeadingSpaces(s) + |r|]
      && (forall i :: 0 <= i < LeadingSpaces(s) ==> IsSpace(s[i]))
      && (forall i :: LeadingSpaces(s) + |r| <= i < |s| ==> IsSpace(s[i]))
  {
    var lo := LeadingSpaces(s);
    var t := TrimLeft(s);
    var r := Strip(s);
    LeadingCut(s);
    TrailingCut(t);
    assert r == s[lo..lo + |r|];
    forall i | lo + |r| <= i < |s|
      ensures IsSpace(s[i])
    {
      assert s[i] == t[i - lo];
    }
  }

  /** A string with no whitespace character at all strips to the empty string
      exactly when it is empty; one with any non-whitespace character keeps it. */
  lemma StripEmptyIffBlank(s: string)
    ensures Strip(s) == "" <==> forall i :: 0 <= i < |s| ==> IsSpace(s[i])
  {
    var r := Strip(s);
    var lo := LeadingSpaces(s);
    StripFacts(s);
    if r != "" {
      assert s[lo] == r[0];
    }
  }

  /** `strip()` is the identity on a stripped string, hence idempotent. */
  lemma StrippedFixed(s: string)
    requires Stripped(s)
    ensures Strip(s) == s
  {
  }

  /** Length of the leading run of non-whitespace characters. */
  function WordLen(s: string): (n: nat)
    ensures n <= |s|
    ensures NoSpace(s[..n])
    ensures n < |s| ==> IsSpace(s[n])
    decreases |s|
  {
    if |s| == 0 || IsSpace(s[0]) then 0
    else
      var m := WordLen(s[1..]);
      assert s[..m + 1] == [s[0]] + s[1..][..m];
      m + 1
  }

  /** Python `s.split()` without arguments: the maximal runs of non-whitespace
      characters, in order. */
  function Words(s: string): (ws: seq<string>)
    ensures forall k :: 0 <= k < |ws| ==> |ws[k]| > 0 && NoSpace(ws[k])
    decreases |s|
  {
    var t := TrimLeft(s);
    if |t| == 0 then []
    else
      var n := WordLen(t);
      [t[..n]] + Words(t[n..])
  }

  /** Python `' '.join(ws)`. */
  function JoinSpace(ws: seq<string>): string {
    if |ws| == 0 then ""
    else if |ws| == 1 then ws[0]
    else ws[0] + " " + JoinSpace(ws[1..])
  }

  /** `' '.join(s.split())`: whitespace runs become one space, ends are trimmed. */
  function Collapse(s: string): string {
    JoinSpace(Words(s))
  }

  /** The shape `Collapse` produces: the only whitespace is a plain space, never at
      either end and always followed by a non-whitespace character. */
  predicate Collapsed(s: string) {
    forall i :: 0 <= i < |s| ==> SpaceAt(s, i)
  }

  /** Position `i` of `s` respects the collapsed shape. */
  predicate SpaceAt(s: string, i: nat)
    requires i < |s|
  {
    IsSpace(s[i]) ==> s[i] == ' ' && 0 < i < |s| - 1 && !IsSpace(s[i + 1])
  }

  lemma CollapsedIsStripped(s: string)
    requires Collapsed(s)
    ensures Stripped(s)
  {
    if |s| > 0 {
      assert SpaceAt(s, 0);
      assert SpaceAt(s, |s| - 1);
    }
  }

  lemma {:induction false} JoinSpaceCollapsed(ws: seq<string>)
    requires forall k :: 0 <= k < |ws| ==> |ws[k]| > 0 && NoSpace(ws[k])
    ensures Collapsed(JoinSpace(ws))
    ensures |ws| > 0 ==> |JoinSpace(ws)| > 0
    decreases |ws|
  {
    if |ws| >= 2 {
      JoinSpaceCollapsed(ws[1..]);
      var a, b := ws[0], JoinSpace(ws[1..]);
      var s := a + " " + b;
      assert JoinSpace(ws) == s;
      forall i | 0 <= i < |s|
        ensures SpaceAt(s, i)
      {
        if i < |a| {
          assert s[i] == a[i];
        } else if i == |a| {
          assert s[i + 1] == b[0];
        } else if i > |a| {
          assert s[i] == b[i - |a| - 1];
          assert SpaceAt(b, i - |a| - 1);
          if i + 1 < |s| {
            assert s[i + 1] == b[i - |a|];
          }
        }
      }
    }
  }

  /** The result of `' '.join(s.split())` has the collapsed shape. */
  lemma CollapseIsCollapsed(s: string)
    ensures Collapsed(Collapse(s))
  {
    JoinSpaceCollapsed(Words(s));
  }

  lemma WordsOfNonBlank(s: string)
    requires |s| > 0 && !IsSpace(s[0])
    ensures |Words(s)| > 0
  {
  }

  /** The tail after the first word and its separating space is still collapsed. */
  lemma CollapsedTail(s: string, n: nat)
    requires Collapsed(s) && n + 1 < |s| && IsSpace(s[n])
    ensures Collapsed(s[n + 1..])
  {
    var rest := s[n + 1..];
    assert SpaceAt(s, n);
    forall i | 0 <= i < |rest|
      ensures SpaceAt(rest, i)
    {
      assert rest[i] == s[n + 1 + i];
      assert SpaceAt(s, n + 1 + i);
      if i + 1 < |rest| {
        assert rest[i + 1] == s[n + 2 + i];
      }
    }
  }

  /** `split()` of a string that starts with a word followed by one space. */
  lemma WordsAfterFirstSpace(s: string, n: nat)
    requires |s| > 0 && !IsSpace(s[0]) && n == WordLen(s) && n + 1 < |s|
    requires !IsSpace(s[n + 1])
    ensures Words(s) == [s[..n]] + Words(s[n + 1..])
  {
    assert TrimLeft(s) == s;
    assert s[n..][1..] == s[n + 1..];
    assert TrimLeft(s[n..]) == TrimLeft(s[n + 1..]);
  }

  lemma JoinSpaceCons(w: string, ws: seq<string>)
    requires |ws| > 0
    ensures JoinSpace([w] + ws) == w + " " + JoinSpace(ws)
  {
    assert ([w] + ws)[1..] == ws;
  }

  lemma Reassemble(s: string, n: nat)
    requires n < |s| && s[n] == ' '
    ensures s == s[..n] + " " + s[n + 1..]
  {
  }

  /** On a collapsed string `' '.join(s.split())` changes nothing. */
  lemma {:induction false} CollapsedFixed(s: string)
    requires Collapsed(s)
    ensures Collapse(s) == s
    decreases |s|
  {
    if |s| > 0 {
      assert SpaceAt(s, 0);
      var n := WordLen(s);
      if n == |s| {
        assert TrimLeft(s) == s;
        assert s[n..] == [];
        assert Words(s) == [s[..n]] + Words(s[n..]);
        assert s[..n] == s;
      } else {
        var rest := s[n + 1..];
        assert IsSpace(s[n]) && SpaceAt(s, n);
        CollapsedTail(s, n);
        WordsAfterFirstSpace(s, n);
        CollapsedFixed(rest);
        WordsOfNonBlank(rest);
        JoinSpaceCons(s[..n], Words(rest));
        assert Collapse(s) == s[..n] + " " + Collapse(rest);
        Reassemble(s, n);
      }
    }
  }

  /** Collapsing twice is collapsing once. */
  lemma CollapseIdempotent(s: string)
    ensures Collapse(Collapse(s)) == Collapse(s)
  {
    CollapseIsCollapsed(s);
    CollapsedFixed(Collapse(s));
  }

  /** A collapsed prefix followed by a non-whitespace suffix is still collapsed;
      this is why `title[:197] + "..."` keeps the collapsed shape. */
  lemma CollapsedPrefixThenWord(s: string, k: nat, w: string)
    requires Collapsed(s) && k <= |s| && |w| > 0 && NoSpace(w)
    requires k > 0
    ensures Collapsed(s[..k] + w)
  {
    var t := s[..k] + w;
    forall i | 0 <= i < |t|
      ensures SpaceAt(t, i)
    {
      if i < k {
        assert t[i] == s[i];
        assert SpaceAt(s, i);
        if i + 1 < k {
          assert t[i + 1] == s[i + 1];
        } else {
          assert t[i + 1] == w[0];
        }
      }
    }
  }

  /** Python `s.split(sep)` with an explicit one-character separator: one more piece
      than there are separators, empty pieces kept. */
  function SplitOn(s: string, sep: char): (parts: seq<string>)
    ensures |parts| >= 1
    ensures forall k :: 0 <= k < |parts| ==> sep !in parts[k]
    decreases |s|
  {
    if |s| == 0 then [""]
    else
      var rest := SplitOn(s[1..], sep);
      if s[0] == sep then [""] + rest
      else [[s[0]] + rest[0]] + rest[1..]
  }

  /** Python `sep.join(parts)` with a one-character separator. */
  function JoinOn(parts: seq<string>, sep: char): string {
    if |parts| == 0 then ""
    else if |parts| == 1 then parts[0]
    else parts[0] + [sep] + JoinOn(parts[1..], sep)
  }

  /** Joining the pieces of a split restores the original string. */
  lemma {:induction false} JoinSplit(s: string, sep: char)
    ensures JoinOn(SplitOn(s, sep), sep) == s
    decreases |s|
  {
    if |s| > 0 {
      var rest := SplitOn(s[1..], sep);
      JoinSplit(s[1..], sep);
      if s[0] == sep {
        assert SplitOn(s, sep) == [""] + rest;
        assert ([""] + rest)[1..] == rest;
        assert s == [sep] + s[1..];
      } else {
        var parts := SplitOn(s, sep);
        assert parts == [[s[0]] + rest[0]] + rest[1..];
        if |rest| == 1 {
          assert JoinOn(parts, sep) == [s[0]] + rest[0];
          assert s == [s[0]] + s[1..];
        } else {
          assert parts[1..] == rest[1..];
          assert JoinOn(rest, sep) == rest[0] + [sep] + JoinOn(rest[1..], sep);
          assert s == [s[0]] + s[1..];
        }
      }
    }
  }

  /** Splitting a join of separator-free pieces gives the pieces back. */
  lemma {:induction false} SplitJoin(parts: seq<string>, sep: char)
    requires |parts| >= 1
    requires forall k :: 0 <= k < |parts| ==> sep !in parts[k]
    ensures SplitOn(JoinOn(parts, sep), sep) == parts
    decreases |parts|
  {
    if |parts| == 1 {
      SplitSepFree(parts[0], sep);
    } else {
      SplitJoin(parts[1..], sep);
      SplitWordThenSep(parts[0], JoinOn(parts[1..], sep), sep);
      assert [parts[0]] + parts[1..] == parts;
    }
  }

  lemma {:induction false} SplitSepFree(w: string, sep: char)
    requires sep !in w
    ensures SplitOn(w, sep) == [w]
    decreases |w|
  {
    if |w| > 0 {
      assert sep !in w[1..];
      SplitSepFree(w[1..], sep);
      assert w[0] != sep;
      assert [w[0]] + w[1..] == w;
    }
  }

  lemma {:induction false} SplitWordThenSep(w: string, tail: string, sep: char)
    requires sep !in w
    ensures SplitOn(w + [sep] + tail, sep) == [w] + SplitOn(tail, sep)
    decreases |w|
  {
    var s := w + [sep] + tail;
    if |w| == 0 {
      assert s == [sep] + tail;
      assert s[1..] == tail;
    } else {
      assert s[1..] == w[1..] + [sep] + tail;
      assert sep !in w[1..];
      SplitWordThenSep(w[1..], tail, sep);
      assert s[0] == w[0] && w[0] != sep;
      assert [w[0]] + w[1..] == w;
    }
  }

  /** Python `needle in hay` on strings. */
  predicate IsSubstring(needle: string, hay: string)
    decreases |hay|
  {
    needle <= hay || (|hay| > 0 && IsSubstring(needle, hay[1..]))
  }

  lemma {:induction false} SubstringAt(needle: string, hay: string)
    ensures IsSubstring(needle, hay) <==>
      exists i :: 0 <= i <= |hay| - |needle| && needle <= hay[i..]
    decreases |hay|
  {
    if |hay| > 0 {
      SubstringAt(needle, hay[1..]);
      if IsSubstring(needle, hay[1..]) {
        var i :| 0 <= i <= |hay[1..]| - |needle| && needle <= hay[1..][i..];
        assert hay[1..][i..] == hay[i + 1..];
      }
      if exists i :: 0 <= i <= |hay| - |needle| && needle <= hay[i..] {
        var i :| 0 <= i <= |hay| - |needle| && needle <= hay[i..];
        if i > 0 {
          assert hay[1..][i - 1..] == hay[i..];
        }
      }
    } else {
      if exists i :: 0 <= i <= |hay| - |needle| && needle <= hay[i..] {
        var i :| 0 <= i <= |hay| - |needle| && needle <= hay[i..];
        assert i == 0;
      }
    }
  }

  /** Python `any(n in hay for n in needles)`. */
  predicate AnySubstring(needles: seq<string>, hay: string) {
    exists k :: 0 <= k < |needles| && IsSubstring(needles[k], hay)
  }

  /** The same test written as the left-to-right loop `any` runs. */
  function AnySubstringScan(needles: seq<string>, hay: string): (r: bool)
    ensures r <==> AnySubstring(needles, hay)
  {
    if |needles| == 0 then false
    else
      var rest := AnySubstringScan(needles[1..], hay);
      assert AnySubstring(needles[1..], hay) ==> AnySubstring(needles, hay) by {
        if AnySubstring(needles[1..], hay) {
          var k :| 0 <= k < |needles[1..]| && IsSubstring(needles[1..][k], hay);
          assert needles[k + 1] == needles[1..][k];
        }
      }
      assert AnySubstring(needles, hay) && !IsSubstring(needles[0], hay) ==> AnySubstring(needles[1..], hay) by {
        if AnySubstring(needles, hay) && !IsSubstring(needles[0], hay) {
          var k :| 0 <= k < |needles| && IsSubstring(needles[k], hay);
          assert needles[1..][k - 1] == needles[k];
        }
      }
      IsSubstring(needles[0], hay) || rest
  }

  /** ASCII case mapping of Python `str.lower()`. */
  function LowerChar(c: char): char {
    if 'A' <= c <= 'Z' then (c as int + 32) as char else c
  }

  function Lower(s: string): (r: string)
    ensures |r| == |s|
    ensures forall i :: 0 <= i < |s| ==> r[i] == LowerChar(s[i])
  {
    seq(|s|, i requires 0 <= i < |s| => LowerChar(s[i]))
  }

  /** Decimal text of an integer, as Python `str(n)` writes it. */
  function DigitChar(d: nat): char
    requires d < 10
  {
    ('0' as int + d) as char
  }

  function NatDigits(n: nat): (r: string)
    ensures |r| > 0 && AllDigits(r)
    decreases n
  {
    if n < 10 then [DigitChar(n)] else NatDigits(n / 10) + [DigitChar(n % 10)]
  }

  function DecimalString(n: int): (r: string)
    ensures |r| > 0
  {
    if n < 0 then "-" + NatDigits(-n) else NatDigits(n)
  }

  function DigitValue(c: char): nat
    requires '0' <= c <= '9'
  {
    c as int - '0' as int
  }

  predicate AllDigits(s: string) {
    forall i :: 0 <= i < |s| ==> '0' <= s[i] <= '9'
  }

  /** Reads decimal digits back, the way `int(text)` reads a cell. */
  function ParseDigits(s: string): (n: nat)
    requires AllDigits(s)
    decreases |s|
  {
    if |s| == 0 then 0 else ParseDigits(s[..|s| - 1]) * 10 + DigitValue(s[|s| - 1])
  }

  function ParseDecimal(s: string): Option<int> {
    if |s| > 1 && s[0] == '-' && AllDigits(s[1..]) then Some(-(ParseDigits(s[1..]) as int))
    else if |s| > 0 && AllDigits(s) then Some(ParseDigits(s))
    else None
  }

  lemma {:induction false} ParseNatDigits(n: nat)
    ensures ParseDigits(NatDigits(n)) == n
    decreases n
  {
    if n >= 10 {
      ParseNatDigits(n / 10);
      var s := NatDigits(n);
      assert s[..|s| - 1] == NatDigits(n / 10);
      assert s[|s| - 1] == DigitChar(n % 10);
    }
  }

  /** Decimal text reads back as the integer it was written from. */
  lemma DecimalRoundTrip(n: int)
    ensures ParseDecimal(DecimalString(n)) == Some(n)
  {
    var s := DecimalString(n);
    if n < 0 {
      var d := NatDigits(-n);
      assert s == "-" + d;
      assert s[1..] == d;
      ParseNatDigits(-n);
    } else {
      assert s[0] != '-';
      ParseNatDigits(n);
    }
  }
}
