/**
 * The Python string operations the sync core relies on, with their Python
 * semantics: `str.split(sep)`, `str.strip()`, `str.replace(c, '')`,
 * `sub in s`, `str.lower()`, `int(text)`, `str(n)` and the `{n:02}` format.
 */
module Text {

  /** Python's `None` or a value. */
  datatype Option<T> = None | Some(value: T)

  // ---------------------------------------------------------------------------
  // Characters

  /** Python's `str.isspace()` on one character (the characters `strip()` drops). */
  predicate IsSpace(c: char) {
    c == ' ' || ('\t' <= c <= '\r') || ('\U{1C}' <= c <= '\U{1F}') || c == '\U{85}' || c == '\U{A0}'
    || c == '\U{1680}' || ('\U{2000}' <= c <= '\U{200A}') || c == '\U{2028}' || c == '\U{2029}'
    || c == '\U{202F}' || c == '\U{205F}' || c == '\U{3000}'
  }

  /**
   * The white space `int()` skips: that of `str.isspace()` except the ASCII
   * separators U+001C-U+001F, because CPython hands ASCII characters to its
   * digit reader unchanged and that reader skips only tab, the line breaks
   * and the space.
   */
  predicate IntSpace(c: char) {
    IsSpace(c) && !('\U{1C}' <= c <= '\U{1F}')
  }

  predicate IsDigit(c: char) {
    '0' <= c <= '9'
  }

  predicate AllDigits(s: string) {
    forall i :: 0 <= i < |s| ==> IsDigit(s[i])
  }

  // ---------------------------------------------------------------------------
  // Sequences

  /** The head and tail of a concatenation whose left part is non-empty. */
  lemma TailOfConcat<T>(a: seq<T>, b: seq<T>)
    requires a != []
    ensures (a + b)[0] == a[0] && (a + b)[1..] == a[1..] + b
  {
  }

  /** The head and tail of an element put in front of a sequence. */
  lemma ConsTail<T>(x: T, s: seq<T>)
    ensures ([x] + s)[0] == x && ([x] + s)[1..] == s
  {
  }

  /** A non-empty sequence is its head followed by its tail. */
  lemma HeadTail<T>(s: seq<T>)
    requires s != []
    ensures s == [s[0]] + s[1..]
  {
  }

  /** Two sequences built from a head and a tail are equal exactly when heads and tails are. */
  lemma ConsEqual<T>(x: T, r: seq<T>, y: T, t: seq<T>)
    ensures [x] + r == [y] + t <==> x == y && r == t
  {
    if [x] + r == [y] + t {
      assert ([x] + r)[0] == x && ([y] + t)[0] == y;
      assert ([x] + r)[1..] == r && ([y] + t)[1..] == t;
    }
  }

  /** A slice of the tail is the slice of the whole shifted by one. */
  lemma SliceOfTail<T>(s: seq<T>, a: int, b: int)
    requires 1 <= a <= b <= |s|
    ensures s[1..][a - 1..b - 1] == s[a..b]
  {
    forall j | 0 <= j < b - a
      ensures s[1..][a - 1..b - 1][j] == s[a..b][j]
    {
    }
  }

  /** Concatenation is associative. */
  lemma ConcatAssoc<T>(a: seq<T>, b: seq<T>, c: seq<T>)
    ensures a + (b + c) == (a + b) + c
  {
  }

  // ---------------------------------------------------------------------------
  // Substrings and splitting

  /** `sub` occurs in `s` starting at position `i`. */
  predicate MatchAt(s: string, sub: string, i: int) {
    0 <= i && i + |sub| <= |s| && s[i..i + |sub|] == sub
  }

  /** Python's `sub in s`. */
  predicate Contains(s: string, sub: string) {
    exists i :: 0 <= i <= |s| - |sub| && MatchAt(s, sub, i)
  }

  /** Python's `any(p in s for p in phrases)`. */
  predicate ContainsAny(s: string, phrases: seq<string>) {
    exists k :: 0 <= k < |phrases| && Contains(s, phrases[k])
  }

  /**
   * Python's `s.split(sep)` for a non-empty separator: the text between the
   * occurrences of `sep` found scanning left to right.  The first part is
   * always a prefix of `s`.
   */
  function Split(s: string, sep: string): (parts: seq<string>)
    requires |sep| > 0
    ensures |parts| >= 1 && parts[0] <= s
    decreases |s|
  {
    if |s| < |sep| then [s]
    else if s[..|sep|] == sep then [[]] + Split(s[|sep|..], sep)
    else
      var rest := Split(s[1..], sep);
      [[s[0]] + rest[0]] + rest[1..]
  }

  /** An occurrence after the first character is an occurrence in the tail, one position earlier. */
  lemma MatchShift(s: string, sub: string, i: int)
    requires s != [] && 0 < i
    ensures MatchAt(s, sub, i) <==> MatchAt(s[1..], sub, i - 1)
  {
    if i + |sub| <= |s| {
      SliceOfTail(s, i, i + |sub|);
    }
  }

  /**
   * The first part of a split is the text before the first occurrence of the
   * separator: no occurrence starts inside it, and when it is shorter than the
   * text an occurrence starts right after it.
   */
  lemma {:induction false} SplitHead(s: string, sep: string)
    requires |sep| > 0
    ensures var h := Split(s, sep)[0];
      && h <= s
      && (forall i :: 0 <= i < |h| ==> !MatchAt(s, sep, i))
      && (|h| < |s| ==> MatchAt(s, sep, |h|))
    decreases |s|
  {
    var h := Split(s, sep)[0];
    if |s| < |sep| {
      assert h == s;
    } else if s[..|sep|] == sep {
      assert h == [];
    } else {
      var tail := s[1..];
      var r := Split(tail, sep)[0];
      SplitHead(tail, sep);
      assert h == [s[0]] + r;
      forall i | 0 <= i < |h|
        ensures !MatchAt(s, sep, i)
      {
        if i == 0 {
          assert s[0..|sep|] == s[..|sep|];
        } else {
          MatchShift(s, sep, i);
        }
      }
      if |h| < |s| {
        MatchShift(s, sep, |h|);
      }
    }
  }

  /** Python's `sep.join(parts)`. */
  function Join(parts: seq<string>, sep: string): string {
    if |parts| == 0 then []
    else if |parts| == 1 then parts[0]
    else parts[0] + sep + Join(parts[1..], sep)
  }

  /** Splitting loses nothing: joining the parts with the separator gives back the text. */
  lemma {:induction false} SplitJoin(s: string, sep: string)
    requires |sep| > 0
    ensures Join(Split(s, sep), sep) == s
    decreases |s|
  {
    if |s| < |sep| {
    } else if s[..|sep|] == sep {
      var tail := s[|sep|..];
      SplitJoin(tail, sep);
      JoinEmptyHead(Split(tail, sep), sep);
      assert s == s[..|sep|] + tail;
    } else {
      SplitJoin(s[1..], sep);
      JoinCons(s[0], Split(s[1..], sep), sep);
      assert s == [s[0]] + s[1..];
    }
  }

  /** Joining two parts puts the separator between them. */
  lemma JoinTwo(parts: seq<string>, sep: string)
    requires |parts| == 2
    ensures Join(parts, sep) == parts[0] + sep + parts[1]
  {
    assert parts[1..] == [parts[1]];
  }

  /** An empty first part contributes only the separator. */
  lemma JoinEmptyHead(parts: seq<string>, sep: string)
    requires |parts| >= 1
    ensures Join([[]] + parts, sep) == sep + Join(parts, sep)
  {
    assert ([[]] + parts)[1..] == parts;
  }

  /** A character placed at the front of the first part lands at the front of the join. */
  lemma JoinCons(c: char, parts: seq<string>, sep: string)
    requires |parts| >= 1
    ensures Join([[c] + parts[0]] + parts[1..], sep) == [c] + Join(parts, sep)
  {
    var joined := [[c] + parts[0]] + parts[1..];
    if |parts| > 1 {
      assert joined[1..] == parts[1..];
      calc {
        Join(joined, sep);
        ([c] + parts[0]) + sep + Join(parts[1..], sep);
        [c] + (parts[0] + sep + Join(parts[1..], sep));
      }
    }
  }

  /** No part of a split contains the separator. */
  lemma {:induction false} SplitPartsAvoidSep(s: string, sep: string)
    requires |sep| > 0
    ensures forall k :: 0 <= k < |Split(s, sep)| ==> !Contains(Split(s, sep)[k], sep)
    decreases |s|
  {
    var parts := Split(s, sep);
    if |s| < |sep| {
    } else if s[..|sep|] == sep {
      SplitPartsAvoidSep(s[|sep|..], sep);
      assert !Contains([], sep);
    } else {
      var rest := Split(s[1..], sep);
      SplitPartsAvoidSep(s[1..], sep);
      var first := [s[0]] + rest[0];
      assert first <= s;
      forall i | 0 <= i <= |first| - |sep|
        ensures !MatchAt(first, sep, i)
      {
        if i == 0 {
          assert first[..|sep|] == s[..|sep|];
        } else if MatchAt(first, sep, i) {
          assert first[i..i + |sep|] == rest[0][i - 1..i - 1 + |sep|];
          assert MatchAt(rest[0], sep, i - 1);
          assert false;
        }
      }
      assert parts == [first] + rest[1..];
    }
  }

  /** A text without the separator splits into itself alone. */
  lemma {:induction false} SplitWithoutSep(s: string, sep: string)
    requires |sep| > 0
    requires !Contains(s, sep)
    ensures Split(s, sep) == [s]
    decreases |s|
  {
    if |s| >= |sep| {
      assert !MatchAt(s, sep, 0);
      forall i | 0 <= i <= |s[1..]| - |sep|
        ensures !MatchAt(s[1..], sep, i)
      {
        assert s[1..][i..i + |sep|] == s[i + 1..i + 1 + |sep|];
        assert !MatchAt(s, sep, i + 1);
      }
      SplitWithoutSep(s[1..], sep);
      assert [s[0]] + s[1..] == s;
    }
  }

  /** When the first occurrence of `sep` in `a + sep + b` is the one after `a`, `a` is the first part. */
  lemma {:induction false} SplitAtFirst(a: string, sep: string, b: string)
    requires |sep| > 0
    requires forall i :: 0 <= i < |a| ==> !MatchAt(a + sep + b, sep, i)
    ensures Split(a + sep + b, sep) == [a] + Split(b, sep)
    decreases |a|
  {
    var s := a + sep + b;
    if a == [] {
      assert s == sep + b;
      assert s[..|sep|] == sep;
      assert s[|sep|..] == b;
    } else {
      assert !MatchAt(s, sep, 0);
      assert s[1..] == a[1..] + sep + b;
      forall i | 0 <= i < |a[1..]|
        ensures !MatchAt(a[1..] + sep + b, sep, i)
      {
        assert !MatchAt(s, sep, i + 1);
        assert s[1..][i..i + |sep|] == s[i + 1..i + 1 + |sep|];
      }
      SplitAtFirst(a[1..], sep, b);
      assert [a[0]] + a[1..] == a;
    }
  }

  /** A text without the first character of `sub` does not contain `sub`. */
  lemma HeadAbsent(s: string, sub: string)
    requires sub != [] && sub[0] !in s
    ensures !Contains(s, sub)
  {
    forall i | 0 <= i <= |s| - |sub|
      ensures !MatchAt(s, sub, i)
    {
      assert s[i] in s;
      assert s[i..i + |sub|][0] == s[i];
    }
  }

  /** When `a` lacks the first character of `sep`, `a` is the first part of `a + sep + b`. */
  lemma SplitAtHead(a: string, sep: string, b: string)
    requires sep != [] && sep[0] !in a
    ensures Split(a + sep + b, sep) == [a] + Split(b, sep)
  {
    forall i | 0 <= i < |a|
      ensures !MatchAt(a + sep + b, sep, i)
    {
      assert (a + sep + b)[i] == a[i];
      assert a[i] in a;
    }
    SplitAtFirst(a, sep, b);
  }

  // ---------------------------------------------------------------------------
  // Stripping and removing characters

  /** `s` without the characters satisfying `space` at its start. */
  function StripLeft(s: string, space: char -> bool): string
    decreases |s|
  {
    if |s| > 0 && space(s[0]) then StripLeft(s[1..], space) else s
  }

  /** `s` without the characters satisfying `space` at its end. */
  function StripRight(s: string, space: char -> bool): string
    decreases |s|
  {
    if |s| > 0 && space(s[|s| - 1]) then StripRight(s[..|s| - 1], space) else s
  }

  /** Python's `s.strip()`: `s` without the white space at its two ends. */
  function Strip(s: string): string {
    StripRight(StripLeft(s, IsSpace), IsSpace)
  }

  /** The white space `int()` skips around a number: `s` without the `IntSpace` characters at its two ends. */
  function IntStrip(s: string): string {
    StripRight(StripLeft(s, IntSpace), IntSpace)
  }

  lemma {:induction false} StripLeftDropsSpace(s: string, space: char -> bool)
    ensures var r := StripLeft(s, space);
      |r| <= |s| && r == s[|s| - |r|..]
      && (forall i :: 0 <= i < |s| - |r| ==> space(s[i]))
      && (r == [] || !space(r[0]))
    decreases |s|
  {
    if |s| > 0 && space(s[0]) {
      var t := s[1..];
      StripLeftDropsSpace(t, space);
      var r := StripLeft(t, space);
      assert StripLeft(s, space) == r;
      assert t[|t| - |r|..] == s[|s| - |r|..];
      forall i | 0 <= i < |s| - |r| ensures space(s[i]) {
        if i > 0 { assert s[i] == t[i - 1]; }
      }
    }
  }

  lemma {:induction false} StripRightDropsSpace(s: string, space: char -> bool)
    ensures var r := StripRight(s, space);
      |r| <= |s| && r == s[..|r|]
      && (forall i :: |r| <= i < |s| ==> space(s[i]))
      && (r == [] || !space(r[|r| - 1]))
    decreases |s|
  {
    if |s| > 0 && space(s[|s| - 1]) {
      StripRightDropsSpace(s[..|s| - 1], space);
    }
  }

  /**
   * What `strip()` drops is white space at the two ends, and what it keeps
   * starts and ends with a non-space character: `s == s[..lead] + Strip(s) + trail`.
   */
  lemma StripIsTrimmedSlice(s: string) returns (lead: nat)
    ensures var r := Strip(s);
      (r == [] || (!IsSpace(r[0]) && !IsSpace(r[|r| - 1])))
      && lead + |r| <= |s| && s[lead..lead + |r|] == r
      && (forall i :: 0 <= i < lead ==> IsSpace(s[i]))
      && (forall i :: lead + |r| <= i < |s| ==> IsSpace(s[i]))
  {
    var left := StripLeft(s, IsSpace);
    StripLeftDropsSpace(s, IsSpace);
    StripRightDropsSpace(left, IsSpace);
    lead := |s| - |left|;
    assert forall i :: lead <= i < |s| ==> s[i] == left[i - lead];
  }

  /** A text that neither starts nor ends with white space is its own strip. */
  lemma StripTrimmed(s: string)
    requires s == [] || (!IsSpace(s[0]) && !IsSpace(s[|s| - 1]))
    ensures Strip(s) == s
  {
  }

  /** A text that neither starts nor ends with the white space `int()` skips is left whole by it. */
  lemma IntStripTrimmed(s: string)
    requires s == [] || (!IntSpace(s[0]) && !IntSpace(s[|s| - 1]))
    ensures IntStrip(s) == s
  {
  }

  /** Python's `s.replace(c, '')` for a one-character `c`: every `c` is gone, everything else stays. */
  function Remove(s: string, c: char): (r: string)
    ensures c !in r
    ensures c !in s ==> r == s
    decreases |s|
  {
    if s == [] then []
    else (if s[0] == c then [] else [s[0]]) + Remove(s[1..], c)
  }

  lemma {:induction false} RemoveKeeps(s: string, c: char)
    ensures forall x :: x in Remove(s, c) ==> x in s
    decreases |s|
  {
    if s != [] {
      RemoveKeeps(s[1..], c);
    }
  }

  lemma {:induction false} RemoveConcat(a: string, b: string, c: char)
    ensures Remove(a + b, c) == Remove(a, c) + Remove(b, c)
    decreases |a|
  {
    if a == [] {
      assert a + b == b;
    } else {
      var head := if a[0] == c then [] else [a[0]];
      TailOfConcat(a, b);
      RemoveConcat(a[1..], b, c);
      ConcatAssoc(head, Remove(a[1..], c), Remove(b, c));
    }
  }

  lemma RemoveSingle(c: char)
    ensures Remove([c], c) == []
  {
    assert [c][1..] == [];
  }

  /** Removing the one `c` between two texts without it joins them. */
  lemma RemoveOne(a: string, c: char, b: string)
    requires c !in a && c !in b
    ensures Remove(a + [c] + b, c) == a + b
  {
    var ra, rc, rb := Remove(a, c), Remove([c], c), Remove(b, c);
    RemoveSingle(c);
    RemoveConcat(a, [c], c);
    RemoveConcat(a + [c], b, c);
    assert ra + rc == a;
  }

  // ---------------------------------------------------------------------------
  // Numbers as text

  function DigitChar(d: nat): (c: char)
    requires d < 10
    ensures IsDigit(c) && c as int - '0' as int == d
  {
    ('0' as int + d) as char
  }

  /** The value of a string of decimal digits. */
  function DigitsValue(s: string): nat
    requires AllDigits(s)
    decreases |s|
  {
    if s == [] then 0 else 10 * DigitsValue(s[..|s| - 1]) + (s[|s| - 1] as int - '0' as int)
  }

  /** Python's `str(n)` for `n >= 0`: decimal digits without leading zeros. */
  function NatToString(n: nat): (s: string)
    ensures |s| >= 1 && AllDigits(s)
    ensures |s| > 1 ==> s[0] != '0'
    decreases n
  {
    if n < 10 then [DigitChar(n)] else NatToString(n / 10) + [DigitChar(n % 10)]
  }

  lemma {:induction false} NatToStringRoundTrip(n: nat)
    ensures DigitsValue(NatToString(n)) == n
    decreases n
  {
    if n >= 10 {
      var s := NatToString(n);
      assert s[..|s| - 1] == NatToString(n / 10);
      NatToStringRoundTrip(n / 10);
    }
  }

  /** Different numbers print differently. */
  lemma NatToStringInjective(m: nat, n: nat)
    requires NatToString(m) == NatToString(n)
    ensures m == n
  {
    NatToStringRoundTrip(m);
    NatToStringRoundTrip(n);
  }

  lemma {:induction false} LeadingZero(s: string)
    requires AllDigits(s)
    ensures AllDigits(['0'] + s) && DigitsValue(['0'] + s) == DigitsValue(s)
    decreases |s|
  {
    if s != [] {
      assert (['0'] + s)[..|s|] == ['0'] + s[..|s| - 1];
      LeadingZero(s[..|s| - 1]);
    }
  }

  /** Python's `f"{n:02}"` for `n >= 0`: at least two digits, zero-padded, with the value `n`. */
  function Pad2(n: nat): (s: string)
    ensures AllDigits(s) && |s| >= 2 && DigitsValue(s) == n
    ensures n < 10 ==> |s| == 2
    ensures n >= 10 ==> s == NatToString(n)
  {
    NatToStringRoundTrip(n);
    if n < 10 then
      LeadingZero(NatToString(n));
      ['0'] + NatToString(n)
    else
      NatToString(n)
  }

  /** Digits as Python's `int()` accepts them: ASCII digits, each `_` followed by a digit. */
  predicate DigitGroup(s: string) {
    |s| > 0 && IsDigit(s[0])
    && forall i :: 0 <= i < |s| ==> GroupChar(s, i)
  }

  /** Position `i` of `s` holds a digit, or an underscore followed by a digit. */
  predicate GroupChar(s: string, i: nat)
    requires i < |s|
  {
    IsDigit(s[i]) || (s[i] == '_' && i + 1 < |s| && IsDigit(s[i + 1]))
  }

  lemma DigitGroupDigits(s: string)
    requires DigitGroup(s)
    ensures AllDigits(Remove(s, '_'))
  {
    var r := Remove(s, '_');
    RemoveKeeps(s, '_');
    forall i | 0 <= i < |r|
      ensures IsDigit(r[i])
    {
      assert r[i] in r && r[i] != '_';
      var j :| 0 <= j < |s| && s[j] == r[i];
      assert GroupChar(s, j);
    }
  }

  /** The value of a digit group, or None when `s` is not one. */
  function ParseDigits(s: string): (r: Option<int>)
    ensures r.Some? ==> r.value >= 0
  {
    if DigitGroup(s) then
      DigitGroupDigits(s);
      Some(DigitsValue(Remove(s, '_')))
    else
      None
  }

  /**
   * Python's `int(text)` in base 10 over ASCII digits: surrounding white
   * space (`IntSpace`) is ignored, one optional sign, then a digit group;
   * anything else raises ValueError (None).  Python also accepts the other
   * Unicode decimal digits, which this model does not.
   */
  function ParseInt(text: string): Option<int> {
    ParseSigned(IntStrip(text))
  }

  /** One optional sign, then a digit group. */
  function ParseSigned(t: string): Option<int> {
    if |t| > 0 && t[0] == '-' then
      match ParseDigits(t[1..])
      case Some(v) => Some(-v)
      case None => None
    else if |t| > 0 && t[0] == '+' then ParseDigits(t[1..])
    else ParseDigits(t)
  }

  /** The digits of `str(n)` form a group whose value is `n`. */
  lemma PrintedDigits(n: nat)
    ensures ParseDigits(NatToString(n)) == Some(n)
  {
    NatToStringRoundTrip(n);
    AllDigitsParse(NatToString(n));
  }

  /** `int(str(n)) == n`. */
  lemma ParseIntRoundTrip(n: nat)
    ensures ParseInt(NatToString(n)) == Some(n)
  {
    var s := NatToString(n);
    PrintedDigits(n);
    assert !IntSpace(s[0]) && !IntSpace(s[|s| - 1]);
    IntStripTrimmed(s);
    assert IsDigit(s[0]);
  }

  /** `int('-' + str(n)) == -n`. */
  lemma ParseNegativeRoundTrip(n: nat)
    ensures ParseInt(['-'] + NatToString(n)) == Some(-(n as int))
  {
    var s := NatToString(n);
    PrintedDigits(n);
    NegativeTrimmed(s, n);
  }

  lemma LastNotSpace(s: string)
    requires |s| > 0 && AllDigits(s)
    ensures !IsSpace(s[|s| - 1])
  {
    assert IsDigit(s[|s| - 1]);
  }

  /** A minus sign before digits with the value `v` parses to `-v`. */
  lemma NegativeTrimmed(s: string, v: nat)
    requires |s| > 0 && AllDigits(s) && ParseDigits(s) == Some(v)
    ensures ParseInt(['-'] + s) == Some(-(v as int))
  {
    MinusTrimmed(s);
    SignedDigits(s);
  }

  /** `int()` skips no white space around a minus sign followed by digits. */
  lemma MinusTrimmed(s: string)
    requires |s| > 0 && AllDigits(s)
    ensures IntStrip(['-'] + s) == ['-'] + s
  {
    var m := ['-'] + s;
    LastNotSpace(s);
    assert m[|m| - 1] == s[|s| - 1];
    IntStripTrimmed(m);
  }

  /** A trimmed text starting with a minus sign reads as the negated digits after it. */
  lemma SignedDigits(s: string)
    requires IntStrip(['-'] + s) == ['-'] + s
    ensures ParseDigits(s).Some? ==> ParseInt(['-'] + s) == Some(-ParseDigits(s).value)
    ensures ParseDigits(s).None? ==> ParseInt(['-'] + s) == None
  {
    ConsTail('-', s);
  }

  /** Every character of `w` is white space to `int()`. */
  predicate IntBlank(w: string) {
    forall i :: 0 <= i < |w| ==> IntSpace(w[i])
  }

  lemma {:induction false} StripLeftPadding(w: string, r: string, space: char -> bool)
    requires forall i :: 0 <= i < |w| ==> space(w[i])
    requires r == [] || !space(r[0])
    ensures StripLeft(w + r, space) == r
    decreases |w|
  {
    if w == [] {
      assert w + r == r;
    } else {
      TailOfConcat(w, r);
      StripLeftPadding(w[1..], r, space);
    }
  }

  lemma {:induction false} StripRightPadding(r: string, w: string, space: char -> bool)
    requires forall i :: 0 <= i < |w| ==> space(w[i])
    requires r == [] || !space(r[|r| - 1])
    ensures StripRight(r + w, space) == r
    decreases |w|
  {
    if w == [] {
      assert r + w == r;
    } else {
      var s := r + w;
      assert s[|s| - 1] == w[|w| - 1];
      assert s[..|s| - 1] == r + w[..|w| - 1];
      StripRightPadding(r, w[..|w| - 1], space);
    }
  }

  /** `int()` reads a trimmed text the same with any of its white space around it. */
  lemma PaddedSigned(w1: string, t: string, w2: string)
    requires IntBlank(w1) && IntBlank(w2)
    requires |t| > 0 && !IntSpace(t[0]) && !IntSpace(t[|t| - 1])
    ensures ParseInt(w1 + t + w2) == ParseSigned(t)
  {
    assert w1 + t + w2 == w1 + (t + w2);
    StripLeftPadding(w1, t + w2, IntSpace);
    StripRightPadding(t, w2, IntSpace);
  }

  /** Any non-empty run of ASCII digits, leading zeros included, is a digit group with its own value. */
  lemma AllDigitsParse(s: string)
    requires |s| > 0 && AllDigits(s)
    ensures ParseDigits(s) == Some(DigitsValue(s))
  {
    assert forall j :: 0 <= j < |s| ==> s[j] != '_';
    assert DigitGroup(s);
    assert Remove(s, '_') == s;
  }

  /**
   * `int(w1 + s + w2)`, `int(w1 + '+' + s + w2)` and `int(w1 + '-' + s + w2)`
   * for digits `s` with the value `v` (leading zeros allowed) and white space
   * `w1`, `w2`: `v`, with the sign applied.
   */
  lemma PaddedDigits(w1: string, s: string, w2: string, v: nat)
    requires IntBlank(w1) && IntBlank(w2)
    requires |s| > 0 && AllDigits(s) && DigitsValue(s) == v
    ensures ParseInt(w1 + s + w2) == Some(v)
    ensures ParseInt(w1 + ['+'] + s + w2) == Some(v)
    ensures ParseInt(w1 + ['-'] + s + w2) == Some(-(v as int))
  {
    AllDigitsParse(s);
    PaddedPlain(w1, s, w2, v);
    SignedPadding(w1, '+', s, w2);
    PlusText(s);
    SignedPadding(w1, '-', s, w2);
    MinusDigits(s, v);
  }

  lemma PaddedPlain(w1: string, s: string, w2: string, v: nat)
    requires IntBlank(w1) && IntBlank(w2)
    requires |s| > 0 && AllDigits(s) && ParseDigits(s) == Some(v)
    ensures ParseInt(w1 + s + w2) == Some(v)
  {
    LastNotSpace(s);
    assert IsDigit(s[0]);
    PaddedSigned(w1, s, w2);
  }

  /** A sign before digits, padded with white space: `int()` reads the signed text alone. */
  lemma SignedPadding(w1: string, sign: char, s: string, w2: string)
    requires IntBlank(w1) && IntBlank(w2)
    requires sign == '+' || sign == '-'
    requires |s| > 0 && AllDigits(s)
    ensures ParseInt(w1 + [sign] + s + w2) == ParseSigned([sign] + s)
  {
    var t := [sign] + s;
    LastNotSpace(s);
    assert t[0] == sign && t[|t| - 1] == s[|s| - 1];
    assert w1 + [sign] + s + w2 == w1 + t + w2;
    PaddedSigned(w1, t, w2);
  }

  /** A plus sign before a digit group reads as the group. */
  lemma PlusText(s: string)
    ensures ParseSigned(['+'] + s) == ParseDigits(s)
  {
    ConsTail('+', s);
  }

  lemma MinusDigits(s: string, v: nat)
    requires ParseDigits(s) == Some(v)
    ensures ParseSigned(['-'] + s) == Some(-(v as int))
  {
    MinusText(s);
  }

  /** A minus sign before a digit group reads as the group negated. */
  lemma MinusText(s: string)
    ensures ParseSigned(['-'] + s) == if ParseDigits(s).Some? then Some(-ParseDigits(s).value) else None
  {
    ConsTail('-', s);
  }

  /** `int()` takes single underscores between digits: `int(a + '_' + b)` is the value of the digits `a + b`. */
  lemma UnderscoredDigits(a: string, b: string, v: nat)
    requires |a| > 0 && |b| > 0 && AllDigits(a + b) && DigitsValue(a + b) == v
    ensures ParseInt(a + ['_'] + b) == Some(v)
  {
    var g := a + ['_'] + b;
    UnderscoreValue(a, b, v);
    assert g[0] == a[0] && g[|g| - 1] == b[|b| - 1];
    assert a[0] == (a + b)[0] && b[|b| - 1] == (a + b)[|a + b| - 1];
    assert IsDigit(g[0]) && IsDigit(g[|g| - 1]);
    PaddedSigned([], g, []);
    assert [] + g + [] == g;
  }

  lemma UnderscoreValue(a: string, b: string, v: nat)
    requires |a| > 0 && |b| > 0 && AllDigits(a + b) && DigitsValue(a + b) == v
    ensures ParseDigits(a + ['_'] + b) == Some(v)
  {
    assert forall i :: 0 <= i < |a| ==> a[i] == (a + b)[i];
    assert forall i :: 0 <= i < |b| ==> b[i] == (a + b)[|a| + i];
    assert AllDigits(a) && AllDigits(b);
    UnderscoreGroup(a, b);
    assert '_' !in a && '_' !in b;
    RemoveOne(a, '_', b);
  }

  lemma UnderscoreGroup(a: string, b: string)
    requires |a| > 0 && AllDigits(a) && |b| > 0 && AllDigits(b)
    ensures DigitGroup(a + ['_'] + b)
  {
    var g := a + ['_'] + b;
    forall i | 0 <= i < |g|
      ensures GroupChar(g, i)
    {
      if i < |a| {
        assert g[i] == a[i];
      } else if i == |a| {
        assert g[i + 1] == b[0];
      } else {
        assert g[i] == b[i - |a| - 1];
      }
    }
  }

  /** `int()` of a text that is white space only, the empty text included, raises ValueError. */
  lemma BlankIsNotNumber(w: string)
    requires IntBlank(w)
    ensures ParseInt(w) == None
  {
    StripLeftPadding(w, [], IntSpace);
    assert w + [] == w;
  }

  /**
   * Conversely, every text `int()` accepts is an optional sign and a digit
   * group with white space around it, and its value is that of the group,
   * negated under a minus sign.
   */
  lemma ParseIntAccepted(text: string) returns (w1: string, sign: string, g: string, w2: string)
    requires ParseInt(text).Some?
    ensures text == w1 + sign + g + w2 && IntBlank(w1) && IntBlank(w2)
    ensures sign == [] || sign == ['+'] || sign == ['-']
    ensures DigitGroup(g) && ParseDigits(g).Some?
    ensures ParseInt(text) == if sign == ['-'] then Some(-ParseDigits(g).value) else ParseDigits(g)
  {
    var t := IntStrip(text);
    w1, w2 := IntStripSplit(text);
    sign, g := SignedAccepted(t);
    assert text == w1 + sign + g + w2;
  }

  /** `int()` drops white space only: the text is that white space around what `int()` reads. */
  lemma IntStripSplit(text: string) returns (w1: string, w2: string)
    ensures text == w1 + IntStrip(text) + w2 && IntBlank(w1) && IntBlank(w2)
  {
    var left := StripLeft(text, IntSpace);
    StripLeftDropsSpace(text, IntSpace);
    w1 := text[..|text| - |left|];
    BlankSlice(text, 0, |text| - |left|);
    var t := StripRight(left, IntSpace);
    StripRightDropsSpace(left, IntSpace);
    w2 := left[|t|..];
    BlankSlice(left, |t|, |left|);
    assert text == w1 + left;
    assert left == t + w2;
    ConcatAssoc(w1, t, w2);
  }

  lemma BlankSlice(s: string, a: nat, b: nat)
    requires a <= b <= |s|
    requires forall i :: a <= i < b ==> IntSpace(s[i])
    ensures IntBlank(s[a..b])
  {
    forall i | 0 <= i < b - a
      ensures IntSpace(s[a..b][i])
    {
      assert s[a..b][i] == s[a + i];
    }
  }

  /** A signed text `int()` accepts is an optional sign followed by a digit group. */
  lemma SignedAccepted(t: string) returns (sign: string, g: string)
    requires ParseSigned(t).Some?
    ensures t == sign + g
    ensures sign == [] || sign == ['+'] || sign == ['-']
    ensures DigitGroup(g) && ParseDigits(g).Some?
    ensures ParseSigned(t) == if sign == ['-'] then Some(-ParseDigits(g).value) else ParseDigits(g)
  {
    if |t| > 0 && (t[0] == '-' || t[0] == '+') {
      sign := [t[0]];
      g := t[1..];
      assert t == sign + g;
    } else {
      sign := [];
      g := t;
      assert t == sign + g;
    }
  }

  /**
   * `int('\x1c' + str(n))` raises ValueError although `'\x1c'.isspace()`:
   * the separators `strip()` drops are not white space to `int()`.
   */
  lemma SeparatorIsNotIntSpace(n: nat)
    ensures IsSpace('\U{1C}')
    ensures ParseInt(['\U{1C}'] + NatToString(n)) == None
  {
    var s := NatToString(n);
    var m := ['\U{1C}'] + s;
    LastNotSpace(s);
    assert m[|m| - 1] == s[|s| - 1];
    IntStripTrimmed(m);
    assert !IsDigit(m[0]);
  }

  // ---------------------------------------------------------------------------
  // Case

  /** Python's `str.lower()` on one character, for the Latin-1 range. */
  function LowerChar(c: char): char {
    if 'A' <= c <= 'Z' || ('\U{C0}' <= c <= '\U{DE}' && c != '\U{D7}') then (c as int + 32) as char else c
  }

  /** Python's `s.lower()`, character by character over the Latin-1 range. */
  function Lower(s: string): (r: string)
    ensures |r| == |s|
  {
    seq(|s|, i requires 0 <= i < |s| => LowerChar(s[i]))
  }
}
