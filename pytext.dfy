/** The Python `str` operations the core relies on, on `seq<char>`:
    strip, lower, split, join, startswith, substring search, splitlines,
    replace, int() and str() of integers. */
module PyText {
  import opened Base

  /** The characters Python's `str.isspace()` accepts; `strip()` and
      `split()` without arguments remove exactly these. */
  predicate IsSpace(c: char)
  {
    var n := c as int;
    (9 <= n <= 13) || (0x1C <= n <= 0x20) || n == 0x85 || n == 0xA0 || n == 0x1680
    || (0x2000 <= n <= 0x200A) || n == 0x2028 || n == 0x2029 || n == 0x202F
    || n == 0x205F || n == 0x3000
  }

  /** The line boundaries of `str.splitlines()`. */
  predicate IsLineBreak(c: char)
  {
    var n := c as int;
    (10 <= n <= 13) || (0x1C <= n <= 0x1E) || n == 0x85 || n == 0x2028 || n == 0x2029
  }

  predicate NoSpaceAtEnds(s: string)
  {
    s == [] || (!IsSpace(s[0]) && !IsSpace(s[|s| - 1]))
  }

  /** `s.lstrip()` */
  function LStrip(s: string): (r: string)
    ensures |r| <= |s|
    ensures r == [] || !IsSpace(r[0])
  {
    if s != [] && IsSpace(s[0]) then LStrip(s[1..]) else s
  }

  /** `s.lstrip(c)`: `s` without its leading run of `c`. */
  function LStripChar(s: string, c: char): (r: string)
    ensures |r| <= |s|
    ensures r == [] || r[0] != c
  {
    if s != [] && s[0] == c then LStripChar(s[1..], c) else s
  }

  /** What `lstrip(c)` removes is a run of leading `c`s. */
  lemma {:induction false} LStripCharIsSuffix(s: string, c: char)
    ensures LStripChar(s, c) == s[|s| - |LStripChar(s, c)|..]
    ensures forall i :: 0 <= i < |s| - |LStripChar(s, c)| ==> s[i] == c
  {
    if s != [] && s[0] == c {
      LStripCharIsSuffix(s[1..], c);
    }
  }

  /** `s.rstrip()` */
  function RStrip(s: string): (r: string)
    ensures |r| <= |s|
    ensures r == [] || !IsSpace(r[|r| - 1])
  {
    if s != [] && IsSpace(s[|s| - 1]) then RStrip(s[..|s| - 1]) else s
  }

  /** What `lstrip` removes is a run of leading whitespace. */
  lemma {:induction false} LStripIsSuffix(s: string)
    ensures LStrip(s) == s[|s| - |LStrip(s)|..]
    ensures forall i :: 0 <= i < |s| - |LStrip(s)| ==> IsSpace(s[i])
  {
    if s != [] && IsSpace(s[0]) {
      LStripIsSuffix(s[1..]);
    }
  }

  /** What `rstrip` removes is a run of trailing whitespace. */
  lemma {:induction false} RStripIsPrefix(s: string)
    ensures RStrip(s) == s[..|RStrip(s)|]
    ensures forall i :: |RStrip(s)| <= i < |s| ==> IsSpace(s[i])
  {
    if s != [] && IsSpace(s[|s| - 1]) {
      RStripIsPrefix(s[..|s| - 1]);
    }
  }

  /** `s.strip()`: the infix of `s` left after dropping whitespace from both
      ends, down to a non-whitespace character at each end. */
  function Strip(s: string): (r: string)
    ensures NoSpaceAtEnds(r)
  {
    RStripIsPrefix(LStrip(s));
    RStrip(LStrip(s))
  }

  /** What `strip` removes is whitespace at both ends. */
  lemma StripIsInfix(s: string)
    ensures var r := Strip(s);
            exists k :: OccursAt(s, r, k) && (forall i :: 0 <= i < k ==> IsSpace(s[i]))
                        && (forall i :: k + |r| <= i < |s| ==> IsSpace(s[i]))
  {
    var l := LStrip(s);
    var r := RStrip(l);
    var k := |s| - |l|;
    LStripIsSuffix(s);
    RStripIsPrefix(l);
    assert r == s[k..k + |r|];
    assert OccursAt(s, r, k);
    forall i | k + |r| <= i < |s|
      ensures IsSpace(s[i])
    {
      assert s[i] == l[i - k];
    }
    assert forall i :: 0 <= i < k ==> IsSpace(s[i]);
    assert r == Strip(s);
  }

  lemma StripOfStripped(s: string)
    requires NoSpaceAtEnds(s)
    ensures Strip(s) == s
  {
  }

  lemma StripEmptyIffBlank(s: string)
    ensures Strip(s) == [] <==> forall i :: 0 <= i < |s| ==> IsSpace(s[i])
  {
    var l := LStrip(s);
    LStripIsSuffix(s);
    RStripIsPrefix(l);
    assert RStrip(l) == [] ==> l == [];
    assert l != [] ==> l[0] == s[|s| - |l|];
  }

  /**
   * The one-character lower-case mapping of Unicode 15.0 for the blocks
   * Basic Latin, Latin-1 Supplement, Latin Extended-A, Greek and Coptic,
   * Cyrillic and Cyrillic Supplement (the alphabets contact names and note
   * texts are written in here); every other character maps to itself.
   */
  function LowerChar(c: char): char
  {
    var n := c as int;
    if 'A' <= c <= 'Z' then (n + 32) as char
    else if 0xC0 <= n <= 0xDE && n != 0xD7 then (n + 32) as char
    else if (0x100 <= n <= 0x12F || 0x132 <= n <= 0x137 || 0x14A <= n <= 0x177) && n % 2 == 0 then (n + 1) as char
    else if (0x139 <= n <= 0x148 || 0x179 <= n <= 0x17E) && n % 2 == 1 then (n + 1) as char
    else if n == 0x178 then 0xFF as char
    else if (0x370 <= n <= 0x373 || n == 0x376 || 0x3D8 <= n <= 0x3EF) && n % 2 == 0 then (n + 1) as char
    else if n == 0x37F then 0x3F3 as char
    else if n == 0x386 then 0x3AC as char
    else if 0x388 <= n <= 0x38A then (n + 37) as char
    else if n == 0x38C then 0x3CC as char
    else if 0x38E <= n <= 0x38F then (n + 63) as char
    else if 0x391 <= n <= 0x3AB && n != 0x3A2 then (n + 32) as char
    else if n == 0x3CF then 0x3D7 as char
    else if n == 0x3F4 then 0x3B8 as char
    else if n == 0x3F7 || n == 0x3FA then (n + 1) as char
    else if n == 0x3F9 then 0x3F2 as char
    else if 0x3FD <= n <= 0x3FF then (n - 130) as char
    else if 0x400 <= n <= 0x40F then (n + 80) as char
    else if 0x410 <= n <= 0x42F then (n + 32) as char
    else if (0x460 <= n <= 0x481 || 0x48A <= n <= 0x4BF || 0x4D0 <= n <= 0x52F) && n % 2 == 0 then (n + 1) as char
    else if n == 0x4C0 then 0x4CF as char
    else if 0x4C1 <= n <= 0x4CE && n % 2 == 1 then (n + 1) as char
    else c
  }

  /** `s.lower()`, character by character through `LowerChar`. */
  function Lower(s: string): (r: string)
    ensures |r| == |s|
    ensures forall i {:trigger r[i]} :: 0 <= i < |s| ==> r[i] == LowerChar(s[i])
  {
    seq(|s|, i requires 0 <= i < |s| => LowerChar(s[i]))
  }

  lemma LowerIdempotent(s: string)
    ensures Lower(Lower(s)) == Lower(s)
  {
    assert forall i :: 0 <= i < |s| ==> LowerChar(LowerChar(s[i])) == LowerChar(s[i]);
  }

  predicate StartsWith(s: string, p: string)
  {
    |p| <= |s| && s[..|p|] == p
  }

  predicate OccursAt(s: string, p: string, i: int)
  {
    0 <= i && i + |p| <= |s| && s[i..i + |p|] == p
  }

  /** `p in s` for strings: `p` is a substring of `s`. */
  predicate Contains(s: string, p: string)
  {
    exists i :: 0 <= i <= |s| - |p| && OccursAt(s, p, i)
  }

  /** `s.find(p)`: the first index at which `p` occurs. */
  function Find(s: string, p: string): (r: Option<nat>)
    ensures r.Some? ==> OccursAt(s, p, r.value) && forall j :: 0 <= j < r.value ==> !OccursAt(s, p, j)
    ensures r.None? ==> !Contains(s, p)
    decreases |s|
  {
    if |p| > |s| then None
    else if s[..|p|] == p then Some(0)
    else
      OccursShifted(s, p);
      match Find(s[1..], p)
      case None => None
      case Some(k) => Some(k + 1)
  }

  /** `p` occurs in `s` past its first character exactly where it occurs
      in `s[1..]`, one position earlier. */
  lemma OccursShifted(s: string, p: string)
    requires s != []
    ensures forall j :: 1 <= j ==> (OccursAt(s, p, j) <==> OccursAt(s[1..], p, j - 1))
  {
    forall j | 1 <= j
      ensures OccursAt(s, p, j) <==> OccursAt(s[1..], p, j - 1)
    {
      if j + |p| <= |s| {
        assert s[1..][j - 1..j - 1 + |p|] == s[j..j + |p|];
      }
    }
  }

  /** `sep.join(parts)` */
  function Join(sep: string, parts: seq<string>): string
  {
    if parts == [] then ""
    else if |parts| == 1 then parts[0]
    else parts[0] + sep + Join(sep, parts[1..])
  }

  /** `s.split(sep)` for a one-character separator: empty pieces are kept. */
  function Split(s: string, sep: char): (r: seq<string>)
    ensures |r| >= 1
    ensures forall i :: 0 <= i < |r| ==> sep !in r[i]
  {
    if s == [] then [""]
    else
      var rest := Split(s[1..], sep);
      if s[0] == sep then [""] + rest else [[s[0]] + rest[0]] + rest[1..]
  }

  lemma {:induction false} JoinSplit(s: string, sep: char)
    ensures Join([sep], Split(s, sep)) == s
  {
    if s != [] {
      JoinSplit(s[1..], sep);
      var rest := Split(s[1..], sep);
      if s[0] != sep && |rest| > 1 {
        assert Join([sep], [[s[0]] + rest[0]] + rest[1..]) == [s[0]] + rest[0] + [sep] + Join([sep], rest[1..]);
      }
    }
  }

  function CountChar(s: string, c: char): nat
  {
    if s == [] then 0 else (if s[0] == c then 1 else 0) + CountChar(s[1..], c)
  }

  /** `s` with every occurrence of `c` removed. */
  function Without(s: string, c: char): (r: string)
    ensures c !in r
  {
    if s == [] then [] else (if s[0] == c then [] else [s[0]]) + Without(s[1..], c)
  }

  /** Splitting on `sep` gives one piece more than there are separators. */
  lemma {:induction false} SplitCount(s: string, sep: char)
    ensures |Split(s, sep)| == CountChar(s, sep) + 1
  {
    if s != [] {
      SplitCount(s[1..], sep);
    }
  }

  /** The pieces hold every other character, in order. */
  lemma {:induction false} ConcatSplit(s: string, sep: char)
    ensures Concat(Split(s, sep)) == Without(s, sep)
  {
    if s != [] {
      ConcatSplit(s[1..], sep);
      var rest := Split(s[1..], sep);
      if s[0] != sep {
        assert Concat([[s[0]] + rest[0]] + rest[1..]) == [s[0]] + rest[0] + Concat(rest[1..]);
        assert Concat(rest) == rest[0] + Concat(rest[1..]);
      } else {
        assert Concat([""] + rest) == Concat(rest);
      }
    }
  }

  predicate IsWord(w: string)
  {
    w != [] && forall j :: 0 <= j < |w| ==> !IsSpace(w[j])
  }

  /** `str.split()` with no argument: maximal runs of non-whitespace. */
  function SplitWs(s: string): (r: seq<string>)
    ensures forall i :: 0 <= i < |r| ==> IsWord(r[i])
    decreases |s|
  {
    var t := LStrip(s);
    if t == [] then []
    else
      var n := WordLength(t);
      var w := t[..n];
      assert IsWord(w);
      [w] + SplitWs(t[n..])
  }

  function WordLength(t: string): (n: nat)
    ensures n <= |t|
    ensures forall j :: 0 <= j < n ==> !IsSpace(t[j])
    ensures n < |t| ==> IsSpace(t[n])
  {
    if t == [] || IsSpace(t[0]) then 0 else 1 + WordLength(t[1..])
  }


  lemma {:induction false} WordLengthOfWord(w: string, rest: string)
    requires IsWord(w) && (rest == [] || IsSpace(rest[0]))
    ensures WordLength(w + rest) == |w|
    decreases |w|
  {
    if |w| > 1 {
      assert (w + rest)[1..] == w[1..] + rest;
      WordLengthOfWord(w[1..], rest);
    } else {
      assert (w + rest)[1..] == rest;
    }
  }

  /** A word followed by whitespace (or nothing) splits off as the first piece. */
  lemma SplitWsWordThen(w: string, rest: string)
    requires IsWord(w) && (rest == [] || IsSpace(rest[0]))
    ensures SplitWs(w + rest) == [w] + SplitWs(rest)
  {
    var t := w + rest;
    assert LStrip(t) == t;
    WordLengthOfWord(w, rest);
    assert t[..|w|] == w && t[|w|..] == rest;
  }

  /** `" ".join(words).split() == words` for words without whitespace. */
  lemma {:induction false} SplitWsJoin(words: seq<string>)
    requires forall i :: 0 <= i < |words| ==> IsWord(words[i])
    ensures SplitWs(Join(" ", words)) == words
  {
    if |words| == 1 {
      SplitWsWordThen(words[0], []);
      assert words[0] + [] == words[0];
    } else if |words| > 1 {
      var j := Join(" ", words[1..]);
      SplitWsJoin(words[1..]);
      assert Join(" ", words) == words[0] + (" " + j);
      SplitWsWordThen(words[0], " " + j);
      SplitWsLeadingSpace(" " + j);
      assert (" " + j)[1..] == j;
    }
  }

  lemma {:induction false} JoinOfWordsHasNoSpaceAtEnds(words: seq<string>)
    requires forall i :: 0 <= i < |words| ==> IsWord(words[i])
    ensures NoSpaceAtEnds(Join(" ", words))
    ensures Join(" ", words) == [] <==> words == []
  {
    if |words| == 1 {
      assert IsWord(words[0]);
    } else if |words| > 1 {
      JoinOfWordsHasNoSpaceAtEnds(words[1..]);
      var j := Join(" ", words[1..]);
      var w := words[0];
      assert IsWord(w);
      assert Join(" ", words) == w + " " + j;
      assert (w + " " + j)[0] == w[0];
      assert (w + " " + j)[|w + " " + j| - 1] == j[|j| - 1];
    }
  }

  /** The words joined with single spaces come back from strip and split. */
  lemma SplitWsStripJoin(words: seq<string>)
    requires forall i :: 0 <= i < |words| ==> IsWord(words[i])
    ensures SplitWs(Strip(Join(" ", words))) == words
  {
    JoinOfWordsHasNoSpaceAtEnds(words);
    StripOfStripped(Join(" ", words));
    SplitWsJoin(words);
  }

  lemma SplitWsLeadingSpace(x: string)
    requires x != [] && IsSpace(x[0])
    ensures SplitWs(x) == SplitWs(x[1..])
  {
    assert LStrip(x) == LStrip(x[1..]);
  }

  /** The non-whitespace characters of `s`, in order. */
  function NonSpace(s: string): string
  {
    if s == [] then [] else (if IsSpace(s[0]) then [] else [s[0]]) + NonSpace(s[1..])
  }

  function Concat(parts: seq<string>): string
  {
    if parts == [] then [] else parts[0] + Concat(parts[1..])
  }

  lemma {:induction false} NonSpaceAppend(a: string, b: string)
    ensures NonSpace(a + b) == NonSpace(a) + NonSpace(b)
  {
    if a != [] {
      assert (a + b)[1..] == a[1..] + b;
      NonSpaceAppend(a[1..], b);
    } else {
      assert a + b == b;
    }
  }

  lemma NonSpaceOfWord(w: string)
    requires forall j :: 0 <= j < |w| ==> !IsSpace(w[j])
    ensures NonSpace(w) == w
  {
  }

  lemma NonSpaceOfBlank(w: string)
    requires forall j :: 0 <= j < |w| ==> IsSpace(w[j])
    ensures NonSpace(w) == []
  {
  }

  lemma NonSpaceOfLStrip(s: string)
    ensures NonSpace(s) == NonSpace(LStrip(s))
  {
    var t := LStrip(s);
    var k := |s| - |t|;
    LStripIsSuffix(s);
    assert s == s[..k] + t;
    NonSpaceOfBlank(s[..k]);
    NonSpaceAppend(s[..k], t);
  }

  /** The tokens of `s.split()` are exactly the non-whitespace characters of `s`,
      chopped into pieces. */
  lemma {:induction false} SplitWsCovers(s: string)
    ensures Concat(SplitWs(s)) == NonSpace(s)
    decreases |s|
  {
    var t := LStrip(s);
    NonSpaceOfLStrip(s);
    if t != [] {
      var n := WordLength(t);
      var w, rest := t[..n], t[n..];
      assert t == w + rest;
      NonSpaceAppend(w, rest);
      NonSpaceOfWord(w);
      SplitWsCovers(rest);
      assert SplitWs(s) == [w] + SplitWs(rest);
      assert Concat([w] + SplitWs(rest)) == w + Concat(SplitWs(rest));
    }
  }

  /** `s.replace(a, b)` for single characters. */
  function ReplaceChar(s: string, a: char, b: char): (r: string)
    ensures |r| == |s|
    ensures a != b ==> a !in r
  {
    seq(|s|, i requires 0 <= i < |s| => if s[i] == a then b else s[i])
  }

  /** Index of the first line boundary in `s`, or `|s|`. */
  function BreakIndex(s: string): (i: nat)
    ensures i <= |s|
    ensures forall j :: 0 <= j < i ==> !IsLineBreak(s[j])
    ensures i < |s| ==> IsLineBreak(s[i])
  {
    if s == [] || IsLineBreak(s[0]) then 0 else 1 + BreakIndex(s[1..])
  }

  /** `s.splitlines()`: the lines of `s` without their boundaries; `\r\n` is one
      boundary, and a final boundary does not start an empty line. */
  function SplitLines(s: string): (r: seq<string>)
    ensures forall k :: 0 <= k < |r| ==> forall j :: 0 <= j < |r[k]| ==> !IsLineBreak(r[k][j])
    decreases |s|
  {
    if s == [] then []
    else
      var i := BreakIndex(s);
      if i == |s| then [s]
      else
        var next := if s[i] == '\r' && i + 1 < |s| && s[i + 1] == '\n' then i + 2 else i + 1;
        [s[..i]] + SplitLines(s[next..])
  }

  lemma {:induction false} SplitLinesJoin(lines: seq<string>)
    requires forall k :: 0 <= k < |lines| ==> forall j :: 0 <= j < |lines[k]| ==> !IsLineBreak(lines[k][j])
    requires |lines| > 0 ==> lines[|lines| - 1] != []
    ensures SplitLines(Join("\n", lines)) == lines
    decreases |lines|
  {
    if |lines| == 1 {
      var s := lines[0];
      assert BreakIndex(s) == |s|;
    } else if |lines| > 1 {
      var s := Join("\n", lines);
      var l := lines[0];
      assert s == l + "\n" + Join("\n", lines[1..]);
      BreakIndexAt(l, "\n" + Join("\n", lines[1..]));
      assert BreakIndex(s) == |l| && s[|l|] == '\n' && s[..|l|] == l;
      assert s[|l| + 1..] == Join("\n", lines[1..]);
      SplitLinesJoin(lines[1..]);
    }
  }

  lemma {:induction false} BreakIndexAt(l: string, rest: string)
    requires forall j :: 0 <= j < |l| ==> !IsLineBreak(l[j])
    requires rest != [] && IsLineBreak(rest[0])
    ensures BreakIndex(l + rest) == |l|
    decreases |l|
  {
    if l != [] {
      var s := l + rest;
      assert s[0] == l[0] && s[1..] == l[1..] + rest;
      BreakIndexAt(l[1..], rest);
    } else {
      assert l + rest == rest;
    }
  }

  function DigitChar(d: nat): char
    requires d < 10
  {
    ('0' as int + d) as char
  }

  /** An ASCII digit, the only digits `date.fromisoformat` and `str(n)` use. */
  predicate IsDigit(c: char)
  {
    '0' <= c <= '9'
  }

  function DigitValue(c: char): nat
    requires IsDigit(c)
  {
    c as int - '0' as int
  }

  /** Decimal digits of a natural number, most significant first. */
  function NatToStr(n: nat): (r: string)
    ensures r != [] && forall i :: 0 <= i < |r| ==> IsDigit(r[i])
  {
    if n < 10 then [DigitChar(n)] else NatToStr(n / 10) + [DigitChar(n % 10)]
  }

  /** `str(n)` for an `int`. */
  function IntToStr(n: int): string
  {
    if n < 0 then "-" + NatToStr(-n) else NatToStr(n)
  }

  /** The number a string of decimal digits denotes. */
  function DigitsValue(s: string): nat
    requires forall i :: 0 <= i < |s| ==> IsDigit(s[i])
  {
    if s == [] then 0 else DigitsValue(s[..|s| - 1]) * 10 + DigitValue(s[|s| - 1])
  }

  lemma {:induction false} DigitsValueOfNatToStr(n: nat)
    ensures DigitsValue(NatToStr(n)) == n
  {
    if n >= 10 {
      var r := NatToStr(n);
      assert r[..|r| - 1] == NatToStr(n / 10);
      DigitsValueOfNatToStr(n / 10);
    }
  }

  /** The number of runs of ten decimal digits (general category Nd) in
      Unicode 15.0. */
  const DecimalRuns := 68

  /** The code point of the digit zero of run `i`, in increasing order; each
      run counts up from its zero. Run 0 is ASCII, run 1 Arabic-Indic,
      run 36 the fullwidth digits. */
  function RunZero(i: nat): int
    requires i < DecimalRuns
  {
    match i
    case 0 => 0x30
    case 1 => 0x660
    case 2 => 0x6F0
    case 3 => 0x7C0
    case 4 => 0x966
    case 5 => 0x9E6
    case 6 => 0xA66
    case 7 => 0xAE6
    case 8 => 0xB66
    case 9 => 0xBE6
    case 10 => 0xC66
    case 11 => 0xCE6
    case 12 => 0xD66
    case 13 => 0xDE6
    case 14 => 0xE50
    case 15 => 0xED0
    case 16 => 0xF20
    case 17 => 0x1040
    case 18 => 0x1090
    case 19 => 0x17E0
    case 20 => 0x1810
    case 21 => 0x1946
    case 22 => 0x19D0
    case 23 => 0x1A80
    case 24 => 0x1A90
    case 25 => 0x1B50
    case 26 => 0x1BB0
    case 27 => 0x1C40
    case 28 => 0x1C50
    case 29 => 0xA620
    case 30 => 0xA8D0
    case 31 => 0xA900
    case 32 => 0xA9D0
    case 33 => 0xA9F0
    case 34 => 0xAA50
    case 35 => 0xABF0
    case 36 => 0xFF10
    case 37 => 0x104A0
    case 38 => 0x10D30
    case 39 => 0x11066
    case 40 => 0x110F0
    case 41 => 0x11136
    case 42 => 0x111D0
    case 43 => 0x112F0
    case 44 => 0x11450
    case 45 => 0x114D0
    case 46 => 0x11650
    case 47 => 0x116C0
    case 48 => 0x11730
    case 49 => 0x118E0
    case 50 => 0x11950
    case 51 => 0x11C50
    case 52 => 0x11D50
    case 53 => 0x11DA0
    case 54 => 0x11F50
    case 55 => 0x16A60
    case 56 => 0x16AC0
    case 57 => 0x16B50
    case 58 => 0x1D7CE
    case 59 => 0x1D7D8
    case 60 => 0x1D7E2
    case 61 => 0x1D7EC
    case 62 => 0x1D7F6
    case 63 => 0x1E140
    case 64 => 0x1E2F0
    case 65 => 0x1E4F0
    case 66 => 0x1E950
    case _ => 0x1FBF0
  }

  /** The digit `n` stands for in the first run from `i` on that holds it. */
  function DigitFrom(i: nat, n: int): (r: Option<nat>)
    requires i <= DecimalRuns
    ensures r.Some? ==> r.value < 10
    decreases DecimalRuns - i
  {
    if i == DecimalRuns then None
    else if RunZero(i) <= n < RunZero(i) + 10 then Some(n - RunZero(i))
    else DigitFrom(i + 1, n)
  }

  /** Runs that lie wholly below `n` are passed over. */
  lemma {:induction false} DigitFromBeyond(i: nat, j: nat, n: int)
    requires i <= j <= DecimalRuns
    requires forall k :: i <= k < j ==> RunZero(k) + 10 <= n
    ensures DigitFrom(i, n) == DigitFrom(j, n)
    decreases j - i
  {
    if i < j {
      DigitFromSkip(i, n);
      DigitFromBeyond(i + 1, j, n);
    }
  }

  lemma DigitFromSkip(i: nat, n: int)
    requires i < DecimalRuns && RunZero(i) + 10 <= n
    ensures DigitFrom(i, n) == DigitFrom(i + 1, n)
  {
  }

  /** The value of a Unicode decimal digit, which Python's `int()` accepts
      wherever it accepts `0`-`9`; `None` for any other character. Below the
      second run only the ASCII digits are decimal. */
  function DecimalValue(c: char): (r: Option<nat>)
    ensures r.Some? ==> r.value < 10
    ensures r.Some? ==> '0' <= c && (c <= '9' || 0x660 <= c as int)
    ensures IsDigit(c) ==> r == Some(DigitValue(c))
  {
    if c as int < RunZero(1) then (if IsDigit(c) then Some(DigitValue(c)) else None)
    else DigitFrom(1, c as int)
  }

  predicate IsDecimal(c: char)
  {
    DecimalValue(c).Some?
  }

  /** The number a string of Unicode decimal digits denotes. */
  function DecimalsValue(s: string): nat
    requires forall i :: 0 <= i < |s| ==> IsDecimal(s[i])
  {
    if s == [] then 0
    else
      assert IsDecimal(s[|s| - 1]);
      DecimalsValue(s[..|s| - 1]) * 10 + DecimalValue(s[|s| - 1]).value
  }

  lemma {:induction false} DecimalsOfDigits(s: string)
    requires forall i :: 0 <= i < |s| ==> IsDigit(s[i])
    ensures forall i :: 0 <= i < |s| ==> IsDecimal(s[i])
    ensures DecimalsValue(s) == DigitsValue(s)
  {
    assert forall i :: 0 <= i < |s| ==> DecimalValue(s[i]) == Some(DigitValue(s[i]));
    if s != [] {
      DecimalsOfDigits(s[..|s| - 1]);
    }
  }

  /** Digit groups of a Python integer literal: decimal digits, with single
      underscores allowed between two digits. */
  predicate IsDigitGroups(s: string)
  {
    && s != [] && IsDecimal(s[0]) && IsDecimal(s[|s| - 1])
    && (forall i :: 0 <= i < |s| ==> IsDecimal(s[i]) || s[i] == '_')
    && (forall i :: 0 < i < |s| - 1 && s[i] == '_' ==> IsDecimal(s[i - 1]) && IsDecimal(s[i + 1]))
  }

  function DropUnderscores(s: string): (r: string)
    requires forall i :: 0 <= i < |s| ==> (IsDecimal(s[i]) || s[i] == '_')
    ensures forall i :: 0 <= i < |r| ==> IsDecimal(r[i])
    ensures (forall i :: 0 <= i < |s| ==> IsDecimal(s[i])) ==> r == s
  {
    if s == [] then []
    else
      (if s[0] == '_' then [] else [s[0]]) + DropUnderscores(s[1..])
  }

  /** `int(s)` for a string: surrounding whitespace, an optional sign and
      groups of Unicode decimal digits; `None` where Python raises
      `ValueError`. */
  function ParseInt(s: string): (r: Option<int>)
  {
    ParseSignedDigits(Strip(s))
  }

  function ParseSignedDigits(t: string): Option<int>
  {
    if t == [] then None
    else
      var body := if t[0] == '-' || t[0] == '+' then t[1..] else t;
      if !IsDigitGroups(body) then None
      else
        var v: int := DecimalsValue(DropUnderscores(body));
        Some(if t[0] == '-' then -v else v)
  }

  /** Decimal digits, after a minus sign when `neg`, read as their value. */
  lemma SignedDecimalsValue(digits: string, s: string, neg: bool)
    requires digits != [] && forall i :: 0 <= i < |digits| ==> IsDecimal(digits[i])
    requires if neg then s != [] && s[0] == '-' && s[1..] == digits else s == digits
    ensures ParseSignedDigits(s) == Some(if neg then 0 - DecimalsValue(digits) else DecimalsValue(digits))
  {
    PlainDecimalGroups(digits);
    SignedBody(digits, s, neg);
  }

  /** Decimal digits without underscores are one group, kept as they are. */
  lemma PlainDecimalGroups(digits: string)
    requires digits != [] && forall i :: 0 <= i < |digits| ==> IsDecimal(digits[i])
    ensures IsDigitGroups(digits) && DropUnderscores(digits) == digits
  {
    assert forall i :: 0 <= i < |digits| ==> digits[i] != '_';
  }

  /** The text after an optional minus sign is the digits. */
  lemma SignedBody(digits: string, s: string, neg: bool)
    requires digits != [] && IsDecimal(digits[0])
    requires if neg then s != [] && s[0] == '-' && s[1..] == digits else s == digits
    ensures s != [] && (s[0] == '-' <==> neg)
    ensures (if s[0] == '-' || s[0] == '+' then s[1..] else s) == digits
  {
  }

  /** Arabic-Indic digits are read like ASCII ones: "١٢" is 12. */
  lemma ArabicIndicTwelve(s: string)
    requires s == "\U{0661}\U{0662}"
    ensures ParseInt(s) == Some(12)
  {
    DecimalPair(s, 1, 2);
  }

  /** Fullwidth digits too, after a sign: "-３" is -3. */
  lemma FullwidthMinusThree(s: string)
    requires s == "-\U{FF13}"
    ensures ParseInt(s) == Some(-3)
  {
    FullwidthThree(s[1]);
    assert s[1..] == [s[1]];
    NegatedDecimals(s[1..], s);
  }

  /** "٣" reads as "3" does. */
  lemma ArabicIndicLikeAscii(s: string, t: string)
    requires s == "\U{0663}" && t == "3"
    ensures ParseInt(s) == ParseInt(t) == Some(3)
  {
    DecimalSingle(s, 3);
    DecimalSingle(t, 3);
  }

  lemma DecimalPair(s: string, d0: nat, d1: nat)
    requires |s| == 2 && DecimalValue(s[0]) == Some(d0) && DecimalValue(s[1]) == Some(d1)
    requires !IsSpace(s[0]) && !IsSpace(s[1])
    ensures ParseInt(s) == Some(d0 * 10 + d1)
  {
    assert s[..1] == [s[0]] && [s[0]][..0] == [];
    assert DecimalsValue(s[..1]) == d0;
    UnsignedDecimals(s);
  }

  lemma DecimalSingle(s: string, d: nat)
    requires |s| == 1 && DecimalValue(s[0]) == Some(d) && !IsSpace(s[0])
    ensures ParseInt(s) == Some(d)
  {
    UnsignedDecimals(s);
  }

  lemma FullwidthThree(c: char)
    requires c == '\U{FF13}'
    ensures DecimalValue(c) == Some(3)
  {
    DigitFromBeyond(1, 36, c as int);
  }

  /** Decimal digits, none of them a space, read as their value. */
  lemma UnsignedDecimals(digits: string)
    requires digits != [] && forall i :: 0 <= i < |digits| ==> IsDecimal(digits[i]) && !IsSpace(digits[i])
    ensures ParseInt(digits) == Some(DecimalsValue(digits) as int)
  {
    StripOfStripped(digits);
    SignedDecimalsValue(digits, digits, false);
  }

  /** A minus sign and decimal digits, none of them a space, read as the
      negated value. */
  lemma NegatedDecimals(digits: string, m: string)
    requires digits != [] && forall i :: 0 <= i < |digits| ==> IsDecimal(digits[i]) && !IsSpace(digits[i])
    requires m != [] && m[0] == '-' && m[1..] == digits
    ensures ParseInt(m) == Some(0 - DecimalsValue(digits))
  {
    assert m[|m| - 1] == digits[|digits| - 1];
    StripOfStripped(m);
    SignedDecimalsValue(digits, m, true);
  }

  lemma ParseIntOfIntToStr(n: int)
    ensures ParseInt(IntToStr(n)) == Some(n)
  {
    var m: nat := if n < 0 then -n else n;
    var digits := NatToStr(m);
    DigitsValueOfNatToStr(m);
    DecimalsOfDigits(digits);
    assert forall i :: 0 <= i < |digits| ==> !IsSpace(digits[i]);
    var s := IntToStr(n);
    if n < 0 {
      assert s[0] == '-' && s[1..] == digits;
      NegatedDecimals(digits, s);
    } else {
      UnsignedDecimals(digits);
    }
  }

  /** Python's prefix slice `s[:k]`, where a negative `k` counts from the end. */
  function PyPrefix(s: string, k: int): (r: string)
    ensures StartsWith(s, r)
    ensures k >= 0 ==> |r| == if k < |s| then k else |s|
  {
    if k >= 0 then (if k < |s| then s[..k] else s)
    else if |s| + k > 0 then s[..|s| + k] else []
  }

  /** Python's `repr()` of a string (quote choice and the common escapes). */
  function StrRepr(s: string): string
  {
    var q := if '\'' in s && '"' !in s then '"' else '\'';
    [q] + ReprBody(s, q) + [q]
  }

  function HexDigit(n: int): char
    requires 0 <= n < 16
  {
    if n < 10 then ('0' as int + n) as char else ('a' as int + n - 10) as char
  }

  function ReprChar(c: char, q: char): string
  {
    if c == '\\' then "\\\\"
    else if c == q then ['\\', q]
    else if c == '\n' then "\\n"
    else if c == '\r' then "\\r"
    else if c == '\t' then "\\t"
    else if c as int < 0x20 || 0x7F <= c as int < 0xA0 then ['\\', 'x', HexDigit(c as int / 16), HexDigit(c as int % 16)]
    else [c]
  }

  function ReprBody(s: string, q: char): string
  {
    if s == [] then [] else ReprChar(s[0], q) + ReprBody(s[1..], q)
  }
}
