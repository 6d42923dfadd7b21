/** The string operations of Python that the engine relies on to read
    the text printed by the quota, capacity and identity tools:
    `str.split(sep)`, `str.split()`, `sep.join(parts)`, `int(text)` and
    `str(int)`. */
module Text {
  import opened Base

  /** `s.split(sep)` for a one-character separator: the pieces between
      separators, empty pieces included. */
  function Split(s: string, sep: char): (parts: seq<string>)
    ensures |parts| >= 1
    ensures forall i :: 0 <= i < |parts| ==> sep !in parts[i]
  {
    if |s| == 0 then [""]
    else
      var rest := Split(s[1..], sep);
      if s[0] == sep then [""] + rest
      else [[s[0]] + rest[0]] + rest[1..]
  }

  /** `sep.join(parts)`. */
  function Join(parts: seq<string>, sep: char): string
  {
    if |parts| == 0 then ""
    else if |parts| == 1 then parts[0]
    else parts[0] + [sep] + Join(parts[1..], sep)
  }

  /** Joining the pieces of a split gives back the text. */
  lemma {:induction false} JoinSplit(s: string, sep: char)
    ensures Join(Split(s, sep), sep) == s
  {
    if |s| > 0 {
      var rest := Split(s[1..], sep);
      JoinSplit(s[1..], sep);
      if s[0] == sep {
        assert Split(s, sep) == [""] + rest;
        assert Join([""] + rest, sep) == "" + [sep] + Join(rest, sep);
        assert s == [s[0]] + s[1..];
      } else if |rest| == 1 {
        assert Split(s, sep) == [[s[0]] + rest[0]];
        assert s == [s[0]] + s[1..];
      } else {
        var parts := [[s[0]] + rest[0]] + rest[1..];
        assert Split(s, sep) == parts;
        assert parts[1..] == rest[1..];
        assert Join(rest, sep) == rest[0] + [sep] + Join(rest[1..], sep);
        assert Join(parts, sep) == [s[0]] + rest[0] + [sep] + Join(rest[1..], sep);
        assert s == [s[0]] + s[1..];
      }
    }
  }

  /** Splitting a text that starts with a piece free of the separator. */
  lemma {:induction false} SplitAfterPiece(a: string, t: string, sep: char)
    requires sep !in a
    ensures Split(a + t, sep) == [a + Split(t, sep)[0]] + Split(t, sep)[1..]
  {
    if |a| > 0 {
      SplitAfterPiece(a[1..], t, sep);
      assert (a + t)[1..] == a[1..] + t;
      assert (a + t)[0] == a[0];
      var rest := Split(a[1..] + t, sep);
      assert Split(a + t, sep) == [[a[0]] + rest[0]] + rest[1..];
      assert [a[0]] + (a[1..] + Split(t, sep)[0]) == a + Split(t, sep)[0];
    } else {
      var p := Split(t, sep);
      assert a + t == t;
      assert a + p[0] == p[0];
      assert [p[0]] + p[1..] == p;
    }
  }

  /** Splitting a join gives back the pieces when none holds the separator. */
  lemma {:induction false} SplitJoin(parts: seq<string>, sep: char)
    requires |parts| >= 1
    requires forall i :: 0 <= i < |parts| ==> sep !in parts[i]
    ensures Split(Join(parts, sep), sep) == parts
  {
    if |parts| == 1 {
      SplitAfterPiece(parts[0], "", sep);
      assert Split("", sep) == [""];
      assert parts[0] + "" == parts[0];
      assert parts == [parts[0]];
    } else {
      var tail := Join(parts[1..], sep);
      SplitJoin(parts[1..], sep);
      var rest := [sep] + tail;
      SplitAfterPiece(parts[0], rest, sep);
      assert rest[0] == sep && rest[1..] == tail;
      var x := Split(rest, sep);
      assert x == [""] + Split(tail, sep);
      assert x[0] == "" && x[1..] == parts[1..];
      assert Join(parts, sep) == parts[0] + rest;
      assert parts[0] + x[0] == parts[0];
      assert parts == [parts[0]] + parts[1..];
    }
  }

  /** The characters `str.isspace()` accepts, which `str.split()` splits on. */
  predicate IsSpace(c: char)
  {
    var n := c as int;
    (9 <= n <= 13) || (28 <= n <= 32) || n == 0x85 || n == 0xA0 || n == 0x1680
    || (0x2000 <= n <= 0x200A) || n == 0x2028 || n == 0x2029 || n == 0x202F
    || n == 0x205F || n == 0x3000
  }

  predicate NoSpace(s: string)
  {
    forall i :: 0 <= i < |s| ==> !IsSpace(s[i])
  }

  predicate AllSpace(s: string)
  {
    forall i :: 0 <= i < |s| ==> IsSpace(s[i])
  }

  /** Length of the longest prefix of `s` without whitespace. */
  function WordLength(s: string): (n: nat)
    ensures n <= |s| && NoSpace(s[..n])
    ensures n < |s| ==> IsSpace(s[n])
  {
    if |s| == 0 || IsSpace(s[0]) then 0
    else
      var n := WordLength(s[1..]);
      assert s[..n + 1] == [s[0]] + s[1..][..n];
      1 + n
  }

  /** `s.split()`: the maximal runs of non-whitespace characters. */
  function Words(s: string): (ws: seq<string>)
    ensures forall i :: 0 <= i < |ws| ==> ws[i] != [] && NoSpace(ws[i])
    decreases |s|
  {
    if |s| == 0 then []
    else if IsSpace(s[0]) then Words(s[1..])
    else
      var n := WordLength(s);
      [s[..n]] + Words(s[n..])
  }

  /** Leading whitespace does not change the words. */
  lemma {:induction false} WordsSkipSpace(p: string, t: string)
    requires AllSpace(p)
    ensures Words(p + t) == Words(t)
  {
    if |p| > 0 {
      assert (p + t)[1..] == p[1..] + t;
      WordsSkipSpace(p[1..], t);
    } else {
      assert p + t == t;
    }
  }

  lemma {:induction false} WordLengthOfWord(a: string, t: string)
    requires NoSpace(a)
    requires t == [] || IsSpace(t[0])
    ensures WordLength(a + t) == |a|
  {
    if |a| > 0 {
      assert (a + t)[1..] == a[1..] + t;
      WordLengthOfWord(a[1..], t);
    } else {
      assert a + t == t;
    }
  }

  /** A word followed by whitespace or the end is the first word. */
  lemma WordsOfWord(a: string, t: string)
    requires a != [] && NoSpace(a)
    requires t == [] || IsSpace(t[0])
    ensures Words(a + t) == [a] + Words(t)
  {
    WordLengthOfWord(a, t);
    assert (a + t)[..|a|] == a;
    assert (a + t)[|a|..] == t;
  }

  /** A word and the whitespace after it give the word, then the words of the rest. */
  lemma WordThenSpace(a: string, gap: string, rest: string)
    requires a != [] && NoSpace(a)
    requires gap != [] && AllSpace(gap)
    ensures Words(a + (gap + rest)) == [a] + Words(rest)
  {
    assert (gap + rest)[0] == gap[0];
    WordsOfWord(a, gap + rest);
    WordsSkipSpace(gap, rest);
  }

  /** A single word on its own splits into itself. */
  lemma OneWord(b: string)
    requires b != [] && NoSpace(b)
    ensures Words(b) == [b]
  {
    WordsOfWord(b, []);
    assert b + [] == b;
  }

  lemma Regroup(pad: string, a: string, gap: string, b: string)
    ensures pad + a + gap + b == pad + (a + (gap + b))
  {
  }

  /** A line splits into no words exactly when it is all whitespace. */
  lemma {:induction false} WordsEmpty(s: string)
    ensures Words(s) == [] <==> AllSpace(s)
    decreases |s|
  {
    if |s| > 0 {
      if IsSpace(s[0]) {
        WordsEmpty(s[1..]);
        assert AllSpace(s) <==> AllSpace(s[1..]) by {
          if AllSpace(s[1..]) {
            forall i | 0 < i < |s| ensures IsSpace(s[i]) {
              assert s[i] == s[1..][i - 1];
            }
          }
        }
      }
    }
  }

  /** Leading whitespace, a word and the whitespace after it: the word
      comes first, then the words of whatever follows. */
  lemma WordsFirst(pad: string, a: string, gap: string, rest: string)
    requires AllSpace(pad)
    requires a != [] && NoSpace(a)
    requires gap != [] && AllSpace(gap)
    ensures Words(pad + a + gap + rest) == [a] + Words(rest)
  {
    Regroup(pad, a, gap, rest);
    WordsSkipSpace(pad, a + (gap + rest));
    WordThenSpace(a, gap, rest);
  }

  /** `str.split()` of a line holding two words separated by whitespace, after any indentation. */
  lemma TwoWords(pad: string, a: string, gap: string, b: string)
    requires AllSpace(pad)
    requires gap != [] && AllSpace(gap)
    requires a != [] && NoSpace(a) && b != [] && NoSpace(b)
    ensures Words(pad + a + gap + b) == [a, b]
  {
    WordsFirst(pad, a, gap, b);
    OneWord(b);
  }

  /** Words joined by a whitespace character split back into those words. */
  lemma {:induction false} WordsJoin(ws: seq<string>, sep: char)
    requires IsSpace(sep)
    requires forall i :: 0 <= i < |ws| ==> ws[i] != [] && NoSpace(ws[i])
    ensures Words(Join(ws, sep)) == ws
  {
    if |ws| == 1 {
      OneWord(ws[0]);
    } else if |ws| > 1 {
      var tail := Join(ws[1..], sep);
      WordsJoin(ws[1..], sep);
      assert ws[0] + [sep] + tail == ws[0] + ([sep] + tail);
      WordThenSpace(ws[0], [sep], tail);
      assert ws == [ws[0]] + ws[1..];
    }
  }

  predicate IsDigit(c: char)
  {
    '0' <= c <= '9'
  }

  predicate AllDigits(s: string)
  {
    forall i :: 0 <= i < |s| ==> IsDigit(s[i])
  }

  /** The number a run of ASCII digits denotes. */
  function DigitsValue(s: string): nat
    requires AllDigits(s)
    decreases |s|
  {
    if |s| == 0 then 0
    else 10 * DigitsValue(s[..|s| - 1]) + ((s[|s| - 1] as int) - ('0' as int))
  }

  /** `int(s)` on a decimal literal: an optional sign and at least one ASCII digit. */
  function ParseInt(s: string): Option<int>
  {
    if |s| > 1 && (s[0] == '-' || s[0] == '+') && AllDigits(s[1..]) then
      var magnitude: int := DigitsValue(s[1..]);
      Some(if s[0] == '-' then -magnitude else magnitude)
    else if |s| > 0 && AllDigits(s) then Some(DigitsValue(s))
    else None
  }

  function DigitChar(d: nat): char
    requires d < 10
  {
    (('0' as int) + d) as char
  }

  /** `str(n)` for a non-negative integer. */
  function NatToString(n: nat): (s: string)
    ensures |s| > 0 && AllDigits(s)
  {
    if n < 10 then [DigitChar(n)] else NatToString(n / 10) + [DigitChar(n % 10)]
  }

  /** `str(n)`: a minus sign for a negative number, then its digits. */
  function IntToString(n: int): (s: string)
    ensures s != [] && forall c :: c in s ==> c == '-' || IsDigit(c)
  {
    if n < 0 then "-" + NatToString(-n) else NatToString(n)
  }

  lemma {:induction false} NatToStringValue(n: nat)
    ensures DigitsValue(NatToString(n)) == n
  {
    var s := NatToString(n);
    if n >= 10 {
      NatToStringValue(n / 10);
      assert s[..|s| - 1] == NatToString(n / 10);
    }
  }

  /** `int(str(n)) == n`. */
  lemma ParseShow(n: int)
    ensures ParseInt(IntToString(n)) == Some(n)
  {
    if n < 0 {
      NatToStringValue(-n);
      assert IntToString(n)[1..] == NatToString(-n);
    } else {
      NatToStringValue(n);
    }
  }

  /** Distinct numbers print differently. */
  lemma IntToStringInjective(m: int, n: int)
    requires IntToString(m) == IntToString(n)
    ensures m == n
  {
    ParseShow(m);
    ParseShow(n);
  }

  predicate StartsWith(s: string, prefix: string)
  {
    |prefix| <= |s| && s[..|prefix|] == prefix
  }
}
