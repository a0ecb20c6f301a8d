/**
 * Strings as JavaScript sees them, restricted to what the modelled code uses:
 * the whitespace of `String.prototype.trim` and of `\s` in regular expressions,
 * `split` on one character, `join`, decimal digit strings and `padStart`.
 */
module Text {

  /** JavaScript's WhiteSpace and LineTerminator code points: the set removed by
      `trim()` and matched by `\s`. */
  predicate IsSpace(c: char)
  {
    || c == '\t' || c == '\n' || c == '\U{000B}' || c == '\U{000C}' || c == '\r' || c == ' '
    || c == '\U{00A0}' || c == '\U{1680}' || ('\U{2000}' <= c <= '\U{200A}')
    || c == '\U{2028}' || c == '\U{2029}' || c == '\U{202F}' || c == '\U{205F}'
    || c == '\U{3000}' || c == '\U{FEFF}'
  }

  /** The characters that `.` in a regular expression does not match. */
  predicate IsLineTerminator(c: char)
  {
    c == '\n' || c == '\r' || c == '\U{2028}' || c == '\U{2029}'
  }

  /** No character that `.` refuses: the text stays on one line. */
  predicate OneLine(s: string)
  {
    forall i :: 0 <= i < |s| ==> !IsLineTerminator(s[i])
  }

  /** `\d` */
  predicate IsDigit(c: char)
  {
    '0' <= c <= '9'
  }

  predicate AllSpace(s: string)
  {
    forall i :: 0 <= i < |s| ==> IsSpace(s[i])
  }

  predicate AllDigits(s: string)
  {
    forall i :: 0 <= i < |s| ==> IsDigit(s[i])
  }

  predicate StartsWith(s: string, prefix: string)
  {
    |prefix| <= |s| && s[..|prefix|] == prefix
  }

  predicate EndsWith(s: string, suffix: string)
  {
    |suffix| <= |s| && s[|s| - |suffix|..] == suffix
  }

  /** `trimStart()`: drops the leading whitespace. */
  function TrimStart(s: string): (r: string)
  {
    if s != [] && IsSpace(s[0]) then TrimStart(s[1..]) else s
  }

  lemma {:induction false} TrimStartShape(s: string)
    ensures var r := TrimStart(s);
      |r| <= |s| && r == s[|s| - |r|..] && AllSpace(s[..|s| - |r|]) && (r == [] || !IsSpace(r[0]))
  {
    if s != [] && IsSpace(s[0]) {
      TrimStartShape(s[1..]);
      SpaceThenSuffix(s, TrimStart(s[1..]));
    }
  }

  /** `trimEnd()`: drops the trailing whitespace. */
  function TrimEnd(s: string): (r: string)
  {
    if s != [] && IsSpace(s[|s| - 1]) then TrimEnd(s[..|s| - 1]) else s
  }

  lemma {:induction false} TrimEndShape(s: string)
    ensures var r := TrimEnd(s);
      |r| <= |s| && r == s[..|r|] && AllSpace(s[|r|..]) && (r == [] || !IsSpace(r[|r| - 1]))
  {
    if s != [] && IsSpace(s[|s| - 1]) {
      TrimEndShape(s[..|s| - 1]);
      PrefixThenSpace(s, TrimEnd(s[..|s| - 1]));
    }
  }

  /** A suffix of `s[1..]` after whitespace is a suffix of `s` after
      whitespace when `s` starts with whitespace. */
  lemma SpaceThenSuffix(s: string, r: string)
    requires s != [] && IsSpace(s[0])
    requires |r| <= |s| - 1 && r == s[1..][|s| - 1 - |r|..] && AllSpace(s[1..][..|s| - 1 - |r|])
    ensures r == s[|s| - |r|..] && AllSpace(s[..|s| - |r|])
  {
    assert s[..|s| - |r|] == [s[0]] + s[1..][..|s| - 1 - |r|];
  }

  /** A prefix of `s` without its last character, followed by whitespace,
      is a prefix of `s` followed by whitespace when `s` ends in whitespace. */
  lemma PrefixThenSpace(s: string, r: string)
    requires s != [] && IsSpace(s[|s| - 1])
    requires |r| <= |s| - 1 && r == s[..|s| - 1][..|r|] && AllSpace(s[..|s| - 1][|r|..])
    ensures r == s[..|r|] && AllSpace(s[|r|..])
  {
    assert s[|r|..] == s[..|s| - 1][|r|..] + [s[|s| - 1]];
  }

  /** `trim()` */
  function Trim(s: string): string
  {
    TrimEnd(TrimStart(s))
  }

  /** What `trim()` leaves is a slice of the input with whitespace, and only
      whitespace, cut off on both sides. */
  lemma TrimIsSlice(s: string)
    ensures exists i, j :: 0 <= i <= j <= |s| && Trim(s) == s[i..j] && AllSpace(s[..i]) && AllSpace(s[j..])
    ensures Trim(s) == [] || (!IsSpace(Trim(s)[0]) && !IsSpace(Trim(s)[|Trim(s)| - 1]))
  {
    var t := TrimStart(s);
    var r := TrimEnd(t);
    TrimStartShape(s);
    TrimEndShape(t);
    SliceOfSlice(s, t, r);
    if r != [] {
      assert r[0] == t[0];
    }
  }

  /** Cutting whitespace off the front and then off the back leaves a slice
      with only whitespace on either side. */
  lemma SliceOfSlice(s: string, t: string, r: string)
    requires |t| <= |s| && t == s[|s| - |t|..] && AllSpace(s[..|s| - |t|])
    requires |r| <= |t| && r == t[..|r|] && AllSpace(t[|r|..])
    ensures exists i, j :: 0 <= i <= j <= |s| && r == s[i..j] && AllSpace(s[..i]) && AllSpace(s[j..])
  {
    var i := |s| - |t|;
    var j := i + |r|;
    assert s[i..j] == t[..|r|];
    assert s[j..] == t[|r|..];
  }

  /** Whitespace around a text whose ends are not whitespace is exactly what
      `trim()` removes. */
  lemma {:induction false} TrimPadded(w1: string, t: string, w2: string)
    requires AllSpace(w1) && AllSpace(w2)
    requires t == [] || (!IsSpace(t[0]) && !IsSpace(t[|t| - 1]))
    ensures Trim(w1 + t + w2) == t
  {
    if t == [] {
      assert w1 + t + w2 == w1 + w2;
      TrimStartAllSpace(w1 + w2);
    } else {
      assert w1 + t + w2 == w1 + (t + w2);
      TrimStartPadded(w1, t + w2);
      TrimEndPadded(t, w2);
    }
  }

  lemma {:induction false} TrimStartPadded(w: string, t: string)
    requires AllSpace(w)
    requires t != [] && !IsSpace(t[0])
    ensures TrimStart(w + t) == t
  {
    if w != [] {
      assert (w + t)[1..] == w[1..] + t;
      TrimStartPadded(w[1..], t);
    } else {
      assert w + t == t;
    }
  }

  lemma {:induction false} TrimStartAllSpace(w: string)
    requires AllSpace(w)
    ensures TrimStart(w) == [] && TrimEnd([]) == []
  {
    if w != [] {
      TrimStartAllSpace(w[1..]);
    }
  }

  lemma {:induction false} TrimEndPadded(t: string, w: string)
    requires AllSpace(w)
    requires t != [] && !IsSpace(t[|t| - 1])
    ensures TrimEnd(t + w) == t
  {
    if w != [] {
      assert (t + w)[..|t + w| - 1] == t + w[..|w| - 1];
      TrimEndPadded(t, w[..|w| - 1]);
    } else {
      assert t + w == t;
    }
  }

  /** `s.split(sep)` for a one-character separator: the pieces between the
      separators, always at least one. */
  function Split(s: string, sep: char): (r: seq<string>)
    ensures |r| >= 1
  {
    if s == [] then [""]
    else
      var rest := Split(s[1..], sep);
      if s[0] == sep then [""] + rest
      else [[s[0]] + rest[0]] + rest[1..]
  }

  /** `parts.join(sep)` */
  function Join(parts: seq<string>, sep: string): string
  {
    if |parts| == 0 then ""
    else if |parts| == 1 then parts[0]
    else parts[0] + sep + Join(parts[1..], sep)
  }

  /** Splitting and joining with the same separator are inverse, and no piece
      contains the separator. */
  lemma {:induction false} SplitJoin(s: string, sep: char)
    ensures Join(Split(s, sep), [sep]) == s
    ensures forall k :: 0 <= k < |Split(s, sep)| ==> sep !in Split(s, sep)[k]
  {
    if s != [] {
      SplitJoin(s[1..], sep);
      assert s == [s[0]] + s[1..];
      SplitJoinCons(s[0], s[1..], sep);
    }
  }

  /** The step of `SplitJoin`: one more character in front. */
  lemma SplitJoinCons(c: char, t: string, sep: char)
    requires Join(Split(t, sep), [sep]) == t
    requires forall k :: 0 <= k < |Split(t, sep)| ==> sep !in Split(t, sep)[k]
    ensures Join(Split([c] + t, sep), [sep]) == [c] + t
    ensures forall k :: 0 <= k < |Split([c] + t, sep)| ==> sep !in Split([c] + t, sep)[k]
  {
    var rest := Split(t, sep);
    SplitCons(c, t, sep);
    if c == sep {
      JoinEmptyFirst(rest, [sep]);
      PiecesAfterEmpty(rest, sep);
    } else {
      JoinGlue(c, rest, [sep]);
      PiecesGlued(c, rest, sep);
    }
  }

  lemma JoinEmptyFirst(rest: seq<string>, sep: string)
    requires |rest| >= 1
    ensures Join([""] + rest, sep) == sep + Join(rest, sep)
  {
    assert ([""] + rest)[1..] == rest;
  }

  lemma JoinGlue(c: char, rest: seq<string>, sep: string)
    requires |rest| >= 1
    ensures Join([[c] + rest[0]] + rest[1..], sep) == [c] + Join(rest, sep)
  {
    var r := [[c] + rest[0]] + rest[1..];
    if |rest| > 1 {
      assert r[1..] == rest[1..];
    }
  }

  lemma PiecesAfterEmpty(rest: seq<string>, sep: char)
    requires forall k :: 0 <= k < |rest| ==> sep !in rest[k]
    ensures forall k :: 0 <= k < |[""] + rest| ==> sep !in ([""] + rest)[k]
  {
    forall k | 0 < k < |[""] + rest| ensures sep !in ([""] + rest)[k] {
      assert ([""] + rest)[k] == rest[k - 1];
    }
  }

  lemma PiecesGlued(c: char, rest: seq<string>, sep: char)
    requires c != sep && |rest| >= 1
    requires forall k :: 0 <= k < |rest| ==> sep !in rest[k]
    ensures var r := [[c] + rest[0]] + rest[1..];
      forall k :: 0 <= k < |r| ==> sep !in r[k]
  {
    var r := [[c] + rest[0]] + rest[1..];
    forall k | 0 <= k < |r| ensures sep !in r[k] {
      if k == 0 {
        assert sep !in rest[0];
      } else {
        assert r[k] == rest[k];
      }
    }
  }

  lemma SplitCons(c: char, s: string, sep: char)
    ensures Split([c] + s, sep) ==
      if c == sep then [""] + Split(s, sep) else [[c] + Split(s, sep)[0]] + Split(s, sep)[1..]
  {
    assert ([c] + s)[1..] == s;
  }

  /** Gluing a character onto the first piece commutes with appending more
      pieces after the last one. */
  lemma GlueFirst(c: char, ra: seq<string>, rb: seq<string>)
    requires |ra| >= 1
    ensures [[c] + (ra + rb)[0]] + (ra + rb)[1..] == ([[c] + ra[0]] + ra[1..]) + rb
  {
    assert (ra + rb)[0] == ra[0];
    assert (ra + rb)[1..] == ra[1..] + rb;
  }

  /** Splitting at a separator splits the pieces there: the pieces of
      `a + sep + b` are those of `a` followed by those of `b`. */
  lemma {:induction false} SplitConcat(a: string, sep: char, b: string)
    ensures Split(a + [sep] + b, sep) == Split(a, sep) + Split(b, sep)
  {
    if a == [] {
      assert a + [sep] + b == [sep] + b;
      SplitCons(sep, b, sep);
    } else {
      SplitConcat(a[1..], sep, b);
      assert a == [a[0]] + a[1..];
      assert a + [sep] + b == [a[0]] + (a[1..] + [sep] + b);
      SplitConsStep(a[0], a[1..] + [sep] + b, a[1..], sep, Split(b, sep));
    }
  }

  /** The step of `SplitConcat`: when the pieces of `t` are those of `a`
      followed by `rb`, putting one character in front of both keeps that so. */
  lemma SplitConsStep(c: char, t: string, a: string, sep: char, rb: seq<string>)
    requires Split(t, sep) == Split(a, sep) + rb
    ensures Split([c] + t, sep) == Split([c] + a, sep) + rb
  {
    var ra := Split(a, sep);
    SplitCons(c, t, sep);
    SplitCons(c, a, sep);
    if c == sep {
      SepFirst(ra, rb);
    } else {
      GlueFirst(c, ra, rb);
    }
  }

  lemma SepFirst(ra: seq<string>, rb: seq<string>)
    ensures [""] + (ra + rb) == ([""] + ra) + rb
  {
  }

  /** The value of a decimal digit. */
  function DigitValue(c: char): nat
    requires IsDigit(c)
  {
    (c as int - '0' as int) as nat
  }

  /** The decimal value of a digit string, as `Number("0042")` reads it. */
  function DigitsValue(s: string): nat
    requires AllDigits(s)
  {
    if s == [] then 0 else DigitsValue(s[..|s| - 1]) * 10 + DigitValue(s[|s| - 1])
  }

  function DigitChar(d: nat): (c: char)
    requires d < 10
    ensures IsDigit(c) && DigitValue(c) == d
  {
    ('0' as int + d) as char
  }

  /** `String(n)` for a non-negative integer. */
  function NatToString(n: nat): string
  {
    if n < 10 then [DigitChar(n)] else NatToString(n / 10) + [DigitChar(n % 10)]
  }

  /** `String(i)` for an integer. */
  function IntToString(i: int): string
  {
    if i < 0 then "-" + NatToString(-i) else NatToString(i)
  }

  /** Writing a number in decimal and reading it back gives the number. */
  lemma {:induction false} NatToStringValue(n: nat)
    ensures |NatToString(n)| >= 1 && AllDigits(NatToString(n))
    ensures DigitsValue(NatToString(n)) == n
  {
    if n >= 10 {
      NatToStringValue(n / 10);
      var s := NatToString(n);
      assert s[..|s| - 1] == NatToString(n / 10);
    }
  }

  /** `s.padStart(width, fill)` for a one-character fill. */
  function PadStart(s: string, width: nat, fill: char): (r: string)
    ensures |r| == if |s| < width then width else |s|
    ensures EndsWith(r, s) && forall i :: 0 <= i < |r| - |s| ==> r[i] == fill
  {
    if |s| < width then seq(width - |s|, _ => fill) + s else s
  }

  /** Leading zeros do not change the value of a digit string. */
  lemma {:induction false} LeadingZeros(z: nat, s: string)
    requires AllDigits(s)
    ensures AllDigits(seq(z, _ => '0') + s)
    ensures DigitsValue(seq(z, _ => '0') + s) == DigitsValue(s)
  {
    var p := seq(z, _ => '0');
    if s == [] {
      assert p + s == p;
      ZerosValue(z);
    } else {
      LeadingZeros(z, s[..|s| - 1]);
      assert (p + s)[..|p + s| - 1] == p + s[..|s| - 1];
    }
  }

  lemma {:induction false} ZerosValue(z: nat)
    ensures AllDigits(seq(z, _ => '0')) && DigitsValue(seq(z, _ => '0')) == 0
  {
    if z > 0 {
      ZerosValue(z - 1);
      assert seq(z, _ => '0')[..z - 1] == seq(z - 1, _ => '0');
    }
  }

  /** The number of bytes UTF-8 spends on `c`. */
  function Utf8Width(c: char): (n: nat)
    ensures 1 <= n <= 4
  {
    if c as int < 0x80 then 1
    else if c as int < 0x800 then 2
    else if c as int < 0x10000 then 3
    else 4
  }

  /** `Buffer.from(s).length`: the length of the UTF-8 encoding of `s`. */
  function Utf8Length(s: string): (n: nat)
    ensures n >= |s|
  {
    if s == [] then 0 else Utf8Length(s[..|s| - 1]) + Utf8Width(s[|s| - 1])
  }

  /** `s.length`: the number of UTF-16 code units of `s`. */
  function Utf16Length(s: string): (n: nat)
    ensures |s| <= n <= 2 * |s|
  {
    if s == [] then 0 else Utf16Length(s[..|s| - 1]) + (if s[|s| - 1] as int < 0x10000 then 1 else 2)
  }

  /** Joining one more piece adds the separator and the piece at the end. */
  lemma {:induction false} JoinAppend(parts: seq<string>, p: string, sep: string)
    requires parts != []
    ensures Join(parts + [p], sep) == Join(parts, sep) + sep + p
  {
    if |parts| > 1 {
      JoinAppend(parts[1..], p, sep);
      assert (parts + [p])[1..] == parts[1..] + [p];
    }
  }
}
