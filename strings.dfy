/**
 * What the scripts rely on about Python strings: the order `<` that `sorted`
 * uses, zero-padded decimal fields as `strftime` writes them, `int()` on a
 * decimal string, and text made of newline-terminated lines.
 */
module Strings {

  import opened Wrappers

  // ---------------------------------------------------------------------------
  // Python's `<` on `str`: code point by code point, a proper prefix first.
  // ---------------------------------------------------------------------------

  predicate Below(a: string, b: string)
    decreases |a|
  {
    if a == [] then b != []
    else if b == [] then false
    else if a[0] != b[0] then a[0] < b[0]
    else Below(a[1..], b[1..])
  }

  lemma {:induction false} BelowIrreflexive(a: string)
    ensures !Below(a, a)
    decreases |a|
  {
    if a != [] {
      BelowIrreflexive(a[1..]);
    }
  }

  lemma {:induction false} BelowAsymmetric(a: string, b: string)
    requires Below(a, b)
    ensures !Below(b, a)
    decreases |a|
  {
    if a != [] && b != [] && a[0] == b[0] {
      BelowAsymmetric(a[1..], b[1..]);
    }
  }

  lemma {:induction false} BelowTransitive(a: string, b: string, c: string)
    requires Below(a, b) && Below(b, c)
    ensures Below(a, c)
    decreases |a|
  {
    if a != [] && a[0] == b[0] && b[0] == c[0] {
      BelowTransitive(a[1..], b[1..], c[1..]);
    }
  }

  lemma {:induction false} BelowTotal(a: string, b: string)
    ensures a == b || Below(a, b) || Below(b, a)
    decreases |a|
  {
    if a != [] && b != [] && a[0] == b[0] {
      BelowTotal(a[1..], b[1..]);
      if a[1..] == b[1..] {
        assert a == [a[0]] + a[1..] && b == [b[0]] + b[1..];
      }
    }
  }

  /** Two strings that start with fields of equal width compare by the first field, then by the rest. */
  lemma {:induction false} BelowAppend(x1: string, y1: string, x2: string, y2: string)
    requires |x1| == |x2|
    ensures Below(x1 + y1, x2 + y2) <==> Below(x1, x2) || (x1 == x2 && Below(y1, y2))
    ensures x1 + y1 == x2 + y2 <==> x1 == x2 && y1 == y2
    decreases |x1|
  {
    if x1 == [] {
      assert x1 + y1 == y1 && x2 + y2 == y2;
    } else {
      assert (x1 + y1)[0] == x1[0] && (x2 + y2)[0] == x2[0];
      assert (x1 + y1)[1..] == x1[1..] + y1 && (x2 + y2)[1..] == x2[1..] + y2;
      BelowAppend(x1[1..], y1, x2[1..], y2);
      if x1[0] == x2[0] && x1[1..] == x2[1..] {
        assert x1 == [x1[0]] + x1[1..] && x2 == [x2[0]] + x2[1..];
      }
      if x1 + y1 == x2 + y2 {
        assert x1 == (x1 + y1)[..|x1|] && x2 == (x2 + y2)[..|x2|];
      }
    }
  }

  predicate EndsWith(s: string, suffix: string)
  {
    |suffix| <= |s| && s[|s| - |suffix|..] == suffix
  }

  // ---------------------------------------------------------------------------
  // `sorted` over a set of distinct names.
  // ---------------------------------------------------------------------------

  predicate Ascending(s: seq<string>)
  {
    forall i, j :: 0 <= i < j < |s| ==> Below(s[i], s[j])
  }

  predicate IsLeast(m: string, names: set<string>)
  {
    m in names && forall x :: x in names && x != m ==> Below(m, x)
  }

  lemma {:induction false} LeastExists(names: set<string>)
    requires names != {}
    ensures exists m :: IsLeast(m, names)
    decreases |names|
  {
    var x :| x in names;
    if names == {x} {
      assert IsLeast(x, names);
    } else {
      var rest := names - {x};
      LeastExists(rest);
      var m :| IsLeast(m, rest);
      BelowTotal(m, x);
      if Below(m, x) {
        assert IsLeast(m, names);
      } else {
        forall y | y in names && y != x
          ensures Below(x, y)
        {
          if y != m {
            BelowTransitive(x, m, y);
          }
        }
        assert IsLeast(x, names);
      }
    }
  }

  lemma LeastUnique(m1: string, m2: string, names: set<string>)
    requires IsLeast(m1, names) && IsLeast(m2, names)
    ensures m1 == m2
  {
    if m1 != m2 {
      BelowAsymmetric(m1, m2);
    }
  }

  function Least(names: set<string>): (m: string)
    requires names != {}
    ensures IsLeast(m, names)
  {
    LeastExists(names);
    var m :| IsLeast(m, names);
    forall m' | IsLeast(m', names) ensures m' == m {
      LeastUnique(m, m', names);
    }
    m
  }

  /** The elements of `names` in ascending order, each once: Python's `sorted` of a set of strings. */
  function SortedSet(names: set<string>): (r: seq<string>)
    ensures Ascending(r)
    ensures forall x :: x in r <==> x in names
    ensures |r| == |names|
    decreases |names|
  {
    if names == {} then []
    else
      var m := Least(names);
      var rest := SortedSet(names - {m});
      assert forall j :: 0 <= j < |rest| ==> rest[j] in names - {m};
      [m] + rest
  }

  /** An ascending sequence is determined by its elements: `SortedSet` is the only answer. */
  lemma {:induction false} AscendingUnique(s: seq<string>, names: set<string>)
    requires Ascending(s)
    requires forall x :: x in s <==> x in names
    ensures s == SortedSet(names)
    decreases |s|
  {
    if s == [] {
      assert names == {};
    } else {
      assert s[0] in names;
      var m := Least(names);
      forall x | x in names && x != s[0]
        ensures Below(s[0], x)
      {
        var k :| 0 <= k < |s| && s[k] == x;
        if k == 0 {
          assert false;
        }
      }
      LeastUnique(s[0], m, names);
      forall i | 1 <= i < |s| ensures s[i] != s[0] {
        BelowIrreflexive(s[0]);
      }
      forall x | x in s[1..] ensures x in names - {m} {
        var k :| 1 <= k < |s| && s[k] == x;
      }
      forall x | x in names - {m} ensures x in s[1..] {
        var k :| 0 <= k < |s| && s[k] == x;
        assert k != 0;
        assert s[1..][k - 1] == x;
      }
      AscendingUnique(s[1..], names - {m});
      assert s == [s[0]] + s[1..];
    }
  }

  // ---------------------------------------------------------------------------
  // Zero-padded decimal fields (`strftime`'s %Y, %m, %d, %H, %M, %S).
  // ---------------------------------------------------------------------------

  function Pow10(w: nat): (p: nat)
    ensures p >= 1
  {
    if w == 0 then 1 else 10 * Pow10(w - 1)
  }

  function DigitChar(d: nat): char
    requires d < 10
  {
    ('0' as int + d) as char
  }

  /** `n` written in decimal with exactly `width` digits, zero-filled on the left. */
  function Padded(n: nat, width: nat): (s: string)
    ensures |s| == width
  {
    if width == 0 then [] else Padded(n / 10, width - 1) + [DigitChar(n % 10)]
  }

  lemma DivTen(n: nat, w: nat)
    requires w > 0 && n < Pow10(w)
    ensures n / 10 < Pow10(w - 1)
  {
  }

  /** On numbers that fit the width, padded fields compare as the numbers do. */
  lemma {:induction false} PaddedOrder(n: nat, m: nat, width: nat)
    requires n < Pow10(width) && m < Pow10(width)
    ensures Below(Padded(n, width), Padded(m, width)) <==> n < m
    ensures Padded(n, width) == Padded(m, width) <==> n == m
  {
    if width == 0 {
      BelowIrreflexive([]);
    } else {
      DivTen(n, width);
      DivTen(m, width);
      PaddedOrder(n / 10, m / 10, width - 1);
      BelowAppend(Padded(n / 10, width - 1), [DigitChar(n % 10)], Padded(m / 10, width - 1), [DigitChar(m % 10)]);
      assert Below([DigitChar(n % 10)], [DigitChar(m % 10)]) <==> n % 10 < m % 10;
      assert [DigitChar(n % 10)] == [DigitChar(m % 10)] <==> n % 10 == m % 10;
      assert n == 10 * (n / 10) + n % 10 && m == 10 * (m / 10) + m % 10;
    }
  }

  // ---------------------------------------------------------------------------
  // Python's `int()` on a decimal string.
  // ---------------------------------------------------------------------------

  predicate AllDigits(s: string)
  {
    forall i :: 0 <= i < |s| ==> '0' <= s[i] <= '9'
  }

  function DigitsValue(s: string): nat
    requires AllDigits(s)
  {
    if s == [] then 0 else DigitsValue(s[..|s| - 1]) * 10 + (s[|s| - 1] as int - '0' as int)
  }

  /** A non-empty run of ASCII digits and its value; anything else is refused. */
  function ParseDigits(s: string): Option<nat>
  {
    if s != [] && AllDigits(s) then Some(DigitsValue(s)) else None
  }

  /** `int(s)`: an optional sign, then decimal digits; `None` stands for the ValueError. */
  function ParseInt(s: string): (r: Option<int>)
    ensures r.Some? ==> s != []
  {
    if s != [] && (s[0] == '-' || s[0] == '+') then
      match ParseDigits(s[1..])
      case Some(v) => var x: int := v; Some(if s[0] == '-' then -x else x)
      case None => None
    else
      match ParseDigits(s)
      case Some(v) => Some(v)
      case None => None
  }

  /** Reading back a padded field gives the number that was written. */
  lemma {:induction false} ParsePadded(n: nat, width: nat)
    requires width > 0 && n < Pow10(width)
    ensures ParseDigits(Padded(n, width)) == Some(n)
    ensures ParseInt(Padded(n, width)) == Some(n)
  {
    var s := Padded(n, width);
    DivTen(n, width);
    assert s[..width - 1] == Padded(n / 10, width - 1);
    if width == 1 {
      assert n / 10 == 0;
    } else {
      ParsePadded(n / 10, width - 1);
    }
    assert AllDigits(s);
    assert DigitsValue(s) == DigitsValue(Padded(n / 10, width - 1)) * 10 + n % 10;
  }

  // ---------------------------------------------------------------------------
  // Newline-terminated lines.
  // ---------------------------------------------------------------------------

  /** Each line followed by "\n", as a file written line by line reads back. */
  function Join(lines: seq<string>): string
  {
    if lines == [] then "" else lines[0] + "\n" + Join(lines[1..])
  }

  lemma {:induction false} JoinSnoc(lines: seq<string>, line: string)
    ensures Join(lines + [line]) == Join(lines) + line + "\n"
  {
    if lines == [] {
      assert lines + [line] == [line];
    } else {
      assert (lines + [line])[1..] == lines[1..] + [line];
      JoinSnoc(lines[1..], line);
    }
  }

  /** Index of the first newline in `s`, or `|s|` if there is none. */
  function FirstNewline(s: string): (k: nat)
    ensures k <= |s|
    ensures forall j :: 0 <= j < k ==> s[j] != '\n'
    ensures k < |s| ==> s[k] == '\n'
  {
    if s == [] || s[0] == '\n' then 0 else 1 + FirstNewline(s[1..])
  }

  /** Splits a text at its newlines; a final line without a newline still counts. */
  function Lines(s: string): seq<string>
    decreases |s|
  {
    if s == [] then []
    else
      var k := FirstNewline(s);
      [s[..k]] + (if k < |s| then Lines(s[k + 1..]) else [])
  }

  predicate NoNewlines(lines: seq<string>)
  {
    forall i :: 0 <= i < |lines| ==> '\n' !in lines[i]
  }

  /** Splitting what `Join` wrote gives back the lines, as long as none holds a newline. */
  lemma {:induction false} LinesOfJoin(lines: seq<string>)
    requires NoNewlines(lines)
    ensures Lines(Join(lines)) == lines
  {
    if lines != [] {
      var l := lines[0];
      var rest := Join(lines[1..]);
      var s := Join(lines);
      assert s == l + ("\n" + rest);
      var k := FirstNewline(s);
      assert s[|l|] == '\n';
      assert forall j :: 0 <= j < |l| ==> s[j] == l[j];
      assert k == |l|;
      assert s[..k] == l;
      assert s[k + 1..] == rest;
      assert NoNewlines(lines[1..]) by {
        forall i | 0 <= i < |lines[1..]| ensures '\n' !in lines[1..][i] {
          assert lines[1..][i] == lines[i + 1];
        }
      }
      LinesOfJoin(lines[1..]);
      assert lines == [l] + lines[1..];
    }
  }
}
